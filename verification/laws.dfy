/** How the store's mutations show up in its views. */
module StoreLaws {
  import opened Wrappers
  import opened OrderedMaps
  import opened Decimal
  import opened Tickets
  import opened Mutations
  import opened Queries
  import opened Statistics

  /** Under the id invariant a create lists exactly one new id, last. */
  lemma {:induction false} CreateAppendsOneId(d: Store, t: Value)
    requires ValidStore(d) && t.Ticket? && IdsBelowCounter(d)
    ensures GetAllIds(Created(d, t)) == GetAllIds(d) + [NextKey(d)]
  {
    NextKeyIsFresh(d);
    var k := NextKey(d);
    CreatedFrame(d, t);
    var tail := if IdNumbers in d.entries then [] else [IdNumbers];
    assert Created(d, t).keys == (d.keys + [k]) + tail;
    IdKeyIsNotReserved(CounterOf(d) + 1);
    NonReservedSnoc(d.keys, k);
    NonReservedConcat(d.keys + [k], tail);
    NoIdsAmongMetadata(tail);
    assert NonReserved(d.keys) + [k] + [] == NonReserved(d.keys) + [k];
  }

  /** A list of reserved keys holds no id. */
  lemma {:induction false} NoIdsAmongMetadata(ks: seq<string>)
    requires ks == [] || ks == [IdNumbers]
    ensures NonReserved(ks) == []
  {
    if ks != [] {
      assert ks[..0] == [];
    }
  }

  /** Reading a ticket back after creating it gives an open ticket with the given description and priority. */
  lemma {:induction false} CreateThenGet(d: Store, descricao: string, prioridade: string)
    requires ValidStore(d)
    ensures var t := ToDict(Chamado(descricao, prioridade));
      GetChamadoById(Created(d, t), NextKey(d)) == Some(Ticket(Some(true), Some(prioridade), Some(descricao)))
  {
  }

  /** A reset store hands out id 1 next, and then lists only that id. */
  lemma {:induction false} ResetThenCreateYieldsIdOne(t: Value)
    requires t.Ticket?
    ensures NextKey(InitialStore()) == "1"
    ensures GetAllIds(Created(InitialStore(), t)) == ["1"]
    ensures GetChamadoById(Created(InitialStore(), t), "1") == Some(t)
  {
    assert NatToString(1) == "1";
    InitialStoreIdsBelowCounter();
    CreateAppendsOneId(InitialStore(), t);
    assert GetAllIds(InitialStore()) == [] by {
      assert InitialStore().keys[..0] == [];
    }
  }

  // ---- counting across mutations ----

  function Bump(v: Value, c: Criterion): nat {
    if Meets(v, c) then 1 else 0
  }

  lemma {:induction false} CountWhereConcat(d: Store, a: seq<string>, b: seq<string>, c: Criterion)
    ensures CountWhere(d, a + b, c) == CountWhere(d, a, c) + CountWhere(d, b, c)
    decreases |b|
  {
    if b == [] {
      assert a + b == a;
    } else {
      CountWhereConcat(d, a, b[..|b| - 1], c);
      assert (a + b)[..|a + b| - 1] == a + b[..|b| - 1];
    }
  }

  /** Counts only look at the ticket keys they scan. */
  lemma {:induction false} CountWhereFrame(d: Store, d': Store, ks: seq<string>, c: Criterion)
    requires forall k | k in ks && !IsReserved(k) :: Get(d, k) == Get(d', k)
    ensures CountWhere(d, ks, c) == CountWhere(d', ks, c)
  {
    if ks != [] {
      CountWhereFrame(d, d', ks[..|ks| - 1], c);
      var k := ks[|ks| - 1];
      if !IsReserved(k) {
        assert Get(d, k) == Get(d', k);
      }
    }
  }

  lemma {:induction false} CreateKeepsOldCounts(d: Store, t: Value, c: Criterion)
    requires ValidStore(d) && t.Ticket? && IdsBelowCounter(d)
    ensures CountWhere(Created(d, t), d.keys, c) == CountWhere(d, d.keys, c)
  {
    var r := Created(d, t);
    NextKeyIsFresh(d);
    CreatedFrame(d, t);
    assert forall k | k in d.keys && !IsReserved(k) :: Get(d, k) == Get(r, k);
    CountWhereFrame(d, r, d.keys, c);
  }

  lemma {:induction false} CreateCounts(d: Store, t: Value, c: Criterion)
    requires ValidStore(d) && t.Ticket? && IdsBelowCounter(d)
    ensures CountWhere(Created(d, t), Created(d, t).keys, c) == CountWhere(d, d.keys, c) + Bump(t, c)
  {
    var r := Created(d, t);
    var nk := NextKey(d);
    CreateKeepsOldCounts(d, t, c);
    CreatedFrame(d, t);
    IdKeyIsNotReserved(CounterOf(d) + 1);
    NextKeyIsFresh(d);
    CountWhereSnoc(r, d.keys, nk, c);
    if IdNumbers !in d.entries {
      assert r.keys == (d.keys + [nk]) + [IdNumbers];
      CountWhereSnoc(r, d.keys + [nk], IdNumbers, c);
    }
  }

  /**
   * A create adds one to the total, one to the closed count if the ticket is
   * closed, and one to a priority bucket only if its priority is literally
   * that bucket's name: a ticket with priority "urgent" (or none) raises the
   * total and no bucket.
   */
  lemma {:induction false} CreateUpdatesStatistics(d: Store, t: Value)
    requires ValidStore(d) && t.Ticket? && IdsBelowCounter(d)
    ensures var s, s' := GetEstatisticas(d), GetEstatisticas(Created(d, t));
      && s'.totalChamados == s.totalChamados + 1
      && s'.finalizados == s.finalizados + Bump(t, Finalizado)
      && s'.porPrioridade.high == s.porPrioridade.high + Bump(t, PrioridadeIs("high"))
      && s'.porPrioridade.medium == s.porPrioridade.medium + Bump(t, PrioridadeIs("medium"))
      && s'.porPrioridade.low == s.porPrioridade.low + Bump(t, PrioridadeIs("low"))
      && s'.porPrioridade.nullPriority == s.porPrioridade.nullPriority + Bump(t, PrioridadeIs("NullPriority"))
  {
    CreateCounts(d, t, Any);
    CreateCounts(d, t, Finalizado);
    CreateCounts(d, t, PrioridadeIs("high"));
    CreateCounts(d, t, PrioridadeIs("medium"));
    CreateCounts(d, t, PrioridadeIs("low"));
    CreateCounts(d, t, PrioridadeIs("NullPriority"));
  }

  lemma {:induction false} CountWhereSnoc(d: Store, s: seq<string>, k: string, c: Criterion)
    ensures CountWhere(d, s + [k], c)
            == CountWhere(d, s, c) + (if !IsReserved(k) && k in d.entries && Meets(d.entries[k], c) then 1 else 0)
  {
    assert (s + [k])[..|s + [k]| - 1] == s;
  }

  lemma {:induction false} CleanCounts(d: Store, ks: seq<string>)
    requires ValidStore(d) && forall k | k in ks :: k in d.entries
    ensures CountWhere(CleanFinished(d), KeepOpen(d, ks), Any) + CountWhere(d, ks, Finalizado) == CountWhere(d, ks, Any)
    ensures CountWhere(CleanFinished(d), KeepOpen(d, ks), Finalizado) == 0
  {
    if ks != [] {
      var init, k := ks[..|ks| - 1], ks[|ks| - 1];
      assert ks == init + [k];
      CleanCounts(d, init);
      var r := CleanFinished(d);
      var kept := KeepOpen(d, init);
      KeepOpenSnoc(d, init, k);
      CountWhereSnoc(d, init, k, Any);
      CountWhereSnoc(d, init, k, Finalizado);
      if IsClosedTicket(d, k) {
        assert KeepOpen(d, ks) == kept + [];
        assert kept + [] == kept;
      } else {
        assert KeepOpen(d, ks) == kept + [k];
        CountWhereSnoc(r, kept, k, Any);
        CountWhereSnoc(r, kept, k, Finalizado);
        assert k in r.entries && r.entries[k] == d.entries[k];
      }
    }
  }

  /**
   * Cleaning drops exactly the closed tickets from the statistics: the total
   * falls by the old closed count, and nothing closed is left.
   */
  lemma {:induction false} CleanUpdatesStatistics(d: Store)
    requires ValidStore(d)
    ensures var s, s' := GetEstatisticas(d), GetEstatisticas(CleanFinished(d));
      && s'.totalChamados + s.finalizados == s.totalChamados
      && s'.finalizados == 0
  {
    CleanCounts(d, d.keys);
  }

  lemma {:induction false} NonReservedKeepOpen(d: Store, ks: seq<string>)
    ensures NonReserved(KeepOpen(d, ks)) == KeepOpen(d, NonReserved(ks))
  {
    if ks != [] {
      var init, k := ks[..|ks| - 1], ks[|ks| - 1];
      assert ks == init + [k];
      NonReservedKeepOpen(d, init);
      KeepOpenSnoc(d, init, k);
      NonReservedSnoc(init, k);
      var a, b := KeepOpen(d, init), NonReserved(init);
      if IsReserved(k) {
        assert KeepOpen(d, ks) == a + [k] && NonReserved(ks) == b + [];
        NonReservedSnoc(a, k);
        assert b + [] == b;
        assert NonReserved(a + [k]) == NonReserved(a) + [];
      } else if IsClosedTicket(d, k) {
        assert KeepOpen(d, ks) == a + [];
        assert a + [] == a;
        KeepOpenSnoc(d, b, k);
        assert KeepOpen(d, b + [k]) == KeepOpen(d, b) + [];
      } else {
        NonReservedSnoc(a, k);
        KeepOpenSnoc(d, b, k);
      }
    }
  }

  /** The surviving ids are the old ids minus the closed ones, in the old order. */
  lemma {:induction false} CleanKeepsIdOrder(d: Store)
    requires ValidStore(d)
    ensures GetAllIds(CleanFinished(d)) == KeepOpen(d, GetAllIds(d))
  {
    NonReservedKeepOpen(d, d.keys);
  }
}
