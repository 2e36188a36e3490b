/**
 * The store's mutations as functions of the old store: creating a ticket,
 * closing one, removing the closed ones (as intended, and as the code does it).
 * The `Database` methods are proved to compute exactly these.
 */
module Mutations {
  import opened Wrappers
  import opened OrderedMaps
  import opened Decimal
  import opened Tickets

  /** The key the next created ticket is stored under. */
  function NextKey(d: Store): (k: string)
    ensures ParseInt(k) == Some(CounterOf(d) + 1)
    ensures !IsReserved(k)
  {
    IntToStringRoundTrip(CounterOf(d) + 1);
    IdKeyIsNotReserved(CounterOf(d) + 1);
    IntToString(CounterOf(d) + 1)
  }

  /**
   * `write_chamado_to_database`: bind `str(n + 1)` to the ticket, then set the
   * counter to `n + 1`, where `n` is the old counter.
   */
  function Created(d: Store, t: Value): (r: Store)
    ensures ValidStore(d) && t.Ticket? ==> ValidStore(r)
    ensures CounterOf(r) == CounterOf(d) + 1
    ensures Get(r, NextKey(d)) == Some(t)
  {
    var n := CounterOf(d) + 1;
    IdKeyIsNotReserved(n);
    Set(Set(d, IntToString(n), t), IdNumbers, Counter(n))
  }

  /** The two assignments of a create, written out, give `Created`. */
  lemma {:induction false} CreatedBySteps(d: Store, t: Value, n: int)
    requires n == CounterOf(d) + 1
    ensures Set(Set(d, IntToString(n), t), IdNumbers, Counter(n)) == Created(d, t)
  {
  }

  /**
   * A create touches only the new id and the counter, and keeps the key order:
   * the new id is appended unless already present, then the counter key unless
   * already present.
   */
  lemma {:induction false} CreatedFrame(d: Store, t: Value)
    ensures forall k | k != NextKey(d) && k != IdNumbers :: Get(Created(d, t), k) == Get(d, k)
    ensures Created(d, t).keys == (if NextKey(d) in d.entries then d.keys else d.keys + [NextKey(d)])
                                 + (if IdNumbers in d.entries then [] else [IdNumbers])
  {
    IdKeyIsNotReserved(CounterOf(d) + 1);
  }

  /** Under the id invariant the next key is unused, so a create appends exactly one ticket. */
  lemma {:induction false} NextKeyIsFresh(d: Store)
    requires IdsBelowCounter(d)
    ensures NextKey(d) !in d.entries
  {
    var n := CounterOf(d) + 1;
    IntToStringRoundTrip(n);
    IdKeyIsNotReserved(n);
  }

  /** Creating keeps every ticket key at or below the counter: ids are never handed out twice. */
  lemma {:induction false} CreatePreservesIdsBelowCounter(d: Store, t: Value)
    requires ValidStore(d) && t.Ticket? && IdsBelowCounter(d)
    ensures IdsBelowCounter(Created(d, t))
  {
    var r := Created(d, t);
    CreatedFrame(d, t);
    IntToStringRoundTrip(CounterOf(d) + 1);
    forall k | k in r.entries && !IsReserved(k) && ParseInt(k).Some?
      ensures ParseInt(k).value <= CounterOf(r)
    {
      if k != NextKey(d) {
        assert Get(r, k) == Get(d, k);
      }
    }
  }

  /** A run of creates, oldest first, each storing `chamado.to_dict()` as the menu does. */
  function CreateAll(d: Store, cs: seq<Chamado>): (r: Store)
    ensures ValidStore(d) ==> ValidStore(r)
    ensures CounterOf(r) == CounterOf(d) + |cs|
  {
    if cs == [] then d else Created(CreateAll(d, cs[..|cs| - 1]), ToDict(cs[|cs| - 1]))
  }

  /** A create leaves the binding of every other id as it was. */
  lemma {:induction false} CreateKeepsOtherId(d: Store, t: Value, j: int)
    requires j != CounterOf(d) + 1
    ensures Get(Created(d, t), IntToString(j)) == Get(d, IntToString(j))
  {
    CreatedFrame(d, t);
    if IntToString(j) == NextKey(d) {
      IntToStringInjective(j, CounterOf(d) + 1);
    }
    IdKeyIsNotReserved(j);
  }

  /** The last create of a run binds its ticket to `str(n + |cs|)`. */
  lemma {:induction false} CreateAllBindsLast(d: Store, cs: seq<Chamado>)
    requires cs != []
    ensures Get(CreateAll(d, cs), IntToString(CounterOf(d) + |cs|)) == Some(ToDict(cs[|cs| - 1]))
  {
    var prev := CreateAll(d, cs[..|cs| - 1]);
    assert NextKey(prev) == IntToString(CounterOf(d) + |cs|);
  }

  /** The last create of a run leaves the ids of the earlier ones alone. */
  lemma {:induction false} CreateAllKeepsEarlier(d: Store, cs: seq<Chamado>, i: int)
    requires 0 <= i < |cs| - 1
    ensures Get(CreateAll(d, cs), IntToString(CounterOf(d) + 1 + i))
            == Get(CreateAll(d, cs[..|cs| - 1]), IntToString(CounterOf(d) + 1 + i))
  {
    var prev := CreateAll(d, cs[..|cs| - 1]);
    assert CounterOf(prev) + 1 != CounterOf(d) + 1 + i;
    CreateKeepsOtherId(prev, ToDict(cs[|cs| - 1]), CounterOf(d) + 1 + i);
  }

  /** The i-th ticket of a run is bound to `str(n + 1 + i)` once the run is over. */
  lemma {:induction false} CreateAllBinds(d: Store, cs: seq<Chamado>, i: int)
    requires 0 <= i < |cs|
    ensures Get(CreateAll(d, cs), IntToString(CounterOf(d) + 1 + i)) == Some(ToDict(cs[i]))
  {
    if i == |cs| - 1 {
      CreateAllBindsLast(d, cs);
    } else {
      var init := cs[..|cs| - 1];
      assert init[i] == cs[i];
      CreateAllBinds(d, init, i);
      CreateAllKeepsEarlier(d, cs, i);
    }
  }

  /** Successive creates get ids n+1, n+2, ...: the i-th ticket sits under `str(n + 1 + i)`. */
  lemma {:induction false} CreatesAssignConsecutiveIds(d: Store, cs: seq<Chamado>)
    ensures CounterOf(CreateAll(d, cs)) == CounterOf(d) + |cs|
    ensures forall i | 0 <= i < |cs| :: Get(CreateAll(d, cs), IntToString(CounterOf(d) + 1 + i)) == Some(ToDict(cs[i]))
  {
    forall i | 0 <= i < |cs|
      ensures Get(CreateAll(d, cs), IntToString(CounterOf(d) + 1 + i)) == Some(ToDict(cs[i]))
    {
      CreateAllBinds(d, cs, i);
    }
  }

  /** What `fechar_chamado` does with a key. */
  datatype CloseResult =
    | NotFound          // `return False`
    | ClosedNone        // the status was set; the method falls off its end and returns None
    | NotSubscriptable  // the key holds the counter: `data[id]['status'] = False` raises TypeError

  function CloseOutcome(d: Store, k: string): (r: CloseResult)
    ensures r == NotFound <==> k !in d.entries
    ensures r == NotSubscriptable <==> k in d.entries && d.entries[k].Counter?
    ensures r == ClosedNone <==> k in d.entries && d.entries[k].Ticket?
  {
    if k !in d.entries then NotFound
    else if d.entries[k].Counter? then NotSubscriptable
    else ClosedNone
  }

  /** `data[k]['status'] = False` on a ticket dict; anything else is left alone. */
  function Closed(d: Store, k: string): (r: Store)
    requires ValidStore(d)
    ensures ValidStore(r)
  {
    if k in d.entries && d.entries[k].Ticket? then Set(d, k, d.entries[k].(status := Some(false))) else d
  }

  /** Closing touches only that ticket's status; keys, order and every other binding stay. */
  lemma {:induction false} CloseChangesOnlyStatus(d: Store, k: string)
    requires ValidStore(d)
    ensures Closed(d, k).keys == d.keys
    ensures forall j | j != k :: Get(Closed(d, k), j) == Get(d, j)
    ensures CloseOutcome(d, k) == ClosedNone ==>
      var t := d.entries[k];
      Get(Closed(d, k), k) == Some(Ticket(Some(false), t.prioridade, t.descricao))
    ensures CloseOutcome(d, k) != ClosedNone ==> Closed(d, k) == d
    ensures CounterOf(Closed(d, k)) == CounterOf(d)
  {
  }

  /** Closing twice is closing once. */
  lemma {:induction false} CloseIdempotent(d: Store, k: string)
    requires ValidStore(d)
    ensures Closed(Closed(d, k), k) == Closed(d, k)
  {
    if k in d.entries && d.entries[k].Ticket? {
      var c := Closed(d, k);
      assert c.entries[k] == d.entries[k].(status := Some(false));
      assert c.entries[k].(status := Some(false)) == c.entries[k];
      assert c.entries[k := c.entries[k]] == c.entries;
    }
  }

  /** `ks` without the closed tickets of `d`, in their order. */
  function KeepOpen(d: Store, ks: seq<string>): (r: seq<string>)
    ensures |r| <= |ks|
    ensures forall i | 0 <= i < |r| :: !IsClosedTicket(d, r[i])
  {
    if ks == [] then []
    else KeepOpen(d, ks[..|ks| - 1]) + (if IsClosedTicket(d, ks[|ks| - 1]) then [] else [ks[|ks| - 1]])
  }

  lemma {:induction false} KeepOpenMembers(d: Store, ks: seq<string>)
    ensures forall k :: k in KeepOpen(d, ks) <==> k in ks && !IsClosedTicket(d, k)
  {
    if ks != [] {
      KeepOpenMembers(d, ks[..|ks| - 1]);
      assert ks == ks[..|ks| - 1] + [ks[|ks| - 1]];
    }
  }

  lemma {:induction false} KeepOpenSnoc(d: Store, s: seq<string>, k: string)
    ensures KeepOpen(d, s + [k]) == KeepOpen(d, s) + (if IsClosedTicket(d, k) then [] else [k])
  {
    assert (s + [k])[..|s + [k]| - 1] == s;
  }

  lemma {:induction false} KeepOpenKeepsDistinct(d: Store, ks: seq<string>)
    requires Distinct(ks)
    ensures Distinct(KeepOpen(d, ks))
  {
    if ks != [] {
      var init, last := ks[..|ks| - 1], ks[|ks| - 1];
      DistinctFront(ks);
      KeepOpenKeepsDistinct(d, init);
      KeepOpenMembers(d, init);
      if IsClosedTicket(d, last) {
        assert KeepOpen(d, init) + [] == KeepOpen(d, init);
      } else {
        DistinctSnoc(KeepOpen(d, init), last);
      }
    }
  }

  /**
   * One step of the snapshot scan: the keys are the kept part of the scanned
   * prefix followed by the unscanned rest; popping a closed key (or keeping an
   * open one) moves the boundary by one.
   */
  lemma {:induction false} CleanStep(d: Store, snapshot: seq<string>, i: int)
    requires Distinct(snapshot) && 0 <= i < |snapshot|
    ensures IsClosedTicket(d, snapshot[i]) ==>
      Without(KeepOpen(d, snapshot[..i]) + snapshot[i..], snapshot[i]) == KeepOpen(d, snapshot[..i + 1]) + snapshot[i + 1..]
    ensures !IsClosedTicket(d, snapshot[i]) ==>
      KeepOpen(d, snapshot[..i]) + snapshot[i..] == KeepOpen(d, snapshot[..i + 1]) + snapshot[i + 1..]
  {
    var k := snapshot[i];
    var kept := KeepOpen(d, snapshot[..i]);
    assert snapshot[i..] == [k] + snapshot[i + 1..];
    assert snapshot[..i + 1] == snapshot[..i] + [k];
    KeepOpenSnoc(d, snapshot[..i], k);
    if IsClosedTicket(d, k) {
      KeepOpenMembers(d, snapshot[..i]);
      DistinctSplit(snapshot, i);
      assert k !in kept;
      WithoutAtSplit(kept, snapshot[i + 1..], k);
      assert kept + [] == kept;
      assert kept + [k] + snapshot[i + 1..] == kept + ([k] + snapshot[i + 1..]);
    }
  }

  /**
   * The store once the intended scan has visited `d.keys[..i]`: each closed
   * ticket met so far has been removed, in the order the keys were met.
   */
  function CleanedUpTo(d: Store, i: nat): (r: Store)
    requires i <= |d.keys|
    ensures ValidStore(d) ==> ValidStore(r)
  {
    if i == 0 then d
    else
      var prev := CleanedUpTo(d, i - 1);
      if IsClosedTicket(d, d.keys[i - 1]) then Remove(prev, d.keys[i - 1]) else prev
  }

  /** The scan keeps the open keys met so far, in order, followed by the keys not yet visited. */
  lemma {:induction false} CleanedUpToKeys(d: Store, i: nat)
    requires Distinct(d.keys) && i <= |d.keys|
    ensures CleanedUpTo(d, i).keys == KeepOpen(d, d.keys[..i]) + d.keys[i..]
  {
    if i == 0 {
      assert d.keys[..0] == [] && d.keys[0..] == d.keys;
    } else {
      var prev, k := CleanedUpTo(d, i - 1), d.keys[i - 1];
      CleanedUpToKeys(d, i - 1);
      CleanStep(d, d.keys, i - 1);
      if IsClosedTicket(d, k) {
        assert CleanedUpTo(d, i).keys == Without(prev.keys, k);
      } else {
        assert CleanedUpTo(d, i) == prev;
      }
    }
  }

  /** The scan has dropped exactly the closed tickets among the visited keys, and changed no value. */
  lemma {:induction false} CleanedUpToEntries(d: Store, i: nat)
    requires i <= |d.keys|
    ensures CleanedUpTo(d, i).entries
      == map k | k in d.entries && !(k in d.keys[..i] && IsClosedTicket(d, k)) :: d.entries[k]
  {
    if i == 0 {
      assert d.keys[..0] == [];
    } else {
      CleanedUpToEntries(d, i - 1);
      CleanedStepEntries(d, i - 1);
    }
  }

  /**
   * One step of the scan: the key visited next is still present with its
   * original value, and the loop's test on it (not reserved, status false)
   * decides whether the step pops it or leaves the store alone.
   */
  lemma {:induction false} CleanedUpToStep(d: Store, i: nat)
    requires ValidStore(d) && i < |d.keys|
    ensures d.keys[i] in CleanedUpTo(d, i).entries
    ensures CleanedUpTo(d, i).entries[d.keys[i]] == d.entries[d.keys[i]]
    ensures !IsReserved(d.keys[i]) ==> CleanedUpTo(d, i).entries[d.keys[i]].Ticket?
    ensures !IsReserved(d.keys[i]) && !StatusOr(CleanedUpTo(d, i).entries[d.keys[i]]) ==>
      CleanedUpTo(d, i + 1) == Remove(CleanedUpTo(d, i), d.keys[i])
    ensures !(!IsReserved(d.keys[i]) && !StatusOr(CleanedUpTo(d, i).entries[d.keys[i]])) ==>
      CleanedUpTo(d, i + 1) == CleanedUpTo(d, i)
  {
    CleanedUpToEntries(d, i);
    DistinctSplit(d.keys, i);
  }

  /** The completed scan yields the intended result. */
  lemma {:induction false} CleanedUpToAll(d: Store)
    requires ValidStore(d)
    ensures CleanedUpTo(d, |d.keys|) == CleanFinished(d)
  {
    CleanedUpToAllKeys(d);
    CleanedUpToAllEntries(d);
  }

  lemma {:induction false} CleanedUpToAllKeys(d: Store)
    requires ValidStore(d)
    ensures CleanedUpTo(d, |d.keys|).keys == KeepOpen(d, d.keys)
  {
    CleanedUpToKeys(d, |d.keys|);
    assert d.keys[..|d.keys|] == d.keys;
    assert d.keys[|d.keys|..] == [];
    assert KeepOpen(d, d.keys) + [] == KeepOpen(d, d.keys);
  }

  lemma {:induction false} CleanedUpToAllEntries(d: Store)
    requires ValidStore(d)
    ensures CleanedUpTo(d, |d.keys|).entries == CleanFinished(d).entries
  {
    CleanedUpToEntries(d, |d.keys|);
    assert d.keys[..|d.keys|] == d.keys;
  }

  lemma {:induction false} CleanedStepEntries(d: Store, i: nat)
    requires i < |d.keys|
    ensures d.keys[..i + 1] == d.keys[..i] + [d.keys[i]]
    ensures IsClosedTicket(d, d.keys[i]) ==>
      (map k | k in d.entries && !(k in d.keys[..i + 1] && IsClosedTicket(d, k)) :: d.entries[k])
      == (map k | k in d.entries && !(k in d.keys[..i] && IsClosedTicket(d, k)) :: d.entries[k]) - {d.keys[i]}
    ensures !IsClosedTicket(d, d.keys[i]) ==>
      (map k | k in d.entries && !(k in d.keys[..i + 1] && IsClosedTicket(d, k)) :: d.entries[k])
      == (map k | k in d.entries && !(k in d.keys[..i] && IsClosedTicket(d, k)) :: d.entries[k])
  {
    assert d.keys[..i + 1] == d.keys[..i] + [d.keys[i]];
  }

  /**
   * What `clean_finished_chamados` is meant to do: drop every closed ticket,
   * scanning a snapshot of the keys, and keep the rest in order.
   */
  function CleanFinished(d: Store): (r: Store)
    requires ValidStore(d)
    ensures ValidStore(r)
    ensures forall k :: k in r.entries <==> k in d.entries && !IsClosedTicket(d, k)
    ensures forall k | k in r.entries :: r.entries[k] == d.entries[k]
    ensures forall k | k in r.entries :: !IsClosedTicket(r, k)
    ensures CounterOf(r) == CounterOf(d)
    ensures r.keys == KeepOpen(d, d.keys)
  {
    KeepOpenKeepsDistinct(d, d.keys);
    KeepOpenMembers(d, d.keys);
    OrderedMap(KeepOpen(d, d.keys), map k | k in d.entries && !IsClosedTicket(d, k) :: d.entries[k])
  }

  /** The first closed ticket met when scanning `ks` in order. */
  function FirstClosed(d: Store, ks: seq<string>): (r: Option<string>)
    ensures r.Some? ==> r.value in ks && IsClosedTicket(d, r.value)
    ensures r.None? ==> forall k | k in ks :: !IsClosedTicket(d, k)
  {
    if ks == [] then None
    else if IsClosedTicket(d, ks[0]) then Some(ks[0])
    else FirstClosed(d, ks[1..])
  }

  /** The in-memory store after a run of the loop as written, and whether it ended in an exception. */
  datatype CleanRun = CleanRun(data: Store, raised: bool)

  /**
   * `clean_finished_chamados` as written pops from the dict it is iterating:
   * the first closed ticket is removed, and the iterator's next step raises
   * RuntimeError ("dictionary changed size during iteration") before the
   * store is written back.
   */
  function CleanAsWritten(d: Store): (r: CleanRun)
    requires ValidStore(d)
    ensures ValidStore(r.data)
  {
    match FirstClosed(d, d.keys)
    case None => CleanRun(d, false)
    case Some(k) => CleanRun(Remove(d, k), true)
  }

  /**
   * One step of the scan as written: the key met is present, and when the
   * loop's test on it fails the first closed ticket lies further on.
   */
  lemma {:induction false} CleanAsWrittenScan(d: Store, i: int)
    requires ValidStore(d) && 0 <= i < |d.keys|
    ensures d.keys[i] in d.entries
    ensures !IsReserved(d.keys[i]) ==> d.entries[d.keys[i]].Ticket?
    ensures !(!IsReserved(d.keys[i]) && !StatusOr(d.entries[d.keys[i]])) ==>
      FirstClosed(d, d.keys[i..]) == FirstClosed(d, d.keys[i + 1..])
  {
    assert d.keys[i..][1..] == d.keys[i + 1..];
  }

  /** Where the scan as written stops: at the first closed ticket of the key snapshot, or past its end. */
  lemma {:induction false} CleanAsWrittenStopsAt(d: Store, i: int)
    requires ValidStore(d) && 0 <= i <= |d.keys|
    requires FirstClosed(d, d.keys) == FirstClosed(d, d.keys[i..])
    requires i < |d.keys| ==> IsClosedTicket(d, d.keys[i])
    ensures i < |d.keys| ==> CleanAsWritten(d) == CleanRun(Remove(d, d.keys[i]), true)
    ensures i == |d.keys| ==> CleanAsWritten(d) == CleanRun(d, false)
  {
    if i == |d.keys| {
      assert d.keys[i..] == [];
    }
  }

  /** With two closed tickets the loop as written raises and leaves one of them in the store. */
  lemma {:induction false} CleanAsWrittenLeavesAClosedTicket(d: Store, a: string, b: string)
    requires ValidStore(d) && a != b && IsClosedTicket(d, a) && IsClosedTicket(d, b)
    ensures CleanAsWritten(d).raised
    ensures IsClosedTicket(CleanAsWritten(d).data, a) || IsClosedTicket(CleanAsWritten(d).data, b)
    ensures forall k | k in CleanFinished(d).entries :: !IsClosedTicket(CleanFinished(d), k)
  {
    assert a in d.keys;
    var r := CleanAsWritten(d);
    var k := FirstClosed(d, d.keys).value;
    var other := if k == a then b else a;
    assert Get(r.data, other) == Get(d, other);
  }

  // ---- ids are never reused ----

  /** A new or reset store names no ticket id at all. */
  lemma {:induction false} InitialStoreIdsBelowCounter()
    ensures IdsBelowCounter(InitialStore())
    ensures CounterOf(InitialStore()) == 0
  {
    assert InitialStore().entries.Keys == {IdNumbers};
  }

  /** Closing keeps the counter and every key, so every ticket id stays at or below the counter. */
  lemma {:induction false} ClosePreservesIdsBelowCounter(d: Store, k: string)
    requires ValidStore(d) && IdsBelowCounter(d)
    ensures IdsBelowCounter(Closed(d, k))
  {
    CloseChangesOnlyStatus(d, k);
    var r := Closed(d, k);
    forall j | j in r.entries && !IsReserved(j) && ParseInt(j).Some?
      ensures ParseInt(j).value <= CounterOf(r)
    {
      assert Get(r, j).Some?;
    }
  }

  /**
   * The clean-up, as intended and as written, only removes tickets and keeps
   * the counter: no id at or below it is ever handed out again.
   */
  lemma {:induction false} CleanPreservesIdsBelowCounter(d: Store)
    requires ValidStore(d) && IdsBelowCounter(d)
    ensures IdsBelowCounter(CleanFinished(d))
    ensures CounterOf(CleanAsWritten(d).data) == CounterOf(d)
    ensures IdsBelowCounter(CleanAsWritten(d).data)
  {
    var r := CleanAsWritten(d).data;
    if FirstClosed(d, d.keys).Some? {
      var c := FirstClosed(d, d.keys).value;
      assert Get(r, IdNumbers) == Get(d, IdNumbers);
      forall j | j in r.entries && !IsReserved(j) && ParseInt(j).Some?
        ensures ParseInt(j).value <= CounterOf(r)
      {
        assert Get(r, j) == Get(d, j);
      }
    }
  }
}
