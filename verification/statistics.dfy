/** `get_estatisticas`: ticket counts, closed counts and counts per priority bucket. */
module Statistics {
  import opened Wrappers
  import opened OrderedMaps
  import opened Tickets
  import opened Queries

  /** Which tickets a count takes in. */
  datatype Criterion =
    | Any                      // every ticket
    | Finalizado               // `not chamado.get('status', True)`
    | PrioridadeIs(p: string)  // `chamado.get('prioridade') == p`: a missing priority equals no bucket

  predicate Meets(v: Value, c: Criterion)
    ensures Meets(v, c) && c.Finalizado? ==> v.Ticket? && v.status == Some(false)
    ensures Meets(v, c) && c.PrioridadeIs? ==> v.Ticket? && v.prioridade.Some?
  {
    match c
    case Any => true
    case Finalizado => v.Ticket? && !StatusOr(v)
    case PrioridadeIs(p) => v.Ticket? && v.prioridade == Some(p)
  }

  /** The length of one of the list comprehensions: the non-reserved keys of `ks` whose entry meets `c`. */
  function CountWhere(d: Store, ks: seq<string>, c: Criterion): (n: nat)
    ensures n <= |ks|
  {
    if ks == [] then 0
    else
      var k := ks[|ks| - 1];
      CountWhere(d, ks[..|ks| - 1], c) + (if !IsReserved(k) && k in d.entries && Meets(d.entries[k], c) then 1 else 0)
  }

  datatype PorPrioridade = PorPrioridade(high: nat, medium: nat, low: nat, nullPriority: nat)

  datatype Estatisticas = Estatisticas(totalChamados: nat, finalizados: nat, porPrioridade: PorPrioridade)

  function BucketSum(s: Estatisticas): nat {
    s.porPrioridade.high + s.porPrioridade.medium + s.porPrioridade.low + s.porPrioridade.nullPriority
  }

  /** A ticket lands in a bucket only when its priority is literally one of the four bucket names. */
  predicate InSomeBucket(v: Value) {
    v.Ticket? && v.prioridade.Some? && v.prioridade.value in ["high", "medium", "low", "NullPriority"]
  }

  /** `get_estatisticas()` */
  function GetEstatisticas(d: Store): (s: Estatisticas)
    requires Wf(d)
    ensures s.totalChamados == |GetAllIds(d)|
    ensures s.finalizados <= s.totalChamados
    ensures BucketSum(s) <= s.totalChamados
    ensures BucketSum(s) == s.totalChamados <==> forall k | k in GetAllIds(d) :: InSomeBucket(d.entries[k])
  {
    var ks := d.keys;
    CountAnyCountsIds(d, ks);
    CountAtMostAny(d, ks, Finalizado);
    BucketsAtMostTotal(d, ks);
    Estatisticas(
      CountWhere(d, ks, Any),
      CountWhere(d, ks, Finalizado),
      PorPrioridade(
        CountWhere(d, ks, PrioridadeIs("high")),
        CountWhere(d, ks, PrioridadeIs("medium")),
        CountWhere(d, ks, PrioridadeIs("low")),
        CountWhere(d, ks, PrioridadeIs("NullPriority"))))
  }

  /** The total counts every ticket key once. */
  lemma {:induction false} CountAnyCountsIds(d: Store, ks: seq<string>)
    requires forall k | k in ks :: k in d.entries
    ensures CountWhere(d, ks, Any) == |NonReserved(ks)|
  {
    if ks != [] {
      CountAnyCountsIds(d, ks[..|ks| - 1]);
    }
  }

  lemma {:induction false} CountAtMostAny(d: Store, ks: seq<string>, c: Criterion)
    ensures CountWhere(d, ks, c) <= CountWhere(d, ks, Any)
  {
    if ks != [] {
      CountAtMostAny(d, ks[..|ks| - 1], c);
    }
  }

  function Buckets(d: Store, ks: seq<string>): nat {
    CountWhere(d, ks, PrioridadeIs("high")) + CountWhere(d, ks, PrioridadeIs("medium"))
    + CountWhere(d, ks, PrioridadeIs("low")) + CountWhere(d, ks, PrioridadeIs("NullPriority"))
  }

  /**
   * The buckets never count more tickets than the total, and count all of
   * them exactly when every ticket's priority is a bucket name.
   */
  lemma {:induction false} BucketsAtMostTotal(d: Store, ks: seq<string>)
    requires forall k | k in ks :: k in d.entries
    ensures Buckets(d, ks) <= CountWhere(d, ks, Any)
    ensures Buckets(d, ks) == CountWhere(d, ks, Any)
            <==> forall k | k in ks && !IsReserved(k) :: InSomeBucket(d.entries[k])
  {
    if ks != [] {
      var init, k := ks[..|ks| - 1], ks[|ks| - 1];
      BucketsAtMostTotal(d, init);
      if !IsReserved(k) && !InSomeBucket(d.entries[k]) {
        assert Buckets(d, ks) < CountWhere(d, ks, Any);
      }
      if Buckets(d, ks) == CountWhere(d, ks, Any) {
        forall j | j in ks && !IsReserved(j)
          ensures InSomeBucket(d.entries[j])
        {
          if j != k {
            assert j in init;
          }
        }
      }
    }
  }
}
