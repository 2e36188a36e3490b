/**
 * The store's read-only views: all ticket ids, lookup by id, description
 * search, the priority ranking, the statistics and the reversed view. None of
 * them changes the store.
 */
module Queries {
  import opened Wrappers
  import opened OrderedMaps
  import opened Tickets

  /** `data.get(str(id), None)`; reserved keys are not filtered out. */
  function GetChamadoById(d: Store, id: string): (r: Option<Value>)
    ensures r.Some? <==> id in d.entries
    ensures r.Some? ==> r.value == d.entries[id]
  {
    Get(d, id)
  }

  /** The keys of `ks` that are not reserved, in their order. */
  function NonReserved(ks: seq<string>): (r: seq<string>)
    ensures |r| <= |ks|
  {
    if ks == [] then []
    else NonReserved(ks[..|ks| - 1]) + (if IsReserved(ks[|ks| - 1]) then [] else [ks[|ks| - 1]])
  }

  lemma {:induction false} NonReservedMembers(ks: seq<string>)
    ensures forall k :: k in NonReserved(ks) <==> k in ks && !IsReserved(k)
  {
    if ks != [] {
      NonReservedMembers(ks[..|ks| - 1]);
      assert ks == ks[..|ks| - 1] + [ks[|ks| - 1]];
    }
  }

  /** `get_all_ids`: every ticket key, in insertion order. */
  function GetAllIds(d: Store): (ids: seq<string>)
    ensures forall k :: k in ids <==> k in d.keys && !IsReserved(k)
  {
    NonReservedMembers(d.keys);
    NonReserved(d.keys)
  }

  lemma {:induction false} NonReservedSnoc(s: seq<string>, k: string)
    ensures NonReserved(s + [k]) == NonReserved(s) + (if IsReserved(k) then [] else [k])
  {
    assert (s + [k])[..|s + [k]| - 1] == s;
  }

  lemma {:induction false} NonReservedKeepsDistinct(ks: seq<string>)
    requires Distinct(ks)
    ensures Distinct(NonReserved(ks))
  {
    if ks != [] {
      var init, last := ks[..|ks| - 1], ks[|ks| - 1];
      DistinctFront(ks);
      NonReservedKeepsDistinct(init);
      NonReservedMembers(init);
      if IsReserved(last) {
        assert NonReserved(init) + [] == NonReserved(init);
      } else {
        DistinctSnoc(NonReserved(init), last);
      }
    }
  }

  /** No id is listed twice. */
  lemma {:induction false} AllIdsAreDistinct(d: Store)
    requires ValidStore(d)
    ensures Distinct(GetAllIds(d))
  {
    NonReservedKeepsDistinct(d.keys);
  }

  lemma {:induction false} NonReservedConcat(a: seq<string>, b: seq<string>)
    ensures NonReserved(a + b) == NonReserved(a) + NonReserved(b)
    decreases |b|
  {
    if b == [] {
      assert a + b == a;
    } else {
      NonReservedConcat(a, b[..|b| - 1]);
      assert (a + b)[..|a + b| - 1] == a + b[..|b| - 1];
    }
  }

  // ---- description search ----

  /** ASCII `str.lower()`. */
  function Lower(s: string): (r: string)
    ensures |r| == |s|
    ensures forall i | 0 <= i < |s| :: r[i] == (if 'A' <= s[i] <= 'Z' then (s[i] as int + 32) as char else s[i])
  {
    if s == [] then [] else Lower(s[..|s| - 1]) + [if 'A' <= s[|s| - 1] <= 'Z' then (s[|s| - 1] as int + 32) as char else s[|s| - 1]]
  }

  /** Python's `needle in hay` for strings. */
  predicate Contains(hay: string, needle: string)
    ensures Contains(hay, needle) ==> |needle| <= |hay|
    ensures needle == [] ==> Contains(hay, needle)
  {
    assert hay[..0] == [];
    |needle| <= |hay| && (hay[..|needle|] == needle || Contains(hay[1..], needle))
  }

  /** `needle` occurs in `hay` starting at position `i`. */
  predicate OccursAt(hay: string, needle: string, i: int) {
    0 <= i && i + |needle| <= |hay| && hay[i..i + |needle|] == needle
  }

  /** `Contains` is substring search: the needle occurs at some position of the haystack. */
  lemma {:induction false} ContainsMeansOccurs(hay: string, needle: string)
    ensures Contains(hay, needle) <==> exists i :: OccursAt(hay, needle, i)
    decreases |hay|
  {
    if |needle| <= |hay| && hay[..|needle|] == needle {
      assert OccursAt(hay, needle, 0);
    } else if |needle| <= |hay| {
      assert |hay| > 0;
      ContainsMeansOccurs(hay[1..], needle);
      if exists i :: OccursAt(hay, needle, i) {
        var i :| OccursAt(hay, needle, i);
        assert i != 0;
        assert hay[1..][i - 1..i - 1 + |needle|] == hay[i..i + |needle|];
        assert OccursAt(hay[1..], needle, i - 1);
      }
      if Contains(hay[1..], needle) {
        var i :| OccursAt(hay[1..], needle, i);
        assert hay[1..][i..i + |needle|] == hay[i + 1..i + 1 + |needle|];
        assert OccursAt(hay, needle, i + 1);
      }
    }
  }

  /** The search test of one entry: its lowered description contains the lowered query. */
  predicate MatchesDescricao(v: Value, q: string)
    ensures MatchesDescricao(v, q) ==> v.Ticket?
    ensures v.Ticket? && q == [] ==> MatchesDescricao(v, q)
  {
    assert q == [] ==> Lower(q) == [];
    v.Ticket? && Contains(Lower(DescricaoOr(v)), Lower(q))
  }

  /** The ids among `ids` whose entry in `d` matches `q`, in their order. */
  function SearchIds(d: Store, ids: seq<string>, q: string): (r: seq<string>)
    ensures |r| <= |ids|
  {
    if ids == [] then []
    else
      var k := ids[|ids| - 1];
      SearchIds(d, ids[..|ids| - 1], q) + (if k in d.entries && MatchesDescricao(d.entries[k], q) then [k] else [])
  }

  lemma {:induction false} SearchIdsSnoc(d: Store, ids: seq<string>, k: string, q: string)
    ensures SearchIds(d, ids + [k], q)
            == SearchIds(d, ids, q) + (if k in d.entries && MatchesDescricao(d.entries[k], q) then [k] else [])
  {
    assert (ids + [k])[..|ids + [k]| - 1] == ids;
  }

  /** One step of the description scan: the next key is kept iff it is a present ticket key whose description matches. */
  lemma {:induction false} SearchStep(d: Store, items: seq<string>, i: int, q: string)
    requires 0 <= i < |items|
    ensures SearchIds(d, NonReserved(items[..i + 1]), q)
            == SearchIds(d, NonReserved(items[..i]), q)
               + (if !IsReserved(items[i]) && items[i] in d.entries && MatchesDescricao(d.entries[items[i]], q)
                  then [items[i]] else [])
  {
    var k := items[i];
    assert items[..i + 1] == items[..i] + [k];
    NonReservedSnoc(items[..i], k);
    if IsReserved(k) {
      assert NonReserved(items[..i]) + [] == NonReserved(items[..i]);
    } else {
      SearchIdsSnoc(d, NonReserved(items[..i]), k, q);
    }
  }

  lemma {:induction false} SearchIdsMembers(d: Store, ids: seq<string>, q: string)
    ensures forall k :: k in SearchIds(d, ids, q) <==> k in ids && k in d.entries && MatchesDescricao(d.entries[k], q)
  {
    if ids != [] {
      SearchIdsMembers(d, ids[..|ids| - 1], q);
      assert ids == ids[..|ids| - 1] + [ids[|ids| - 1]];
    }
  }

  /** `get_chamado_by_descricao(q)`: the ticket ids, in order, whose description contains `q` ignoring case. */
  function DescricaoMatches(d: Store, q: string): (r: seq<string>)
    ensures forall k :: k in r <==> k in GetAllIds(d) && k in d.entries && MatchesDescricao(d.entries[k], q)
  {
    SearchIdsMembers(d, GetAllIds(d), q);
    SearchIds(d, GetAllIds(d), q)
  }

  /** An empty query matches every ticket: the search returns all ids. */
  lemma {:induction false} SearchEmptyQuery(d: Store, ids: seq<string>)
    requires forall k | k in ids :: k in d.entries && d.entries[k].Ticket?
    ensures SearchIds(d, ids, "") == ids
  {
    if ids != [] {
      var init, k := ids[..|ids| - 1], ids[|ids| - 1];
      assert ids == init + [k];
      forall j | j in init
        ensures j in d.entries && d.entries[j].Ticket?
      {
        assert j in ids;
      }
      SearchEmptyQuery(d, init);
      assert k in ids;
      SearchIdsSnoc(d, init, k, "");
    }
  }

  lemma {:induction false} EmptyQueryReturnsAllIds(d: Store)
    requires ValidStore(d)
    ensures DescricaoMatches(d, "") == GetAllIds(d)
  {
    SearchEmptyQuery(d, GetAllIds(d));
  }

  // ---- priority ranking ----

  /** `(chamado_id, chamado.get('prioridade', 'NullPriority'))` */
  type Entry = (string, string)

  /** `priority_order.get(p, 4)` with high=1, medium=2, low=3 and anything else 4. */
  function Rank(p: string): (r: int)
    ensures 1 <= r <= 4
    ensures r == 1 <==> p == "high"
    ensures r == 2 <==> p == "medium"
    ensures r == 3 <==> p == "low"
  {
    if p == "high" then 1 else if p == "medium" then 2 else if p == "low" then 3 else 4
  }

  /** The priority a key's entry is sorted by (a non-ticket entry, absent from a valid store, reads as unset). */
  function PriorityOf(d: Store, k: string): (p: string)
    ensures k in d.entries && d.entries[k].Ticket? && d.entries[k].prioridade.Some? ==> p == d.entries[k].prioridade.value
    ensures !(k in d.entries && d.entries[k].Ticket? && d.entries[k].prioridade.Some?) ==> p == "NullPriority"
  {
    if k in d.entries && d.entries[k].Ticket? then PrioridadeOr(d.entries[k]) else "NullPriority"
  }

  /** The `result` list the ranking builds: one pair per ticket key of `ks`. */
  function PriorityPairs(d: Store, ks: seq<string>): (r: seq<Entry>)
    ensures |r| == |NonReserved(ks)|
  {
    if ks == [] then []
    else
      var k := ks[|ks| - 1];
      PriorityPairs(d, ks[..|ks| - 1]) + (if IsReserved(k) then [] else [(k, PriorityOf(d, k))])
  }

  /** One step of the ranking's loop: a ticket key adds its pair, a reserved key adds nothing. */
  lemma {:induction false} PriorityPairsStep(d: Store, items: seq<string>, i: int)
    requires 0 <= i < |items|
    ensures PriorityPairs(d, items[..i + 1])
            == PriorityPairs(d, items[..i]) + (if IsReserved(items[i]) then [] else [(items[i], PriorityOf(d, items[i]))])
  {
    assert items[..i + 1][..i] == items[..i];
  }

  /** The entries of rank `r`, in their order. */
  function WithRank(es: seq<Entry>, r: int): seq<Entry> {
    if es == [] then []
    else WithRank(es[..|es| - 1], r) + (if Rank(es[|es| - 1].1) == r then [es[|es| - 1]] else [])
  }

  /** A rank group holds only entries of that rank. */
  lemma {:induction false} WithRankHasRank(es: seq<Entry>, r: int)
    ensures forall i | 0 <= i < |WithRank(es, r)| :: Rank(WithRank(es, r)[i].1) == r
  {
    if es != [] {
      WithRankHasRank(es[..|es| - 1], r);
    }
  }

  /**
   * `sorted(result, key=order_key, reverse=reverse)`. Python's sort is stable
   * in both directions, so it is the rank groups in rank order (or in reverse
   * rank order), each group in its original order.
   */
  function SortedByRank(es: seq<Entry>, reverse: bool): (r: seq<Entry>)
    ensures |r| == |es|
  {
    var g1, g2, g3, g4 := WithRank(es, 1), WithRank(es, 2), WithRank(es, 3), WithRank(es, 4);
    var r := if reverse then g4 + g3 + g2 + g1 else g1 + g2 + g3 + g4;
    RankGroupsPartition(es);
    assert multiset(r) == Groups(es);
    assert |r| == |multiset(r)| == |multiset(es)| == |es|;
    r
  }

  /** `[chamado_id for chamado_id, _ in sorted_result]` */
  function IdsOf(es: seq<Entry>): (r: seq<string>)
    ensures |r| == |es|
  {
    if es == [] then [] else IdsOf(es[..|es| - 1]) + [es[|es| - 1].0]
  }

  /** The i-th id is the i-th pair's id. */
  lemma {:induction false} IdsOfAt(es: seq<Entry>)
    ensures forall i | 0 <= i < |es| :: IdsOf(es)[i] == es[i].0
  {
    if es != [] {
      IdsOfAt(es[..|es| - 1]);
    }
  }

  /** `list_chamados_by_priority(reverse)` */
  function RankedIds(d: Store, reverse: bool): (ids: seq<string>)
    ensures |ids| == |GetAllIds(d)|
  {
    IdsOf(SortedByRank(PriorityPairs(d, d.keys), reverse))
  }

  lemma {:induction false} GroupStep(init: seq<Entry>, e: Entry, r: int)
    ensures multiset(WithRank(init + [e], r))
            == multiset(WithRank(init, r)) + (if Rank(e.1) == r then multiset{e} else multiset{})
  {
    assert (init + [e])[..|init + [e]| - 1] == init;
  }

  /** The four rank groups of `es`, as one bag. */
  function Groups(es: seq<Entry>): multiset<Entry> {
    multiset(WithRank(es, 1)) + multiset(WithRank(es, 2)) + multiset(WithRank(es, 3)) + multiset(WithRank(es, 4))
  }

  lemma {:induction false} GroupsStep(init: seq<Entry>, e: Entry)
    ensures Groups(init + [e]) == Groups(init) + multiset{e}
  {
    GroupStep(init, e, 1);
    GroupStep(init, e, 2);
    GroupStep(init, e, 3);
    GroupStep(init, e, 4);
    var es := init + [e];
    AddToOneOfFour(multiset(WithRank(init, 1)), multiset(WithRank(init, 2)),
                   multiset(WithRank(init, 3)), multiset(WithRank(init, 4)),
                   multiset(WithRank(es, 1)), multiset(WithRank(es, 2)),
                   multiset(WithRank(es, 3)), multiset(WithRank(es, 4)),
                   multiset{e}, Rank(e.1));
  }

  /** Every entry lands in exactly one rank group (priorities outside the four ranks get rank 4). */
  lemma {:induction false} RankGroupsPartition(es: seq<Entry>)
    ensures Groups(es) == multiset(es)
  {
    if es != [] {
      var init, e := es[..|es| - 1], es[|es| - 1];
      assert es == init + [e];
      RankGroupsPartition(init);
      GroupsStep(init, e);
      assert multiset(es) == multiset(init) + multiset{e};
    }
  }

  /** The ranking is a permutation of the pairs it sorts. */
  lemma {:induction false} SortedByRankIsPermutation(es: seq<Entry>, reverse: bool)
    ensures multiset(SortedByRank(es, reverse)) == multiset(es)
  {
    RankGroupsPartition(es);
  }

  /** Ranks never go down (never go up when `reverse`). */
  lemma {:induction false} SortedByRankIsOrdered(es: seq<Entry>, reverse: bool)
    ensures var s := SortedByRank(es, reverse);
      forall i, j | 0 <= i < j < |s| :: if reverse then Rank(s[i].1) >= Rank(s[j].1) else Rank(s[i].1) <= Rank(s[j].1)
  {
    var g1, g2, g3, g4 := WithRank(es, 1), WithRank(es, 2), WithRank(es, 3), WithRank(es, 4);
    WithRankHasRank(es, 1);
    WithRankHasRank(es, 2);
    WithRankHasRank(es, 3);
    WithRankHasRank(es, 4);
    if reverse {
      FourDown(g4, g3, g2, g1);
    } else {
      FourUp(g1, g2, g3, g4);
    }
  }

  /** Four groups of ranks 1, 2, 3 and 4, concatenated in that order, have ranks that never go down. */
  lemma {:induction false} FourUp(a: seq<Entry>, b: seq<Entry>, c: seq<Entry>, e: seq<Entry>)
    requires forall i | 0 <= i < |a| :: Rank(a[i].1) == 1
    requires forall i | 0 <= i < |b| :: Rank(b[i].1) == 2
    requires forall i | 0 <= i < |c| :: Rank(c[i].1) == 3
    requires forall i | 0 <= i < |e| :: Rank(e[i].1) == 4
    ensures var s := a + b + c + e; forall i, j | 0 <= i < j < |s| :: Rank(s[i].1) <= Rank(s[j].1)
  {
    ConcatAt(a + b + c, e);
    ConcatAt(a + b, c);
    ConcatAt(a, b);
  }

  /** Four groups of ranks 4, 3, 2 and 1, concatenated in that order, have ranks that never go up. */
  lemma {:induction false} FourDown(a: seq<Entry>, b: seq<Entry>, c: seq<Entry>, e: seq<Entry>)
    requires forall i | 0 <= i < |a| :: Rank(a[i].1) == 4
    requires forall i | 0 <= i < |b| :: Rank(b[i].1) == 3
    requires forall i | 0 <= i < |c| :: Rank(c[i].1) == 2
    requires forall i | 0 <= i < |e| :: Rank(e[i].1) == 1
    ensures var s := a + b + c + e; forall i, j | 0 <= i < j < |s| :: Rank(s[i].1) >= Rank(s[j].1)
  {
    ConcatAt(a + b + c, e);
    ConcatAt(a + b, c);
    ConcatAt(a, b);
  }

  /** Indexing into a concatenation: the first part, then the second shifted by its length. */
  lemma {:induction false} ConcatAt(a: seq<Entry>, b: seq<Entry>)
    ensures forall i | 0 <= i < |a| :: (a + b)[i] == a[i]
    ensures forall i | 0 <= i < |b| :: (a + b)[|a| + i] == b[i]
  {
  }

  lemma {:induction false} WithRankConcat(a: seq<Entry>, b: seq<Entry>, r: int)
    ensures WithRank(a + b, r) == WithRank(a, r) + WithRank(b, r)
    decreases |b|
  {
    if b == [] {
      assert a + b == a;
    } else {
      WithRankConcat(a, b[..|b| - 1], r);
      assert (a + b)[..|a + b| - 1] == a + b[..|b| - 1];
    }
  }

  lemma {:induction false} WithRankOfGroup(es: seq<Entry>, r: int, r': int)
    ensures WithRank(WithRank(es, r'), r) == if r == r' then WithRank(es, r) else []
  {
    if es != [] {
      var init := es[..|es| - 1];
      WithRankOfGroup(init, r, r');
      var g := WithRank(es, r');
      if Rank(es[|es| - 1].1) == r' {
        assert g[..|g| - 1] == WithRank(init, r');
      } else {
        assert g == WithRank(init, r');
      }
    }
  }

  lemma {:induction false} WithRankOfFour(a: seq<Entry>, b: seq<Entry>, c: seq<Entry>, e: seq<Entry>, r: int)
    ensures WithRank(a + b + c + e, r) == WithRank(a, r) + WithRank(b, r) + WithRank(c, r) + WithRank(e, r)
  {
    WithRankConcat(a + b + c, e, r);
    WithRankConcat(a + b, c, r);
    WithRankConcat(a, b, r);
  }

  lemma {:induction false} NoEntryOfOtherRank(es: seq<Entry>, r: int)
    requires r < 1 || r > 4
    ensures WithRank(es, r) == []
  {
    if es != [] {
      NoEntryOfOtherRank(es[..|es| - 1], r);
    }
  }

  /** Four groups of which only the `n`-th may be non-empty line up to that group. */
  lemma {:induction false} OnlyOneGroup(x: seq<Entry>, a: seq<Entry>, b: seq<Entry>, c: seq<Entry>, e: seq<Entry>, n: int)
    requires a == (if n == 1 then x else []) && b == (if n == 2 then x else [])
    requires c == (if n == 3 then x else []) && e == (if n == 4 then x else [])
    ensures 1 <= n <= 4 ==> a + b + c + e == x
    ensures !(1 <= n <= 4) ==> a + b + c + e == []
  {
    assert [] + x == x && x + [] == x;
  }

  /** Stability: within each rank the ranking keeps the original (insertion) order. */
  lemma {:induction false} SortedByRankIsStable(es: seq<Entry>, reverse: bool, r: int)
    ensures WithRank(SortedByRank(es, reverse), r) == WithRank(es, r)
  {
    if reverse {
      GroupsDownKeepRank(es, r);
    } else {
      GroupsUpKeepRank(es, r);
    }
  }

  /** The groups in ascending rank order hold the entries of each rank in their original order. */
  lemma {:induction false} GroupsUpKeepRank(es: seq<Entry>, r: int)
    ensures WithRank(WithRank(es, 1) + WithRank(es, 2) + WithRank(es, 3) + WithRank(es, 4), r) == WithRank(es, r)
  {
    var g1, g2, g3, g4 := WithRank(es, 1), WithRank(es, 2), WithRank(es, 3), WithRank(es, 4);
    WithRankOfGroup(es, r, 1);
    WithRankOfGroup(es, r, 2);
    WithRankOfGroup(es, r, 3);
    WithRankOfGroup(es, r, 4);
    if r < 1 || r > 4 {
      NoEntryOfOtherRank(es, r);
    }
    WithRankOfFour(g1, g2, g3, g4, r);
    OnlyOneGroup(WithRank(es, r), WithRank(g1, r), WithRank(g2, r), WithRank(g3, r), WithRank(g4, r), r);
  }

  /** The groups in descending rank order hold the entries of each rank in their original order. */
  lemma {:induction false} GroupsDownKeepRank(es: seq<Entry>, r: int)
    ensures WithRank(WithRank(es, 4) + WithRank(es, 3) + WithRank(es, 2) + WithRank(es, 1), r) == WithRank(es, r)
  {
    var g1, g2, g3, g4 := WithRank(es, 1), WithRank(es, 2), WithRank(es, 3), WithRank(es, 4);
    WithRankOfGroup(es, r, 1);
    WithRankOfGroup(es, r, 2);
    WithRankOfGroup(es, r, 3);
    WithRankOfGroup(es, r, 4);
    if r < 1 || r > 4 {
      NoEntryOfOtherRank(es, r);
    }
    WithRankOfFour(g4, g3, g2, g1, r);
    OnlyOneGroup(WithRank(es, r), WithRank(g4, r), WithRank(g3, r), WithRank(g2, r), WithRank(g1, r), 5 - r);
  }

  lemma {:induction false} IdsOfPairs(d: Store, ks: seq<string>)
    ensures IdsOf(PriorityPairs(d, ks)) == NonReserved(ks)
  {
    if ks != [] {
      var k := ks[|ks| - 1];
      IdsOfPairs(d, ks[..|ks| - 1]);
      IdsOfConcat(PriorityPairs(d, ks[..|ks| - 1]), if IsReserved(k) then [] else [(k, PriorityOf(d, k))]);
    }
  }

  lemma {:induction false} IdsOfConcat(a: seq<Entry>, b: seq<Entry>)
    ensures IdsOf(a + b) == IdsOf(a) + IdsOf(b)
    decreases |b|
  {
    if b == [] {
      assert a + b == a;
    } else {
      IdsOfConcat(a, b[..|b| - 1]);
      assert (a + b)[..|a + b| - 1] == a + b[..|b| - 1];
    }
  }

  /** The ids of the four rank groups of `es`, as one bag. */
  function GroupIds(es: seq<Entry>): multiset<string> {
    multiset(IdsOf(WithRank(es, 1))) + multiset(IdsOf(WithRank(es, 2)))
    + multiset(IdsOf(WithRank(es, 3))) + multiset(IdsOf(WithRank(es, 4)))
  }

  lemma {:induction false} GroupIdStep(init: seq<Entry>, e: Entry, r: int)
    ensures multiset(IdsOf(WithRank(init + [e], r)))
            == multiset(IdsOf(WithRank(init, r))) + (if Rank(e.1) == r then multiset{e.0} else multiset{})
  {
    assert (init + [e])[..|init + [e]| - 1] == init;
    IdsOfConcat(WithRank(init, r), if Rank(e.1) == r then [e] else []);
  }

  /** Adding `x` to exactly one of four bags adds it to their sum. */
  lemma {:induction false} AddToOneOfFour<T>(m1: multiset<T>, m2: multiset<T>, m3: multiset<T>, m4: multiset<T>,
                          n1: multiset<T>, n2: multiset<T>, n3: multiset<T>, n4: multiset<T>, x: multiset<T>, r: int)
    requires 1 <= r <= 4
    requires n1 == m1 + (if r == 1 then x else multiset{})
    requires n2 == m2 + (if r == 2 then x else multiset{})
    requires n3 == m3 + (if r == 3 then x else multiset{})
    requires n4 == m4 + (if r == 4 then x else multiset{})
    ensures n1 + n2 + n3 + n4 == m1 + m2 + m3 + m4 + x
  {
  }

  lemma {:induction false} GroupIdsStep(init: seq<Entry>, e: Entry)
    ensures GroupIds(init + [e]) == GroupIds(init) + multiset{e.0}
  {
    GroupIdStep(init, e, 1);
    GroupIdStep(init, e, 2);
    GroupIdStep(init, e, 3);
    GroupIdStep(init, e, 4);
    var es := init + [e];
    AddToOneOfFour(multiset(IdsOf(WithRank(init, 1))), multiset(IdsOf(WithRank(init, 2))),
                   multiset(IdsOf(WithRank(init, 3))), multiset(IdsOf(WithRank(init, 4))),
                   multiset(IdsOf(WithRank(es, 1))), multiset(IdsOf(WithRank(es, 2))),
                   multiset(IdsOf(WithRank(es, 3))), multiset(IdsOf(WithRank(es, 4))),
                   multiset{e.0}, Rank(e.1));
  }

  /** Every entry's id is listed by exactly one rank group. */
  lemma {:induction false} RankGroupIdsPartition(es: seq<Entry>)
    ensures GroupIds(es) == multiset(IdsOf(es))
  {
    if es != [] {
      var init, e := es[..|es| - 1], es[|es| - 1];
      assert IdsOf(es) == IdsOf(init) + [e.0];
      assert multiset(IdsOf(es)) == multiset(IdsOf(init)) + multiset{e.0};
      assert es == init + [e];
      RankGroupIdsPartition(init);
      GroupIdsStep(init, e);
    }
  }

  /** The ranked list holds every ticket id exactly once. */
  lemma {:induction false} RankedIdsArePermutationOfAllIds(d: Store, reverse: bool)
    ensures multiset(RankedIds(d, reverse)) == multiset(GetAllIds(d))
  {
    var es := PriorityPairs(d, d.keys);
    var g1, g2, g3, g4 := WithRank(es, 1), WithRank(es, 2), WithRank(es, 3), WithRank(es, 4);
    RankGroupIdsPartition(es);
    IdsOfPairs(d, d.keys);
    if reverse {
      IdsOfConcat(g4 + g3 + g2, g1);
      IdsOfConcat(g4 + g3, g2);
      IdsOfConcat(g4, g3);
    } else {
      IdsOfConcat(g1 + g2 + g3, g4);
      IdsOfConcat(g1 + g2, g3);
      IdsOfConcat(g1, g2);
    }
  }

  /** The rank a ticket key is listed by. */
  function RankOf(d: Store, k: string): int {
    Rank(PriorityOf(d, k))
  }

  /** Every pair carries the priority of its own key. */
  predicate Consistent(d: Store, es: seq<Entry>) {
    forall i | 0 <= i < |es| :: es[i].1 == PriorityOf(d, es[i].0)
  }

  lemma {:induction false} PriorityPairsConsistent(d: Store, ks: seq<string>)
    ensures Consistent(d, PriorityPairs(d, ks))
  {
    if ks != [] {
      PriorityPairsConsistent(d, ks[..|ks| - 1]);
    }
  }

  lemma {:induction false} WithRankConsistent(d: Store, es: seq<Entry>, r: int)
    requires Consistent(d, es)
    ensures Consistent(d, WithRank(es, r))
  {
    if es != [] {
      WithRankConsistent(d, es[..|es| - 1], r);
    }
  }

  lemma {:induction false} SortedByRankConsistent(d: Store, es: seq<Entry>, reverse: bool)
    requires Consistent(d, es)
    ensures Consistent(d, SortedByRank(es, reverse))
  {
    WithRankConsistent(d, es, 1);
    WithRankConsistent(d, es, 2);
    WithRankConsistent(d, es, 3);
    WithRankConsistent(d, es, 4);
  }

  /** The ids of `ids` whose rank is `r`, in their order. */
  function IdsOfRank(d: Store, ids: seq<string>, r: int): seq<string> {
    if ids == [] then []
    else IdsOfRank(d, ids[..|ids| - 1], r) + (if RankOf(d, ids[|ids| - 1]) == r then [ids[|ids| - 1]] else [])
  }

  lemma {:induction false} IdsOfWithRank(d: Store, es: seq<Entry>, r: int)
    requires Consistent(d, es)
    ensures IdsOf(WithRank(es, r)) == IdsOfRank(d, IdsOf(es), r)
  {
    if es != [] {
      var init, e := es[..|es| - 1], es[|es| - 1];
      IdsOfWithRank(d, init, r);
      assert IdsOf(es) == IdsOf(init) + [e.0];
      assert IdsOf(es)[..|es| - 1] == IdsOf(init);
      IdsOfConcat(WithRank(init, r), if Rank(e.1) == r then [e] else []);
    }
  }

  /** The listed ids run through the ranks in order: high first, or last when `reverse`. */
  lemma {:induction false} RankedIdsAreOrdered(d: Store, reverse: bool)
    ensures var ids := RankedIds(d, reverse);
      forall i, j | 0 <= i < j < |ids| :: if reverse then RankOf(d, ids[i]) >= RankOf(d, ids[j]) else RankOf(d, ids[i]) <= RankOf(d, ids[j])
  {
    var es := PriorityPairs(d, d.keys);
    PriorityPairsConsistent(d, d.keys);
    SortedByRankConsistent(d, es, reverse);
    SortedByRankIsOrdered(es, reverse);
    IdsOfAt(SortedByRank(es, reverse));
  }

  /** Ids of equal rank are listed in insertion order, in both directions. */
  lemma {:induction false} RankedIdsAreStable(d: Store, reverse: bool, r: int)
    ensures IdsOfRank(d, RankedIds(d, reverse), r) == IdsOfRank(d, GetAllIds(d), r)
  {
    var es := PriorityPairs(d, d.keys);
    var sorted := SortedByRank(es, reverse);
    PriorityPairsConsistent(d, d.keys);
    SortedByRankConsistent(d, es, reverse);
    IdsOfWithRank(d, sorted, r);
    SortedByRankIsStable(es, reverse, r);
    IdsOfWithRank(d, es, r);
    IdsOfPairs(d, d.keys);
  }

  // ---- reversed view ----

  /** `inverted_database`: the same bindings, keys in reverse insertion order. */
  function InvertedDatabase(d: Store): (r: Store)
    ensures r.entries == d.entries
    ensures |r.keys| == |d.keys|
    ensures forall i | 0 <= i < |d.keys| :: r.keys[i] == d.keys[|d.keys| - 1 - i]
    ensures ValidStore(d) ==> ValidStore(r)
  {
    ReversedKeepsDistinct(d.keys);
    OrderedMap(Reversed(d.keys), d.entries)
  }

  /** Reversing the view twice gives back the store. */
  lemma {:induction false} InvertedTwice(d: Store)
    ensures InvertedDatabase(InvertedDatabase(d)) == d
  {
    ReversedTwice(d.keys);
  }
}
