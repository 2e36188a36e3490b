/**
 * What the ticket store holds: the values bound to its keys, the record a new
 * ticket is built from, and the convention that two key names are reserved
 * for metadata.
 */
module Tickets {
  import opened Wrappers
  import opened OrderedMaps
  import opened Decimal

  /**
   * A value of the store: the id counter, or a ticket dict whose three fields
   * may each be missing from a loaded file (hence the `.get(field, default)`
   * reads). `status` is true while the ticket is open.
   */
  datatype Value =
    | Counter(count: int)
    | Ticket(status: Option<bool>, prioridade: Option<string>, descricao: Option<string>)

  type Store = OrderedMap<Value>

  const IdNumbers: string := "id_numbers"
  const EstatisticasKey: string := "estatisticas"

  /** The store's `metadata` list: keys every scan of tickets skips. */
  const Metadata: seq<string> := [IdNumbers, EstatisticasKey]

  predicate IsReserved(k: string)
    ensures IsReserved(k) <==> k == IdNumbers || k == EstatisticasKey
  {
    k in Metadata
  }

  /** The decimal text of an id is never a reserved key. */
  lemma {:induction false} IdKeyIsNotReserved(i: int)
    ensures !IsReserved(IntToString(i))
  {
    var s := IntToString(i);
    assert s[0] != IdNumbers[0] && s[0] != EstatisticasKey[0];
  }

  /** A ticket as the console builds it; a new ticket is open and has no id yet. */
  datatype Chamado = Chamado(descricao: string, prioridade: string, status: bool := true, id: Option<int> := None)

  /** The dict stored for a ticket: its three fields, without the id (the id is the key). */
  function ToDict(c: Chamado): (v: Value)
    ensures v.Ticket?
    ensures StatusOr(v) == c.status && PrioridadeOr(v) == c.prioridade && DescricaoOr(v) == c.descricao
    ensures v.status.Some? && v.prioridade.Some? && v.descricao.Some?
  {
    Ticket(Some(c.status), Some(c.prioridade), Some(c.descricao))
  }

  /** `chamado.get('status', True)` */
  function StatusOr(v: Value): (open: bool)
    requires v.Ticket?
    ensures !open <==> v.status == Some(false)
  {
    v.status.GetOr(true)
  }

  /** `chamado.get('prioridade', 'NullPriority')` */
  function PrioridadeOr(v: Value): (p: string)
    requires v.Ticket?
    ensures v.prioridade.Some? ==> p == v.prioridade.value
    ensures v.prioridade.None? ==> p == "NullPriority"
  {
    v.prioridade.GetOr("NullPriority")
  }

  /** `chamado.get('descricao', 'NullDescription')` */
  function DescricaoOr(v: Value): (s: string)
    requires v.Ticket?
    ensures v.descricao.Some? ==> s == v.descricao.value
    ensures v.descricao.None? ==> s == "NullDescription"
  {
    v.descricao.GetOr("NullDescription")
  }

  /**
   * The shape every store operation relies on: an ordered dict whose ticket
   * keys hold ticket dicts and whose counter, when present, is a number.
   */
  ghost predicate ValidStore(d: Store) {
    && Wf(d)
    && (forall k | k in d.entries && !IsReserved(k) :: d.entries[k].Ticket?)
    && (IdNumbers in d.entries ==> d.entries[IdNumbers].Counter?)
  }

  /** `{"id_numbers": 0}`: the content of a new or reset store. */
  function InitialStore(): (d: Store)
    ensures ValidStore(d) && d.keys == [IdNumbers]
  {
    OrderedMap([IdNumbers], map[IdNumbers := Counter(0)])
  }

  /** `data.get("id_numbers", 0)`: the last id handed out. */
  function CounterOf(d: Store): (n: int)
    ensures IdNumbers in d.entries && d.entries[IdNumbers].Counter? ==> n == d.entries[IdNumbers].count
    ensures IdNumbers !in d.entries ==> n == 0
  {
    if IdNumbers in d.entries && d.entries[IdNumbers].Counter? then d.entries[IdNumbers].count else 0
  }

  /** No ticket key names an id above the counter, so the next id is unused. */
  ghost predicate IdsBelowCounter(d: Store) {
    forall k | k in d.entries && !IsReserved(k) && ParseInt(k).Some? :: ParseInt(k).value <= CounterOf(d)
  }

  /** A ticket key is closed when its dict says `status: false`; a missing status reads as open. */
  predicate IsClosedTicket(d: Store, k: string)
    ensures IsClosedTicket(d, k) <==>
      !IsReserved(k) && k in d.entries && d.entries[k].Ticket? && d.entries[k].status == Some(false)
  {
    && !IsReserved(k)
    && k in d.entries
    && d.entries[k].Ticket?
    && !StatusOr(d.entries[k])
  }

  /** The backing file: missing, unreadable or malformed, or a JSON object. */
  datatype DiskFile = Absent | Corrupt | Json(store: Store)
}
