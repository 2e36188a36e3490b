/**
 * The `Database` object: the in-memory store `data`, the backing file `disk`,
 * and the `base_id`/`next_id` fields set by `get_id`. Every method that
 * changes `data` and writes the file leaves `disk == Json(data)`.
 */
module DatabaseModel {
  import opened Wrappers
  import opened OrderedMaps
  import opened Decimal
  import opened Tickets
  import opened Mutations
  import opened Queries

  class Database {
    var data: Store
    var disk: DiskFile
    // Python creates these two attributes on the first `get_id`; until then they hold 0 here and nothing reads them.
    var baseId: int
    var nextId: int

    ghost predicate Valid()
      reads this
    {
      ValidStore(data)
    }

    /**
     * Load-or-init: a missing file is first written with the initial store;
     * a corrupt or unreadable one is replaced by the initial store in memory
     * only, and stays as it is on disk.
     */
    constructor (file: DiskFile)
      requires file.Json? ==> ValidStore(file.store)
      ensures Valid()
      ensures disk == (if file.Absent? then Json(InitialStore()) else file)
      ensures data == (if disk.Json? then disk.store else InitialStore())
    {
      var current := if file.Absent? then Json(InitialStore()) else file;
      disk := current;
      data := if current.Json? then current.store else InitialStore();
      baseId, nextId := 0, 0;
    }

    /** `get_id`: the last id handed out and the next one. */
    method GetId()
      modifies this`baseId, this`nextId
      ensures baseId == CounterOf(data) && nextId == baseId + 1
    {
      baseId := CounterOf(data);
      nextId := baseId + 1;
    }

    /**
     * `write_chamado_to_database`: store the ticket under the next id, advance
     * the counter, write the file. It returns nothing; the new id is `nextId`.
     */
    method WriteChamadoToDatabase(chamado: Value)
      requires Valid() && chamado.Ticket?
      modifies this
      ensures Valid()
      ensures baseId == CounterOf(old(data)) && nextId == baseId + 1
      ensures data == Created(old(data), chamado)
      ensures CounterOf(data) == nextId && Get(data, IntToString(nextId)) == Some(chamado)
      ensures disk == Json(data)
    {
      GetId();
      var d, n := data, nextId;
      var store := Set(d, IntToString(n), chamado);
      store := Set(store, IdNumbers, Counter(n));
      CreatedBySteps(d, chamado, n);
      data := store;
      disk := Json(store);
    }

    /**
     * `fechar_chamado`: an unknown key gives `False` and changes nothing; a
     * ticket key gets `status: false` and the file is written, and the method
     * returns None; the counter key raises TypeError before anything changes.
     */
    method FecharChamado(id: string) returns (r: CloseResult)
      requires Valid()
      modifies this`data, this`disk
      ensures Valid()
      ensures r == CloseOutcome(old(data), id)
      ensures data == (if r == ClosedNone then Closed(old(data), id) else old(data))
      ensures disk == (if r == ClosedNone then Json(data) else old(disk))
    {
      if id !in data.entries {
        return NotFound;
      }
      match data.entries[id]
      case Counter(_) =>
        r := NotSubscriptable;
      case Ticket(_, prioridade, descricao) =>
        data := Set(data, id, Ticket(Some(false), prioridade, descricao));
        disk := Json(data);
        r := ClosedNone;
    }

    /** `get_chamado_by_descricao`: scan the items in order, keep the matching ticket ids. */
    method GetChamadoByDescricao(descricao: string) returns (result: seq<string>)
      requires Valid()
      ensures result == DescricaoMatches(data, descricao)
      ensures forall k :: k in result <==> k in GetAllIds(data) && MatchesDescricao(data.entries[k], descricao)
      ensures descricao == "" ==> result == GetAllIds(data)
    {
      var items := data.keys;
      result := [];
      var i := 0;
      while i < |items|
        invariant 0 <= i <= |items|
        invariant result == SearchIds(data, NonReserved(items[..i]), descricao)
      {
        var k := items[i];
        SearchStep(data, items, i, descricao);
        if !IsReserved(k) && MatchesDescricao(data.entries[k], descricao) {
          result := result + [k];
        }
        i := i + 1;
      }
      assert items[..|items|] == items;
      if descricao == "" {
        EmptyQueryReturnsAllIds(data);
      }
    }

    /**
     * `list_chamados_by_priority`: pair each ticket id with its priority, sort
     * the pairs stably by rank, keep the ids.
     */
    method ListChamadosByPriority(reverse: bool := false) returns (ids: seq<string>)
      requires Valid()
      ensures ids == RankedIds(data, reverse)
      ensures multiset(ids) == multiset(GetAllIds(data))
      ensures forall i, j | 0 <= i < j < |ids| ::
        if reverse then RankOf(data, ids[i]) >= RankOf(data, ids[j]) else RankOf(data, ids[i]) <= RankOf(data, ids[j])
      ensures forall r :: IdsOfRank(data, ids, r) == IdsOfRank(data, GetAllIds(data), r)
    {
      var items := data.keys;
      var result: seq<Entry> := [];
      var i := 0;
      while i < |items|
        invariant 0 <= i <= |items|
        invariant result == PriorityPairs(data, items[..i])
      {
        var k := items[i];
        PriorityPairsStep(data, items, i);
        if !IsReserved(k) {
          result := result + [(k, PrioridadeOr(data.entries[k]))];
        }
        i := i + 1;
      }
      assert items[..|items|] == items;
      var sorted := SortedByRank(result, reverse);
      ids := IdsOf(sorted);
      RankedIdsArePermutationOfAllIds(data, reverse);
      RankedIdsAreOrdered(data, reverse);
      forall r
        ensures IdsOfRank(data, ids, r) == IdsOfRank(data, GetAllIds(data), r)
      {
        RankedIdsAreStable(data, reverse, r);
      }
    }

    /**
     * `clean_finished_chamados` as intended: every closed ticket is popped,
     * scanning a snapshot of the keys, then the file is written. (The code
     * pops from the dict it iterates; `CleanFinishedChamadosAsWritten` models
     * what that does.)
     */
    method CleanFinishedChamados()
      requires Valid()
      modifies this`data, this`disk
      ensures Valid()
      ensures data == CleanFinished(old(data))
      ensures disk == Json(data)
    {
      var loaded := data;
      var snapshot := loaded.keys;
      var store := loaded;
      var i := 0;
      while i < |snapshot|
        invariant 0 <= i <= |snapshot|
        invariant store == CleanedUpTo(loaded, i)
      {
        var k := snapshot[i];
        CleanedUpToStep(loaded, i);
        if !IsReserved(k) && !StatusOr(store.entries[k]) {
          store := Remove(store, k);
        }
        i := i + 1;
      }
      CleanedUpToAll(loaded);
      data := store;
      disk := Json(data);
    }

    /**
     * `clean_finished_chamados` as written: the first closed ticket met while
     * iterating `data.items()` is popped, and the iterator's next step raises
     * RuntimeError, so the file is never written. With no closed ticket the
     * loop completes and the unchanged store is written.
     */
    method CleanFinishedChamadosAsWritten() returns (raised: bool)
      requires Valid()
      modifies this`data, this`disk
      ensures Valid()
      ensures CleanRun(data, raised) == CleanAsWritten(old(data))
      ensures disk == (if raised then old(disk) else Json(data))
    {
      var store := data;
      var items := store.keys;
      var i := 0;
      while i < |items|
        invariant 0 <= i <= |items|
        invariant FirstClosed(store, items) == FirstClosed(store, items[i..])
        invariant unchanged(this)
      {
        CleanAsWrittenScan(store, i);
        if !IsReserved(items[i]) && !StatusOr(store.entries[items[i]]) {
          break;
        }
        i := i + 1;
      }
      CleanAsWrittenStopsAt(store, i);
      if i < |items| {
        data := Remove(store, items[i]);
        return true;
      }
      disk := Json(store);
      return false;
    }

    /** `clear_database`: the file is overwritten with the initial store; the loaded `data` is untouched. */
    method ClearDatabase()
      modifies this`disk
      ensures disk == Json(InitialStore())
      ensures data == old(data)
    {
      disk := Json(InitialStore());
    }
  }
}
