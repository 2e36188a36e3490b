# Ticket store ("Programas de chamadas") in Dafny

This project models the ticket store behind the console help-desk program in
`main.py`. It covers two pieces:

- the `Chamado` record and its `to_dict` form;
- the `Database` class, which keeps every ticket in one insertion-ordered
  dictionary `self.data` and mirrors it to a JSON file.

The dictionary maps the reserved key `"id_numbers"` to the id counter. Every
other key is a decimal ticket id bound to a dict with the fields `status`,
`prioridade` and `descricao`. The reserved key names are
`["id_numbers", "estatisticas"]`, and every scan skips them.

How the model is laid out:

- `OrderedMaps` gives the insertion-ordered dictionary: a list of distinct
  keys plus a map. Assigning to an existing key keeps its place, assigning a
  new key appends it, and `pop` removes the key from both.
- `Tickets` holds the stored values. A value is either the counter or a ticket
  whose three fields may be absent, because the code reads them with
  `.get(field, default)`. It also holds the store's shape invariant and the
  backing file, which is missing, unreadable, or a JSON object.
- `Decimal` holds the decimal text of ids (`str(n)`) and its inverse.
- `Mutations` describes create, close and clean-up as functions of the old
  store. It includes the clean-up the code evidently intends and the clean-up
  as it is written.
- `Queries` holds the lookups, the description search, the priority ranking
  and the reversed view.
- `Statistics` holds `get_estatisticas`.
- `StoreLaws` relates operations to each other: create, then list or count;
  clean, then count.
- `DatabaseModel.Database` is the class itself. It has the fields `data` and
  `disk`, plus the `base_id`/`next_id` pair written by `get_id`. Its methods
  are proved to compute exactly the functions above. Methods that write the
  file leave `disk == Json(data)`.

The read-only `Database` methods `get_chamado_by_id`, `get_all_ids`,
`get_estatisticas` and `inverted_database` are comprehensions and lookups over
`self.data`. They appear as functions of the store (`Queries.GetChamadoById`,
`Queries.GetAllIds`, `Statistics.GetEstatisticas`, `Queries.InvertedDatabase`),
applied to `db.data`. Because they are functions, they cannot change `data` or
`disk`.

Where the code's behaviour is surprising, the model follows the code:

- `get_chamado_by_id` does not skip the reserved keys. Asking for
  `"id_numbers"` returns the counter.
- `fechar_chamado` returns `False` for an unknown key and `None` after a
  successful close. On the counter key it raises TypeError before changing
  anything. The model has a three-way result:
  `NotFound | ClosedNone | NotSubscriptable`.
- `write_chamado_to_database` returns nothing. The new id can be seen only in
  the counter and in `next_id`.
- `inverted_database` builds a new dictionary and does not store it.
- `clear_database` rewrites the file with `{"id_numbers": 0}` but leaves
  `self.data` as it was. The reset is seen only by the next `Database()`.
- The statistics compare `prioridade` without a default. A ticket with no
  priority, or with one outside the four bucket names, counts in
  `total_chamados` but in no bucket. The ranking, by contrast, reads a missing
  priority as `NullPriority` (rank 4).

## Model

| member | source | states |
|---|---|---|
| Tickets.ToDict | main.py:7-19 | `to_dict` gives a ticket dict with all three fields present, and its status, priority and description read back as the record's fields |
| Tickets.IsReserved | main.py:36 | a key is reserved iff it is `"id_numbers"` or `"estatisticas"`, the two names of `self.metadata` |
| Tickets.IsClosedTicket | main.py:83 | the clean-up test holds for a key iff it is not reserved, is present, holds a ticket dict, and that dict stores `status: false` |
| Tickets.StatusOr | main.py:83 | `get('status', True)` reads a ticket as closed iff its stored status is `false`; a missing status reads as open |
| Tickets.PrioridadeOr | main.py:77 | `get('prioridade', 'NullPriority')` is the stored priority, or `NullPriority` when there is none |
| Tickets.DescricaoOr | main.py:64 | `get('descricao', 'NullDescription')` is the stored description, or `NullDescription` when there is none |
| Tickets.CounterOf | main.py:55 | `get("id_numbers", 0)` is the stored counter, or 0 when the key is missing |
| Tickets.InitialStore | main.py:23-34 | `{"id_numbers": 0}` is a valid store whose only key is the counter |
| Tickets.IdKeyIsNotReserved | main.py:36-42 | the decimal text of an id is never one of the reserved keys, so a created ticket is always visible to the scans |
| Decimal.NatToStringRoundTrip | main.py:41 | reading back the digits of a natural number gives the number |
| Decimal.NatToString | main.py:41 | `str(n)` of a natural number is a non-empty run of decimal digits |
| Decimal.IntToString | main.py:41 | `str(i)` is non-empty, starts with `-` or a digit, and has only digits after that |
| Decimal.IntToStringRoundTrip | main.py:41 | parsing `str(i)` gives `i`, for every integer, negative ones included |
| Decimal.IntToStringInjective | main.py:41 | different ids never share a key |
| OrderedMaps.Set | main.py:41-42 | dict assignment: the key is bound to the value and every other binding is unchanged; an existing key keeps its position and a new key is appended; a well-formed map stays well-formed |
| OrderedMaps.Get | main.py:59 | `m.get(k)` is `Some` iff the key is present, and then holds the bound value |
| OrderedMaps.Remove | main.py:84 | `pop`: the key is gone, every other binding is unchanged, and the remaining keys keep their order |
| OrderedMaps.Reversed | main.py:104 | `reversed(items())`: the same keys, with position `i` holding key `n-1-i` |
| OrderedMaps.ReversedKeepsDistinct | main.py:104 | reversing keeps the keys distinct |
| OrderedMaps.ReversedTwice | main.py:103-105 | reversing twice gives the original order |
| Mutations.Created | main.py:38-45 | create: the counter goes from `n` to `n+1`, key `str(n+1)` is bound to the ticket, and a valid store stays valid |
| Mutations.NextKey | main.py:41 | the key `f"{next_id}"` parses back to the counter plus one and is never a reserved key |
| Mutations.NextKeyIsFresh | main.py:54-56 | when no ticket id exceeds the counter, the key `str(n+1)` that `get_id` chooses is unused |
| Mutations.CreatePreservesIdsBelowCounter | main.py:38-45 | a create keeps every ticket id at or below the counter, so ids are never reused |
| Mutations.InitialStoreIdsBelowCounter | main.py:25-34 | the new or reset store `{"id_numbers": 0}` has counter 0 and names no ticket id above it |
| Mutations.ClosePreservesIdsBelowCounter | main.py:47-52 | a close keeps every ticket id at or below the counter, so closing never lets an id be handed out again |
| Mutations.CleanPreservesIdsBelowCounter | main.py:81-86 | the clean-up, as intended and as written, keeps the counter and every surviving ticket id at or below it, so removed ids are never handed out again |
| Mutations.CreatedFrame | main.py:38-45 | a create touches only the new id and the counter: every other key keeps its binding; the new id is appended after the old keys, and the counter too when it was missing |
| Mutations.CreateKeepsOtherId | main.py:41-42 | a create leaves the binding of every id other than `n+1` as it was |
| Mutations.CreateAll | main.py:38-45 | a run of creates, each storing `Chamado.to_dict()`, keeps a valid store valid and advances the counter by the number of records |
| Mutations.CreateAllBindsLast | main.py:38-45 | the last create of a run binds its ticket to `str(n + count)` |
| Mutations.CreateAllKeepsEarlier | main.py:38-45 | the last create of a run leaves the ids given out before it bound as they were |
| Mutations.CreateAllBinds | main.py:38-45 | once the run is over, the `i`-th ticket sits under `str(n + 1 + i)` |
| Mutations.CreatesAssignConsecutiveIds | main.py:38-45 | successive creates from counter `n`, each storing a `Chamado`'s `to_dict()`, give ids `n+1, n+2, …` in order, each bound to its ticket, and leave the counter at `n + count` |
| Mutations.CloseOutcome | main.py:47-50 | the result is `False` iff the key is absent, the TypeError case iff it holds the counter, and `None` iff it holds a ticket |
| Mutations.Closed | main.py:50 | closing keeps the store valid |
| Mutations.CloseChangesOnlyStatus | main.py:47-52 | a close of a known ticket sets only its `status` to false and keeps its other fields, every other entry, the key order and the counter; an unknown key or the counter key leaves the store as it was |
| Mutations.CloseIdempotent | main.py:47-52 | closing twice gives the same store as closing once |
| Mutations.KeepOpen | main.py:83 | the keys surviving the clean-up test are never more than the scanned keys, and none of them holds a closed ticket |
| Mutations.KeepOpenMembers | main.py:82-84 | the surviving keys are exactly the scanned keys that do not hold a closed ticket |
| Mutations.KeepOpenKeepsDistinct | main.py:82-84 | the surviving keys stay distinct |
| Mutations.CleanStep | main.py:82-84 | one step of the scan: popping a closed key turns the key order after `i` steps into the order after `i+1` steps |
| Mutations.CleanedUpTo | main.py:82-84 | the store after the scan has visited the first `i` keys is valid |
| Mutations.CleanedUpToKeys | main.py:82-84 | after `i` steps the keys are the open keys among the first `i`, in order, followed by the keys not yet visited |
| Mutations.CleanedUpToEntries | main.py:82-84 | after `i` steps exactly the closed tickets among the visited keys are gone, and no value has changed |
| Mutations.CleanedUpToStep | main.py:82-84 | the key visited next is still present with its original value; when the loop's test (not reserved, `status` false) holds, the step pops it, and otherwise the store is left alone |
| Mutations.CleanedUpToAll | main.py:81-86 | the completed scan gives the intended clean-up |
| Mutations.CleanedUpToAllKeys | main.py:82-84 | after the last step the keys are exactly the open keys, in their old order |
| Mutations.CleanedUpToAllEntries | main.py:82-84 | after the last step the bindings are exactly those of the intended clean-up |
| Mutations.CleanFinished | main.py:81-86 | intended clean-up: an entry survives iff it is not a closed ticket; survivors keep their values and order; no closed ticket is left; the counter is unchanged |
| Mutations.FirstClosed | main.py:82-83 | the first closed ticket met in iteration order is a closed ticket of the scanned keys, and none means no scanned key holds one |
| Mutations.CleanAsWritten | main.py:81-86 | as written, the store stays valid whether the loop completes or raises |
| Mutations.CleanAsWrittenScan | main.py:82-83 | each key the loop meets is present, and when the loop's test on it fails the first closed ticket lies further on |
| Mutations.CleanAsWrittenStopsAt | main.py:82-86 | if the scan stops at a closed ticket, that ticket is popped and the error follows; if it runs past the end, nothing changes and no error is raised |
| Mutations.CleanAsWrittenLeavesAClosedTicket | main.py:82-86 | with two closed tickets, the code as written raises and leaves one of them closed in memory; the intended clean-up leaves none |
| Queries.GetChamadoById | main.py:58-59 | `get(str(id), None)` gives the bound value iff the key is present, reserved keys included |
| Queries.GetAllIds | main.py:68-69 | the ids are exactly the keys that are not reserved |
| Queries.NonReserved | main.py:69 | the filter over the keys is never longer than the keys; `NonReservedMembers` says which keys it keeps |
| Queries.NonReservedMembers | main.py:69 | the filter keeps exactly the keys that are not reserved |
| Queries.AllIdsAreDistinct | main.py:68-69 | `get_all_ids` has no duplicates |
| Queries.NonReservedConcat | main.py:69 | filtering a concatenation is concatenating the filtered parts |
| Queries.Lower | main.py:64 | `lower()` on ASCII: same length, `A`–`Z` mapped to `a`–`z`, other characters unchanged |
| Queries.Contains | main.py:64 | Python's `in` on strings: a needle that is found is never longer than the haystack, and the empty string is in every string |
| Queries.ContainsMeansOccurs | main.py:64 | the `in` test on strings holds iff the needle occurs at some position of the haystack |
| Queries.MatchesDescricao | main.py:64 | only ticket entries match, and every ticket matches the empty query |
| Queries.SearchIds | main.py:63-65 | the search keeps at most one id per scanned key; `SearchIdsMembers` says which |
| Queries.SearchIdsMembers | main.py:61-66 | an id is in the search result iff it is among the scanned ids and its lowercased description (or `NullDescription`) contains the lowercased query |
| Queries.DescricaoMatches | main.py:61-66 | the search result is exactly the ticket ids whose lowercased description contains the lowercased query |
| Queries.SearchEmptyQuery | main.py:61-66 | with the empty query the search keeps every ticket id, in order |
| Queries.EmptyQueryReturnsAllIds | main.py:61-66 | searching for `""` returns `get_all_ids()` |
| Queries.Rank | main.py:73-74 | rank is 1 for `high`, 2 for `medium`, 3 for `low`, and 4 for everything else |
| Queries.PriorityPairs | main.py:75-77 | one `(id, priority)` pair per ticket key |
| Queries.PriorityOf | main.py:77 | the priority paired with a key is the ticket's stored priority, or `NullPriority` when there is none |
| Queries.SortedByRank | main.py:72-78 | `sorted(result, key=order_key, reverse=reverse)` returns as many pairs as it is given; the `SortedByRankIs…` lemmas show it is a permutation, ordered and stable |
| Queries.IdsOf | main.py:79 | the comprehension gives one id per sorted pair; `IdsOfAt` shows they are the pairs' ids, in order |
| Queries.RankedIds | main.py:71-79 | the listing has exactly as many entries as `get_all_ids()` |
| Queries.WithRankHasRank | main.py:78 | a rank bucket holds only pairs of that rank |
| Queries.IdsOfAt | main.py:79 | the ids of the sorted pairs, position by position |
| Queries.RankGroupsPartition | main.py:78 | the four rank buckets together hold exactly the pairs, as a multiset |
| Queries.RankGroupIdsPartition | main.py:78-79 | the ids of the four rank buckets together are exactly the ids of the pairs, as a multiset |
| Queries.SortedByRankIsPermutation | main.py:78 | `sorted` returns a permutation of its input |
| Queries.SortedByRankIsOrdered | main.py:78 | ranks do not decrease, or do not increase with `reverse=True` |
| Queries.SortedByRankIsStable | main.py:78 | pairs of equal rank keep their input order in both directions, as Python's stable `sorted` does even with `reverse=True` |
| Queries.IdsOfPairs | main.py:75-79 | the ids of the pair list are `get_all_ids()` |
| Queries.RankedIdsArePermutationOfAllIds | main.py:71-79 | the listing is a permutation of `get_all_ids()` |
| Queries.RankedIdsAreOrdered | main.py:71-79 | in the listing, the priority ranks of the ids are non-decreasing, or non-increasing with `reverse=True` |
| Queries.RankedIdsAreStable | main.py:71-79 | for every rank, the ids of that rank appear in the listing in insertion order |
| Queries.InvertedDatabase | main.py:103-105 | the reversed view has the same bindings, with the keys in reverse order, and is still a valid store |
| Queries.InvertedTwice | main.py:103-105 | inverting twice gives back the store |
| Statistics.GetEstatisticas | main.py:88-101 | `total_chamados` is the number of ids; `finalizados` never exceeds it; the four buckets add up to at most the total, and to the total exactly when every ticket's priority is a bucket name |
| Statistics.Meets | main.py:90-95 | a ticket counts as finished only when `false` is stored as its status, and falls in a priority bucket only when a priority is stored |
| Statistics.CountWhere | main.py:89-95 | a comprehension's length never exceeds the number of keys scanned; `CountAtMostAny` and `CountAnyCountsIds` bound it by the ticket keys |
| Statistics.CountAnyCountsIds | main.py:89 | the total counts each non-reserved key once |
| Statistics.CountAtMostAny | main.py:90-95 | each filtered count is at most the total |
| Statistics.BucketsAtMostTotal | main.py:91-96 | the bucket sum is at most the total, with equality iff every ticket has a bucket-name priority |
| StoreLaws.CreateAppendsOneId | main.py:38-45 | after a create, `get_all_ids()` is the old list with the new id appended |
| StoreLaws.CreateThenGet | main.py:58-59 | a ticket created from `Chamado(d, p).to_dict()` is read back by id as an open ticket with priority `p` and description `d` |
| StoreLaws.ResetThenCreateYieldsIdOne | main.py:107-109 | after a reset, the next create stores its ticket under id `"1"` and it is the only id |
| StoreLaws.CountWhereConcat | main.py:89-95 | counting over a concatenation adds the counts |
| StoreLaws.CountWhereFrame | main.py:89-95 | counts depend only on the entries of the counted keys |
| StoreLaws.CreateKeepsOldCounts | main.py:88-96 | a create does not change what the old keys count |
| StoreLaws.CreateCounts | main.py:88-96 | a create adds one to a count iff the new ticket meets its condition |
| StoreLaws.CreateUpdatesStatistics | main.py:88-101 | after a create the total grows by one; `finalizados` and each bucket grow by one only when the new ticket is closed or has exactly that priority |
| StoreLaws.CountWhereSnoc | main.py:89-95 | appending a key adds one to a count iff it is a ticket meeting the condition |
| StoreLaws.CleanCounts | main.py:89-90 | after the clean-up the total is the old total minus the old closed count, and no closed ticket is counted |
| StoreLaws.CleanUpdatesStatistics | main.py:88-101 | after the clean-up the total falls by the old `finalizados`, and `finalizados` is 0 |
| StoreLaws.NonReservedKeepOpen | main.py:69 | filtering out reserved keys commutes with the clean-up's filter |
| StoreLaws.CleanKeepsIdOrder | main.py:81-86 | after the clean-up, `get_all_ids()` is the old list minus the closed ids, in the old order |
| DatabaseModel.Database.constructor | main.py:23-34 | a missing file is written with `{"id_numbers": 0}` and loaded; a corrupt one leaves that store in memory only; a readable one is loaded as is |
| DatabaseModel.Database.GetId | main.py:54-56 | `base_id` is the counter (0 if absent) and `next_id` is one more |
| DatabaseModel.Database.WriteChamadoToDatabase | main.py:38-45 | the store becomes `Created(old store, chamado)`, the new ticket sits under `str(next_id)`, the counter equals `next_id`, and the file holds the new store |
| DatabaseModel.Database.FecharChamado | main.py:47-52 | the result is `False`, `None` or the TypeError case as the key is unknown, a ticket or the counter; only a successful close changes the store, to `Closed(…)`, and writes the file |
| DatabaseModel.Database.GetChamadoByDescricao | main.py:61-66 | the append loop returns exactly the matching ticket ids in insertion order, and every id for `""` |
| DatabaseModel.Database.ListChamadosByPriority | main.py:71-79 | the loop and sort return a permutation of `get_all_ids()`, ordered by rank (reversed on request) and stable within each rank |
| DatabaseModel.Database.CleanFinishedChamados | main.py:81-86 | scanning a snapshot of the keys, the store becomes `CleanFinished(old store)` and the file holds it |
| DatabaseModel.Database.CleanFinishedChamadosAsWritten | main.py:81-86 | popping during iteration: the first closed ticket is popped and RuntimeError follows with the file untouched; with no closed ticket, the unchanged store is written |
| DatabaseModel.Database.ClearDatabase | main.py:107-109 | the file becomes `{"id_numbers": 0}` while the store in memory stays as it was |

## Findings

| source | as written | input that shows it | evidently intended | confidence | as-written member | corrected member |
|---|---|---|---|---|---|---|
| main.py:82-84 | `clean_finished_chamados` pops from `self.data` while iterating `self.data.items()`. Python raises RuntimeError ("dictionary changed size during iteration") on the next step, so at most one closed ticket is removed and the write on lines 85-86 never runs | `{"id_numbers": 2, "1": {"status": false, …}, "2": {"status": false, …}}`: `"1"` is popped, then the error is raised, `"2"` stays closed, and the file is not rewritten | remove every non-reserved ticket whose `status` is false, then write the file | high, not executed | Mutations.CleanAsWrittenLeavesAClosedTicket | DatabaseModel.Database.CleanFinishedChamados |

The as-written behaviour is also modelled as a method,
`DatabaseModel.Database.CleanFinishedChamadosAsWritten`, and as a function,
`Mutations.CleanAsWritten`. The rest of the model uses the corrected
clean-up, `Mutations.CleanFinished`.

## Left out

- The console UI is not part of this model: `Menu`, `format_chamado`,
  `format_estatisticas`, `clear()`, `fechar_chamado_main` and `main()`
  (main.py:112-337). They are terminal input and output with no state of
  their own.
- JSON text, `open`, `j.load`/`j.dump` and `os.path.exists` are not modelled.
  The file is the field `disk`: missing, corrupt, or a JSON object holding a
  store. A write is `disk := Json(data)`.
- The error message printed when loading fails for some other reason is not
  modelled. That case is treated like a decode error.
- DatabaseModel.Database.constructor: requires that a readable file holds a
  store of the modelled shape. Ticket fields are limited to a bool `status`
  and string `prioridade`/`descricao`, each possibly absent, and
  `"id_numbers"` to an integer. Python accepts other JSON values and behaves
  differently with them, none of which the model covers:
  - `"status": null`, `0` or `""` is read as closed by
    `not chamado.get('status', True)` (main.py:83, main.py:90). The clean-up
    removes such a ticket and `finalizados` counts it.
  - A non-string `descricao` fails at `.lower()` (main.py:64).
  - A string counter fails at `+ 1` (main.py:56).
  - A float counter such as `2.5` silently stores the next ticket under the
    key `"3.5"` (main.py:41).
  - A ticket that is not a dict fails at its first `.get`.
- Every file write is assumed to succeed: `open(DATABASE_PATH, 'w')` and
  `j.dump` at main.py:25, 44, 51, 85 and 109. The path
  `'database\\database.json'` (main.py:4) names a directory that may be
  missing. The write at main.py:25 lies outside the `try`, so then the
  constructor raises FileNotFoundError. In the mutators (main.py:44, 51, 85)
  such an error leaves `data` changed in memory with the file not rewritten.
  The model has no failing write: a write is `disk := Json(data)`.
- Queries.Lower: `str.lower()` is modelled on ASCII letters only. Unicode
  case mapping is not.
- DatabaseModel.Database.GetId: Python creates `base_id`/`next_id` on the
  first call to `get_id`. In the model both fields exist from construction
  and hold 0 until then. Nothing reads them before the first call.
- Mutations.CreatePreservesIdsBelowCounter: "ids are never reused" is stated
  for ticket keys that parse as decimal integers. A key of another form, from
  a hand-edited file, is not constrained.
- The concurrency and iterator machinery of Python dicts is not modelled. The
  pop-during-iteration error appears only as its outcome: the first pop, then
  the error, with no write.
- Integer width is not modelled. The counter is an unbounded integer, as
  Python's `int` is.
