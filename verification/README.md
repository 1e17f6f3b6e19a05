# SehatIn location API — store collection and nearby query

This project models the core of a small HTTP service that manages a list of
stores ("toko"), each with a name and a geographic position. The list lives
in process memory and is mirrored in one remote JSON document. Four handlers
act on it:

- `get_nearby_toko` returns the stores within 3 km of the user, in list order.
- `add_toko` appends a store.
- `delete_toko` removes a store by its 0-based position.
- `update_toko` overwrites a store at its 0-based position.

A store's position is its only identifier, so deleting a store shifts every
later store down by one position. After every successful mutation the whole
list is written back to the remote document.

Modules:

- `Outcomes` (outcomes.dfy): `Option`, the error tags `OutOfRange` and
  `MissingCoords`, and `Result`.
- `Collection` (collection.dfy): positional operations on a sequence. These
  are `Append`, `RemoveAt` and `ReplaceAt`, plus `InsertAt` as the inverse
  of a removal.
- `Filtering` (filtering.dfy): the stable filter behind the nearby query. It
  comes with an independent reference description, `KeptIndices`: the
  strictly increasing list of every position whose element qualifies.
- `Toko` (toko.dfy): the `Store` record, the nearby query `Nearby`, and
  `NearbyScan`, a single-pass loop implementation of it. Lemmas relate the
  query's answer before and after each mutation.
- `Service` (service.dfy): the service state, holding the collection `data`
  and the remote document's content `persisted`. It has the four handlers,
  and `Run` serves a sequence of requests. Lemmas show that the document
  always holds the collection after a successful write, and that failed or
  read-only requests write nothing.

The geodesic distance is a parameter of type
`(real, real, real, real) -> real`. Nothing is assumed about it.

The search radius is the constant 3 km at main.py:53. `Nearby` takes the
radius as a parameter, and `GetNearbyToko` passes `SearchRadiusKm` (3.0).

## Model

| member | source | states |
|---|---|---|
| Collection.Append | main.py:58-59 | The new list is one longer. Every earlier position keeps its record, and the new record sits at the old length. |
| Collection.RemoveAt | main.py:65-67 | Fails with OutOfRange exactly when the index is negative or at least the length. Otherwise it returns the record at the index and a list one shorter. Earlier positions are unchanged and later records move down by one. |
| Collection.ReplaceAt | main.py:74-76 | Fails with OutOfRange exactly when the index is out of bounds. Otherwise the length is kept, the index holds the new record, and every other position is unchanged. |
| Collection.RemoveAtThenInsert | main.py:67 | Inserting the removed record back at its old position restores the original list. |
| Collection.InsertThenRemoveAt | main.py:67 | Removing at the position where a record was just inserted returns that record and the list it was inserted into. |
| Collection.AppendThenRemoveLast | main.py:59-67 | Removing the last position right after an append returns the appended record and the list as it was before the append. |
| Collection.RemoveAtMultiset | main.py:67 | A removal takes out exactly one occurrence of the removed record and keeps every other record. |
| Collection.ReplaceAtMultiset | main.py:76 | A replacement swaps one occurrence of the old record for the new one. |
| Collection.ReplaceAtRestore | main.py:76 | Writing the old record back over a replacement restores the list. |
| Collection.ReplaceAtLastWins | main.py:76 | Of two replacements at the same position, only the second one remains visible. |
| Filtering.Filter | main.py:53 | The result is no longer than the input. Every element of the result occurs in the input and qualifies, and every qualifying input element occurs in the result. |
| Filtering.FilterIsStableSelection | main.py:53 | The filter result is exactly the elements at the qualifying positions, listed in increasing position order. |
| Filtering.FilterConcat | main.py:53 | Filtering a concatenation gives the concatenation of the filtered parts. |
| Filtering.FilterIdempotent | main.py:53 | Filtering an already filtered list changes nothing. |
| Toko.Nearby | main.py:43-53 | Returns MissingCoords exactly when a coordinate is absent. Otherwise the answer holds every store within the radius and only such stores, as an order-preserving selection of the collection. |
| Toko.NearbyScan | main.py:53 | The single linear pass over the collection yields the same answer as the query definition, errors included. |
| Toko.NearbyAfterAppend | main.py:53-59 | After an append, the query answer is the previous answer followed by the new store, if that store is within the radius. |
| Toko.NearbyAfterRemove | main.py:53-67 | After a delete, the query answer is the answer over the stores before the position followed by the answer over the stores after it. It is one shorter if the removed store was within the radius, and otherwise has the same length. |
| Toko.NearbyAfterReplace | main.py:53-76 | After an update, the query answer is the answer over the stores before the position, then the new store if it qualifies, then the answer over the stores after it. Its length drops by one if the old store qualified and rises by one if the new store qualifies. |
| Toko.NearbyIncludesBoundary | main.py:53 | A store at exactly 3 km is returned, because the comparison is inclusive. |
| Service.Save | main.py:17-21 | After a save, the document holds the whole in-memory list and the list itself is untouched. |
| Service.Load | main.py:39 | At start-up, the in-memory list is the document's content and the two agree. |
| Service.AddToko | main.py:57-61 | Replies with the posted store. The list gains it at the end with earlier positions unchanged, and the document then holds the new list. |
| Service.DeleteToko | main.py:64-69 | An out-of-range index fails with OutOfRange and leaves the state unchanged, document included. Otherwise it replies with the removed store, and the list loses that position and is saved. |
| Service.UpdateToko | main.py:72-78 | An out-of-range index fails with OutOfRange and leaves the state unchanged. Otherwise it replies with the new store, only the addressed position changes, and the list is saved. |
| Service.GetNearbyToko | main.py:42-54 | The query leaves the state unchanged, document included. It fails with MissingCoords exactly when a coordinate is absent, and otherwise returns exactly the stores within 3 km, in collection order. |
| Service.ApplyKeepsSynced | main.py:59-77 | If the document held the list before a request, it still does afterwards. |
| Service.ApplyWritesOnlyOnSuccess | main.py:60-77 | The document changes only on an add, an in-range delete or an in-range update, and it then holds the new list. |
| Service.RunKeepsSynced | main.py:39-77 | From a loaded state, the document holds the in-memory list after any sequence of requests. |
| Service.QueriesChangeNothing | main.py:42-54 | Any sequence of nearby queries leaves the whole state as it was. |
| Service.AddThenDeleteFirst | main.py:57-69 | Loading [A], adding B and deleting position 0 leaves [B] both in memory and in the document. |
| Service.NearbyExample | main.py:48-53 | Given a distance of 1.1 km, the store is returned. Given a distance of 7400 km, the answer is empty. |

## Left out

- Remote storage access (main.py:10-27, 35, 39) is network I/O through a cloud client library. Loading becomes `Load` of a given document, and saving becomes `Save`, which sets `persisted` to the collection.
- A failing save is not modelled. In the code, an exception raised after the in-memory mutation leaves the list changed but not persisted. The code has no rollback, so the model has none either.
- The geodesic distance (main.py:6, 51) is ellipsoidal floating-point code in a foreign library. It is a parameter, and no geometric fact about it is used.
- Floating point: coordinates and distances are `real`, and `dist` is total. Python's float parse (main.py:43-44) also accepts `nan`, `inf` and latitudes outside [-90, 90]. A distance computation that raises on such out-of-range or non-finite coordinates is not modelled; there the code fails the request whenever the list is non-empty, while the model replies `Ok`.
- HTTP routing, JSON encoding, status codes, response headers and messages (main.py:1, 8, 41-78) are left out. A parsed query parameter is an `Option<real>`. Flask's `<int:index>` route never matches a negative number, but the model keeps the handler's own `index < 0` guard on an `int`.
- Records are the `Store` datatype, with a name, two coordinates and opaque extra fields. A posted body that is not an object, or that lacks `latitude`/`longitude`, cannot be represented. In the code such a body later makes the nearby query raise (`TypeError` for a non-object, `KeyError` for a missing field, main.py:49-50).
- The `KeyError` raised after a successful update when the body lacks `nama_toko` (main.py:78) is a by-product of building the response message, which happens after the save.
- Configuration loading and process start-up (main.py:29-37, 80-83) are left out.
- Concurrency between requests is left out. The code has no locking, and requests are modelled as served one at a time by `Run`.
