/** The service state and its four request handlers. The state is the
    in-memory collection together with the content of the backing document;
    every successful mutation overwrites the whole document with the new
    collection, and a failed bounds check returns before anything is
    written. */
module Service {
  import opened Outcomes
  import opened Collection
  import opened Toko
  import opened Filtering

  /** `data` is the in-memory collection; `persisted` is what the backing
      document currently holds. */
  datatype State<E> = State(data: seq<Store<E>>, persisted: seq<Store<E>>)

  /** The backing document holds exactly the in-memory collection. */
  ghost predicate Synced<E>(st: State<E>) {
    st.persisted == st.data
  }

  /** A handler's effect: the state after the request and the reply. */
  datatype Step<E, T> = Step(next: State<E>, reply: Result<T>)

  /** Overwrites the whole backing document with the current collection. */
  function Save<E>(st: State<E>): (r: State<E>)
    ensures Synced(r) && r.data == st.data
  {
    st.(persisted := st.data)
  }

  /** Start-up: the collection is the content of the backing document. */
  function Load<E>(doc: seq<Store<E>>): (st: State<E>)
    ensures Synced(st) && st.data == doc
  {
    State(doc, doc)
  }

  /** Adds a store at the end, saves, and replies with the store. */
  function AddToko<E>(st: State<E>, toko: Store<E>): (r: Step<E, Store<E>>)
    ensures r.reply == Ok(toko)
    ensures |r.next.data| == |st.data| + 1 && r.next.data[|st.data|] == toko
    ensures forall j :: 0 <= j < |st.data| ==> r.next.data[j] == st.data[j]
    ensures Synced(r.next)
  {
    Step(Save(st.(data := Append(st.data, toko))), Ok(toko))
  }

  /** Deletes the store at `index`, saves, and replies with the deleted
      store; an out-of-range index is reported and nothing changes. */
  function DeleteToko<E>(st: State<E>, index: int): (r: Step<E, Store<E>>)
    ensures r.reply.Err? <==> !(0 <= index < |st.data|)
    ensures r.reply.Err? ==> r.reply.error == OutOfRange && r.next == st
    ensures r.reply.Ok? ==> r.reply.value == st.data[index]
    ensures r.reply.Ok? ==> r.next.data == st.data[..index] + st.data[index + 1..] && Synced(r.next)
  {
    match RemoveAt(st.data, index)
    case Err(e) => Step(st, Err(e))
    case Ok(rm) => Step(Save(st.(data := rm.rest)), Ok(rm.removed))
  }

  /** Overwrites the store at `index`, saves, and replies with the new
      store; an out-of-range index is reported and nothing changes. */
  function UpdateToko<E>(st: State<E>, index: int, toko: Store<E>): (r: Step<E, Store<E>>)
    ensures r.reply.Err? <==> !(0 <= index < |st.data|)
    ensures r.reply.Err? ==> r.reply.error == OutOfRange && r.next == st
    ensures r.reply.Ok? ==> r.reply.value == toko && Synced(r.next)
    ensures r.reply.Ok? ==> |r.next.data| == |st.data| && r.next.data[index] == toko
    ensures r.reply.Ok? ==> forall j :: 0 <= j < |st.data| && j != index ==> r.next.data[j] == st.data[j]
  {
    match ReplaceAt(st.data, index, toko)
    case Err(e) => Step(st, Err(e))
    case Ok(s) => Step(Save(st.(data := s)), Ok(toko))
  }

  /** The nearby query against the current collection with the fixed 3 km
      radius. It is read-only: the state it hands back is the one it got. */
  function GetNearbyToko<E>(st: State<E>, userLat: Option<real>, userLng: Option<real>,
                            dist: Distance): (r: Step<E, seq<Store<E>>>)
    ensures r.next == st
    ensures r.reply.Err? <==> userLat.None? || userLng.None?
    ensures r.reply.Err? ==> r.reply.error == MissingCoords
    ensures r.reply.Ok? ==> forall k :: 0 <= k < |r.reply.value| ==>
              r.reply.value[k] in st.data && Within(dist, userLat.value, userLng.value, SearchRadiusKm, r.reply.value[k])
    ensures r.reply.Ok? ==> forall j :: 0 <= j < |st.data| && Within(dist, userLat.value, userLng.value, SearchRadiusKm, st.data[j]) ==>
              st.data[j] in r.reply.value
    ensures r.reply.Ok? ==>
              StableSelection(st.data, s => Within(dist, userLat.value, userLng.value, SearchRadiusKm, s), r.reply.value)
  {
    Step(st, Nearby(st.data, userLat, userLng, dist, SearchRadiusKm))
  }

  /** One request to the service. */
  datatype Request<E> =
    | Add(toko: Store<E>)
    | Delete(index: int)
    | Update(index: int, toko: Store<E>)
    | NearbyQuery(userLat: Option<real>, userLng: Option<real>)

  /** The state after serving one request. */
  function Apply<E>(st: State<E>, req: Request<E>, dist: Distance): State<E>
  {
    match req
    case Add(t) => AddToko(st, t).next
    case Delete(i) => DeleteToko(st, i).next
    case Update(i, t) => UpdateToko(st, i, t).next
    case NearbyQuery(lat, lng) => GetNearbyToko(st, lat, lng, dist).next
  }

  /** The state after serving the requests one after another. */
  function Run<E>(st: State<E>, reqs: seq<Request<E>>, dist: Distance): State<E>
    decreases |reqs|
  {
    if |reqs| == 0 then st else Run(Apply(st, reqs[0], dist), reqs[1..], dist)
  }

  /** Serving a request never leaves the backing document out of step with
      the collection when it was in step before. */
  lemma ApplyKeepsSynced<E>(st: State<E>, req: Request<E>, dist: Distance)
    requires Synced(st)
    ensures Synced(Apply(st, req, dist))
  {
  }

  /** The backing document changes only when a mutation succeeds, and then
      it becomes the new collection. */
  lemma ApplyWritesOnlyOnSuccess<E>(st: State<E>, req: Request<E>, dist: Distance)
    ensures Apply(st, req, dist).persisted != st.persisted ==>
              Synced(Apply(st, req, dist)) &&
              (req.Add? || (req.Delete? && InRange(st.data, req.index)) || (req.Update? && InRange(st.data, req.index)))
  {
  }

  /** From a freshly loaded state, the backing document holds the in-memory
      collection after any sequence of requests. */
  lemma {:induction false} RunKeepsSynced<E>(st: State<E>, reqs: seq<Request<E>>, dist: Distance)
    requires Synced(st)
    ensures Synced(Run(st, reqs, dist))
    decreases |reqs|
  {
    if |reqs| > 0 {
      ApplyKeepsSynced(st, reqs[0], dist);
      RunKeepsSynced(Apply(st, reqs[0], dist), reqs[1..], dist);
    }
  }

  /** Read-only requests leave the whole state, backing document included,
      as it was. */
  lemma {:induction false} QueriesChangeNothing<E>(st: State<E>, reqs: seq<Request<E>>, dist: Distance)
    requires forall k :: 0 <= k < |reqs| ==> reqs[k].NearbyQuery?
    ensures Run(st, reqs, dist) == st
    decreases |reqs|
  {
    if |reqs| > 0 {
      QueriesChangeNothing(st, reqs[1..], dist);
    }
  }

  /** Adding a store and then deleting the first one leaves only the added
      store, both in memory and in the backing document. */
  lemma AddThenDeleteFirst<E>(a: Store<E>, b: Store<E>, dist: Distance)
    ensures Run(Load([a]), [Add(b), Delete(0)], dist) == State([b], [b])
  {
    var s1 := Apply(Load([a]), Add(b), dist);
    assert s1 == State([a, b], [a, b]);
    var reqs: seq<Request<E>> := [Add(b), Delete(0)];
    assert reqs[1..] == [Delete(0)];
    assert Run(s1, [Delete(0)], dist) == Apply(s1, Delete(0), dist);
  }

  /** A store about 1.1 km from the user is returned and one about 7400 km
      away is not. */
  lemma NearbyExample<E>(a: Store<E>, dist: Distance)
    requires a.latitude == -6.200 && a.longitude == 106.816
    requires dist(-6.210, 106.816, -6.200, 106.816) == 1.1
    requires dist(0.0, 0.0, -6.200, 106.816) == 7400.0
    ensures GetNearbyToko(Load([a]), Some(-6.210), Some(106.816), dist).reply == Ok([a])
    ensures GetNearbyToko(Load([a]), Some(0.0), Some(0.0), dist).reply == Ok([])
  {
    assert Filter([a], s => Within(dist, -6.210, 106.816, SearchRadiusKm, s)) == [a];
    assert Filter([a], s => Within(dist, 0.0, 0.0, SearchRadiusKm, s)) == [];
  }
}
