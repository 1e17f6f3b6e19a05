/** Store ("toko") records and the nearby query: given the user's position,
    the stores whose distance to it is at most the search radius, in
    collection order. The distance function is a parameter: the geodesic
    computation itself is not part of this model. */
module Toko {
  import opened Outcomes
  import opened Filtering
  import opened Collection

  /** A store record: its name, its position in decimal degrees, and the
      remaining fields, which are carried along untouched. */
  datatype Store<Extra> = Store(name: string, latitude: real, longitude: real, extra: Extra)

  /** Distance in kilometres from (lat1, lng1) to (lat2, lng2). */
  type Distance = (real, real, real, real) -> real

  /** The fixed search radius of the nearby query, in kilometres. */
  const SearchRadiusKm: real := 3.0

  /** True when `s` lies within `radius` kilometres of the user. The bound is
      inclusive. */
  predicate Within<E>(dist: Distance, userLat: real, userLng: real, radius: real, s: Store<E>) {
    dist(userLat, userLng, s.latitude, s.longitude) <= radius
  }

  /** The nearby query over `data`: an error when either coordinate is
      absent, otherwise the stores within `radius` of the user, in the order
      they appear in `data`. */
  function Nearby<E>(data: seq<Store<E>>, userLat: Option<real>, userLng: Option<real>,
                     dist: Distance, radius: real): (r: Result<seq<Store<E>>>)
    ensures r.Err? <==> userLat.None? || userLng.None?
    ensures r.Err? ==> r.error == MissingCoords
    ensures r.Ok? ==> forall k :: 0 <= k < |r.value| ==>
              r.value[k] in data && Within(dist, userLat.value, userLng.value, radius, r.value[k])
    ensures r.Ok? ==> forall j :: 0 <= j < |data| && Within(dist, userLat.value, userLng.value, radius, data[j]) ==>
              data[j] in r.value
    ensures r.Ok? ==> StableSelection(data, s => Within(dist, userLat.value, userLng.value, radius, s), r.value)
  {
    if userLat.None? || userLng.None? then Err(MissingCoords)
    else
      var keep := s => Within(dist, userLat.value, userLng.value, radius, s);
      FilterIsStableSelection(data, keep);
      Ok(Filter(data, keep))
  }

  /** The query as one linear pass that appends each qualifying store to the
      answer as it is reached. */
  method NearbyScan<E>(data: seq<Store<E>>, userLat: Option<real>, userLng: Option<real>,
                       dist: Distance, radius: real) returns (r: Result<seq<Store<E>>>)
    ensures r == Nearby(data, userLat, userLng, dist, radius)
  {
    if userLat.None? || userLng.None? {
      return Err(MissingCoords);
    }
    var lat, lng := userLat.value, userLng.value;
    var keep := s => Within(dist, lat, lng, radius, s);
    var found: seq<Store<E>> := [];
    var k := 0;
    while k < |data|
      invariant 0 <= k <= |data|
      invariant found == Filter(data[..k], keep)
    {
      if Within(dist, lat, lng, radius, data[k]) {
        found := found + [data[k]];
      }
      FilterConcat(data[..k], [data[k]], keep);
      assert data[..k + 1] == data[..k] + [data[k]];
      k := k + 1;
    }
    assert data[..|data|] == data;
    return Ok(found);
  }

  /** The query answer after an append is the earlier answer, followed by the
      new store when it is within the radius. */
  lemma NearbyAfterAppend<E>(data: seq<Store<E>>, x: Store<E>, userLat: real, userLng: real,
                             dist: Distance, radius: real)
    ensures Nearby(Append(data, x), Some(userLat), Some(userLng), dist, radius).value
         == Nearby(data, Some(userLat), Some(userLng), dist, radius).value
            + (if Within(dist, userLat, userLng, radius, x) then [x] else [])
  {
    var keep := s => Within(dist, userLat, userLng, radius, s);
    FilterConcat(data, [x], keep);
  }

  /** After a removal the query answer is the answer over the stores before
      the removed position followed by the answer over the stores after it;
      it loses the removed store if that was within the radius and is
      otherwise the same length. */
  lemma NearbyAfterRemove<E>(data: seq<Store<E>>, index: int, userLat: real, userLng: real,
                             dist: Distance, radius: real)
    requires InRange(data, index)
    ensures RemoveAt(data, index).Ok?
    ensures Nearby(RemoveAt(data, index).value.rest, Some(userLat), Some(userLng), dist, radius).value
         == Filter(data[..index], s => Within(dist, userLat, userLng, radius, s))
            + Filter(data[index + 1..], s => Within(dist, userLat, userLng, radius, s))
    ensures |Nearby(RemoveAt(data, index).value.rest, Some(userLat), Some(userLng), dist, radius).value|
         == |Nearby(data, Some(userLat), Some(userLng), dist, radius).value|
            - (if Within(dist, userLat, userLng, radius, data[index]) then 1 else 0)
  {
    var keep := s => Within(dist, userLat, userLng, radius, s);
    var before, after := data[..index], data[index + 1..];
    assert data == before + ([data[index]] + after);
    FilterAround(before, data[index], after, keep);
    FilterConcat(before, after, keep);
  }

  /** After a replacement the query answer is the same as before around the
      replaced position: the old store is dropped from it if it qualified and
      the new store takes its place if it qualifies. */
  lemma NearbyAfterReplace<E>(data: seq<Store<E>>, index: int, x: Store<E>, userLat: real, userLng: real,
                              dist: Distance, radius: real)
    requires InRange(data, index)
    ensures ReplaceAt(data, index, x).Ok?
    ensures Nearby(ReplaceAt(data, index, x).value, Some(userLat), Some(userLng), dist, radius).value
         == Filter(data[..index], s => Within(dist, userLat, userLng, radius, s))
            + (if Within(dist, userLat, userLng, radius, x) then [x] else [])
            + Filter(data[index + 1..], s => Within(dist, userLat, userLng, radius, s))
    ensures |Nearby(ReplaceAt(data, index, x).value, Some(userLat), Some(userLng), dist, radius).value|
         == |Nearby(data, Some(userLat), Some(userLng), dist, radius).value|
            - (if Within(dist, userLat, userLng, radius, data[index]) then 1 else 0)
            + (if Within(dist, userLat, userLng, radius, x) then 1 else 0)
  {
    var keep := s => Within(dist, userLat, userLng, radius, s);
    var before, after := data[..index], data[index + 1..];
    var t := ReplaceAt(data, index, x).value;
    assert data == before + ([data[index]] + after);
    assert t == before + ([x] + after);
    FilterAround(before, data[index], after, keep);
    FilterAround(before, x, after, keep);
  }

  /** A store exactly on the search circle is returned: the comparison with
      the radius is inclusive. */
  lemma NearbyIncludesBoundary<E>(s: Store<E>, userLat: real, userLng: real, dist: Distance)
    requires dist(userLat, userLng, s.latitude, s.longitude) == SearchRadiusKm
    ensures Nearby([s], Some(userLat), Some(userLng), dist, SearchRadiusKm) == Ok([s])
  {
    assert Filter([s], t => Within(dist, userLat, userLng, SearchRadiusKm, t)) == [s];
  }
}
