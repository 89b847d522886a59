/**
 * mergeData of Main.java: a full outer join of locations and metadata on
 * their ids, where the first record with a given id wins.
 */
module Merge {
  import opened Wrappers
  import opened Records

  function LocationKey(l: Location): Option<string> { l.id }

  function MetadataKey(m: Metadata): Option<string> { m.id }

  /** Map.get: the value for k, or None where Java returns null. */
  function Lookup<K, V>(m: map<K, V>, k: K): Option<V> {
    if k in m then Some(m[k]) else None
  }

  /** Some element of s has id k. */
  ghost predicate HasId<T>(s: seq<T>, key: T -> Option<string>, k: string) {
    exists i :: 0 <= i < |s| && key(s[i]) == Some(k)
  }

  /** The element with id k that comes first in s, if there is one. */
  function FirstWithId<T>(s: seq<T>, key: T -> Option<string>, k: string): (r: Option<T>)
    ensures r.None? <==> !HasId(s, key, k)
    ensures r.Some? ==> exists i :: 0 <= i < |s| && s[i] == r.value && key(s[i]) == Some(k)
                                    && forall j :: 0 <= j < i ==> key(s[j]) != Some(k)
  {
    if s == [] then None
    else if key(s[0]) == Some(k) then Some(s[0])
    else
      var r := FirstWithId(s[1..], key, k);
      assert forall i :: 0 < i < |s| ==> s[i] == s[1..][i - 1];
      assert r.Some? ==> exists i :: 0 <= i < |s[1..]| && s[1..][i] == r.value && key(s[1..][i]) == Some(k)
                                     && forall j :: 0 <= j < i ==> key(s[1..][j]) != Some(k);
      r
  }

  /**
   * Collectors.toMap over the records whose id is not null, folding left to
   * right with a merge function that keeps the value already in the map.
   */
  function FirstById<T>(s: seq<T>, key: T -> Option<string>): (m: map<string, T>)
    ensures forall k :: k in m ==> key(m[k]) == Some(k) && m[k] in s
  {
    if s == [] then map[]
    else
      var m := FirstById(s[..|s| - 1], key);
      var k := key(s[|s| - 1]);
      if k.None? || k.value in m then m else m[k.value := s[|s| - 1]]
  }

  /** Looking for a first occurrence in s + [x] looks in s first. */
  lemma {:induction false} FirstWithIdSnoc<T>(s: seq<T>, x: T, key: T -> Option<string>, k: string)
    ensures FirstWithId(s + [x], key, k)
         == if FirstWithId(s, key, k).Some? then FirstWithId(s, key, k)
            else if key(x) == Some(k) then Some(x) else None
  {
    if s != [] {
      assert (s + [x])[1..] == s[1..] + [x];
      FirstWithIdSnoc(s[1..], x, key, k);
    }
  }

  /** The map the collector builds holds, for each non-null id, the first record with that id. */
  lemma {:induction false} FirstByIdIsFirstOccurrence<T>(s: seq<T>, key: T -> Option<string>, k: string)
    ensures Lookup(FirstById(s, key), k) == FirstWithId(s, key, k)
  {
    if s != [] {
      var init, x := s[..|s| - 1], s[|s| - 1];
      assert init + [x] == s;
      FirstByIdIsFirstOccurrence(init, key, k);
      FirstWithIdSnoc(init, x, key, k);
      var m := FirstById(init, key);
      if key(x).None? || key(x).value in m {
        assert FirstById(s, key) == m;
      } else {
        assert FirstById(s, key) == m[key(x).value := x];
      }
    }
  }

  /** The keys of the collected map are exactly the non-null ids. */
  lemma FirstByIdKeys<T>(s: seq<T>, key: T -> Option<string>, k: string)
    ensures k in FirstById(s, key) <==> HasId(s, key, k)
  {
    FirstByIdIsFirstOccurrence(s, key, k);
  }

  /**
   * What mergeData promises: one record per distinct non-null id of either
   * input, each id once. Each record holds the first location and the first
   * metadata with its id, None when an input has no such id, so it is
   * complete exactly when both inputs have the id.
   */
  ghost predicate IsMergeOf(locations: seq<Location>, metadata: seq<Metadata>, merged: seq<MergedData>) {
    && (forall i, j :: 0 <= i < j < |merged| ==> merged[i].id != merged[j].id)
    && (forall k :: (exists i :: 0 <= i < |merged| && merged[i].id == k)
                    <==> HasId(locations, LocationKey, k) || HasId(metadata, MetadataKey, k))
    && (forall i :: 0 <= i < |merged| ==>
          && merged[i].location == FirstWithId(locations, LocationKey, merged[i].id)
          && merged[i].metadata == FirstWithId(metadata, MetadataKey, merged[i].id))
    && (forall i :: 0 <= i < |merged| ==>
          (merged[i].IsComplete() <==> HasId(locations, LocationKey, merged[i].id) && HasId(metadata, MetadataKey, merged[i].id)))
  }

  /** mergeData: the records come in the order a HashSet happens to yield the ids (here: any order). */
  method MergeData(locations: seq<Location>, metadata: seq<Metadata>) returns (merged: seq<MergedData>)
    ensures IsMergeOf(locations, metadata, merged)
  {
    var locationMap := FirstById(locations, LocationKey);
    var metadataMap := FirstById(metadata, MetadataKey);
    var allIds := locationMap.Keys + metadataMap.Keys;
    merged := [];
    var remaining := allIds;
    while remaining != {}
      invariant remaining <= allIds
      invariant forall i :: 0 <= i < |merged| ==> merged[i].id in allIds - remaining
      invariant forall k :: k in allIds - remaining ==> exists i :: 0 <= i < |merged| && merged[i].id == k
      invariant forall i, j :: 0 <= i < j < |merged| ==> merged[i].id != merged[j].id
      invariant forall i :: 0 <= i < |merged| ==>
                  merged[i].location == Lookup(locationMap, merged[i].id) && merged[i].metadata == Lookup(metadataMap, merged[i].id)
      decreases remaining
    {
      var id :| id in remaining;
      ghost var before, left := merged, remaining;
      merged := merged + [MergedData(id, Lookup(locationMap, id), Lookup(metadataMap, id))];
      remaining := remaining - {id};
      forall k | k in allIds - remaining
        ensures exists i :: 0 <= i < |merged| && merged[i].id == k
      {
        if k == id {
          assert merged[|before|].id == k;
        } else {
          assert k in allIds - left;
          var i :| 0 <= i < |before| && before[i].id == k;
          assert merged[i].id == k;
        }
      }
    }
    assert allIds - remaining == allIds;
    MergeOfMaps(locations, metadata, merged);
  }

  /** A merge read off the two collected maps is a merge of the two inputs. */
  lemma MergeOfMaps(locations: seq<Location>, metadata: seq<Metadata>, merged: seq<MergedData>)
    requires forall i, j :: 0 <= i < j < |merged| ==> merged[i].id != merged[j].id
    requires forall k :: (exists i :: 0 <= i < |merged| && merged[i].id == k)
                         <==> k in FirstById(locations, LocationKey).Keys + FirstById(metadata, MetadataKey).Keys
    requires forall i :: 0 <= i < |merged| ==>
               && merged[i].location == Lookup(FirstById(locations, LocationKey), merged[i].id)
               && merged[i].metadata == Lookup(FirstById(metadata, MetadataKey), merged[i].id)
    ensures IsMergeOf(locations, metadata, merged)
  {
    forall k
      ensures (exists i :: 0 <= i < |merged| && merged[i].id == k)
              <==> HasId(locations, LocationKey, k) || HasId(metadata, MetadataKey, k)
    {
      FirstByIdKeys(locations, LocationKey, k);
      FirstByIdKeys(metadata, MetadataKey, k);
      var locationMap, metadataMap := FirstById(locations, LocationKey), FirstById(metadata, MetadataKey);
      assert k in locationMap.Keys + metadataMap.Keys <==> k in locationMap || k in metadataMap;
    }
    forall i | 0 <= i < |merged|
      ensures merged[i].location == FirstWithId(locations, LocationKey, merged[i].id)
      ensures merged[i].metadata == FirstWithId(metadata, MetadataKey, merged[i].id)
      ensures merged[i].IsComplete() <==> HasId(locations, LocationKey, merged[i].id) && HasId(metadata, MetadataKey, merged[i].id)
    {
      FirstByIdIsFirstOccurrence(locations, LocationKey, merged[i].id);
      FirstByIdIsFirstOccurrence(metadata, MetadataKey, merged[i].id);
    }
  }
}
