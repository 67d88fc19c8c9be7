/** A multi-version store with caller-supplied timestamps (mvcc.go).
    Each key holds the versions written to it, in write order; a read at
    time t sorts the key's versions newest first, in place, and returns the
    first one written at or before t. Each method is one atomic step: the
    read/write lock is not modelled. */
module Mvcc {

  datatype Version = Version(timestamp: int, value: string)

  /** The versions stored under `key`; an absent key reads as the empty
      (nil) slice. */
  function Lookup(m: map<string, seq<Version>>, key: string): seq<Version>
  {
    if key in m then m[key] else []
  }

  /** Newest first: timestamps never increase along the sequence. */
  ghost predicate SortedDesc(vs: seq<Version>)
  {
    forall i, j :: 0 <= i < j < |vs| ==> vs[i].timestamp >= vs[j].timestamp
  }

  /** `v` is a version of `vs` visible at `t` with the greatest timestamp
      among those visible at `t`. Ties are not broken: any version carrying
      that timestamp qualifies. */
  ghost predicate LatestAt(vs: seq<Version>, t: int, v: Version)
  {
    v in vs && v.timestamp <= t &&
    forall w :: w in vs && w.timestamp <= t ==> w.timestamp <= v.timestamp
  }

  /** No two versions share a timestamp. */
  ghost predicate DistinctTimestamps(vs: seq<Version>)
  {
    forall i, j :: 0 <= i < |vs| && 0 <= j < |vs| && i != j ==> vs[i].timestamp != vs[j].timestamp
  }

  /** Inserts `v` into a newest-first sequence, keeping it newest first. */
  function InsertDesc(v: Version, vs: seq<Version>): (r: seq<Version>)
    requires SortedDesc(vs)
    ensures SortedDesc(r)
    ensures multiset(r) == multiset(vs) + multiset{v}
  {
    if vs == [] || vs[0].timestamp <= v.timestamp then [v] + vs
    else
      var rest := InsertDesc(v, vs[1..]);
      assert vs == [vs[0]] + vs[1..];
      assert forall x :: x in rest ==> x.timestamp <= vs[0].timestamp by {
        forall x | x in rest
          ensures x.timestamp <= vs[0].timestamp
        {
          assert x in multiset(rest);
          assert x == v || x in multiset(vs[1..]);
        }
      }
      [vs[0]] + rest
  }

  /** The effect of sort.Slice on a key's versions: a rearrangement that is
      newest first. The order among equal timestamps is not promised. */
  method SortByTimestampDesc(vs: seq<Version>) returns (sorted: seq<Version>)
    ensures SortedDesc(sorted)
    ensures multiset(sorted) == multiset(vs)
  {
    sorted := [];
    for i := 0 to |vs|
      invariant SortedDesc(sorted)
      invariant multiset(sorted) == multiset(vs[..i])
    {
      assert vs[..i + 1] == vs[..i] + [vs[i]];
      sorted := InsertDesc(vs[i], sorted);
    }
    assert vs[..|vs|] == vs;
  }

  /** The scan of Read: the value of the first version, front to back,
      written at or before `timestamp`, or ("", false) when there is none. */
  method FirstAtOrBefore(versions: seq<Version>, timestamp: int) returns (value: string, found: bool)
    ensures found <==> exists i :: 0 <= i < |versions| && versions[i].timestamp <= timestamp
    ensures found ==> exists i :: 0 <= i < |versions| && versions[i].timestamp <= timestamp &&
                                  versions[i].value == value &&
                                  forall j :: 0 <= j < i ==> versions[j].timestamp > timestamp
    ensures !found ==> value == ""
  {
    for i := 0 to |versions|
      invariant forall j :: 0 <= j < i ==> versions[j].timestamp > timestamp
    {
      if versions[i].timestamp <= timestamp {
        return versions[i].value, true;
      }
    }
    return "", false;
  }

  /** In a newest-first sequence the first version visible at `t` is a
      latest one at `t`. */
  lemma FirstVisibleIsLatest(vs: seq<Version>, t: int, i: int)
    requires SortedDesc(vs)
    requires 0 <= i < |vs| && vs[i].timestamp <= t
    requires forall j :: 0 <= j < i ==> vs[j].timestamp > t
    ensures LatestAt(vs, t, vs[i])
  {
    forall w | w in vs && w.timestamp <= t
      ensures w.timestamp <= vs[i].timestamp
    {
      var k :| 0 <= k < |vs| && vs[k] == w;
      if k < i {
        assert false;
      }
    }
  }

  /** Which versions are latest at `t` does not depend on their order, so
      the in-place sort of one read does not change what later reads may
      return. */
  lemma LatestAtPermutation(a: seq<Version>, b: seq<Version>, t: int, v: Version)
    requires multiset(a) == multiset(b)
    ensures LatestAt(a, t, v) <==> LatestAt(b, t, v)
  {
    SameMembers(a, b);
  }

  /** Rearranging a sequence keeps its members. */
  lemma SameMembers(a: seq<Version>, b: seq<Version>)
    requires multiset(a) == multiset(b)
    ensures forall w :: w in a <==> w in b
  {
    forall w
      ensures w in a <==> w in b
    {
      assert w in a <==> w in multiset(a);
      assert w in b <==> w in multiset(b);
    }
  }

  /** With distinct timestamps a latest version is unique, so reads repeated
      with no write in between (each of which may reorder the key's
      versions) return the same value. */
  lemma RepeatedReadsAgree(a: seq<Version>, b: seq<Version>, t: int, v: Version, w: Version)
    requires multiset(a) == multiset(b) && DistinctTimestamps(a)
    requires LatestAt(a, t, v) && LatestAt(b, t, w)
    ensures v == w
  {
    LatestAtPermutation(a, b, t, w);
    var i :| 0 <= i < |a| && a[i] == v;
    var j :| 0 <= j < |a| && a[j] == w;
    if i != j {
      assert a[i].timestamp != a[j].timestamp;
    }
  }

  /** With tied timestamps the choice is open: both tied versions are latest. */
  lemma TiesAreUnresolved(t: int, x: string, y: string)
    ensures LatestAt([Version(t, x), Version(t, y)], t, Version(t, x))
    ensures LatestAt([Version(t, x), Version(t, y)], t, Version(t, y))
  {
  }

  /** A write stamped later than every existing version of its key is what
      any read at or after its timestamp sees. */
  lemma NewestWriteIsVisible(vs: seq<Version>, ts: int, value: string, t: int, v: Version)
    requires forall w :: w in vs ==> w.timestamp < ts
    requires ts <= t
    requires LatestAt(vs + [Version(ts, value)], t, v)
    ensures v == Version(ts, value)
  {
    assert Version(ts, value) in vs + [Version(ts, value)];
    if v in vs {
      assert false;
    }
  }

  /** A write stamped earlier than an existing version is stored, and stays
      invisible to reads at or after that existing version's timestamp. */
  lemma LateWriteIsHidden(vs: seq<Version>, ts: int, value: string, t: int, v: Version)
    requires exists w :: w in vs && ts < w.timestamp <= t
    requires LatestAt(vs + [Version(ts, value)], t, v)
    ensures v != Version(ts, value)
  {
    var w :| w in vs && ts < w.timestamp <= t;
    assert w in vs + [Version(ts, value)];
  }

  class MvccStore {
    var store: map<string, seq<Version>>

    /** NewMVCCStore: an empty store. */
    constructor ()
      ensures store == map[]
    {
      store := map[];
    }

    /** Appends one version to the key's history, whatever its timestamp;
        other keys are untouched. */
    method Write(key: string, value: string, timestamp: int)
      modifies this
      ensures store == old(store)[key := Lookup(old(store), key) + [Version(timestamp, value)]]
    {
      store := store[key := Lookup(store, key) + [Version(timestamp, value)]];
    }

    /** Sorts the key's versions newest first in place, then returns the
        first one written at or before `timestamp`. The result is a version
        with the greatest timestamp not after `timestamp`; ("", false) when
        none exists, including when the key was never written. */
    method Read(key: string, timestamp: int) returns (value: string, found: bool)
      modifies this
      ensures store.Keys == old(store).Keys
      ensures forall k :: k in store && k != key ==> store[k] == old(store)[k]
      ensures multiset(Lookup(store, key)) == multiset(Lookup(old(store), key))
      ensures key in store ==> SortedDesc(store[key])
      ensures found <==> exists w :: w in Lookup(old(store), key) && w.timestamp <= timestamp
      ensures found ==> exists v :: LatestAt(Lookup(old(store), key), timestamp, v) && v.value == value
      ensures !found ==> value == ""
    {
      var versions := Lookup(store, key);
      var sorted := SortByTimestampDesc(versions);
      if key in store {
        store := store[key := sorted];
      }
      value, found := FirstAtOrBefore(sorted, timestamp);
      SameMembers(versions, sorted);
      if found {
        var i :| 0 <= i < |sorted| && sorted[i].timestamp <= timestamp &&
          sorted[i].value == value && forall j :: 0 <= j < i ==> sorted[j].timestamp > timestamp;
        FirstVisibleIsLatest(sorted, timestamp, i);
        LatestAtPermutation(versions, sorted, timestamp, sorted[i]);
      } else {
        forall w | w in versions
          ensures w.timestamp > timestamp
        {
          var k :| 0 <= k < |sorted| && sorted[k] == w;
        }
      }
    }
  }

  /** What Read may return from a key holding exactly two versions a and b
      with a.timestamp < b.timestamp, in either order: nothing before a's
      timestamp, a's value before b's timestamp, b's value from then on. */
  lemma ReadOfTwo(vs: seq<Version>, a: Version, b: Version, t: int, value: string, found: bool)
    requires multiset(vs) == multiset{a, b}
    requires a.timestamp < b.timestamp
    requires found <==> exists w :: w in vs && w.timestamp <= t
    requires found ==> exists v :: LatestAt(vs, t, v) && v.value == value
    ensures t < a.timestamp ==> !found
    ensures a.timestamp <= t < b.timestamp ==> found && value == a.value
    ensures b.timestamp <= t ==> found && value == b.value
  {
    SameMembers(vs, [a, b]);
    if a.timestamp <= t {
      assert a in vs;
      var v :| LatestAt(vs, t, v) && v.value == value;
      if b.timestamp <= t {
        assert b in vs;
      }
    }
  }

  /** The demo of mvcc.go: "Alice" written at t1, "Bob" at a later t2; a
      read at t1 + 5 (before t2) sees "Alice", a read at t4 >= t2 sees "Bob",
      and a read before t1 sees nothing. */
  method Demo(t0: int, t1: int, t2: int, t4: int)
    returns (v3: string, ok3: bool, v4: string, ok4: bool, v0: string, ok0: bool)
    requires t0 < t1 && t1 + 5 < t2 <= t4
    ensures ok3 && v3 == "Alice"
    ensures ok4 && v4 == "Bob"
    ensures !ok0 && v0 == ""
  {
    var mvcc := new MvccStore();
    mvcc.Write("user:1", "Alice", t1);
    mvcc.Write("user:1", "Bob", t2);
    var alice, bob := Version(t1, "Alice"), Version(t2, "Bob");
    var s := mvcc.store["user:1"];
    assert s == [alice, bob];
    assert multiset(s) == multiset{alice, bob};

    v3, ok3 := mvcc.Read("user:1", t1 + 5);
    ReadOfTwo(s, alice, bob, t1 + 5, v3, ok3);

    var s' := mvcc.store["user:1"];
    v4, ok4 := mvcc.Read("user:1", t4);
    ReadOfTwo(s', alice, bob, t4, v4, ok4);

    var s'' := mvcc.store["user:1"];
    v0, ok0 := mvcc.Read("user:1", t0);
    ReadOfTwo(s'', alice, bob, t0, v0, ok0);
  }
}
