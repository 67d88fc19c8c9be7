/** A multi-version store stamped by the clock, with a pull-based metrics
    snapshot (mvcc_metrics.go). Writes append to the key's history; a read
    scans the history from the newest append backwards; CollectMetrics
    walks every key and version. The clock reading of Write is a parameter
    here, and each method is one atomic step: the lock is not modelled. */
module MvccMetrics {

  datatype Version = Version(timestamp: int, value: string)

  /** The width in bytes that CollectMetrics charges for a timestamp: the
      size of an int64. */
  const TimestampSize: int := 8

  datatype StorageMetrics = StorageMetrics(totalKeys: int, totalVersions: int, approxMemBytes: int)

  function Plus(a: StorageMetrics, b: StorageMetrics): StorageMetrics
  {
    StorageMetrics(a.totalKeys + b.totalKeys, a.totalVersions + b.totalVersions,
                   a.approxMemBytes + b.approxMemBytes)
  }

  /** The versions stored under `key`; an absent key reads as the empty
      (nil) slice. */
  function Lookup(m: map<string, seq<Version>>, key: string): seq<Version>
  {
    if key in m then m[key] else []
  }

  /** The store after appending `v` to the history of `key`. */
  function Appended(m: map<string, seq<Version>>, key: string, v: Version): map<string, seq<Version>>
  {
    m[key := Lookup(m, key) + [v]]
  }

  /** Bytes charged for a history: each value's length plus the timestamp
      width, summed over its versions. */
  function VersionBytes(vs: seq<Version>): int
  {
    if vs == [] then 0
    else VersionBytes(vs[..|vs| - 1]) + |vs[|vs| - 1].value| + TimestampSize
  }

  /** What one key contributes: itself, its versions, its key bytes and
      version bytes. */
  function KeyMetrics(key: string, vs: seq<Version>): StorageMetrics
  {
    StorageMetrics(1, |vs|, |key| + VersionBytes(vs))
  }

  /** The sum of KeyMetrics over the keys `ks` of `m`, taken in an
      arbitrary order. */
  ghost function Tally(m: map<string, seq<Version>>, ks: set<string>): StorageMetrics
    requires ks <= m.Keys
    decreases ks
  {
    if ks == {} then StorageMetrics(0, 0, 0)
    else
      var k :| k in ks;
      Plus(KeyMetrics(k, m[k]), Tally(m, ks - {k}))
  }

  /** The metrics of a whole store. */
  ghost function MetricsOf(m: map<string, seq<Version>>): StorageMetrics
  {
    Tally(m, m.Keys)
  }

  /** Any key can be taken out of the sum first: the order in which the keys
      of a map are visited does not change the metrics. */
  lemma {:induction false} TallyRemove(m: map<string, seq<Version>>, ks: set<string>, k: string)
    requires ks <= m.Keys && k in ks
    ensures Tally(m, ks) == Plus(KeyMetrics(k, m[k]), Tally(m, ks - {k}))
    decreases ks
  {
    var j :| j in ks && Tally(m, ks) == Plus(KeyMetrics(j, m[j]), Tally(m, ks - {j}));
    if j != k {
      var rest := ks - {j} - {k};
      assert ks - {k} - {j} == rest;
      TallyRemove(m, ks - {j}, k);
      TallyRemove(m, ks - {k}, j);
      calc {
        Tally(m, ks);
        Plus(KeyMetrics(j, m[j]), Tally(m, ks - {j}));
        Plus(KeyMetrics(j, m[j]), Plus(KeyMetrics(k, m[k]), Tally(m, rest)));
        Plus(KeyMetrics(k, m[k]), Plus(KeyMetrics(j, m[j]), Tally(m, rest)));
        Plus(KeyMetrics(k, m[k]), Tally(m, ks - {k}));
      }
    }
  }

  /** The sum over `ks` only reads the histories of `ks`. */
  lemma {:induction false} TallyFrame(m1: map<string, seq<Version>>, m2: map<string, seq<Version>>, ks: set<string>)
    requires ks <= m1.Keys && ks <= m2.Keys
    requires forall k :: k in ks ==> m1[k] == m2[k]
    ensures Tally(m1, ks) == Tally(m2, ks)
    decreases ks
  {
    if ks != {} {
      var k :| k in ks;
      TallyRemove(m1, ks, k);
      TallyRemove(m2, ks, k);
      TallyFrame(m1, m2, ks - {k});
    }
  }

  /** TotalKeys counts the keys summed over. */
  lemma {:induction false} TallyKeys(m: map<string, seq<Version>>, ks: set<string>)
    requires ks <= m.Keys
    ensures Tally(m, ks).totalKeys == |ks|
    decreases ks
  {
    if ks != {} {
      var k :| k in ks;
      TallyRemove(m, ks, k);
      TallyKeys(m, ks - {k});
    }
  }

  /** One write adds one version and the bytes of its value and timestamp,
      and, when the key is new, one key and the key's bytes. */
  lemma MetricsAfterWrite(m: map<string, seq<Version>>, key: string, v: Version)
    ensures MetricsOf(Appended(m, key, v)) == Plus(MetricsOf(m),
      StorageMetrics(if key in m then 0 else 1, 1,
                     (if key in m then 0 else |key|) + |v.value| + TimestampSize))
  {
    var m' := Appended(m, key, v);
    var vs := Lookup(m, key) + [v];
    assert vs[..|vs| - 1] == Lookup(m, key);
    assert m'[key] == vs;
    assert VersionBytes(vs) == VersionBytes(Lookup(m, key)) + |v.value| + TimestampSize;
    if key in m {
      TallyRemove(m', m'.Keys, key);
      TallyRemove(m, m.Keys, key);
      assert m'.Keys - {key} == m.Keys - {key};
      TallyFrame(m', m, m.Keys - {key});
    } else {
      TallyRemove(m', m'.Keys, key);
      assert m'.Keys - {key} == m.Keys;
      TallyFrame(m', m, m.Keys);
    }
  }

  /** The store after a sequence of writes, each a key and a stamped version. */
  function ApplyWrites(m: map<string, seq<Version>>, ws: seq<(string, Version)>): map<string, seq<Version>>
    decreases |ws|
  {
    if ws == [] then m else ApplyWrites(Appended(m, ws[0].0, ws[0].1), ws[1..])
  }

  /** The distinct keys written by a sequence of writes. */
  function KeysOf(ws: seq<(string, Version)>): set<string>
  {
    set i | 0 <= i < |ws| :: ws[i].0
  }

  /** After writes to an existing store, the keys are the old keys plus the
      written ones and there is one more version per write. */
  lemma {:induction false} ApplyWritesCounts(m: map<string, seq<Version>>, ws: seq<(string, Version)>)
    ensures ApplyWrites(m, ws).Keys == m.Keys + KeysOf(ws)
    ensures MetricsOf(ApplyWrites(m, ws)).totalVersions == MetricsOf(m).totalVersions + |ws|
    decreases |ws|
  {
    if ws != [] {
      MetricsAfterWrite(m, ws[0].0, ws[0].1);
      ApplyWritesCounts(Appended(m, ws[0].0, ws[0].1), ws[1..]);
      assert KeysOf(ws) == {ws[0].0} + KeysOf(ws[1..]) by {
        forall x | x in KeysOf(ws)
          ensures x in {ws[0].0} + KeysOf(ws[1..])
        {
          var i :| 0 <= i < |ws| && ws[i].0 == x;
          if i > 0 {
            assert ws[1..][i - 1].0 == x;
          }
        }
        forall x | x in KeysOf(ws[1..])
          ensures x in KeysOf(ws)
        {
          var i :| 0 <= i < |ws[1..]| && ws[1..][i].0 == x;
          assert ws[i + 1].0 == x;
        }
      }
    }
  }

  /** N writes spread over K distinct keys, from an empty store, give
      TotalKeys == K and TotalVersions == N. */
  lemma WritesFromEmpty(ws: seq<(string, Version)>)
    ensures MetricsOf(ApplyWrites(map[], ws)).totalKeys == |KeysOf(ws)|
    ensures MetricsOf(ApplyWrites(map[], ws)).totalVersions == |ws|
  {
    ApplyWritesCounts(map[], ws);
    var m := ApplyWrites(map[], ws);
    TallyKeys(m, m.Keys);
    assert m.Keys == KeysOf(ws);
    assert MetricsOf(map[]) == StorageMetrics(0, 0, 0);
  }

  /** Timestamps never decrease along the history: the order a clock that
      never runs backwards would give. */
  ghost predicate NonDecreasing(vs: seq<Version>)
  {
    forall i, j :: 0 <= i < j < |vs| ==> vs[i].timestamp <= vs[j].timestamp
  }

  /** Every history is in clock order and nothing in it is later than `now`. */
  ghost predicate ClockOrdered(m: map<string, seq<Version>>, now: int)
  {
    forall k :: k in m ==> NonDecreasing(m[k]) && forall v :: v in m[k] ==> v.timestamp <= now
  }

  /** The timestamps of a sequence of writes never decrease, starting from `now`. */
  ghost predicate StampedInOrder(ws: seq<(string, Version)>, now: int)
  {
    (forall i :: 0 <= i < |ws| ==> now <= ws[i].1.timestamp) &&
    forall i, j :: 0 <= i < j < |ws| ==> ws[i].1.timestamp <= ws[j].1.timestamp
  }

  /** Writes stamped by a clock that never runs backwards keep every
      history in timestamp order. */
  lemma {:induction false} ClockedWritesStayOrdered(m: map<string, seq<Version>>, ws: seq<(string, Version)>, now: int)
    requires ClockOrdered(m, now)
    requires StampedInOrder(ws, now)
    ensures forall k :: k in ApplyWrites(m, ws) ==> NonDecreasing(ApplyWrites(m, ws)[k])
    decreases |ws|
  {
    if ws != [] {
      var key: string, v: Version := ws[0].0, ws[0].1;
      var m' := Appended(m, key, v);
      forall k | k in m'
        ensures NonDecreasing(m'[k]) && forall u: Version :: u in m'[k] ==> u.timestamp <= v.timestamp
      {
        if k == key {
          var vs := Lookup(m, key);
          assert m'[k] == vs + [v];
          forall u: Version | u in m'[k]
            ensures u.timestamp <= v.timestamp
          {
            if u != v {
              assert u in vs;
            }
          }
        }
      }
      assert StampedInOrder(ws[1..], v.timestamp) by {
        forall i | 0 <= i < |ws[1..]|
          ensures v.timestamp <= ws[1..][i].1.timestamp
        {
          assert ws[1..][i] == ws[i + 1];
        }
      }
      ClockedWritesStayOrdered(m', ws[1..], v.timestamp);
    }
  }

  /** `vs[i]` is the last version of `vs` written at or before `t`. */
  ghost predicate LastVisible(vs: seq<Version>, t: int, i: int)
  {
    0 <= i < |vs| && vs[i].timestamp <= t && forall j :: i < j < |vs| ==> vs[j].timestamp > t
  }

  /** In a history in timestamp order the last version visible at `t`
      carries the greatest timestamp visible at `t`. */
  lemma LastVisibleIsLatest(vs: seq<Version>, t: int, i: int)
    requires NonDecreasing(vs) && LastVisible(vs, t, i)
    ensures forall j :: 0 <= j < |vs| && vs[j].timestamp <= t ==> vs[j].timestamp <= vs[i].timestamp
  {
  }

  /** Without the clock order the scan can miss the newest timestamp: a
      version appended after a later-stamped one hides it from reads. */
  lemma OutOfOrderHidesNewer(newer: string, older: string)
    ensures var vs := [Version(20, newer), Version(10, older)];
            LastVisible(vs, 30, 1) && vs[0].timestamp <= 30 && vs[1].timestamp < vs[0].timestamp
  {
  }

  class MvccStore {
    var data: map<string, seq<Version>>

    /** NewMVCCStore: an empty store. */
    constructor ()
      ensures data == map[] && MetricsOf(data) == StorageMetrics(0, 0, 0)
    {
      data := map[];
    }

    /** Appends a version stamped `timestamp` (the clock reading) at the end
        of the key's history; other keys are untouched. */
    method Write(key: string, value: string, timestamp: int)
      modifies this
      ensures data == Appended(old(data), key, Version(timestamp, value))
    {
      data := data[key := Lookup(data, key) + [Version(timestamp, value)]];
    }

    /** Scans the key's history from the newest append backwards and
        returns the first version written at or before `timestamp`;
        ("", false) when none is, including when the key is absent. */
    method Read(key: string, timestamp: int) returns (value: string, found: bool)
      ensures found <==> exists i :: 0 <= i < |Lookup(data, key)| && Lookup(data, key)[i].timestamp <= timestamp
      ensures found ==> exists i :: LastVisible(Lookup(data, key), timestamp, i) && Lookup(data, key)[i].value == value
      ensures !found ==> value == ""
    {
      var versions := Lookup(data, key);
      var i := |versions| - 1;
      while i >= 0
        invariant -1 <= i < |versions|
        invariant forall j :: i < j < |versions| ==> versions[j].timestamp > timestamp
      {
        if versions[i].timestamp <= timestamp {
          return versions[i].value, true;
        }
        i := i - 1;
      }
      return "", false;
    }

    /** Walks every key and every version once, counting keys and versions
        and adding up key bytes, value bytes and timestamp widths. */
    method CollectMetrics() returns (r: StorageMetrics)
      ensures r == MetricsOf(data)
    {
      var keys, versions, mem := 0, 0, 0;
      var remaining := data.Keys;
      while remaining != {}
        invariant remaining <= data.Keys
        invariant StorageMetrics(keys, versions, mem) == Tally(data, data.Keys - remaining)
        decreases remaining
      {
        var k :| k in remaining;
        var vList := data[k];
        ghost var done := data.Keys - remaining;
        keys := keys + 1;
        mem := mem + |k|;
        for j := 0 to |vList|
          invariant StorageMetrics(keys, versions, mem) ==
            Plus(Tally(data, done), StorageMetrics(1, j, |k| + VersionBytes(vList[..j])))
        {
          versions := versions + 1;
          mem := mem + |vList[j].value| + TimestampSize;
          assert vList[..j + 1][..j] == vList[..j];
        }
        assert vList[..|vList|] == vList;
        TallyRemove(data, done + {k}, k);
        assert done + {k} - {k} == done;
        remaining := remaining - {k};
        assert data.Keys - remaining == done + {k};
      }
      assert data.Keys - remaining == data.Keys;
      r := StorageMetrics(keys, versions, mem);
    }
  }

  /** The demo of mvcc_metrics.go: "value1" and "value2" under "x", "valA"
      under "y" give 2 keys, 3 versions and 1 + 14 + 14 + 1 + 12 = 42 bytes. */
  method Demo(ts1: int, ts2: int, ts3: int) returns (metrics: StorageMetrics)
    ensures metrics == StorageMetrics(2, 3, 42)
  {
    var store := new MvccStore();
    ghost var m0 := store.data;
    store.Write("x", "value1", ts1);
    MetricsAfterWrite(m0, "x", Version(ts1, "value1"));
    ghost var m1 := store.data;
    store.Write("x", "value2", ts2);
    MetricsAfterWrite(m1, "x", Version(ts2, "value2"));
    ghost var m2 := store.data;
    store.Write("y", "valA", ts3);
    MetricsAfterWrite(m2, "y", Version(ts3, "valA"));
    metrics := store.CollectMetrics();
  }
}
