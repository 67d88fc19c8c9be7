/** Optimistic concurrency control over a map from id to record (occ.go).
    Every record carries a version counter; an update names the version it
    read and is applied only when that version is still current. Each
    method is one atomic step: the store's mutex is not modelled. */
module Occ {

  /** The fields of one record, detached from the store. */
  datatype Snapshot = Snapshot(id: int, value: string, version: int)

  /** The abstract contents of a store: id to record fields. */
  type Table = map<int, Snapshot>

  /** Every record is stored under its own id. */
  ghost predicate WellKeyed(t: Table)
  {
    forall id :: id in t ==> t[id].id == id
  }

  /** The contents after AddRecord(id, value). */
  function Added(t: Table, id: int, value: string): Table
  {
    t[id := Snapshot(id, value, 1)]
  }

  /** Whether UpdateRecord(id, _, version) passes its version check. */
  predicate Accepts(t: Table, id: int, version: int)
  {
    id in t && t[id].version == version
  }

  /** The contents after UpdateRecord(id, value, version). */
  function Updated(t: Table, id: int, value: string, version: int): Table
  {
    if Accepts(t, id, version) then t[id := t[id].(value := value, version := t[id].version + 1)]
    else t
  }

  /** One call UpdateRecord(id, value, expected). */
  datatype Update = Update(id: int, value: string, expected: int)

  /** The contents after a sequence of updates, applied in order. */
  function Run(t: Table, ops: seq<Update>): Table
    decreases |ops|
  {
    if ops == [] then t
    else Run(Updated(t, ops[0].id, ops[0].value, ops[0].expected), ops[1..])
  }

  /** How many updates of the sequence, applied in order, succeed on `id`. */
  function Successes(t: Table, ops: seq<Update>, id: int): nat
    decreases |ops|
  {
    if ops == [] then 0
    else
      var hit := if ops[0].id == id && Accepts(t, id, ops[0].expected) then 1 else 0;
      hit + Successes(Updated(t, ops[0].id, ops[0].value, ops[0].expected), ops[1..], id)
  }

  /** AddRecord stores a fresh record at version 1, replacing any record
      already there (so the version can go back down), and touches no
      other id. */
  lemma AddedResets(t: Table, id: int, value: string)
    requires WellKeyed(t)
    ensures WellKeyed(Added(t, id, value))
    ensures Added(t, id, value)[id] == Snapshot(id, value, 1)
    ensures Added(t, id, value).Keys == t.Keys + {id}
    ensures forall k :: k in t && k != id ==> Added(t, id, value)[k] == t[k]
  {
  }

  /** The compare-and-set: an update succeeds exactly when the record exists
      at the expected version; success writes the value, raises the version
      by one and keeps the id; failure changes nothing; no other id moves. */
  lemma UpdateIsCompareAndSet(t: Table, id: int, value: string, version: int)
    requires WellKeyed(t)
    ensures WellKeyed(Updated(t, id, value, version))
    ensures Accepts(t, id, version) ==>
      Updated(t, id, value, version) == t[id := Snapshot(id, value, version + 1)]
    ensures !Accepts(t, id, version) ==> Updated(t, id, value, version) == t
  {
  }

  /** Once an update at `version` has succeeded, a second update presenting
      the same version fails and the first value stays. */
  lemma NoLostUpdate(t: Table, id: int, v: string, w: string, version: int)
    requires Accepts(t, id, version)
    ensures !Accepts(Updated(t, id, v, version), id, version)
    ensures Updated(Updated(t, id, v, version), id, w, version) == Updated(t, id, v, version)
    ensures Updated(Updated(t, id, v, version), id, w, version)[id].value == v
  {
  }

  /** Two clients that read the same version and both try to update: in
      either order, never both succeed, and exactly one does when the
      version they read is current. */
  lemma ConcurrentUpdatesExactlyOne(t: Table, id: int, v1: string, v2: string, version: int)
    // client 1 (writing v1) goes first, then client 2
    ensures var first := Accepts(t, id, version);
            var second := Accepts(Updated(t, id, v1, version), id, version);
            !(first && second) && (first || second <==> Accepts(t, id, version))
    // client 2 (writing v2) goes first, then client 1
    ensures var first := Accepts(t, id, version);
            var second := Accepts(Updated(t, id, v2, version), id, version);
            !(first && second) && (first || second <==> Accepts(t, id, version))
  {
  }

  /** The version counts successful updates: after any sequence of updates
      a record's version is its old version plus the number of updates that
      succeeded on it, so it never decreases, and if it is unchanged the
      record is unchanged. */
  lemma {:induction false} VersionCountsSuccesses(t: Table, ops: seq<Update>, id: int)
    requires id in t
    ensures id in Run(t, ops)
    ensures Run(t, ops)[id].version == t[id].version + Successes(t, ops, id)
    ensures Run(t, ops)[id].version >= t[id].version
    ensures Run(t, ops)[id].version == t[id].version ==> Run(t, ops)[id] == t[id]
    decreases |ops|
  {
    if ops != [] {
      var t' := Updated(t, ops[0].id, ops[0].value, ops[0].expected);
      VersionCountsSuccesses(t', ops[1..], id);
    }
  }

  /** A record of the store, shared by reference: ReadRecord hands out the
      object itself, so later updates are visible through it. */
  class Record {
    var id: int
    var value: string
    var version: int

    constructor (id: int, value: string, version: int)
      ensures this.id == id && this.value == value && this.version == version
    {
      this.id := id;
      this.value := value;
      this.version := version;
    }

    function Fields(): Snapshot
      reads this
    {
      Snapshot(id, value, version)
    }
  }

  class Database {
    var records: map<int, Record>

    /** Each record is stored under its own id (so no record sits under two ids). */
    ghost predicate Valid()
      reads this, records.Values
    {
      forall id :: id in records ==> records[id].id == id
    }

    /** The store's contents as values. */
    ghost function View(): (t: Table)
      reads this, records.Values
      ensures t.Keys == records.Keys
    {
      map id | id in records :: records[id].Fields()
    }

    /** NewDatabase: an empty store. */
    constructor ()
      ensures Valid() && View() == map[] && records == map[]
    {
      records := map[];
    }

    method AddRecord(id: int, value: string)
      requires Valid()
      modifies this
      ensures Valid() && fresh(records.Values - old(records.Values))
      ensures id in records && fresh(records[id])
      ensures records == old(records)[id := records[id]]
      ensures View() == Added(old(View()), id, value)
    {
      var r := new Record(id, value, 1);
      records := records[id := r];
    }

    /** Returns the stored object itself, not a copy. */
    method ReadRecord(id: int) returns (r: Record?, found: bool)
      ensures found <==> id in records
      ensures found ==> r == records[id]
      ensures !found ==> r == null
    {
      found := id in records;
      r := if found then records[id] else null;
    }

    /** A read that returns a detached copy of the record's fields. */
    method ReadSnapshot(id: int) returns (s: Snapshot, found: bool)
      requires Valid()
      ensures found <==> id in View()
      ensures found ==> s == View()[id] && s.id == id
      ensures !found ==> s == Snapshot(0, "", 0)
    {
      found := id in records;
      if found {
        s := records[id].Fields();
      } else {
        s := Snapshot(0, "", 0);
      }
    }

    /** The compare-and-set: writes and bumps the version only when the
        record exists at the expected version. The map of objects is
        untouched; only the matching record's fields change. */
    method UpdateRecord(id: int, value: string, version: int) returns (ok: bool)
      requires Valid()
      modifies records.Values
      ensures Valid() && records == old(records)
      ensures ok <==> Accepts(old(View()), id, version)
      ensures View() == Updated(old(View()), id, value, version)
    {
      if id !in records || records[id].version != version {
        return false;
      }
      var r := records[id];
      assert forall k :: k in records && k != id ==> records[k] != r;
      r.value := value;
      r.version := r.version + 1;
      ok := true;
    }
  }

  /** The demo of occ.go run in the order its sleep arranges: client 1 reads
      and updates, then client 2 reads and updates. Both succeed. */
  method SequentialClients() returns (ok1: bool, ok2: bool, final: Snapshot)
    ensures ok1 && ok2
    ensures final == Snapshot(1, "Updated by Client 2", 3)
  {
    var db := new Database();
    db.AddRecord(1, "Initial Value");
    var r1, e1 := db.ReadRecord(1);
    ok1 := db.UpdateRecord(1, "Updated by Client 1", r1.version);
    var r2, e2 := db.ReadRecord(1);
    ok2 := db.UpdateRecord(1, "Updated by Client 2", r2.version);
    var found;
    final, found := db.ReadSnapshot(1);
  }

  /** The two clients of occ.go interleaved: both read, client 2 updates,
      then client 1 takes the version from the object it read. That object
      is the live record, so client 1 presents the new version, passes the
      check and overwrites client 2's value unseen: a lost update. */
  method AliasedClients() returns (ok1: bool, ok2: bool, final: Snapshot)
    ensures ok1 && ok2
    ensures final == Snapshot(1, "Updated by Client 1", 3)
  {
    var db := new Database();
    db.AddRecord(1, "Initial Value");
    var r1, e1 := db.ReadRecord(1);
    var r2, e2 := db.ReadRecord(1);
    ok2 := db.UpdateRecord(1, "Updated by Client 2", r2.version);
    ok1 := db.UpdateRecord(1, "Updated by Client 1", r1.version);
    var found;
    final, found := db.ReadSnapshot(1);
  }

  /** The same interleaving with detached snapshots: client 1 presents the
      version it actually read, is rejected, and client 2's value stays. */
  method SnapshotClients() returns (ok1: bool, ok2: bool, final: Snapshot)
    ensures !ok1 && ok2
    ensures final == Snapshot(1, "Updated by Client 2", 2)
  {
    var db := new Database();
    db.AddRecord(1, "Initial Value");
    var s1, e1 := db.ReadSnapshot(1);
    var s2, e2 := db.ReadSnapshot(1);
    ok2 := db.UpdateRecord(1, "Updated by Client 2", s2.version);
    ok1 := db.UpdateRecord(1, "Updated by Client 1", s1.version);
    var found;
    final, found := db.ReadSnapshot(1);
  }
}
