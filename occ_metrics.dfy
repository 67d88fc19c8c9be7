/** Push-based operation counters (occ_metrics.go): three counters, each
    changed by exactly one method. Each method is one atomic step: the
    counters' mutex is not modelled. */
module OccMetrics {

  /** The values of the three counters. */
  datatype Counters = Counters(totalReads: int, totalWrites: int, totalStorage: int)

  /** One instrumentation call. */
  datatype Op = ReadOp | WriteOp | StorageOp(size: int)

  const Zero := Counters(0, 0, 0)

  function Plus(a: Counters, b: Counters): Counters
  {
    Counters(a.totalReads + b.totalReads, a.totalWrites + b.totalWrites, a.totalStorage + b.totalStorage)
  }

  /** The counters after one call. */
  function Step(c: Counters, op: Op): Counters
  {
    match op
    case ReadOp => c.(totalReads := c.totalReads + 1)
    case WriteOp => c.(totalWrites := c.totalWrites + 1)
    case StorageOp(size) => c.(totalStorage := c.totalStorage + size)
  }

  /** The counters after a sequence of calls, made in order. */
  function Apply(c: Counters, ops: seq<Op>): Counters
    decreases |ops|
  {
    if ops == [] then c else Apply(Step(c, ops[0]), ops[1..])
  }

  /** What one call adds to the counters. */
  function Delta(op: Op): Counters
  {
    Step(Zero, op)
  }

  /** How many reads and writes a sequence of calls records, and how many
      bytes of storage it adds, independently of the order. */
  function Tally(ops: seq<Op>): Counters
    decreases |ops|
  {
    if ops == [] then Zero else Plus(Delta(ops[0]), Tally(ops[1..]))
  }

  /** A single call tallies as its own delta. */
  lemma TallySingle(x: Op)
    ensures Tally([x]) == Delta(x)
  {
    assert [x][1..] == [];
  }

  /** Running the calls adds their tally to the counters. */
  lemma {:induction false} ApplyAddsTally(c: Counters, ops: seq<Op>)
    ensures Apply(c, ops) == Plus(c, Tally(ops))
    decreases |ops|
  {
    if ops != [] {
      ApplyAddsTally(Step(c, ops[0]), ops[1..]);
    }
  }

  /** The tally of two runs of calls is the sum of their tallies. */
  lemma {:induction false} TallyConcat(a: seq<Op>, b: seq<Op>)
    ensures Tally(a + b) == Plus(Tally(a), Tally(b))
    decreases |a|
  {
    if a == [] {
      assert a + b == b;
    } else {
      assert (a + b)[0] == a[0];
      assert (a + b)[1..] == a[1..] + b;
      TallyConcat(a[1..], b);
    }
  }

  /** Rearranging the calls does not change their tally. */
  lemma {:induction false} TallyOfPermutation(a: seq<Op>, b: seq<Op>)
    requires multiset(a) == multiset(b)
    ensures Tally(a) == Tally(b)
    decreases |a|
  {
    if a == [] {
      assert |b| == |multiset(b)| == 0;
    } else {
      var x := a[0];
      assert x in multiset(b);
      var i :| 0 <= i < |b| && b[i] == x;
      var front, back := b[..i], b[i + 1..];
      assert b == front + [x] + back;
      assert a == [x] + a[1..];
      assert multiset(b) == multiset(front) + multiset{x} + multiset(back);
      assert multiset(a) == multiset{x} + multiset(a[1..]);
      assert multiset(front + back) == multiset(front) + multiset(back);
      assert multiset(a[1..]) == multiset(a) - multiset{x};
      assert multiset(front + back) == multiset(b) - multiset{x};
      TallyOfPermutation(a[1..], front + back);
      TallyConcat(front + [x], back);
      TallyConcat(front, [x]);
      TallyConcat(front, back);
      TallySingle(x);
      PlusShuffle(Tally(front), Delta(x), Tally(back));
    }
  }

  /** Adding counters is associative and commutative. */
  lemma PlusShuffle(p: Counters, q: Counters, r: Counters)
    ensures Plus(Plus(p, q), r) == Plus(q, Plus(p, r))
  {
  }

  /** The final counters depend only on which calls were made, not on the
      order in which the callers' steps interleave. */
  lemma OrderIrrelevant(c: Counters, a: seq<Op>, b: seq<Op>)
    requires multiset(a) == multiset(b)
    ensures Apply(c, a) == Apply(c, b)
  {
    ApplyAddsTally(c, a);
    ApplyAddsTally(c, b);
    TallyOfPermutation(a, b);
  }

  /** `n` repetitions of a block of calls. */
  function Repeat(block: seq<Op>, n: nat): seq<Op>
  {
    if n == 0 then [] else block + Repeat(block, n - 1)
  }

  /** `n` reads record `n` reads. */
  lemma {:induction false} TallyOfReads(n: nat)
    ensures Tally(Repeat([ReadOp], n)) == Counters(n, 0, 0)
  {
    if n > 0 {
      TallyOfReads(n - 1);
    }
  }

  /** `n` times a write and `size` bytes record `n` writes and `n * size` bytes. */
  lemma {:induction false} TallyOfWrites(n: nat, size: int)
    ensures Tally(Repeat([WriteOp, StorageOp(size)], n)) == Counters(0, n, n * size)
  {
    if n > 0 {
      var block := [WriteOp, StorageOp(size)];
      TallyOfWrites(n - 1, size);
      TallyConcat(block, Repeat(block, n - 1));
      TallySingle(StorageOp(size));
      assert block[1..] == [StorageOp(size)];
      assert Tally(block) == Counters(0, 1, size);
      assert n * size == (n - 1) * size + size;
    }
  }

  /** The workload of occ_metrics.go: one caller records `readCount` reads,
      another `writeCount` times a write followed by `size` bytes of storage.
      However their calls interleave, the counters end at `readCount`,
      `writeCount` and `writeCount * size` (100, 50 and 5000 in the demo). */
  lemma InterleavedWorkload(ops: seq<Op>, readCount: nat, writeCount: nat, size: int)
    requires multiset(ops) == multiset(Repeat([ReadOp], readCount) + Repeat([WriteOp, StorageOp(size)], writeCount))
    ensures Apply(Zero, ops) == Counters(readCount, writeCount, writeCount * size)
  {
    var readCalls, writeCalls := Repeat([ReadOp], readCount), Repeat([WriteOp, StorageOp(size)], writeCount);
    OrderIrrelevant(Zero, ops, readCalls + writeCalls);
    ApplyAddsTally(Zero, readCalls + writeCalls);
    TallyConcat(readCalls, writeCalls);
    TallyOfReads(readCount);
    TallyOfWrites(writeCount, size);
  }

  /** The counters, shared by every caller that records operations. */
  class StorageMetrics {
    var totalReads: int
    var totalWrites: int
    var totalStorage: int

    function Current(): Counters
      reads this
    {
      Counters(totalReads, totalWrites, totalStorage)
    }

    /** The zero value: every counter starts at 0. */
    constructor ()
      ensures Current() == Zero
    {
      totalReads, totalWrites, totalStorage := 0, 0, 0;
    }

    method IncrementReads()
      modifies this
      ensures totalReads == old(totalReads) + 1
      ensures totalWrites == old(totalWrites) && totalStorage == old(totalStorage)
      ensures Current() == Step(old(Current()), ReadOp)
    {
      totalReads := totalReads + 1;
    }

    method IncrementWrites()
      modifies this
      ensures totalWrites == old(totalWrites) + 1
      ensures totalReads == old(totalReads) && totalStorage == old(totalStorage)
      ensures Current() == Step(old(Current()), WriteOp)
    {
      totalWrites := totalWrites + 1;
    }

    /** Adds `size` bytes, whatever its sign. */
    method AddStorage(size: int)
      modifies this
      ensures totalStorage == old(totalStorage) + size
      ensures totalReads == old(totalReads) && totalWrites == old(totalWrites)
      ensures Current() == Step(old(Current()), StorageOp(size))
    {
      totalStorage := totalStorage + size;
    }
  }

  /** The demo's two callers run one after the other on fresh counters. */
  method RunDemo() returns (final: Counters)
    ensures final == Counters(100, 50, 5000)
  {
    var sm := new StorageMetrics();
    for i := 0 to 100
      invariant sm.Current() == Counters(i, 0, 0)
    {
      sm.IncrementReads();
    }
    for i := 0 to 50
      invariant sm.Current() == Counters(100, i, 100 * i)
    {
      sm.IncrementWrites();
      sm.AddStorage(100);
    }
    final := sm.Current();
  }
}
