/** The length of the lower file while writeback races with size changes of every kind. The data
    of a batch is arbitrary here: pages dropped by a truncate may still be in it. */
module WritebackLength {
  import opened Bytes

  datatype Sync =
    | Idle
    | Scanning(size: nat, sizeVersion: nat)
    | InFlight(size: nat, sizeVersion: nat, off: nat, data: seq<byte>, landed: bool)
    | Stuck // waiting for the writeback lock that it holds itself

  /** `ext4` says whether the lower file is an ext4 inode: its truncate takes the writeback lock, which
      a sync holds from its beginning to its end, and its write raises the cached length to the end of
      what it wrote. `late` are the truncates whose second resize, after the lock, is still to come. */
  datatype State = State(lower: seq<byte>, size: nat, sizeVersion: nat, sync: Sync, ext4: bool, late: multiset<nat>)

  datatype Step =
    | WriterGrows(n: nat)
    // a truncate that finds the length right leaves the lower file alone
    | SkipLower(n: nat)
    | TruncateTo(n: nat)
    | LateResize(n: nat)
    | Begin
    | Snapshot(off: nat, data: seq<byte>)
    | LowerWrite
    // the write reports an error after `landing` bytes, or returns them as a short count
    | LowerFails(landing: nat, counted: bool)
    | Commit(truncateOk: bool)
    | Finish

  predicate Enabled(s: State, step: Step) {
    match step
    case WriterGrows(n) => s.size < n
    case SkipLower(n) => n == s.size
    case TruncateTo(n) => s.ext4 ==> s.sync.Idle?
    case LateResize(n) => n in s.late
    case Begin => s.sync.Idle?
    case Snapshot(off, data) => s.sync.Scanning? && data != [] && off + |data| <= s.sync.size
    case LowerWrite => s.sync.InFlight? && !s.sync.landed
    case LowerFails(k, _) => s.sync.InFlight? && !s.sync.landed && k <= |s.sync.data|
    case Commit(_) => s.sync.InFlight? && s.sync.landed
    case Finish => s.sync.Scanning?
  }

  function End(y: Sync): nat
    requires y.InFlight?
  {
    y.off + |y.data|
  }

  /** The commit's own test for having written past the current end of file. */
  predicate PastEnd(s: State) {
    s.sync.InFlight? && s.sizeVersion != s.sync.sizeVersion && End(s.sync) > s.size
  }

  function Resized(s: State, n: nat): State {
    if n == s.size then s else s.(size := n, sizeVersion := s.sizeVersion + 1)
  }

  function Apply(s: State, step: Step): State
    requires Enabled(s, step)
  {
    match step
    case WriterGrows(n) => Resized(s, n)
    case SkipLower(n) => s.(late := s.late + multiset{n})
    case TruncateTo(n) => Resized(s.(lower := FlatTruncate(s.lower, n), late := s.late + multiset{n}), n)
    case LateResize(n) => Resized(s.(late := s.late - multiset{n}), n)
    case Begin => s.(sync := Scanning(s.size, s.sizeVersion))
    case Snapshot(off, data) => s.(sync := InFlight(s.sync.size, s.sync.sizeVersion, off, data, false))
    case LowerWrite =>
      var t := s.(lower := FlatWrite(s.lower, s.sync.off, s.sync.data), sync := s.sync.(landed := true));
      if s.ext4 then Resized(t, Max(s.size, End(s.sync))) else t
    case LowerFails(k, counted) =>
      var t := s.(lower := FlatWrite(s.lower, s.sync.off, s.sync.data[..k]), sync := Idle);
      if s.ext4 && counted && k != 0 then Resized(t, Max(s.size, s.sync.off + k)) else t
    case Commit(truncateOk) =>
      if !PastEnd(s) then s.(sync := Scanning(s.sync.size, s.sync.sizeVersion))
      else if s.ext4 then s.(sync := Stuck)
      else if !truncateOk then s.(sync := Idle)
      else s.(lower := FlatTruncate(s.lower, s.size), sync := Scanning(s.sync.size, s.sync.sizeVersion))
    case Finish => s.(sync := Idle)
  }

  predicate Running(y: Sync) {
    y.Scanning? || y.InFlight?
  }

  /** The recorded length is the current one unless the generation moved on; a batch ends inside
      the recorded length; the lower file is no longer than the file or the batch just written. */
  predicate Inv(s: State) {
    && (Running(s.sync) ==> s.sync.sizeVersion <= s.sizeVersion && (s.sync.sizeVersion == s.sizeVersion ==> s.sync.size == s.size))
    && (s.sync.InFlight? ==> End(s.sync) <= s.sync.size)
    && |s.lower| <= if s.sync.InFlight? && s.sync.landed then Max(s.size, End(s.sync)) else s.size
  }

  /** The steps after which the lower file is too long for good: a failed write that landed past the
      current end without saying so, a commit that does not get to cut it, and a late resize that cuts
      the cache alone. */
  predicate LeavesTail(s: State, step: Step) {
    match step
    case LowerFails(k, counted) => s.sync.InFlight? && s.sync.off + k > s.size && !(s.ext4 && counted && k != 0)
    case Commit(truncateOk) => PastEnd(s) && (s.ext4 || !truncateOk) && |s.lower| > s.size
    case LateResize(n) => |s.lower| > if s.sync.InFlight? && s.sync.landed then Max(n, End(s.sync)) else n
    case _ => false
  }

  /** Every step keeps the invariant, except exactly those that leave a tail. */
  lemma StepKeepsLength(s: State, step: Step)
    requires Inv(s) && Enabled(s, step)
    ensures Inv(Apply(s, step)) <==> !LeavesTail(s, step)
  {
  }

  predicate Possible(s: State, steps: seq<Step>)
    decreases |steps|
  {
    steps == [] || (Enabled(s, steps[0]) && Possible(Apply(s, steps[0]), steps[1..]))
  }

  function Exec(s: State, steps: seq<Step>): State
    requires Possible(s, steps)
    decreases |steps|
  {
    if steps == [] then s else Exec(Apply(s, steps[0]), steps[1..])
  }

  /** No step of a run is one of those `bad` names. */
  ghost predicate Avoids(s: State, steps: seq<Step>, bad: (State, Step) -> bool)
    requires Possible(s, steps)
    decreases |steps|
  {
    steps == [] || (!bad(s, steps[0]) && Avoids(Apply(s, steps[0]), steps[1..], bad))
  }

  lemma {:induction false} RunKeepsLength(s: State, steps: seq<Step>)
    requires Inv(s) && Possible(s, steps) && Avoids(s, steps, LeavesTail)
    ensures Inv(Exec(s, steps))
    decreases |steps|
  {
    if steps != [] {
      StepKeepsLength(s, steps[0]);
      RunKeepsLength(Apply(s, steps[0]), steps[1..]);
    }
  }

  /** Whatever size changes landed while a batch was in flight, its commit leaves the lower file no
      longer than the file is now, unless the lower inode is an ext4 one and the commit has to cut:
      then it waits for its own lock. */
  lemma CommitRestoresLength(s: State, steps: seq<Step>)
    requires Inv(s) && Possible(s, steps) && Avoids(s, steps, LeavesTail) && Enabled(Exec(s, steps), Commit(true))
    ensures var t := Apply(Exec(s, steps), Commit(true));
      if s.ext4 && PastEnd(Exec(s, steps)) then t.sync.Stuck? else |t.lower| <= t.size && t.sync.Scanning?
  {
    RunKeepsLength(s, steps);
    SameInode(s, steps);
  }

  lemma {:induction false} SameInode(s: State, steps: seq<Step>)
    requires Possible(s, steps)
    ensures Exec(s, steps).ext4 == s.ext4
    decreases |steps|
  {
    if steps != [] { SameInode(Apply(s, steps[0]), steps[1..]); }
  }

  /** The property fails on the error path of an inode without the lock: a two-byte file is truncated
      away under a batch whose write then stops short, and a byte stays in the lower file behind the
      new end. */
  lemma ShortWriteLeavesTail()
    ensures var s0 := State([7, 8], 2, 0, Idle, false, multiset{});
      var steps := [Begin, Snapshot(0, [7, 8]), TruncateTo(0), LateResize(0), LowerFails(1, true)];
      Inv(s0) && Possible(s0, steps) &&
      var t := Exec(s0, steps); t.sync.Idle? && t.late == multiset{} && |t.lower| > t.size
  {
  }

  // ---- On ext4 ----

  /** No batch ends past the end of the file, and no sync waits for itself. */
  predicate Ext4Inv(s: State) {
    Inv(s) && s.ext4 && !s.sync.Stuck? && (Running(s.sync) ==> s.sync.size <= s.size)
  }

  /** A late resize takes away what has reached the lower file, or may reach it in the running sync. */
  predicate CutsLate(s: State, step: Step) {
    step.LateResize? && (step.n < |s.lower| || (Running(s.sync) && step.n < s.sync.size))
  }

  /** On ext4 a late resize that cuts is the one thing that can go wrong: every other step, failures
      included, keeps the invariant, and that one breaks it. */
  lemma Ext4Step(s: State, step: Step)
    requires Ext4Inv(s) && Enabled(s, step)
    ensures Ext4Inv(Apply(s, step)) <==> !CutsLate(s, step)
  {
  }

  /** So no run without one, whatever fails in it, leaves the lower file longer than the file, and a
      commit never comes to the compensating truncate. */
  lemma {:induction false} LockedRunKeepsLength(s: State, steps: seq<Step>)
    requires Ext4Inv(s) && Possible(s, steps) && Avoids(s, steps, CutsLate)
    ensures var t := Exec(s, steps); Ext4Inv(t) && |t.lower| <= t.size && !PastEnd(t)
    decreases |steps|
  {
    if steps != [] {
      Ext4Step(s, steps[0]);
      LockedRunKeepsLength(Apply(s, steps[0]), steps[1..]);
    }
  }

  /** A late resize that changes nothing, because nobody else changed the length since the truncate,
      does not cut. */
  lemma PromptResize(s: State, n: nat)
    requires Ext4Inv(s) && n == s.size
    ensures !CutsLate(s, LateResize(n))
  {
  }

  /** When a batch has landed on ext4, the commit will come to the compensating truncate exactly if a
      late resize has cut below the end of the batch and nothing has raised the length since. */
  lemma PastEndExactly(s: State, step: Step)
    requires Inv(s) && s.ext4 && Enabled(s, step) && !step.Commit?
    requires s.sync.InFlight? && s.sync.landed
    ensures var t := Apply(s, step);
      t.sync == s.sync && (PastEnd(t) <==> if step.LateResize? || step.WriterGrows? then step.n < End(s.sync) else PastEnd(s))
  {
  }

  lemma LandsInside(s: State)
    requires Inv(s) && s.ext4 && Enabled(s, LowerWrite)
    ensures !PastEnd(Apply(s, LowerWrite))
  {
  }

  /** A sync that waits for itself waits for ever, and so do all truncates. */
  lemma {:induction false} StuckForever(s: State, steps: seq<Step>)
    requires s.ext4 && s.sync.Stuck? && Possible(s, steps)
    ensures Exec(s, steps).sync.Stuck? && forall i | 0 <= i < |steps| :: !steps[i].TruncateTo?
    decreases |steps|
  {
    if steps != [] {
      StuckForever(Apply(s, steps[0]), steps[1..]);
      forall i | 0 <= i < |steps| ensures !steps[i].TruncateTo? { assert i > 0 ==> steps[i] == steps[1..][i - 1]; }
    }
  }

  lemma Unfold(s: State, step: Step, rest: seq<Step>)
    requires Enabled(s, step) && Possible(Apply(s, step), rest)
    ensures Possible(s, [step] + rest) && Exec(s, [step] + rest) == Exec(Apply(s, step), rest)
  {
    assert ([step] + rest)[0] == step && ([step] + rest)[1..] == rest;
  }

  /** A two-byte file is cut to one byte. Before the second resize of that truncate, somebody else
      writes the second byte again and starts a sync, and the batch lands. */
  const WHOLE := State([7, 8], 2, 0, Idle, true, multiset{})
  const REWRITTEN := [TruncateTo(1), WriterGrows(2), Begin, Snapshot(0, [7, 9]), LowerWrite]
  const LANDED := State([7, 9], 2, 2, InFlight(2, 2, 0, [7, 9], true), true, multiset{1})

  const CUT := State([7], 1, 1, Idle, true, multiset{1})
  const GROWN := CUT.(size := 2, sizeVersion := 2)

  lemma RewriteStates()
    ensures Apply(WHOLE, TruncateTo(1)) == CUT && Apply(CUT, WriterGrows(2)) == GROWN
    ensures var s3, s4 := GROWN.(sync := Scanning(2, 2)), GROWN.(sync := InFlight(2, 2, 0, [7, 9], false));
      Apply(GROWN, Begin) == s3 && Apply(s3, Snapshot(0, [7, 9])) == s4 && Apply(s4, LowerWrite) == LANDED
  {
  }

  lemma Rewritten(rest: seq<Step>)
    requires Possible(LANDED, rest)
    ensures Ext4Inv(WHOLE) && Possible(WHOLE, REWRITTEN + rest) && Exec(WHOLE, REWRITTEN + rest) == Exec(LANDED, rest)
  {
    hide Possible, Exec, Apply;
    RewriteStates();
    var s3, s4 := GROWN.(sync := Scanning(2, 2)), GROWN.(sync := InFlight(2, 2, 0, [7, 9], false));
    var rest4 := [LowerWrite] + rest;
    var rest3 := [Snapshot(0, [7, 9])] + rest4;
    var rest2 := [Begin] + rest3;
    var rest1 := [WriterGrows(2)] + rest2;
    Unfold(s4, LowerWrite, rest);
    Unfold(s3, Snapshot(0, [7, 9]), rest4);
    Unfold(GROWN, Begin, rest3);
    Unfold(CUT, WriterGrows(2), rest2);
    Unfold(WHOLE, TruncateTo(1), rest1);
    assert REWRITTEN + rest == [TruncateTo(1)] + rest1;
  }

  /** If the resize comes now, the commit waits for its own lock. */
  lemma LateResizeStrandsSync()
    ensures var steps := REWRITTEN + [LateResize(1), Commit(true)];
      Ext4Inv(WHOLE) && Possible(WHOLE, steps) && Exec(WHOLE, steps).sync.Stuck?
  {
    Rewritten([LateResize(1), Commit(true)]);
  }

  /** If it comes after the sync, the second byte stays in the lower file behind the end. */
  lemma LateResizeLeavesTail()
    ensures var steps := REWRITTEN + [Commit(true), Finish, LateResize(1)];
      Ext4Inv(WHOLE) && Possible(WHOLE, steps) &&
      var t := Exec(WHOLE, steps); t.sync.Idle? && t.late == multiset{} && t.size == 1 && t.lower == [7, 9]
  {
    Rewritten([Commit(true), Finish, LateResize(1)]);
  }
}
