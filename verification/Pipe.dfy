/** Anonymous pipes: a bounded byte queue with two closable sides and two waiter queues. Every
    step below is one critical section under the buffer's lock. */
module Pipes {
  import opened Bytes
  import opened Common

  const PIPE_BUFFER_SIZE: nat := 64 * 1024
  const PIPE_SIZE_LIMIT: nat := 0x8000_0000

  datatype Errno = EAGAIN | EPIPE | EINVAL | EPERM | EBUSY

  datatype State = State(buffer: seq<byte>, capacity: nat, readClosed: bool, writeClosed: bool,
                         readWaiters: seq<nat>, writeWaiters: seq<nat>)

  /** What a task asks for. `parks` is the scheduler's answer to a task about to block: false if a
      signal has arrived. A blocked task takes its resume step when it runs again. */
  datatype Step =
    | Read(tid: nat, len: nat, nonblock: bool, parks: bool)
    | Write(tid: nat, data: seq<byte>, nonblock: bool, parks: bool)
    | ResumeRead(tid: nat)
    | ResumeWrite(tid: nat)
    | Resize(requested: nat, maxSize: nat)
    | CloseRead
    | CloseWrite

  datatype Reply =
    | Data(bytes: seq<byte>, wake: Option<nat>)
    | Count(n: nat, wake: Option<nat>)
    | Fail(error: Errno)
    | Blocked
    | Capacity(size: nat)
    | Resumed
    | Closed(woken: seq<nat>)

  // ---- Waiter queues ----

  function Joined(q: seq<nat>, tid: nat): seq<nat> {
    if tid in q then q else q + [tid]
  }

  function Front(q: seq<nat>): Option<nat> {
    if q == [] then None else Some(q[0])
  }

  function Rest(q: seq<nat>): seq<nat> {
    if q == [] then [] else q[1..]
  }

  function Parked(q: seq<nat>, tid: nat, parks: bool): seq<nat> {
    if parks then Joined(q, tid) else Without(q, tid)
  }

  // ---- Steps ----

  function Free(s: State): nat {
    if |s.buffer| <= s.capacity then s.capacity - |s.buffer| else 0
  }

  /** How much of a write is taken now: all or nothing up to a page, what fits beyond. */
  function Taken(s: State, data: seq<byte>): nat {
    if |data| > PAGE_SIZE || Free(s) >= |data| then Min(|data|, Free(s)) else 0
  }

  function ReadStep(s: State, tid: nat, len: nat, nonblock: bool, parks: bool): (State, Reply) {
    var n := Min(len, |s.buffer|);
    if len == 0 then (s, Data([], None))
    else if n != 0 then (s.(buffer := s.buffer[n..], writeWaiters := Rest(s.writeWaiters)), Data(s.buffer[..n], Front(s.writeWaiters)))
    else if s.writeClosed then (s, Data([], None))
    else if nonblock then (s, Fail(EAGAIN))
    else (s.(readWaiters := Parked(s.readWaiters, tid, parks)), Blocked)
  }

  function WriteStep(s: State, tid: nat, data: seq<byte>, nonblock: bool, parks: bool): (State, Reply) {
    var n := Taken(s, data);
    if data == [] then (s, Count(0, None))
    else if s.readClosed then (s, Fail(EPIPE))
    else if n != 0 then (s.(buffer := s.buffer + data[..n], readWaiters := Rest(s.readWaiters)), Count(n, Front(s.readWaiters)))
    else if nonblock then (s, Fail(EAGAIN))
    else (s.(writeWaiters := Parked(s.writeWaiters, tid, parks)), Blocked)
  }

  function ResizeStep(s: State, requested: nat, maxSize: nat): (State, Reply) {
    var wanted := if requested == 0 then PAGE_SIZE else requested;
    var size := PagesFor(wanted) * PAGE_SIZE;
    if wanted > PIPE_SIZE_LIMIT then (s, Fail(EINVAL))
    else if size > maxSize then (s, Fail(EPERM))
    else if size < |s.buffer| then (s, Fail(EBUSY))
    else (s.(capacity := size), Capacity(size))
  }

  function Apply(s: State, step: Step): (State, Reply) {
    match step
    case Read(tid, len, nonblock, parks) => ReadStep(s, tid, len, nonblock, parks)
    case Write(tid, data, nonblock, parks) => WriteStep(s, tid, data, nonblock, parks)
    case ResumeRead(tid) => (s.(readWaiters := Without(s.readWaiters, tid)), Resumed)
    case ResumeWrite(tid) => (s.(writeWaiters := Without(s.writeWaiters, tid)), Resumed)
    case Resize(requested, maxSize) => ResizeStep(s, requested, maxSize)
    case CloseRead => (s.(readClosed := true, writeWaiters := []), Closed(s.writeWaiters))
    case CloseWrite => (s.(writeClosed := true, readWaiters := []), Closed(s.readWaiters))
  }

  // ---- What every step keeps ----

  predicate Inv(s: State) {
    && |s.buffer| <= s.capacity
    && PAGE_SIZE <= s.capacity
    && (s.readClosed ==> s.writeWaiters == [])
    && (s.writeClosed ==> s.readWaiters == [])
    && NoRepeats(s.readWaiters)
    && NoRepeats(s.writeWaiters)
  }

  /** A pipe as made by a user for whom pipes may have `maxSize` bytes. */
  function Fresh(privileged: bool, maxSize: nat): (s: State)
    requires PAGE_SIZE <= maxSize
    ensures Inv(s)
  {
    State([], if privileged then PIPE_BUFFER_SIZE else Min(PIPE_BUFFER_SIZE, maxSize), false, false, [], [])
  }

  lemma ParkedDistinct(q: seq<nat>, tid: nat, parks: bool)
    requires NoRepeats(q)
    ensures NoRepeats(Parked(q, tid, parks))
  {
    WithoutMembers(q, tid);
  }

  /** Whatever the tasks do, the buffer stays within a capacity of at least a page, and nobody waits
      for a side that is closed. */
  lemma StepKeepsInv(s: State, step: Step)
    requires Inv(s)
    ensures Inv(Apply(s, step).0)
  {
    hide Without, Parked, NoRepeats;
    match step
    case Read(tid, len, nonblock, parks) => ParkedDistinct(s.readWaiters, tid, parks); RestDistinct(s.writeWaiters);
    case Write(tid, data, nonblock, parks) => ParkedDistinct(s.writeWaiters, tid, parks); RestDistinct(s.readWaiters);
    case ResumeRead(tid) =>
      WithoutMembers(s.readWaiters, tid);
      assert s.readWaiters == [] ==> Without(s.readWaiters, tid) == [] by { WithoutEmpty(tid); }
    case ResumeWrite(tid) =>
      WithoutMembers(s.writeWaiters, tid);
      assert s.writeWaiters == [] ==> Without(s.writeWaiters, tid) == [] by { WithoutEmpty(tid); }
    case Resize(requested, maxSize) =>
    case CloseRead => EmptyDistinct();
    case CloseWrite => EmptyDistinct();
  }

  lemma WithoutEmpty(tid: nat)
    ensures Without([], tid) == []
  {
  }

  lemma EmptyDistinct()
    ensures NoRepeats([])
  {
  }

  lemma RestDistinct(q: seq<nat>)
    requires NoRepeats(q)
    ensures NoRepeats(Rest(q))
  {
  }

  lemma OthersStay(q: seq<nat>, tid: nat, other: nat)
    ensures other in q && other != tid ==> other in Without(q, tid)
  {
  }

  /** A waiting task leaves its queue only when it is woken or runs again itself, and those who
      waited longest are woken first. */
  lemma WaitersLeaveAwake(s: State, step: Step, tid: nat)
    ensures Woken(Apply(s, step).1) <= s.readWaiters || Woken(Apply(s, step).1) <= s.writeWaiters
    ensures tid in s.readWaiters && tid !in Apply(s, step).0.readWaiters ==>
              tid in Woken(Apply(s, step).1) || step == ResumeRead(tid) || (step.Read? && step.tid == tid && !step.parks)
    ensures tid in s.writeWaiters && tid !in Apply(s, step).0.writeWaiters ==>
              tid in Woken(Apply(s, step).1) || step == ResumeWrite(tid) || (step.Write? && step.tid == tid && !step.parks)
  {
    hide Without, Taken, Free, NoRepeats;
    if !step.Resize? && !step.CloseRead? && !step.CloseWrite? {
      OthersStay(s.readWaiters, step.tid, tid);
      OthersStay(s.writeWaiters, step.tid, tid);
    }
  }

  /** A read takes as many bytes from the front as there are and fit, and wakes the writer that has
      waited longest. Without any bytes it reports the end, refuses or waits. */
  lemma ReadMeans(s: State, tid: nat, len: nat, nonblock: bool, parks: bool)
    requires Inv(s)
    ensures var (t, r) := Apply(s, Read(tid, len, nonblock, parks));
      if len == 0 then t == s && r == Data([], None)
      else if s.buffer != [] then
        && r.Data? && |r.bytes| == (if len < |s.buffer| then len else |s.buffer|) && s.buffer == r.bytes + t.buffer
        && (if s.writeWaiters == [] then r.wake == None && t.writeWaiters == []
            else r.wake == Some(s.writeWaiters[0]) && s.writeWaiters == [s.writeWaiters[0]] + t.writeWaiters)
        && t == s.(buffer := t.buffer, writeWaiters := t.writeWaiters)
      else if s.writeClosed then t == s && r == Data([], None)
      else if nonblock then t == s && r == Fail(EAGAIN)
      else r == Blocked && t == s.(readWaiters := t.readWaiters) && (tid in t.readWaiters <==> parks)
  {
    hide Parked;
    ParkedMeans(s.readWaiters, tid, parks);
  }

  /** A write of at most a page is taken whole or not at all, a longer one as far as it fits; the reader
      that has waited longest is woken. If nothing is taken it is refused or waits. */
  lemma WriteMeans(s: State, tid: nat, data: seq<byte>, nonblock: bool, parks: bool)
    requires Inv(s)
    ensures var (t, r) := Apply(s, Write(tid, data, nonblock, parks));
      var room := s.capacity - |s.buffer|;
      if data == [] then t == s && r == Count(0, None)
      else if s.readClosed then t == s && r == Fail(EPIPE)
      else if (if |data| <= PAGE_SIZE then |data| <= room else 0 < room) then
        && r.Count? && r.n == (if |data| <= room then |data| else room) && t.buffer == s.buffer + data[..r.n]
        && (if s.readWaiters == [] then r.wake == None && t.readWaiters == []
            else r.wake == Some(s.readWaiters[0]) && s.readWaiters == [s.readWaiters[0]] + t.readWaiters)
        && t == s.(buffer := t.buffer, readWaiters := t.readWaiters)
      else if nonblock then t == s && r == Fail(EAGAIN)
      else r == Blocked && t == s.(writeWaiters := t.writeWaiters) && (tid in t.writeWaiters <==> parks)
  {
    hide Parked;
    ParkedMeans(s.writeWaiters, tid, parks);
  }

  lemma ParkedMeans(q: seq<nat>, tid: nat, parks: bool)
    ensures tid in Parked(q, tid, parks) <==> parks
  {
    WithoutMembers(q, tid);
  }

  /** A new capacity is the least whole number of pages that is enough, within both limits and never less
      than what is buffered. */
  lemma ResizeMeans(s: State, requested: nat, maxSize: nat)
    ensures var (t, r) := Apply(s, Resize(requested, maxSize));
      var wanted := if requested == 0 then 4096 else requested;
      if wanted > 0x8000_0000 then t == s && r == Fail(EINVAL)
      else if r.Capacity? then
        && r.size % 4096 == 0 && wanted <= r.size < wanted + 4096 && r.size <= maxSize && |s.buffer| <= r.size
        && t == s.(capacity := r.size)
      else
        && t == s && (r == Fail(EPERM) || r == Fail(EBUSY))
        && exists size: nat {:trigger size % 4096} | size % 4096 == 0 && wanted <= size < wanted + 4096 ::
             if r == Fail(EPERM) then maxSize < size else size <= maxSize && size < |s.buffer|
  {
    var wanted := if requested == 0 then PAGE_SIZE else requested;
    var size := PagesFor(wanted) * PAGE_SIZE;
    assert size % 4096 == 0 && wanted <= size < wanted + 4096;
  }

  /** Closing a side hands back everybody who waits for it and nobody else. */
  lemma CloseMeans(s: State)
    ensures Apply(s, CloseRead) == (s.(readClosed := true, writeWaiters := []), Closed(s.writeWaiters))
    ensures Apply(s, CloseWrite) == (s.(writeClosed := true, readWaiters := []), Closed(s.readWaiters))
  {
  }

  function Woken(r: Reply): seq<nat> {
    match r
    case Data(_, wake) => if wake.Some? then [wake.value] else []
    case Count(_, wake) => if wake.Some? then [wake.value] else []
    case Closed(woken) => woken
    case _ => []
  }

  // ---- Whole runs ----

  function Final(s: State, steps: seq<Step>): State
    decreases |steps|
  {
    if steps == [] then s else Final(Apply(s, steps[0]).0, steps[1..])
  }

  function Handed(r: Reply): seq<byte> {
    if r.Data? then r.bytes else []
  }

  function Accepted(step: Step, r: Reply): seq<byte> {
    if step.Write? && r.Count? && r.n <= |step.data| then step.data[..r.n] else []
  }

  /** Everything readers were given in a run. */
  function Got(s: State, steps: seq<Step>): seq<byte>
    decreases |steps|
  {
    if steps == [] then [] else
      var (s', r) := Apply(s, steps[0]);
      Handed(r) + Got(s', steps[1..])
  }

  /** Everything writers were told was accepted in a run. */
  function Sent(s: State, steps: seq<Step>): seq<byte>
    decreases |steps|
  {
    if steps == [] then [] else
      var (s', r) := Apply(s, steps[0]);
      Accepted(steps[0], r) + Sent(s', steps[1..])
  }

  lemma StepConserves(s: State, step: Step)
    ensures var (s', r) := Apply(s, step); s.buffer + Accepted(step, r) == Handed(r) + s'.buffer
  {
    hide Without, Parked, Rest, Front;
    if step.Write? {
      assert step.data != [] ==> step.data[..0] == [];
    }
  }

  lemma Regroup(a: seq<byte>, b: seq<byte>, c: seq<byte>, d: seq<byte>, e: seq<byte>, f: seq<byte>, g: seq<byte>)
    requires a + b == d + e && e + c == f + g
    ensures a + (b + c) == d + f + g
  {
    assert a + (b + c) == (a + b) + c;
    assert (d + e) + c == d + (e + c);
    assert d + (f + g) == d + f + g;
  }

  /** No byte is lost, invented, repeated or reordered: what readers got, followed by what is in the
      buffer, is what was in it before followed by what writers sent. */
  lemma {:induction false} StreamIsConserved(s: State, steps: seq<Step>)
    ensures s.buffer + Sent(s, steps) == Got(s, steps) + Final(s, steps).buffer
    decreases |steps|
  {
    hide Apply, Accepted, Handed;
    if steps != [] {
      var (s', r) := Apply(s, steps[0]);
      StepConserves(s, steps[0]);
      StreamIsConserved(s', steps[1..]);
      Regroup(s.buffer, Accepted(steps[0], r), Sent(s', steps[1..]), Handed(r), s'.buffer, Got(s', steps[1..]), Final(s', steps[1..]).buffer);
    }
  }

  lemma {:induction false} RunKeepsInv(s: State, steps: seq<Step>)
    requires Inv(s)
    ensures Inv(Final(s, steps))
    decreases |steps|
  {
    if steps != [] {
      StepKeepsInv(s, steps[0]);
      RunKeepsInv(Apply(s, steps[0]).0, steps[1..]);
    }
  }

  lemma {:induction false} RunSplits(s: State, steps: seq<Step>, i: nat)
    requires i <= |steps|
    ensures Sent(s, steps) == Sent(s, steps[..i]) + Sent(Final(s, steps[..i]), steps[i..])
    decreases i
  {
    if i == 0 {
      assert steps[..0] == [] && steps[0..] == steps;
    } else {
      var (s', r) := Apply(s, steps[0]);
      assert steps[..i][0] == steps[0] && steps[..i][1..] == steps[1..][..i - 1] && steps[1..][i - 1..] == steps[i..];
      RunSplits(s', steps[1..], i - 1);
    }
  }

  /** A write of at most a page is taken whole or not at all, and its bytes stand together in the
      stream the readers see, at the place where the sent bytes before it end. */
  lemma RecordsStayWhole(s: State, steps: seq<Step>, i: nat)
    requires i < |steps| && steps[i].Write? && |steps[i].data| <= PAGE_SIZE
    requires Apply(Final(s, steps[..i]), steps[i]).1.Count?
    ensures
      var data := steps[i].data;
      var stream := Got(s, steps) + Final(s, steps).buffer;
      var start := |s.buffer| + |Sent(s, steps[..i])|;
      && Apply(Final(s, steps[..i]), steps[i]).1.n == |data|
      && start + |data| <= |stream|
      && stream[start..start + |data|] == data
  {
    hide Apply, Got, Final, Accepted;
    var at := Final(s, steps[..i]);
    var (next, r) := Apply(at, steps[i]);
    var data := steps[i].data;
    SmallWriteIsWhole(at, steps[i]);
    StreamIsConserved(s, steps);
    RunSplits(s, steps, i);
    assert steps[i..][0] == steps[i];
    assert Accepted(steps[i], r) == data by { WholeIsAccepted(steps[i], r); }
    var before, after := s.buffer + Sent(s, steps[..i]), Sent(next, steps[i..][1..]);
    assert Sent(at, steps[i..]) == data + after;
    assert s.buffer + Sent(s, steps) == before + data + after;
    Middle(before, data, after);
  }

  lemma Middle(a: seq<byte>, b: seq<byte>, c: seq<byte>)
    ensures (a + b + c)[|a|..|a| + |b|] == b
  {
  }

  lemma WholeIsAccepted(step: Step, r: Reply)
    requires step.Write? && r.Count? && r.n == |step.data|
    ensures Accepted(step, r) == step.data
  {
  }

  lemma SmallWriteIsWhole(s: State, step: Step)
    requires step.Write? && |step.data| <= PAGE_SIZE && Apply(s, step).1.Count?
    ensures Apply(s, step).1.n == |step.data|
  {
  }

  // ---- What the ready tests promise ----

  predicate ReadReady(s: State) {
    |s.buffer| != 0 || s.writeClosed
  }

  predicate WriteReady(s: State) {
    Free(s) >= Min(PAGE_SIZE, s.capacity)
  }

  /** A pipe polls readable exactly if no read would have to wait. */
  lemma ReadReadyMeans(s: State)
    ensures ReadReady(s) <==> forall step: Step | step.Read? :: Apply(s, step).1.Data?
  {
    if !ReadReady(s) {
      assert Apply(s, Read(0, 1, true, true)).1 == Fail(EAGAIN);
    }
  }

  /** With a reader on the other side, a pipe polls writable exactly if no write, whatever its size,
      would have to wait or be refused. */
  lemma WriteReadyMeans(s: State)
    requires Inv(s) && !s.readClosed
    ensures WriteReady(s) <==> forall step: Step | step.Write? :: Apply(s, step).1.Count?
  {
    if !WriteReady(s) {
      assert Apply(s, Write(0, Zeros(PAGE_SIZE), true, true)).1 == Fail(EAGAIN);
    }
  }

  /** When a non-blocking write is refused, for every state and size. */
  lemma WriteRefused(s: State, tid: nat, data: seq<byte>, parks: bool)
    requires Inv(s)
    ensures Apply(s, Write(tid, data, true, parks)).1 == Fail(EAGAIN) <==>
            !s.readClosed && if |data| <= PAGE_SIZE then Free(s) < |data| else Free(s) == 0
    ensures Apply(s, Write(tid, data, true, parks)).1 == Fail(EPIPE) <==> s.readClosed && data != []
  {
  }

  /** Once the writer is gone, reads hand out what is left and then report the end, and never wait. */
  lemma {:induction false} DrainedThenEof(s: State, steps: seq<Step>, len: nat, tid: nat, nonblock: bool, parks: bool)
    requires s.writeClosed && len > 0 && forall i | 0 <= i < |steps| :: !steps[i].Write?
    ensures
      var r := Apply(Final(s, steps), Read(tid, len, nonblock, parks)).1;
      r.Data? && (r.bytes == [] <==> Got(s, steps) == s.buffer) && Got(s, steps) + r.bytes <= s.buffer
    decreases |steps|
  {
    StreamIsConserved(s, steps);
    NothingSent(s, steps);
    StaysClosed(s, steps);
    assert s.buffer + [] == s.buffer;
    var last := Final(s, steps);
    if last.buffer == [] {
      assert Got(s, steps) + [] == Got(s, steps);
    }
  }

  lemma {:induction false} NothingSent(s: State, steps: seq<Step>)
    requires forall i | 0 <= i < |steps| :: !steps[i].Write?
    ensures Sent(s, steps) == []
    decreases |steps|
  {
    if steps != [] {
      NothingSent(Apply(s, steps[0]).0, steps[1..]);
    }
  }

  /** A closed side never opens again. */
  lemma {:induction false} StaysClosed(s: State, steps: seq<Step>)
    ensures s.readClosed ==> Final(s, steps).readClosed
    ensures s.writeClosed ==> Final(s, steps).writeClosed
    decreases |steps|
  {
    if steps != [] {
      StaysClosed(Apply(s, steps[0]).0, steps[1..]);
    }
  }

  // ---- The shared buffer ----

  class PipeRingBuffer {
    var buffer: seq<byte>
    var capacity: nat
    var readClosed: bool
    var writeClosed: bool
    var readWaiters: seq<nat>
    var writeWaiters: seq<nat>

    ghost function Model(): State
      reads this
    {
      State(buffer, capacity, readClosed, writeClosed, readWaiters, writeWaiters)
    }

    ghost predicate Valid()
      reads this
    {
      Inv(Model())
    }

    constructor (privileged: bool, maxSize: nat)
      requires PAGE_SIZE <= maxSize
      ensures Valid() && Model() == Fresh(privileged, maxSize)
    {
      buffer, readClosed, writeClosed, readWaiters, writeWaiters := [], false, false, [], [];
      capacity := if privileged then PIPE_BUFFER_SIZE else Min(PIPE_BUFFER_SIZE, maxSize);
    }

    method ReadByte() returns (b: byte)
      requires buffer != []
      modifies this`buffer
      ensures old(buffer) == [b] + buffer
    {
      b := buffer[0];
      buffer := buffer[1..];
    }

    method WriteByte(b: byte)
      requires |buffer| < capacity
      modifies this`buffer
      ensures buffer == old(buffer) + [b]
    {
      buffer := buffer + [b];
    }

    /** Moves bytes from the front of the buffer to the front of `buf` while both have room. */
    method Drain(buf: array<byte>) returns (size: nat)
      modifies this`buffer, buf
      ensures size == Min(buf.Length, |old(buffer)|) && buffer == old(buffer)[size..]
      ensures buf[..] == old(buffer)[..size] + old(buf[..])[size..]
    {
      size := 0;
      while size < buf.Length && |buffer| != 0
        invariant size <= buf.Length && size <= |old(buffer)| && buffer == old(buffer)[size..]
        invariant buf[..size] == old(buffer)[..size]
        invariant buf[size..] == old(buf[..])[size..]
      {
        var b := ReadByte();
        buf[size] := b;
        assert b == old(buffer)[size];
        assert buf[..size + 1] == buf[..size] + [b];
        assert buf[size + 1..] == old(buf[..])[size..][1..];
        size := size + 1;
      }
      assert buf[..] == buf[..size] + buf[size..];
    }

    /** One attempt of a read: fills `buf` from the front and leaves the rest of it alone. */
    method TryRead(tid: nat, buf: array<byte>, nonblock: bool, parks: bool) returns (r: Reply)
      requires Valid()
      modifies this, buf
      ensures Valid() && (Model(), r) == Apply(old(Model()), Read(tid, buf.Length, nonblock, parks))
      ensures buf[..] == Handed(r) + old(buf[..])[|Handed(r)|..]
      ensures buf.Length > 0 && old(buffer) != [] ==>
        r.Data? && |r.bytes| == Min(buf.Length, |old(buffer)|) && r.wake == if old(writeWaiters) == [] then None else Some(old(writeWaiters)[0])
    {
      hide Inv, Without, Joined;
      StepKeepsInv(Model(), Read(tid, buf.Length, nonblock, parks));
      if buf.Length == 0 {
        return Data([], None);
      }
      var size := Drain(buf);
      if size != 0 {
        r := Data(buf[..size], Front(writeWaiters));
        writeWaiters := Rest(writeWaiters);
      } else if writeClosed {
        r := Data([], None);
      } else if nonblock {
        r := Fail(EAGAIN);
      } else {
        readWaiters := Joined(readWaiters, tid);
        if !parks {
          JoinedThenWithout(old(readWaiters), tid);
          readWaiters := Without(readWaiters, tid);
        }
        r := Blocked;
      }
    }

    /** One attempt of a write. */
    method TryWrite(tid: nat, data: seq<byte>, nonblock: bool, parks: bool) returns (r: Reply)
      requires Valid()
      modifies this
      ensures Valid() && (Model(), r) == Apply(old(Model()), Write(tid, data, nonblock, parks))
      ensures r.Count? && 0 < r.n ==> r.wake == if old(readWaiters) == [] then None else Some(old(readWaiters)[0])
    {
      StepKeepsInv(Model(), Write(tid, data, nonblock, parks));
      if data == [] {
        return Count(0, None);
      }
      if readClosed {
        return Fail(EPIPE);
      }
      var size := 0;
      var free := if |buffer| <= capacity then capacity - |buffer| else 0;
      if |data| > PAGE_SIZE || free >= |data| {
        while size < |data| && |buffer| < capacity
          modifies this`buffer
          invariant size <= |data| && buffer == old(buffer) + data[..size] && |buffer| <= capacity
        {
          WriteByte(data[size]);
          size := size + 1;
        }
      }
      if size != 0 {
        r := Count(size, Front(readWaiters));
        readWaiters := Rest(readWaiters);
      } else if nonblock {
        r := Fail(EAGAIN);
      } else {
        writeWaiters := Joined(writeWaiters, tid);
        if !parks {
          JoinedThenWithout(old(writeWaiters), tid);
          writeWaiters := Without(writeWaiters, tid);
        }
        r := Blocked;
      }
    }

    method SetCapacity(requested: nat, maxSize: nat) returns (r: Reply)
      requires Valid()
      modifies this`capacity
      ensures Valid() && (Model(), r) == Apply(old(Model()), Resize(requested, maxSize))
    {
      StepKeepsInv(Model(), Resize(requested, maxSize));
      var wanted := if requested == 0 then PAGE_SIZE else requested;
      if wanted > PIPE_SIZE_LIMIT {
        return Fail(EINVAL);
      }
      var size := (wanted + PAGE_SIZE - 1) / PAGE_SIZE * PAGE_SIZE;
      if size > maxSize {
        return Fail(EPERM);
      }
      if size < |buffer| {
        return Fail(EBUSY);
      }
      capacity := size;
      r := Capacity(size);
    }

    /** A task that runs again takes itself off its queue. */
    method RemoveWaiter(tid: nat, reading: bool) returns (r: Reply)
      requires Valid()
      modifies this
      ensures Valid() && (Model(), r) == Apply(old(Model()), if reading then ResumeRead(tid) else ResumeWrite(tid))
    {
      hide Inv, Without;
      StepKeepsInv(Model(), if reading then ResumeRead(tid) else ResumeWrite(tid));
      if reading {
        readWaiters := Without(readWaiters, tid);
      } else {
        writeWaiters := Without(writeWaiters, tid);
      }
      r := Resumed;
    }

    /** Dropping an end closes its side and hands back everybody to be woken. */
    method DropEnd(readable: bool) returns (r: Reply)
      requires Valid()
      modifies this
      ensures Valid() && (Model(), r) == Apply(old(Model()), if readable then CloseRead else CloseWrite)
    {
      if readable {
        readClosed := true;
        r := Closed(writeWaiters);
        writeWaiters := [];
      } else {
        writeClosed := true;
        r := Closed(readWaiters);
        readWaiters := [];
      }
    }
  }

  lemma JoinedThenWithout(q: seq<nat>, tid: nat)
    ensures Without(Joined(q, tid), tid) == Without(q, tid)
  {
  }
}
