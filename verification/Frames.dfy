/** The physical frame allocator: bump cursors over disjoint ranges, and a stack of returned frames. */
module Frames {
  import opened Common

  datatype Range = Range(start: nat, current: nat, end: nat)

  predicate InRange(r: Range, p: nat) {
    r.start <= p < r.end
  }

  /** Frame `p` has been handed out at least once. */
  predicate Issued(ranges: seq<Range>, p: nat) {
    exists i | 0 <= i < |ranges| :: ranges[i].start <= p < ranges[i].current
  }

  predicate Managed(ranges: seq<Range>, p: nat) {
    exists i | 0 <= i < |ranges| :: InRange(ranges[i], p)
  }

  predicate Apart(ranges: seq<Range>) {
    forall i, j | 0 <= i < j < |ranges| :: ranges[i].end <= ranges[j].start || ranges[j].end <= ranges[i].start
  }

  predicate CursorsOk(ranges: seq<Range>, limit: nat) {
    forall i | 0 <= i < |ranges| :: ranges[i].start <= ranges[i].current <= ranges[i].end <= limit
  }

  function Unissued(ranges: seq<Range>): int {
    if ranges == [] then 0 else ranges[0].end - ranges[0].current + Unissued(ranges[1..])
  }

  function Size(ranges: seq<Range>): int {
    if ranges == [] then 0 else ranges[0].end - ranges[0].start + Size(ranges[1..])
  }

  lemma {:induction false} Bump(ranges: seq<Range>, i: nat)
    requires i < |ranges|
    ensures var next := ranges[i := ranges[i].(current := ranges[i].current + 1)];
      Unissued(next) == Unissued(ranges) - 1 && Size(next) == Size(ranges)
  {
    var next := ranges[i := ranges[i].(current := ranges[i].current + 1)];
    if i == 0 {
      assert next[1..] == ranges[1..];
    } else {
      assert next[1..] == ranges[1..][i - 1 := next[i]];
      Bump(ranges[1..], i - 1);
    }
  }

  /** Bumping a cursor issues exactly the frame it stood on. */
  lemma BumpIssues(ranges: seq<Range>, i: nat, p: nat)
    requires i < |ranges| && ranges[i].start <= ranges[i].current
    ensures var next := ranges[i := ranges[i].(current := ranges[i].current + 1)];
      Issued(next, p) <==> Issued(ranges, p) || p == ranges[i].current
  {
    var next := ranges[i := ranges[i].(current := ranges[i].current + 1)];
    if Issued(ranges, p) {
      var k :| 0 <= k < |ranges| && ranges[k].start <= p < ranges[k].current;
      assert next[k].start <= p < next[k].current;
    }
    if p == ranges[i].current {
      assert next[i].start <= p < next[i].current;
    }
  }

  /** A frame under a cursor has not been handed out. */
  lemma CursorIsFresh(ranges: seq<Range>, limit: nat, i: nat)
    requires i < |ranges| && Apart(ranges) && CursorsOk(ranges, limit) && ranges[i].current < ranges[i].end
    ensures !Issued(ranges, ranges[i].current)
  {
  }

  lemma CursorBounds(ranges: seq<Range>, limit: nat, i: nat)
    requires i < |ranges| && CursorsOk(ranges, limit)
    ensures ranges[i].start <= ranges[i].current
  {
  }

  lemma CursorIsManaged(ranges: seq<Range>, limit: nat, i: nat)
    requires i < |ranges| && CursorsOk(ranges, limit) && ranges[i].current < ranges[i].end
    ensures Managed(ranges, ranges[i].current)
  {
  }

  predicate RangesOk(ranges: seq<Range>, active: nat, limit: nat) {
    && Apart(ranges) && CursorsOk(ranges, limit)
    && active <= |ranges| && forall i | 0 <= i < active :: ranges[i].current == ranges[i].end
  }

  /** The bitmap marks the frames on the stack, which are there once and were issued before. */
  ghost predicate RecycledOk(ranges: seq<Range>, recycled: seq<nat>, bitmap: seq<bool>) {
    && NoRepeats(recycled)
    && (forall p: nat :: p in recycled <==> p < |bitmap| && bitmap[p])
    && (forall p | p in recycled :: Issued(ranges, p))
  }

  /** The frames that are out: issued and not returned since. */
  ghost predicate OutIs(ranges: seq<Range>, recycled: seq<nat>, out: set<nat>) {
    forall p: nat :: p in out <==> Issued(ranges, p) && p !in recycled
  }

  ghost predicate SameFrames(a: seq<Range>, b: seq<Range>) {
    Size(a) == Size(b) && forall p: nat :: Managed(a, p) <==> Managed(b, p)
  }

  ghost predicate AllOut(ranges: seq<Range>, out: set<nat>) {
    forall p: nat | Managed(ranges, p) :: p in out
  }

  lemma PopKeeps(ranges: seq<Range>, recycled: seq<nat>, bitmap: seq<bool>, out: set<nat>)
    requires RecycledOk(ranges, recycled, bitmap) && OutIs(ranges, recycled, out) && CursorsOk(ranges, |bitmap|) && recycled != []
    ensures var p, rest := recycled[|recycled| - 1], recycled[..|recycled| - 1];
      && p < |bitmap| && p !in out && Managed(ranges, p)
      && RecycledOk(ranges, rest, bitmap[p := false]) && OutIs(ranges, rest, out + {p})
  {
    var p := recycled[|recycled| - 1];
    assert p in recycled;
    Unpush(recycled);
    IssuedIsManaged(ranges, |bitmap|, p);
    var rest, bits := recycled[..|recycled| - 1], bitmap[p := false];
    forall q: nat ensures q in rest <==> q < |bits| && bits[q] {
      assert q in rest <==> q in recycled && q != p;
    }
    forall q | q in rest ensures Issued(ranges, q) {
      assert q in recycled;
    }
  }

  lemma PushKeeps(ranges: seq<Range>, recycled: seq<nat>, bitmap: seq<bool>, out: set<nat>, p: nat)
    requires RecycledOk(ranges, recycled, bitmap) && OutIs(ranges, recycled, out) && CursorsOk(ranges, |bitmap|) && p in out
    ensures p < |bitmap| && RecycledOk(ranges, recycled + [p], bitmap[p := true]) && OutIs(ranges, recycled + [p], out - {p})
  {
  }

  function Bumped(ranges: seq<Range>, i: nat): seq<Range>
    requires i < |ranges|
  {
    ranges[i := ranges[i].(current := ranges[i].current + 1)]
  }

  lemma BumpRanges(ranges: seq<Range>, active: nat, limit: nat)
    requires RangesOk(ranges, active, limit) && active < |ranges| && ranges[active].current < ranges[active].end
    ensures RangesOk(Bumped(ranges, active), active, limit)
  {
  }

  lemma BumpKeeps(ranges: seq<Range>, active: nat, bitmap: seq<bool>, out: set<nat>)
    requires RangesOk(ranges, active, |bitmap|) && RecycledOk(ranges, [], bitmap) && OutIs(ranges, [], out)
    requires active < |ranges| && ranges[active].current < ranges[active].end
    ensures var p, next := ranges[active].current, Bumped(ranges, active);
      && p !in out && Managed(ranges, p) && SameFrames(ranges, next) && Unissued(next) == Unissued(ranges) - 1
      && RangesOk(next, active, |bitmap|) && RecycledOk(next, [], bitmap) && OutIs(next, [], out + {p})
  {
    hide Apart, CursorsOk, Issued, Managed, NoRepeats;
    var p, next := ranges[active].current, Bumped(ranges, active);
    assert ranges[active].start <= p by { CursorBounds(ranges, |bitmap|, active); }
    CursorIsFresh(ranges, |bitmap|, active);
    BumpRanges(ranges, active, |bitmap|);
    CursorIsManaged(ranges, |bitmap|, active);
    Bump(ranges, active);
    forall q: nat ensures q in out + {p} <==> Issued(next, q) { BumpIssues(ranges, active, q); }
    forall q: nat ensures Managed(ranges, q) <==> Managed(next, q) { BumpManages(ranges, active, q); }
  }

  /** The guard of a release is passed exactly by the frames that are out. */
  lemma GuardMeans(ranges: seq<Range>, recycled: seq<nat>, bitmap: seq<bool>, out: set<nat>, p: nat)
    requires RecycledOk(ranges, recycled, bitmap) && OutIs(ranges, recycled, out)
    ensures Issued(ranges, p) && !(p < |bitmap| && bitmap[p]) <==> p in out
  {
  }

  /** Nothing on the stack and nothing left in any range: every frame is out. */
  lemma Exhausted(ranges: seq<Range>, limit: nat, out: set<nat>)
    requires RangesOk(ranges, |ranges|, limit) && OutIs(ranges, [], out)
    ensures AllOut(ranges, out)
  {
  }

  class StackFrameAllocator {
    var ranges: seq<Range>
    var active: nat
    var recycled: seq<nat>
    var bitmap: seq<bool>
    ghost var out: set<nat>

    ghost predicate Valid()
      reads this
    {
      && RangesOk(ranges, active, |bitmap|)
      && RecycledOk(ranges, recycled, bitmap)
      && OutIs(ranges, recycled, out)
      && |out| + FreeFrames() == Size(ranges)
    }

    function FreeFrames(): int
      reads this
    {
      Unissued(ranges) + |recycled|
    }

    constructor (given: seq<(nat, nat)>)
      requires Disjoint(given)
      ensures Valid() && out == {} && ranges == NewRanges(given)
    {
      ranges, active, recycled, out := NewRanges(given), 0, [], {};
      bitmap := seq(Limit(NewRanges(given)), _ => false);
      NewRangesOk(given);
    }

    /** Hands out a frame nobody has, and fails exactly when every frame is out. */
    method Alloc() returns (r: Option<nat>)
      requires Valid()
      modifies this
      ensures Valid() && SameFrames(old(ranges), ranges)
      ensures r.None? <==> AllOut(old(ranges), old(out))
      ensures if r.Some? then r.value !in old(out) && Managed(old(ranges), r.value) && out == old(out) + {r.value}
              else out == old(out)
      ensures old(recycled) != [] ==> r == Some(old(recycled)[|old(recycled)| - 1]) && recycled == old(recycled)[..|old(recycled)| - 1]
    {
      hide Apart, RecycledOk, OutIs, Unissued, Size, Managed;
      if recycled != [] {
        var p := recycled[|recycled| - 1];
        PopKeeps(ranges, recycled, bitmap, out);
        recycled := recycled[..|recycled| - 1];
        bitmap := bitmap[p := false];
        out := out + {p};
        return Some(p);
      }
      while active < |ranges|
        invariant Valid() && ranges == old(ranges) && recycled == [] && out == old(out)
      {
        if ranges[active].current < ranges[active].end {
          var p := ranges[active].current;
          BumpKeeps(ranges, active, bitmap, out);
          ranges := ranges[active := ranges[active].(current := p + 1)];
          out := out + {p};
          return Some(p);
        }
        active := active + 1;
      }
      Exhausted(ranges, |bitmap|, out);
      r := None;
    }

    /** Takes a frame back. The guard lets through exactly the frames that are out. */
    method Dealloc(p: nat) returns (ok: bool)
      requires Valid()
      modifies this
      ensures Valid() && ranges == old(ranges)
      ensures ok <==> p in old(out)
      ensures out == old(out) - {p}
      ensures recycled == if ok then old(recycled) + [p] else old(recycled)
    {
      hide Apart, CursorsOk, RecycledOk, OutIs, Unissued, Size;
      var wasAllocated := false;
      for i := 0 to |ranges|
        modifies {}
        invariant wasAllocated <==> exists k | 0 <= k < i :: ranges[k].start <= p < ranges[k].current
      {
        wasAllocated := wasAllocated || ranges[i].start <= p < ranges[i].current;
      }
      GuardMeans(ranges, recycled, bitmap, out, p);
      ok := wasAllocated && !(p < |bitmap| && bitmap[p]);
      if ok {
        PushKeeps(ranges, recycled, bitmap, out, p);
        bitmap := bitmap[p := true];
        recycled := recycled + [p];
        out := out - {p};
      }
    }
  }

  lemma Unpush(q: seq<nat>)
    requires q != [] && NoRepeats(q)
    ensures NoRepeats(q[..|q| - 1]) && forall p :: p in q[..|q| - 1] <==> p in q && p != q[|q| - 1]
  {
  }

  lemma IssuedIsManaged(ranges: seq<Range>, limit: nat, p: nat)
    requires CursorsOk(ranges, limit) && Issued(ranges, p)
    ensures Managed(ranges, p) && p < limit
  {
  }

  lemma BumpManages(ranges: seq<Range>, i: nat, p: nat)
    requires i < |ranges|
    ensures Managed(ranges[i := ranges[i].(current := ranges[i].current + 1)], p) <==> Managed(ranges, p)
  {
    var next := ranges[i := ranges[i].(current := ranges[i].current + 1)];
    if Managed(ranges, p) {
      var k :| 0 <= k < |ranges| && InRange(ranges[k], p);
      assert InRange(next[k], p);
    }
  }

  // ---- A new allocator ----

  predicate Disjoint(given: seq<(nat, nat)>) {
    forall i, j | 0 <= i < j < |given| :: given[i].1 <= given[j].0 || given[j].1 <= given[i].0
  }

  /** The non-empty ranges, with nothing issued. */
  function NewRanges(given: seq<(nat, nat)>): seq<Range> {
    if given == [] then []
    else (if given[0].0 < given[0].1 then [Range(given[0].0, given[0].0, given[0].1)] else []) + NewRanges(given[1..])
  }

  function Limit(ranges: seq<Range>): (n: nat)
    ensures forall i | 0 <= i < |ranges| :: ranges[i].end <= n
  {
    if ranges == [] then 0 else
      var rest := Limit(ranges[1..]);
      if rest < ranges[0].end then ranges[0].end else rest
  }

  lemma NewRangesOk(given: seq<(nat, nat)>)
    requires Disjoint(given)
    ensures var rs := NewRanges(given);
      Apart(rs) && Unissued(rs) == Size(rs) && CursorsOk(rs, Limit(rs)) && forall p: nat :: !Issued(rs, p)
  {
    var rs := NewRanges(given);
    forall i | 0 <= i < |rs| ensures rs[i].start == rs[i].current <= rs[i].end {
      var k := RangeComesFrom(given, i);
    }
    NewRangesApart(given);
    NothingIssued(rs);
  }

  lemma {:induction false} NewRangesApart(given: seq<(nat, nat)>)
    requires Disjoint(given)
    ensures Apart(NewRanges(given))
  {
    if given != [] {
      NewRangesApart(given[1..]);
      var rest := NewRanges(given[1..]);
      forall i | 0 <= i < |rest| ensures rest[i].end <= given[0].0 || given[0].1 <= rest[i].start {
        var k := RangeComesFrom(given[1..], i);
        assert given[1..][k] == given[k + 1];
      }
    }
  }

  lemma {:induction false} NothingIssued(rs: seq<Range>)
    requires forall i | 0 <= i < |rs| :: rs[i].start == rs[i].current
    ensures Unissued(rs) == Size(rs)
  {
    if rs != [] { NothingIssued(rs[1..]); }
  }

  lemma {:induction false} RangeComesFrom(given: seq<(nat, nat)>, i: nat) returns (k: nat)
    requires i < |NewRanges(given)|
    ensures k < |given| && given[k].0 < given[k].1 && NewRanges(given)[i] == Range(given[k].0, given[k].0, given[k].1)
  {
    if given[0].0 < given[0].1 && i == 0 {
      k := 0;
    } else {
      k := RangeComesFrom(given[1..], if given[0].0 < given[0].1 then i - 1 else i);
      k := k + 1;
    }
  }

  /** A new allocator manages exactly the frames of the given ranges. */
  lemma {:induction false} NewRangesManage(given: seq<(nat, nat)>, p: nat)
    ensures Managed(NewRanges(given), p) <==> exists i | 0 <= i < |given| :: given[i].0 <= p < given[i].1
  {
    if given != [] {
      var rest := NewRanges(given[1..]);
      NewRangesManage(given[1..], p);
      var rs := NewRanges(given);
      var d := |rs| - |rest|;
      assert forall k | 0 <= k < |rest| :: rs[k + d] == rest[k];
      if k: nat :| k < |rest| && InRange(rest[k], p) {
        assert InRange(rs[k + d], p);
      }
      if given[0].0 <= p < given[0].1 {
        assert InRange(rs[0], p);
      }
      if k: nat :| k < |given[1..]| && given[1..][k].0 <= p < given[1..][k].1 {
        assert given[k + 1].0 <= p < given[k + 1].1;
      }
    }
  }
}
