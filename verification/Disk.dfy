/** The disk adapter: byte-addressed reads and writes on a partition, done with whole-block requests
    to the device and read-modify-write at ragged edges. */
module Disks {
  import opened Bytes

  const BLOCK_SIZE: nat := 512
  const I64_MAX: nat := 0x7FFF_FFFF_FFFF_FFFF

  /** A block device. A healthy one serves every request that lies on it; any other may fail. */
  class BlockDevice {
    var content: seq<byte>
    const healthy: bool

    ghost predicate Valid()
      reads this
    {
      |content| % BLOCK_SIZE == 0
    }

    constructor (bytes: seq<byte>, healthy: bool)
      requires |bytes| % BLOCK_SIZE == 0
      ensures Valid() && content == bytes && this.healthy == healthy
    {
      content := bytes;
      this.healthy := healthy;
    }

    /** Reads whole blocks into `buf[lo..hi]`. A failed request leaves anything there. */
    method ReadBlock(id: nat, buf: array<byte>, lo: nat, hi: nat) returns (ok: bool)
      requires Valid() && lo <= hi <= buf.Length && (hi - lo) % BLOCK_SIZE == 0
      modifies buf
      ensures ok ==> id * BLOCK_SIZE + hi - lo <= |content|
      ensures ok ==> buf[..] == Overlay(old(buf[..]), lo, content[id * BLOCK_SIZE..id * BLOCK_SIZE + hi - lo])
      ensures healthy && id * BLOCK_SIZE + hi - lo <= |content| ==> ok
      ensures forall j | 0 <= j < buf.Length && !(lo <= j < hi) :: buf[j] == old(buf[j])
    {
      var start := id * BLOCK_SIZE;
      var works: bool := *;
      ok := start + hi - lo <= |content| && (healthy || works);
      if ok {
        forall j | lo <= j < hi { buf[j] := content[start + j - lo]; }
        assert buf[..] == Overlay(old(buf[..]), lo, content[start..start + hi - lo]);
      }
    }

    method ReadOne(id: nat) returns (ok: bool, block: seq<byte>)
      requires Valid()
      ensures |block| == BLOCK_SIZE
      ensures ok ==> id * BLOCK_SIZE + BLOCK_SIZE <= |content| && block == content[id * BLOCK_SIZE..id * BLOCK_SIZE + BLOCK_SIZE]
      ensures healthy && id * BLOCK_SIZE + BLOCK_SIZE <= |content| ==> ok
    {
      var data := new byte[BLOCK_SIZE];
      ok := ReadBlock(id, data, 0, BLOCK_SIZE);
      block := data[..];
    }

    /** Writes whole blocks. A failed request leaves anything in those blocks. */
    method WriteBlock(id: nat, data: seq<byte>) returns (ok: bool)
      requires Valid() && |data| % BLOCK_SIZE == 0
      modifies this
      ensures Valid() && |content| == |old(content)|
      ensures ok ==> id * BLOCK_SIZE + |data| <= |content| && content == Overlay(old(content), id * BLOCK_SIZE, data)
      ensures healthy && id * BLOCK_SIZE + |data| <= |content| ==> ok
      ensures UnchangedOutside(old(content), content, id * BLOCK_SIZE, id * BLOCK_SIZE + |data|)
    {
      var start := id * BLOCK_SIZE;
      var works: bool := *;
      ok := start + |data| <= |content| && (healthy || works);
      if ok {
        content := Overlay(content, start, data);
      } else if start + |data| <= |content| {
        var torn: seq<byte> :| |torn| == |data|;
        content := Overlay(content, start, torn);
      }
    }
  }

  predicate UnchangedOutside(a: seq<byte>, b: seq<byte>, lo: nat, hi: nat) {
    |a| == |b| && forall j | 0 <= j < |a| && !(lo <= j < hi) :: a[j] == b[j]
  }

  function BlocksDown(n: nat): nat {
    n / BLOCK_SIZE * BLOCK_SIZE
  }

  function BlocksUp(n: nat): nat {
    BlocksDown(n + BLOCK_SIZE - 1)
  }

  /** `buf` holds what the device has from `start` on, up to `done`. */
  predicate Filled(buf0: seq<byte>, buf: seq<byte>, c: seq<byte>, start: nat, done: nat) {
    done <= |buf0| && (done > 0 ==> start + done <= |c|) && buf == if done == 0 then buf0 else Overlay(buf0, 0, c[start..start + done])
  }

  /** `buf` got the `n` bytes at `place` at index `at`. */
  predicate Fetched(before: seq<byte>, buf: seq<byte>, c: seq<byte>, place: nat, at: nat, n: nat) {
    at + n <= |before| && place + n <= |c| && buf == Overlay(before, at, c[place..place + n])
  }

  lemma FilledGrows(buf0: seq<byte>, before: seq<byte>, buf: seq<byte>, c: seq<byte>, start: nat, done: nat, n: nat)
    requires Filled(buf0, before, c, start, done) && Fetched(before, buf, c, start + done, done, n)
    ensures Filled(buf0, buf, c, start, done + n)
  {
  }

  lemma FetchedPart(before: seq<byte>, c: seq<byte>, block: nat, offset: nat, at: nat, n: nat)
    requires block + BLOCK_SIZE <= |c| && offset + n <= BLOCK_SIZE && at + n <= |before|
    ensures Fetched(before, Overlay(before, at, c[block..block + BLOCK_SIZE][offset..offset + n]), c, block + offset, at, n)
  {
    var whole := c[block..block + BLOCK_SIZE];
    var part, want := whole[offset..offset + n], c[block + offset..block + offset + n];
    assert forall j | 0 <= j < n :: part[j] == whole[offset + j] == c[block + (offset + j)] == want[j];
    assert part == want;
  }

  lemma FilledStarts(buf0: seq<byte>, c: seq<byte>, start: nat)
    ensures Filled(buf0, buf0, c, start, 0)
  {
  }

  lemma FilledWhole(buf0: seq<byte>, buf: seq<byte>, c: seq<byte>, start: nat)
    requires Filled(buf0, buf, c, start, |buf0|)
    ensures |buf0| > 0 ==> start + |buf| <= |c| && buf == c[start..start + |buf|]
  {
  }

  /** The first `done` bytes of `data` have been put at `start`. */
  predicate Put(c0: seq<byte>, c: seq<byte>, start: nat, data: seq<byte>, done: nat) {
    done <= |data| && (done > 0 ==> start + done <= |c0|) && c == if done == 0 then c0 else Overlay(c0, start, data[..done])
  }

  lemma PutGrows(c0: seq<byte>, before: seq<byte>, c: seq<byte>, start: nat, data: seq<byte>, done: nat, n: nat)
    requires Put(c0, before, start, data, done) && done + n <= |data| && Put(before, c, start + done, data[done..], n)
    ensures Put(c0, c, start, data, done + n)
  {
  }

  /** Reading a block, patching it and writing it back is patching the bytes. */
  lemma PatchBlock(c: seq<byte>, block: nat, offset: nat, data: seq<byte>, n: nat)
    requires block + BLOCK_SIZE <= |c| && 0 < n <= |data| && offset + n <= BLOCK_SIZE
    ensures Put(c, Overlay(c, block, Overlay(c[block..block + BLOCK_SIZE], offset, data[..n])), block + offset, data, n)
  {
  }

  /** The bytes of `data` the position has moved over are at `start`. */
  predicate Landed(c: seq<byte>, start: nat, data: seq<byte>, moved: nat) {
    moved <= |data| && (moved > 0 ==> start + moved <= |c| && c[start..start + moved] == data[..moved])
  }

  lemma PutStarts(c: seq<byte>, start: nat, data: seq<byte>)
    ensures Put(c, c, start, data, 0)
  {
  }

  lemma PutWhole(c0: seq<byte>, c: seq<byte>, start: nat, data: seq<byte>)
    requires Put(c0, c, start, data, |data|)
    ensures data != [] ==> start + |data| <= |c| == |c0| && c == Overlay(c0, start, data)
    ensures data == [] ==> c == c0
    ensures Landed(c, start, data, |data|)
  {
  }

  /** A failed request further on leaves what has landed. */
  lemma LandedStays(c0: seq<byte>, before: seq<byte>, c: seq<byte>, start: nat, data: seq<byte>, done: nat, hi: nat)
    requires Put(c0, before, start, data, done) && (done > 0 ==> (start + done) % BLOCK_SIZE == 0)
    requires UnchangedOutside(before, c, BlocksDown(start + done), hi)
    ensures Landed(c, start, data, done)
  {
  }

  lemma OutsideStarts(c: seq<byte>, lo: nat, hi: nat)
    ensures UnchangedOutside(c, c, lo, hi)
  {
  }

  lemma PartitionIsSafe(a: seq<byte>, b: seq<byte>, base: nat, position: nat, hi: nat)
    requires UnchangedOutside(a, b, BlocksDown(base * BLOCK_SIZE + position), hi) && base * BLOCK_SIZE <= |a|
    ensures a[..base * BLOCK_SIZE] == b[..base * BLOCK_SIZE]
  {
  }

  lemma BlocksMonotone(a: nat, b: nat)
    requires a <= b
    ensures BlocksDown(a) <= BlocksDown(b) && BlocksUp(a) <= BlocksUp(b)
  {
  }

  lemma WholeBlocks(id: nat, n: nat)
    ensures var m := BlocksDown(n); m % BLOCK_SIZE == 0 && m <= n < m + BLOCK_SIZE
    ensures BlocksDown(id * BLOCK_SIZE) == id * BLOCK_SIZE
    ensures id * BLOCK_SIZE + BlocksDown(n) <= BlocksUp(id * BLOCK_SIZE + n)
  {
  }

  lemma PutNow(c: seq<byte>, start: nat, data: seq<byte>, n: nat)
    requires 0 < n <= |data| && start + n <= |c|
    ensures Put(c, Overlay(c, start, data[..n]), start, data, n)
  {
  }

  lemma Wider(a: seq<byte>, b: seq<byte>, lo: nat, hi: nat, hi': nat)
    requires UnchangedOutside(a, b, lo, hi) && hi <= hi'
    ensures UnchangedOutside(a, b, lo, hi')
  {
  }

  lemma StillOutside(a: seq<byte>, b: seq<byte>, c: seq<byte>, lo: nat, hi: nat, lo': nat, hi': nat)
    requires UnchangedOutside(a, b, lo, hi) && UnchangedOutside(b, c, lo', hi') && lo <= lo' && hi' <= hi
    ensures UnchangedOutside(a, c, lo, hi)
  {
  }

  lemma InBlock(id: nat, offset: nat, n: nat)
    requires 0 < n && offset + n <= BLOCK_SIZE
    ensures BlocksDown(id * BLOCK_SIZE + offset) == id * BLOCK_SIZE
    ensures BlocksUp(id * BLOCK_SIZE + offset + n) == id * BLOCK_SIZE + BLOCK_SIZE
  {
  }

  method CopyInto(buf: array<byte>, at: nat, piece: seq<byte>)
    requires at + |piece| <= buf.Length
    modifies buf
    ensures buf[..] == Overlay(old(buf[..]), at, piece)
  {
    forall j | at <= j < at + |piece| { buf[j] := piece[j - at]; }
    assert buf[..] == Overlay(old(buf[..]), at, piece);
  }

  datatype Whence = Set | Current | End | Unknown

  /** A partition that starts at a block of its device, with a read/write position. */
  class Disk {
    var blockId: nat
    var offset: nat
    const dev: BlockDevice
    const baseBlock: nat

    ghost predicate Valid()
      reads this, dev
    {
      dev.Valid() && offset < BLOCK_SIZE && baseBlock * BLOCK_SIZE < |dev.content|
    }

    function Position(): nat
      reads this
    {
      blockId * BLOCK_SIZE + offset
    }

    /** The position on the device. */
    ghost function Place(): nat
      reads this
    {
      baseBlock * BLOCK_SIZE + Position()
    }

    constructor (dev: BlockDevice, baseBlock: nat)
      requires dev.Valid() && baseBlock * BLOCK_SIZE < |dev.content|
      ensures Valid() && this.dev == dev && this.baseBlock == baseBlock && Position() == 0
    {
      blockId, offset := 0, 0;
      this.dev := dev;
      this.baseBlock := baseBlock;
    }

    method SetPosition(pos: nat)
      requires Valid()
      modifies this
      ensures Valid() && Position() == pos
    {
      blockId := pos / BLOCK_SIZE;
      offset := pos % BLOCK_SIZE;
    }

    method Advance(count: nat)
      requires offset + count <= BLOCK_SIZE
      modifies this
      ensures offset < BLOCK_SIZE && Position() == old(Position()) + count
      ensures old(offset) + count == BLOCK_SIZE ==> offset == 0
    {
      offset := offset + count;
      if offset == BLOCK_SIZE {
        blockId := blockId + 1;
        offset := 0;
      }
    }

    /** Reads to the end of the block or of `buf`, whichever comes first. */
    method ReadPartial(buf: array<byte>, at: nat) returns (ok: bool, count: nat)
      requires Valid() && at < buf.Length
      modifies this, buf
      ensures Valid() && count == Min(buf.Length - at, BLOCK_SIZE - old(offset))
      ensures ok ==> Position() == old(Position()) + count && Fetched(old(buf[..]), buf[..], dev.content, old(Place()), at, count)
      ensures dev.healthy && old(Place()) < |dev.content| ==> ok
    {
      hide Fetched, Overlay;
      count := Min(buf.Length - at, BLOCK_SIZE - offset);
      var data;
      ok, data := dev.ReadOne(baseBlock + blockId);
      if ok {
        FetchedPart(buf[..], dev.content, (baseBlock + blockId) * BLOCK_SIZE, offset, at, count);
        CopyInto(buf, at, data[offset..offset + count]);
        Advance(count);
      }
    }

    /** Writes to the end of the block or of `data`, keeping the rest of the block. */
    method WritePartial(data: seq<byte>) returns (ok: bool, count: nat)
      requires Valid() && data != []
      modifies this, dev
      ensures Valid() && |dev.content| == |old(dev.content)| && count == Min(|data|, BLOCK_SIZE - old(offset))
      ensures ok ==> Position() == old(Position()) + count && Put(old(dev.content), dev.content, old(Place()), data, count)
      ensures ok && count < |data| ==> offset == 0
      ensures !ok ==> Position() == old(Position()) && offset == old(offset)
      ensures UnchangedOutside(old(dev.content), dev.content, BlocksDown(old(Place())), BlocksUp(old(Place()) + count))
      ensures dev.healthy && old(Place()) < |dev.content| ==> ok
    {
      hide Put, BlocksDown, BlocksUp, Overlay;
      count := Min(|data|, BLOCK_SIZE - offset);
      var id := baseBlock + blockId;
      InBlock(id, offset, count);
      var block;
      ok, block := dev.ReadOne(id);
      if ok {
        PatchBlock(dev.content, id * BLOCK_SIZE, offset, data, count);
        ok := dev.WriteBlock(id, Overlay(block, offset, data[..count]));
        if ok {
          Advance(count);
        }
      }
    }
  
    /** One turn of the read loop: all whole blocks at once if aligned, else part of a block. */
    method ReadSome(buf: array<byte>, at: nat) returns (ok: bool, n: nat)
      requires Valid() && at < buf.Length
      modifies this, buf
      ensures Valid() && 0 < n <= buf.Length - at
      ensures ok ==> Position() == old(Position()) + n && Fetched(old(buf[..]), buf[..], dev.content, old(Place()), at, n)
      ensures dev.healthy && old(Place()) + (buf.Length - at) <= |dev.content| ==> ok
    {
      if offset == 0 {
        n := BlocksDown(buf.Length - at);
        if n != 0 {
          ok := dev.ReadBlock(baseBlock + blockId, buf, at, at + n);
          if ok {
            blockId := blockId + n / BLOCK_SIZE;
          }
          return;
        }
      }
      ok, n := ReadPartial(buf, at);
    }

    /** Fills `buf` from the position on. Any read that lies on a healthy device succeeds, no read
        past the end does, and a read that succeeds returns exactly the bytes there. */
    method Read(buf: array<byte>) returns (ok: bool)
      requires Valid()
      modifies this, buf
      ensures Valid()
      ensures ok ==> Position() == old(Position()) + buf.Length
      ensures ok && buf.Length > 0 ==> old(Place()) + buf.Length <= |dev.content| && buf[..] == dev.content[old(Place())..old(Place()) + buf.Length]
      ensures dev.healthy && old(Place()) + buf.Length <= |dev.content| ==> ok
    {
      hide Filled, Fetched;
      ghost var start, buf0 := Place(), buf[..];
      assert Filled(buf0, buf[..], dev.content, start, 0) by { FilledStarts(buf0, dev.content, start); }
      var done := 0;
      while done < buf.Length
        invariant Valid() && done <= buf.Length && Place() == start + done
        invariant Filled(buf0, buf[..], dev.content, start, done)
      {
        ghost var before := buf[..];
        var got, n := ReadSome(buf, done);
        if !got {
          return false;
        }
        FilledGrows(buf0, before, buf[..], dev.content, start, done, n);
        done := done + n;
      }
      FilledWhole(buf0, buf[..], dev.content, start);
      ok := true;
    }

    /** One turn of the write loop. */
    method WriteSome(data: seq<byte>) returns (ok: bool, n: nat)
      requires Valid() && data != []
      modifies this, dev
      ensures Valid() && 0 < n <= |data|
      ensures |dev.content| == |old(dev.content)|
      ensures ok ==> Position() == old(Position()) + n && Put(old(dev.content), dev.content, old(Place()), data, n)
      ensures ok && n < |data| ==> offset == 0
      ensures !ok ==> Position() == old(Position()) && offset == old(offset)
      ensures UnchangedOutside(old(dev.content), dev.content, BlocksDown(old(Place())), BlocksUp(old(Place()) + |data|))
      ensures dev.healthy && old(Place()) + |data| <= |dev.content| ==> ok
    {
      hide Put, UnchangedOutside, BlocksDown, BlocksUp;
      ghost var place, c0, hi := Place(), dev.content, BlocksUp(Place() + |data|);
      if offset == 0 {
        n := BlocksDown(|data|);
        WholeBlocks(baseBlock + blockId, |data|);
        if n != 0 {
          ok := dev.WriteBlock(baseBlock + blockId, data[..n]);
          Wider(c0, dev.content, place, place + n, hi);
          if ok {
            PutNow(c0, place, data, n);
            blockId := blockId + n / BLOCK_SIZE;
          }
          return;
        }
      }
      ok, n := WritePartial(data);
      BlocksMonotone(place + n, place + |data|);
      Wider(c0, dev.content, BlocksDown(place), BlocksUp(place + n), hi);
    }

    /** Writes `data` at the position. A write that succeeds changes exactly those bytes; one that
        fails has put the bytes the position has moved over, and never touches a block outside the
        range it was given. */
    method Write(data: seq<byte>) returns (ok: bool)
      requires Valid()
      modifies this, dev
      ensures Valid() && |dev.content| == |old(dev.content)| && Position() >= old(Position())
      ensures ok ==> Position() == old(Position()) + |data|
      ensures ok && data != [] ==> old(Place()) + |data| <= |dev.content| && dev.content == Overlay(old(dev.content), old(Place()), data)
      ensures data == [] ==> dev.content == old(dev.content)
      ensures Landed(dev.content, old(Place()), data, Position() - old(Position()))
      ensures UnchangedOutside(old(dev.content), dev.content, BlocksDown(old(Place())), BlocksUp(old(Place()) + |data|))
      ensures dev.content[..baseBlock * BLOCK_SIZE] == old(dev.content)[..baseBlock * BLOCK_SIZE]
      ensures dev.healthy && old(Place()) + |data| <= |old(dev.content)| ==> ok
    {
      hide Put, UnchangedOutside, BlocksDown, BlocksUp, Landed, Overlay;
      ghost var start, c0, hi := Place(), dev.content, BlocksUp(Place() + |data|);
      PutStarts(c0, start, data);
      OutsideStarts(c0, BlocksDown(start), hi);
      var done := 0;
      while done < |data|
        invariant Valid() && done <= |data| && Place() == start + done && |dev.content| == |c0|
        invariant 0 < done < |data| ==> offset == 0
        invariant Put(c0, dev.content, start, data, done)
        invariant UnchangedOutside(c0, dev.content, BlocksDown(start), hi)
      {
        ghost var before := dev.content;
        var got, n := WriteSome(data[done..]);
        BlocksMonotone(start, start + done);
        StillOutside(c0, before, dev.content, BlocksDown(start), hi, BlocksDown(start + done), hi);
        if !got {
          PartitionIsSafe(c0, dev.content, baseBlock, old(Position()), hi);
          LandedStays(c0, before, dev.content, start, data, done, hi);
          return false;
        }
        PutGrows(c0, before, dev.content, start, data, done, n);
        done := done + n;
      }
      PartitionIsSafe(c0, dev.content, baseBlock, old(Position()), hi);
      PutWhole(c0, dev.content, start, data);
      ok := true;
    }

    /** Moves the position. The result must be a file offset of 63 bits. */
    method Seek(off: int, whence: Whence) returns (ok: bool)
      requires Valid() && -(I64_MAX as int) - 1 <= off <= I64_MAX
      modifies this
      ensures Valid()
      ensures whence.Set? ==> (ok <==> 0 <= off) && (ok ==> Position() == off)
      ensures whence.Current? ==> (ok <==> 0 <= old(Position()) + off <= I64_MAX) && (ok ==> Position() == old(Position()) + off)
      ensures whence.End? ==>
        var end := |dev.content| - baseBlock * BLOCK_SIZE; (ok <==> 0 <= end + off <= I64_MAX) && (ok ==> Position() == end + off)
      ensures (whence.Unknown? ==> !ok) && (!ok ==> Position() == old(Position()))
    {
      var target := SeekTarget(off, whence);
      ok := !whence.Unknown? && 0 <= target <= I64_MAX;
      if ok {
        SetPosition(target);
      }
    }

    /** On a healthy device, what was written is there to be read: seeking back over it and reading
        gives it back. From anywhere on, a refused seek changes nothing a read would return. */
    method WriteSeekRead(data: seq<byte>) returns (back: array<byte>)
      requires Valid() && dev.healthy && data != []
      requires Place() + |data| <= |dev.content| && Position() + |data| <= I64_MAX
      modifies this, dev
      ensures Valid() && back[..] == data && Position() == old(Position()) + |data|
    {
      var written := Write(data);
      var moved := Seek(-|data|, Current);
      var refused := Seek(-(Position() as int) - 1, Current);
      back := new byte[|data|];
      var read := Read(back);
    }

    function Size(): nat
      requires Valid()
      reads this, dev
    {
      |dev.content| - baseBlock * BLOCK_SIZE
    }

    function SeekTarget(off: int, whence: Whence): int
      requires Valid()
      reads this, dev
    {
      match whence
      case Set => off
      case Current => Position() + off
      case End => Size() + off
      case Unknown => off
    }
  }
}
