/** NOR flash byte by byte (mem_flash.rs): writing clears bits, erasing sets whole sectors to ones.
    And write_aligned (raw.rs) on top of it. */
module MemFlashModule {
  import opened Types
  import opened Sectors
  import opened Flash

  const SECTOR_SIZE := 4096

  /** An access that lies inside the flash and on the alignment it needs. */
  predicate InRange(capacity: nat, start: nat, len: nat, alignment: nat)
    requires alignment > 0
  {
    start + len <= capacity && start % alignment == 0 && len % alignment == 0
  }

  /** What programming `bytes` from `start` on leaves. */
  function Programmed(b: seq<byte>, start: nat, bytes: seq<byte>): (r: seq<byte>)
    ensures |r| == |b|
  {
    seq(|b|, j requires 0 <= j < |b| => if start <= j < start + |bytes| then b[j] & bytes[j - start] else b[j])
  }

  function Filled(b: seq<byte>, start: nat, end: nat): (r: seq<byte>)
    ensures |r| == |b|
  {
    seq(|b|, j requires 0 <= j < |b| => if start <= j < end then 0xFF else b[j])
  }

  /** `wordSize` is the smallest write, four bytes in MemFlash itself and up to 32 on other parts. */
  class MemFlash {
    const wordSize: nat
    var buf: array<byte>

    ghost predicate Valid()
      reads this
    {
      WriteSize(wordSize) && buf.Length % SECTOR_SIZE == 0
    }

    constructor (pages: nat, wordSize: nat)
      requires WriteSize(wordSize)
      ensures Valid() && fresh(buf) && this.wordSize == wordSize
      ensures buf[..] == seq(SECTOR_SIZE * pages, i => 0xFF)
    {
      this.wordSize := wordSize;
      buf := new byte[SECTOR_SIZE * pages](i => 0xFF);
    }

    method Read(offset: nat, len: nat) returns (r: Option<seq<byte>>)
      requires Valid()
      ensures r.Some? <==> offset + len <= buf.Length && offset % wordSize == 0 && len % wordSize == 0
      ensures r.Some? ==> r.value == buf[offset .. offset + len]
    {
      if !InRange(buf.Length, offset, len, wordSize) { return None; }
      r := Some(buf[offset .. offset + len]);
    }

    method Erase(start: nat, end: nat) returns (ok: bool)
      requires Valid()
      modifies buf
      ensures ok <==> start <= end <= buf.Length && start % 4096 == 0 && (end - start) % 4096 == 0
      ensures buf[..] == if ok then Filled(old(buf[..]), start, end) else old(buf[..])
    {
      ok := start <= end && InRange(buf.Length, start, end - start, SECTOR_SIZE);
      if ok {
        var i := start;
        while i < end
          invariant start <= i <= end
          invariant buf[..] == Filled(old(buf[..]), start, i)
        {
          buf[i] := 0xFF;
          i := i + 1;
        }
      }
    }

    method Write(offset: nat, bytes: seq<byte>) returns (ok: bool)
      requires Valid()
      modifies buf
      ensures ok <==> offset + |bytes| <= buf.Length && offset % wordSize == 0 && |bytes| % wordSize == 0
      ensures buf[..] == if ok then Programmed(old(buf[..]), offset, bytes) else old(buf[..])
    {
      ok := InRange(buf.Length, offset, |bytes|, wordSize);
      if ok {
        var i := 0;
        ProgrammedNone(buf[..], offset);
        while i < |bytes|
          invariant i <= |bytes|
          invariant buf[..] == Programmed(old(buf[..]), offset, bytes[..i])
        {
          buf[offset + i] := buf[offset + i] & bytes[i];
          i := i + 1;
        }
        assert bytes[..i] == bytes;
      }
    }

    /** raw.rs, write_aligned: any length, padded with ones to whole writes, programs just the bytes
        given. When it fails, it has programmed nothing or whole writes from the front. */
    method WriteAligned(offset: nat, bytes: seq<byte>) returns (ok: bool)
      requires Valid()
      modifies buf
      ensures ok ==> buf[..] == Programmed(old(buf[..]), offset, bytes)
      ensures !ok ==>
                buf[..] == old(buf[..]) || buf[..] == Programmed(old(buf[..]), offset,
                bytes[..Pivot(|bytes|, wordSize)])
      ensures offset % wordSize == 0 && offset + Pivot(|bytes| + wordSize - 1, wordSize) <= buf.Length ==> ok
    {
      hide Programmed;
      ghost var b := buf[..];
      var pivot := Pivot(|bytes|, wordSize);
      Units(offset, |bytes|, wordSize);
      if |bytes| % wordSize == 0 {
        ok := Write(offset, bytes);
        return;
      }
      var head, tail := bytes[..pivot], bytes[pivot..];
      assert head + tail == bytes;
      ok := true;
      if head != [] {
        ok := Write(offset, head);
        if !ok { return; }
      } else {
        ProgrammedNone(b, offset);
      }
      if exists j :: 0 <= j < |tail| && tail[j] != 0xFF {
        ok := Write(offset + pivot, tail + Ones(wordSize - |tail|));
        ProgrammedTwice(b, offset, head, tail + Ones(wordSize - |tail|));
        assert head + (tail + Ones(wordSize - |tail|)) == bytes + Ones(wordSize - |tail|);
        ProgrammedOnes(b, offset, bytes, Ones(wordSize - |tail|));
      } else {
        ProgrammedOnes(b, offset, head, tail);
      }
    }
  }

  lemma ProgrammedNone(b: seq<byte>, start: nat)
    ensures Programmed(b, start, []) == b
  {}

  lemma ProgrammedTwice(b: seq<byte>, start: nat, x: seq<byte>, y: seq<byte>)
    ensures Programmed(Programmed(b, start, x), start + |x|, y) == Programmed(b, start, x + y)
  {}

  /** Ones clear nothing. */
  lemma ProgrammedOnes(b: seq<byte>, start: nat, x: seq<byte>, ones: seq<byte>)
    requires forall j | 0 <= j < |ones| :: ones[j] == 0xFF
    ensures Programmed(b, start, x + ones) == Programmed(b, start, x)
  {
    forall j | 0 <= j < |b| ensures Programmed(b, start, x + ones)[j] == Programmed(b, start, x)[j] { AndOnes(b[j]); }
  }

  lemma Units(offset: nat, len: nat, ws: nat)
    requires WriteSize(ws)
    ensures len % ws == 0 ==> Pivot(len + ws - 1, ws) == len
    ensures len % ws != 0 ==> Pivot(len + ws - 1, ws) == Pivot(len, ws) + ws
    ensures offset % ws == 0 ==> (offset + Pivot(len, ws)) % ws == 0
  {
    UnitsUp(len, ws);
    if offset % ws == 0 { SumOfUnits(offset, Pivot(len, ws), ws); }
  }

  lemma UnitsUp(len: nat, ws: nat)
    requires WriteSize(ws)
    ensures len % ws == 0 ==> Pivot(len + ws - 1, ws) == len
    ensures len % ws != 0 ==> Pivot(len + ws - 1, ws) == Pivot(len, ws) + ws
  {
    NextUnit(len, ws);
    hide WriteSize;
  }

  lemma NextUnit(len: nat, ws: nat)
    requires WriteSize(ws)
    ensures (len + ws - 1) / ws * ws == if len % ws == 0 then len else len / ws * ws + ws
  {
    Next2(len); Next4(len); Next8(len); Next16(len); Next32(len);
  }

  lemma SumOfUnits(x: nat, y: nat, ws: nat)
    requires WriteSize(ws) && x % ws == 0 && y % ws == 0
    ensures (x + y) % ws == 0 && (y <= x ==> (x - y) % ws == 0)
  {
    Sum2(x, y); Sum4(x, y); Sum8(x, y); Sum16(x, y); Sum32(x, y);
  }

  /** A sector is a whole number of writes. */
  lemma SectorUnits(x: nat, ws: nat)
    requires WriteSize(ws) && x % SECTOR_SIZE == 0
    ensures x % ws == 0
  {
    Sum2(x, x); Sum4(x, x); Sum8(x, x); Sum16(x, x); Sum32(x, x);
  }

  lemma Next2(n: nat)
    ensures (n + 1) / 2 * 2 == if n % 2 == 0 then n else n / 2 * 2 + 2
  {}

  lemma Sum2(x: nat, y: nat)
    ensures x % 2 == 0 && y % 2 == 0 ==> (x + y) % 2 == 0 && (y <= x ==> (x - y) % 2 == 0)
    ensures x % SECTOR_SIZE == 0 ==> x % 2 == 0
  {
    assert x == SECTOR_SIZE * (x / SECTOR_SIZE) + x % SECTOR_SIZE;
  }

  lemma Next4(n: nat)
    ensures (n + 3) / 4 * 4 == if n % 4 == 0 then n else n / 4 * 4 + 4
  {}

  lemma Sum4(x: nat, y: nat)
    ensures x % 4 == 0 && y % 4 == 0 ==> (x + y) % 4 == 0 && (y <= x ==> (x - y) % 4 == 0)
    ensures x % SECTOR_SIZE == 0 ==> x % 4 == 0
  {
    assert x == SECTOR_SIZE * (x / SECTOR_SIZE) + x % SECTOR_SIZE;
  }

  lemma Next8(n: nat)
    ensures (n + 7) / 8 * 8 == if n % 8 == 0 then n else n / 8 * 8 + 8
  {}

  lemma Sum8(x: nat, y: nat)
    ensures x % 8 == 0 && y % 8 == 0 ==> (x + y) % 8 == 0 && (y <= x ==> (x - y) % 8 == 0)
    ensures x % SECTOR_SIZE == 0 ==> x % 8 == 0
  {
    assert x == SECTOR_SIZE * (x / SECTOR_SIZE) + x % SECTOR_SIZE;
  }

  lemma Next16(n: nat)
    ensures (n + 15) / 16 * 16 == if n % 16 == 0 then n else n / 16 * 16 + 16
  {}

  lemma Sum16(x: nat, y: nat)
    ensures x % 16 == 0 && y % 16 == 0 ==> (x + y) % 16 == 0 && (y <= x ==> (x - y) % 16 == 0)
    ensures x % SECTOR_SIZE == 0 ==> x % 16 == 0
  {
    assert x == SECTOR_SIZE * (x / SECTOR_SIZE) + x % SECTOR_SIZE;
  }

  lemma Next32(n: nat)
    ensures (n + 31) / 32 * 32 == if n % 32 == 0 then n else n / 32 * 32 + 32
  {}

  lemma Sum32(x: nat, y: nat)
    ensures x % 32 == 0 && y % 32 == 0 ==> (x + y) % 32 == 0 && (y <= x ==> (x - y) % 32 == 0)
    ensures x % SECTOR_SIZE == 0 ==> x % 32 == 0
  {
    assert x == SECTOR_SIZE * (x / SECTOR_SIZE) + x % SECTOR_SIZE;
  }

  /** Programming the same bytes again changes nothing: a write that was cut off can be repeated. */
  lemma ProgrammedAgain(b: seq<byte>, start: nat, bytes: seq<byte>, n: nat)
    requires n <= |bytes|
    ensures Programmed(Programmed(b, start, bytes[..n]), start, bytes) == Programmed(b, start, bytes)
  {
    forall j | start <= j < |b| && j < start + n
      ensures (b[j] & bytes[j - start]) & bytes[j - start] == b[j] & bytes[j - start]
    {
      AndTwice(b[j], bytes[j - start]);
    }
  }

  lemma AndTwice(x: byte, y: byte)
    ensures (x & y) & y == x & y
  {}
}
