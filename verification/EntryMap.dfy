/** The entry map bit by bit (raw.rs, EntryMapState; page.rs, get_entry_state and
    set_entry_state_range): four two-bit states to a byte. */
module EntryMap {
  import opened Types
  import opened Sectors
  import opened Flash
  import opened PageOps
  import opened MemFlashModule

  /** Where the entry map starts in a sector, and its size in bytes. */
  const MAP_OFFSET := 32
  const MAP_BYTES := 32

  function StateBits(s: EntryState): byte {
    match s
    case Empty => 3
    case Written => 2
    case Illegal => 1
    case Erased => 0
  }

  function BitsState(b: byte): EntryState {
    if b == 3 then Empty else if b == 2 then Written else if b == 1 then Illegal else Erased
  }

  /** page.rs, get_entry_state, within a byte. */
  function StateIn(b: byte, slot: nat): EntryState
    requires slot < 4
  {
    BitsState((if slot == 0 then b else if slot == 1 then b >> 2 else if slot == 2 then b >> 4 else b >> 6) & 3)
  }

  /** Ones everywhere but in the slot, which holds the state. */
  function Masked(s: EntryState, slot: nat): byte
    requires slot < 4
  {
    var bits := StateBits(s);
    if slot == 0 then bits | 0xFC else if slot == 1 then (bits << 2) | 0xF3
    else if slot == 2 then (bits << 4) | 0xCF else (bits << 6) | 0x3F
  }

  function Decoded(m: seq<byte>): (r: seq<EntryState>)
    ensures |r| == 4 * |m|
  {
    seq(4 * |m|, i requires 0 <= i < 4 * |m| => StateIn(m[i / 4], i % 4))
  }

  // ---- one byte ----

  /** Bitwise AND of the bytes is AndState of the states. */
  lemma AndIn(x: byte, y: byte, slot: nat)
    requires slot < 4
    ensures StateIn(x & y, slot) == AndState(StateIn(x, slot), StateIn(y, slot))
  {
    hide BitsState;
    if slot == 0 { AndPair(x, y); ShiftedAnd(x, y, x & 3, y & 3); } else if slot == 1 {
      Shift2(x, y);
      ShiftedAnd(x >> 2, y >> 2, (x >> 2) & 3, (y >> 2) & 3);
    }
    else if slot == 2 { Shift4(x, y); ShiftedAnd(x >> 4, y >> 4, (x >> 4) & 3, (y >> 4) & 3); }
    else { Shift6(x, y); ShiftedAnd(x >> 6, y >> 6, (x >> 6) & 3, (y >> 6) & 3); }
  }

  lemma AndPair(x: byte, y: byte)
    ensures (x & y) & 3 == (x & 3) & (y & 3)
  {}

  lemma Shift2(x: byte, y: byte)
    ensures ((x & y) >> 2) & 3 == ((x >> 2) & 3) & ((y >> 2) & 3)
  {}

  lemma Shift4(x: byte, y: byte)
    ensures ((x & y) >> 4) & 3 == ((x >> 4) & 3) & ((y >> 4) & 3)
  {}

  lemma Shift6(x: byte, y: byte)
    ensures ((x & y) >> 6) & 3 == ((x >> 6) & 3) & ((y >> 6) & 3)
  {}

  lemma ShiftedAnd(x: byte, y: byte, p: byte, q: byte)
    requires p == x & 3 && q == y & 3
    ensures BitsState(p & q) == AndState(BitsState(p), BitsState(q))
  {
    TwoBits(x);
    TwoBits(y);
    AndSmall();
  }

  lemma TwoBits(x: byte)
    ensures x & 3 == 0 || x & 3 == 1 || x & 3 == 2 || x & 3 == 3
  {}

  lemma AndSmall()
    ensures (0 as byte) & 1 == 0 && (0 as byte) & 2 == 0 && (0 as byte) & 3 == 0 && (1 as byte) & 0 == 0 &&
            (2 as byte) & 0 == 0
    ensures (3 as byte) & 0 == 0
    ensures (1 as byte) & 2 == 0 && (2 as byte) & 1 == 0 && (1 as byte) & 3 == 1 && (3 as byte) & 1 == 1
    ensures (2 as byte) & 3 == 2 && (3 as byte) & 2 == 2
  {}

  lemma MaskedIn(s: EntryState, slot: nat, other: nat)
    requires slot < 4 && other < 4
    ensures StateIn(Masked(s, slot), other) == if other == slot then s else Empty
  {
    match s { case Empty => case Written => case Illegal => case Erased => }
  }

  /** One entry set: its state is ANDed in, its neighbours keep theirs. */
  lemma SetIn(b: byte, s: EntryState, slot: nat, other: nat)
    requires slot < 4 && other < 4
    ensures StateIn(b & Masked(s, slot), other) == if other == slot then AndState(StateIn(b, other), s)
            else StateIn(b, other)
  {
    hide StateIn, Masked;
    AndIn(b, Masked(s, slot), other);
    MaskedIn(s, slot, other);
  }

  // ---- a range of entries ----

  /** One entry of the whole map set. */
  lemma SetAt(m: seq<byte>, i: nat, s: EntryState)
    requires |m| == MAP_BYTES && i < MAP_SIZE
    ensures Decoded(m[i / 4 := m[i / 4] & Masked(s, i % 4)]) == Decoded(m)[i := AndState(Decoded(m)[i], s)]
  {
    hide StateIn, Masked, AndState;
    var m2 := m[i / 4 := m[i / 4] & Masked(s, i % 4)];
    forall j | 0 <= j < MAP_SIZE ensures Decoded(m2)[j] == Decoded(m)[i := AndState(Decoded(m)[i], s)][j] {
      SetOther(m, i, s, j);
    }
  }

  lemma SetOther(m: seq<byte>, i: nat, s: EntryState, j: nat)
    requires |m| == MAP_BYTES && i < MAP_SIZE && j < MAP_SIZE
    ensures StateIn(m[i / 4 := m[i / 4] & Masked(s, i % 4)][j / 4], j % 4) ==
            if j == i then AndState(StateIn(m[j / 4], j % 4), s) else StateIn(m[j / 4], j % 4)
  {
    hide StateIn, Masked, AndState;
    SetIn(m[i / 4], s, i % 4, j % 4);
  }

  lemma RangeStep(m: seq<EntryState>, lo: nat, i: nat, s: EntryState)
    requires |m| == MAP_SIZE && lo <= i < MAP_SIZE
    ensures RangeSet(m, lo, i, s)[i := AndState(RangeSet(m, lo, i, s)[i], s)] == RangeSet(m, lo, i + 1, s)
  {}

  lemma RangeNone(m: seq<EntryState>, lo: nat, s: EntryState)
    requires |m| == MAP_SIZE
    ensures RangeSet(m, lo, lo, s) == m
  {}

  /** The bytes of a map, ANDed over those of another, AND the states. */
  lemma DecodedAnd(m: seq<byte>, from: nat, bytes: seq<byte>)
    requires |m| == MAP_BYTES && from + |bytes| <= MAP_BYTES
    ensures Decoded(Programmed(m, from, bytes)) ==
            seq(MAP_SIZE, j requires 0 <= j < MAP_SIZE =>
              if 4 * from <= j < 4 * (from + |bytes|) then AndState(Decoded(m)[j], Decoded(bytes)[j - 4 * from])
                else Decoded(m)[j])
  {
    hide StateIn, AndState;
    forall j | 0 <= j < MAP_SIZE && 4 * from <= j < 4 * (from + |bytes|)
      ensures Decoded(Programmed(m, from, bytes))[j] == AndState(Decoded(m)[j], Decoded(bytes)[j - 4 * from])
    {
      assert (j - 4 * from) / 4 == j / 4 - from && (j - 4 * from) % 4 == j % 4;
      AndIn(m[j / 4], bytes[j / 4 - from], j % 4);
    }
  }

  /** page.rs, set_entry_state_range, on the bytes of the map in RAM and of the flash: the sector
      model's SetEntryStateRange is what it does to the states. */
  method SetRange(ram: array<byte>, flash: MemFlash, address: nat, lo: nat, hi: nat, state: EntryState)
    returns (ok: bool)
    requires flash.Valid() && ram.Length == MAP_BYTES && ram != flash.buf && lo < hi <= ENTRIES_PER_PAGE
    requires address % SECTOR_SIZE == 0 && address + SECTOR_SIZE <= flash.buf.Length
    modifies ram, flash.buf
    ensures ok
    ensures Decoded(ram[..]) == RangeSet(Decoded(old(ram[..])), lo, hi, state)
    ensures forall j | 0 <= j < flash.buf.Length && !(address + MAP_OFFSET <= j < address + MAP_OFFSET + MAP_BYTES) ::
              flash.buf[j] == old(flash.buf[j])
    ensures Decoded(MapAt(flash.buf[..], address)) ==
            RangeProgrammed(Sector(None, Decoded(old(MapAt(flash.buf[..], address))), ErasedSector().body),
                            Decoded(ram[..]), lo, hi, flash.wordSize).emap
  {
    hide Programmed, RangeSet, Masked, RangeProgrammed, Decoded, AndState, Pivot, WindowStart, WindowEnd, WriteSize;
    ghost var m0 := ram[..];
    RangeNone(Decoded(m0), lo, state);
    var i := lo;
    while i < hi
      invariant lo <= i <= hi && Decoded(ram[..]) == RangeSet(Decoded(m0), lo, i, state)
      invariant flash.buf[..] == old(flash.buf[..])
    {
      SetAt(ram[..], i, state);
      RangeStep(Decoded(m0), lo, i, state);
      ram[i / 4] := ram[i / 4] & Masked(state, i % 4);
      i := i + 1;
    }
    var start, end := Pivot(lo / 4, flash.wordSize), Pivot((hi - 1) / 4 + flash.wordSize, flash.wordSize);
    Window(lo, hi, flash.wordSize, address);
    ghost var f0 := flash.buf[..];
    ok := flash.WriteAligned(address + MAP_OFFSET + start, ram[start .. end]);
    MapProgrammed(f0, address, start, ram[start .. end]);
    RangeDecoded(MapAt(f0, address), ram[..], lo, hi, flash.wordSize);
  }

  function MapAt(b: seq<byte>, address: nat): (m: seq<byte>)
    requires address + SECTOR_SIZE <= |b|
    ensures |m| == MAP_BYTES
  {
    b[address + MAP_OFFSET .. address + MAP_OFFSET + MAP_BYTES]
  }

  lemma Window(lo: nat, hi: nat, ws: nat, address: nat)
    requires WriteSize(ws) && lo < hi <= ENTRIES_PER_PAGE && address % SECTOR_SIZE == 0
    ensures var start, end := Pivot(lo / 4, ws), Pivot((hi - 1) / 4 + ws, ws);
            && start < end <= MAP_BYTES && (address + MAP_OFFSET + start) % ws == 0
            && Pivot(end - start + ws - 1, ws) == end - start
            && 4 * start == WindowStart(lo, ws) && 4 * end == WindowEnd(hi, ws)
  {
    var start, end := Pivot(lo / 4, ws), Pivot((hi - 1) / 4 + ws, ws);
    WindowFits(hi, ws);
    hide Pivot;
    SectorUnits(address, ws);
    SumOfUnits(address, MAP_OFFSET, ws);
    SumOfUnits(address + MAP_OFFSET, start, ws);
    SumOfUnits(end, start, ws);
    UnitsUp(end - start, ws);
  }

  lemma MapProgrammed(b: seq<byte>, address: nat, start: nat, bytes: seq<byte>)
    requires address + SECTOR_SIZE <= |b| && start + |bytes| <= MAP_BYTES
    ensures MapAt(Programmed(b, address + MAP_OFFSET + start, bytes), address)
         == Programmed(MapAt(b, address), start, bytes)
    ensures forall j | 0 <= j < |b| && !(address + MAP_OFFSET <= j < address + MAP_OFFSET + MAP_BYTES) ::
              Programmed(b, address + MAP_OFFSET + start, bytes)[j] == b[j]
  {}

  lemma RangeDecoded(m: seq<byte>, ram: seq<byte>, lo: nat, hi: nat, ws: nat)
    requires |m| == MAP_BYTES == |ram| && WriteSize(ws) && lo < hi <= ENTRIES_PER_PAGE
    requires var start, end := Pivot(lo / 4, ws), Pivot((hi - 1) / 4 + ws, ws);
             start < end <= MAP_BYTES && 4 * start == WindowStart(lo, ws) && 4 * end == WindowEnd(hi, ws)
    ensures var start, end := Pivot(lo / 4, ws), Pivot((hi - 1) / 4 + ws, ws);
            Decoded(Programmed(m, start, ram[start .. end])) ==
            RangeProgrammed(Sector(None, Decoded(m), ErasedSector().body), Decoded(ram), lo, hi, ws).emap
  {
    hide Pivot, WindowStart, WindowEnd, Programmed, StateIn, AndState;
    var start, end := Pivot(lo / 4, ws), Pivot((hi - 1) / 4 + ws, ws);
    DecodedAnd(m, start, ram[start .. end]);
    DecodedSlice(ram, start, end);
  }

  lemma DecodedSlice(m: seq<byte>, start: nat, end: nat)
    requires start <= end <= |m|
    ensures Decoded(m[start .. end]) == Decoded(m)[4 * start .. 4 * end]
  {
    hide StateIn;
    forall j | 0 <= j < 4 * (end - start) ensures Decoded(m[start .. end])[j] == Decoded(m)[4 * start .. 4 * end][j] {
      assert (4 * start + j) / 4 == start + j / 4 && (4 * start + j) % 4 == j % 4;
    }
  }

  /** With RAM and flash bitmaps equal before, they are equal after on every byte, and exactly the
      range has changed. */
  lemma StaysEqual(m: seq<byte>, lo: nat, hi: nat, state: EntryState, ws: nat)
    requires |m| == MAP_BYTES && WriteSize(ws) && lo < hi <= ENTRIES_PER_PAGE
    ensures var s := Sector(None, Decoded(m), ErasedSector().body);
            RangeProgrammed(s, RangeSet(s.emap, lo, hi, state), lo, hi, ws).emap == RangeSet(Decoded(m), lo, hi, state)
  {
    RangeProgrammedExact(Sector(None, Decoded(m), ErasedSector().body), lo, hi, state, ws);
  }

  /** The states tell the bytes apart: a map is its entry states. */
  lemma DecodedInjective(m: seq<byte>, n: seq<byte>)
    requires |m| == |n| && Decoded(m) == Decoded(n)
    ensures m == n
  {
    hide StateIn;
    forall i | 0 <= i < |m| ensures m[i] == n[i] {
      assert Decoded(m)[4 * i] == Decoded(n)[4 * i] && Decoded(m)[4 * i + 1] == Decoded(n)[4 * i + 1];
      assert Decoded(m)[4 * i + 2] == Decoded(n)[4 * i + 2] && Decoded(m)[4 * i + 3] == Decoded(n)[4 * i + 3];
      ByteOfStates(m[i], n[i]);
    }
  }

  lemma ByteOfStates(x: byte, y: byte)
    requires StateIn(x, 0) == StateIn(y, 0) && StateIn(x, 1) == StateIn(y, 1)
    requires StateIn(x, 2) == StateIn(y, 2) && StateIn(x, 3) == StateIn(y, 3)
    ensures x == y
  {}
}
