/** A sector as its 4096 bytes: 32 of header, 32 of entry map, 126 entries (raw.rs, RawPage). What
    the flash does to the bytes is what the sector model does to the sector. */
module Image {
  import opened Types
  import opened Sectors
  import opened Flash
  import opened PageOps
  import opened MemFlashModule
  import opened EntryMap
  import opened Crc
  import opened Layout

  const BODY_OFFSET := 64

  /** The state words, least significant byte first: each clears one more bit than the one before. */
  function StateBytes(s: PageState): (b: seq<byte>)
    ensures |b| == 4
  {
    match s
    case Uninitialized => [0xFF, 0xFF, 0xFF, 0xFF]
    case Active => [0xFE, 0xFF, 0xFF, 0xFF]
    case Full => [0xFC, 0xFF, 0xFF, 0xFF]
    case Freeing => [0xF8, 0xFF, 0xFF, 0xFF]
    case Corrupt => [0xF0, 0xFF, 0xFF, 0xFF]
    case Invalid => [0, 0, 0, 0]
  }

  /** PageState::from: a word that is no state reads as Corrupt. */
  function BytesState(b: seq<byte>): PageState {
    if b == StateBytes(Uninitialized) then Uninitialized else if b == StateBytes(Active) then Active
    else if b == StateBytes(Full) then Full else if b == StateBytes(Freeing) then Freeing
    else if b == StateBytes(Invalid) then Invalid else Corrupt
  }

  function HeaderOf(b: seq<byte>): Option<Header>
    requires |b| == 32
  {
    if b == Ones(32) then None
    else Some(Header(BytesState(b[..4]), FromLe(b[4..8]), FromLe(b[28..]) == Number(Crc32(ALL, b[4..28]))))
  }

  function SectorAt(b: seq<byte>, address: nat): (s: Sector)
    requires address + SECTOR_SIZE <= |b|
    ensures Shape(s)
  {
    Sector(HeaderOf(b[address .. address + 32]), Decoded(b[address + 32 .. address + 64]),
           b[address + 64 .. address + SECTOR_SIZE])
  }

  lemma StatesApart(s: PageState)
    ensures BytesState(StateBytes(s)) == s
  {
    if s == Corrupt {
      assert StateBytes(s)[0] == 0xF0;
    }
  }

  // ---- erasing ----

  lemma ErasedImage(b: seq<byte>, address: nat)
    requires address + SECTOR_SIZE <= |b|
    ensures SectorAt(Filled(b, address, address + SECTOR_SIZE), address) == ErasedSector()
  {
    var t := Filled(b, address, address + SECTOR_SIZE);
    assert t[address .. address + 32] == Ones(32);
    assert t[address + 32 .. address + 64] == Ones(32);
    BlankStates();
    assert t[address + 64 .. address + SECTOR_SIZE] == ErasedSector().body;
  }

  lemma BlankStates()
    ensures Decoded(Ones(32)) == ErasedSector().emap
  {
    hide StateIn;
    forall slot: nat | slot < 4 ensures StateIn(0xFF, slot) == Empty { BlankSlot(slot); }
  }

  lemma BlankSlot(slot: nat)
    requires slot < 4
    ensures StateIn(0xFF, slot) == Empty
  {}

  // ---- programming ----

  lemma Inside(b: seq<byte>, start: nat, bytes: seq<byte>, lo: nat, hi: nat)
    requires lo <= start && start + |bytes| <= hi <= |b|
    ensures Programmed(b, start, bytes)[lo .. hi] == Programmed(b[lo .. hi], start - lo, bytes)
  {}

  lemma Outside(b: seq<byte>, start: nat, bytes: seq<byte>, lo: nat, hi: nat)
    requires lo <= hi <= |b| && (hi <= start || start + |bytes| <= lo)
    ensures Programmed(b, start, bytes)[lo .. hi] == b[lo .. hi]
  {}

  /** A write stays in its sector. */
  lemma OtherSector(b: seq<byte>, start: nat, bytes: seq<byte>, other: nat)
    requires other + SECTOR_SIZE <= |b| && (other + SECTOR_SIZE <= start || start + |bytes| <= other)
    ensures SectorAt(Programmed(b, start, bytes), other) == SectorAt(b, other)
  {
    hide HeaderOf, Decoded, Programmed;
    Outside(b, start, bytes, other, other + 32);
    Outside(b, start, bytes, other + 32, other + 64);
    Outside(b, start, bytes, other + 64, other + SECTOR_SIZE);
  }

  lemma BodyImage(b: seq<byte>, address: nat, off: nat, bytes: seq<byte>)
    requires address + SECTOR_SIZE <= |b| && off + |bytes| <= BODY_SIZE
    ensures SectorAt(Programmed(b, address + BODY_OFFSET + off, bytes), address)
         == ProgramBytes(SectorAt(b, address), off, bytes)
  {
    hide HeaderOf, Decoded, Programmed;
    var start := address + BODY_OFFSET + off;
    Outside(b, start, bytes, address, address + 32);
    Outside(b, start, bytes, address + 32, address + 64);
    Inside(b, start, bytes, address + 64, address + SECTOR_SIZE);
    BodyBytes(SectorAt(b, address), off, bytes);
  }

  lemma BodyBytes(s: Sector, off: nat, bytes: seq<byte>)
    requires Shape(s) && off + |bytes| <= BODY_SIZE
    ensures ProgramBytes(s, off, bytes).body == Programmed(s.body, off, bytes)
  {}

  lemma MapImage(b: seq<byte>, address: nat, from: nat, bytes: seq<byte>)
    requires address + SECTOR_SIZE <= |b| && from + |bytes| <= MAP_BYTES
    ensures SectorAt(Programmed(b, address + MAP_OFFSET + from, bytes), address)
         == ProgramMap(SectorAt(b, address), 4 * from, Decoded(bytes))
  {
    hide HeaderOf, Programmed, Decoded;
    var start := address + MAP_OFFSET + from;
    Outside(b, start, bytes, address, address + 32);
    Inside(b, start, bytes, address + 32, address + 64);
    Outside(b, start, bytes, address + 64, address + SECTOR_SIZE);
    DecodedAnd(b[address + 32 .. address + 64], from, bytes);
    assert SectorAt(Programmed(b, start, bytes), address).emap
        == ProgramMap(SectorAt(b, address), 4 * from, Decoded(bytes)).emap;
  }

  // ---- headers ----

  /** page.rs, initialize. */
  function NewHeader(sequence: nat): (b: seq<byte>)
    ensures |b| == 32
  {
    var mid := Le(sequence, 4) + [0xFE] + Ones(19);
    StateBytes(Active) + mid + Le(Number(Crc32(ALL, mid)), 4)
  }

  lemma AndBlank(bytes: seq<byte>)
    ensures Programmed(Ones(|bytes|), 0, bytes) == bytes
  {
    forall j | 0 <= j < |bytes| ensures Programmed(Ones(|bytes|), 0, bytes)[j] == bytes[j] { AndOnes(bytes[j]); }
  }

  /** A header written on a blank one is read back, and its CRC holds. */
  lemma InitializeImage(b: seq<byte>, address: nat, sequence: nat)
    requires address + SECTOR_SIZE <= |b| && sequence < 0x1_0000_0000 && SectorAt(b, address).header.None?
    ensures SectorAt(Programmed(b, address, NewHeader(sequence)), address)
         == SectorAt(b, address).(header := Some(AndHeader(None, Header(Active, sequence, true))))
  {
    hide Programmed, Decoded, NewHeader;
    HeaderPart(b, address, NewHeader(sequence));
    AndBlank(NewHeader(sequence));
    NewHeaderRead(sequence);
  }

  lemma HeaderPart(b: seq<byte>, address: nat, bytes: seq<byte>)
    requires address + SECTOR_SIZE <= |b| && |bytes| <= 32
    ensures var t := Programmed(b, address, bytes);
            && SectorAt(t, address) == SectorAt(b, address).(header := HeaderOf(t[address .. address + 32]))
            && t[address .. address + 32] == Programmed(b[address .. address + 32], 0, bytes)
  {
    hide HeaderOf, Programmed, Decoded;
    Inside(b, address, bytes, address, address + 32);
    Outside(b, address, bytes, address + 32, address + 64);
    Outside(b, address, bytes, address + 64, address + SECTOR_SIZE);
  }

  lemma NewHeaderRead(sequence: nat)
    requires sequence < 0x1_0000_0000
    ensures HeaderOf(NewHeader(sequence)) == Some(Header(Active, sequence, true))
  {
    hide Le, FromLe, Crc32, Number, Pow256, BytesState, StateBytes;
    var h := NewHeader(sequence);
    var mid := Le(sequence, 4) + [0xFE] + Ones(19);
    var crc := Number(Crc32(ALL, mid));
    NumberBound(Crc32(ALL, mid));
    Widths();
    LeRoundTrip(sequence, 4);
    LeRoundTrip(crc, 4);
    Parts(StateBytes(Active), mid, Le(crc, 4));
    assert mid[..4] == Le(sequence, 4);
    StatesApart(Active);
    NotBlank(h, Active);
  }

  lemma Parts(x: seq<byte>, mid: seq<byte>, y: seq<byte>)
    requires |x| == 4 && |mid| == 24 && |y| == 4
    ensures var h := x + mid + y; h[..4] == x && h[4..28] == mid && h[28..] == y && h[4..8] == mid[..4]
  {}

  /** page.rs, mark_as_full and mark_as_freeing: the state words of a written header AND to the later
      state; sequence and CRC, which leaves the state out, are untouched. */
  lemma StateImage(b: seq<byte>, address: nat, was: PageState, state: PageState)
    requires address + SECTOR_SIZE <= |b| && was != Uninitialized
    requires b[address .. address + 4] == StateBytes(was)
    ensures SectorAt(Programmed(b, address, StateBytes(state)), address) == WithState(SectorAt(b, address), state)
  {
    hide Programmed, Decoded, FromLe, Crc32, StateBytes, BytesState;
    HeaderPart(b, address, StateBytes(state));
    var h := b[address .. address + 32];
    assert h[..4] == b[address .. address + 4];
    HeaderAnd(h, was, state);
  }

  lemma HeaderAnd(h: seq<byte>, was: PageState, state: PageState)
    requires |h| == 32 && h[..4] == StateBytes(was) && was != Uninitialized
    ensures HeaderOf(h).Some? && HeaderOf(Programmed(h, 0, StateBytes(state))) == Some(AndHeaderState(HeaderOf(h),
            state))
  {
    hide FromLe, Crc32, BytesState, StateBytes;
    var h2 := Programmed(h, 0, StateBytes(state));
    assert h2[4..] == h[4..];
    assert h2[4..8] == h2[4..][..4] && h[4..8] == h[4..][..4];
    assert h2[4..28] == h2[4..][..24] && h[4..28] == h[4..][..24];
    assert h2[28..] == h2[4..][24..] && h[28..] == h[4..][24..];
    StateAnd(h, was, state);
    StatesApart(was);
    StatesApart(AndPageState(was, state));
    NotBlank(h, was);
    NotBlank(h2, AndPageState(was, state));
  }

  lemma NotBlank(h: seq<byte>, s: PageState)
    requires |h| == 32 && h[..4] == StateBytes(s) && s != Uninitialized
    ensures h != Ones(32)
  {
    assert h[0] == StateBytes(s)[0] != 0xFF;
  }

  /** Programming one state word over another leaves the later of the two. */
  lemma StateAnd(h: seq<byte>, was: PageState, state: PageState)
    requires |h| == 32 && h[..4] == StateBytes(was)
    ensures Programmed(h, 0, StateBytes(state))[..4] == StateBytes(AndPageState(was, state))
  {
    hide StateBytes, Programmed;
    forall j: nat | j < 4 ensures Programmed(h, 0, StateBytes(state))[j] == StateBytes(AndPageState(was, state))[j] {
      assert h[j] == h[..4][j];
      StateByte(was, state, j);
      ProgrammedByte(h, StateBytes(state), j);
    }
    assert forall j: nat | j < 4 ::
             Programmed(h, 0, StateBytes(state))[..4][j] == Programmed(h, 0, StateBytes(state))[j];
  }

  lemma ProgrammedByte(h: seq<byte>, bytes: seq<byte>, j: nat)
    requires j < |bytes| <= |h|
    ensures Programmed(h, 0, bytes)[j] == h[j] & bytes[j]
  {}

  lemma StateByte(x: PageState, y: PageState, j: nat)
    requires j < 4
    ensures StateBytes(x)[j] & StateBytes(y)[j] == StateBytes(AndPageState(x, y))[j]
  {
    StateBits(x, j);
    StateBits(y, j);
    StateBits(AndPageState(x, y), j);
    hide StateBytes;
    BitsAnd();
  }

  /** The byte by the rank of the state. */
  function RankByte(r: nat, j: nat): byte {
    if r >= 5 then 0 else if j > 0 then 0xFF
    else if r == 0 then 0xFF else if r == 1 then 0xFE else if r == 2 then 0xFC else if r == 3 then 0xF8 else 0xF0
  }

  lemma StateBits(x: PageState, j: nat)
    requires j < 4
    ensures StateBytes(x)[j] == RankByte(Rank(x), j)
  {
    match x { case Uninitialized => case Active => case Full => case Freeing => case Corrupt => case Invalid => }
  }

  lemma BitsAnd()
    ensures forall r: nat, q: nat, j: nat | r <= q ::
              RankByte(r, j) & RankByte(q, j) == RankByte(q, j) && RankByte(q, j) & RankByte(r, j) == RankByte(q, j)
  {}
}
