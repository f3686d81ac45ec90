/** Where every field is on flash and what its codes are, as ESP-IDF lays them out: in offsets and
    numbers, about the decoders alone (raw.rs). */
module OnFlash {
  import opened Types
  import opened Sectors
  import opened Flash
  import opened Pages
  import opened PageOps
  import opened Names
  import opened BlobWrites
  import opened MemFlashModule
  import opened EntryMap
  import opened Crc
  import opened Polynomial
  import opened Layout
  import opened Image

  /** A little-endian number of two and of four bytes. */
  function Le16(b: seq<byte>, at: nat): nat
    requires at + 2 <= |b|
  {
    b[at] as nat + 256 * b[at + 1] as nat
  }

  function Le32(b: seq<byte>, at: nat): nat
    requires at + 4 <= |b|
  {
    Le16(b, at) + 0x1_0000 * Le16(b, at + 2)
  }

  // ---- an entry ----

  /** The type codes: the width of a primitive, 0x10 more if it is signed, and five of their own. */
  lemma TypeCodes(b: byte)
    ensures TypeOfByte(b) in {U8, U16, U32, U64} <==> b in {1, 2, 4, 8}
    ensures TypeOfByte(b) in {I8, I16, I32, I64} <==> b in {0x11, 0x12, 0x14, 0x18}
    ensures b in {1, 2, 4, 8, 0x11, 0x12, 0x14, 0x18} <==> PrimitiveWidth(TypeOfByte(b)).Some?
    ensures PrimitiveWidth(TypeOfByte(b)).Some? ==> PrimitiveWidth(TypeOfByte(b)).value == (b & 0x0F) as nat
    ensures TypeOfByte(b) == Sized <==> b == 0x21
    ensures TypeOfByte(b) == Blob <==> b == 0x41
    ensures TypeOfByte(b) == BlobData <==> b == 0x42
    ensures TypeOfByte(b) == BlobIndex <==> b == 0x48
    ensures TypeOfByte(b) == Any <==> b !in {1, 2, 4, 8, 0x11, 0x12, 0x14, 0x18, 0x21, 0x41, 0x42, 0x48}
    ensures IsSizedType(TypeOfByte(b)) <==> b in {0x21, 0x41, 0x42}
  {}

  /** The fields of an item, by their offsets. */
  lemma EntryFields(b: seq<byte>)
    requires Parse(b).Some?
    ensures |b| == 32
    ensures var it := Parse(b).value;
            && it.ns == b[0] as nat && it.typ == TypeOfByte(b[1]) && it.span == b[2] as nat && it.chunk == b[3] as nat
            && it.key == b[8..24]
            && (IsSizedType(it.typ) ==> it.data == SizedData(Le16(b, 24), Le32(b, 28)))
            && (it.typ == BlobIndex ==> it.data == Index(Le32(b, 24), b[28] as nat, b[29] as nat))
            && (!IsSizedType(it.typ) && it.typ != BlobIndex ==> it.data == Raw(b[24..32]))
  {
    hide TypeOfByte, ItemCrc;
    var d := b[24..];
    assert d == b[24..32];
    FromTwo(d[..2]);
    FromFour(d[4..8]);
    FromFour(d[..4]);
    FromOne(d[4..5]);
    FromOne(d[5..6]);
  }

  lemma FromOne(b: seq<byte>)
    requires |b| == 1
    ensures FromLe(b) == b[0] as nat
  {
    assert FromLe(b[1..]) == 0;
  }

  lemma FromTwo(b: seq<byte>)
    requires |b| == 2
    ensures FromLe(b) == Le16(b, 0)
  {
    FromOne(b[1..]);
  }

  lemma FromFour(b: seq<byte>)
    requires |b| == 4
    ensures FromLe(b) == Le32(b, 0)
  {
    FromTwo(b[2..]);
    assert FromLe(b[1..]) == b[1] as nat + 256 * FromLe(b[1..][1..]) && b[1..][1..] == b[2..];
  }

  /** What the source makes of a type byte before anything else. */
  function Sanitized(b: seq<byte>): (e: seq<byte>)
    requires |b| == 32
    ensures |e| == 32
  {
    if b[1] in {1, 2, 4, 8, 0x11, 0x12, 0x14, 0x18, 0x21, 0x41, 0x42, 0x48} then b else b[1 := 0xFF]
  }

  /** An entry holds an item if and only if the bits of its CRC field are the complement of the
      remainder of the 28 others. */
  lemma EntryChecked(b: seq<byte>)
    requires |b| == 32
    ensures var e := Sanitized(b);
            Parse(b).Some? <==> Bits(b[4..8]) == Not(Remainder(Bits(e[..4] + e[8..]) + Zeros(32)))
  {
    hide Crc32, Bits, Remainder, TypeOfByte, Number;
    var e := Sanitized(b);
    var head := [b[0], TypeByte(TypeOfByte(b[1])), b[2], b[3]];
    SameType(b[1]);
    assert head == e[..4] && b[8..24] + b[24..] == e[8..];
    Streaming(ALL, head, b[8..24]);
    Streaming(ALL, head + b[8..24], b[24..]);
    assert head + b[8..24] + b[24..] == e[..4] + e[8..];
    FieldBits(b[4..8], Crc32(ALL, e[..4] + e[8..]));
    CrcFromOnes(e[..4] + e[8..]);
  }

  lemma SameType(b: byte)
    ensures TypeByte(TypeOfByte(b)) ==
            if b in {1, 2, 4, 8, 0x11, 0x12, 0x14, 0x18, 0x21, 0x41, 0x42, 0x48} then b else 0xFF
  {}

  /** Four bytes are the number of a word exactly if they have its bits. */
  lemma FieldBits(f: seq<byte>, w: word)
    requires |f| == 4
    ensures FromLe(f) == Number(w) <==> Bits(f) == WordBits(w)
  {
    hide Bits, BitsOf, FromLe, Number, Word;
    WordOfBits(f);
    assert Bits(f) + Zeros(0) == Bits(f);
    FromWord(f);
    NumbersApart(Word(f), w);
    if WordBits(Word(f)) == WordBits(w) { BitsApart(Word(f), w); }
  }

  lemma FromWord(f: seq<byte>)
    requires |f| == 4
    ensures FromLe(f) == Number(Word(f))
  {
    hide Xor, Low, Up;
    var u := f[1..];
    assert u[1..] == f[2..] && f[2..][1..] == f[3..] && f[3..][1..] == [];
    FromFour(f);
    WordFour(f[0], f[1], f[2], f[3]);
    assert Word(f[3..]) == Xor(Low(f[3]), Up(0));
    assert Word(f[2..]) == Xor(Low(f[2]), Up(Word(f[3..])));
    assert Word(f[1..]) == Xor(Low(f[1]), Up(Word(f[2..])));
  }

  lemma WordFour(b0: byte, b1: byte, b2: byte, b3: byte)
    ensures var w := Xor(Low(b0), Up(Xor(Low(b1), Up(Xor(Low(b2), Up(Xor(Low(b3), Up(0))))))));
            ByteAt(w, 0) == b0 && ByteAt(w, 8) == b1 && ByteAt(w, 16) == b2 && ByteAt(w, 24) == b3
  {
    hide Xor, Low, Up, ByteAt;
    var w3 := Xor(Low(b3), Up(0));
    var w2 := Xor(Low(b2), Up(w3));
    var w1 := Xor(Low(b1), Up(w2));
    PutByte(b3, 0); PutByte(b2, w3); PutByte(b1, w2); PutByte(b0, w1);
  }

  lemma PutByte(b: byte, w: word)
    ensures ByteAt(Xor(Low(b), Up(w)), 0) == b
    ensures ByteAt(Xor(Low(b), Up(w)), 8) == ByteAt(w, 0)
    ensures ByteAt(Xor(Low(b), Up(w)), 16) == ByteAt(w, 8)
    ensures ByteAt(Xor(Low(b), Up(w)), 24) == ByteAt(w, 16)
  {
    PutFirst(b, w); PutSecond(b, w); PutThird(b, w); PutFourth(b, w);
  }

  lemma PutFirst(b: byte, w: word)
    ensures ByteAt(Xor(Low(b), Up(w)), 0) == b
  {}

  lemma PutSecond(b: byte, w: word)
    ensures ByteAt(Xor(Low(b), Up(w)), 8) == ByteAt(w, 0)
  {}

  lemma PutThird(b: byte, w: word)
    ensures ByteAt(Xor(Low(b), Up(w)), 16) == ByteAt(w, 8)
  {}

  lemma PutFourth(b: byte, w: word)
    ensures ByteAt(Xor(Low(b), Up(w)), 24) == ByteAt(w, 16)
  {}

  lemma BitsApart(x: word, y: word)
    requires WordBits(x) == WordBits(y)
    ensures x == y
  {
    hide BitsOf;
    XorBits(x, y);
    assert WordBits(Xor(x, y)) == Zeros(32);
    ShiftedOut(Xor(x, y));
    BitsClear(Xor(x, y), 32);
    XorNone(x, y);
  }

  lemma XorNone(x: word, y: word)
    ensures Xor(x, y) == 0 ==> x == y
  {}

  /** Bits that are all clear leave nothing but what was shifted out above them. */
  lemma {:induction false} BitsClear(w: word, n: nat)
    requires BitsOf(w, n) == Zeros(n) && Shifted(w, n) == 0
    ensures w == 0
    decreases n
  {
    hide BitsOf, Shr, Odd;
    if n > 0 {
      BitsStep(w, n);
      assert BitsOf(Shr(w), n - 1) == Zeros(n)[1..] == Zeros(n - 1);
      assert Odd(w) == Zeros(n)[0];
      BitsClear(Shr(w), n - 1);
      ClearBit(w);
    }
  }

  lemma ClearBit(w: word)
    requires Shr(w) == 0 && !Odd(w)
    ensures w == 0
  {}

  /** The bytes nothing is kept in are left unprogrammed. */
  lemma ReservedOnes(it: Item)
    requires WfItem(it)
    ensures |Format(it)| == 32
    ensures IsSizedType(it.typ) ==> Format(it)[26] == 0xFF && Format(it)[27] == 0xFF
    ensures it.typ == BlobIndex ==> Format(it)[30] == 0xFF && Format(it)[31] == 0xFF
  {
    hide Le, ItemCrc;
    ItemRoundTrip(it);
  }

  // ---- what the writers put there ----

  /** A namespace entry: the index it gives, in the shape of a U8 of namespace 0. */
  lemma NamespaceEntry(name: Key, index: nat)
    requires index < 256
    ensures var b := Format(NamespaceItem(name, index));
            && |b| == 32 && b[..4] == [0, 0x01, 1, 0xFF] && b[8..24] == name && b[24] as nat == index
            && forall j | 25 <= j < 32 :: b[j] == 0xFF
  {
    hide ItemCrc, Le, FromLe;
    var it := NamespaceItem(name, index);
    IndexByte(index);
    ItemRoundTrip(it);
  }

  /** A primitive: its eight bytes, in one entry without a chunk index. */
  lemma PrimitiveEntry(ns: nat, key: Key, typ: ItemType, raw: seq<byte>)
    requires ns < 256 && |raw| == 8 && PrimitiveWidth(typ).Some?
    ensures var b := Format(Item(ns, typ, 1, NO_CHUNK, key, Raw(raw)));
            && |b| == 32 && b[0] as nat == ns && TypeOfByte(b[1]) == typ && b[2..4] == [1, 0xFF]
            && b[8..24] == key && b[24..32] == raw
  {
    hide ItemCrc, Le, FromLe, TypeOfByte, TypeByte;
    ItemRoundTrip(Item(ns, typ, 1, NO_CHUNK, key, Raw(raw)));
    EntryFields(Format(Item(ns, typ, 1, NO_CHUNK, key, Raw(raw))));
  }

  /** A blob index: size, number of chunks and the first chunk's index. */
  lemma IndexEntry(ns: nat, key: Key, size: nat, count: nat, start: nat)
    requires ns < 256 && size < 0x1_0000_0000 && count < 256 && start < 256
    ensures var b := Format(IndexItem(ns, key, size, count, start));
            && |b| == 32 && b[0] as nat == ns && b[1..4] == [0x48, 1, 0xFF] && b[8..24] == key
            && Le32(b, 24) == size && b[28] as nat == count && b[29] as nat == start && b[30..32] == [0xFF, 0xFF]
  {
    hide ItemCrc, Le, FromLe, DataFrom, DataBytes;
    var it := IndexItem(ns, key, size, count, start);
    ItemRoundTrip(it);
    EntryFields(Format(it));
    ReservedOnes(it);
  }

  /** A string or a chunk: a header with the size and the checksum, and in the entries after it, as
      few as hold them, the data, with nothing programmed behind. */
  lemma SizedEntries(ns: nat, key: Key, typ: ItemType, chunk: nat, data: seq<byte>)
    requires ns < 256 && chunk < 256 && IsSizedType(typ) && |data| <= MAX_BLOB_DATA_PER_PAGE
    ensures var b := SizedRec(FLASH_CODEC, ns, key, typ, chunk, data).raw;
            && |b| % 32 == 0 && |data| + 32 <= |b| < |data| + 64
            && b[0] as nat == ns && TypeOfByte(b[1]) == typ && b[2] as nat == |b| / 32 && b[3] as nat == chunk
            && b[8..24] == key && Le16(b, 24) == |data|
            && Bits(b[28..32]) == Not(Remainder(Bits(data) + Zeros(32)))
            && b[32 .. 32 + |data|] == data && forall j | 32 + |data| <= j < |b| :: b[j] == 0xFF
  {
    hide Format, Le16, Le32, TypeOfByte, Bits, Remainder;
    var it := SizedItem(FLASH_CODEC, ns, key, typ, chunk, data);
    SizedHeader(ns, key, typ, chunk, data);
    var h, pad := Format(it), Ones(32 * (it.span - 1) - |data|);
    var b := SizedRec(FLASH_CODEC, ns, key, typ, chunk, data).raw;
    ThreeParts(h, data, pad);
  }

  lemma ThreeParts(h: seq<byte>, data: seq<byte>, pad: seq<byte>)
    requires |h| == 32 && pad == Ones(|pad|)
    ensures var b := h + data + pad;
            && b[0] == h[0] && b[1] == h[1] && b[2] == h[2] && b[3] == h[3] && b[8..24] == h[8..24]
            && Le16(b, 24) == Le16(h, 24) && b[28..32] == h[28..32] && b[32 .. 32 + |data|] == data
            && forall j | 32 + |data| <= j < |b| :: b[j] == 0xFF
  {
    var b := h + data + pad;
    forall j | 32 + |data| <= j < |b| ensures b[j] == 0xFF { assert b[j] == pad[j - 32 - |data|]; }
  }

  lemma SizedHeader(ns: nat, key: Key, typ: ItemType, chunk: nat, data: seq<byte>)
    requires ns < 256 && chunk < 256 && IsSizedType(typ) && |data| <= MAX_BLOB_DATA_PER_PAGE
    ensures var h := Format(SizedItem(FLASH_CODEC, ns, key, typ, chunk, data));
            && |h| == 32 && h[0] as nat == ns && TypeOfByte(h[1]) == typ && h[2] as nat == SpanFor(|data|)
            && h[3] as nat == chunk && h[8..24] == key && Le16(h, 24) == |data|
            && Bits(h[28..32]) == Not(Remainder(Bits(data) + Zeros(32)))
  {
    hide ItemCrc, FromLe, DataFrom, DataBytes, TypeOfByte, TypeByte, Format, Parse, Bits, Remainder, Crc32, Number;
    var it := SizedItem(FLASH_CODEC, ns, key, typ, chunk, data);
    NumberBound(Crc32(ALL, data));
    ItemRoundTrip(it);
    var h := Format(it);
    EntryFields(h);
    assert Le32(h, 28) == Le32(h[28..32], 0) == Number(Crc32(ALL, data));
    FromFour(h[28..32]);
    FieldBits(h[28..32], Crc32(ALL, data));
    CrcFromOnes(data);
  }

  /** The lookup hash: the low 24 bits of the CRC over namespace, key and chunk index. */
  lemma HashIs(it: Item)
    requires WfItem(it)
    ensures ItemHash(FLASH_CODEC, it) ==
            Number(Crc32(ALL, [it.ns as byte] + it.key + [it.chunk as byte])) % 0x100_0000
  {
    hide Crc32, Number;
    Streaming(ALL, [it.ns as byte], it.key);
    Streaming(ALL, [it.ns as byte] + it.key, [it.chunk as byte]);
    LowThree(Crc32(ALL, [it.ns as byte] + it.key + [it.chunk as byte]));
  }

  lemma LowThree(w: word)
    ensures Number(w & 0xFF_FFFF) == Number(w) % 0x100_0000
  {
    hide NatOf, ByteAt;
    NatSmall(w, 0); NatSmall(w, 8); NatSmall(w, 16);
    ClearedTop(w);
    NoByte();
  }

  lemma ClearedTop(w: word)
    ensures ByteAt(w & 0xFF_FFFF, 0) == ByteAt(w, 0) && ByteAt(w & 0xFF_FFFF, 8) == ByteAt(w, 8)
    ensures ByteAt(w & 0xFF_FFFF, 16) == ByteAt(w, 16) && ByteAt(w & 0xFF_FFFF, 24) == 0
  {}

  lemma NoByte()
    ensures NatOf(0) == 0
  {}

  // ---- the sector around the entries ----

  /** The state of an entry: 11 empty, 10 written, 00 erased, 01 illegal, lowest pair first. */
  lemma StateCodes(b: byte, slot: nat)
    requires slot < 4
    ensures var pair: byte := if slot == 0 then 0x03 else if slot == 1 then 0x0C else if slot == 2 then 0x30 else 0xC0;
            && (StateIn(b, slot) == Empty <==> b & pair == pair)
            && (StateIn(b, slot) == Written <==> b & pair == pair & 0xAA)
            && (StateIn(b, slot) == Illegal <==> b & pair == pair & 0x55)
            && (StateIn(b, slot) == Erased <==> b & pair == 0)
  {}

  /** 32 bytes of header, 32 of entry map, 126 entries of 32 bytes: a whole sector. */
  lemma SectorParts(b: seq<byte>, address: nat, i: nat)
    requires address + 4096 <= |b| && i < 126
    ensures var s := SectorAt(b, address);
            && s.header == HeaderOf(b[address .. address + 32])
            && s.emap[i] == StateIn(b[address + 32 + i / 4], i % 4)
            && Entry(s, i) == b[address + 64 + 32 * i .. address + 96 + 32 * i]
    ensures SECTOR_SIZE == 4096 == 64 + 32 * 126 && ENTRIES_PER_PAGE == 126
  {
    hide HeaderOf, StateIn;
    SliceOfSlice(b, address + 64, address + 4096, 32 * i, 32 * i + 32);
  }

  /** A header: the state word, the sequence number, and the CRC over the bytes from the sequence
      number to itself. A state word that is none of the six reads as Corrupt. */
  lemma HeaderFields(b: seq<byte>)
    requires |b| == 32
    ensures HeaderOf(b).None? <==> forall j | 0 <= j < 32 :: b[j] == 0xFF
    ensures HeaderOf(b).Some? ==>
              var h := HeaderOf(b).value;
              && (h.state == Uninitialized <==> Le32(b, 0) == 0xFFFF_FFFF)
              && (h.state == Active <==> Le32(b, 0) == 0xFFFF_FFFE)
              && (h.state == Full <==> Le32(b, 0) == 0xFFFF_FFFC)
              && (h.state == Freeing <==> Le32(b, 0) == 0xFFFF_FFF8)
              && (h.state == Invalid <==> Le32(b, 0) == 0)
              && h.sequence == Le32(b, 4)
              && (h.valid <==> Bits(b[28..32]) == Not(Remainder(Bits(b[4..28]) + Zeros(32))))
  {
    hide Bits, Remainder, Crc32, Number, FromLe;
    assert b == Ones(32) <==> forall j | 0 <= j < 32 :: b[j] == 0xFF;
    StateWord(b[..4]);
    FromFour(b[4..8]);
    assert b[28..] == b[28..32];
    FieldBits(b[28..32], Crc32(ALL, b[4..28]));
    CrcFromOnes(b[4..28]);
  }

  lemma StateWord(b: seq<byte>)
    requires |b| == 4
    ensures BytesState(b) == Uninitialized <==> Le32(b, 0) == 0xFFFF_FFFF
    ensures BytesState(b) == Active <==> Le32(b, 0) == 0xFFFF_FFFE
    ensures BytesState(b) == Full <==> Le32(b, 0) == 0xFFFF_FFFC
    ensures BytesState(b) == Freeing <==> Le32(b, 0) == 0xFFFF_FFF8
    ensures BytesState(b) == Invalid <==> Le32(b, 0) == 0
  {
    hide Le32;
    StateNumbers();
    Le32Same(b, StateBytes(Uninitialized));
    Le32Same(b, StateBytes(Active));
    Le32Same(b, StateBytes(Full));
    Le32Same(b, StateBytes(Freeing));
    Le32Same(b, StateBytes(Invalid));
  }

  lemma StateNumbers()
    ensures Le32(StateBytes(Uninitialized), 0) == 0xFFFF_FFFF && Le32(StateBytes(Active), 0) == 0xFFFF_FFFE
    ensures Le32(StateBytes(Full), 0) == 0xFFFF_FFFC && Le32(StateBytes(Freeing), 0) == 0xFFFF_FFF8
    ensures Le32(StateBytes(Invalid), 0) == 0
  {}

  lemma Le32Same(x: seq<byte>, y: seq<byte>)
    requires |x| == |y| == 4
    ensures Le32(x, 0) == Le32(y, 0) <==> x == y
  {
    hide Le16;
    Le16Bound(x, 0);
    Le16Bound(y, 0);
    if Le32(x, 0) == Le32(y, 0) {
      Le16Same(x, y, 0);
      Le16Same(x, y, 2);
    }
  }

  lemma Le16Same(x: seq<byte>, y: seq<byte>, at: nat)
    requires at + 2 <= |x| && at + 2 <= |y| && Le16(x, at) == Le16(y, at)
    ensures x[at] == y[at] && x[at + 1] == y[at + 1]
  {
    Digits(x[at], x[at + 1], y[at], y[at + 1]);
  }

  lemma Digits(a: byte, b: byte, c: byte, d: byte)
    requires a as nat + 256 * b as nat == c as nat + 256 * d as nat
    ensures a == c && b == d
  {
    ByteBound(a);
    ByteBound(c);
    NatsApart(a, c);
    NatsApart(b, d);
  }

  lemma Le16Bound(b: seq<byte>, at: nat)
    requires at + 2 <= |b|
    ensures Le16(b, at) < 0x1_0000
  {}
}
