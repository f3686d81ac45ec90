/** The 32 bytes of an entry, field by field (raw.rs), with the CRC of this platform (platform.rs):
    a codec as the rest of the model asks for. */
module Layout {
  import opened Types
  import opened Crc

  // ---- numbers, little-endian ----

  function Le(n: nat, width: nat): (b: seq<byte>)
    ensures |b| == width
    decreases width
  {
    if width == 0 then [] else [(n % 256) as byte] + Le(n / 256, width - 1)
  }

  function FromLe(b: seq<byte>): nat
    decreases |b|
  {
    if b == [] then 0 else b[0] as nat + 256 * FromLe(b[1..])
  }

  function Pow256(width: nat): (p: nat)
    ensures p > 0
  {
    if width == 0 then 1 else 256 * Pow256(width - 1)
  }

  lemma {:induction false} LeRoundTrip(n: nat, width: nat)
    requires n < Pow256(width)
    ensures FromLe(Le(n, width)) == n
    decreases width
  {
    hide Le, FromLe;
    LeNone();
    if width > 0 {
      LeCons(n, width);
      LeRoundTrip(n / 256, width - 1);
    }
  }

  lemma LeCons(n: nat, width: nat)
    requires width > 0
    ensures FromLe(Le(n, width)) == n % 256 + 256 * FromLe(Le(n / 256, width - 1))
  {
    LowByte(n);
    assert Le(n, width)[1..] == Le(n / 256, width - 1);
  }

  lemma LeNone()
    ensures forall n: nat :: FromLe(Le(n, 0)) == 0
  {}

  lemma LowByte(n: nat)
    ensures ((n % 256) as byte) as nat == n % 256
  {
    ByteNumber(n % 256);
  }

  lemma {:induction false} FromLeBounded(b: seq<byte>)
    ensures FromLe(b) < Pow256(|b|)
    decreases |b|
  {
    if b != [] { FromLeBounded(b[1..]); }
  }

  lemma Widths()
    ensures Pow256(1) == 256 && Pow256(2) == 0x1_0000 && Pow256(4) == 0x1_0000_0000
  {
    assert Pow256(3) == 256 * Pow256(2);
  }

  // ---- item types ----

  function TypeByte(t: ItemType): byte {
    match t
    case U8 => 0x01 case I8 => 0x11 case U16 => 0x02 case I16 => 0x12
    case U32 => 0x04 case I32 => 0x14 case U64 => 0x08 case I64 => 0x18
    case Sized => 0x21 case Blob => 0x41 case BlobData => 0x42 case BlobIndex => 0x48
    case Any => 0xFF
  }

  /** sanitize_item_type: a byte that is no type reads as Any. */
  function TypeOfByte(b: byte): ItemType {
    if b == 0x01 then U8 else if b == 0x11 then I8 else if b == 0x02 then U16 else if b == 0x12 then I16
    else if b == 0x04 then U32 else if b == 0x14 then I32 else if b == 0x08 then U64 else if b == 0x18 then I64
    else if b == 0x21 then Sized else if b == 0x41 then Blob else if b == 0x42 then BlobData else if b == 0x48
      then BlobIndex
    else Any
  }

  /** A byte reads as the type it stands for, and as Any if it stands for none. */
  lemma TypeRoundTrip(t: ItemType, b: byte)
    ensures TypeOfByte(b) == t <==> b == TypeByte(t) || (t == Any && forall u :: TypeByte(u) != b)
  {
    if TypeOfByte(b) != Any { assert b == TypeByte(TypeOfByte(b)); }
  }

  // ---- the data field ----

  function DataBytes(d: ItemData): seq<byte> {
    match d
    case Raw(bytes) => bytes
    case SizedData(size, crc) => Le(size, 2) + [0xFF, 0xFF] + Le(crc, 4)
    case Index(size, count, start) => Le(size, 4) + Le(count, 1) + Le(start, 1) + [0xFF, 0xFF]
  }

  function DataFrom(t: ItemType, b: seq<byte>): ItemData
    requires |b| == 8
  {
    if IsSizedType(t) then SizedData(FromLe(b[..2]), FromLe(b[4..8]))
    else if t == BlobIndex then Index(FromLe(b[..4]), FromLe(b[4..5]), FromLe(b[5..6]))
    else Raw(b)
  }

  lemma DataRoundTrip(it: Item)
    requires WfItem(it)
    ensures |DataBytes(it.data)| == 8 && DataFrom(it.typ, DataBytes(it.data)) == it.data
  {
    Widths();
    var b := DataBytes(it.data);
    match it.data
    case Raw(_) =>
    case SizedData(size, crc) =>
      LeRoundTrip(size, 2);
      LeRoundTrip(crc, 4);
      assert b[..2] == Le(size, 2) && b[4..8] == Le(crc, 4);
    case Index(size, count, start) =>
      LeRoundTrip(size, 4);
      LeRoundTrip(count, 1);
      LeRoundTrip(start, 1);
      assert b[..4] == Le(size, 4) && b[4..5] == Le(count, 1) && b[5..6] == Le(start, 1);
  }

  lemma DataFromWf(t: ItemType, b: seq<byte>)
    requires |b| == 8
    ensures if IsSizedType(t) then DataFrom(t, b).size < 0x1_0000 && DataFrom(t, b).crc < 0x1_0000_0000
            else t == BlobIndex ==>
              DataFrom(t, b).size < 0x1_0000_0000 && DataFrom(t, b).count < 256 && DataFrom(t, b).start < 256
  {
    Widths();
    FromLeBounded(b[..2]);
    FromLeBounded(b[4..8]);
    FromLeBounded(b[..4]);
    FromLeBounded(b[4..5]);
    FromLeBounded(b[5..6]);
  }

  // ---- an entry ----

  /** Item::calculate_crc32: header, key and data, without the CRC field itself. */
  function ItemCrc(head: seq<byte>, key: seq<byte>, data: seq<byte>): nat {
    Number(Crc32(Crc32(Crc32(ALL, head), key), data))
  }

  function Parse(b: seq<byte>): Option<Item> {
    if |b| != ITEM_SIZE then None
    else
      var t := TypeOfByte(b[1]);
      if FromLe(b[4..8]) != ItemCrc([b[0], TypeByte(t), b[2], b[3]], b[8..24], b[24..]) then None
      else Some(Item(b[0] as nat, t, b[2] as nat, b[3] as nat, b[8..24], DataFrom(t, b[24..])))
  }

  function HeadBytes(it: Item): (b: seq<byte>)
    ensures |b| == 4
  {
    [(it.ns % 256) as byte, TypeByte(it.typ), (it.span % 256) as byte, (it.chunk % 256) as byte]
  }

  function Format(it: Item): seq<byte> {
    var data := DataBytes(it.data);
    HeadBytes(it) + Le(ItemCrc(HeadBytes(it), it.key, data), 4) + it.key + data
  }

  /** calculate_hash_ref: three pieces, the low 24 bits. */
  function Hash(ns: nat, key: Key, chunk: nat): nat {
    Number(Crc32(Crc32(Crc32(ALL, [(ns % 256) as byte]), key), [(chunk % 256) as byte]) & 0xFF_FFFF)
  }

  function DataCrc(d: seq<byte>): nat { Number(Crc32(ALL, d)) }

  /** The number a word stands for, from its bytes. */
  function Number(w: word): nat {
    NatOf(ByteAt(w, 0)) + 256 * (NatOf(ByteAt(w, 8)) + 256 * (NatOf(ByteAt(w, 16)) + 256 * NatOf(ByteAt(w, 24))))
  }

  function NatOf(b: byte): nat { b as nat }

  function ByteAt(w: word, i: bv6): byte
    requires i <= 24
  {
    ((w >> i) & 0xFF) as byte
  }

  lemma NatBound(b: byte)
    ensures NatOf(b) < 256
  {}

  lemma NatsApart(a: byte, b: byte)
    ensures NatOf(a) == NatOf(b) <==> a == b
  {}

  lemma NumberBound(w: word)
    ensures Number(w) < 0x1_0000_0000
  {
    hide NatOf, ByteAt;
    NatBound(ByteAt(w, 0));
    NatBound(ByteAt(w, 8));
    NatBound(ByteAt(w, 16));
    NatBound(ByteAt(w, 24));
  }

  lemma LowDigit(a: nat, x: nat, b: nat, y: nat)
    requires a < 256 && b < 256 && a + 256 * x == b + 256 * y
    ensures a == b && x == y
  {}

  lemma SameBytesSame(a: word, b: word)
    requires ByteAt(a, 0) == ByteAt(b, 0) && ByteAt(a, 8) == ByteAt(b, 8)
    requires ByteAt(a, 16) == ByteAt(b, 16) && ByteAt(a, 24) == ByteAt(b, 24)
    ensures a == b
  {}

  lemma NatSame(a: word, b: word, i: bv6)
    requires i <= 24 && NatOf(ByteAt(a, i)) == NatOf(ByteAt(b, i))
    ensures ByteAt(a, i) == ByteAt(b, i)
  {
    hide NatOf, ByteAt;
    NatsApart(ByteAt(a, i), ByteAt(b, i));
  }

  lemma NatSmall(w: word, i: bv6)
    requires i <= 24
    ensures NatOf(ByteAt(w, i)) < 256
  {
    hide NatOf, ByteAt;
    NatBound(ByteAt(w, i));
  }

  lemma NumbersApart(a: word, b: word)
    ensures Number(a) == Number(b) <==> a == b
  {
    hide NatOf, ByteAt;
    if Number(a) == Number(b) {
      NatSmall(a, 0); NatSmall(a, 8); NatSmall(a, 16); NatSmall(a, 24);
      NatSmall(b, 0); NatSmall(b, 8); NatSmall(b, 16); NatSmall(b, 24);
      var x, y := NatOf(ByteAt(a, 16)) + 256 * NatOf(ByteAt(a, 24)), NatOf(ByteAt(b, 16)) + 256 * NatOf(ByteAt(b, 24));
      LowDigit(NatOf(ByteAt(a, 0)), NatOf(ByteAt(a, 8)) + 256 * x, NatOf(ByteAt(b, 0)), NatOf(ByteAt(b, 8)) + 256 * y);
      LowDigit(NatOf(ByteAt(a, 8)), x, NatOf(ByteAt(b, 8)), y);
      LowDigit(NatOf(ByteAt(a, 16)), NatOf(ByteAt(a, 24)), NatOf(ByteAt(b, 16)), NatOf(ByteAt(b, 24)));
      NatSame(a, b, 0);
      NatSame(a, b, 8);
      NatSame(a, b, 16);
      NatSame(a, b, 24);
      SameBytesSame(a, b);
    }
  }

  const FLASH_CODEC := Codec(Parse, Format, DataCrc, Hash)

  lemma ByteWidth(n: nat)
    requires n < 256
    ensures ((n % 256) as byte) as nat == n
  {
    ByteNumber(n);
  }

  lemma ItemRoundTrip(it: Item)
    requires WfItem(it)
    ensures |Format(it)| == ITEM_SIZE && Parse(Format(it)) == Some(it)
  {
    hide ItemCrc, Le, FromLe, TypeByte, TypeOfByte, DataBytes, DataFrom;
    DataRoundTrip(it);
    TypeRoundTrip(it.typ, TypeByte(it.typ));
    var b, data, head := Format(it), DataBytes(it.data), HeadBytes(it);
    var crc := ItemCrc(head, it.key, data);
    ItemCrcWidth(head, it.key, data);
    Widths();
    LeRoundTrip(crc, 4);
    ByteWidth(it.ns); ByteWidth(it.span); ByteWidth(it.chunk);
    assert b[4..8] == Le(crc, 4) && b[8..24] == it.key && b[24..] == data;
    assert [b[0], TypeByte(it.typ), b[2], b[3]] == head;
  }

  lemma ItemCrcWidth(head: seq<byte>, key: seq<byte>, data: seq<byte>)
    ensures ItemCrc(head, key, data) < 0x1_0000_0000
  {
    hide Crc32, Number;
    NumberBound(Crc32(Crc32(Crc32(ALL, head), key), data));
  }

  lemma ParsedWf(b: seq<byte>)
    requires Parse(b).Some?
    ensures WfItem(Parse(b).value)
  {
    hide ItemCrc, FromLe, TypeByte, TypeOfByte, DataFrom;
    DataFromWf(TypeOfByte(b[1]), b[24..]);
    DataShape(TypeOfByte(b[1]), b[24..]);
    ByteBound(b[0]); ByteBound(b[2]); ByteBound(b[3]);
  }

  lemma DataShape(t: ItemType, b: seq<byte>)
    requires |b| == 8
    ensures var d := DataFrom(t, b);
            if IsSizedType(t) then d.SizedData? else if t == BlobIndex then d.Index? else d == Raw(b)
  {}

  lemma ByteBound(b: byte)
    ensures b as nat < 256
  {}

  // ---- a blank entry is no item ----

  lemma OnesStep(c: word, d1: word, d2: word, d3: word, d4: word, n: nat)
    requires ByteStep(c, 0xFF) == d1 && ByteStep(d1, 0xFF) == d2 && ByteStep(d2, 0xFF) == d3 && ByteStep(d3, 0xFF) == d4
    ensures Feed(c, AllOnes(n + 4)) == Feed(d4, AllOnes(n))
  {
    hide ByteStep;
    FeedOnes(c, n + 3);
    FeedOnes(d1, n + 2);
    FeedOnes(d2, n + 1);
    FeedOnes(d3, n);
  }

  function AllOnes(n: nat): seq<byte> { seq(n, i => 0xFF) }

  lemma FeedOnes(c: word, n: nat)
    ensures Feed(c, AllOnes(n + 1)) == Feed(ByteStep(c, 0xFF), AllOnes(n))
  {
    hide ByteStep;
    assert AllOnes(n + 1)[1..] == AllOnes(n);
  }

  lemma Blank28()
    ensures Feed(0x0000_0000, AllOnes(28)) == Feed(0x4466_0075, AllOnes(20))
  {
    hide Feed;
    OnesStep(0x0000_0000, 0x2D02_EF8D, 0xBE26_12FF, 0x00BE_2612, 0xDEBB_20E3, 24);
    OnesStep(0xDEBB_20E3, 0x14DF_E76F, 0xF01B_4CA3, 0x622D_0693, 0x4466_0075, 20);
  }

  lemma Blank20()
    ensures Feed(0x4466_0075, AllOnes(20)) == Feed(0xD308_8D4F, AllOnes(12))
  {
    hide Feed;
    OnesStep(0x4466_0075, 0x0D29_0C3E, 0xEC6E_DB2A, 0xF655_4880, 0xC04C_39E5, 16);
    OnesStep(0xC04C_39E5, 0xFDA2_B543, 0xC22A_5D12, 0xDE79_B498, 0xD308_8D4F, 12);
  }

  lemma Blank12()
    ensures Feed(0xD308_8D4F, AllOnes(12)) == Feed(0x7F1C_DCE2, AllOnes(4))
  {
    hide Feed;
    OnesStep(0xD308_8D4F, 0xCBB2_BB01, 0x5ACE_6DA0, 0xFB8E_8208, 0x2322_E93D, 8);
    OnesStep(0x2322_E93D, 0x7549_8175, 0x0D18_23BF, 0x76D1_59B3, 0x7F1C_DCE2, 4);
  }

  lemma Blank4()
    ensures Feed(0x7F1C_DCE2, AllOnes(4)) == Feed(0x0093_54F4, AllOnes(0))
  {
    hide Feed;
    OnesStep(0x7F1C_DCE2, 0x6379_7005, 0x5D0B_6272, 0x9354_F4FF, 0x0093_54F4, 0);
  }

  /** The CRC an entry of all ones would need is not all ones. */
  lemma BlankFeed()
    ensures Feed(0, AllOnes(28)) == 0x0093_54F4
  {
    hide Feed;
    Blank28(); Blank20(); Blank12(); Blank4();
    FeedNone(0x0093_54F4);
  }

  lemma FeedNone(c: word)
    ensures Feed(c, AllOnes(0)) == c
  {}

  lemma BlankNoItem()
    ensures Parse(BLANK_ENTRY).None?
  {
    hide FromLe, Feed, Xor;
    var b := BLANK_ENTRY;
    assert b[4..8] == AllOnes(4) && b[8..24] == AllOnes(16) && b[24..] == AllOnes(8);
    assert [b[0], TypeByte(TypeOfByte(b[1])), b[2], b[3]] == AllOnes(4);
    assert AllOnes(4) + AllOnes(16) + AllOnes(8) == AllOnes(28);
    Streaming(ALL, AllOnes(4), AllOnes(16));
    Streaming(ALL, AllOnes(4) + AllOnes(16), AllOnes(8));
    BlankFeed();
    BlankWords();
    OnesNumber();
  }

  lemma BlankWords()
    ensures Xor(ALL, ALL) == 0 && Number(Xor(0x0093_54F4, ALL)) != 0xFFFF_FFFF
  {}

  lemma OnesNumber()
    ensures FromLe(AllOnes(4)) == 0xFFFF_FFFF
  {
    assert AllOnes(4)[1..] == AllOnes(3) && AllOnes(3)[1..] == AllOnes(2) && AllOnes(2)[1..] == AllOnes(1) &&
           AllOnes(1)[1..] == [];
  }

  /** The layout and the CRC together are a codec: what the rest of the model asks for can be met,
      and is met by the source's own. */
  lemma LayoutOk()
    ensures CodecOk(FLASH_CODEC)
  {
    hide Parse, Format;
    forall it: Item | WfItem(it) ensures |Format(it)| == ITEM_SIZE && Parse(Format(it)) == Some(it) {
      ItemRoundTrip(it);
    }
    forall b: seq<byte> | Parse(b).Some? ensures WfItem(Parse(b).value) { ParsedWf(b); }
    BlankNoItem();
    forall d: seq<byte> ensures DataCrc(d) < 0x1_0000_0000 { NumberBound(Crc32(ALL, d)); }
  }
}
