/** Constants, entry types and error values shared by every part of the model
    (raw.rs, types.rs, error.rs). */
module Types {

  type byte = bv8

  /** A number below 256 is the value of the byte it is cast to. */
  lemma ByteNumber(n: nat)
    requires n < 256
    ensures (n as byte) as nat == n
  {
    var b := ByteOf(n);
    ByteCast(n, b);
  }

  lemma {:induction false} ByteOf(n: nat) returns (b: byte)
    requires n < 256
    ensures b as nat == n
  {
    if n == 0 { return 0; }
    var c := ByteOf(n - 1);
    ByteBelow(c, n - 1);
    ByteSuccessor(c);
    b := c + 1;
  }

  lemma ByteBelow(b: byte, n: nat)
    requires b as nat == n < 255
    ensures b != 255
  {}

  lemma ByteSuccessor(b: byte)
    requires b != 255
    ensures (b + 1) as nat == b as nat + 1
  {}

  lemma ByteCast(n: nat, b: byte)
    requires n < 256 && b as nat == n
    ensures n as byte == b
  {}

  const ITEM_SIZE := 32
  const ENTRIES_PER_PAGE := 126
  /** The entry map is 32 bytes of four two-bit states; the last two states have no entry. */
  const MAP_SIZE := 128
  const BODY_SIZE := 4032
  const MAX_BLOB_DATA_PER_PAGE := 4000
  const MAX_BLOB_CHUNK_COUNT := 127
  const MAX_BLOB_SIZE := 508000
  const NO_CHUNK := 255
  const MAX_KEY_LENGTH := 15

  datatype Option<+T> = None | Some(value: T)

  datatype Error =
    | FlashError | NamespaceNotFound | NamespaceMalformed | ValueTooLong | KeyMalformed
    | KeyNotFound | ItemTypeMismatch(typ: ItemType) | CorruptedData | FlashFull
    | TooManyNamespaces | PageFull

  datatype Result<+T> = Ok(value: T) | Err(error: Error)

  datatype Unit = Unit

  datatype ItemType =
    | U8 | I8 | U16 | I16 | U32 | I32 | U64 | I64
    | Sized | Blob | BlobData | BlobIndex | Any

  /** The width in bytes of a primitive type, None for every other type. */
  function PrimitiveWidth(t: ItemType): (w: Option<nat>)
    ensures w.Some? ==> w.value in {1, 2, 4, 8}
  {
    match t
    case U8 | I8 => Some(1)
    case U16 | I16 => Some(2)
    case U32 | I32 => Some(4)
    case U64 | I64 => Some(8)
    case _ => None
  }

  predicate IsSizedType(t: ItemType) { t in {Sized, Blob, BlobData} }

  /** A 16 byte, null-padded name. */
  type Key = k: seq<byte> | |k| == 16 witness seq(16, i => 0 as byte)

  datatype FullKey = FullKey(ns: nat, key: Key)

  /** The eight data bytes of an item, read the way its type says. */
  datatype ItemData =
    | Raw(bytes: seq<byte>)
    | SizedData(size: nat, crc: nat)
    | Index(size: nat, count: nat, start: nat)

  /** An entry that carries a valid item CRC. The CRC itself is not kept: see Codec. */
  datatype Item = Item(ns: nat, typ: ItemType, span: nat, chunk: nat, key: Key, data: ItemData)

  ghost predicate WfItem(it: Item) {
    && it.ns < 256 && it.span < 256 && it.chunk < 256
    && (if IsSizedType(it.typ) then
          it.data.SizedData? && it.data.size < 0x1_0000 && it.data.crc < 0x1_0000_0000
        else if it.typ == BlobIndex then
          it.data.Index? && it.data.size < 0x1_0000_0000 && it.data.count < 256 && it.data.start < 256
        else
          it.data.Raw? && |it.data.bytes| == 8)
  }

  const BLANK_ENTRY: seq<byte> := seq(ITEM_SIZE, i => 0xFF)

  /** What the driver takes from its platform and from the entry layout: how 32 bytes become an
      item (None if the item CRC fails), how an item becomes 32 bytes, the CRC over payload data
      and the 24-bit lookup hash. Nothing is assumed about the CRC beyond its range, and nothing
      at all about the hash: every collision is allowed. */
  datatype Codec = Codec(
    parse: seq<byte> -> Option<Item>,
    format: Item -> seq<byte>,
    crc: seq<byte> -> nat,
    hash: (nat, Key, nat) -> nat)

  ghost predicate CodecOk(c: Codec) {
    && (forall it: Item | WfItem(it) :: |c.format(it)| == ITEM_SIZE && c.parse(c.format(it)) == Some(it))
    && (forall b: seq<byte> | c.parse(b).Some? :: WfItem(c.parse(b).value))
    && c.parse(BLANK_ENTRY).None?
    && (forall d: seq<byte> :: c.crc(d) < 0x1_0000_0000)
  }

  function ItemHash(c: Codec, it: Item): nat { c.hash(it.ns, it.key, it.chunk) }

  datatype EntryState = Empty | Written | Erased | Illegal

  /** What programming `y` over `x` leaves in the two bits of an entry: 11, 10, 00 and 01 for
      Empty, Written, Erased and Illegal, so the bitwise AND. */
  function AndState(x: EntryState, y: EntryState): EntryState {
    if x == y then x else if x == Empty then y else if y == Empty then x else Erased
  }

  datatype PageState = Uninitialized | Active | Full | Freeing | Corrupt | Invalid

  function Rank(s: PageState): nat {
    match s
    case Uninitialized => 0
    case Active => 1
    case Full => 2
    case Freeing => 3
    case Corrupt => 4
    case Invalid => 5
  }

  /** Every state word clears one more bit than the one before it, so programming one over
      another leaves the later of the two. */
  function AndPageState(x: PageState, y: PageState): PageState {
    if Rank(x) <= Rank(y) then y else x
  }

  function Min(x: int, y: int): int { if x <= y then x else y }
  function Max(x: int, y: int): int { if x <= y then y else x }
}
