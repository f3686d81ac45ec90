/** What the data checksum of this platform is worth when the power goes (platform.rs, page.rs): which
    torn writes it always tells apart, and the one value left to check. */
module Checksums {
  import opened Types
  import opened Flash
  import opened PageOps
  import opened BlobWrites
  import opened Crc
  import opened Layout

  /** The data does not share its checksum with as many blank bytes. */
  predicate BlankSeen(data: seq<byte>) { DataCrc(Ones(|data|)) == DataCrc(data) ==> Ones(|data|) == data }

  /** With write units of up to four bytes, what a write cut in its last unit leaves never passes for
      the whole: only a write of which nothing arrived is left to the checksum. */
  lemma TornTail(ws: nat, data: seq<byte>)
    requires WriteSize(ws) && ws <= 4
    ensures TornSafe(FLASH_CODEC, ws, data) <==> BlankSeen(data)
  {
    hide DataCrc;
    var pv := Pivot(|data|, ws);
    var tail := data[pv..];
    assert data == data[..pv] + tail + [] && data[..pv] + Ones(|tail|) == data[..pv] + Ones(|tail|) + [];
    if tail != Ones(|tail|) { BurstCrc(data[..pv], tail, Ones(|tail|)); }
  }

  lemma BurstCrc(front: seq<byte>, u: seq<byte>, v: seq<byte>)
    requires |u| == |v| <= 4 && u != v
    ensures DataCrc(front + u + []) != DataCrc(front + v + [])
  {
    hide Crc32, Number;
    BurstSeen(ALL, front, u, v, []);
    NumbersApart(Crc32(ALL, front + u + []), Crc32(ALL, front + v + []));
  }

  /** Up to four bytes are safe whatever they are. */
  lemma ShortSafe(ws: nat, data: seq<byte>)
    requires WriteSize(ws) && ws <= 4 && |data| <= 4
    ensures TornSafe(FLASH_CODEC, ws, data)
  {
    hide DataCrc;
    TornTail(ws, data);
    assert [] + data + [] == data && [] + Ones(|data|) + [] == Ones(|data|);
    if data != Ones(|data|) { BurstCrc([], data, Ones(|data|)); }
  }

  /** The same for every chunk of a blob. */
  lemma TornChunks(ws: nat, data: seq<byte>)
    requires WriteSize(ws) && ws <= 4
    ensures ChunksSafe(FLASH_CODEC, ws, data) <==>
              forall i: nat, n: nat | IsChunk(data, i, n) :: BlankSeen(data[i .. i + n])
  {
    hide TornSafe, BlankSeen;
    forall i: nat, n: nat | IsChunk(data, i, n)
      ensures TornSafe(FLASH_CODEC, ws, data[i .. i + n]) <==> BlankSeen(data[i .. i + n])
    {
      TornTail(ws, data[i .. i + n]);
    }
  }
}
