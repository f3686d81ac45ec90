/** Reading a blob chunk by chunk (items.rs, get_blob and blob_is_equal). `BlobRead` says what an
    index stands for, whatever its chunks hold: everything it promises, or an error. */
module BlobReads {
  import opened Types
  import opened Sectors
  import opened Flash
  import opened Pages
  import opened PageOps
  import opened Scan
  import opened Store
  import opened Instance
  import opened Lookup

  /** The data of one chunk, if it is one and its checksum holds. */
  function DataRead(c: Codec, r: Rec): Result<seq<byte>> {
    if r.item.typ != BlobData then Err(ItemTypeMismatch(r.item.typ))
    else if |r.raw| == 32 * r.item.span && DataValid(c, r) then Ok(DataOf(r))
    else Err(CorruptedData)
  }

  ghost function ChunkRead(h: Hal, ps: seq<ThinPage>, k: FullKey, chunk: nat): Result<seq<byte>>
    requires HalOk(h)
  {
    match LookupKey(h, ps, k, chunk)
    case None => Err(CorruptedData)
    case Some(s) => DataRead(h.codec, s.loc.rec)
  }

  function Join(x: Result<seq<byte>>, y: Result<seq<byte>>): Result<seq<byte>> {
    if x.Err? then x else if y.Err? then y else Ok(x.value + y.value)
  }

  /** The chunks from, .., n - 1 one after another. */
  ghost function Assemble(h: Hal, ps: seq<ThinPage>, k: FullKey, from: nat, n: nat): Result<seq<byte>>
    requires HalOk(h)
  {
    if n <= from then Ok([]) else Join(Assemble(h, ps, k, from, n - 1), ChunkRead(h, ps, k, n - 1))
  }

  ghost function BlobRead(h: Hal, ps: seq<ThinPage>, k: FullKey, it: Item): Result<seq<byte>>
    requires HalOk(h) && it.data.Index?
  {
    if it.data.size > MAX_BLOB_SIZE || it.data.start + it.data.count > 255 then Err(CorruptedData)
    else
      var r := Assemble(h, ps, k, it.data.start, it.data.start + it.data.count);
      if r.Ok? && |r.value| != it.data.size then Err(CorruptedData) else r
  }

  lemma AssembleSnoc(h: Hal, ps: seq<ThinPage>, k: FullKey, from: nat, n: nat)
    requires HalOk(h) && from <= n
    ensures Assemble(h, ps, k, from, n + 1) == Join(Assemble(h, ps, k, from, n), ChunkRead(h, ps, k, n))
  {}

  lemma {:induction false} AssembleFront(h: Hal, ps: seq<ThinPage>, k: FullKey, from: nat, n: nat)
    requires HalOk(h) && from < n
    ensures var all := Assemble(h, ps, k, from, n);
            && (all.Ok? <==> ChunkRead(h, ps, k, from).Ok? && Assemble(h, ps, k, from + 1, n).Ok?)
            && (all.Ok? ==> all.value == ChunkRead(h, ps, k, from).value + Assemble(h, ps, k, from + 1, n).value)
    decreases n
  {
    hide ChunkRead, Assemble;
    AssembleSnoc(h, ps, k, from, n - 1);
    if n == from + 1 {
      AssembleNone(h, ps, k, from);
      AssembleNone(h, ps, k, n);
      assert ChunkRead(h, ps, k, from).Ok? ==>
          [] + ChunkRead(h, ps, k, from).value == ChunkRead(h, ps, k, from).value + [];
    } else {
      AssembleFront(h, ps, k, from, n - 1);
      AssembleSnoc(h, ps, k, from + 1, n - 1);
      if Assemble(h, ps, k, from, n).Ok? {
        Reassociate(ChunkRead(h, ps, k, from).value, Assemble(h, ps, k, from + 1, n - 1).value,
                    ChunkRead(h, ps, k, n - 1).value);
      }
    }
  }

  lemma AssembleNone(h: Hal, ps: seq<ThinPage>, k: FullKey, from: nat)
    requires HalOk(h)
    ensures Assemble(h, ps, k, from, from) == Ok([])
  {}

  /** If all chunks read back, the first ones do, and give a first part of the blob. */
  lemma {:induction false} AssemblePrefix(h: Hal, ps: seq<ThinPage>, k: FullKey, from: nat, mid: nat, n: nat)
    requires HalOk(h) && from <= mid <= n && Assemble(h, ps, k, from, n).Ok?
    ensures Assemble(h, ps, k, from, mid).Ok?
    ensures Assemble(h, ps, k, from, mid).value <= Assemble(h, ps, k, from, n).value
    decreases n
  {
    hide ChunkRead;
    if mid < n { AssemblePrefix(h, ps, k, from, mid, n - 1); }
  }

  /** The last ones do too, and give its end. */
  lemma {:induction false} AssembleSuffix(h: Hal, ps: seq<ThinPage>, k: FullKey, from: nat, mid: nat, n: nat)
    requires HalOk(h) && from <= mid <= n && Assemble(h, ps, k, from, n).Ok?
    ensures Assemble(h, ps, k, mid, n).Ok?
    ensures var all, end := Assemble(h, ps, k, from, n).value, Assemble(h, ps, k, mid, n).value;
            |end| <= |all| && all[|all| - |end|..] == end
    decreases mid - from
  {
    hide ChunkRead, Assemble;
    if from < mid {
      AssembleFront(h, ps, k, from, n);
      AssembleSuffix(h, ps, k, from + 1, mid, n);
      var all, rest := Assemble(h, ps, k, from, n).value, Assemble(h, ps, k, from + 1, n).value;
      var end := Assemble(h, ps, k, mid, n).value;
      assert all[|all| - |end|..] == rest[|rest| - |end|..];
    }
  }

  /** What load_item and load_referenced_data make of a chunk, in terms of the reference search. */
  lemma ChunkLoads(h: Hal, ps: seq<ThinPage>, k: FullKey, chunk: nat, f: Found, j: nat)
    requires AllLoaded(h, ps) && f.page < |ps| && j < |LocsOf(h, ps[f.page])|
    requires LookupKey(h, ps, k, chunk) == Some(Spot(f.page, LocsOf(h, ps[f.page])[j]))
    requires FirstMatch(LocsOf(h, ps[f.page]), j, f, k.ns, k.key, chunk)
    ensures WfItem(f.item) && ps[f.page].addr < |h.sectors|
    ensures f.item.typ != BlobData ==> ChunkRead(h, ps, k, chunk).Err?
    ensures f.item.typ == BlobData ==> f.item.data.SizedData?
    ensures f.item.typ == BlobData ==>
              var d := LoadReferencedData(h, ps[f.page], f.index, f.item);
              ChunkRead(h, ps, k, chunk) == if d.Ok? && h.codec.crc(d.value) == f.item.data.crc then d
                else Err(CorruptedData)
  {
    hide ScanFrom, BodyOk, NoneMatches, LookupFrom;
    LoadsKept(h, ps[f.page], j);
    ScanGrounded(h.codec, h.sectors[ps[f.page].addr], 0);
    var rec := LocsOf(h, ps[f.page])[j].rec;
    if f.item.typ == BlobData && SizeFits(f.item) { LoadsData(h, ps[f.page], f.index, rec); }
  }

  /** In a sound bag, an index reads back as the value it carries. */
  lemma CarriedRead(h: Hal, ps: seq<ThinPage>, fr: seq<ThinPage>, k: FullKey, q: Rec, bytes: seq<byte>)
    requires BaseOk(h, ps, fr) && HalOk(h) && Regular(h.codec, HBag(h, k))
    requires Carries(h.codec, HBag(h, k), q, BlobValue(bytes))
    ensures q.item.data.Index? && BlobRead(h, ps, k, q.item) == Ok(bytes)
  {
    hide Typed, Bag, View, BaseOk, Assemble, Regular, Concat;
    IndexData(h.codec, q);
    var cs :| BlobOf(h.codec, HBag(h, k), q, cs, bytes);
    AssembleChunks(h, ps, fr, k, q.item.data.start, cs, |cs|);
    assert cs[..|cs|] == cs;
    AssembleBound(h, ps, k, q.item.data.start, q.item.data.start + |cs|);
  }

  lemma {:induction false} AssembleChunks(h: Hal, ps: seq<ThinPage>, fr: seq<ThinPage>, k: FullKey, start: nat,
                                          cs: seq<Rec>, n: nat)
    requires BaseOk(h, ps, fr) && HalOk(h) && Regular(h.codec, HBag(h, k)) &&
             HasChunks(h.codec, HBag(h, k), cs, start) && n <= |cs|
    ensures AllSized(cs[..n]) && Assemble(h, ps, k, start, start + n) == Ok(Concat(cs[..n]))
  {
    hide Typed, Bag, View, BaseOk, Regular, ChunkRead, Concat;
    ChunksSized(h.codec, cs, start);
    if n == 0 {
      ConcatNone();
    } else {
      AssembleChunks(h, ps, fr, k, start, cs, n - 1);
      OneChunk(h, ps, fr, k, start, cs, n - 1);
      assert cs[..n] == cs[..n - 1] + [cs[n - 1]];
      ConcatSnoc(cs[..n - 1], cs[n - 1]);
    }
  }

  lemma ConcatNone()
    ensures AllSized([]) && Concat([]) == []
  {}

  lemma ConcatSnoc(cs: seq<Rec>, r: Rec)
    requires AllSized(cs) && SizeFits(r.item) && |r.raw| == 32 * r.item.span
    ensures AllSized(cs + [r]) && Concat(cs + [r]) == Concat(cs) + DataOf(r)
  {
    assert (cs + [r])[..|cs|] == cs;
  }

  lemma ChunksSized(c: Codec, cs: seq<Rec>, start: nat)
    requires Chunks(c, cs, start) && start in {0, 0x80} && |cs| <= MAX_BLOB_CHUNK_COUNT
    ensures AllSized(cs) && forall j | 0 <= j < |cs| :: DataRead(c, cs[j]) == Ok(DataOf(cs[j]))
  {}

  lemma OneChunk(h: Hal, ps: seq<ThinPage>, fr: seq<ThinPage>, k: FullKey, start: nat, cs: seq<Rec>, j: nat)
    requires BaseOk(h, ps, fr) && HalOk(h) && Regular(h.codec, HBag(h, k)) &&
             HasChunks(h.codec, HBag(h, k), cs, start) && j < |cs|
    ensures SizeFits(cs[j].item) && |cs[j].raw| == 32 * cs[j].item.span
    ensures ChunkRead(h, ps, k, start + j) == Ok(DataOf(cs[j]))
  {
    hide Typed, Bag, View, BaseOk, LocsOf, DataRead, LookupFrom;
    ChunksSized(h.codec, cs, start);
    var a, b := BagOnPage(h, ps, fr, k, cs[j]);
    LookupHas(h, ps, 0, k, start + j, a, b);
    var x := LookupSome(h, ps, 0, k, start + j);
    var s := LookupFrom(h, ps, 0, k, start + j).value;
    LocInBag(h, ps, fr, s.page, x);
    assert s.loc.rec in HBag(h, k) && s.loc.rec.item.chunk == cs[j].item.chunk;
  }

  lemma MissingChunk(h: Hal, ps: seq<ThinPage>, k: FullKey, chunk: nat)
    requires HalOk(h) && LookupKey(h, ps, k, chunk) == None
    ensures ChunkRead(h, ps, k, chunk).Err?
  {}

  /** A chunk that does not read back, or one too many bytes, fails the whole blob. */
  lemma PartFails(h: Hal, ps: seq<ThinPage>, k: FullKey, start: nat, mid: nat, end: nat, size: nat)
    requires HalOk(h) && start <= mid <= end
    ensures Assemble(h, ps, k, start, mid).Err? || |Assemble(h, ps, k, start, mid).value| > size ==>
              Assemble(h, ps, k, start, end).Err? || |Assemble(h, ps, k, start, end).value| > size
  {
    hide ChunkRead, Assemble;
    if Assemble(h, ps, k, start, end).Ok? { AssemblePrefix(h, ps, k, start, mid, end); }
  }

  /** If the last chunks are not the end of `data`, the blob is not `data`. */
  lemma EndFails(h: Hal, ps: seq<ThinPage>, k: FullKey, start: nat, mid: nat, end: nat, data: seq<byte>)
    requires HalOk(h) && start <= mid <= end
    ensures Assemble(h, ps, k, start, end) == Ok(data) ==>
              && Assemble(h, ps, k, mid, end).Ok?
              && |Assemble(h, ps, k, mid, end).value| <= |data|
              && Assemble(h, ps, k, mid, end).value == data[|data| - |Assemble(h, ps, k, mid, end).value|..]
  {
    hide ChunkRead, Assemble;
    if Assemble(h, ps, k, start, end) == Ok(data) { AssembleSuffix(h, ps, k, start, mid, end); }
  }

  lemma SuffixSplit(x: seq<byte>, data: seq<byte>, i: nat, j: nat)
    requires i <= j <= |data| && |x| == j - i
    ensures x + data[j..] == data[i..] <==> x == data[i .. j]
  {
    assert data[i..] == data[i .. j] + data[j..];
    assert (x + data[j..])[..|x|] == x;
    assert data[i..][..|x|] == data[i .. j];
  }

  /** A page has room for 4000 bytes of a chunk. */
  lemma ChunkBound(h: Hal, ps: seq<ThinPage>, k: FullKey, chunk: nat)
    requires HalOk(h) && ChunkRead(h, ps, k, chunk).Ok?
    ensures |ChunkRead(h, ps, k, chunk).value| <= MAX_BLOB_DATA_PER_PAGE
  {
    hide ScanFrom, LookupFrom;
    var j := LookupSome(h, ps, 0, k, chunk);
    var s := LookupFrom(h, ps, 0, k, chunk).value;
    ScanGrounded(h.codec, h.sectors[ps[s.page].addr], 0);
  }

  lemma {:induction false} AssembleBound(h: Hal, ps: seq<ThinPage>, k: FullKey, start: nat, end: nat)
    requires HalOk(h) && start <= end && Assemble(h, ps, k, start, end).Ok?
    ensures |Assemble(h, ps, k, start, end).value| <= (end - start) * MAX_BLOB_DATA_PER_PAGE
    decreases end
  {
    hide ChunkRead;
    if start < end {
      AssembleBound(h, ps, k, start, end - 1);
      ChunkBound(h, ps, k, end - 1);
    }
  }
}
