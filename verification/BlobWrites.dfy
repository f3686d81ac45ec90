/** Writing a blob (items.rs, set_blob and write_blob_version): chunks first, at indices no index
    owns yet, then the index that makes them count. */
module BlobWrites {
  import opened Types
  import opened Sectors
  import opened Flash
  import opened Pages
  import opened PageOps
  import opened Scan
  import opened Store
  import opened Instance
  import opened Moves
  import opened Compaction
  import opened Lookup
  import opened Transfer
  import opened Changes
  import opened BlobReads
  import opened Names
  import opened Setting

  /** types.rs, VersionOffset::invert. */
  function Invert(version: nat): nat { if version == 0 then 0x80 else 0 }

  /** The chunk indices write_blob_version can use for a version. */
  predicate VersionChunk(start: nat, chunk: nat) { start <= chunk < start + MAX_BLOB_CHUNK_COUNT }

  /** The two versions of a blob never share a chunk index, none of their indices is the one that
      means no chunk, each index tells its version, and the sweep of one version covers exactly its
      half but for the last index, which no write uses. */
  lemma VersionsApart(start: nat)
    requires start in {0, 0x80}
    ensures Invert(start) in {0, 0x80} && Invert(Invert(start)) == start != Invert(start)
    ensures NewVersion(None) == 0 && NewVersion(Some(start)) == Invert(start)
    ensures forall chunk: nat :: VersionChunk(0, chunk) <==> chunk <= 126
    ensures forall chunk: nat :: VersionChunk(0x80, chunk) <==> 128 <= chunk <= 254
    ensures forall chunk: nat :: !(VersionChunk(start, chunk) && VersionChunk(Invert(start), chunk))
    ensures !VersionChunk(start, NO_CHUNK)
    ensures forall chunk: nat | chunk < 256 :: VersionChunk(start, chunk) <==>
              VersionOf(chunk) == start && chunk != start + 0x7F
  {}

  /** The version a key's blob has, if it holds one. */
  ghost predicate HasVersion(b: multiset<Rec>, version: Option<nat>) {
    && (version.None? ==> forall q | q in b && IsHead(q) :: !q.item.data.Index?)
    && (version.Some? ==> forall q | q in b && IsHead(q) :: q.item.data.Index? && q.item.data.start == version.value)
    && (version.Some? ==> version.value in {0, 0x80})
  }

  function NewVersion(version: Option<nat>): nat { if version.Some? then Invert(version.value) else 0 }

  /** So far `cs` has been written of the version that starts at `start`. */
  ghost predicate Partial(c: Codec, b: multiset<Rec>, start: nat, cs: seq<Rec>) {
    && HasChunks(c, b, cs, start) && Unowned(b, start)
    && forall r | r in b && !IsHead(r) && VersionOf(r.item.chunk) != start :: exists q ::
         Owns(b, q, VersionOf(r.item.chunk))
  }

  /** A blob of key k is being written: every key still reads its value, and the only leftovers are
      the chunks written so far. */
  ghost predicate Writing(h: Hal, ps: seq<ThinPage>, fr: seq<ThinPage>, kv: Contents, k: FullKey, start: nat,
                          cs: seq<Rec>) {
    Open(h, ps, fr, kv, k) && Partial(h.codec, HBag(h, k), start, cs)
  }

  /** The checksum detects a torn write of every chunk the data can be cut into. */
  ghost predicate ChunksSafe(c: Codec, ws: nat, data: seq<byte>) {
    forall i: nat, n: nat | IsChunk(data, i, n) :: TornSafe(c, ws, data[i .. i + n])
  }

  /** Chunks start at whole entries, and hold whole entries but for the last. */
  predicate IsChunk(data: seq<byte>, i: nat, n: nat) {
    && i + n <= |data| && i % 32 == 0 && 1 <= n <= MAX_BLOB_DATA_PER_PAGE
    && (n % 32 == 0 || i + n == |data|)
  }

  /** The fresh pages `len` bytes take. */
  function PagesFor(len: nat): nat { (len + MAX_BLOB_DATA_PER_PAGE - 1) / MAX_BLOB_DATA_PER_PAGE }

  function IndexItem(ns: nat, key: Key, size: nat, count: nat, start: nat): Item {
    Item(ns, BlobIndex, 1, NO_CHUNK, key, Index(size, count, start))
  }

  lemma WritingStart(h: Hal, ps: seq<ThinPage>, fr: seq<ThinPage>, kv: Contents, k: FullKey, version: Option<nat>)
    requires Steady(h, ps, fr, kv) && HalOk(h) && HasVersion(HBag(h, k), version)
    ensures NewVersion(version) in {0, 0x80} && Writing(h, ps, fr, kv, k, NewVersion(version), [])
  {
    hide InstOk, Bag, View, Typed;
    var b, start := HBag(h, k), NewVersion(version);
    assert Reads(h.codec, b, Get(kv, k)) && Neat(b);
    forall q ensures !Owns(b, q, start) {}
    forall r | r in b && !IsHead(r) ensures VersionOf(r.item.chunk) != start {
      var q :| Owns(b, q, VersionOf(r.item.chunk));
    }
  }

  lemma WritingKept(h0: Hal, ps0: seq<ThinPage>, fr0: seq<ThinPage>, h: Hal, ps: seq<ThinPage>, fr: seq<ThinPage>,
                    kv: Contents, k: FullKey, start: nat, cs: seq<Rec>)
    requires Writing(h0, ps0, fr0, kv, k, start, cs) && InstOk(h, ps, fr) && SameBags(h0, h)
    ensures Writing(h, ps, fr, kv, k, start, cs)
  {
    hide InstOk, Bag, View, Reads, Neat, Partial;
    forall j: FullKey ensures Reads(h.codec, HBag(h, j), Get(kv, j)) && (j != k ==> Neat(HBag(h, j))) {
      assert HBag(h, j) == HBag(h0, j);
    }
    assert HBag(h, k) == HBag(h0, k);
  }

  lemma WritingInst(h: Hal, ps: seq<ThinPage>, fr: seq<ThinPage>, kv: Contents, k: FullKey, start: nat, cs: seq<Rec>)
    requires Writing(h, ps, fr, kv, k, start, cs)
    ensures InstOk(h, ps, fr) && HalOk(h) && Holds(h, kv) && Open(h, ps, fr, kv, k) && start in {0, 0x80}
    ensures |cs| <= MAX_BLOB_CHUNK_COUNT && AllSized(cs) && Regular(h.codec, HBag(h, k)) && Lean(h.codec, HBag(h, k))
    ensures FlashOk(h, NoGc) && Recovers(h, kv)
  {
    hide InstOk, Typed, Bag, View, FlashOk;
    ChunksSized(h.codec, cs, start);
    assert Reads(h.codec, HBag(h, k), Get(kv, k));
    InstIdle(h, ps, fr);
    HoldsRecovers(h, kv, NoGc);
  }

  // ---- a key that was not looked at ----

  /** Every key but k reads its value, and has nothing left over. */
  ghost predicate OthersHold(h: Hal, kv: Contents, k: FullKey) {
    HalOk(h) && forall j: FullKey | j != k :: Reads(h.codec, HBag(h, j), Get(kv, j)) && Neat(HBag(h, j))
  }

  lemma OthersStill(h: Hal, h2: Hal, kv: Contents, k: FullKey)
    requires OthersHold(h, kv, k) && OthersSame(h, h2, k)
    ensures OthersHold(h2, kv, k)
  {
    hide Bag, View, Reads, Neat;
    forall j: FullKey | j != k ensures Reads(h2.codec, HBag(h2, j), Get(kv, j)) && Neat(HBag(h2, j)) {
      assert HBag(h2, j) == HBag(h, j);
    }
  }

  lemma OthersSet(h: Hal, kv: Contents, k: FullKey, v: Value)
    requires OthersHold(h, kv, k)
    ensures OthersHold(h, Update(kv, k, Some(v)), k)
  {
    hide Bag, View, Reads, Neat;
  }

  lemma SteadyOthers(h: Hal, ps: seq<ThinPage>, fr: seq<ThinPage>, kv: Contents, k: FullKey)
    requires Steady(h, ps, fr, kv)
    ensures OthersHold(h, kv, k) && InstOk(h, ps, fr) && HalOk(h)
  {
    hide InstOk, Bag, View, Reads, Neat;
  }

  lemma PendingOthers(h: Hal, ps: seq<ThinPage>, fr: seq<ThinPage>, kv: Contents, k: FullKey, q: Rec, r: Rec)
    requires Pending(h, ps, fr, kv, k, q, r)
    ensures OthersHold(h, kv, k)
  {
    hide InstOk, Bag, View, Reads, Neat, Recovers, PendingBag, FirstHead;
  }

  /** A head of key k the setter did not see is on flash. */
  ghost predicate Overlooked(h: Hal, ps: seq<ThinPage>, fr: seq<ThinPage>, kv: Contents, k: FullKey, q: Rec) {
    InstOk(h, ps, fr) && HalOk(h) && q in HBag(h, k) && IsHead(q) && OthersHold(h, kv, k)
  }

  /** A blob is being written; if not `sound`, over a head that was overlooked. */
  ghost predicate WritingIf(sound: bool, h: Hal, ps: seq<ThinPage>, fr: seq<ThinPage>, kv: Contents, k: FullKey,
                            start: nat, cs: seq<Rec>, q: Rec) {
    start in {0, 0x80} && if sound then Writing(h, ps, fr, kv, k, start, cs) else Overlooked(h, ps, fr, kv, k, q)
  }

  /** The new head is written, next to the one that was overlooked if not `sound`. */
  ghost predicate WroteIf(sound: bool, h: Hal, ps: seq<ThinPage>, fr: seq<ThinPage>, kv: Contents, k: FullKey,
                          v: Value) {
    if sound then WroteHead(h, ps, fr, kv, k, v) else InstOk(h, ps, fr) && TwoHeads(h, k) && OthersHold(h, kv, k)
  }

  lemma WritingIfInst(sound: bool, h: Hal, ps: seq<ThinPage>, fr: seq<ThinPage>, kv: Contents, k: FullKey, start: nat,
                      cs: seq<Rec>, q: Rec)
    requires WritingIf(sound, h, ps, fr, kv, k, start, cs, q)
    ensures InstOk(h, ps, fr) && HalOk(h) && start in {0, 0x80} &&
            (sound ==> Writing(h, ps, fr, kv, k, start, cs) && Holds(h, kv)) && (!sound ==> OthersHold(h, kv, k))
  {
    hide InstOk, Bag, View, Partial;
    if sound { WritingInst(h, ps, fr, kv, k, start, cs); }
  }

  lemma WritingIfKept(sound: bool, h0: Hal, ps0: seq<ThinPage>, fr0: seq<ThinPage>, h: Hal, ps: seq<ThinPage>,
                      fr: seq<ThinPage>, kv: Contents, k: FullKey, start: nat, cs: seq<Rec>, q: Rec)
    requires WritingIf(sound, h0, ps0, fr0, kv, k, start, cs, q) && InstOk(h, ps, fr) && SameBags(h0, h)
    ensures WritingIf(sound, h, ps, fr, kv, k, start, cs, q)
  {
    hide InstOk, Bag, View, Writing;
    if sound {
      WritingKept(h0, ps0, fr0, h, ps, fr, kv, k, start, cs);
    } else {
      assert HBag(h, k) == HBag(h0, k);
      assert OthersSame(h0, h, k);
      OthersStill(h0, h, kv, k);
    }
  }

  lemma OverlookedAdded(h: Hal, ps: seq<ThinPage>, p: ThinPage, fr: seq<ThinPage>, kv: Contents, k: FullKey, q: Rec,
                        h2: Hal, p2: ThinPage, r: Rec)
    requires Overlooked(h, ps + [p], fr, kv, k, q) && p.state == Active && HalOk(h2) && p.addr < |h.sectors|
    requires Appended(h, p, h2, p2, r) && GoodRec(h.codec, r) && KeyOf(r.item) == k
    ensures Overlooked(h2, ps + [p2], fr, kv, k, q) && (IsHead(r) ==> TwoHeads(h2, k))
  {
    hide InstOk, Bag, View, GoodRec, Appended;
    AppendedInst(h, h2, ps, p, p2, fr, r);
    assert HBag(h2, k) == HBag(h, k) + OneOf(r, k);
    OthersAdded(h, h2, r, k);
    OthersStill(h, h2, kv, k);
    if IsHead(r) { assert BothHeads(HBag(h2, k), q, r); }
  }

  lemma OthersAdded(h: Hal, h2: Hal, r: Rec, k: FullKey)
    requires Added(h, h2, r) && KeyOf(r.item) == k
    ensures OthersSame(h, h2, k)
  {
    hide Bag, View;
    forall j: FullKey | j != k ensures HBag(h2, j) == HBag(h, j) { assert HBag(h2, j) == HBag(h, j) + OneOf(r, j); }
  }

  lemma ChunkGood(c: Codec, k: FullKey, chunk: nat, data: seq<byte>)
    requires CodecOk(c) && 0 < k.ns < 256 && chunk < 0xFF && chunk != 0x7F && |data| <= MAX_BLOB_DATA_PER_PAGE
    ensures var r := SizedRec(c, k.ns, k.key, BlobData, chunk, data);
            GoodRec(c, r) && KeyOf(r.item) == k && SizeFits(r.item) && |r.raw| == 32 * r.item.span && DataOf(r) == data
  {
    SizedTyped(c, k, BlobData, chunk, data);
  }

  lemma OverlookedFrom(h: Hal, ps: seq<ThinPage>, fr: seq<ThinPage>, kv: Contents, k: FullKey) returns (q: Rec)
    requires Steady(h, ps, fr, kv) && Get(kv, k).Some?
    ensures Overlooked(h, ps, fr, kv, k, q)
  {
    hide InstOk, Bag, View, Reads, Neat;
    SteadyOthers(h, ps, fr, kv, k);
    assert Reads(h.codec, HBag(h, k), Get(kv, k));
    OnlyHead(h.codec, HBag(h, k), Get(kv, k));
    q :| q in HBag(h, k) && IsHead(q);
  }

  lemma OverlookedInst(h: Hal, ps: seq<ThinPage>, fr: seq<ThinPage>, kv: Contents, k: FullKey, q: Rec)
    requires Overlooked(h, ps, fr, kv, k, q)
    ensures InstOk(h, ps, fr) && OthersHold(h, kv, k)
  {}

  lemma TwiceUnsteady(h: Hal, ps: seq<ThinPage>, fr: seq<ThinPage>, k: FullKey, kv: Contents)
    requires TwoHeads(h, k)
    ensures !Steady(h, ps, fr, kv)
  {
    hide TwoHeads, Holds;
    TwoHeadsUnread(h, k, kv);
  }

  lemma NothingPending(h: Hal, ps: seq<ThinPage>, fr: seq<ThinPage>, kv: Contents, k: FullKey, v: Value)
    requires WroteHead(h, ps, fr, kv, k, v) && Get(kv, k).None?
    ensures Steady(h, ps, fr, Update(kv, k, Some(v)))
  {}

  lemma HoldsInterrupted(h0: Hal, h: Hal, kv: Contents)
    requires Holds(h0, kv) && Cut(h0, h)
    ensures Recovers(h, kv)
  {
    CutRecovers(h0, h, kv);
  }

  /** The next chunk, at an index of the version being written. */
  lemma NextChunk(h: Hal, ps: seq<ThinPage>, fr: seq<ThinPage>, kv: Contents, k: FullKey, start: nat, cs: seq<Rec>,
                  data: seq<byte>)
    requires Writing(h, ps, fr, kv, k, start, cs) && HalOk(h) && 0 < k.ns < 256 && |cs| < MAX_BLOB_CHUNK_COUNT
    requires |data| <= MAX_BLOB_DATA_PER_PAGE
    ensures var r := SizedRec(h.codec, k.ns, k.key, BlobData, start + |cs|, data);
            && GoodRec(h.codec, r) && Typed(h.codec, r) && DataOf(r) == data && KeyOf(r.item) == k
            && !IsHead(r) && VersionOf(r.item.chunk) == start
            && (forall q | q in HBag(h, k) :: q.item.chunk != r.item.chunk)
            && Reads(h.codec, HBag(h, k) + multiset{r}, Get(kv, k))
            && Partial(h.codec, HBag(h, k) + multiset{r}, start, cs + [r])
  {
    hide InstOk, Bag, View, Typed, Reads, Concat;
    SizedTyped(h.codec, k, BlobData, start + |cs|, data);
    var r, b := SizedRec(h.codec, k.ns, k.key, BlobData, start + |cs|, data), HBag(h, k);
    assert Reads(h.codec, b, Get(kv, k));
    NoneAtNext(h.codec, b, start, cs, r.item.chunk);
    AddChunk(h.codec, b, Get(kv, k), r);
    AddPartial(h.codec, b, start, cs, r);
  }

  lemma NoneAtNext(c: Codec, b: multiset<Rec>, start: nat, cs: seq<Rec>, chunk: nat)
    requires Partial(c, b, start, cs) && |cs| < MAX_BLOB_CHUNK_COUNT && chunk == start + |cs|
    ensures forall q | q in b :: q.item.chunk != chunk
  {
    hide Typed;
  }

  lemma AddPartial(c: Codec, b: multiset<Rec>, start: nat, cs: seq<Rec>, r: Rec)
    requires Partial(c, b, start, cs) && |cs| < MAX_BLOB_CHUNK_COUNT && Typed(c, r) && r.item.typ == BlobData
    requires r.item.chunk == start + |cs|
    ensures Partial(c, b + multiset{r}, start, cs + [r])
  {
    hide Typed;
    var b2 := b + multiset{r};
    assert !IsHead(r);
    forall q ensures !Owns(b2, q, start) { assert !Owns(b, q, start); }
    forall x | x in b2 && !IsHead(x) && VersionOf(x.item.chunk) != start
      ensures exists q :: Owns(b2, q, VersionOf(x.item.chunk))
    {
      assert x in b;
      var q :| Owns(b, q, VersionOf(x.item.chunk));
      assert Owns(b2, q, VersionOf(x.item.chunk));
    }
  }

  lemma ChunkWritten(h: Hal, ps: seq<ThinPage>, p: ThinPage, fr: seq<ThinPage>, kv: Contents, k: FullKey, start: nat,
                     cs: seq<Rec>, data: seq<byte>, h2: Hal, p2: ThinPage)
    requires Writing(h, ps + [p], fr, kv, k, start, cs) && HalOk(h) && 0 < k.ns < 256 && |cs| < MAX_BLOB_CHUNK_COUNT
    requires |data| <= MAX_BLOB_DATA_PER_PAGE && p.state == Active && HalOk(h2) && p.addr < |h.sectors|
    requires Appended(h, p, h2, p2, SizedRec(h.codec, k.ns, k.key, BlobData, start + |cs|, data))
    ensures var r := SizedRec(h.codec, k.ns, k.key, BlobData, start + |cs|, data);
            && Writing(h2, ps + [p2], fr, kv, k, start, cs + [r])
            && AllSized(cs + [r]) && AllSized(cs) && Concat(cs + [r]) == Concat(cs) + data
  {
    hide InstOk, Bag, View, Typed, Reads, Concat, Neat, Partial, GoodRec, Appended;
    var r := SizedRec(h.codec, k.ns, k.key, BlobData, start + |cs|, data);
    NextChunk(h, ps + [p], fr, kv, k, start, cs, data);
    WritingInst(h, ps + [p], fr, kv, k, start, cs);
    AppendedInst(h, h2, ps, p, p2, fr, r);
    TypedSized(h.codec, r);
    ConcatSnoc(cs, r);
    forall j: FullKey ensures Reads(h2.codec, HBag(h2, j), Get(kv, j)) && (j != k ==> Neat(HBag(h2, j))) {
      assert HBag(h2, j) == HBag(h, j) + OneOf(r, j);
      if j != k { assert HBag(h2, j) == HBag(h, j); }
    }
  }

  lemma TypedSized(c: Codec, r: Rec)
    requires Typed(c, r) && r.item.typ == BlobData
    ensures SizeFits(r.item) && |r.raw| == 32 * r.item.span
  {}

  lemma ChunkTorn(h: Hal, ps: seq<ThinPage>, p: ThinPage, fr: seq<ThinPage>, kv: Contents, k: FullKey, start: nat,
                  cs: seq<Rec>, data: seq<byte>, h2: Hal)
    requires Writing(h, ps + [p], fr, kv, k, start, cs) && HalOk(h) && 0 < k.ns < 256 && |cs| < MAX_BLOB_CHUNK_COUNT
    requires |data| <= MAX_BLOB_DATA_PER_PAGE && p.state == Active && HalOk(h2) && p.addr < |h.sectors|
    requires TornAppend(h, p, h2, SizedRec(h.codec, k.ns, k.key, BlobData, start + |cs|, data))
    ensures Recovers(h2, kv)
  {
    hide InstOk, Bag, View, Typed, Reads, Concat, Neat, Partial, GoodRec, TornAppend, FlashOk, Recovers;
    var r := SizedRec(h.codec, k.ns, k.key, BlobData, start + |cs|, data);
    NextChunk(h, ps + [p], fr, kv, k, start, cs, data);
    WritingInst(h, ps + [p], fr, kv, k, start, cs);
    TornInst(h, h2, ps, p, fr, r);
    if SameBags(h, h2) {
      KeptRecovers(h, h2, kv);
    } else {
      forall j: FullKey ensures Reads(h2.codec, HBag(h2, j), Get(kv, j)) {
        assert HBag(h2, j) == HBag(h, j) + OneOf(r, j);
        if j != k { assert HBag(h2, j) == HBag(h, j); }
      }
      HoldsRecovers(h2, kv, NoGc);
    }
  }

  /** With all chunks written, the index is a head that carries the data. */
  lemma IndexHead(h: Hal, ps: seq<ThinPage>, p: ThinPage, fr: seq<ThinPage>, kv: Contents, k: FullKey, start: nat,
                  cs: seq<Rec>, data: seq<byte>)
    requires Writing(h, ps + [p], fr, kv, k, start, cs) && HalOk(h) && 0 < k.ns < 256 && p.state == Active
    requires AllSized(cs) && Concat(cs) == data && |data| < MAX_BLOB_SIZE
    ensures var it := IndexItem(k.ns, k.key, |data|, |cs|, start);
            && Writable(h, p) && !IsFull(p) && WfItem(it) && Proper(it)
            && NewHead(h, k, ScalarRec(h.codec, it), BlobValue(data))
  {
    hide InstOk, Bag, View, Reads, Neat, Concat, Partial, Typed, Carries, GoodRec, Writable, WfItem, Open;
    WritingInst(h, ps + [p], fr, kv, k, start, cs);
    ActiveWritable(h, ps, p, fr);
    var it := IndexItem(k.ns, k.key, |data|, |cs|, start);
    var r, b := ScalarRec(h.codec, it), HBag(h, k);
    IndexTyped(h.codec, k, |data|, |cs|, start);
    IndexCarries(h.codec, b, start, cs, r, data);
    IndexNeat(h.codec, b, start, cs, r);
    IndexDiffers(h.codec, b, start, cs, r);
  }

  /** The page takes the index. */
  lemma IndexReady(sound: bool, h: Hal, ps: seq<ThinPage>, p: ThinPage, fr: seq<ThinPage>, kv: Contents, k: FullKey,
                   start: nat, cs: seq<Rec>, q: Rec, data: seq<byte>)
    requires WritingIf(sound, h, ps + [p], fr, kv, k, start, cs, q) && 0 < k.ns < 256 && p.state == Active
    requires AllSized(cs) && Concat(cs) == data && |data| < MAX_BLOB_SIZE && |cs| <= MAX_BLOB_CHUNK_COUNT
    ensures HalOk(h) && Writable(h, p) && !IsFull(p)
    ensures WfItem(IndexItem(k.ns, k.key, |data|, |cs|, start)) && Proper(IndexItem(k.ns, k.key, |data|, |cs|, start))
    ensures sound ==> Open(h, ps + [p], fr, kv, k)
    ensures sound ==> NewHead(h, k, ScalarRec(h.codec, IndexItem(k.ns, k.key, |data|, |cs|, start)), BlobValue(data))
  {
    hide InstOk, Bag, View, Writing, NewHead, Open, Concat, AllSized, Overlooked, Typed, GoodRec, Writable;
    WritingIfInst(sound, h, ps + [p], fr, kv, k, start, cs, q);
    ActiveWritable(h, ps, p, fr);
    IndexTyped(h.codec, k, |data|, |cs|, start);
    if sound {
      WritingInst(h, ps + [p], fr, kv, k, start, cs);
      IndexHead(h, ps, p, fr, kv, k, start, cs, data);
    }
  }

  lemma IndexWritten(sound: bool, h: Hal, ps: seq<ThinPage>, p: ThinPage, fr: seq<ThinPage>, kv: Contents, k: FullKey,
                     start: nat, cs: seq<Rec>, q: Rec, data: seq<byte>, h2: Hal, p2: ThinPage)
    requires WritingIf(sound, h, ps + [p], fr, kv, k, start, cs, q) && 0 < k.ns < 256 && p.state == Active && HalOk(h)
    requires AllSized(cs) && Concat(cs) == data && |data| < MAX_BLOB_SIZE && |cs| <= MAX_BLOB_CHUNK_COUNT
    requires HalOk(h2) && p.addr < |h.sectors|
    requires Appended(h, p, h2, p2, ScalarRec(h.codec, IndexItem(k.ns, k.key, |data|, |cs|, start)))
    ensures WroteIf(sound, h2, ps + [p2], fr, kv, k, BlobValue(data))
  {
    hide InstOk, Bag, View, Writing, NewHead, Open, Concat, AllSized, Typed, GoodRec, Writable, Appended, Overlooked,
         TwoHeads, WroteHead;
    var r := ScalarRec(h.codec, IndexItem(k.ns, k.key, |data|, |cs|, start));
    IndexReady(sound, h, ps, p, fr, kv, k, start, cs, q, data);
    IndexTyped(h.codec, k, |data|, |cs|, start);
    if sound {
      WroteHeadFrom(h, ps, p, fr, kv, h2, p2, k, r, BlobValue(data));
    } else {
      OverlookedAdded(h, ps, p, fr, kv, k, q, h2, p2, r);
      OverlookedInst(h2, ps + [p2], fr, kv, k, q);
    }
  }

  lemma TornBudget(h: Hal, p: ThinPage, h2: Hal, r: Rec)
    requires HalOk(h) && p.addr < |h.sectors| && TornAppend(h, p, h2, r)
    ensures h2.budget == Some(0)
  {}

  lemma IndexTyped(c: Codec, k: FullKey, size: nat, count: nat, start: nat)
    requires CodecOk(c) && 0 < k.ns < 256 && size < 0x1_0000_0000 && count <= MAX_BLOB_CHUNK_COUNT && start in {0, 0x80}
    ensures var it := IndexItem(k.ns, k.key, size, count, start); var r := ScalarRec(c, it);
            WfItem(it) && Proper(it) && Typed(c, r) && GoodRec(c, r) && IsHead(r) && KeyOf(it) == k
  {
    var it := IndexItem(k.ns, k.key, size, count, start);
    assert WfItem(it);
    assert |c.format(it)| == 32;
  }

  lemma IndexCarries(c: Codec, b: multiset<Rec>, start: nat, cs: seq<Rec>, r: Rec, data: seq<byte>)
    requires Partial(c, b, start, cs) && Typed(c, r) && IsHead(r) && r.item.typ == BlobIndex &&
             r.item.data == Index(|data|, |cs|, start)
    requires AllSized(cs) && Concat(cs) == data
    ensures Carries(c, b + multiset{r}, r, BlobValue(data))
  {
    hide Typed, Concat;
    var b2 := b + multiset{r};
    forall j | 0 <= j < |cs| ensures cs[j] in b2 { assert cs[j] in b; }
    assert BlobOf(c, b2, r, cs, data);
  }

  lemma IndexNeat(c: Codec, b: multiset<Rec>, start: nat, cs: seq<Rec>, r: Rec)
    requires Partial(c, b, start, cs) && IsHead(r) && r.item.typ == BlobIndex && r.item.data.Index? &&
             r.item.data.start == start
    ensures Neat(b + multiset{r})
  {
    hide Typed, HasChunks;
    var b2 := b + multiset{r};
    forall x | x in b2 && !IsHead(x) ensures exists q :: Owns(b2, q, VersionOf(x.item.chunk)) {
      assert x in b;
      if VersionOf(x.item.chunk) == start {
        assert Owns(b2, r, VersionOf(x.item.chunk));
      } else {
        var q :| Owns(b, q, VersionOf(x.item.chunk));
        assert Owns(b2, q, VersionOf(x.item.chunk));
      }
    }
  }

  lemma IndexDiffers(c: Codec, b: multiset<Rec>, start: nat, cs: seq<Rec>, r: Rec)
    requires Partial(c, b, start, cs) && Regular(c, b) && r.item.data.Index? && r.item.data.start == start
    ensures forall q | q in b && IsHead(q) :: !SameVersion(q, r)
  {
    hide HasChunks;
    forall q | q in b && IsHead(q) ensures !SameVersion(q, r) {
      assert Typed(c, q);
      assert !Owns(b, q, start);
    }
  }

  /** After a failed write, sweeping the version it gave up leaves no trace of it. */
  lemma SweptClean(h: Hal, ps: seq<ThinPage>, fr: seq<ThinPage>, kv: Contents, k: FullKey, start: nat, cs: seq<Rec>,
                   h2: Hal)
    requires Writing(h, ps, fr, kv, k, start, cs) && HalOk(h)
    requires OthersSame(h, h2, k) && Shed(HBag(h, k), HBag(h2, k), start)
    ensures Holds(h2, kv)
    ensures NoChunks(HBag(h2, k), start, MAX_BLOB_CHUNK_COUNT) ==> AllNeat(h2)
  {
    hide InstOk, Bag, View, Typed, Reads, Concat, Neat, Shed, HasChunks;
    var b, b2 := HBag(h, k), HBag(h2, k);
    WritingInst(h, ps, fr, kv, k, start, cs);
    assert Reads(h.codec, b, Get(kv, k));
    ShedReads(h.codec, b, b2, start, Get(kv, k));
    forall j: FullKey ensures Reads(h2.codec, HBag(h2, j), Get(kv, j)) && (j != k ==> Neat(HBag(h2, j))) {
      if j != k { assert HBag(h2, j) == HBag(h, j); }
    }
    if NoChunks(b2, start, MAX_BLOB_CHUNK_COUNT) {
      ReadsRegular(h.codec, b2, Get(kv, k));
      SweptAll(h.codec, b2, start);
      SweptNeat(h.codec, b, start, cs, b2);
    }
  }

  lemma SweptNeat(c: Codec, b: multiset<Rec>, start: nat, cs: seq<Rec>, b2: multiset<Rec>)
    requires Partial(c, b, start, cs) && Shed(b, b2, start)
    requires forall x | x in b2 && !IsHead(x) :: VersionOf(x.item.chunk) != start
    ensures Neat(b2)
  {
    hide HasChunks;
    forall x | x in b2 && !IsHead(x) ensures exists q :: Owns(b2, q, VersionOf(x.item.chunk)) {
      assert x in b;
      var q :| Owns(b, q, VersionOf(x.item.chunk));
      assert q in b2;
      assert Owns(b2, q, VersionOf(x.item.chunk));
    }
  }

  /** One chunk fewer pages are needed once a fresh page took its 4000 bytes or all that is left. */
  lemma PagesStep(left: nat, n: nat)
    requires left > 0 && (n == MAX_BLOB_DATA_PER_PAGE <= left || (n == left && left <= MAX_BLOB_DATA_PER_PAGE))
    ensures PagesFor(left - n) == PagesFor(left) - 1
  {}

  lemma PagesMono(x: nat, y: nat)
    requires x <= y
    ensures PagesFor(x) <= PagesFor(y)
  {}

  lemma PagesLeft(left: nat, n: nat, whole: bool)
    requires n <= left && (whole ==> left > 0 && n == Min(MAX_BLOB_DATA_PER_PAGE, left))
    ensures PagesFor(left - n) <= PagesFor(left) - (if whole then 1 else 0)
  {
    if whole { PagesStep(left, n); } else { PagesMono(left - n, left); }
  }

  lemma ChunkSpan(len: nat, freeEntries: nat)
    requires 1 <= len <= (freeEntries - 1) * ITEM_SIZE && freeEntries <= ENTRIES_PER_PAGE
    ensures SpanFor(len) <= freeEntries && len <= MAX_BLOB_DATA_PER_PAGE
    ensures len == (freeEntries - 1) * ITEM_SIZE ==> SpanFor(len) == freeEntries
  {}

  lemma AppendedCounts(h: Hal, p: ThinPage, h2: Hal, p2: ThinPage, r: Rec)
    requires HalOk(h) && p.addr < |h.sectors| && Appended(h, p, h2, p2, r)
    ensures NextFree(p2) == NextFree(p) + r.item.span
  {}

  lemma SafeChunk(c: Codec, ws: nat, data: seq<byte>, i: nat, n: nat)
    requires ChunksSafe(c, ws, data) && IsChunk(data, i, n)
    ensures TornSafe(c, ws, data[i .. i + n])
  {
    hide TornSafe, IsChunk;
  }

  lemma VersionFound(h: Hal, ps: seq<ThinPage>, fr: seq<ThinPage>, kv: Contents, k: FullKey, found: Option<Found>,
                     q: Rec, version: Option<nat>)
    requires Steady(h, ps, fr, kv) && HalOk(h) && (found.None? <==> Get(kv, k).None?)
    requires found.Some? ==> q in HBag(h, k) && IsHead(q) && q.item == found.value.item && Typed(h.codec, q)
    requires version == if found.Some? && found.value.item.typ == BlobIndex && found.value.item.data.Index?
                        then Some(VersionOf(found.value.item.data.start)) else None
    ensures HasVersion(HBag(h, k), version)
  {
    hide InstOk, Bag, View, Reads;
    assert Reads(h.codec, HBag(h, k), Get(kv, k));
    OnlyHead(h.codec, HBag(h, k), Get(kv, k));
  }

  /** The version is still the key's after the namespace got its entry. */
  lemma VersionKept(h0: Hal, h: Hal, ps: seq<ThinPage>, fr: seq<ThinPage>, kv: Contents, k: FullKey,
                    version: Option<nat>, known: bool)
    requires Steady(h, ps, fr, kv) && KeysSame(h0, h) && k.ns != 0
    requires known ==> HasVersion(HBag(h0, k), version)
    requires !known ==> version.None? && Get(kv, k).None?
    ensures HalOk(h) && HasVersion(HBag(h, k), version)
  {
    hide InstOk, Bag, View, Reads;
    assert Reads(h.codec, HBag(h, k), Get(kv, k));
    OnlyHead(h.codec, HBag(h, k), Get(kv, k));
    assert HBag(h, k) == HBag(h0, k);
  }

  lemma SteadyAgain(h: Hal, ps: seq<ThinPage>, fr: seq<ThinPage>, kv: Contents)
    requires InstOk(h, ps, fr) && Holds(h, kv) && AllNeat(h)
    ensures Steady(h, ps, fr, kv)
  {}

  // ---- any value ----

  /** What a caller sets; a string comes without its terminator. */
  datatype NewValue =
    | NewPrimitive(typ: ItemType, bytes: seq<byte>)
    | NewString(text: seq<byte>)
    | NewBlob(data: seq<byte>)

  /** What a setter refuses whatever is on flash, in the order of its checks. */
  function SetRefusal(namespace: Key, key: Key, v: NewValue): Option<Error> {
    if KeyRefusal(namespace, key).Some? then KeyRefusal(namespace, key)
    else
      match v
      case NewPrimitive(typ, _) => if PrimitiveWidth(typ).None? then Some(ItemTypeMismatch(typ)) else None
      case NewString(text) => if |text| + 1 > MAX_BLOB_DATA_PER_PAGE then Some(ValueTooLong) else None
      case NewBlob(data) => if |data| + 1 > MAX_BLOB_SIZE then Some(ValueTooLong) else None
  }

  /** In numbers: a primitive has one of eight types, a string up to 3999 bytes, a blob up to 507999. */
  lemma SetLimits(namespace: Key, key: Key, v: NewValue)
    ensures KeyRefusal(namespace, key).Some? ==> SetRefusal(namespace, key, v) == KeyRefusal(namespace, key)
    ensures KeyRefusal(namespace, key).None? ==>
              && (v.NewString? ==> (SetRefusal(namespace, key, v).None? <==> |v.text| <= 3999))
              && (v.NewBlob? ==> (SetRefusal(namespace, key, v).None? <==> |v.data| <= 507999))
              && (v.NewPrimitive? ==>
                    (SetRefusal(namespace, key, v).None? <==> v.typ in {U8, I8, U16, I16, U32, I32, U64, I64}))
              && (SetRefusal(namespace, key, v).Some? ==>
                    SetRefusal(namespace, key, v).value ==
                    if v.NewPrimitive? then ItemTypeMismatch(v.typ) else ValueTooLong)
    ensures MAX_BLOB_SIZE == MAX_BLOB_CHUNK_COUNT * MAX_BLOB_DATA_PER_PAGE == 127 * 125 * 32
  {}

  /** The pages a set may take from the reserve. */
  function PagesUsed(v: NewValue): nat { if v.NewBlob? then 2 + PagesFor(|v.data|) else 2 }

  function ValueFor(v: NewValue): Value
    requires v.NewPrimitive? ==> |v.bytes| == 8 && PrimitiveWidth(v.typ).Some?
  {
    match v
    case NewPrimitive(typ, bytes) => PrimValue(typ, bytes)
    case NewString(text) => Str(text + [0])
    case NewBlob(data) => BlobValue(data)
  }

  /** The lowest bytes of a little-endian value, as many as the type is wide, and ones above them. */
  ghost predicate LowBytes(typ: ItemType, value: seq<byte>, raw: seq<byte>)
    requires |value| == 8
  {
    && typ in {U8, I8, U16, I16, U32, I32, U64, I64} && |raw| == 8
    && (typ in {U8, I8} ==> raw == value[..1] + [0xFF, 0xFF, 0xFF, 0xFF, 0xFF, 0xFF, 0xFF])
    && (typ in {U16, I16} ==> raw == value[..2] + [0xFF, 0xFF, 0xFF, 0xFF, 0xFF, 0xFF])
    && (typ in {U32, I32} ==> raw == value[..4] + [0xFF, 0xFF, 0xFF, 0xFF])
    && (typ in {U64, I64} ==> raw == value)
  }

  lemma RawLow(typ: ItemType, value: seq<byte>)
    requires PrimitiveWidth(typ).Some? && |value| == 8
    ensures LowBytes(typ, value, RawValue(typ, value))
  {
    match typ { case U8 => case I8 => case U16 => case I16 => case U32 => case I32 => case U64 => case I64 => }
  }

  /** The value that was set, as the getters find it. */
  ghost predicate IsHeld(v: Option<Value>, value: NewValue) {
    match value
    case NewPrimitive(typ, bytes) =>
      v.Some? && v.value.Prim? && v.value.typ == typ && |bytes| == 8 && LowBytes(typ, bytes, v.value.raw)
    case NewString(text) => v == Some(Str(text + [0]))
    case NewBlob(data) => v == Some(BlobValue(data))
  }

  lemma SetHeld(kv0: Contents, kv: Contents, nss: map<Key, nat>, name: Key, key: Key, value: NewValue)
    requires value.NewPrimitive? ==> |value.bytes| == 8 && PrimitiveWidth(value.typ).Some?
    requires IsSet(kv0, kv, nss, name, key, ValueFor(value))
    ensures IsHeld(Held(nss, kv, name, key), value)
  {
    HeldValue(Held(nss, kv, name, key), value);
  }

  lemma HeldValue(v: Option<Value>, value: NewValue)
    requires value.NewPrimitive? ==> |value.bytes| == 8 && PrimitiveWidth(value.typ).Some?
    requires v == Some(ValueFor(value))
    ensures IsHeld(v, value)
  {
    if value.NewPrimitive? { RawLow(value.typ, value.bytes); }
  }

  /** The data checksum tells what is written apart from what a power cut in the middle leaves. */
  ghost predicate ValueSafe(c: Codec, ws: nat, v: NewValue) {
    match v
    case NewPrimitive(_, _) => true
    case NewString(text) => TornSafe(c, ws, text + [0])
    case NewBlob(data) => ChunksSafe(c, ws, data)
  }
}
