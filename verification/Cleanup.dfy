/** The boot cleanup (compaction.rs, cleanup_dirty_blobs and cleanup_duplicate_entries): what it
    knows between two steps, and what each step leaves alone. */
module Cleanup {
  import opened Types
  import opened Sectors
  import opened Flash
  import opened Pages
  import opened PageOps
  import opened Scan
  import opened Store
  import opened Instance
  import opened Moves
  import opened Lookup
  import opened Changes
  import opened Setting
  import opened Winners
  import opened Observations

  /** Key k will have the value kv says: its winner carries it. */
  ghost predicate Fated(h: Hal, kv: Contents, k: FullKey)
    requires HalOk(h)
  {
    if k.ns == 0 then Reads(h.codec, HBag(h, k), Get(kv, k)) else Wins(h.codec, View(h), k, Get(kv, k))
  }

  ghost predicate AllFated(h: Hal, kv: Contents) { HalOk(h) && forall k: FullKey :: Fated(h, kv, k) }

  ghost predicate Cleaning(h: Hal, ps: seq<ThinPage>, fr: seq<ThinPage>, kv: Contents) {
    InstOk(h, ps, fr) && AllFated(h, kv)
  }

  lemma FatedRecovers(h: Hal, kv: Contents)
    requires FlashOk(h, NoGc) && AllFated(h, kv)
    ensures RecoversIn(h, kv, NoGc)
  {
    hide FlashOk, Reads, Wins, Bag, View;
    forall k: FullKey ensures Resolves(h.codec, View(h), NoGc, k, Get(kv, k)) { assert Fated(h, kv, k); }
    assert Logical(View(h), NoGc) == View(h);
  }

  lemma CleaningFacts(h: Hal, ps: seq<ThinPage>, fr: seq<ThinPage>, kv: Contents)
    requires Cleaning(h, ps, fr, kv)
    ensures InstOk(h, ps, fr) && BaseOk(h, ps, fr) && HalOk(h) && FlashOk(h, NoGc) && RecoversIn(h, kv, NoGc)
    ensures SinglePlaces(View(h)) && SequencesDiffer(View(h))
  {
    hide FlashOk, InstOk, BaseOk, AllFated, RecoversIn, View;
    InstSequences(h, ps, fr);
    BaseHal(h, ps, fr);
    InstIdle(h, ps, fr);
    InstPlaces(h, ps, fr);
    BaseSequences(h, ps, fr);
    FatedRecovers(h, kv);
  }

  lemma FatedMixed(h: Hal, ps: seq<ThinPage>, fr: seq<ThinPage>, kv: Contents, k: FullKey)
    requires Cleaning(h, ps, fr, kv) && HalOk(h) && k.ns != 0
    ensures Wins(h.codec, View(h), k, Get(kv, k)) && Mixed(h.codec, HBag(h, k)) && Lean(h.codec, HBag(h, k))
  {
    hide InstOk, Bag, View, Typed, Consistent, Reads;
    assert Fated(h, kv, k);
  }

  // ---- one step ----

  /** A losing head of key k was erased. */
  lemma DropFated(h: Hal, ps: seq<ThinPage>, fr: seq<ThinPage>, kv: Contents, k: FullKey, at: Place, h1: Hal)
    requires Cleaning(h, ps, fr, kv) && HalOk(h) && k.ns != 0
    requires HeadOf(View(h), k, at.sequence, at.loc) && Loses(View(h), k, at)
    requires Dropped(h, h1, at.loc.rec) && Vacated(View(h), View(h1), at.sequence, at.loc.index)
    ensures AllFated(h1, kv) && OthersSame(h, h1, k) && HBag(h1, k) == HBag(h, k) - multiset{at.loc.rec}
    ensures Lean(h1.codec, HBag(h1, k))
  {
    hide InstOk, Bag, View, Reads, Wins, Loses, Has, Lean, Mixed, Dropped;
    CleaningFacts(h, ps, fr, kv);
    FatedMixed(h, ps, fr, kv, k);
    OneOfSame(h, h1, at.loc.rec, k);
    LeanLess(h.codec, HBag(h, k), HBag(h1, k));
    forall j: FullKey ensures Fated(h1, kv, j) {
      assert Fated(h, kv, j);
      if j == k {
        WinsDrop(h.codec, View(h), View(h1), k, Get(kv, k), at);
      } else {
        assert HBag(h1, j) == HBag(h, j);
        if j.ns != 0 { WinsSame(h.codec, View(h), View(h1), j, Get(kv, j)); }
      }
    }
  }

  /** Chunks of key k no index owns were erased. */
  lemma ShedFated(h: Hal, kv: Contents, k: FullKey, start: nat, h2: Hal)
    requires AllFated(h, kv) && k.ns != 0 && OthersSame(h, h2, k) && Shed(HBag(h, k), HBag(h2, k), start)
    requires SweptPlaces(View(h), View(h2), k, start) && Unowned(HBag(h, k), start)
    ensures AllFated(h2, kv)
  {
    hide Bag, View, Reads, Wins, Has, Shed, Unowned;
    forall j: FullKey ensures Fated(h2, kv, j) {
      assert Fated(h, kv, j);
      if j == k {
        WinsShed(h.codec, View(h), View(h2), k, Get(kv, k), start);
      } else {
        assert HBag(h2, j) == HBag(h, j);
        if j.ns != 0 { WinsSame(h.codec, View(h), View(h2), j, Get(kv, j)); }
      }
    }
  }

  /** Of key k, the head at `at` is gone, if given, and the chunks of one version, if given; nothing
      else is. */
  ghost predicate Cleared(h: Hal, h2: Hal, k: FullKey, at: Option<Place>, start: Option<nat>) {
    && OthersSame(h, h2, k)
    && ClearedPlaces(View(h), View(h2), k, at, start)
    && forall r :: HBag(h2, k)[r] == ClearedCount(HBag(h, k), at, start, r)
  }

  ghost predicate ClearedPlaces(vs: seq<PageView>, vs2: seq<PageView>, k: FullKey, at: Option<Place>,
                                start: Option<nat>) {
    && (forall s: nat, loc: Loc | Has(vs2, s, loc) :: Has(vs, s, loc))
    && (forall s: nat, loc: Loc | Has(vs, s, loc) && !ClearedHere(k, at, start, s, loc) :: Has(vs2, s, loc))
    && (at.Some? ==> !Has(vs2, at.value.sequence, at.value.loc))
  }

  predicate ClearedHere(k: FullKey, at: Option<Place>, start: Option<nat>, s: nat, loc: Loc) {
    || (at.Some? && SamePlaceAs(s, loc, at.value.sequence, at.value.loc))
    || (start.Some? && KeyOf(loc.rec.item) == k && IsPart(loc.rec, start.value))
  }

  function ClearedCount(b: multiset<Rec>, at: Option<Place>, start: Option<nat>, r: Rec): int {
    var n: int := b[r];
    if start.Some? && IsPart(r, start.value) then 0 else if at.Some? && r == at.value.loc.rec then n - 1 else n
  }

  lemma PlacesDrop(vs: seq<PageView>, vs1: seq<PageView>, k: FullKey, at: Place)
    requires Vacated(vs, vs1, at.sequence, at.loc.index) && Has(vs, at.sequence, at.loc)
    ensures ClearedPlaces(vs, vs1, k, Some(at), None)
  {
    hide Has;
  }

  lemma PlacesSweep(vs: seq<PageView>, vs1: seq<PageView>, vs2: seq<PageView>, k: FullKey, at: Place, start: nat)
    requires ClearedPlaces(vs, vs1, k, Some(at), None) && SweptPlaces(vs1, vs2, k, start)
    ensures ClearedPlaces(vs, vs2, k, Some(at), Some(start))
  {
    hide Has;
  }

  lemma ClearedDrop(h: Hal, k: FullKey, at: Place, h1: Hal)
    requires HalOk(h) && OthersSame(h, h1, k) && HBag(h1, k) == HBag(h, k) - multiset{at.loc.rec} && IsHead(at.loc.rec)
    requires at.loc.rec in HBag(h, k)
    requires Vacated(View(h), View(h1), at.sequence, at.loc.index)
    ensures Cleared(h, h1, k, Some(at), None)
  {
    hide Bag, View, Has;
  }

  lemma ClearedSweep(h: Hal, k: FullKey, at: Option<Place>, h1: Hal, start: nat, h2: Hal)
    requires HalOk(h) && HalOk(h1) && OthersSame(h1, h2, k) && Lean(h1.codec, HBag(h1, k)) && start in {0, 0x80}
    requires if at.Some? then IsHead(at.value.loc.rec) && Cleared(h, h1, k, at, None) else h1 == h
    requires Shed(HBag(h1, k), HBag(h2, k), start) && NoChunks(HBag(h2, k), start, MAX_BLOB_CHUNK_COUNT)
    requires SweptPlaces(View(h1), View(h2), k, start)
    ensures Cleared(h, h2, k, at, Some(start))
  {
    hide Bag, View, Has, NoChunks;
    LeanLess(h1.codec, HBag(h1, k), HBag(h2, k));
    SweptAll(h2.codec, HBag(h2, k), start);
    forall j: FullKey | j != k ensures HBag(h2, j) == HBag(h, j) {
      assert HBag(h2, j) == HBag(h1, j);
      if at.Some? { assert HBag(h1, j) == HBag(h, j); }
    }
    forall r ensures HBag(h2, k)[r] == ClearedCount(HBag(h, k), at, Some(start), r) {
      if IsPart(r, start) { assert r !in HBag(h2, k); }
      else if r in HBag(h1, k) { assert HBag(h2, k)[r] == HBag(h1, k)[r]; }
    }
  }

  // ---- what the scan noted stays true of what is not touched ----

  function KeyFor(bk: BlobKey): FullKey { FullKey(bk.ns, bk.key) }

  ghost predicate Noted(h: Hal, bk: BlobKey, o: Observed)
    requires HalOk(h)
  {
    && bk.ns != 0 && bk.start in {0, 0x80}
    && (o.index.None? ==> forall s: nat, loc: Loc | Has(View(h), s, loc) :: !IsIndexOf(loc.rec.item, bk))
    && (o.index.Some? ==> exists loc :: IndexHere(View(h), bk, o.index.value, loc))
    && exists cs: seq<Rec> :: PartsNoted(HBag(h, KeyFor(bk)), bk.start, cs, o)
  }

  ghost predicate PartsNoted(b: multiset<Rec>, start: nat, cs: seq<Rec>, o: Observed) {
    Adds(b, start, cs) && |cs| == o.chunkCount && TotalSize(cs) == o.dataSize
  }

  /** The index and the chunks seen agree. */
  predicate AddsUp(o: Observed) {
    o.index.Some? && o.index.value.count == o.chunkCount && o.index.value.size == o.dataSize
  }

  lemma NotedStart(h: Hal, ps: seq<ThinPage>, fr: seq<ThinPage>, kv: Contents, bk: BlobKey)
    requires Cleaning(h, ps, fr, kv) && HalOk(h) && WfViews(View(h)) && bk in NotedIn(View(h))
    ensures Noted(h, bk, NotedIn(View(h))[bk])
  {
    hide InstOk, Bag, View, NotedIn, Has, IsIndexOf, ViewParts;
    ViewDomain(View(h), bk);
    ViewCounts(View(h), bk);
    ViewIndex(View(h), bk);
    FatedMixed(h, ps, fr, kv, KeyFor(bk));
    forall r ensures multiset(ViewParts(View(h), bk))[r] == if IsPart(r, bk.start) then HBag(h, KeyFor(bk))[r] else 0 {
      ViewPartsBag(View(h), bk, r);
      if r in HBag(h, KeyFor(bk)) { PartTyped(h, bk, r); }
    }
    assert PartsNoted(HBag(h, KeyFor(bk)), bk.start, ViewParts(View(h), bk), NotedIn(View(h))[bk]);
  }

  lemma PartTyped(h: Hal, bk: BlobKey, r: Rec)
    requires HalOk(h) && Mixed(h.codec, HBag(h, KeyFor(bk))) && r in HBag(h, KeyFor(bk)) && bk.ns != 0
    ensures IsPartOf(r.item, bk) <==> IsPart(r, bk.start)
  {
    hide Bag, View, Has;
    var s, loc := InHas(View(h), KeyFor(bk), r);
    assert Typed(h.codec, r);
  }

  lemma IndexTypedHere(h: Hal, bk: BlobKey, e: IndexEntry, loc: Loc)
    requires HalOk(h) && Mixed(h.codec, HBag(h, KeyFor(bk))) && IndexHere(View(h), bk, e, loc)
    ensures HeadOf(View(h), KeyFor(bk), e.pageSequence, loc) && loc.rec in HBag(h, KeyFor(bk)) &&
            Typed(h.codec, loc.rec)
    ensures loc.rec.item.typ == BlobIndex && loc.rec.item.data == Index(e.size, e.count, bk.start)
    ensures Owns(HBag(h, KeyFor(bk)), loc.rec, bk.start)
  {
    hide Bag, View, Has;
    var a, j := HasIn(View(h), e.pageSequence, loc);
    assert Typed(h.codec, loc.rec);
  }

  lemma NotedKept(h: Hal, k: FullKey, at: Option<Place>, start: Option<nat>, h2: Hal, bk: BlobKey, o: Observed)
    requires HalOk(h) && HalOk(h2) && Noted(h, bk, o) && Cleared(h, h2, k, at, start) && SinglePlaces(View(h))
    requires Mixed(h.codec, HBag(h, KeyFor(bk)))
    requires at.Some? ==>
               Has(View(h), at.value.sequence, at.value.loc) && !IsIndexOf(at.value.loc.rec.item, bk) &&
               IsHead(at.value.loc.rec)
    requires k == KeyFor(bk) && start.Some? ==> start.value != bk.start
    ensures Noted(h2, bk, o)
  {
    hide Bag, View, Has, IsIndexOf, Mixed;
    if o.index.Some? {
      var loc :| IndexHere(View(h), bk, o.index.value, loc);
      IndexTypedHere(h, bk, o.index.value, loc);
      assert !ClearedHere(k, at, start, o.index.value.pageSequence, loc);
      assert IndexHere(View(h2), bk, o.index.value, loc);
    }
    var cs: seq<Rec> :| PartsNoted(HBag(h, KeyFor(bk)), bk.start, cs, o);
    forall r ensures multiset(cs)[r] == if IsPart(r, bk.start) then HBag(h2, KeyFor(bk))[r] else 0 {
      if k != KeyFor(bk) { assert HBag(h2, KeyFor(bk)) == HBag(h, KeyFor(bk)); }
      else { assert HBag(h2, k)[r] == ClearedCount(HBag(h, k), at, start, r); }
    }
    assert PartsNoted(HBag(h2, KeyFor(bk)), bk.start, cs, o);
  }

  /** An index that does not agree with the chunks seen is not whole; one that does is. */
  lemma NotedConsistent(h: Hal, bk: BlobKey, o: Observed, loc: Loc)
    requires HalOk(h) && Noted(h, bk, o) && Mixed(h.codec, HBag(h, KeyFor(bk)))
    requires o.index.Some? && IndexHere(View(h), bk, o.index.value, loc)
    ensures Consistent(HBag(h, KeyFor(bk)), loc.rec) <==> AddsUp(o)
  {
    hide Bag, View, Has, IsIndexOf, Mixed;
    IndexTypedHere(h, bk, o.index.value, loc);
    var b := HBag(h, KeyFor(bk));
    var cs: seq<Rec> :| PartsNoted(b, bk.start, cs, o);
    if Consistent(b, loc.rec) {
      var ds: seq<Rec> :| Adds(b, bk.start, ds) && |ds| == loc.rec.item.data.count &&
          TotalSize(ds) == loc.rec.item.data.size;
      assert multiset(cs) == multiset(ds);
      TotalPermuted(cs, ds);
    }
  }

  // ---- versions ----

  predicate OfVersion(r: Rec, start: nat) {
    IsPart(r, start) || (IsHead(r) && r.item.typ == BlobIndex && r.item.data.Index? && r.item.data.start == start)
  }

  ghost predicate VersionGone(b: multiset<Rec>, start: nat) { forall r | r in b :: !OfVersion(r, start) }

  /** What there is of a version belongs to a whole index. */
  ghost predicate VersionOk(b: multiset<Rec>, start: nat) {
    VersionGone(b, start) || exists q :: Owns(b, q, start) && Consistent(b, q)
  }

  ghost predicate AllVersionsOk(h: Hal) {
    HalOk(h) && forall k: FullKey, start: nat | k.ns != 0 && start in {0, 0x80} :: VersionOk(HBag(h, k), start)
  }

  lemma GoneStart(h: Hal, ps: seq<ThinPage>, fr: seq<ThinPage>, kv: Contents, bk: BlobKey)
    requires Cleaning(h, ps, fr, kv) && HalOk(h) && WfViews(View(h)) && bk !in NotedIn(View(h))
    requires bk.ns != 0 && bk.start in {0, 0x80}
    ensures VersionGone(HBag(h, KeyFor(bk)), bk.start)
  {
    hide InstOk, Bag, View, NotedIn, Has;
    FatedMixed(h, ps, fr, kv, KeyFor(bk));
    ViewDomain(View(h), bk);
    forall r | r in HBag(h, KeyFor(bk)) ensures !OfVersion(r, bk.start) {
      var s, loc := InHas(View(h), KeyFor(bk), r);
      assert Typed(h.codec, r);
      VersionKeyed(h.codec, r, bk);
    }
  }

  lemma VersionKeyed(c: Codec, r: Rec, bk: BlobKey)
    requires Typed(c, r) && KeyOf(r.item) == KeyFor(bk) && bk.ns != 0 && bk.start in {0, 0x80}
    ensures OfVersion(r, bk.start) ==> BlobKeyOf(r.item) == Some(bk)
  {}

  lemma GoneKept(h: Hal, k: FullKey, at: Option<Place>, start: Option<nat>, h2: Hal, j: FullKey, s: nat)
    requires HalOk(h) && HalOk(h2) && Cleared(h, h2, k, at, start) && VersionGone(HBag(h, j), s)
    ensures VersionGone(HBag(h2, j), s)
  {
    hide Bag, View, ClearedPlaces;
    forall r | r in HBag(h2, j) ensures !OfVersion(r, s) {
      if j != k { assert HBag(h2, j) == HBag(h, j); }
      else { assert HBag(h2, k)[r] == ClearedCount(HBag(h, k), at, start, r); }
    }
  }

  /** The version that was cleared is gone for good. */
  lemma GoneNow(h: Hal, k: FullKey, at: Option<Place>, start: nat, h2: Hal)
    requires HalOk(h) && HalOk(h2) && Cleared(h, h2, k, at, Some(start)) && Mixed(h.codec, HBag(h, k))
    requires forall q | Owns(HBag(h, k), q, start) :: at.Some? && q == at.value.loc.rec
    ensures VersionGone(HBag(h2, k), start)
  {
    hide Bag, View, ClearedPlaces, Typed;
    forall r | OfVersion(r, start) ensures r !in HBag(h2, k) {
      assert HBag(h2, k)[r] == ClearedCount(HBag(h, k), at, Some(start), r);
      if r in HBag(h, k) && !IsPart(r, start) { assert Owns(HBag(h, k), r, start); }
    }
  }

  lemma NotedVersion(h: Hal, bk: BlobKey, o: Observed)
    requires HalOk(h) && Noted(h, bk, o) && Mixed(h.codec, HBag(h, KeyFor(bk))) && AddsUp(o)
    ensures VersionOk(HBag(h, KeyFor(bk)), bk.start)
  {
    hide Bag, View, Has, IsIndexOf, Mixed, Consistent;
    var loc :| IndexHere(View(h), bk, o.index.value, loc);
    IndexTypedHere(h, bk, o.index.value, loc);
    NotedConsistent(h, bk, o, loc);
  }

  /** A version another clearing did not touch. */
  lemma VersionOkKept(h: Hal, k: FullKey, at: Option<Place>, start: Option<nat>, h2: Hal, j: FullKey, s: nat)
    requires HalOk(h) && HalOk(h2) && Cleared(h, h2, k, at, start) && VersionOk(HBag(h, j), s)
    requires j == k && start.Some? ==> start.value != s
    requires j == k && at.Some? ==> IsHead(at.value.loc.rec) && !OfVersion(at.value.loc.rec, s)
    ensures VersionOk(HBag(h2, j), s)
  {
    hide Bag, View, ClearedPlaces, Consistent;
    var b, b2 := HBag(h, j), HBag(h2, j);
    if j != k {
      assert b2 == b;
    } else if VersionGone(b, s) {
      GoneKept(h, k, at, start, h2, j, s);
    } else {
      var q :| Owns(b, q, s) && Consistent(b, q);
      assert b2[q] == ClearedCount(b, at, start, q);
      forall r | IsPart(r, s) ensures b2[r] == b[r] { assert b2[r] == ClearedCount(b, at, start, r); }
      ConsistentSame(b, b2, q);
      assert Owns(b2, q, s);
    }
  }

  /** With all versions in order, every head is whole and no chunk is left over. */
  lemma VersionsNeat(c: Codec, b: multiset<Rec>)
    requires Mixed(c, b) && VersionOk(b, 0) && VersionOk(b, 0x80)
    ensures AllConsistent(b) && Neat(b)
  {
    hide Consistent;
    forall q | q in b && IsHead(q) ensures Consistent(b, q) { IndexWhole(c, b, q); }
    forall r | r in b && !IsHead(r) ensures exists q :: Owns(b, q, VersionOf(r.item.chunk)) {
      assert OfVersion(r, VersionOf(r.item.chunk));
    }
  }

  lemma IndexWhole(c: Codec, b: multiset<Rec>, q: Rec)
    requires Mixed(c, b) && VersionOk(b, 0) && VersionOk(b, 0x80) && q in b && IsHead(q)
    ensures Consistent(b, q)
  {
    if q.item.typ == BlobIndex && q.item.data.Index? {
      hide Consistent;
      assert Typed(c, q);
      var start := q.item.data.start;
      assert OfVersion(q, start);
      var o :| Owns(b, o, start) && Consistent(b, o);
      assert SameVersion(o, q);
    }
  }

  // ---- the walk over the noted versions ----

  /** The versions in `live` are as noted, those of them not still to be looked at add up, and of all
      others nothing is left. */
  ghost predicate Dirty(h: Hal, bi: BlobIndexMap, live: set<BlobKey>, todo: set<BlobKey>) {
    && HalOk(h)
    && (forall bk | bk in live :: bk in bi && Noted(h, bk, bi[bk]))
    && (forall bk | bk in live && bk !in todo :: AddsUp(bi[bk]))
    && (forall bk: BlobKey | bk.ns != 0 && bk.start in {0, 0x80} && bk !in live ::
         VersionGone(HBag(h, KeyFor(bk)), bk.start))
  }

  lemma DirtyStart(h: Hal, ps: seq<ThinPage>, fr: seq<ThinPage>, kv: Contents, bi: BlobIndexMap)
    requires Cleaning(h, ps, fr, kv) && HalOk(h) && WfViews(View(h)) && bi == NotedIn(View(h))
    ensures Dirty(h, bi, bi.Keys, bi.Keys)
  {
    hide Cleaning, Bag, View, NotedIn, Noted, VersionGone;
    forall bk | bk in bi ensures Noted(h, bk, bi[bk]) { NotedStart(h, ps, fr, kv, bk); }
    forall bk: BlobKey | bk.ns != 0 && bk.start in {0, 0x80} && bk !in bi
      ensures VersionGone(HBag(h, KeyFor(bk)), bk.start)
    {
      GoneStart(h, ps, fr, kv, bk);
    }
  }

  lemma DirtyNoted(h: Hal, bi: BlobIndexMap, live: set<BlobKey>, todo: set<BlobKey>, bk: BlobKey)
    requires Dirty(h, bi, live, todo) && bk in live
    ensures bk in bi && HalOk(h) && Noted(h, bk, bi[bk]) && bk.ns != 0 && bk.start in {0, 0x80}
    ensures bi[bk].index.Some? ==> exists loc :: IndexHere(View(h), bk, bi[bk].index.value, loc)
    ensures bk !in todo ==> AddsUp(bi[bk])
  {
    hide Bag, View, IndexHere, VersionGone;
  }

  lemma NotedUnowned(h: Hal, bk: BlobKey, o: Observed)
    requires HalOk(h) && Noted(h, bk, o) && o.index.None? && Mixed(h.codec, HBag(h, KeyFor(bk)))
    ensures Unowned(HBag(h, KeyFor(bk)), bk.start)
  {
    hide Bag, View, Has;
    forall q ensures !Owns(HBag(h, KeyFor(bk)), q, bk.start) {
      if Owns(HBag(h, KeyFor(bk)), q, bk.start) {
        var s, loc := InHas(View(h), KeyFor(bk), q);
        assert false;
      }
    }
  }

  lemma BrokenLoses(h: Hal, bk: BlobKey, o: Observed, loc: Loc)
    requires HalOk(h) && Noted(h, bk, o) && Mixed(h.codec, HBag(h, KeyFor(bk)))
    requires o.index.Some? && IndexHere(View(h), bk, o.index.value, loc) && !AddsUp(o)
    ensures Loses(View(h), KeyFor(bk), Place(o.index.value.pageSequence, loc))
  {
    hide Bag, View, Noted, IndexHere, Mixed, Consistent;
    NotedConsistent(h, bk, o, loc);
  }

  lemma DirtyWhole(h: Hal, bi: BlobIndexMap, live: set<BlobKey>, todo: set<BlobKey>, bk: BlobKey)
    requires Dirty(h, bi, live, todo) && bk in live && AddsUp(bi[bk])
    ensures Dirty(h, bi, live, todo - {bk})
  {
    hide Bag, View, Noted, VersionGone;
  }

  /** A version was cleared: it is gone, and the others are as they were. */
  lemma DirtyStep(h: Hal, ps: seq<ThinPage>, fr: seq<ThinPage>, kv: Contents, bi: BlobIndexMap, live: set<BlobKey>,
                  todo: set<BlobKey>, bk: BlobKey, at: Option<Place>, h2: Hal)
    requires Cleaning(h, ps, fr, kv) && HalOk(h) && HalOk(h2) && Dirty(h, bi, live, todo) && bk in live
    requires Cleared(h, h2, KeyFor(bk), at, Some(bk.start))
    requires at.None? ==> Unowned(HBag(h, KeyFor(bk)), bk.start)
    requires at.Some? ==> bi[bk].index.Some? && IndexHere(View(h), bk, bi[bk].index.value, at.value.loc) &&
                          at.value.sequence == bi[bk].index.value.pageSequence
    ensures Dirty(h2, bi, live - {bk}, todo - {bk})
  {
    hide Cleaning, Bag, View, Noted, VersionGone, Cleared, Mixed, AddsUp, IndexHere, Lean, Wins, SinglePlaces,
         SequencesDiffer, BaseOk, InstOk, Has, IsIndexOf;
    var k := KeyFor(bk);
    CleaningFacts(h, ps, fr, kv);
    DirtyNoted(h, bi, live, todo, bk);
    FatedMixed(h, ps, fr, kv, k);
    if at.Some? {
      IndexTypedHere(h, bk, bi[bk].index.value, at.value.loc);
      IndexOther(View(h), bk, bi[bk].index.value, at.value.loc);
    }
    forall x | x in live && x != bk ensures Noted(h2, x, bi[x]) {
      DirtyNoted(h, bi, live, todo, x);
      FatedMixed(h, ps, fr, kv, KeyFor(x));
      NotedKept(h, k, at, Some(bk.start), h2, x, bi[x]);
    }
    forall x: BlobKey | x.ns != 0 && x.start in {0, 0x80} && x !in live - {bk}
      ensures VersionGone(HBag(h2, KeyFor(x)), x.start)
    {
      if x == bk { OwnerHere(h, k, bk, at); GoneNow(h, k, at, bk.start, h2); }
      else { GoneKept(h, k, at, Some(bk.start), h2, KeyFor(x), x.start); }
    }
  }

  lemma IndexOther(vs: seq<PageView>, bk: BlobKey, e: IndexEntry, loc: Loc)
    requires IndexHere(vs, bk, e, loc)
    ensures Has(vs, e.pageSequence, loc) && forall x: BlobKey | x.start in {0, 0x80} && x != bk &&
            bk.start in {0, 0x80} :: !IsIndexOf(loc.rec.item, x)
  {
    hide Has;
  }

  lemma OwnerHere(h: Hal, k: FullKey, bk: BlobKey, at: Option<Place>)
    requires HalOk(h) && Mixed(h.codec, HBag(h, k)) && k == KeyFor(bk)
    requires at.None? ==> Unowned(HBag(h, k), bk.start)
    requires at.Some? ==> Owns(HBag(h, k), at.value.loc.rec, bk.start)
    ensures forall q | Owns(HBag(h, k), q, bk.start) :: at.Some? && q == at.value.loc.rec
  {
    hide Bag, View;
    forall q | Owns(HBag(h, k), q, bk.start) ensures at.Some? && q == at.value.loc.rec {
      if at.Some? { assert SameVersion(q, at.value.loc.rec); }
    }
  }

  lemma DirtyEnd(h: Hal, ps: seq<ThinPage>, fr: seq<ThinPage>, kv: Contents, bi: BlobIndexMap, live: set<BlobKey>)
    requires Cleaning(h, ps, fr, kv) && HalOk(h) && Dirty(h, bi, live, {})
    ensures AllVersionsOk(h)
  {
    hide Cleaning, Bag, View, Noted, VersionGone, Mixed, AddsUp, Lean, Wins, Consistent;
    forall k: FullKey, start: nat | k.ns != 0 && start in {0, 0x80} ensures VersionOk(HBag(h, k), start) {
      var bk := BlobKey(k.ns, start, k.key);
      assert KeyFor(bk) == k;
      if bk in live {
        FatedMixed(h, ps, fr, kv, k);
        NotedVersion(h, bk, bi[bk]);
      }
    }
  }

  lemma CleaningFated(h: Hal, ps: seq<ThinPage>, fr: seq<ThinPage>, kv: Contents)
    requires Cleaning(h, ps, fr, kv)
    ensures AllFated(h, kv)
  {}

  lemma CleaningFrom(h: Hal, ps: seq<ThinPage>, fr: seq<ThinPage>, kv: Contents)
    requires InstOk(h, ps, fr) && AllFated(h, kv)
    ensures Cleaning(h, ps, fr, kv)
  {}

  // ---- the whole versions of a key ----

  ghost predicate Listed(versions: seq<BlobKey>, k: FullKey, live: set<BlobKey>) {
    && (forall x | 0 <= x < |versions| :: versions[x] in live && KeyFor(versions[x]) == k)
    && (forall x, y | 0 <= x < y < |versions| :: versions[x] != versions[y])
  }

  lemma ListedShorter(versions: seq<BlobKey>, k: FullKey, live: set<BlobKey>, x: nat)
    requires Listed(versions, k, live) && x < |versions|
    ensures Listed(versions[..x] + versions[x + 1..], k, live - {versions[x]})
  {
    var rest := versions[..x] + versions[x + 1..];
    forall i | 0 <= i < |rest| ensures rest[i] in live - {versions[x]} && KeyFor(rest[i]) == k {
      assert rest[i] == versions[if i < x then i else i + 1];
    }
    forall i, j | 0 <= i < j < |rest| ensures rest[i] != rest[j] {
      assert rest[i] == versions[if i < x then i else i + 1] && rest[j] == versions[if j < x then j else j + 1];
    }
  }

  predicate Earlier(x: IndexEntry, y: IndexEntry) {
    x.pageSequence < y.pageSequence || (x.pageSequence == y.pageSequence && x.itemIndex < y.itemIndex)
  }

  /** The oldest of several whole versions loses against any other. */
  lemma OlderLoses(h: Hal, bi: BlobIndexMap, live: set<BlobKey>, versions: seq<BlobKey>, k: FullKey, x: nat, loc: Loc)
    requires Dirty(h, bi, live, {}) && Listed(versions, k, live) && x < |versions| && |versions| > 1
    requires HalOk(h) && Mixed(h.codec, HBag(h, k)) && SinglePlaces(View(h))
    requires forall y | 0 <= y < |versions| :: versions[y] in bi && bi[versions[y]].index.Some?
    requires forall y | 0 <= y < |versions| :: !Earlier(bi[versions[y]].index.value, bi[versions[x]].index.value)
    requires IndexHere(View(h), versions[x], bi[versions[x]].index.value, loc)
    ensures Loses(View(h), k, Place(bi[versions[x]].index.value.pageSequence, loc))
  {
    hide Bag, View, Noted, VersionGone, Mixed, IndexHere, Has, IsIndexOf, Consistent, SinglePlaces;
    var y := if x == 0 then 1 else 0;
    var bk, other := versions[x], versions[y];
    assert bk != other;
    DirtyNoted(h, bi, live, {}, bk);
    DirtyNoted(h, bi, live, {}, other);
    var e, e2 := bi[bk].index.value, bi[other].index.value;
    var loc2 :| IndexHere(View(h), other, e2, loc2);
    IndexTypedHere(h, bk, e, loc);
    IndexTypedHere(h, other, e2, loc2);
    NotedConsistent(h, other, bi[other], loc2);
    ApartIndices(View(h), bk, e, loc, other, e2, loc2);
    assert !Earlier(e2, e);
    assert Before(e.pageSequence, loc, e2.pageSequence, loc2);
    assert HeadOf(View(h), k, e2.pageSequence, loc2);
  }

  lemma ApartIndices(vs: seq<PageView>, bk: BlobKey, e: IndexEntry, loc: Loc, other: BlobKey, e2: IndexEntry, loc2: Loc)
    requires IndexHere(vs, bk, e, loc) && IndexHere(vs, other, e2, loc2) && SinglePlaces(vs) && bk != other
    requires bk.start in {0, 0x80} && other.start in {0, 0x80}
    ensures loc.index == e.itemIndex && loc2.index == e2.itemIndex
    ensures !(e.pageSequence == e2.pageSequence && e.itemIndex == e2.itemIndex)
  {
    hide Has;
  }

  // ---- finding and erasing a head ----

  /** The version whose chunks go with an item. */
  function VersionIn(it: Item): Option<nat> {
    if it.typ == BlobIndex && it.data.Index? then Some(VersionOf(it.data.start)) else None
  }

  lemma VersionStart(it: Item)
    ensures VersionIn(it).Some? ==> VersionIn(it).value in {0, 0x80}
  {}

  lemma HeadFacts(h: Hal, k: FullKey, at: Place)
    requires HalOk(h) && HeadOf(View(h), k, at.sequence, at.loc)
    ensures IsHead(at.loc.rec) && at.loc.rec in HBag(h, k) && KeyOf(at.loc.rec.item) == k
  {
    hide Bag, View, Has;
    var a, j := HasIn(View(h), at.sequence, at.loc);
  }

  /** Once an index is erased, no other owns its chunks. */
  lemma LoserUnowned(h: Hal, k: FullKey, at: Place, h1: Hal)
    requires HalOk(h) && HalOk(h1) && Mixed(h.codec, HBag(h, k)) && at.loc.rec in HBag(h, k) && IsHead(at.loc.rec)
    requires HBag(h1, k) == HBag(h, k) - multiset{at.loc.rec} && VersionIn(at.loc.rec.item).Some?
    ensures VersionIn(at.loc.rec.item).value in {0, 0x80}
    ensures Unowned(HBag(h1, k), VersionIn(at.loc.rec.item).value)
  {
    hide Bag, View;
    var x := at.loc.rec;
    assert Typed(h.codec, x);
    var start := VersionIn(x.item).value;
    forall q ensures !Owns(HBag(h1, k), q, start) {
      if q in HBag(h, k) && IsHead(q) && q.item.data.Index? && q.item.data.start == start { assert SameVersion(q, x); }
    }
  }

  lemma PageOfPlace(h: Hal, ps: seq<ThinPage>, fr: seq<ThinPage>, s: nat, loc: Loc) returns (i: nat, j: nat)
    requires BaseOk(h, ps, fr) && HalOk(h) && Has(View(h), s, loc)
    ensures i < |ps| && ps[i].sequence == s && j < |LocsOf(h, ps[i])| && LocsOf(h, ps[i])[j] == loc
  {
    hide BaseOk, View, ScanFrom;
    var a, j2 := HasIn(View(h), s, loc);
    i := PageOfSector(h, ps, fr, a);
    PageLocs(h, ps, fr, i);
    j := j2;
  }

  lemma SamePage(h: Hal, ps: seq<ThinPage>, fr: seq<ThinPage>, i: nat, j: nat)
    requires BaseOk(h, ps, fr) && i < |ps| && j < |ps| && ps[i].sequence == ps[j].sequence
    ensures i == j
  {
    hide Placed, FreeOk, Addrs, AllSectors;
  }
}
