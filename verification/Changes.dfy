/** What the instance is after one item was appended or erased, or a page retired. */
module Changes {
  import opened Types
  import opened Sectors
  import opened Flash
  import opened Pages
  import opened PageOps
  import opened Scan
  import opened Store
  import opened Instance
  import opened Moves
  import opened Compaction
  import opened Lookup
  import opened Transfer

  /** Of all items, only `r` is gone. */
  ghost predicate Dropped(h: Hal, h2: Hal, r: Rec) {
    && HalOk(h) && HalOk(h2) && h2.codec == h.codec && h2.ws == h.ws && |h2.sectors| == |h.sectors|
    && forall k: FullKey :: HBag(h, k) == HBag(h2, k) + OneOf(r, k)
  }

  /** Of all items, only `r` is new. */
  ghost predicate Added(h: Hal, h2: Hal, r: Rec) {
    && HalOk(h) && HalOk(h2) && h2.codec == h.codec && h2.ws == h.ws && |h2.sectors| == |h.sectors|
    && forall k: FullKey :: HBag(h2, k) == HBag(h, k) + OneOf(r, k)
  }

  ghost predicate OthersSame(h: Hal, h2: Hal, k: FullKey) {
    && HalOk(h) && HalOk(h2) && h2.codec == h.codec && h2.ws == h.ws && |h2.sectors| == |h.sectors|
    && forall j: FullKey | j != k :: HBag(h2, j) == HBag(h, j)
  }

  /** No chunk start + i with i < n. */
  ghost predicate NoChunks(b: multiset<Rec>, start: nat, n: nat) {
    forall r | r in b && !IsHead(r) :: !(start <= r.item.chunk < start + n)
  }

  /** Head r is gone, and so far some of the chunks it indexed. */
  ghost predicate HeadGoing(h: Hal, h2: Hal, k: FullKey, r: Rec) {
    && OthersSame(h, h2, k)
    && if r.item.typ == BlobIndex && r.item.data.Index?
       then Shed(HBag(h, k) - multiset{r}, HBag(h2, k), r.item.data.start)
       else HBag(h2, k) == HBag(h, k) - multiset{r}
  }

  /** Head r is gone with all the chunks it indexed. */
  ghost predicate HeadDeleted(h: Hal, h2: Hal, k: FullKey, r: Rec) {
    && HeadGoing(h, h2, k, r)
    && (r.item.typ == BlobIndex && r.item.data.Index? ==>
         NoChunks(HBag(h2, k), r.item.data.start, MAX_BLOB_CHUNK_COUNT))
  }

  /** Without its first head, key k reads v, and no index is left for the chunks that go with it. */
  ghost predicate HeadMayGo(h: Hal, ps: seq<ThinPage>, k: FullKey, v: Option<Value>)
    requires HalOk(h)
  {
    forall r | FirstHead(h, ps, k, r) ::
      && Reads(h.codec, HBag(h, k) - multiset{r}, v)
      && (r.item.data.Index? ==> Unowned(HBag(h, k) - multiset{r}, r.item.data.start))
      && Typed(h.codec, r)
  }

  lemma GoodWithout(c: Codec, locs: seq<Loc>, at: nat)
    requires GoodLocs(c, locs)
    ensures GoodLocs(c, Without(locs, at))
  {
    hide GoodRec;
    forall loc | loc in Without(locs, at) ensures loc in locs { WithoutIn(locs, at, loc); }
  }

  lemma {:induction false} WithoutIn(locs: seq<Loc>, at: nat, loc: Loc)
    requires loc in Without(locs, at)
    ensures loc in locs
  {
    if locs[0] != loc { WithoutIn(locs[1..], at, loc); }
  }

  lemma ErasedInst(h0: Hal, h: Hal, ps: seq<ThinPage>, fr: seq<ThinPage>, i: nat, p: ThinPage, index: nat, span: nat,
                   j: nat)
    requires BaseOk(h0, ps, fr) && HalOk(h0) && HalOk(h) && i < |ps|
    requires KeptAt(LocsOf(h0, ps[i]), j, index) && Placed(h0, ps[i])
    requires ErasedFrom(h0, ps[i], h, p, index, span)
    ensures BaseOk(h, ps[i := p], fr) && (InstOk(h0, ps, fr) ==> InstOk(h, ps[i := p], fr))
    ensures Dropped(h0, h, LocsOf(h0, ps[i])[j].rec)
    ensures LocsOf(h, p) == Without(LocsOf(h0, ps[i]), index)
  {
    hide BaseOk, BodyOk, ScanFrom, Without, GoodLocs, Bag, OneOf;
    GoodWithout(h0.codec, LocsOf(h0, ps[i]), index);
    assert Placed(h, p);
    BaseReplace(h0, h, ps, fr, i, p);
    if InstOk(h0, ps, fr) { InstReplace(h0, h, ps, fr, i, p); }
    forall k: FullKey ensures HBag(h0, k) == HBag(h, k) + OneOf(LocsOf(h0, ps[i])[j].rec, k) {
      BagErase(h0, h, ps[i].addr, j, index, k);
    }
  }

  /** Page i was written, and is still what an idle instance allows. */
  lemma InstReplace(h0: Hal, h: Hal, ps: seq<ThinPage>, fr: seq<ThinPage>, i: nat, p: ThinPage)
    requires InstOk(h0, ps, fr) && HalOk(h) && i < |ps| && Touched(h0, h, ps[i].addr)
    requires p.addr == ps[i].addr && p.sequence == ps[i].sequence && Placed(h, p)
    requires p.state in {Active, Full} && (p.state == Active ==> ps[i].state == Active && !IsFull(p))
    ensures InstOk(h, ps[i := p], fr)
  {
    hide BaseOk, Placed;
    InstSequences(h0, ps, fr);
    BaseReplace(h0, h, ps, fr, i, p);
  }

  lemma OneOfSame(h: Hal, h2: Hal, r: Rec, k: FullKey)
    requires Dropped(h, h2, r) && KeyOf(r.item) == k
    ensures OthersSame(h, h2, k) && HBag(h2, k) == HBag(h, k) - multiset{r}
  {
    hide Bag, View;
    forall j: FullKey | j != k ensures HBag(h2, j) == HBag(h, j) {
      assert HBag(h, j) == HBag(h2, j) + OneOf(r, j);
    }
    assert HBag(h, k) == HBag(h2, k) + OneOf(r, k);
  }

  lemma HeadGone(h: Hal, h2: Hal, k: FullKey, r: Rec)
    requires Dropped(h, h2, r) && KeyOf(r.item) == k && r.item.typ != BlobIndex
    ensures HeadDeleted(h, h2, k, r)
  {
    hide Bag, View, Dropped;
    OneOfSame(h, h2, r, k);
  }

  lemma IndexGone(h: Hal, h2: Hal, ps: seq<ThinPage>, k: FullKey, r: Rec, v: Option<Value>)
    requires Dropped(h, h2, r) && KeyOf(r.item) == k && r.item.typ == BlobIndex
    requires FirstHead(h, ps, k, r) && HeadMayGo(h, ps, k, v)
    ensures Lean(h2.codec, HBag(h2, k)) && r.item.data.Index? && r.item.data.start in {0, 0x80}
    ensures HBag(h2, k) == HBag(h, k) - multiset{r} && OthersSame(h, h2, k)
  {
    hide Bag, View, Dropped, FirstHead;
    OneOfSame(h, h2, r, k);
  }

  lemma SweepDone(h: Hal, h1: Hal, h2: Hal, k: FullKey, r: Rec)
    requires HalOk(h) && OthersSame(h, h1, k) && HBag(h1, k) == HBag(h, k) - multiset{r} && OthersSame(h1, h2, k)
    requires r.item.typ == BlobIndex && r.item.data.Index? && r.item.data.start in {0, 0x80}
    requires Shed(HBag(h1, k), HBag(h2, k), r.item.data.start)
    ensures HeadGoing(h, h2, k, r)
    ensures NoChunks(HBag(h2, k), r.item.data.start, MAX_BLOB_CHUNK_COUNT) ==> HeadDeleted(h, h2, k, r)
  {
    hide Bag, View, Shed, NoChunks;
    forall j: FullKey | j != k ensures HBag(h2, j) == HBag(h, j) {
      assert HBag(h1, j) == HBag(h, j);
    }
  }

  lemma SweepStart(h: Hal, ps: seq<ThinPage>, fr: seq<ThinPage>, k: FullKey, start: nat)
    requires BaseOk(h, ps, fr)
    ensures HalOk(h) && OthersSame(h, h, k) && Shed(HBag(h, k), HBag(h, k), start) && NoChunks(HBag(h, k), start, 0)
  {}

  lemma SweepStep(h0: Hal, h1: Hal, h2: Hal, k: FullKey, start: nat, i: nat, r: Rec)
    requires HalOk(h0) && OthersSame(h0, h1, k) && Shed(HBag(h0, k), HBag(h1, k), start)
    requires Dropped(h1, h2, r) && r in HBag(h1, k) && KeyOf(r.item) == k && r.item.chunk == start + i && !IsHead(r)
    requires start in {0, 0x80} && i < MAX_BLOB_CHUNK_COUNT
    ensures OthersSame(h0, h2, k) && Shed(HBag(h0, k), HBag(h2, k), start)
    ensures Lean(h1.codec, HBag(h1, k)) && NoChunks(HBag(h1, k), start, i) ==>
              Lean(h2.codec, HBag(h2, k)) && NoChunks(HBag(h2, k), start, i + 1)
  {
    hide Bag, View, Dropped, Typed;
    OneOfSame(h1, h2, r, k);
    var b0, b1, b2 := HBag(h0, k), HBag(h1, k), HBag(h2, k);
    forall j: FullKey | j != k ensures HBag(h2, j) == HBag(h0, j) {
      assert HBag(h1, j) == HBag(h0, j);
    }
    forall q | q in b0 && b2[q] != b0[q] ensures !IsHead(q) && VersionOf(q.item.chunk) == start {
      if q != r { assert b2[q] == b1[q]; }
    }
    if Lean(h1.codec, b1) && NoChunks(b1, start, i) {
      LeanLess(h1.codec, b1, b2);
      assert b1[r] == 1 && r !in b2;
      forall q | q in b2 && !IsHead(q) ensures !(start <= q.item.chunk < start + i + 1) {
        assert q in b1;
        assert q.item.chunk == r.item.chunk ==> q == r;
      }
    }
  }

  lemma SweepMissing(b: multiset<Rec>, start: nat, i: nat)
    requires NoChunks(b, start, i) && forall q | q in b :: q.item.chunk != start + i
    ensures NoChunks(b, start, i + 1)
  {}

  lemma ActiveWritable(h: Hal, ps: seq<ThinPage>, p: ThinPage, fr: seq<ThinPage>)
    requires InstOk(h, ps + [p], fr) && p.state == Active
    ensures Writable(h, p) && !IsFull(p) && Placed(h, p)
  {
    hide BodyOk, ScanFrom, GoodLocs, FreeOk, Addrs, AllSectors;
    assert (ps + [p])[|ps|] == p;
  }

  /** The instance after an item was appended to the active page. */
  lemma AppendedInst(h: Hal, h2: Hal, ps: seq<ThinPage>, p: ThinPage, p2: ThinPage, fr: seq<ThinPage>, r: Rec)
    requires InstOk(h, ps + [p], fr) && p.state == Active && HalOk(h) && HalOk(h2) && GoodRec(h.codec, r)
    requires p.addr < |h.sectors| && Appended(h, p, h2, p2, r)
    ensures InstOk(h2, ps + [p2], fr) && Added(h, h2, r)
    ensures LocsOf(h2, p2) == LocsOf(h, p) + [Loc(NextFree(p), r)] && p2.addr == p.addr
    ensures forall i | 0 <= i < |ps| :: LocsOf(h2, ps[i]) == LocsOf(h, ps[i])
  {
    hide BaseOk, BodyOk, ScanFrom, GoodLocs, Bag, GoodRec, OneOf;
    ActiveWritable(h, ps, p, fr);
    var all := ps + [p];
    assert all[|ps|] == p;
    var locs := ScanFrom(h.codec, h.sectors[p.addr], 0);
    GoodSnoc(h.codec, locs, Loc(NextFree(p), r));
    AppendedPlaced(h, p, h2, p2, r);
    InstReplace(h, h2, all, fr, |ps|, p2);
    assert all[|ps| := p2] == ps + [p2];
    forall k: FullKey ensures HBag(h2, k) == HBag(h, k) + OneOf(r, k) {
      BagAppend(h, h2, p.addr, Loc(NextFree(p), r), k);
    }
    forall i | 0 <= i < |ps| ensures LocsOf(h2, ps[i]) == LocsOf(h, ps[i]) {
      assert all[i] == ps[i];
      InstSequences(h, all, fr);
      PagesApart(h, all, fr, i, |ps|);
    }
  }

  lemma AppendedPlaced(h: Hal, p: ThinPage, h2: Hal, p2: ThinPage, r: Rec)
    requires HalOk(h) && HalOk(h2) && Placed(h, p) && p.state == Active && Appended(h, p, h2, p2, r)
    requires GoodLocs(h.codec, ScanFrom(h.codec, h.sectors[p.addr], 0) + [Loc(NextFree(p), r)])
    ensures Placed(h2, p2) && InUse(h.sectors[p.addr]) && InUse(h2.sectors[p.addr])
  {
    hide BodyOk, ScanFrom, GoodLocs;
  }

  lemma GoodSnoc(c: Codec, locs: seq<Loc>, loc: Loc)
    requires GoodLocs(c, locs) && GoodRec(c, loc.rec)
    ensures GoodLocs(c, locs + [loc])
  {}

  /** The flash after the power went while an item was being appended. */
  lemma TornInst(h: Hal, h2: Hal, ps: seq<ThinPage>, p: ThinPage, fr: seq<ThinPage>, r: Rec)
    requires InstOk(h, ps + [p], fr) && p.state == Active && HalOk(h) && HalOk(h2) && GoodRec(h.codec, r)
    requires p.addr < |h.sectors| && TornAppend(h, p, h2, r)
    ensures FlashOk(h2, NoGc) && (SameBags(h, h2) || Added(h, h2, r)) && h2.budget == Some(0)
    ensures SameBags(h, h2) || View(h2) == View(h)[p.addr :=
            Used(Active, p.sequence, LocsOf(h, p) + [Loc(NextFree(p), r)])]
  {
    hide BaseOk, BodyOk, ScanFrom, GoodLocs, Bag, GoodRec, OneOf, SectorOk, Sound, ViewOf;
    ActiveWritable(h, ps, p, fr);
    GoodSnoc(h.codec, LocsOf(h, p), Loc(NextFree(p), r));
    TornSector(h, p, h2, r);
    InstIdle(h, ps + [p], fr);
    SectorsTouched(h, h2, p.addr);
    ViewTouched(h, h2, p.addr);
    TornView(h, p, h2, r);
    PlacedView(h, p);
    IdleLocs(View(h), p.addr, LocsOf(h2, p), View(h2));
    if LocsOf(h2, p) == LocsOf(h, p) {
      forall k: FullKey ensures HBag(h2, k) == HBag(h, k) { BagSame(h, h2, p.addr, k); }
    } else {
      forall k: FullKey ensures HBag(h2, k) == HBag(h, k) + OneOf(r, k) {
        BagAppend(h, h2, p.addr, Loc(NextFree(p), r), k);
      }
    }
  }

  lemma TornSector(h: Hal, p: ThinPage, h2: Hal, r: Rec)
    requires HalOk(h) && HalOk(h2) && Placed(h, p) && p.state == Active && TornAppend(h, p, h2, r)
    requires GoodLocs(h.codec, LocsOf(h, p) + [Loc(NextFree(p), r)]) && GoodLocs(h.codec, LocsOf(h, p))
    ensures SectorOk(h2.codec, h2.sectors[p.addr]) && InUse(h.sectors[p.addr]) && InUse(h2.sectors[p.addr])
    ensures SectorOk(h.codec, h.sectors[p.addr])
  {
    hide ScanFrom, GoodLocs, Sound, Tidy;
    SoundPage(h.codec, p, h.sectors[p.addr]);
  }

  lemma TornView(h: Hal, p: ThinPage, h2: Hal, r: Rec)
    requires HalOk(h) && HalOk(h2) && Placed(h, p) && p.state == Active && TornAppend(h, p, h2, r)
    ensures ViewOf(h2.codec, h2.sectors[p.addr]) == Used(Active, p.sequence, LocsOf(h2, p))
    ensures LocsOf(h2, p) == LocsOf(h, p) || LocsOf(h2, p) == LocsOf(h, p) + [Loc(NextFree(p), r)]
  {
    hide ScanFrom, GoodLocs, Sound, BodyOk;
  }

  /** Which items a page holds does not matter to the page states. */
  lemma IdleLocs(vs: seq<PageView>, a: nat, locs: seq<Loc>, vs2: seq<PageView>)
    requires GcOk(vs, NoGc) && a < |vs| && vs[a].Used? && vs2 == vs[a := vs[a].(locs := locs)]
    ensures GcOk(vs2, NoGc)
  {}

  lemma AppendedState(h: Hal, p: ThinPage, h2: Hal, p2: ThinPage, r: Rec)
    requires HalOk(h) && p.addr < |h.sectors| && Appended(h, p, h2, p2, r)
    ensures p2.state == (if IsFull(p2) then Full else Active)
  {}

  lemma RetiredInst(h0: Hal, h: Hal, ps: seq<ThinPage>, p: ThinPage, fr: seq<ThinPage>)
    requires InstOk(h0, ps + [p], fr) && p.addr < |h0.sectors| && HalOk(h0) && HalOk(h) && Placed(h0, p)
    requires Moved(h0, h, p.addr, WithState(h0.sectors[p.addr], Full))
    ensures InstOk(h, ps + [p.(state := Full)], fr) && SameBags(h0, h)
  {
    hide BaseOk, ScanFrom, Bag, View, BodyOk;
    var p2 := p.(state := Full);
    var all := ps + [p];
    assert all[|ps|] == p && p.state in {Active, Full};
    PlacedState(h0, h, p, Full);
    HalMoved(h0, h, p.addr, WithState(h0.sectors[p.addr], Full));
    InstReplace(h0, h, all, fr, |ps|, p2);
    assert all[|ps| := p2] == ps + [p2];
    forall k: FullKey ensures HBag(h, k) == HBag(h0, k) { BagSame(h0, h, p.addr, k); }
  }

  lemma InstView(h: Hal, ps: seq<ThinPage>, p: ThinPage, fr: seq<ThinPage>, h2: Hal, p2: ThinPage, r: Rec)
    requires InstOk(h, ps + [p], fr) && p.state == Active && HalOk(h) && HalOk(h2)
    requires p.addr < |h.sectors| && Appended(h, p, h2, p2, r) && Placed(h2, p2)
    ensures View(h2) == View(h)[p.addr := Used(p2.state, p.sequence, LocsOf(h, p) + [Loc(NextFree(p), r)])]
  {
    hide ScanFrom, BodyOk, GoodLocs, BaseOk;
    ViewTouched(h, h2, p.addr);
    PlacedView(h2, p2);
  }

  lemma SameCodec(h: Hal, h2: Hal)
    requires SameBags(h, h2)
    ensures h2.codec == h.codec && h2.ws == h.ws
  {}

  lemma FlashHal(h: Hal, gc: Gc)
    requires FlashOk(h, gc)
    ensures HalOk(h)
  {}

  // ---- where items are ----

  /** Of all places, only the one at `index` on the page with this sequence number is gone. */
  ghost predicate Vacated(vs: seq<PageView>, vs2: seq<PageView>, sequence: nat, index: nat) {
    forall s: nat, loc: Loc :: Has(vs2, s, loc) <==> Has(vs, s, loc) && !(s == sequence && loc.index == index)
  }

  /** Only chunks of key k's version that starts at `start` are gone. */
  ghost predicate SweptPlaces(vs: seq<PageView>, vs2: seq<PageView>, k: FullKey, start: nat) {
    && (forall s: nat, loc: Loc | Has(vs2, s, loc) :: Has(vs, s, loc))
    && (forall s: nat, loc: Loc | Has(vs, s, loc) && !(KeyOf(loc.rec.item) == k && IsPart(loc.rec, start)) ::
         Has(vs2, s, loc))
  }

  /** No byte of any item changed, nor did the pages move. */
  ghost predicate SameBytes(h: Hal, ps: seq<ThinPage>, h2: Hal, ps2: seq<ThinPage>) {
    && h2.codec == h.codec && h2.ws == h.ws && |h2.sectors| == |h.sectors| && |ps2| == |ps|
    && (forall a | 0 <= a < |h.sectors| :: h2.sectors[a].body == h.sectors[a].body)
    && (forall i | 0 <= i < |ps| ::
          && ps2[i].addr == ps[i].addr && ps2[i].sequence == ps[i].sequence && ps2[i].state == ps[i].state
          && NextFree(ps2[i]) == NextFree(ps[i]))
  }

  lemma SameBytesBy(h0: Hal, ps0: seq<ThinPage>, h1: Hal, ps1: seq<ThinPage>, h2: Hal, ps2: seq<ThinPage>)
    requires SameBytes(h0, ps0, h1, ps1) && SameBytes(h1, ps1, h2, ps2)
    ensures SameBytes(h0, ps0, h2, ps2)
  {}

  datatype Place = Place(sequence: nat, loc: Loc)

  lemma {:induction false} WithoutMember(locs: seq<Loc>, at: nat, loc: Loc)
    ensures loc in Without(locs, at) <==> loc in locs && loc.index != at
  {
    if locs != [] { WithoutMember(locs[1..], at, loc); }
  }

  lemma VacatedBy(vs: seq<PageView>, a: nat, at: nat, vs2: seq<PageView>)
    requires SequencesDiffer(vs) && a < |vs| && vs[a].Used?
    requires vs2 == vs[a := vs[a].(locs := Without(vs[a].locs, at))]
    ensures Vacated(vs, vs2, vs[a].sequence, at)
  {
    hide Without;
    forall s: nat, loc: Loc
      ensures Has(vs2, s, loc) <==> Has(vs, s, loc) && !(s == vs[a].sequence && loc.index == at)
    {
      WithoutMember(vs[a].locs, at, loc);
      if Has(vs2, s, loc) {
        var b: nat :| HasAt(vs2, b, s, loc);
        assert HasAt(vs, b, s, loc);
      }
      if Has(vs, s, loc) && !(s == vs[a].sequence && loc.index == at) {
        var b: nat :| HasAt(vs, b, s, loc);
        assert HasAt(vs2, b, s, loc);
      }
    }
  }

  lemma ErasedPlaces(h0: Hal, h: Hal, ps: seq<ThinPage>, fr: seq<ThinPage>, i: nat, p: ThinPage, index: nat, span: nat,
                     j: nat)
    requires BaseOk(h0, ps, fr) && HalOk(h0) && HalOk(h) && i < |ps| && Placed(h0, ps[i]) && Placed(h, p)
    requires KeptAt(LocsOf(h0, ps[i]), j, index)
    requires ErasedFrom(h0, ps[i], h, p, index, span)
    ensures Vacated(View(h0), View(h), ps[i].sequence, index)
    ensures SameBytes(h0, ps, h, ps[i := p])
    ensures Has(View(h0), ps[i].sequence, LocsOf(h0, ps[i])[j])
  {
    hide BaseOk, BodyOk, ScanFrom, Without, GoodLocs, Vacated;
    BaseSequences(h0, ps, fr);
    ViewTouched(h0, h, ps[i].addr);
    PlacedView(h0, ps[i]);
    PlacedView(h, p);
    VacatedBy(View(h0), ps[i].addr, index, View(h));
    assert HasAt(View(h0), ps[i].addr, ps[i].sequence, LocsOf(h0, ps[i])[j]);
  }

  lemma SweptRefl(h: Hal, ps: seq<ThinPage>, vs: seq<PageView>, k: FullKey, start: nat)
    ensures SweptPlaces(vs, vs, k, start) && SameBytes(h, ps, h, ps)
  {}

  lemma SweptMore(vs0: seq<PageView>, vs1: seq<PageView>, vs2: seq<PageView>, k: FullKey, start: nat, at: Place)
    requires SweptPlaces(vs0, vs1, k, start) && Vacated(vs1, vs2, at.sequence, at.loc.index) &&
             Has(vs1, at.sequence, at.loc)
    requires KeyOf(at.loc.rec.item) == k && IsPart(at.loc.rec, start) && SinglePlaces(vs1)
    ensures SweptPlaces(vs0, vs2, k, start)
  {
    hide Has;
  }

  /** A place holds one item. */
  ghost predicate SinglePlaces(vs: seq<PageView>) {
    forall s: nat, x: Loc, y: Loc | Has(vs, s, x) && Has(vs, s, y) && x.index == y.index :: x == y
  }

  lemma InstPlaces(h: Hal, ps: seq<ThinPage>, fr: seq<ThinPage>)
    requires BaseOk(h, ps, fr)
    ensures SinglePlaces(View(h))
  {
    hide BaseOk, ViewOf, ScanFrom;
    BaseHal(h, ps, fr);
    BaseSequences(h, ps, fr);
    var vs := View(h);
    forall s: nat, x: Loc, y: Loc | Has(vs, s, x) && Has(vs, s, y) && x.index == y.index ensures x == y {
      var a: nat :| HasAt(vs, a, s, x);
      var b: nat :| HasAt(vs, b, s, y);
      ViewScan(h, a);
      ScanOrdered(h.codec, h.sectors[a], 0);
    }
  }

  lemma ViewScan(h: Hal, a: nat)
    requires HalOk(h) && a < |h.sectors| && View(h)[a].Used?
    ensures View(h)[a].locs == ScanFrom(h.codec, h.sectors[a], 0)
  {}
}
