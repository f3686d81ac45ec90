/** Boot as recovery (init.rs, load_sectors): the scan of all sectors, the page order, and finishing a
    defragmentation the power cut short. */
module Recovery {
  import opened Types
  import opened Sectors
  import opened Flash
  import opened Pages
  import opened PageOps
  import opened Scan
  import opened Store
  import opened Instance
  import opened Moves
  import opened Compaction
  import opened Lookup
  import opened Transfer
  import opened Changes
  import opened Names
  import opened Setting
  import opened Winners
  import opened Observations
  import opened Cleanup
  import opened Duplicates

  // ---- the scan ----

  /** What the scan has established when it reaches sector a: the flash says what it said before. */
  ghost predicate ScanOk(h0: Hal, h: Hal) {
    && SectorsOk(h0) && SectorsOk(h) && h.codec == h0.codec && h.ws == h0.ws && |h.sectors| == |h0.sectors|
    && View(h) == View(h0)
    && forall a | 0 <= a < |h0.sectors| && Dense(h0.codec, h0.sectors[a]) && InUse(h0.sectors[a]) ::
         Dense(h.codec, h.sectors[a])
  }

  ghost predicate Sorted(h: Hal, ps: seq<ThinPage>, fr: seq<ThinPage>, a: nat)
    requires HalOk(h)
  {
    && (forall i | 0 <= i < |ps| :: Placed(h, ps[i]) && ps[i].addr < a)
    && (forall i | 0 <= i < |fr| :: FreeOk(h, fr[i]) && fr[i].addr < a)
    && Addrs(ps) + Addrs(fr) == AllSectors(a)
  }

  /** A sector the scan can load for good: whatever power cuts and other drivers left, as long as the
      items have the shapes asked for. */
  ghost predicate Fit(c: Codec, s: Sector) {
    Shape(s) && (InUse(s) ==> Markable(c, s) && GoodLocs(c, ScanFrom(c, s, 0)))
  }

  ghost predicate FlashFit(h: Hal) { HalOk(h) && forall a | 0 <= a < |h.sectors| :: Fit(h.codec, h.sectors[a]) }

  lemma SectorsFit(h: Hal)
    requires SectorsOk(h)
    ensures FlashFit(h)
  {
    hide ScanFrom, Sound, GoodLocs, Markable;
    forall a | 0 <= a < |h.sectors| ensures Fit(h.codec, h.sectors[a]) {
      assert SectorOk(h.codec, h.sectors[a]);
      if InUse(h.sectors[a]) { SoundMarkable(h.codec, h.sectors[a]); }
    }
  }

  /** An instance can always be loaded again. */
  lemma BaseFit(h: Hal, ps: seq<ThinPage>, fr: seq<ThinPage>)
    requires BaseOk(h, ps, fr)
    ensures FlashFit(h) && SequencesDiffer(View(h))
  {
    hide BaseOk, ScanFrom, Sound, GoodLocs, Markable;
    BaseHal(h, ps, fr);
    BaseSequences(h, ps, fr);
    forall a | 0 <= a < |h.sectors| ensures Fit(h.codec, h.sectors[a]) {
      BaseSector(h, ps, fr, a);
      if InUse(h.sectors[a]) { SoundMarkable(h.codec, h.sectors[a]); }
    }
  }

  lemma GoodNarrow(c: Codec, s: Sector)
    requires Shape(s) && GoodLocs(c, ScanFrom(c, s, 0))
    ensures Narrow(ScanFrom(c, s, 0)) && WfLocs(ScanFrom(c, s, 0))
  {
    hide ScanFrom;
    forall j | 0 <= j < |ScanFrom(c, s, 0)|
      ensures WfItem(ScanFrom(c, s, 0)[j].rec.item)
      ensures ScanFrom(c, s, 0)[j].rec.item.ns == 0 ==> ScanFrom(c, s, 0)[j].rec.item.span == 1
    {
      assert GoodRec(c, ScanFrom(c, s, 0)[j].rec);
    }
  }

  /** The scan of one sector in use went through. */
  lemma ScannedFit(h: Hal, a: nat, h2: Hal, p: ThinPage)
    requires HalOk(h) && HalOk(h2) && Touched(h, h2, a) && Fit(h.codec, h.sectors[a]) && InUse(h.sectors[a]) &&
             p.addr == a
    requires ScannedPage(h.codec, h.sectors[a], h2.sectors[a], p)
    requires h.sectors[a].header == Some(Header(p.state, p.sequence, true))
    ensures Placed(h2, p) && View(h2) == View(h)
  {
    hide ScanFrom, GoodLocs, BodyOk, Markable, Gapless;
    GoodNarrow(h.codec, h.sectors[a]);
    ViewTouched(h, h2, a);
    assert ViewOf(h2.codec, h2.sectors[a]) == View(h)[a];
    assert View(h2) == View(h);
  }

  lemma SectorRecoverable(c: Codec, s: Sector)
    requires SectorOk(c, s) && InUse(s)
    ensures Recoverable(c, s) && s.header.Some?
  {
    hide ScanFrom, Sound;
    forall j | 0 <= j < |ScanFrom(c, s, 0)| && ScanFrom(c, s, 0)[j].rec.item.ns == 0
      ensures ScanFrom(c, s, 0)[j].rec.item.span == 1
    {
      assert GoodRec(c, ScanFrom(c, s, 0)[j].rec);
    }
  }

  /** The scan of one sector in use. */
  lemma ScannedUsed(h0: Hal, h: Hal, a: nat, h2: Hal)
    requires ScanOk(h0, h) && HalOk(h2) && Touched(h, h2, a) && InUse(h.sectors[a]) &&
             SameScan(h.codec, h.sectors[a], h2.sectors[a])
    requires Dense(h.codec, h.sectors[a]) ==> Dense(h.codec, h2.sectors[a])
    ensures ScanOk(h0, h2)
  {
    hide ScanFrom, Sound, GoodLocs, Dense;
    ViewTouched(h, h2, a);
    assert ViewOf(h2.codec, h2.sectors[a]) == View(h)[a];
    assert View(h2) == View(h);
    SectorSame(h.codec, h.sectors[a], h2.sectors[a]);
    SectorsTouched(h, h2, a);
    forall b | 0 <= b < |h0.sectors| && Dense(h0.codec, h0.sectors[b]) && InUse(h0.sectors[b])
      ensures Dense(h2.codec, h2.sectors[b])
    {
      assert Dense(h.codec, h.sectors[b]);
      if b != a { assert h2.sectors[b] == h.sectors[b]; }
    }
  }

  lemma SectorSame(c: Codec, s: Sector, t: Sector)
    requires SectorOk(c, s) && InUse(s) && Shape(t) && SameScan(c, s, t)
    ensures SectorOk(c, t) && InUse(t)
  {
    hide ScanFrom, Sound, GoodLocs;
  }

  lemma SortedUsed(h: Hal, ps: seq<ThinPage>, fr: seq<ThinPage>, a: nat, h2: Hal, p: ThinPage)
    requires HalOk(h) && HalOk(h2) && Sorted(h, ps, fr, a) && Touched(h, h2, a) && p.addr == a && Placed(h2, p)
    ensures Sorted(h2, ps + [p], fr, a + 1)
  {
    hide Placed, FreeOk, Addrs, AllSectors;
    forall i | 0 <= i < |ps| ensures Placed(h2, ps[i]) { PlacedElsewhere(h, h2, a, ps[i]); }
    forall i | 0 <= i < |fr| ensures FreeOk(h2, fr[i]) { FreeElsewhere(h, h2, a, fr[i]); }
    AddrsSnoc(ps, p);
    OneMoreSector(a);
    Reshuffle(Addrs(ps), multiset{a}, Addrs(fr));
  }

  lemma SortedFree(h: Hal, ps: seq<ThinPage>, fr: seq<ThinPage>, a: nat, p: ThinPage)
    requires HalOk(h) && Sorted(h, ps, fr, a) && p.addr == a && FreeOk(h, p)
    ensures Sorted(h, ps, fr + [p], a + 1)
  {
    hide Placed, FreeOk, Addrs, AllSectors;
    AddrsSnoc(fr, p);
    OneMoreSector(a);
    Associate(Addrs(ps), Addrs(fr), multiset{a});
  }

  lemma OneMoreSector(a: nat)
    ensures AllSectors(a + 1) == AllSectors(a) + multiset{a}
  {}

  lemma Reshuffle<T>(x: multiset<T>, y: multiset<T>, z: multiset<T>)
    ensures (x + y) + z == (x + z) + y
  {}

  lemma SortedBase(h: Hal, ps: seq<ThinPage>, fr: seq<ThinPage>)
    requires HalOk(h) && Sorted(h, ps, fr, |h.sectors|) && SequencesDiffer(View(h))
    ensures BaseOk(h, ps, fr)
  {
    hide Placed, FreeOk, Addrs, AllSectors, ViewOf;
    forall i, j | 0 <= i < |ps| && 0 <= j < |ps| && i != j ensures ps[i].sequence != ps[j].sequence {
      AllSectorsCount(|h.sectors|, ps[i].addr);
      if i < j { AddrsPair(ps, i, j); } else { AddrsPair(ps, j, i); }
      PlacedView(h, ps[i]);
      PlacedView(h, ps[j]);
    }
  }

  lemma ViewsWf(h: Hal)
    requires FlashFit(h)
    ensures WfViews(View(h))
  {
    hide ScanFrom, Markable;
    forall a | 0 <= a < |h.sectors| && View(h)[a].Used? ensures WfLocs(View(h)[a].locs) {
      assert Fit(h.codec, h.sectors[a]);
      GoodNarrow(h.codec, h.sectors[a]);
    }
  }

  lemma NotesSnoc(vs: seq<PageView>, a: nat)
    requires WfViews(vs) && a < |vs|
    ensures WfViews(vs[..a]) && WfViews(vs[..a + 1])
    ensures vs[a].Used? ==> WfLocs(vs[a].locs)
    ensures vs[a].Used? ==> NotedIn(vs[..a + 1]) == NoteAll(NotedIn(vs[..a]), vs[a].sequence, vs[a].locs)
    ensures vs[a].Used? ==> NamesIn(vs[..a + 1]) == NamespacesOf(NamesIn(vs[..a]), vs[a].locs)
    ensures vs[a].Free? ==> NotedIn(vs[..a + 1]) == NotedIn(vs[..a]) && NamesIn(vs[..a + 1]) == NamesIn(vs[..a])
  {
    assert vs[..a + 1][..a] == vs[..a];
  }

  lemma ScanStart(h: Hal)
    requires FlashFit(h)
    ensures HalOk(h) && Sorted(h, [], [], 0) && WfViews(View(h)) && BlankMaps([]) && (SectorsOk(h) ==> ScanOk(h, h))
    ensures NotedIn(View(h)[..0]) == map[] && NamesIn(View(h)[..0]) == map[]
  {
    ViewsWf(h);
  }

  /** The next power cut finds what this one found. */
  lemma ScanRecovers(h0: Hal, h: Hal, kv: Contents, gc: Gc)
    requires RecoversIn(h0, kv, gc) && ScanOk(h0, h)
    ensures RecoversIn(h, kv, gc)
  {
    hide View, Resolves, SectorOk, GcOk, Dense;
    if gc.Moving? && gc.tgt.Some? { TargetInUse(h0, gc); }
  }

  lemma TargetInUse(h: Hal, gc: Gc)
    requires FlashOk(h, gc) && gc.Moving? && gc.tgt.Some?
    ensures gc.tgt.value < |h.sectors| && InUse(h.sectors[gc.tgt.value])
  {}

  // ---- the page order ----

  /** No blank entry left. */
  predicate NoRoom(s: Sector) { Shape(s) && s.emap[ENTRIES_PER_PAGE - 1] != Empty }

  ghost predicate ActiveAbove(h: Hal, sequence: nat)
    requires HalOk(h)
  {
    exists b :: 0 <= b < |h.sectors| && View(h)[b].Used? && View(h)[b].state == Active && View(h)[b].sequence > sequence
  }

  /** Sector a held an active page that was retired: it has no room, or is not the newest of them. */
  ghost predicate RetiredAt(h0: Hal, h: Hal, a: nat)
    requires HalOk(h0)
  {
    && a < |h0.sectors| == |h.sectors| && View(h0)[a].Used? && View(h0)[a].state == Active
    && h.sectors[a] == WithState(h0.sectors[a], Full)
    && (NoRoom(h0.sectors[a]) || ActiveAbove(h0, View(h0)[a].sequence))
  }

  ghost predicate OnlyRetired(h0: Hal, h: Hal) {
    && HalOk(h0) && HalOk(h) && h.codec == h0.codec && h.ws == h0.ws && |h.sectors| == |h0.sectors|
    && forall a | 0 <= a < |h0.sectors| :: h.sectors[a] == h0.sectors[a] || RetiredAt(h0, h, a)
  }

  /** Only the last page can be active, with room for an item. */
  predicate ActiveLast(ps: seq<ThinPage>) {
    forall i | 0 <= i < |ps| && ps[i].state == Active :: i == |ps| - 1 && !IsFull(ps[i])
  }

  lemma MarkedBase(h: Hal, ps: seq<ThinPage>, fr: seq<ThinPage>, i: nat, h2: Hal)
    requires BaseOk(h, ps, fr) && i < |ps| && ps[i].state == Active && ps[i].addr < |h.sectors|
    requires Moved(h, h2, ps[i].addr, WithState(h.sectors[ps[i].addr], Full))
    ensures BaseOk(h2, ps[i := ps[i].(state := Full)], fr) && HalOk(h2)
  {
    hide Placed, FreeOk, Addrs, AllSectors, SectorOk, BaseOk;
    BasePlaced(h, ps, fr, i);
    StateShape(h.sectors[ps[i].addr]);
    HalMoved(h, h2, ps[i].addr, WithState(h.sectors[ps[i].addr], Full));
    PlacedState(h, h2, ps[i], Full);
    BaseReplace(h, h2, ps, fr, i, ps[i].(state := Full));
  }

  lemma StateShape(s: Sector)
    requires Shape(s)
    ensures Shape(WithState(s, Full))
  {}

  lemma FullNoRoom(h: Hal, p: ThinPage)
    requires HalOk(h) && Placed(h, p) && IsFull(p)
    ensures NoRoom(h.sectors[p.addr])
  {
    hide ScanFrom, HashList, Spans, GoodLocs, Tidy;
    TidyFilled(h.codec, h.sectors[p.addr], 0, NextFree(p));
  }

  lemma RetiredMore(h0: Hal, h: Hal, a: nat, h2: Hal)
    requires OnlyRetired(h0, h) && HalOk(h2) && a < |h.sectors| && h.sectors[a] == h0.sectors[a]
    requires Moved(h, h2, a, WithState(h.sectors[a], Full)) && RetiredAt(h0, h2, a)
    ensures OnlyRetired(h0, h2)
  {
    hide SectorOk, View, NoRoom, ActiveAbove;
    forall b | 0 <= b < |h0.sectors| ensures h2.sectors[b] == h0.sectors[b] || RetiredAt(h0, h2, b) {
      if b != a { assert h2.sectors[b] == h.sectors[b]; }
    }
  }

  lemma RetiredView(h0: Hal, h: Hal, a: nat)
    requires OnlyRetired(h0, h) && a < |h0.sectors|
    ensures View(h)[a] == View(h0)[a] || (RetiredAt(h0, h, a) && View(h)[a] == View(h0)[a].(state := Full))
    ensures View(h)[a].Used? <==> View(h0)[a].Used?
  {
    hide ScanFrom, SectorOk, ActiveAbove, NoRoom;
    if h.sectors[a] != h0.sectors[a] {
      HeaderOnly(h0.codec, h0.sectors[a], Some(Header(Full, h0.sectors[a].header.value.sequence, true)), 0);
    }
  }

  /** Page states play no part in what keys read. */
  ghost predicate SameItems(vs: seq<PageView>, vs2: seq<PageView>) {
    && |vs2| == |vs|
    && forall a | 0 <= a < |vs| ::
         vs2[a] == vs[a] || (vs[a].Used? && vs[a].state == Active && vs2[a] == vs[a].(state := Full))
  }

  lemma {:induction false} SameItemsBag(vs: seq<PageView>, vs2: seq<PageView>, k: FullKey)
    requires SameItems(vs, vs2)
    ensures Bag(vs2, k) == Bag(vs, k)
  {
    hide KeyRecs;
    if vs != [] {
      var n := |vs| - 1;
      assert vs2[n] == vs[n] || vs2[n] == vs[n].(state := Full);
      SameItemsBag(vs[..n], vs2[..n], k);
    }
  }

  lemma SameItemsHas(vs: seq<PageView>, vs2: seq<PageView>)
    requires SameItems(vs, vs2)
    ensures forall s: nat, loc: Loc :: Has(vs2, s, loc) <==> Has(vs, s, loc)
  {
    forall s: nat, loc: Loc ensures Has(vs2, s, loc) <==> Has(vs, s, loc) {
      if Has(vs, s, loc) {
        var a: nat :| HasAt(vs, a, s, loc);
        assert HasAt(vs2, a, s, loc);
      }
      if Has(vs2, s, loc) {
        var a: nat :| HasAt(vs2, a, s, loc);
        assert HasAt(vs, a, s, loc);
      }
    }
  }

  lemma SameItemsNoted(vs: seq<PageView>, vs2: seq<PageView>)
    requires SameItems(vs, vs2) && WfViews(vs)
    ensures WfViews(vs2) && NotedIn(vs2) == NotedIn(vs) && NamesIn(vs2) == NamesIn(vs)
  {
    hide NoteAll, NamespacesOf;
    if vs != [] {
      var n := |vs| - 1;
      assert vs2[n] == vs[n] || vs2[n] == vs[n].(state := Full);
      SameItemsNoted(vs[..n], vs2[..n]);
    }
  }

  lemma RetiredItems(h0: Hal, h: Hal)
    requires OnlyRetired(h0, h)
    ensures SameItems(View(h0), View(h))
  {
    hide View, SectorOk;
    forall a | 0 <= a < |h0.sectors|
      ensures View(h)[a] == View(h0)[a] ||
              (View(h0)[a].Used? && View(h0)[a].state == Active && View(h)[a] == View(h0)[a].(state := Full))
    {
      RetiredView(h0, h, a);
    }
  }

  /** Retiring active pages as the boot does changes nothing for the next boot. */
  lemma RetiredRecovers(h0: Hal, h: Hal, kv: Contents, gc: Gc)
    requires RecoversIn(h0, kv, gc) && OnlyRetired(h0, h)
    ensures RecoversIn(h, kv, gc)
  {
    hide View, SectorOk, GcOk, Dense, Bag, Wins, Reads, SameItems;
    RetiredItems(h0, h);
    RetiredSectors(h0, h);
    var vs, vs2 := Logical(View(h0), gc), Logical(View(h), gc);
    LogicalItems(View(h0), View(h), gc);
    SameItemsHas(vs, vs2);
    forall k: FullKey ensures Resolves(h.codec, vs2, gc, k, Get(kv, k)) {
      SameItemsBag(vs, vs2, k);
      assert Resolves(h0.codec, vs, gc, k, Get(kv, k));
      if Wins(h0.codec, vs, k, Get(kv, k)) { WinsSame(h.codec, vs, vs2, k, Get(kv, k)); }
    }
    RetiredGc(h0, h, gc);
    if gc.Moving? && gc.tgt.Some? { TargetInUse(h0, gc); RetiredDense(h0, h, gc.tgt.value); }
  }

  lemma RetiredSectors(h0: Hal, h: Hal)
    requires SectorsOk(h0) && OnlyRetired(h0, h)
    ensures SectorsOk(h)
  {
    hide SectorOk, NoRoom, ActiveAbove, View;
    forall a | 0 <= a < |h.sectors| ensures SectorOk(h.codec, h.sectors[a]) {
      assert SectorOk(h0.codec, h0.sectors[a]);
      if h.sectors[a] != h0.sectors[a] { RetiredSector(h0, h, a); }
    }
  }

  lemma RetiredSector(h0: Hal, h: Hal, a: nat)
    requires HalOk(h0) && RetiredAt(h0, h, a) && SectorOk(h0.codec, h0.sectors[a])
    ensures SectorOk(h0.codec, h.sectors[a])
  {
    hide ScanFrom, Tidy, GoodLocs, NoRoom, ActiveAbove;
    var s, t := h0.sectors[a], h.sectors[a];
    var n: nat, m: nat :| SoundAt(h0.codec, s, n, m);
    HeaderOnly(h0.codec, s, t.header, n);
    assert t == s.(header := t.header);
    assert SoundAt(h0.codec, t, n, m) by { if n < m { assert Entry(t, n) == Entry(s, n); } }
  }

  lemma LogicalItems(vs: seq<PageView>, vs2: seq<PageView>, gc: Gc)
    requires SameItems(vs, vs2)
    ensures SameItems(Logical(vs, gc), Logical(vs2, gc))
  {}

  lemma RetiredDense(h0: Hal, h: Hal, a: nat)
    requires OnlyRetired(h0, h) && a < |h0.sectors| && Dense(h0.codec, h0.sectors[a])
    ensures Dense(h.codec, h.sectors[a])
  {
    hide View, SectorOk, ScanFrom, Spans, Packed, NoRoom, ActiveAbove;
    if h.sectors[a] != h0.sectors[a] {
      HeaderOnly(h0.codec, h0.sectors[a], h.sectors[a].header, 0);
      assert h.sectors[a] == h0.sectors[a].(header := h.sectors[a].header);
    }
  }

  lemma RetiredGc(h0: Hal, h: Hal, gc: Gc)
    requires FlashOk(h0, gc) && OnlyRetired(h0, h)
    ensures GcOk(View(h), gc)
  {
    hide View, SectorOk, Dense, Recs, NoRoom;
    var vs, vs2 := View(h0), View(h);
    forall a | 0 <= a < |vs|
      ensures vs2[a] == vs[a] || (RetiredAt(h0, h, a) && vs2[a] == vs[a].(state := Full))
      ensures vs2[a].Used? <==> vs[a].Used?
    {
      RetiredView(h0, h, a);
    }
    if gc.Moving? && gc.tgt.Some? {
      var t := gc.tgt.value;
      if vs2[t] != vs[t] { FullCopy(h0, h, gc.src, t); }
    }
    if gc.Moving? && gc.tgt.None? {
      var f :| 0 <= f < |vs| && vs[f].Free?;
      assert vs2[f].Free?;
    }
  }

  /** A copy without room left is complete. */
  lemma FullCopy(h0: Hal, h: Hal, src: nat, t: nat)
    requires FlashOk(h0, Moving(src, Some(t))) && t < |h0.sectors| && RetiredAt(h0, h, t)
    ensures Recs(View(h0)[t].locs) == Recs(View(h0)[src].locs)
  {
    hide ScanFrom, SectorOk, Spans, Packed;
    var vs := View(h0);
    assert Newest(vs, t);
    assert NoRoom(h0.sectors[t]);
    assert Dense(h0.codec, h0.sectors[t]);
    assert Spans(vs[t].locs) == ENTRIES_PER_PAGE;
    ScanOrdered(h0.codec, h0.sectors[src], 0);
    SpansBound(vs[src].locs, 0, ENTRIES_PER_PAGE);
    assert InUse(h0.sectors[src]);
    PrefixFull(vs[t].locs, vs[src].locs);
  }

  lemma {:induction false} SpansRecs(xs: seq<Loc>, ys: seq<Loc>)
    requires Recs(xs) == Recs(ys)
    ensures Spans(xs) == Spans(ys)
  {
    if xs != [] {
      assert xs[0].rec == Recs(xs)[0] == Recs(ys)[0] == ys[0].rec;
      assert Recs(xs[1..]) == Recs(xs)[1..] == Recs(ys)[1..] == Recs(ys[1..]);
      SpansRecs(xs[1..], ys[1..]);
    }
  }

  lemma PrefixFull(xs: seq<Loc>, ys: seq<Loc>)
    requires Recs(xs) <= Recs(ys) && Spans(xs) == ENTRIES_PER_PAGE && Spans(ys) <= ENTRIES_PER_PAGE
    requires Ordered(ys, 0, ENTRIES_PER_PAGE)
    ensures Recs(xs) == Recs(ys)
  {
    var n := |xs|;
    assert ys == ys[..n] + ys[n..];
    assert Recs(ys[..n]) == Recs(ys)[..n] == Recs(xs);
    SpansRecs(xs, ys[..n]);
    SpansAppend(ys[..n], ys[n..]);
    SomeSpan(ys[n..]);
  }

  lemma SomeSpan(locs: seq<Loc>)
    requires forall j | 0 <= j < |locs| :: locs[j].rec.item.span >= 1
    ensures locs != [] ==> Spans(locs) >= 1
  {}

  lemma ScanSector(h: Hal, a: nat)
    requires HalOk(h) && a < |h.sectors| && Fit(h.codec, h.sectors[a])
    ensures InUse(h.sectors[a]) ==> Narrow(ScanFrom(h.codec, h.sectors[a], 0))
    ensures InUse(h.sectors[a]) ==> View(h)[a].Used? && View(h)[a].locs == ScanFrom(h.codec, h.sectors[a], 0)
    ensures InUse(h.sectors[a]) ==>
              h.sectors[a].header.Some? && View(h)[a].sequence == h.sectors[a].header.value.sequence
    ensures !InUse(h.sectors[a]) ==> View(h)[a].Free?
  {
    hide ScanFrom, GoodLocs, Markable;
    if InUse(h.sectors[a]) { GoodNarrow(h.codec, h.sectors[a]); }
  }

  lemma SectorAt(h: Hal, a: nat)
    requires SectorsOk(h) && a < |h.sectors|
    ensures InUse(h.sectors[a]) ==> Recoverable(h.codec, h.sectors[a])
    ensures !InUse(h.sectors[a]) ==> h.sectors[a].header.None? || BlankMap(h.sectors[a].emap)
  {
    hide ScanFrom, Sound, GoodLocs;
    assert SectorOk(h.codec, h.sectors[a]);
    if InUse(h.sectors[a]) { SectorRecoverable(h.codec, h.sectors[a]); }
  }

  lemma ScanFacts(h0: Hal, h: Hal)
    requires ScanOk(h0, h)
    ensures SectorsOk(h) && View(h) == View(h0) && |h.sectors| == |h0.sectors|
  {
    hide View, SectorOk;
  }

  lemma FitAt(h: Hal, a: nat)
    requires FlashFit(h) && a < |h.sectors|
    ensures Fit(h.codec, h.sectors[a])
  {}

  lemma FitHal(h: Hal)
    requires FlashFit(h)
    ensures HalOk(h)
  {}

  lemma EmptyScanned(h: Hal, a: nat, p: ThinPage)
    requires HalOk(h) && a < |h.sectors| && !InUse(h.sectors[a]) && Unused(h.sectors[a], a, p)
    ensures FreeOk(h, p)
    ensures h.sectors[a].header.None? || BlankMap(h.sectors[a].emap) ==> BlankMap(p.emap)
  {}

  lemma RetiredNone(h: Hal)
    requires HalOk(h)
    ensures OnlyRetired(h, h)
  {
    hide View;
  }

  lemma SwapBase(h: Hal, ps: seq<ThinPage>, fr: seq<ThinPage>, i: nat, j: nat)
    requires BaseOk(h, ps, fr) && i < j < |ps|
    ensures BaseOk(h, ps[i := ps[j]][j := ps[i]], fr)
  {
    hide Placed, FreeOk, Addrs, AllSectors;
    var ps1 := ps[i := ps[j]];
    var ps2 := ps1[j := ps[i]];
    AddrsSet(ps, i, ps[j]);
    AddrsSet(ps1, j, ps[i]);
    SwapCount(Addrs(ps), Addrs(ps1), Addrs(ps2), ps[i].addr, ps[j].addr);
    BaseReorder(h, ps, fr, ps2, fr);
  }

  lemma SwapCount(x: multiset<nat>, y: multiset<nat>, z: multiset<nat>, a: nat, b: nat)
    requires y + multiset{a} == x + multiset{b} && z + multiset{b} == y + multiset{a}
    ensures z == x
  {
    assert z + multiset{b} == x + multiset{b};
    CancelSame(z, x, multiset{b});
  }

  lemma RetiredHere(h0: Hal, h1: Hal, p: ThinPage, h: Hal)
    requires HalOk(h0) && HalOk(h1) && p.state == Active && Placed(h1, p) && |h1.sectors| == |h0.sectors| &&
             h1.codec == h0.codec
    requires p.addr < |h1.sectors| && h1.sectors[p.addr] == h0.sectors[p.addr]
    requires Moved(h1, h, p.addr, WithState(h1.sectors[p.addr], Full))
    requires NoRoom(h0.sectors[p.addr]) || ActiveAbove(h0, p.sequence)
    ensures RetiredAt(h0, h, p.addr)
  {
    hide ScanFrom, BodyOk, GoodLocs, NoRoom, ActiveAbove;
    PlacedView(h1, p);
    assert ViewOf(h0.codec, h0.sectors[p.addr]) == ViewOf(h1.codec, h1.sectors[p.addr]);
  }

  lemma RetiredFacts(h0: Hal, h: Hal)
    requires OnlyRetired(h0, h)
    ensures HalOk(h0) && HalOk(h) && |h.sectors| == |h0.sectors| && h.codec == h0.codec
  {}

  lemma PageAddrs(h: Hal, ps: seq<ThinPage>, fr: seq<ThinPage>)
    requires BaseOk(h, ps, fr)
    ensures forall i | 0 <= i < |ps| :: ps[i].addr < |h.sectors|
  {
    hide Placed, FreeOk, Addrs, AllSectors, BaseOk;
    forall i | 0 <= i < |ps| ensures ps[i].addr < |h.sectors| { BasePlaced(h, ps, fr, i); }
  }

  lemma AboveActive(h: Hal, ps: seq<ThinPage>, fr: seq<ThinPage>, i: nat, last: nat)
    requires BaseOk(h, ps, fr) && i < last < |ps| && ps[last].state == Active && ps[i].sequence <= ps[last].sequence
    ensures HalOk(h) && ActiveAbove(h, ps[i].sequence)
  {
    hide Placed, FreeOk, Addrs, AllSectors, ViewOf;
    BasePlaced(h, ps, fr, last);
    PlacedView(h, ps[last]);
  }

  lemma FullRoomless(h: Hal, ps: seq<ThinPage>, fr: seq<ThinPage>, i: nat, h0: Hal)
    requires BaseOk(h, ps, fr) && i < |ps| && IsFull(ps[i]) && OnlyRetired(h0, h)
    requires ps[i].addr < |h.sectors| && h.sectors[ps[i].addr] == h0.sectors[ps[i].addr]
    ensures NoRoom(h0.sectors[ps[i].addr])
  {
    hide BaseOk, SectorOk;
    BasePlaced(h, ps, fr, i);
    FullNoRoom(h, ps[i]);
  }

  /** The page being moved is the same one. */
  ghost predicate SameFreeing(h0: Hal, h: Hal) {
    && HalOk(h0) && HalOk(h) && |h.sectors| == |h0.sectors|
    && forall a | 0 <= a < |h0.sectors| && View(h)[a].Used? && View(h)[a].state == Freeing :: View(h)[a] == View(h0)[a]
  }

  lemma ScannedSame(h0: Hal, h: Hal)
    requires ScanOk(h0, h)
    ensures SameFreeing(h0, h)
  {
    hide View, SectorOk;
  }

  lemma ScannedItems(h0: Hal, h: Hal)
    requires ScanOk(h0, h)
    ensures View(h) == View(h0) && SameItems(View(h0), View(h))
  {
    hide View, SectorOk;
  }

  lemma RetiredSame(h0: Hal, h1: Hal, h: Hal)
    requires SameFreeing(h0, h1) && OnlyRetired(h1, h)
    ensures SameFreeing(h0, h)
  {
    hide View, SectorOk;
    forall a | 0 <= a < |h0.sectors| && View(h)[a].Used? && View(h)[a].state == Freeing
      ensures View(h)[a] == View(h0)[a]
    {
      RetiredView(h1, h, a);
    }
  }

  // ---- finishing a defragmentation ----

  /** Hash entry y of the source has the same raw header as hash entry x of the candidate. */
  ghost predicate Twins(h: Hal, candidate: ThinPage, source: ThinPage, x: nat, y: nat)
    requires HalOk(h) && Loaded(h, candidate) && Loaded(h, source)
  {
    && x < |candidate.hashes| && y < |source.hashes| && source.hashes[y].hash == candidate.hashes[x].hash
    && candidate.hashes[x].index < ENTRIES_PER_PAGE && source.hashes[y].index < ENTRIES_PER_PAGE
    && Entry(h.sectors[source.addr], source.hashes[y].index) == Entry(h.sectors[candidate.addr],
       candidate.hashes[x].index)
  }

  ghost predicate HasTwin(h: Hal, candidate: ThinPage, source: ThinPage, x: nat, n: nat)
    requires HalOk(h) && Loaded(h, candidate) && Loaded(h, source)
  {
    exists y: nat :: y < n && Twins(h, candidate, source, x, y)
  }

  /** Every hashed item of the candidate has a twin on the source. */
  ghost predicate IsCopy(h: Hal, candidate: ThinPage, source: ThinPage)
    requires HalOk(h) && Loaded(h, candidate) && Loaded(h, source)
  {
    forall x: nat | x < |candidate.hashes| :: HasTwin(h, candidate, source, x, |source.hashes|)
  }

  lemma HashItem(h: Hal, p: ThinPage, x: nat) returns (j: nat)
    requires HalOk(h) && Loaded(h, p) && x < |p.hashes|
    ensures j < |LocsOf(h, p)| && LocsOf(h, p)[j].rec.item.ns != 0 &&
            LocsOf(h, p)[j].index == p.hashes[x].index < ENTRIES_PER_PAGE
    ensures p.hashes[x].hash == ItemHash(h.codec, LocsOf(h, p)[j].rec.item)
    ensures LoadItem(h, p, p.hashes[x].index) == Some(LocsOf(h, p)[j].rec.item)
    ensures |LocsOf(h, p)[j].rec.raw| >= 32 &&
            LocsOf(h, p)[j].rec.raw[..32] == Entry(h.sectors[p.addr], p.hashes[x].index)
  {
    hide ScanFrom, HashList;
    var locs := LocsOf(h, p);
    PageHashes(h, p);
    ScanOrdered(h.codec, h.sectors[p.addr], 0);
    HashListSpots(h.codec, locs, 0, ENTRIES_PER_PAGE);
    assert Hashed(h.codec, locs, p.hashes[x]);
    var i :| HashedAt(h.codec, locs, p.hashes[x], i);
    j := i;
    LoadsKept(h, p, j);
    RecEntry(h.sectors[p.addr], locs[j], h.codec);
  }

  lemma RecEntry(s: Sector, loc: Loc, c: Codec)
    requires Shape(s) && loc.index < ENTRIES_PER_PAGE && c.parse(Entry(s, loc.index)).Some?
    requires Fits(c.parse(Entry(s, loc.index)).value, loc.index) && loc.rec == RecAt(c, s, loc.index)
    ensures loc.rec.raw[..32] == Entry(s, loc.index)
  {}

  lemma ItemHashEntry(h: Hal, p: ThinPage, j: nat) returns (x: nat)
    requires HalOk(h) && Loaded(h, p) && j < |LocsOf(h, p)| && LocsOf(h, p)[j].rec.item.ns != 0
    ensures x < |p.hashes| && p.hashes[x] == HashEntry(ItemHash(h.codec, LocsOf(h, p)[j].rec.item),
            LocsOf(h, p)[j].index)
  {
    hide ScanFrom, HashList;
    var locs := LocsOf(h, p);
    PageHashes(h, p);
    ScanOrdered(h.codec, h.sectors[p.addr], 0);
    HashListSpots(h.codec, locs, 0, ENTRIES_PER_PAGE);
    var e := HashEntry(ItemHash(h.codec, locs[j].rec.item), locs[j].index);
    assert e in HashList(h.codec, locs);
    x :| 0 <= x < |p.hashes| && p.hashes[x] == e;
  }

  /** A first part of the source's items passes for a copy of it. */
  lemma CopyPasses(h: Hal, candidate: ThinPage, source: ThinPage)
    requires HalOk(h) && Loaded(h, candidate) && Loaded(h, source) &&
             Recs(LocsOf(h, candidate)) <= Recs(LocsOf(h, source))
    ensures IsCopy(h, candidate, source)
  {
    hide LocsOf, BodyOk;
    forall x: nat | x < |candidate.hashes| ensures HasTwin(h, candidate, source, x, |source.hashes|) {
      var j := HashItem(h, candidate, x);
      assert Recs(LocsOf(h, candidate))[j] == Recs(LocsOf(h, source))[j];
      var y := ItemHashEntry(h, source, j);
      var j2 := HashItem(h, source, y);
      SourceUnique(h, source, j, j2);
      assert Twins(h, candidate, source, x, y);
    }
  }

  lemma SourceUnique(h: Hal, p: ThinPage, i: nat, j: nat)
    requires HalOk(h) && i < |LocsOf(h, p)| && j < |LocsOf(h, p)| && LocsOf(h, p)[i].index == LocsOf(h, p)[j].index
    ensures i == j
  {
    hide ScanFrom;
    ScanOrdered(h.codec, h.sectors[p.addr], 0);
  }

  /** Hash entries x and y hold items of the same identity. */
  ghost predicate SameIdentity(h: Hal, newest: ThinPage, source: ThinPage, x: nat, y: nat)
    requires HalOk(h) && Loaded(h, newest) && Loaded(h, source)
  {
    && x < |source.hashes| && y < |newest.hashes| && newest.hashes[y].hash == source.hashes[x].hash
    && newest.hashes[y].index < ENTRIES_PER_PAGE && source.hashes[x].index < ENTRIES_PER_PAGE
    && var it, it2 := LoadItem(h, source, source.hashes[x].index), LoadItem(h, newest, newest.hashes[y].index);
    && it.Some? && it2.Some? && Matches(it2.value, it.value.ns, it.value.key, it.value.chunk)
  }

  ghost predicate HasSame(h: Hal, newest: ThinPage, source: ThinPage, x: nat)
    requires HalOk(h) && Loaded(h, newest) && Loaded(h, source)
  {
    exists y: nat :: SameIdentity(h, newest, source, x, y)
  }

  predicate IsNewest(ps: seq<ThinPage>, n: nat) {
    n < |ps| && forall x | 0 <= x < |ps| :: ps[x].sequence <= ps[n].sequence
  }

  ghost predicate HoldsAllAt(h: Hal, ps: seq<ThinPage>, source: ThinPage, n: nat)
    requires AllLoaded(h, ps) && Loaded(h, source)
  {
    && IsNewest(ps, n) && ps[n].sequence > source.sequence
    && forall x: nat | x < |source.hashes| :: HasSame(h, ps[n], source, x)
  }

  /** The newest page is newer than the source and has an item for every hashed item of it. */
  ghost predicate HoldsAll(h: Hal, ps: seq<ThinPage>, source: ThinPage)
    requires AllLoaded(h, ps) && Loaded(h, source)
  {
    exists n: nat :: HoldsAllAt(h, ps, source, n)
  }

  lemma NewestOnly(ps: seq<ThinPage>, n: nat, m: nat)
    requires Ranked(ps) && IsNewest(ps, n) && IsNewest(ps, m)
    ensures n == m
  {
    assert ps[n].sequence == ps[m].sequence;
  }

  // ---- where the defragmentation stands, from the pages ----

  /** A page marked Freeing is the source of the move. */
  lemma SourceKnown(h: Hal, ps: seq<ThinPage>, fr: seq<ThinPage>, kv: Contents, gc: Gc, i: nat)
    requires BaseOk(h, ps, fr) && RecoversIn(h, kv, gc) && i < |ps| && ps[i].state == Freeing
    ensures HalOk(h) && gc.Moving? && gc.src == ps[i].addr && ps[i].addr < |h.sectors|
    ensures forall j | 0 <= j < |ps| && j != i :: ps[j].addr != ps[i].addr && ps[j].addr < |h.sectors|
    ensures forall j | 0 <= j < |ps| && j != i :: ps[j].state == Full || gc.tgt == Some(ps[j].addr)
  {
    hide BaseOk, Bag, ViewOf, SectorOk, Resolves, Dense, ScanFrom;
    PageLocs(h, ps, fr, i);
    forall j | 0 <= j < |ps| && j != i
      ensures ps[j].addr != ps[i].addr && ps[j].addr < |h.sectors| &&
              (ps[j].state == Full || gc.tgt == Some(ps[j].addr))
    {
      PagesApart(h, ps, fr, i, j);
      PageLocs(h, ps, fr, j);
    }
  }

  lemma NoSource(h: Hal, ps: seq<ThinPage>, fr: seq<ThinPage>, kv: Contents, gc: Gc)
    requires BaseOk(h, ps, fr) && RecoversIn(h, kv, gc) && forall i | 0 <= i < |ps| :: ps[i].state != Freeing
    ensures gc.NoGc?
  {
    hide BaseOk, Bag, ViewOf, SectorOk, Resolves, Dense, ScanFrom;
    if gc.Moving? {
      var i := PageOfSector(h, ps, fr, gc.src);
    }
  }

  /** The target, if there is one, is among the pages. */
  lemma TargetPage(h: Hal, ps: seq<ThinPage>, fr: seq<ThinPage>, kv: Contents, gc: Gc, i: nat) returns (t: nat)
    requires BaseOk(h, ps, fr) && RecoversIn(h, kv, gc) && gc.Moving? && gc.tgt.Some? && i < |ps| &&
             ps[i].addr == gc.src
    ensures HalOk(h) && t < |ps| && t != i && ps[t].addr == gc.tgt.value && gc.tgt.value < |h.sectors|
    ensures ps[t].state in {Active, Full} && forall j | 0 <= j < |ps| && j != t :: ps[j].sequence < ps[t].sequence
    ensures ps[t].state == Active ==> Recs(LocsOf(h, ps[t])) <= Recs(LocsOf(h, ps[i]))
    ensures ps[t].state == Full ==> Recs(LocsOf(h, ps[t])) == Recs(LocsOf(h, ps[i]))
  {
    hide BaseOk, Bag, View, SectorOk, Resolves, Dense, LocsOf, Recs;
    t := PageOfSector(h, ps, fr, gc.tgt.value);
    PageLocs(h, ps, fr, i);
    PageLocs(h, ps, fr, t);
    forall j | 0 <= j < |ps| && j != t ensures ps[j].sequence < ps[t].sequence {
      PageLocs(h, ps, fr, j);
      PagesApart(h, ps, fr, j, t);
    }
  }

  /** The partial copy was erased: the move stands where it began. */
  lemma PartialErased(h: Hal, kv: Contents, src: nat, t: nat, h2: Hal)
    requires RecoversIn(h, kv, Moving(src, Some(t))) && SectorsOk(h2) && h2.codec == h.codec &&
             |h2.sectors| == |h.sectors|
    requires t < |h.sectors| && View(h2) == View(h)[t := Free]
    ensures RecoversIn(h2, kv, Moving(src, None)) && HasFree(View(h2))
  {
    hide Bag, View, SectorOk, Resolves, Dense, Recs;
    var vs, vs2 := View(h), View(h2);
    assert vs2[t].Free?;
    assert Logical(vs2, Moving(src, None)) == vs2 == Logical(vs, Moving(src, Some(t)));
    forall k: FullKey ensures Resolves(h2.codec, vs2, Moving(src, None), k, Get(kv, k)) {
      assert Resolves(h.codec, vs2, Moving(src, Some(t)), k, Get(kv, k));
      MovingReads(h.codec, vs2, src, Some(t), k, Get(kv, k));
    }
  }

  lemma MovingReads(c: Codec, vs: seq<PageView>, src: nat, t: Option<nat>, k: FullKey, v: Option<Value>)
    requires Resolves(c, vs, Moving(src, t), k, v)
    ensures Reads(c, Bag(vs, k), v) && Resolves(c, vs, Moving(src, None), k, v)
  {
    hide Reads, Bag, Wins;
  }

  lemma MovingHolds(h: Hal, kv: Contents, src: nat)
    requires RecoversIn(h, kv, Moving(src, None))
    ensures Holds(h, kv) && Marked(h, h, src) && HalOk(h)
  {
    hide Bag, View, SectorOk, Resolves, Dense, GcOk;
    assert Logical(View(h), Moving(src, None)) == View(h);
    forall k: FullKey ensures Reads(h.codec, HBag(h, k), Get(kv, k)) {
      assert Resolves(h.codec, View(h), Moving(src, None), k, Get(kv, k));
      MovingReads(h.codec, View(h), src, None, k, Get(kv, k));
    }
  }

  lemma HoldsRecoversIn(h: Hal, kv: Contents)
    requires FlashOk(h, NoGc) && Holds(h, kv)
    ensures RecoversIn(h, kv, NoGc)
  {
    hide FlashOk, Reads, Bag, View;
    assert Logical(View(h), NoGc) == View(h);
  }

  lemma SameHolds(h: Hal, h2: Hal, kv: Contents)
    requires SameBags(h, h2) && Holds(h, kv)
    ensures Holds(h2, kv)
  {
    hide Bag, View, Reads;
    forall k: FullKey ensures Reads(h2.codec, HBag(h2, k), Get(kv, k)) { assert HBag(h2, k) == HBag(h, k); }
  }

  // ---- erasing a source whose items are elsewhere, or which has none ----

  /** A complete copy holds everything. */
  lemma CopyHoldsAll(h: Hal, ps: seq<ThinPage>, source: ThinPage, t: nat)
    requires AllLoaded(h, ps) && Loaded(h, source) && t < |ps| && Recs(LocsOf(h, ps[t])) == Recs(LocsOf(h, source))
    requires IsNewest(ps, t) && source.sequence < ps[t].sequence
    ensures HoldsAll(h, ps, source)
  {
    hide LocsOf, Loaded;
    forall x: nat | x < |source.hashes| ensures HasSame(h, ps[t], source, x) {
      var j := HashItem(h, source, x);
      assert Recs(LocsOf(h, ps[t]))[j] == Recs(LocsOf(h, source))[j];
      var y := ItemHashEntry(h, ps[t], j);
      var j2 := HashItem(h, ps[t], y);
      SourceUnique(h, ps[t], j, j2);
      assert SameIdentity(h, ps[t], source, x, y);
    }
    assert HoldsAllAt(h, ps, source, t);
  }

  /** The source was erased, and its copy is there. */
  lemma CopiedErased(h: Hal, kv: Contents, src: nat, t: nat, h2: Hal)
    requires RecoversIn(h, kv, Moving(src, Some(t))) && HalOk(h) && HalOk(h2) && h2.codec == h.codec &&
             |h2.sectors| == |h.sectors|
    requires src < |h.sectors| && t < |h.sectors| && View(h)[src].Used? && View(h)[t].Used? && src != t
    requires Recs(View(h)[t].locs) == Recs(View(h)[src].locs) && View(h2) == View(h)[src := Free]
    ensures Holds(h2, kv)
  {
    hide Bag, View, SectorOk, Resolves, Dense, Recs, KeyRecs, Reads, GcOk;
    var vs, vs2 := View(h), View(h2);
    var vl := Logical(vs, Moving(src, Some(t)));
    assert vl == vs[t := Free];
    forall k: FullKey ensures Reads(h2.codec, HBag(h2, k), Get(kv, k)) {
      assert Resolves(h.codec, vl, Moving(src, Some(t)), k, Get(kv, k));
      MovingReads(h.codec, vl, src, Some(t), k, Get(kv, k));
      BagUpdate(vs, t, Free, k);
      BagUpdate(vs, src, Free, k);
      KeyRecsCopy(vs[t].locs, vs[src].locs, k);
      CancelSame(Bag(vs2, k), Bag(vl, k), PageBag(vs[t], k));
    }
  }

  /** The items of a namespace on a page. */
  predicate Ordinary(v: PageView) { v.Used? && exists loc :: loc in v.locs && loc.rec.item.ns != 0 }

  /** A key whose item is elsewhere too would have two. */
  lemma SourceEmpty(h: Hal, ps: seq<ThinPage>, fr: seq<ThinPage>, kv: Contents, source: ThinPage)
    requires BaseOk(h, ps + [source], fr) && AllLoaded(h, ps) && Loaded(h, source) && Holds(h, kv) &&
             HoldsAll(h, ps, source)
    ensures HalOk(h) && source.addr < |h.sectors| && !Ordinary(View(h)[source.addr])
  {
    hide BaseOk, Bag, View, Reads, LocsOf, Loaded;
    var all := ps + [source];
    assert all[|ps|] == source;
    PageLocs(h, all, fr, |ps|);
    var n: nat :| HoldsAllAt(h, ps, source, n);
    assert all[n] == ps[n];
    forall loc | loc in LocsOf(h, source) ensures loc.rec.item.ns == 0 {
      if loc.rec.item.ns != 0 {
        var j :| 0 <= j < |LocsOf(h, source)| && LocsOf(h, source)[j] == loc;
        var x := ItemHashEntry(h, source, j);
        assert HasSame(h, ps[n], source, x);
        SameTwice(h, ps, fr, kv, source, n, x);
        assert false;
      }
    }
  }

  lemma SameTwice(h: Hal, ps: seq<ThinPage>, fr: seq<ThinPage>, kv: Contents, source: ThinPage, n: nat, x: nat)
    requires BaseOk(h, ps + [source], fr) && AllLoaded(h, ps) && Loaded(h, source) && Holds(h, kv) && n < |ps|
    ensures !HasSame(h, ps[n], source, x)
  {
    hide BaseOk, Bag, View, Reads, LocsOf, Loaded;
    var all := ps + [source];
    assert all[|ps|] == source && all[n] == ps[n];
    if HasSame(h, ps[n], source, x) {
      var y: nat :| SameIdentity(h, ps[n], source, x, y);
      var i := HashItem(h, source, x);
      var j := HashItem(h, ps[n], y);
      PagesApart(h, all, fr, |ps|, n);
      LocInBag(h, all, fr, |ps|, i);
      LocInBag(h, all, fr, n, j);
      var r, q := LocsOf(h, source)[i], LocsOf(h, ps[n])[j];
      var k := KeyOf(r.rec.item);
      assert Reads(h.codec, HBag(h, k), Get(kv, k));
      NoTwins(h.codec, HBag(h, k), Get(kv, k), r.rec, q.rec);
      BagPair(View(h), source.addr, i, r, ps[n].addr, j, q);
      assert false;
    }
  }

  lemma NoTwins(c: Codec, b: multiset<Rec>, v: Option<Value>, r: Rec, q: Rec)
    requires Reads(c, b, v) && r.item.chunk == q.item.chunk
    ensures !(multiset{r, q} <= b)
  {
    var m := multiset{r, q};
    assert r in m && q in m;
    if r == q { assert m[r] == 2; }
  }

  // ---- namespace entries lost with a source that holds nothing else ----

  /** kv without the namespaces whose entry is on the page. */
  ghost function NamesDropped(kv: Contents, v: PageView): Contents {
    map k | k in kv && (k.ns != 0 || PageBag(v, k) == multiset{}) :: kv[k]
  }

  /** The keys of every namespace index are kept; namespace entries may be lost. */
  ghost predicate KeysKept(kv: Contents, kv2: Contents) {
    && (forall k: FullKey | k.ns != 0 :: Get(kv2, k) == Get(kv, k))
    && (forall k | k in kv2 :: k in kv && kv2[k] == kv[k])
  }

  lemma DroppedErased(h: Hal, ps: seq<ThinPage>, fr: seq<ThinPage>, kv: Contents, source: ThinPage, h2: Hal)
    requires BaseOk(h, ps + [source], fr) && Holds(h, kv) && source.addr < |h.sectors| &&
             !Ordinary(View(h)[source.addr])
    requires HalOk(h2) && h2.codec == h.codec && |h2.sectors| == |h.sectors| && View(h2) == View(h)[source.addr := Free]
    ensures Holds(h2, NamesDropped(kv, View(h)[source.addr])) && KeysKept(kv, NamesDropped(kv, View(h)[source.addr]))
    ensures LocsOf(h, source) != [] ==> NamesDropped(kv, View(h)[source.addr]) != kv
    ensures LocsOf(h, source) == [] ==> NamesDropped(kv, View(h)[source.addr]) == kv
  {
    hide BaseOk, Bag, View, Reads, LocsOf, PageBag;
    var all := ps + [source];
    assert all[|ps|] == source;
    PageLocs(h, all, fr, |ps|);
    var v := View(h)[source.addr];
    var kv2 := NamesDropped(kv, v);
    forall k: FullKey ensures Reads(h2.codec, HBag(h2, k), Get(kv2, k)) {
      BagUpdate(View(h), source.addr, Free, k);
      FreeBag(k);
      assert Reads(h.codec, HBag(h, k), Get(kv, k));
      if k.ns != 0 { NoneOrdinary(v, k); }
      assert HBag(h2, k) + PageBag(v, k) == HBag(h, k) + multiset{};
      if PageBag(v, k) == multiset{} {
        CancelSame(HBag(h2, k), HBag(h, k), multiset{});
        assert Get(kv2, k) == Get(kv, k);
      } else {
        assert Get(kv2, k) == None;
        NameGone(h, all, fr, kv, k, PageBag(v, k), HBag(h2, k));
      }
    }
    forall k: FullKey | k.ns != 0 ensures Get(kv2, k) == Get(kv, k) {}
    if LocsOf(h, source) != [] {
      var loc := LocsOf(h, source)[0];
      LocInBag(h, all, fr, |ps|, 0);
      var k := KeyOf(loc.rec.item);
      SourceBag(v, 0);
      assert Reads(h.codec, HBag(h, k), Get(kv, k));
      NameHeads(h.codec, HBag(h, k), Get(kv, k), loc.rec);
      OnlyHead(h.codec, HBag(h, k), Get(kv, k));
      assert k in kv && k !in kv2;
    } else {
      forall k: FullKey ensures PageBag(v, k) == multiset{} { EmptyBag(v, k); }
    }
  }

  lemma FreeBag(k: FullKey)
    ensures PageBag(Free, k) == multiset{}
  {}

  lemma EmptyBag(v: PageView, k: FullKey)
    requires v.Used? && v.locs == []
    ensures PageBag(v, k) == multiset{}
  {}

  lemma SourceBag(v: PageView, j: nat)
    requires v.Used? && j < |v.locs|
    ensures v.locs[j].rec in PageBag(v, KeyOf(v.locs[j].rec.item))
  {
    hide KeyRecs;
    KeyRecsHas(v.locs, j, KeyOf(v.locs[j].rec.item));
  }

  lemma NoneOrdinary(v: PageView, k: FullKey)
    requires v.Used? && !Ordinary(v) && k.ns != 0
    ensures PageBag(v, k) == multiset{}
  {
    hide KeyRecs;
    forall j | 0 <= j < |v.locs| ensures KeyOf(v.locs[j].rec.item) != k { assert v.locs[j] in v.locs; }
    KeyRecsNowhere(v.locs, k);
  }

  lemma {:induction false} KeyRecsNowhere(locs: seq<Loc>, k: FullKey)
    requires forall j | 0 <= j < |locs| :: KeyOf(locs[j].rec.item) != k
    ensures KeyRecs(locs, k) == multiset{}
  {
    if locs != [] { KeyRecsNowhere(locs[1..], k); }
  }

  lemma NameHeads(c: Codec, b: multiset<Rec>, v: Option<Value>, r: Rec)
    requires Reads(c, b, v) && r in b && r.item.ns == 0
    ensures IsHead(r)
  {
    assert Typed(c, r);
  }

  lemma NameGone(h: Hal, ps: seq<ThinPage>, fr: seq<ThinPage>, kv: Contents, k: FullKey, gone: multiset<Rec>,
                 b2: multiset<Rec>)
    requires BaseOk(h, ps, fr) && HalOk(h) && k.ns == 0 && Reads(h.codec, HBag(h, k), Get(kv, k)) && gone != multiset{}
    requires b2 + gone == HBag(h, k)
    ensures Reads(h.codec, b2, None)
  {
    hide BaseOk, Bag, View, LocsOf, Typed;
    var b := HBag(h, k);
    OnlyHead(h.codec, b, Get(kv, k));
    forall r | r in b ensures IsHead(r) {
      var i, j := BagOnPage(h, ps, fr, k, r);
      NameHeads(h.codec, b, Get(kv, k), r);
    }
    var r :| r in gone;
    assert r in b && b[r] == 1;
    forall q | q in b ensures q == r {}
    forall q ensures b2[q] == 0 { assert b2[q] + gone[q] == b[q]; }
    assert b2 == multiset{};
  }

  /** The copied page is back in order. */
  lemma FullFlash(h: Hal, ps: seq<ThinPage>, fr: seq<ThinPage>)
    requires BaseOk(h, ps, fr) && BlankMaps(fr) && forall i | 0 <= i < |ps| :: ps[i].state == Full
    ensures FlashOk(h, NoGc) && InstOk(h, ps, fr)
  {
    hide BaseOk, FlashOk;
    FullInst(h, ps, fr);
    InstIdle(h, ps, fr);
  }

  // ---- around continue_free_page ----

  lemma HashesInside(h: Hal, p: ThinPage)
    requires HalOk(h) && Loaded(h, p)
    ensures p.addr < |h.sectors| && forall x | 0 <= x < |p.hashes| :: p.hashes[x].index < ENTRIES_PER_PAGE
  {
    hide BodyOk;
    forall x | 0 <= x < |p.hashes| ensures p.hashes[x].index < ENTRIES_PER_PAGE { var j := HashItem(h, p, x); }
  }

  lemma OneNewest(h: Hal, ps: seq<ThinPage>, source: ThinPage, n: nat)
    requires AllLoaded(h, ps) && Loaded(h, source) && Ranked(ps) && IsNewest(ps, n)
    ensures HoldsAll(h, ps, source) <==> HoldsAllAt(h, ps, source, n)
  {
    hide Loaded, HasSame, Ranked;
    if HoldsAll(h, ps, source) {
      var m: nat :| HoldsAllAt(h, ps, source, m);
      NewestOnly(ps, n, m);
    }
  }

  /** The recovery went through: no move is pending, and the flash stands for kv. */
  ghost predicate Finished(h: Hal, ps: seq<ThinPage>, fr: seq<ThinPage>, kv: Contents) {
    BaseOk(h, ps, fr) && BlankMaps(fr) && RecoversIn(h, kv, NoGc)
  }

  /** No reserve page to copy to, and no copy to keep. */
  ghost predicate Stuck(h: Hal, fr: seq<ThinPage>, gc: Gc)
    requires HalOk(h)
  {
    fr == [] && gc.Moving? && gc.tgt.None? && !HasFree(View(h))
  }

  /** The page being moved holds nothing but namespace entries, has no copy yet, and some page is
      newer: its entries will not be looked for, and go with it. */
  ghost predicate LosesNames(vs: seq<PageView>, gc: Gc) {
    && gc.Moving? && gc.tgt.None? && gc.src < |vs| && vs[gc.src].Used?
    && vs[gc.src].locs != [] && !Ordinary(vs[gc.src]) && Newer(vs, gc.src)
  }

  ghost predicate Newer(vs: seq<PageView>, src: nat)
    requires src < |vs| && vs[src].Used?
  {
    exists b :: 0 <= b < |vs| && vs[b].Used? && vs[b].sequence > vs[src].sequence
  }

  lemma KeptRefl(h: Hal, kv: Contents)
    requires HalOk(h)
    ensures KeysKept(kv, kv) && SameFreeing(h, h)
  {}

  lemma RecoversBy(h: Hal, kv: Contents, gc: Gc)
    requires RecoversIn(h, kv, gc)
    ensures Recovers(h, kv)
  {
    hide RecoversIn;
  }

  lemma SameFreeingBy(h0: Hal, h1: Hal, h2: Hal)
    requires SameFreeing(h0, h1) && SameFreeing(h1, h2)
    ensures SameFreeing(h0, h2)
  {
    hide View;
  }

  lemma FreeingErased(h: Hal, h2: Hal, a: nat)
    requires HalOk(h) && HalOk(h2) && |h2.sectors| == |h.sectors| && a < |h.sectors| && View(h2) == View(h)[a := Free]
    ensures SameFreeing(h, h2)
  {
    hide View;
  }

  lemma SameViewFreeing(h: Hal, h2: Hal)
    requires HalOk(h) && HalOk(h2) && |h2.sectors| == |h.sectors| && View(h2) == View(h)
    ensures SameFreeing(h, h2)
  {
    hide View;
  }

  lemma CopyFreeing(h0: Hal, h2: Hal, h3: Hal, source: ThinPage, t: ThinPage)
    requires HalOk(h0) && HalOk(h2) && |h2.sectors| == |h0.sectors| && t.addr < |h0.sectors|
    requires View(h2) == View(h0)[t.addr := Used(Active, t.sequence, [])] && CopyTorn(h2, h3, source, t)
    ensures SameFreeing(h0, h3)
  {
    hide ScanFrom, SectorOk, ViewOf, Recs, Dense;
    TargetView(h2, h3, t.addr);
  }

  lemma MoveFreeing(h0: Hal, h: Hal, source: ThinPage, t: ThinPage)
    requires MoveDone(h0, h0, h, source, t)
    ensures SameFreeing(h0, h)
  {
    hide View, Marked, SectorOk, Recs, Dense, Above;
  }

  lemma TargetNames(vs: seq<PageView>, gc: Gc)
    requires gc.Moving? && gc.tgt.Some?
    ensures !LosesNames(vs, gc)
  {}

  lemma SourceTaken(h: Hal, ps: seq<ThinPage>, fr: seq<ThinPage>, i: nat)
    requires BaseOk(h, ps, fr) && i < |ps|
    ensures BaseOk(h, SwapRemoved(ps, i) + [ps[i]], fr) && HalOk(h)
    ensures AllLoaded(h, SwapRemoved(ps, i)) && Loaded(h, ps[i]) && Ranked(SwapRemoved(ps, i))
    ensures forall j | 0 <= j < |ps| - 1 :: SwapRemoved(ps, i)[j] == ps[if j == i then |ps| - 1 else j]
    ensures ps[i].addr < |h.sectors| && View(h)[ps[i].addr].Used?
  {
    hide Placed, FreeOk, Addrs, AllSectors, LocsOf;
    var ps2 := SwapRemoved(ps, i) + [ps[i]];
    AddrsSwapRemoved(ps, i);
    AddrsSnoc(SwapRemoved(ps, i), ps[i]);
    BaseReorder(h, ps, fr, ps2, fr);
    PageLocs(h, ps, fr, i);
    BaseLoaded(h, ps, fr);
    forall x, y | 0 <= x < |ps| - 1 && 0 <= y < |ps| - 1 && x != y
      ensures SwapRemoved(ps, i)[x].sequence != SwapRemoved(ps, i)[y].sequence
    {
      assert ps2[x] == SwapRemoved(ps, i)[x] && ps2[y] == SwapRemoved(ps, i)[y];
    }
  }

  lemma PartialTaken(h: Hal, ps: seq<ThinPage>, source: ThinPage, fr: seq<ThinPage>, x: nat)
    requires BaseOk(h, ps + [source], fr) && x < |ps|
    ensures BaseOk(h, SwapRemoved(ps, x) + [source] + [ps[x]], fr)
  {
    hide Placed, FreeOk, Addrs, AllSectors;
    var rest := SwapRemoved(ps, x);
    AddrsSwapRemoved(ps, x);
    AddrsSnoc(ps, source);
    AddrsSnoc(rest, source);
    AddrsSnoc(rest + [source], ps[x]);
    Reshuffle(Addrs(rest), multiset{ps[x].addr}, multiset{source.addr});
    forall j | 0 <= j < |rest| + 2 ensures (rest + [source] + [ps[x]])[j] in ps + [source] {
      if j < |rest| { assert rest[j] == ps[if j == x then |ps| - 1 else j]; }
    }
    BaseReorder(h, ps + [source], fr, rest + [source] + [ps[x]], fr);
  }

  /** The pages in RAM are those on flash, but that a page there was nowhere to copy to goes on as the
      full page it was before it was marked. */
  ghost predicate Faded(ps: seq<ThinPage>, onFlash: seq<ThinPage>) {
    && |ps| == |onFlash|
    && forall i | 0 <= i < |ps| ::
         ps[i] == onFlash[i] || (onFlash[i].state == Freeing && ps[i] == onFlash[i].(state := Full))
  }

  function Freeings(ps: seq<ThinPage>): nat {
    if ps == [] then 0 else Freeings(ps[..|ps| - 1]) + (if ps[|ps| - 1].state == Freeing then 1 else 0)
  }

  lemma FreeingsSnoc(ps: seq<ThinPage>, p: ThinPage)
    ensures Freeings(ps + [p]) == Freeings(ps) + (if p.state == Freeing then 1 else 0)
  {
    assert (ps + [p])[..|ps|] == ps;
  }

  lemma {:induction false} FreeingsCons(p: ThinPage, ps: seq<ThinPage>)
    ensures Freeings([p] + ps) == Freeings(ps) + (if p.state == Freeing then 1 else 0)
  {
    if ps == [] {
      assert [p] + ps == [] + [p];
      FreeingsSnoc([], p);
    } else {
      var n := |ps| - 1;
      FreeingsCons(p, ps[..n]);
      FreeingsSnoc([p] + ps[..n], ps[n]);
      assert ([p] + ps[..n]) + [ps[n]] == [p] + ps;
    }
  }

  lemma {:induction false} FreeingsSet(ps: seq<ThinPage>, i: nat, p: ThinPage)
    requires i < |ps|
    ensures Freeings(ps[i := p]) + (if ps[i].state == Freeing then 1 else 0) == Freeings(ps) +
            (if p.state == Freeing then 1 else 0)
  {
    var n := |ps| - 1;
    if i < n {
      FreeingsSet(ps[..n], i, p);
      assert ps[i := p][..n] == ps[..n][i := p];
    } else {
      assert ps[i := p][..n] == ps[..n];
    }
  }

  lemma FreeingsRemoved(ps: seq<ThinPage>, i: nat)
    requires i < |ps|
    ensures Freeings(SwapRemoved(ps, i)) + (if ps[i].state == Freeing then 1 else 0) == Freeings(ps)
  {
    var n := |ps| - 1;
    if i < n { FreeingsSet(ps[..n], i, ps[n]); }
  }

  lemma FadedTaken(h: Hal, ps: seq<ThinPage>, onFlash: seq<ThinPage>, i: nat)
    requires Faded(ps, onFlash) && i < |ps|
    ensures |ps| == |onFlash| && Faded(SwapRemoved(ps, i), SwapRemoved(onFlash, i))
    ensures AllLoaded(h, SwapRemoved(onFlash, i)) ==> AllLoaded(h, SwapRemoved(ps, i))
    ensures Ranked(SwapRemoved(onFlash, i)) ==> Ranked(SwapRemoved(ps, i))
    ensures ps[i].state != Full ==> ps[i] == onFlash[i]
  {
    hide BodyOk;
    var ps2, onFlash2 := SwapRemoved(ps, i), SwapRemoved(onFlash, i);
    if AllLoaded(h, onFlash2) {
      forall j | 0 <= j < |ps2| ensures Loaded(h, ps2[j]) { FadedBody(h, ps2[j], onFlash2[j]); }
    }
  }

  lemma FadedBody(h: Hal, p: ThinPage, q: ThinPage)
    requires HalOk(h) && Loaded(h, q) && (p == q || p == q.(state := Full))
    ensures Loaded(h, p)
  {}

  lemma FadedSame(ps: seq<ThinPage>)
    ensures Faded(ps, ps)
  {}

  lemma FadedNext(ps: seq<ThinPage>, onFlash: seq<ThinPage>, p: ThinPage)
    requires Faded(ps, onFlash)
    ensures Faded(ps + [p], onFlash + [p])
    ensures forall i | 0 <= i < |onFlash| :: onFlash[i].sequence == ps[i].sequence
  {}

  /** The source stays, in RAM as a full page. */
  lemma SourceBack(h: Hal, ps: seq<ThinPage>, onFlash: seq<ThinPage>, source: ThinPage, fr: seq<ThinPage>)
    requires Faded(ps, onFlash) && BaseOk(h, onFlash + [source], fr) && source.state == Freeing
    ensures BaseOk(h, [source] + onFlash, fr) && Faded([source.(state := Full)] + ps, [source] + onFlash)
    ensures Freeings([source.(state := Full)] + ps) == Freeings(ps)
  {
    hide Placed, FreeOk, Addrs, AllSectors, Freeings;
    FreeingsCons(source.(state := Full), ps);
    AddrsSnoc(onFlash, source);
    AddrsAppend([source], onFlash);
    AddrsOne(source);
    Commute(Addrs(onFlash), multiset{source.addr});
    BaseReorder(h, onFlash + [source], fr, [source] + onFlash, fr);
  }

  lemma AddrsOne(p: ThinPage)
    ensures Addrs([p]) == multiset{p.addr}
  {
    assert [p][..0] == [];
  }

  lemma Commute<T>(x: multiset<T>, y: multiset<T>)
    ensures x + y == y + x
  {}

  lemma {:induction false} NoneFreeing(ps: seq<ThinPage>)
    requires forall x | 0 <= x < |ps| :: ps[x].state != Freeing
    ensures Freeings(ps) == 0
  {
    if ps != [] { NoneFreeing(ps[..|ps| - 1]); }
  }

  lemma LoadedAt(h: Hal, ps: seq<ThinPage>, x: nat)
    requires AllLoaded(h, ps) && x < |ps|
    ensures HalOk(h) && Loaded(h, ps[x])
  {
    hide Loaded;
  }

  lemma SourceUsed(h: Hal, ps: seq<ThinPage>, source: ThinPage, fr: seq<ThinPage>)
    requires BaseOk(h, ps + [source], fr)
    ensures HalOk(h) && source.addr < |h.sectors| && View(h)[source.addr].Used?
  {
    hide BaseOk, LocsOf, View;
    BaseHal(h, ps + [source], fr);
    assert (ps + [source])[|ps|] == source;
    PageLocs(h, ps + [source], fr, |ps|);
  }

  lemma BlanksMore(fr: seq<ThinPage>, a: nat)
    requires BlankMaps(fr)
    ensures BlankMaps(fr + [UninitializedPage(a)])
  {}

  lemma CopiedState(h: Hal, h2: Hal, source: ThinPage, t: ThinPage, t2: ThinPage)
    requires CopyDone(h, h2, source, t, t2)
    ensures t2.state in {Active, Full} && t2.sequence == t.sequence && HalOk(h2)
  {
    hide ScanFrom, BodyOk, GoodLocs, Recs, Dense;
  }

  /** An active page next to the source is the target, and passes for a copy. */
  lemma ActiveTarget(h: Hal, ps: seq<ThinPage>, fr: seq<ThinPage>, kv: Contents, gc: Gc, i: nat, x: nat)
    requires BaseOk(h, ps, fr) && RecoversIn(h, kv, gc) && HalOk(h) && i < |ps| && ps[i].state == Freeing
    requires x < |ps| - 1 && SwapRemoved(ps, i)[x].state == Active
    ensures gc.Moving? && gc.src == ps[i].addr && gc.tgt == Some(SwapRemoved(ps, i)[x].addr)
    ensures Loaded(h, SwapRemoved(ps, i)[x]) && Loaded(h, ps[i]) && IsCopy(h, SwapRemoved(ps, i)[x], ps[i])
    ensures forall j | 0 <= j < |ps| - 1 && j != x :: SwapRemoved(ps, i)[j].state == Full
    ensures SwapRemoved(ps, i)[x].addr < |h.sectors|
  {
    hide BaseOk, RecoversIn, LocsOf, Recs, IsCopy, BodyOk;
    SourceKnown(h, ps, fr, kv, gc, i);
    SourceTaken(h, ps, fr, i);
    var y := if x == i then |ps| - 1 else x;
    assert ps[y].state == Active;
    var t := TargetPage(h, ps, fr, kv, gc, i);
    if t != y { PagesApart(h, ps, fr, t, y); }
    BaseLoaded(h, ps, fr);
    CopyPasses(h, ps[y], ps[i]);
    forall j | 0 <= j < |ps| - 1 && j != x ensures SwapRemoved(ps, i)[j].state == Full {
      var z := if j == i then |ps| - 1 else j;
      PagesApart(h, ps, fr, z, y);
    }
  }

  /** With no active page all others are full, and a target, if there is one, holds everything. */
  lemma FullTarget(h: Hal, ps: seq<ThinPage>, fr: seq<ThinPage>, kv: Contents, gc: Gc, i: nat)
    requires BaseOk(h, ps, fr) && RecoversIn(h, kv, gc) && HalOk(h) && i < |ps| && ps[i].state == Freeing
    requires forall j | 0 <= j < |ps| - 1 :: SwapRemoved(ps, i)[j].state != Active
    ensures gc.Moving? && gc.src == ps[i].addr && AllLoaded(h, SwapRemoved(ps, i)) && Loaded(h, ps[i])
    ensures forall j | 0 <= j < |ps| - 1 :: SwapRemoved(ps, i)[j].state == Full
    ensures gc.tgt.Some? ==> HoldsAll(h, SwapRemoved(ps, i), ps[i])
    ensures gc.tgt.Some? ==> gc.tgt.value < |h.sectors| && gc.tgt.value != gc.src && View(h)[gc.tgt.value].Used?
    ensures gc.tgt.Some? ==> View(h)[gc.src].Used? && Recs(View(h)[gc.tgt.value].locs) == Recs(View(h)[gc.src].locs)
  {
    hide BaseOk, RecoversIn, LocsOf, Recs, HoldsAll, BodyOk, View;
    var rest := SwapRemoved(ps, i);
    SourceKnown(h, ps, fr, kv, gc, i);
    SourceTaken(h, ps, fr, i);
    if gc.tgt.Some? {
      var t := TargetPage(h, ps, fr, kv, gc, i);
      var y := if t == |ps| - 1 then i else t;
      assert rest[y] == ps[t];
      PageLocs(h, ps, fr, i);
      PageLocs(h, ps, fr, t);
      assert IsNewest(rest, y);
      CopyHoldsAll(h, rest, ps[i], y);
    }
    forall j | 0 <= j < |rest| ensures rest[j].state == Full {
      var z := if j == i then |ps| - 1 else j;
      assert rest[j] == ps[z];
      if gc.tgt == Some(ps[z].addr) {
        var t := TargetPage(h, ps, fr, kv, gc, i);
        if t != z { PagesApart(h, ps, fr, t, z); }
      }
    }
  }

  /** Not all items are held elsewhere: there is no complete copy, and no names are lost. */
  lemma NoneHeld(h: Hal, ps: seq<ThinPage>, fr: seq<ThinPage>, kv: Contents, gc: Gc, i: nat)
    requires BaseOk(h, ps, fr) && RecoversIn(h, kv, gc) && HalOk(h) && i < |ps| && ps[i].state == Freeing
    requires forall j | 0 <= j < |ps| - 1 :: SwapRemoved(ps, i)[j].state != Active
    requires AllLoaded(h, SwapRemoved(ps, i)) && Loaded(h, ps[i]) && !HoldsAll(h, SwapRemoved(ps, i), ps[i])
    ensures gc == Moving(ps[i].addr, None) && !LosesNames(View(h), gc)
  {
    hide BaseOk, RecoversIn, LocsOf, Recs, View, Ordinary, AllLoaded, Loaded;
    FullTarget(h, ps, fr, kv, gc, i);
    if LosesNames(View(h), gc) {
      NamesHeld(h, ps, fr, i);
      assert false;
    }
  }

  lemma NamesHeld(h: Hal, ps: seq<ThinPage>, fr: seq<ThinPage>, i: nat)
    requires BaseOk(h, ps, fr) && HalOk(h) && i < |ps| && ps[i].addr < |h.sectors|
    requires AllLoaded(h, SwapRemoved(ps, i)) && Loaded(h, ps[i])
    requires View(h)[ps[i].addr].Used? && !Ordinary(View(h)[ps[i].addr]) && Newer(View(h), ps[i].addr)
    ensures HoldsAll(h, SwapRemoved(ps, i), ps[i])
  {
    hide BaseOk, LocsOf, View, AllLoaded, Loaded;
    var rest := SwapRemoved(ps, i);
    SourceTaken(h, ps, fr, i);
    PageLocs(h, ps, fr, i);
    var b :| 0 <= b < |View(h)| && View(h)[b].Used? && View(h)[b].sequence > View(h)[ps[i].addr].sequence;
    var x := PageOfSector(h, ps, fr, b);
    var y := if x == |ps| - 1 then i else x;
    assert rest[y] == ps[x];
    var n := MaxPage(rest);
    NoHashes(h, ps[i]);
    assert HoldsAllAt(h, rest, ps[i], n);
  }

  lemma NoHashes(h: Hal, p: ThinPage)
    requires HalOk(h) && Loaded(h, p) && forall loc | loc in LocsOf(h, p) :: loc.rec.item.ns == 0
    ensures p.hashes == []
  {
    hide BodyOk, LocsOf;
    if p.hashes != [] {
      var j := HashItem(h, p, 0);
      assert false;
    }
  }

  lemma {:induction false} MaxPage(ps: seq<ThinPage>) returns (n: nat)
    requires ps != []
    ensures IsNewest(ps, n)
  {
    n := 0;
    if |ps| > 1 {
      var m := MaxPage(ps[1..]);
      n := if ps[0].sequence > ps[1..][m].sequence then 0 else m + 1;
      forall x | 0 <= x < |ps| ensures ps[x].sequence <= ps[n].sequence { if x > 0 { assert ps[x] == ps[1..][x - 1]; } }
    }
  }

  lemma StuckHere(h: Hal, ps: seq<ThinPage>, fr: seq<ThinPage>, gc: Gc)
    requires BaseOk(h, ps, fr) && fr == [] && gc.Moving? && gc.tgt.None?
    ensures HalOk(h) && Stuck(h, fr, gc)
  {
    hide BaseOk, View, Placed;
    BaseHal(h, ps, fr);
    forall a | 0 <= a < |View(h)| ensures View(h)[a].Used? { NoReserve(h, ps, fr, a); }
  }

  lemma NoReserve(h: Hal, ps: seq<ThinPage>, fr: seq<ThinPage>, a: nat)
    requires BaseOk(h, ps, fr) && fr == [] && HalOk(h) && a < |h.sectors|
    ensures View(h)[a].Used?
  {
    hide Addrs, AllSectors, Placed;
    AllSectorsCount(|h.sectors|, a);
    AddrsNone();
    var i := AddrsFind(ps, a);
    PlacedView(h, ps[i]);
  }

  /** The source was erased: with a complete copy nothing is lost; without, names at most. */
  lemma SourceErased(h: Hal, ps: seq<ThinPage>, fr: seq<ThinPage>, kv: Contents, gc: Gc, i: nat, h2: Hal,
                     fr2: seq<ThinPage>)
    returns (kv2: Contents)
    requires BaseOk(h, ps, fr) && RecoversIn(h, kv, gc) && HalOk(h) && HalOk(h2) && i < |ps| && ps[i].state == Freeing
    requires forall j | 0 <= j < |ps| - 1 :: SwapRemoved(ps, i)[j].state != Active
    requires AllLoaded(h, SwapRemoved(ps, i)) && Loaded(h, ps[i]) && HoldsAll(h, SwapRemoved(ps, i), ps[i])
    requires BaseOk(h2, SwapRemoved(ps, i), fr2) && BlankMaps(fr2) && h2.codec == h.codec &&
             |h2.sectors| == |h.sectors| && ps[i].addr < |h.sectors|
    requires View(h2) == View(h)[ps[i].addr := Free]
    ensures Finished(h2, SwapRemoved(ps, i), fr2, kv2) && KeysKept(kv, kv2) && (kv2 == kv <==> !LosesNames(View(h), gc))
  {
    hide BaseOk, RecoversIn, LocsOf, Recs, View, Ordinary, AllLoaded, Loaded, Holds, HoldsAll, FlashOk, NamesDropped;
    var rest := SwapRemoved(ps, i);
    FullTarget(h, ps, fr, kv, gc, i);
    SourceTaken(h, ps, fr, i);
    FullFlash(h2, rest, fr2);
    if gc.tgt.Some? {
      CopiedErased(h, kv, gc.src, gc.tgt.value, h2);
      kv2 := kv;
      TargetNames(View(h), gc);
      HoldsRecoversIn(h2, kv);
    } else {
      MovingHolds(h, kv, gc.src);
      SourceEmpty(h, rest, fr, kv, ps[i]);
      DroppedErased(h, rest, fr, kv, ps[i], h2);
      kv2 := NamesDropped(kv, View(h)[ps[i].addr]);
      HoldsRecoversIn(h2, kv2);
      PageLocs(h, ps, fr, i);
      HeldNewer(h, ps, fr, i);
    }
  }

  lemma HeldNewer(h: Hal, ps: seq<ThinPage>, fr: seq<ThinPage>, i: nat)
    requires BaseOk(h, ps, fr) && HalOk(h) && i < |ps|
    requires AllLoaded(h, SwapRemoved(ps, i)) && Loaded(h, ps[i]) && HoldsAll(h, SwapRemoved(ps, i), ps[i])
    ensures ps[i].addr < |h.sectors| && View(h)[ps[i].addr].Used? && Newer(View(h), ps[i].addr)
  {
    hide BaseOk, LocsOf, View, AllLoaded, Loaded;
    SourceTaken(h, ps, fr, i);
    PageLocs(h, ps, fr, i);
    var n: nat :| HoldsAllAt(h, SwapRemoved(ps, i), ps[i], n);
    var x := if n == i then |ps| - 1 else n;
    assert SwapRemoved(ps, i)[n] == ps[x];
    PageLocs(h, ps, fr, x);
  }

  lemma CopyFinished(h0: Hal, h: Hal, ps: seq<ThinPage>, fr: seq<ThinPage>, kv: Contents)
    requires InstOk(h, ps, fr) && SameBags(h0, h) && Holds(h0, kv)
    ensures Finished(h, ps, fr, kv)
  {
    hide InstOk, SameBags, Holds, FlashOk, RecoversIn;
    InstSequences(h, ps, fr);
    InstIdle(h, ps, fr);
    SameHolds(h0, h, kv);
    HoldsRecoversIn(h, kv);
  }

  // ---- item by item ----

  /** The items that count before the moves are finished are those on flash after, byte for byte. */
  ghost predicate SameItemsLeft(h0: Hal, gc: Gc, h: Hal) {
    && HalOk(h0) && HalOk(h)
    && forall k: FullKey :: HBag(h, k) == Bag(Logical(View(h0), gc), k)
  }

  lemma NothingMoved(h: Hal, gc: Gc)
    requires HalOk(h)
    ensures gc.NoGc? ==> SameItemsLeft(h, gc, h)
  {}

  /** A partial copy does not count: it is gone. */
  lemma PartialItems(h: Hal, gc: Gc, t: nat, h2: Hal)
    requires HalOk(h) && HalOk(h2) && gc.Moving? && gc.tgt == Some(t) && t < |h.sectors| &&
             View(h2) == View(h)[t := Free]
    ensures SameItemsLeft(h, gc, h2)
  {}

  lemma RestartItems(h0: Hal, gc: Gc, h1: Hal, h: Hal)
    requires HalOk(h0) && (SameItemsLeft(h0, gc, h1) || (h1 == h0 && gc.Moving? && gc.tgt.None?)) && SameBags(h1, h)
    ensures SameItemsLeft(h0, gc, h)
  {
    hide Bag, View;
    forall k: FullKey ensures HBag(h, k) == Bag(Logical(View(h0), gc), k) { assert HBag(h, k) == HBag(h1, k); }
  }

  /** A complete copy stands for its source, and a source without items for nothing. */
  lemma SourceItems(h: Hal, ps: seq<ThinPage>, fr: seq<ThinPage>, kv: Contents, gc: Gc, i: nat, h2: Hal)
    requires BaseOk(h, ps, fr) && RecoversIn(h, kv, gc) && HalOk(h) && HalOk(h2) && i < |ps| && ps[i].state == Freeing
    requires forall j | 0 <= j < |ps| - 1 :: SwapRemoved(ps, i)[j].state != Active
    requires AllLoaded(h, SwapRemoved(ps, i)) && Loaded(h, ps[i]) && HoldsAll(h, SwapRemoved(ps, i), ps[i])
    requires h2.codec == h.codec && |h2.sectors| == |h.sectors| && ps[i].addr < |h.sectors|
    requires View(h2) == View(h)[ps[i].addr := Free] && !LosesNames(View(h), gc)
    ensures SameItemsLeft(h, gc, h2)
  {
    hide BaseOk, RecoversIn, LocsOf, Recs, View, Ordinary, AllLoaded, Loaded, Holds, HoldsAll, FlashOk, Bag;
    var rest := SwapRemoved(ps, i);
    FullTarget(h, ps, fr, kv, gc, i);
    SourceTaken(h, ps, fr, i);
    var vs := View(h);
    forall k: FullKey ensures HBag(h2, k) == Bag(Logical(vs, gc), k) {
      if gc.tgt.Some? {
        CopyBags(vs, gc.src, gc.tgt.value, k);
      } else {
        MovingHolds(h, kv, gc.src);
        SourceEmpty(h, rest, fr, kv, ps[i]);
        PageLocs(h, ps, fr, i);
        HeldNewer(h, ps, fr, i);
        assert vs[gc.src].locs == [];
        EmptyGone(vs, gc.src, k);
      }
    }
  }

  lemma CopyBags(vs: seq<PageView>, src: nat, t: nat, k: FullKey)
    requires src < |vs| && t < |vs| && vs[src].Used? && vs[t].Used? && Recs(vs[t].locs) == Recs(vs[src].locs)
    ensures Bag(vs[src := Free], k) == Bag(Logical(vs, Moving(src, Some(t))), k)
  {
    hide Bag, KeyRecs, Recs;
    KeyRecsCopy(vs[t].locs, vs[src].locs, k);
    BagUpdate(vs, src, Free, k);
    BagUpdate(vs, t, Free, k);
    CancelSame(Bag(vs[src := Free], k), Bag(vs[t := Free], k), PageBag(vs[src], k));
  }

  lemma EmptyGone(vs: seq<PageView>, a: nat, k: FullKey)
    requires a < |vs| && vs[a].Used? && vs[a].locs == []
    ensures Bag(vs[a := Free], k) == Bag(vs, k)
  {
    hide Bag;
    BagUpdate(vs, a, Free, k);
    assert PageBag(vs[a], k) == PageBag(Free, k);
    CancelSame(Bag(vs[a := Free], k), Bag(vs, k), PageBag(vs[a], k));
  }
}
