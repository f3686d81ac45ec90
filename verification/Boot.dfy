/** The boot as a whole (init.rs, load_sectors): what the recovery steps make of the flash together. */
module Boot {
  import opened Types
  import opened Sectors
  import opened Flash
  import opened Pages
  import opened PageOps
  import opened Scan
  import opened Store
  import opened Instance
  import opened Moves
  import opened Compaction
  import opened Lookup
  import opened Transfer
  import opened Changes
  import opened Names
  import opened Setting
  import opened Winners
  import opened Observations
  import opened Cleanup
  import opened Duplicates
  import opened Survivors
  import opened Recovery

  /** With no move pending and the pages in order, the cleanups can start. */
  lemma BootedClean(h: Hal, ps: seq<ThinPage>, fr: seq<ThinPage>, kv: Contents)
    requires BaseOk(h, ps, fr) && BlankMaps(fr) && RecoversIn(h, kv, NoGc) && ActiveLast(ps)
    ensures Cleaning(h, ps, fr, kv)
  {
    hide Bag, View, Reads, Wins, BaseOk, FlashOk, LocsOf, IsFull;
    BaseHal(h, ps, fr);
    assert Logical(View(h), NoGc) == View(h);
    forall k: FullKey ensures Fated(h, kv, k) {
      assert Resolves(h.codec, View(h), NoGc, k, Get(kv, k));
      FatedFrom(h, kv, k);
    }
    BootedOrder(h, ps, fr);
  }

  lemma FatedFrom(h: Hal, kv: Contents, k: FullKey)
    requires HalOk(h) && Resolves(h.codec, View(h), NoGc, k, Get(kv, k))
    ensures Fated(h, kv, k)
  {
    hide Bag, View, Reads;
    if k.ns != 0 && Reads(h.codec, HBag(h, k), Get(kv, k)) { ReadsWins(h.codec, View(h), k, Get(kv, k)); }
  }

  lemma BootedOrder(h: Hal, ps: seq<ThinPage>, fr: seq<ThinPage>)
    requires BaseOk(h, ps, fr) && BlankMaps(fr) && FlashOk(h, NoGc) && ActiveLast(ps)
    ensures InstOk(h, ps, fr)
  {
    hide Bag, View, BaseOk, LocsOf, IsFull, SectorOk, Dense;
    forall i | 0 <= i < |ps| ensures ps[i].state in {Active, Full} { PageLocs(h, ps, fr, i); }
    forall i, j | 0 <= i < |ps| && ps[i].state == Active && 0 <= j < i ensures ps[j].sequence < ps[i].sequence {
      PageLocs(h, ps, fr, i);
      PageLocs(h, ps, fr, j);
      PagesApart(h, ps, fr, j, i);
    }
  }

  /** The names noted by the scan are those of the contents. */
  lemma NamesBooted(h: Hal, ps: seq<ThinPage>, fr: seq<ThinPage>, kv: Contents)
    requires Cleaning(h, ps, fr, kv) && HalOk(h) && WfViews(View(h))
    ensures NamesOk(NamesIn(View(h)), kv)
  {
    hide InstOk, AllFated, Bag, View, NamesIn, Reads;
    forall n: Key ensures NameOk(NamesIn(View(h)), kv, n) { NameBooted(h, ps, fr, kv, n); }
  }

  lemma NameBooted(h: Hal, ps: seq<ThinPage>, fr: seq<ThinPage>, kv: Contents, n: Key)
    requires Cleaning(h, ps, fr, kv) && HalOk(h) && WfViews(View(h))
    ensures NameOk(NamesIn(View(h)), kv, n)
  {
    hide InstOk, Bag, View, NamesIn, Typed, Has, BaseOk;
    var k, vs := NameKey(n), View(h);
    assert Fated(h, kv, k);
    ViewNames(vs, n);
    if n in NamesIn(vs) {
      var s: nat, loc: Loc :| Has(vs, s, loc) && KeyOf(loc.rec.item) == k && WfItem(loc.rec.item) &&
          NamespaceIndex(loc.rec.item) == NamesIn(vs)[n];
      var a, j := HasIn(vs, s, loc);
      EntryValue(h.codec, HBag(h, k), Get(kv, k), loc.rec);
    } else if k in kv {
      var r :| Carries(h.codec, HBag(h, k), r, kv[k]);
      var s, loc := InHas(vs, k, r);
    }
  }

  /** The one entry of a name is its value. */
  lemma EntryValue(c: Codec, b: multiset<Rec>, v: Option<Value>, r: Rec)
    requires Reads(c, b, v) && r in b && r.item.ns == 0
    ensures v.Some? && IndexOf(v.value) == NamespaceIndex(r.item) && 1 <= NamespaceIndex(r.item) <= 254
  {
    hide Concat, HasChunks;
    assert Typed(c, r);
    if v.Some? {
      var q :| Carries(c, b, q, v.value);
      assert q == r;
    }
  }

  // ---- names ----

  /** Of no page being moved, the namespace entries are all it holds. */
  predicate NamesSafe(vs: seq<PageView>) {
    forall a | 0 <= a < |vs| && vs[a].Used? && vs[a].state == Freeing && vs[a].locs != [] :: Ordinary(vs[a])
  }

  lemma SafeSame(h0: Hal, h: Hal)
    requires SameFreeing(h0, h)
    ensures HalOk(h) && HalOk(h0)
    ensures NamesSafe(View(h0)) ==> NamesSafe(View(h))
  {
    hide View, Ordinary;
  }

  lemma SafeIdle(h: Hal, kv: Contents)
    requires RecoversIn(h, kv, NoGc)
    ensures HalOk(h) && NamesSafe(View(h)) && Recovers(h, kv)
  {
    hide View, Ordinary, Bag, SectorOk, Dense, AllResolve;
  }

  lemma SafeKeeps(h: Hal, kv: Contents, gc: Gc)
    requires RecoversIn(h, kv, gc)
    ensures HalOk(h) && (NamesSafe(View(h)) ==> !LosesNames(View(h), gc))
  {
    hide View, Ordinary, Bag, SectorOk, Dense, AllResolve;
  }

  lemma LosesSame(vs: seq<PageView>, vs2: seq<PageView>, gc: Gc)
    requires SameItems(vs, vs2)
    ensures LosesNames(vs, gc) <==> LosesNames(vs2, gc)
  {}

  /** There is a page to copy to, or the move has a target already. */
  lemma NotStuck(h: Hal, fr: seq<ThinPage>, kv: Contents, gc: Gc)
    requires RecoversIn(h, kv, gc)
    ensures !Stuck(h, fr, gc)
  {
    hide View, SectorOk, Bag, Dense, AllResolve;
  }

  lemma IdleSequences(h: Hal, kv: Contents, gc: Gc)
    requires RecoversIn(h, kv, gc)
    ensures SectorsOk(h) && HalOk(h) && SequencesDiffer(View(h))
  {
    hide View, SectorOk, Bag, Dense, AllResolve;
  }

  lemma FinishedFacts(h: Hal, ps: seq<ThinPage>, fr: seq<ThinPage>, kv: Contents)
    requires Finished(h, ps, fr, kv)
    ensures HalOk(h) && BaseOk(h, ps, fr) && BlankMaps(fr) && RecoversIn(h, kv, NoGc) && NamesSafe(View(h))
  {
    hide RecoversIn, BaseOk, View, NamesSafe;
    BaseHal(h, ps, fr);
    SafeIdle(h, kv);
  }

  lemma KeptTrans(kv: Contents, kv1: Contents, kv2: Contents)
    requires KeysKept(kv, kv1) && KeysKept(kv1, kv2)
    ensures KeysKept(kv, kv2)
  {}

  lemma NoMoveNames(vs: seq<PageView>, gc: Gc)
    ensures gc.NoGc? ==> !LosesNames(vs, gc)
  {}

  lemma RecoversGc(h: Hal, kv: Contents) returns (gc: Gc)
    requires Recovers(h, kv)
    ensures RecoversIn(h, kv, gc)
  {
    hide RecoversIn;
    gc :| RecoversIn(h, kv, gc);
  }

  // ---- flash that no defragmentation was interrupted on ----

  ghost predicate NoMove(vs: seq<PageView>) { forall a | 0 <= a < |vs| && vs[a].Used? :: vs[a].state != Freeing }

  lemma FitWf(h: Hal)
    requires FlashFit(h)
    ensures HalOk(h) && WfViews(View(h))
  {
    hide ScanFrom, Markable;
    forall a | 0 <= a < |View(h)| && View(h)[a].Used? ensures WfLocs(View(h)[a].locs) {
      assert Fit(h.codec, h.sectors[a]);
    }
  }

  lemma NoMoveLoaded(vs0: seq<PageView>, h: Hal, ps: seq<ThinPage>, fr: seq<ThinPage>)
    requires BaseOk(h, ps, fr) && HalOk(h) && NoMove(vs0) && SameItems(vs0, View(h))
    ensures Freeings(ps) == 0
  {
    hide BaseOk, View, LocsOf;
    forall i | 0 <= i < |ps| ensures ps[i].state != Freeing { PageLocs(h, ps, fr, i); }
    NoneFreeing(ps);
  }

  /** Retiring pages does not change what survives. */
  lemma SameSurvivors(vs: seq<PageView>, vs1: seq<PageView>, vs2: seq<PageView>)
    requires SameItems(vs, vs1) && WfViews(vs) && WfViews(vs1) && SurvivorsOnly(vs1, vs2)
    ensures SurvivorsOnly(vs, vs2)
  {
    hide Has, NotedIn, Condemned, SameItems, WfViews;
    SameItemsNoted(vs, vs1);
    SameItemsHas(vs, vs1);
    forall k: FullKey, s: nat, loc: Loc | k.ns != 0 ensures HeadOf(vs2, k, s, loc) <==> Survivor(vs, k, s, loc) {
      assert HeadOf(vs2, k, s, loc) <==> Survivor(vs1, k, s, loc);
    }
  }

  lemma {:induction false} SameItemsParts(vs: seq<PageView>, vs2: seq<PageView>, bk: BlobKey)
    requires SameItems(vs, vs2)
    ensures ViewParts(vs2, bk) == ViewParts(vs, bk)
  {
    hide Parts;
    if vs != [] {
      var n := |vs| - 1;
      assert vs2[n] == vs[n] || vs2[n] == vs[n].(state := Full);
      SameItemsParts(vs[..n], vs2[..n], bk);
    }
  }

  lemma SameTwice(vs: seq<PageView>, vs2: seq<PageView>, k: FullKey)
    requires SameItems(vs, vs2)
    ensures IndexTwice(vs2, k) ==> IndexTwice(vs, k)
  {
    hide Has, SameItems;
    SameItemsHas(vs, vs2);
    if IndexTwice(vs2, k) {
      var t: nat, x: Loc, u: nat, y: Loc :| SameVersionAt(vs2, k, t, x, u, y);
      assert SameVersionAt(vs, k, t, x, u, y);
    }
  }

  lemma SameWholeStays(h0: Hal, h1: Hal, h: Hal)
    requires HalOk(h0) && HalOk(h1) && SameItems(View(h0), View(h1)) && WholeStays(h1, h)
    ensures WholeStays(h0, h)
  {
    hide View, Has, SameItems, ViewParts, TotalSize, IndexTwice;
    var vs, vs1 := View(h0), View(h1);
    SameItemsHas(vs, vs1);
    forall k: FullKey, s: nat, loc: Loc | k.ns != 0 && !IndexTwice(vs, k) && HeadOf(View(h), k, s, loc) &&
    WholeHead(vs, k, loc.rec.item)
      ensures WholeHead(View(h), k, loc.rec.item)
    {
      SameTwice(vs, vs1, k);
      if loc.rec.item.data.Index? { SameItemsParts(vs, vs1, VersionKey(k, loc.rec.item)); }
      assert WholeHead(vs1, k, loc.rec.item);
    }
  }

  /** The cleanups move no page and take no entry. */
  lemma BytesActive(h: Hal, ps: seq<ThinPage>, h2: Hal, ps2: seq<ThinPage>)
    requires SameBytes(h, ps, h2, ps2) && ActiveLast(ps)
    ensures ActiveLast(ps2)
  {}

  /** What a power cut left can be loaded. */
  lemma RecoversFit(h: Hal, kv: Contents)
    requires Recovers(h, kv)
    ensures FlashFit(h) && HalOk(h) && SequencesDiffer(View(h))
  {
    hide RecoversIn, FlashFit;
    var gc := RecoversGc(h, kv);
    IdleSequences(h, kv, gc);
    SectorsFit(h);
  }

  // ---- how many pages are in reserve ----

  function Frees(vs: seq<PageView>): nat {
    if vs == [] then 0 else Frees(vs[..|vs| - 1]) + (if vs[|vs| - 1].Free? then 1 else 0)
  }

  /** The sectors that are not in use. */
  function FreeAt(vs: seq<PageView>): multiset<nat> {
    if vs == [] then multiset{}
    else FreeAt(vs[..|vs| - 1]) + (if vs[|vs| - 1].Free? then multiset{|vs| - 1} else multiset{})
  }

  lemma {:induction false} FreeCount(vs: seq<PageView>, a: nat)
    ensures |FreeAt(vs)| == Frees(vs)
    ensures FreeAt(vs)[a] == if a < |vs| && vs[a].Free? then 1 else 0
  {
    if vs != [] { FreeCount(vs[..|vs| - 1], a); }
  }

  lemma {:induction false} AddrsSize(ps: seq<ThinPage>)
    ensures |Addrs(ps)| == |ps|
  {
    if ps != [] { AddrsSize(ps[..|ps| - 1]); }
  }

  /** The reserve is every sector that is not in use. */
  lemma ReserveCount(h: Hal, ps: seq<ThinPage>, fr: seq<ThinPage>)
    requires BaseOk(h, ps, fr)
    ensures HalOk(h) && |fr| == Frees(View(h))
  {
    hide BaseOk, View, Frees;
    BaseHal(h, ps, fr);
    var vs := View(h);
    forall a: nat ensures Addrs(fr)[a] == FreeAt(vs)[a] {
      FreeCount(vs, a);
      ReserveAt(h, ps, fr, a);
    }
    assert Addrs(fr) == FreeAt(vs);
    FreeCount(vs, 0);
    AddrsSize(fr);
  }

  lemma ReserveAt(h: Hal, ps: seq<ThinPage>, fr: seq<ThinPage>, a: nat)
    requires BaseOk(h, ps, fr) && HalOk(h)
    ensures Addrs(fr)[a] == if a < |View(h)| && View(h)[a].Free? then 1 else 0
  {
    hide Placed, FreeOk, Addrs, AllSectors;
    AllSectorsCount(|h.sectors|, a);
    assert (Addrs(ps) + Addrs(fr))[a] == Addrs(ps)[a] + Addrs(fr)[a];
    if a in Addrs(fr) {
      var j := AddrsFind(fr, a);
      FreeView(h, fr[j]);
    }
    if a in Addrs(ps) {
      var i := AddrsFind(ps, a);
      PlacedView(h, ps[i]);
    }
  }

  lemma {:induction false} SameFrees(vs: seq<PageView>, vs2: seq<PageView>)
    requires SameItems(vs, vs2)
    ensures Frees(vs2) == Frees(vs)
  {
    if vs != [] {
      var n := |vs| - 1;
      assert vs2[n] == vs[n] || vs2[n] == vs[n].(state := Full);
      SameFrees(vs[..n], vs2[..n]);
    }
  }

  /** Behind a header, a page of the reserve has the entry map its sector had. */
  ghost predicate MapsKept(h0: Hal, fr: seq<ThinPage>) {
    forall i | 0 <= i < |fr| ::
      fr[i].addr < |h0.sectors| && (h0.sectors[fr[i].addr].header.Some? ==> fr[i].emap == h0.sectors[fr[i].addr].emap)
  }

  lemma MapsNone(h: Hal)
    ensures MapsKept(h, [])
  {}

  lemma MapsMore(h0: Hal, fr: seq<ThinPage>, a: nat, p: ThinPage)
    requires MapsKept(h0, fr) && a < |h0.sectors| && Unused(h0.sectors[a], a, p)
    ensures MapsKept(h0, fr + [p])
  {}

  ghost predicate AllFull(vs: seq<PageView>) { forall a | 0 <= a < |vs| && vs[a].Used? :: vs[a].state == Full }

  /** With no move pending, the reserve is what the scan found, and full pages stay full. */
  ghost predicate AsFound(h0: Hal, ps: seq<ThinPage>, fr: seq<ThinPage>) {
    && HalOk(h0) && MapsKept(h0, fr) && |fr| == Frees(View(h0))
    && (forall i | 0 <= i < |fr| :: fr[i].addr < |View(h0)| && View(h0)[fr[i].addr].Free?)
    && (AllFull(View(h0)) ==> forall i | 0 <= i < |ps| :: ps[i].state == Full)
  }

  lemma ReserveFree(h: Hal, ps: seq<ThinPage>, fr: seq<ThinPage>, i: nat)
    requires BaseOk(h, ps, fr) && HalOk(h) && i < |fr|
    ensures fr[i].addr < |View(h)| && View(h)[fr[i].addr].Free?
  {
    hide Placed, Addrs, AllSectors;
    FreeView(h, fr[i]);
  }

  lemma {:induction false} AllSize(n: nat)
    ensures |AllSectors(n)| == n
  {
    if n > 0 { AllSize(n - 1); }
  }

  lemma PagesCount(h: Hal, ps: seq<ThinPage>, fr: seq<ThinPage>)
    requires BaseOk(h, ps, fr)
    ensures |ps| + |fr| == |h.sectors|
  {
    hide Placed, FreeOk, Addrs, AllSectors;
    AddrsSize(ps);
    AddrsSize(fr);
    AllSize(|h.sectors|);
    assert |Addrs(ps) + Addrs(fr)| == |Addrs(ps)| + |Addrs(fr)|;
  }

  /** A page that holds an item has entries in use. */
  lemma UsedSome(h: Hal, ps: seq<ThinPage>, fr: seq<ThinPage>, i: nat, j: nat)
    requires BaseOk(h, ps, fr) && HalOk(h) && i < |ps| && j < |LocsOf(h, ps[i])|
    ensures ps[i].used > 0
  {
    hide FreeOk, Addrs, AllSectors, ScanFrom, Tidy, GoodLocs;
    BasePlaced(h, ps, fr, i);
    ScanOrdered(h.codec, h.sectors[ps[i].addr], 0);
    SpansAtLeast(LocsOf(h, ps[i]), 0, ENTRIES_PER_PAGE);
  }

  lemma FoundHere(h0: Hal, h: Hal, ps: seq<ThinPage>, fr: seq<ThinPage>)
    requires HalOk(h0) && BaseOk(h, ps, fr) && HalOk(h) && SameItems(View(h0), View(h)) && MapsKept(h0, fr)
    ensures AsFound(h0, ps, fr)
  {
    hide BaseOk, View, Frees, LocsOf, MapsKept;
    ReserveCount(h, ps, fr);
    SameFrees(View(h0), View(h));
    forall i | 0 <= i < |fr| ensures fr[i].addr < |View(h0)| && View(h0)[fr[i].addr].Free? {
      ReserveFree(h, ps, fr, i);
    }
    if AllFull(View(h0)) {
      forall i | 0 <= i < |ps| ensures ps[i].state == Full { PageLocs(h, ps, fr, i); }
    }
  }

  lemma FoundStill(h0: Hal, h: Hal, ps: seq<ThinPage>, fr: seq<ThinPage>, h2: Hal, ps2: seq<ThinPage>)
    requires AsFound(h0, ps, fr) && SameBytes(h, ps, h2, ps2)
    ensures AsFound(h0, ps2, fr)
  {
    hide View, Frees, MapsKept;
  }
}
