/** Defragmentation seen from the flash (compaction.rs): which page states follow each other while a
    page is moved to the reserve, and why no item is lost wherever that stops. */
module Compaction {
  import opened Types
  import opened Sectors
  import opened Flash
  import opened Pages
  import opened PageOps
  import opened Scan
  import opened Store
  import opened Instance
  import opened Moves

  /** The next boot, finishing the move gc, finds the items h0 held. */
  ghost predicate LogicalSame(h0: Hal, h: Hal, gc: Gc) {
    && HalOk(h0) && HalOk(h) && h.codec == h0.codec && |h.sectors| == |h0.sectors|
    && forall k: FullKey :: Bag(Logical(View(h), gc), k) == HBag(h0, k)
  }

  ghost predicate InterruptedIn(h0: Hal, h: Hal, gc: Gc) { FlashOk(h, gc) && LogicalSame(h0, h, gc) }

  /** The power went, and what h0 held is what the next boot will find. */
  ghost predicate Interrupted(h0: Hal, h: Hal) { exists gc :: InterruptedIn(h0, h, gc) }

  /** Every item shows by its own checksums that it is complete. */
  ghost predicate AllWhole(c: Codec, locs: seq<Loc>) { forall loc | loc in locs :: Whole(c, loc.rec) }

  ghost predicate WholeItems(h: Hal) {
    HalOk(h) && forall a | 0 <= a < |h.sectors| && View(h)[a].Used? :: AllWhole(h.codec, View(h)[a].locs)
  }

  /** A cut in a copy is only harmless if the item it falls into is found to be incomplete, or whole,
      by its checksums. */
  ghost predicate Cut(h0: Hal, h: Hal) { WholeItems(h0) ==> Interrupted(h0, h) }

  lemma HoldsWhole(h: Hal, kv: Contents)
    requires Holds(h, kv)
    ensures WholeItems(h)
  {
    hide View, Bag;
    forall a, loc | 0 <= a < |h.sectors| && View(h)[a].Used? && loc in View(h)[a].locs ensures Whole(h.codec, loc.rec) {
      var j :| 0 <= j < |View(h)[a].locs| && View(h)[a].locs[j] == loc;
      BagHas(View(h), a, j, loc);
      assert Reads(h.codec, HBag(h, KeyOf(loc.rec.item)), Get(kv, KeyOf(loc.rec.item)));
      assert Typed(h.codec, loc.rec);
    }
  }

  lemma CutRecovers(h0: Hal, h: Hal, kv: Contents)
    requires Holds(h0, kv) && Cut(h0, h)
    ensures Recovers(h, kv)
  {
    hide Interrupted;
    HoldsWhole(h0, kv);
    InterruptedRecovers(h0, h, kv);
  }

  lemma InterruptedRecovers(h0: Hal, h: Hal, kv: Contents)
    requires Holds(h0, kv) && Interrupted(h0, h)
    ensures Recovers(h, kv)
  {
    hide FlashOk, Reads, Bag, Logical, View;
    var gc :| InterruptedIn(h0, h, gc);
    forall k: FullKey ensures Resolves(h.codec, Logical(View(h), gc), gc, k, Get(kv, k)) {
      assert Bag(Logical(View(h), gc), k) == HBag(h0, k);
    }
    assert RecoversIn(h, kv, gc);
  }

  lemma InterruptedIdle(h0: Hal, h: Hal)
    requires SameBags(h0, h) && FlashOk(h, NoGc)
    ensures Interrupted(h0, h)
  {
    hide FlashOk, Bag, View;
    assert Logical(View(h), NoGc) == View(h);
    forall k: FullKey ensures Bag(Logical(View(h), NoGc), k) == HBag(h0, k) { assert HBag(h, k) == HBag(h0, k); }
    assert InterruptedIn(h0, h, NoGc);
  }

  // ---- the page states of a move ----

  ghost predicate AllFull(vs: seq<PageView>) {
    forall a | 0 <= a < |vs| && vs[a].Used? :: vs[a].state == Full
  }

  ghost predicate Above(vs: seq<PageView>, sequence: nat) {
    forall a | 0 <= a < |vs| && vs[a].Used? :: vs[a].sequence < sequence
  }

  /** The source is marked first. */
  lemma GcStart(vs: seq<PageView>, src: nat, vs1: seq<PageView>)
    requires SequencesDiffer(vs) && AllFull(vs) && HasFree(vs) && src < |vs| && vs[src].Used?
    requires vs1 == vs[src := vs[src].(state := Freeing)]
    ensures GcOk(vs1, Moving(src, None)) && Logical(vs1, Moving(src, None)) == vs1
    ensures forall k: FullKey :: Bag(vs1, k) == Bag(vs, k)
  {
    hide Bag, KeyRecs;
    var f :| 0 <= f < |vs| && vs[f].Free?;
    assert vs1[f].Free?;
    forall k: FullKey ensures Bag(vs1, k) == Bag(vs, k) {
      BagUpdate(vs, src, vs1[src], k);
      CancelSame(Bag(vs1, k), Bag(vs, k), PageBag(vs[src], k));
    }
  }

  /** Then the reserve page is initialized and filled, at no point counting for anything. */
  lemma GcTarget(vs1: seq<PageView>, src: nat, t: nat, v: PageView)
    requires GcOk(vs1, Moving(src, None)) && t < |vs1| && vs1[t].Free?
    requires v.Used? && Above(vs1, v.sequence) && CopyOf(v, vs1[src])
    ensures GcOk(vs1[t := v], Moving(src, Some(t)))
    ensures Logical(vs1[t := v], Moving(src, Some(t))) == vs1
  {}

  /** Once it holds a copy of everything, the source can go. */
  lemma GcFinish(vs1: seq<PageView>, src: nat, t: nat, v: PageView)
    requires GcOk(vs1, Moving(src, None)) && t < |vs1| && vs1[t].Free?
    requires v.Used? && v.state in {Active, Full} && Above(vs1, v.sequence) && Recs(v.locs) == Recs(vs1[src].locs)
    ensures GcOk(vs1[t := v][src := Free], NoGc)
    ensures forall k: FullKey :: Bag(vs1[t := v][src := Free], k) == Bag(vs1, k)
  {
    hide Bag, KeyRecs, Recs;
    var vs2 := vs1[t := v];
    var vs3 := vs2[src := Free];
    forall k: FullKey ensures Bag(vs3, k) == Bag(vs1, k) {
      BagUpdate(vs1, t, v, k);
      BagUpdate(vs2, src, Free, k);
      KeyRecsCopy(v.locs, vs1[src].locs, k);
      assert vs2[src] == vs1[src];
      assert PageBag(v, k) == PageBag(vs1[src], k);
      CancelSame(Bag(vs3, k), Bag(vs1, k), PageBag(v, k));
    }
  }

  // ---- the same, with the pages in RAM ----

  ghost predicate SectorsOk(h: Hal) {
    HalOk(h) && forall a | 0 <= a < |h.sectors| :: SectorOk(h.codec, h.sectors[a])
  }

  /** A page whose header was programmed with a later state. */
  lemma PlacedState(h: Hal, h2: Hal, p: ThinPage, state: PageState)
    requires HalOk(h) && HalOk(h2) && Placed(h, p) && state in {Full, Freeing} && Rank(p.state) <= Rank(state)
    requires Moved(h, h2, p.addr, WithState(h.sectors[p.addr], state))
    ensures Placed(h2, p.(state := state))
    ensures ScanFrom(h2.codec, h2.sectors[p.addr], 0) == ScanFrom(h.codec, h.sectors[p.addr], 0)
  {
    hide ScanFrom, Tidy, HashList, Spans, GoodLocs;
    var s := h.sectors[p.addr];
    HeaderOnly(h.codec, s, Some(Header(state, p.sequence, true)), NextFree(p));
    assert h2.sectors[p.addr] == s.(header := Some(Header(state, p.sequence, true)));
  }

  lemma HalMoved(h: Hal, h2: Hal, a: nat, s: Sector)
    requires HalOk(h) && Moved(h, h2, a, s) && Shape(s)
    ensures HalOk(h2) && Touched(h, h2, a)
  {}

  /** A page freshly initialized on an erased sector. */
  lemma PlacedFresh(h: Hal, p: ThinPage)
    requires HalOk(h) && p.addr < |h.sectors| && p.state == Active
    requires h.sectors[p.addr] == ErasedSector().(header := Some(Header(Active, p.sequence, true)))
    requires p == UninitializedPage(p.addr).(state := Active, sequence := p.sequence)
    ensures Placed(h, p) && Writable(h, p) && NextFree(p) == 0
    ensures ScanFrom(h.codec, h.sectors[p.addr], 0) == []
  {
    hide ScanFrom;
    ScanBlank(h.codec, h.sectors[p.addr], 0);
    TidyEnd(h.codec, h.sectors[p.addr], 0, 0);
  }

  /** The instance h0, `ps` all full and `src` one of them, with src marked for moving. */
  ghost predicate Marked(h0: Hal, h: Hal, src: nat) {
    && SectorsOk(h) && LogicalSame(h0, h, Moving(src, None)) && GcOk(View(h), Moving(src, None))
  }

  lemma MarkedInterrupted(h0: Hal, h: Hal, src: nat, h2: Hal)
    requires Marked(h0, h, src) && SectorsOk(h2) && View(h2) == View(h) && h2.codec == h.codec
    requires |h2.sectors| == |h.sectors|
    ensures Marked(h0, h2, src) && Interrupted(h0, h2)
  {
    hide SectorOk, Bag, GcOk, View, Logical;
    forall k: FullKey ensures Bag(Logical(View(h2), Moving(src, None)), k) == HBag(h0, k) {
      assert Bag(Logical(View(h), Moving(src, None)), k) == HBag(h0, k);
    }
    assert InterruptedIn(h0, h2, Moving(src, None));
  }

  /** While the target is being filled. */
  lemma TargetInterrupted(h0: Hal, h1: Hal, src: nat, t: nat, h2: Hal, v: PageView)
    requires Marked(h0, h1, src) && SectorsOk(h2) && h2.codec == h1.codec && |h2.sectors| == |h1.sectors|
    requires t < |h1.sectors| && View(h1)[t].Free? && View(h2) == View(h1)[t := v]
    requires v.Used? && Above(View(h1), v.sequence) && CopyOf(v, View(h1)[src]) && Dense(h2.codec, h2.sectors[t])
    ensures Interrupted(h0, h2)
  {
    hide SectorOk, Bag, GcOk, View, Logical, CopyOf, Dense;
    GcTarget(View(h1), src, t, v);
    GcSourceIn(View(h1), src);
    forall k: FullKey ensures Bag(Logical(View(h2), Moving(src, Some(t))), k) == HBag(h0, k) {
      assert Bag(Logical(View(h1), Moving(src, None)), k) == HBag(h0, k);
      LogicalNone(View(h1), src);
    }
    assert InterruptedIn(h0, h2, Moving(src, Some(t)));
  }

  lemma GcSourceIn(vs: seq<PageView>, src: nat)
    requires GcOk(vs, Moving(src, None))
    ensures src < |vs| && vs[src].Used?
  {}

  lemma LogicalNone(vs: seq<PageView>, src: nat)
    ensures Logical(vs, Moving(src, None)) == vs
  {}

  /** The source is marked. */
  lemma MarkBase(h0: Hal, h1: Hal, ps: seq<ThinPage>, fr: seq<ThinPage>, p: ThinPage)
    requires BaseOk(h0, ps + [p], fr) && p.state == Full
    requires HalOk(h1) && Moved(h0, h1, p.addr, WithState(h0.sectors[p.addr], Freeing))
    ensures BaseOk(h1, ps + [p.(state := Freeing)], fr) && p.addr < |h0.sectors| && Placed(h0, p)
    ensures ScanFrom(h1.codec, h1.sectors[p.addr], 0) == ScanFrom(h0.codec, h0.sectors[p.addr], 0)
    ensures View(h1) == View(h0)[p.addr := View(h0)[p.addr].(state := Freeing)]
    ensures View(h0)[p.addr].Used?
  {
    hide Placed, FreeOk, Addrs, AllSectors, ViewOf, ScanFrom;
    var all, p2 := ps + [p], p.(state := Freeing);
    assert all[|ps|] == p;
    PlacedState(h0, h1, p, Freeing);
    BaseReplace(h0, h1, all, fr, |ps|, p2);
    assert all[|ps| := p2] == ps + [p2];
    PlacedView(h0, p);
    assert (ps + [p2])[|ps|] == p2;
    PlacedView(h1, p2);
    ViewTouched(h0, h1, p.addr);
  }

  /** Marking the source starts the move. */
  lemma MarkSource(h0: Hal, h1: Hal, ps: seq<ThinPage>, fr: seq<ThinPage>, p: ThinPage)
    requires BaseOk(h0, ps + [p], fr) && BlankMaps(fr) && fr != [] && p.state == Full
    requires forall i | 0 <= i < |ps| :: ps[i].state == Full
    requires HalOk(h1) && Moved(h0, h1, p.addr, WithState(h0.sectors[p.addr], Freeing))
    ensures Marked(h0, h1, p.addr)
  {
    hide Placed, FreeOk, Addrs, AllSectors, ViewOf, SectorOk, GcOk, Bag, Logical, ScanFrom;
    var all, p2 := ps + [p], p.(state := Freeing);
    MarkBase(h0, h1, ps, fr, p);
    assert all[|ps|] == p;
    PlacedView(h0, p);
    BaseFlash(h0, all, fr);
    BaseFlash(h1, ps + [p2], fr);
    var vs := View(h0);
    forall a | 0 <= a < |vs| && vs[a].Used? ensures vs[a].state == Full {
      var i := PageOfSector(h0, all, fr, a);
    }
    FreeView(h0, fr[0]);
    FreeIn(h0, fr[0]);
    assert vs[fr[0].addr].Free?;
    GcStart(vs, p.addr, View(h1));
    forall k: FullKey ensures Bag(Logical(View(h1), Moving(p.addr, None)), k) == HBag(h0, k) {
      assert Bag(View(h1), k) == Bag(vs, k);
    }
  }

  lemma FreeIn(h: Hal, p: ThinPage)
    requires FreeOk(h, p)
    ensures p.addr < |h.sectors|
  {}

  /** Nothing has happened yet: all pages full, none being moved. */
  lemma FullIdle(h: Hal, ps: seq<ThinPage>, fr: seq<ThinPage>)
    requires BaseOk(h, ps, fr) && BlankMaps(fr) && forall i | 0 <= i < |ps| :: ps[i].state == Full
    ensures FlashOk(h, NoGc) && SameBags(h, h) && Interrupted(h, h)
  {
    hide Placed, FreeOk, Addrs, AllSectors, ViewOf, SectorOk, Bag;
    InstIdle(h, ps, fr);
    InterruptedIdle(h, h);
  }

  /** With the copy complete and the source erased, the move is over. */
  lemma FinishMove(h0: Hal, h1: Hal, h2: Hal, h3: Hal, src: nat, t: nat, v: PageView)
    requires Marked(h0, h1, src) && HalOk(h2) && HalOk(h3) && h3.codec == h1.codec && h3.ws == h0.ws
    requires |h3.sectors| == |h1.sectors|
    requires t < |h1.sectors| && View(h1)[t].Free? && View(h2) == View(h1)[t := v]
    requires v.Used? && v.state in {Active, Full} && Above(View(h1), v.sequence)
    requires src < |h1.sectors| && View(h1)[src].Used? && Recs(v.locs) == Recs(View(h1)[src].locs)
    requires View(h3) == View(h2)[src := Free]
    ensures SameBags(h0, h3) && GcOk(View(h3), NoGc)
  {
    hide SectorOk, Bag, GcOk, View, Logical, Recs;
    GcFinish(View(h1), src, t, v);
    forall k: FullKey ensures HBag(h3, k) == HBag(h0, k) {
      assert Bag(Logical(View(h1), Moving(src, None)), k) == HBag(h0, k);
      LogicalNone(View(h1), src);
    }
  }
}
