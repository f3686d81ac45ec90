/** The instance and everything it does (nvs.rs, items.rs, compaction.rs). */
module NvsModule {
  import opened Types
  import opened Sectors
  import opened Flash
  import opened Pages
  import opened PageOps
  import opened Stale
  import opened Scan
  import opened Store
  import opened Instance
  import opened Moves
  import opened Compaction
  import opened Lookup
  import opened Transfer
  import opened Changes
  import opened Names
  import opened BlobReads
  import opened Platform
  import opened Setting
  import opened BlobWrites
  import opened Winners
  import opened Observations
  import opened Cleanup
  import opened Duplicates
  import opened Survivors
  import opened Recovery
  import opened Boot

  class Nvs {
    var hal: Hal
    var pages: seq<ThinPage>
    var freePages: seq<ThinPage>
    var namespaces: map<Key, nat>
    var faulted: bool
    /** The store's abstract state: the value of every key. */
    ghost var contents: Contents

    /** nvs.rs, new: loads what is on flash, whatever it is. An instance whose loading was cut short is
        faulted; its flash is what the cut left behind. */
    constructor (h: Hal, ghost kv: Contents)
      requires FlashFit(h) && SequencesDiffer(View(h))
      ensures HalOk(h) && HalOk(hal) && Later(h, hal)
      ensures !faulted ==> BaseOk(hal, pages, freePages) && ActiveLast(pages) && OneHeadEach(View(hal))
      ensures faulted ==> hal.budget == Some(0)
      ensures h.budget.None? ==> !faulted && hal.budget.None?
      ensures !faulted ==> AllLoaded(hal, pages)
      ensures WfViews(View(h)) && (!faulted && NoMove(View(h)) ==> SurvivorsOnly(View(h), View(hal)))
      ensures !faulted && NoMove(View(h)) ==> WholeStays(h, hal) && AsFound(h, pages, freePages)
      ensures Recovers(h, kv) ==>
                && (!faulted ==> Valid())
                && (faulted ==> Recovers(hal, contents))
                && KeysKept(kv, contents)
                && (NamesSafe(View(h)) ==> contents == kv && (faulted ==> NamesSafe(View(hal))))
    {
      hal := h;
      pages, freePages, namespaces, faulted, contents := [], [], map[], false, kv;
      new;
      hide Recovers, RecoversIn, View, Steady, NamesOk, NamesSafe, KeysKept, LosesNames, FlashFit, SequencesDiffer,
           BaseOk, ActiveLast, OneHeadEach, SurvivorsOnly, NoMove, WfViews, AsFound, AllLoaded, WholeStays;
      ghost var gc := NoGc;
      if Recovers(h, kv) {
        gc := RecoversGc(h, kv);
        SafeKeeps(h, kv, gc);
      }
      var ok;
      ghost var kv2;
      ok, kv2 := LoadSectors(kv, gc);
      if !ok {
        contents := kv2;
        faulted := true;
      } else {
        BaseLoaded(hal, pages, freePages);
      }
    }

    // ---- the reserve ----

    /** BinaryHeap::pop: a page no other is later than. */
    method PopFree() returns (p: ThinPage, ghost f: nat)
      requires freePages != []
      modifies this`freePages
      ensures f < |old(freePages)| && p == old(freePages)[f] && freePages == Removed(old(freePages), f)
      ensures FirstOut(old(freePages), f)
    {
      var best := 0;
      var i := 1;
      while i < |freePages|
        invariant best < i <= |freePages|
        invariant FirstOut(freePages[..i], best)
      {
        if HeapLess(freePages[best], freePages[i]) { best := i; }
        i := i + 1;
      }
      p, f := freePages[best], best;
      freePages := Removed(freePages, best);
    }

    /** compaction.rs, erase_page. */
    method ErasePage(p: ThinPage, ghost q: ThinPage, ghost others: seq<ThinPage>) returns (ok: bool)
      requires BaseOk(hal, others + [q], freePages) && q.addr == p.addr
      modifies this`hal, this`freePages
      ensures Later(old(hal), hal)
      ensures ok ==> BaseOk(hal, others, freePages) && freePages == old(freePages) + [UninitializedPage(p.addr)]
      ensures ok ==> View(hal) == View(old(hal))[p.addr := Free] && hal.codec == old(hal).codec && hal.ws == old(hal).ws
      ensures !ok ==> hal == old(hal) && freePages == old(freePages) && hal.budget == Some(0)
      ensures p.addr < |old(hal).sectors| == |hal.sectors| && HalOk(hal)
    {
      hide BaseOk, ErasedSector, ViewOf;
      ghost var h0 := hal;
      LastPlaced(hal, others, freePages, q);
      hal, ok := Put(hal, p.addr, ErasedSector());
      if ok {
        HalMoved(h0, hal, p.addr, ErasedSector());
        BaseRetire(h0, hal, others, freePages, q);
        freePages := freePages + [UninitializedPage(p.addr)];
        ViewTouched(h0, hal, p.addr);
        ErasedView(hal.codec);
      }
    }

    /** Erases a reserve page that needs it and writes its header. `keepMap` tells the callers apart:
        only free_page goes on with the entry map in RAM it popped, stale or not. */
    method InitReserve(p: ThinPage, keepMap: bool, nextSequence: nat, ghost ps: seq<ThinPage>, ghost fr: seq<ThinPage>,
                       ghost f: nat)
      returns (ok: bool, t: ThinPage)
      requires BaseOk(hal, ps, fr) && f < |fr| && fr[f] == p
      requires forall i | 0 <= i < |ps| :: ps[i].sequence < nextSequence
      modifies this`hal
      ensures Later(old(hal), hal) && HalOk(hal) && HalOk(old(hal)) && Touched(old(hal), hal, p.addr)
      ensures BlankMaps(fr) ==> SectorsOk(hal)
      ensures View(old(hal))[p.addr].Free?
      ensures ok ==> t == p.(state := Active, sequence := nextSequence, emap := if keepMap then p.emap else t.emap)
      ensures ok ==> hal.sectors[p.addr] == ErasedSector().(header := Some(Header(Active, nextSequence, true)))
      ensures ok && (keepMap ==> BlankMap(p.emap)) ==>
                && BaseOk(hal, ps + [t], Removed(fr, f)) && Writable(hal, t) && NextFree(t) == 0
                && View(hal) == View(old(hal))[p.addr := Used(Active, nextSequence, [])]
      ensures !ok ==> View(hal) == View(old(hal)) && hal.budget == Some(0)
    {
      hide BaseOk, ErasedSector, ViewOf, SectorOk, FreeOk, BodyOk, BlankMaps;
      ghost var h0 := hal;
      var a := p.addr;
      ReserveBlank(hal, ps, fr, f);
      ReserveMap(hal, ps, fr, f);
      t := p;
      ghost var fr2 := fr;
      if p.state != Uninitialized {
        hal, ok := Put(hal, a, ErasedSector());
        if !ok {
          FlashIfBlank(hal, ps, fr);
          return;
        }
        HalMoved(h0, hal, a, ErasedSector());
        ErasedFree(hal, a);
        BaseReplaceFree(h0, hal, ps, fr, f, UninitializedPage(a));
        fr2 := fr[f := UninitializedPage(a)];
        if !keepMap { t := UninitializedPage(a); }
        ViewTouched(h0, hal, a);
        ErasedView(hal.codec);
        assert View(hal) == View(h0);
      }
      assert hal.sectors[a] == ErasedSector();
      ghost var h1 := hal;
      hal, t, ok := Initialize(hal, t, nextSequence);
      BlanksStay(fr, f, a);
      if !ok {
        FlashIfBlank(hal, ps, fr2);
        return;
      }
      FreshHeader(h1, hal, t);
      if !keepMap || BlankMap(p.emap) {
        PlacedFresh(hal, t);
        BaseUse(h1, hal, ps, fr2, f, t);
        assert Removed(fr2, f) == Removed(fr, f);
        FlashIfBlank(hal, ps + [t], Removed(fr, f));
        ViewTouched(h1, hal, a);
        PlacedView(hal, t);
      } else {
        NotBlanks(fr, f);
      }
    }

    // ---- compaction.rs ----

    /** compaction.rs, copy_items: one live item after the other; the target joins the pages even when
        a write fails. The target's entry map in RAM need not be that of its sector. */
    method CopyItems(source: ThinPage, target: ThinPage) returns (r: Result<Unit>, ghost t2: ThinPage)
      requires HalOk(hal) && source.addr < |hal.sectors| && source.addr != target.addr
      requires BodyOk(hal.codec, source, hal.sectors[source.addr])
      requires GoodLocs(hal.codec, ScanFrom(hal.codec, hal.sectors[source.addr], 0))
      requires target.addr < |hal.sectors| && |target.emap| == MAP_SIZE && target.state == Active &&
               NextFree(target) == 0
      modifies this`hal, this`pages
      ensures Later(old(hal), hal) && HalOk(hal)
      ensures r.Ok? ==> pages == old(pages) + [t2]
      ensures r.Ok? ==> Piled(old(hal), hal, target, t2, ScanFrom(old(hal).codec, old(hal).sectors[source.addr], 0))
      ensures r.Err? ==> r == Err(FlashError) && hal.budget == Some(0)
      ensures Writable(old(hal), target) && r.Ok? ==> CopyDone(old(hal), hal, source, target, t2)
      ensures Writable(old(hal), target) && r.Err? &&
              AllWhole(old(hal).codec, ScanFrom(old(hal).codec, old(hal).sectors[source.addr], 0)) ==>
                CopyTorn(old(hal), hal, source, target)
    {
      hide ScanFrom, BodyOk, Tidy, GoodLocs, Recs, Spans, Appended, TornAppend, Piled, Copying, Stored, Committed,
           Drawn, Copyable, Parsed;
      var t := target;
      ghost var h0, s, exact := hal, hal.sectors[source.addr], Writable(hal, target);
      ghost var locs := ScanFrom(hal.codec, s, 0);
      ghost var acc: seq<Loc> := [];
      var i := 0;
      if exact { CopyStart(h0, source, target); }
      CopyFirst(h0.codec, source, s);
      PileStart(h0, target);
      SourceCopyable(h0.codec, source, s);
      while i < ENTRIES_PER_PAGE
        invariant Later(old(hal), hal)
        invariant i <= ENTRIES_PER_PAGE && pages == old(pages) && HalOk(hal)
        invariant Shape(s) && NextFree(source) <= ENTRIES_PER_PAGE
        invariant Piled(h0, hal, target, t, acc)
        invariant exact ==> Copying(h0, hal, source, target, t, acc)
        invariant locs == acc + ScanFrom(h0.codec, s, i)
        invariant i < NextFree(source) ==> Tidy(h0.codec, s, i, NextFree(source))
      {
        PiledFacts(h0, hal, target, t, acc);
        if exact { CopyingPage(h0, hal, source, target, t, acc); }
        assert hal.sectors[source.addr] == s;
        var item := None;
        if source.emap[i] == Written { item := LoadItem(hal, source, i); }
        if s.emap[i] == Written { NextToCopy(h0.codec, source, s, acc, i); }
        else { NothingToCopy(h0.codec, source, s, acc, i); }
        if item.None? || !Fits(item.value, i) {
          i := i + 1;
        } else {
          var it := item.value;
          ghost var loc := Loc(i, RecAt(h0.codec, s, i));
          ghost var h1 := hal;
          CopyablePrefix(acc, loc, ScanFrom(h0.codec, s, i + it.span));
          CopyableFits(acc, loc);
          var h2, t3, copied := CopyItemFrom(hal, t, source, i, it, exact);
          if copied.Err? {
            if exact && AllWhole(h0.codec, locs) {
              CopyCut(h0, hal, h2, source, target, t, acc, loc, ScanFrom(h0.codec, s, i + it.span));
            }
            hal := h2;
            pages := pages + [t3];
            return Err(copied.error), t3;
          }
          if exact { CopyStep(h0, h1, h2, source, target, t, t3, acc, loc); }
          PileStep(h0, h1, h2, target, t, t3, acc, loc);
          hal, t := h2, t3;
          acc := acc + [loc];
          i := i + it.span;
        }
      }
      pages := pages + [t];
      ScanOver(h0.codec, s, acc);
      if exact { CopyEnd(h0, hal, source, target, t, acc); }
      return Ok(Unit), t;
    }

    /** compaction.rs, free_page: the live items of `source`, taken out of the pages, go to a page of the
        reserve. With the entry map that page was loaded with: the items survive exactly if it has
        nothing but empty or written entries where they go. */
    method FreePage(source: ThinPage, nextSequence: nat)
      returns (r: Result<Unit>, ghost t2: ThinPage, ghost h1: Hal, ghost popped: ThinPage)
      requires BaseOk(hal, pages + [source], freePages) && freePages != [] && source.state == Full
      requires forall i | 0 <= i < |pages| :: pages[i].state == Full && pages[i].sequence < nextSequence
      requires source.sequence < nextSequence
      modifies this`hal, this`pages, this`freePages
      ensures Later(old(hal), hal) && HalOk(hal) && HalOk(old(hal))
      ensures r.Err? ==> r == Err(FlashError) && hal.budget == Some(0)
      ensures BlankMaps(old(freePages)) ==> BlankMaps(freePages) && (r.Err? ==> Cut(old(hal), hal))
      ensures r.Ok? ==> pages == old(pages) + [t2] && |freePages| == |old(freePages)| - 1
      ensures r.Ok? ==> popped in old(freePages) && |popped.emap| == MAP_SIZE && t2.addr == popped.addr < |hal.sectors|
      ensures r.Ok? ==>
                (AllSurvive(hal.codec, hal.sectors[t2.addr], LocsOf(old(hal), source)) <==>
                  Unspoilt(popped.emap, source.used))
      ensures r.Ok? && BlankMaps(old(freePages)) ==> BaseOk(hal, pages + [source.(state := Freeing)], freePages)
      ensures r.Ok? && BlankMaps(old(freePages)) ==>
                MoveDone(old(hal), h1, hal, source, t2) && t2.sequence == nextSequence
    {
      hide BaseOk, ViewOf, SectorOk, FreeOk, BodyOk, GcOk, Marked, CopyDone, CopyTorn, Interrupted, FlashOk, SectorsOk,
           Addrs, Recs, MoveDone, LogicalSame, Above, View, SectorOk, Recoverable, Dense, SequencesDiffer, Writable,
           BlankMaps, AllSurvive, Unspoilt, Piled, ScanFrom, WholeItems, AllWhole;
      ghost var h0, ps, fr := hal, pages, freePages;
      ghost var sf, exact := source.(state := Freeing), BlankMaps(fr);
      LastPlaced(hal, ps, fr, source);
      h1, t2, popped := hal, source, source;
      var ok;
      hal, ok := Put(hal, source.addr, WithState(hal.sectors[source.addr], Freeing));
      if !ok {
        if exact { AllFullIdle(h0, ps, fr, source); }
        return Err(FlashError), t2, h1, popped;
      }
      h1 := hal;
      MarkShape(h0, h1, ps, fr, source);
      MarkBase(h0, h1, ps, fr, source);
      if exact { MarkSource(h0, h1, ps, fr, source); }
      SourceView(h0, h1, source);
      MarkAbove(h1, ps, sf, fr, nextSequence);
      var target, f := PopFree();
      popped := target;
      BlanksGone(fr, f);
      ReserveMap(h1, ps + [sf], fr, f);
      var t;
      ok, t := InitReserve(target, true, nextSequence, ps + [sf], fr, f);
      if !ok {
        if exact { MarkedInterrupted(h0, h1, source.addr, hal); }
        return Err(FlashError), t2, h1, popped;
      }
      ghost var h2 := hal;
      SourceApart(h1, h2, ps, sf, fr, f, source);
      if exact { CopyReady(h1, h2, ps, sf, t, Removed(fr, f), source); }
      r, t2 := CopyItems(source, t);
      if r.Err? {
        if exact && WholeItems(h0) {
          SourceWhole(h0, source.addr);
          CopyInterrupted(h0, h1, h2, hal, source, t);
        }
        return;
      }
      assert t.emap == popped.emap;
      PiledSurvive(h2, hal, source, t, t2, LocsOf(h0, source));
      if exact { MoveCopied(h0, h1, h2, hal, ps, sf, t, t2, Removed(fr, f), source); }
    }

    /** The page worth reclaiming most, if any has an entry to gain. */
    method PickPage(nextSequence: nat) returns (pick: Option<nat>)
      requires forall i | 0 <= i < |pages| :: pages[i].sequence < nextSequence
      ensures pick.None? ==> forall i | 0 <= i < |pages| :: pages[i].used >= ENTRIES_PER_PAGE
      ensures pick.Some? ==> pick.value < |pages| && pages[pick.value].used < ENTRIES_PER_PAGE
      ensures pick.Some? ==> forall i | 0 <= i < |pages| && pages[i].used < ENTRIES_PER_PAGE ::
                && (pages[i].erased > 0 ==>
                      pages[pick.value].erased > 0 &&
                      10 * pages[i].erased - pages[i].sequence <=
                        10 * pages[pick.value].erased - pages[pick.value].sequence)
                && (i > pick.value ==>
                      pages[pick.value].erased > 0 && (pages[i].erased > 0 ==>
                        10 * pages[i].erased - pages[i].sequence <
                          10 * pages[pick.value].erased - pages[pick.value].sequence))
    {
      pick := None;
      var i := 0;
      while i < |pages|
        invariant i <= |pages|
        invariant pick.None? ==> forall j | 0 <= j < i :: pages[j].used >= ENTRIES_PER_PAGE
        invariant pick.Some? ==> pick.value < i && pages[pick.value].used < ENTRIES_PER_PAGE
        invariant pick.Some? ==> forall j | 0 <= j < i && pages[j].used < ENTRIES_PER_PAGE ::
                    Points(pages[j], nextSequence) <= Points(pages[pick.value], nextSequence) &&
                    (j > pick.value ==> Points(pages[j], nextSequence) < Points(pages[pick.value], nextSequence))
      {
        if pages[i].used < ENTRIES_PER_PAGE &&
           (pick.None? || Points(pages[pick.value], nextSequence) <= Points(pages[i], nextSequence)) {
          pick := Some(i);
        }
        i := i + 1;
      }
    }

    /** Reclaims one page. */
    method Defragment() returns (r: Result<Unit>, ghost source: ThinPage)
      requires InstOk(hal, pages, freePages) && freePages != []
      requires forall i | 0 <= i < |pages| :: pages[i].state == Full
      modifies this`hal, this`pages, this`freePages
      ensures Later(old(hal), hal)
      ensures r == Err(FlashFull) ==> hal == old(hal) && pages == old(pages) && freePages == old(freePages)
      ensures r == Err(FlashFull) <==> forall i | 0 <= i < |old(pages)| :: old(pages)[i].used >= ENTRIES_PER_PAGE
      ensures r == Err(FlashError) ==> hal.budget == Some(0) && Cut(old(hal), hal)
      ensures r.Err? ==> r.error in {FlashFull, FlashError}
      ensures r.Ok? ==> InstOk(hal, pages, freePages) && SameBags(old(hal), hal)
      ensures r.Ok? ==> Reclaimed(old(pages), old(freePages), pages, freePages, source)
      ensures r.Ok? ==> source.addr < |hal.sectors| && View(hal)[source.addr].Free?
      ensures r.Ok? ==> forall i | 0 <= i < |old(pages)| && old(pages)[i].used < 126 && old(pages)[i].erased > 0 ::
                source.erased > 0 &&
                10 * old(pages)[i].erased - old(pages)[i].sequence <= 10 * source.erased - source.sequence
      ensures r.Ok? ==> freePages != []
    {
      hide BaseOk, View, ViewOf, BodyOk, GcOk, Interrupted, FlashOk, SectorsOk, Addrs, MoveDone, SameBags, Reclaimed;
      ghost var h0, ps0, fr0 := hal, pages, freePages;
      var nextSequence := NextSequence(pages);
      var pick := PickPage(nextSequence);
      if pick.None? { return Err(FlashFull), UninitializedPage(0); }
      var page := pages[pick.value];
      source := page;
      pages := SwapRemoved(pages, pick.value);
      SwapRemovedBase(h0, ps0, fr0, pick.value);
      ghost var ps := pages;
      if page.erased != ENTRIES_PER_PAGE {
        ghost var t;
        r, t := MoveAway(page, nextSequence);
        if r.Ok? { MovedReclaimed(ps0, fr0, pick.value, ps, t, freePages); }
        return;
      }
      var ok := ErasePage(page, page, pages);
      if !ok {
        AllFullIdle(h0, ps, fr0, page);
        return Err(FlashError), source;
      }
      EmptyErased(h0, hal, ps, fr0, page);
      FullInst(hal, ps, freePages);
      EmptyReclaimed(ps0, fr0, pick.value, freePages);
      r := Ok(Unit);
    }

    /** The middle of defragment: the live items of a page, taken out of the pages, go to a page of the
        reserve, and the page is erased. After a failed copy it goes back to the front. */
    method MoveAway(page: ThinPage, nextSequence: nat) returns (r: Result<Unit>, ghost t: ThinPage)
      requires BaseOk(hal, pages + [page], freePages) && BlankMaps(freePages) && freePages != []
      requires page.state == Full && page.sequence < nextSequence
      requires forall i | 0 <= i < |pages| :: pages[i].state == Full && pages[i].sequence < nextSequence
      modifies this`hal, this`pages, this`freePages
      ensures Later(old(hal), hal)
      ensures r.Err? ==> r == Err(FlashError) && hal.budget == Some(0) && Cut(old(hal), hal)
      ensures r.Ok? ==> InstOk(hal, pages, freePages) && SameBags(old(hal), hal) && |freePages| == |old(freePages)|
      ensures r.Ok? ==> page.addr < |hal.sectors| && View(hal)[page.addr].Free?
      ensures r.Ok? ==> pages == old(pages) + [t] && t.used == page.used && t.erased == 0 && t.sequence == nextSequence
      ensures r.Ok? ==> t.state == (if IsFull(t) then Full else Active)
    {
      hide BaseOk, View, ViewOf, BodyOk, GcOk, Interrupted, FlashOk, SectorsOk, Addrs, MoveDone, SameBags;
      ghost var h0, ps, h1, popped := hal, pages, hal, page;
      r, t, h1, popped := FreePage(page, nextSequence);
      if r.Err? {
        pages := [page] + pages;
        return;
      }
      ghost var h2 := hal;
      MoveFacts(h0, h1, h2, page, t);
      var ok := ErasePage(page, page.(state := Freeing), pages);
      if !ok {
        MoveStopped(h0, h1, hal, page, t);
        return Err(FlashError), t;
      }
      MoveEnded(h0, h1, h2, hal, page, t);
      MovedInst(hal, ps, t, freePages, nextSequence);
      r := Ok(Unit);
    }

    // ---- items.rs ----

    /** Takes the active page out of the pages, making one if need be. */
    method GetActivePage() returns (r: Result<ThinPage>)
      requires InstOk(hal, pages, freePages)
      modifies this`hal, this`pages, this`freePages
      ensures Later(old(hal), hal)
      ensures r.Ok? ==> InstOk(hal, pages + [r.value], freePages) && r.value.state == Active && SameBags(old(hal), hal)
      ensures r == Err(FlashFull) ==> InstOk(hal, pages, freePages) && SameBags(old(hal), hal)
      ensures r == Err(FlashError) ==> hal.budget == Some(0) && Cut(old(hal), hal)
      ensures r.Err? ==> r.error in {FlashFull, FlashError}
      ensures r != Err(FlashError) && old(freePages) != [] ==> freePages != []
      ensures HasActive(old(pages)) ==>
                r.Ok? && hal == old(hal) && pages + [r.value] == old(pages) && freePages == old(freePages)
      ensures !HasActive(old(pages)) && |old(freePages)| >= 2 && r != Err(FlashError) ==>
                r.Ok? && NextFree(r.value) == 0 && |freePages| == |old(freePages)| - 1
      ensures !HasActive(old(pages)) && |old(freePages)| >= 2 && r.Ok? ==>
                && pages == old(pages) && NewestBy(pages, r.value.sequence)
                && exists f: nat :: f < |old(freePages)| && FirstOut(old(freePages), f) &&
                                    r.value.addr == old(freePages)[f].addr && freePages == Removed(old(freePages), f)
      ensures r == Err(FlashFull) <==> StoreFull(old(pages), old(freePages))
      ensures r == Err(FlashFull) <==>
                && (old(pages) == [] || old(pages)[|old(pages)| - 1].state != Active)
                && (old(freePages) == [] ||
                    (|old(freePages)| == 1 && forall i | 0 <= i < |old(pages)| :: old(pages)[i].used >= 126))
      ensures r != Err(FlashError) ==> |freePages| + 1 >= |old(freePages)|
      ensures r.Ok? ==> r.value.used + r.value.erased < 126
    {
      hide BaseOk, ViewOf, BodyOk, GcOk, Interrupted, FlashOk, SectorsOk, Addrs, SameBags;
      ghost var h0 := hal;
      SameBagsRefl(hal, pages, freePages);
      if pages != [] && pages[|pages| - 1].state == Active {
        var page := pages[|pages| - 1];
        pages := pages[..|pages| - 1];
        assert pages + [page] == old(pages);
        return Ok(page);
      }
      if freePages == [] { return Err(FlashFull); }
      if |freePages| == 1 {
        var d;
        ghost var source;
        d, source := Defragment();
        if d.Err? { return Err(d.error); }
      }
      if pages != [] && pages[|pages| - 1].state == Active {
        var page := pages[|pages| - 1];
        ghost var all := pages;
        pages := pages[..|pages| - 1];
        assert pages + [page] == all;
        return Ok(page);
      }
      if |freePages| == 1 { return Err(FlashFull); }
      r := TakeFree(h0);
    }

    /** The rest of get_active_page: a page from the reserve, of which there are two at least. */
    method TakeFree(ghost h0: Hal) returns (r: Result<ThinPage>)
      requires InstOk(hal, pages, freePages) && |freePages| >= 2 && !HasActive(pages) && SameBags(h0, hal)
      modifies this`hal, this`freePages
      ensures Later(old(hal), hal)
      ensures r.Ok? ==> InstOk(hal, pages + [r.value], freePages) && r.value.state == Active && SameBags(h0, hal)
      ensures r.Err? ==> r == Err(FlashError) && hal.budget == Some(0) && Cut(h0, hal)
      ensures r.Ok? ==> NextFree(r.value) == 0 && |freePages| == |old(freePages)| - 1
      ensures r.Ok? ==> NewestBy(pages, r.value.sequence)
      ensures r.Ok? ==> exists f: nat :: f < |old(freePages)| && FirstOut(old(freePages), f) &&
                                    r.value.addr == old(freePages)[f].addr && freePages == Removed(old(freePages), f)
    {
      hide BaseOk, ViewOf, BodyOk, GcOk, Interrupted, FlashOk, SectorsOk, Addrs, SameBags;
      ghost var h1, fr := hal, freePages;
      var page, f := PopFree();
      InstSequences(hal, pages, fr);
      var ok;
      ok, page := InitReserve(page, false, NextSequence(pages), pages, fr, f);
      if !ok {
        IdleInterrupted(h0, h1, hal, pages, fr);
        freePages := freePages + [page.(state := Corrupt)];
        return Err(FlashError);
      }
      FreshInst(h0, h1, hal, pages, page, fr, Removed(fr, f));
      return Ok(page);
    }

    /** items.rs, load_item: for any hash function, the item a linear search over all items finds. */
    method LoadKey(ns: nat, chunk: nat, key: Key) returns (r: Option<Found>, ghost j: nat)
      requires AllLoaded(hal, pages) && ns != 0
      ensures r.None? ==> forall i | 0 <= i < |pages| :: NoneMatches(LocsOf(hal, pages[i]), ns, key, chunk)
      ensures r.Some? ==> r.value.page < |pages|
      ensures r.Some? ==> FirstMatch(LocsOf(hal, pages[r.value.page]), j, r.value, ns, key, chunk)
      ensures r.Some? ==> forall i | 0 <= i < r.value.page :: NoneMatches(LocsOf(hal, pages[i]), ns, key, chunk)
      ensures r.Some? ==> j < |LocsOf(hal, pages[r.value.page])|
      ensures LookupKey(hal, pages, FullKey(ns, key), chunk) ==
              if r.Some? then Some(Spot(r.value.page, LocsOf(hal, pages[r.value.page])[j])) else None
    {
      hide Loaded, NoneMatches, FirstMatch, LocsOf;
      ghost var k := FullKey(ns, key);
      var hash := hal.codec.hash(ns, key, chunk);
      var i := 0;
      while i < |pages|
        invariant i <= |pages|
        invariant forall x | 0 <= x < i :: NoneMatches(LocsOf(hal, pages[x]), ns, key, chunk)
        invariant LookupFrom(hal, pages, 0, k, chunk) == LookupFrom(hal, pages, i, k, chunk)
      {
        r, j := FindOnPage(hal, pages[i], i, hash, ns, chunk, key);
        if r.Some? {
          FirstMatchIn(LocsOf(hal, pages[i]), j, r.value, ns, key, chunk);
          FindInMatch(LocsOf(hal, pages[i]), j, r.value, k, chunk);
          return;
        }
        FindInNone(LocsOf(hal, pages[i]), k, chunk);
        i := i + 1;
      }
      return None, 0;
    }

    /** page.rs, erase_item on one of the pages. */
    method EraseAt(i: nat, index: nat, span: nat, ghost j: nat) returns (ok: bool)
      requires BaseOk(hal, pages, freePages) && i < |pages|
      requires KeptAt(LocsOf(hal, pages[i]), j, index) && LocsOf(hal, pages[i])[j].rec.item.span == span
      modifies this`hal, this`pages
      ensures Later(old(hal), hal)
      ensures ok ==> BaseOk(hal, pages, freePages) && |pages| == |old(pages)|
      ensures ok && InstOk(old(hal), old(pages), freePages) ==> InstOk(hal, pages, freePages)
      ensures ok ==> Dropped(old(hal), hal, LocsOf(old(hal), old(pages)[i])[j].rec)
      ensures ok ==> pages == old(pages)[i := pages[i]] && pages[i].addr == old(pages)[i].addr
      ensures ok ==> LocsOf(hal, pages[i]) == Without(LocsOf(old(hal), old(pages)[i]), index)
      ensures ok ==> Vacated(View(old(hal)), View(hal), old(pages)[i].sequence, index)
      ensures ok ==> Has(View(old(hal)), old(pages)[i].sequence, LocsOf(old(hal), old(pages)[i])[j])
      ensures ok ==> SameBytes(old(hal), old(pages), hal, pages)
      ensures !ok ==> hal == old(hal) && hal.budget == Some(0)
      ensures HalOk(hal)
    {
      hide BaseOk, BodyOk, ScanFrom, Dropped, Without, GoodLocs, Vacated, Has, SameBytes, InstOk;
      ghost var h0, ps := hal, pages;
      BasePlaced(hal, pages, freePages, i);
      var p;
      hal, p, ok := EraseItem(hal, pages[i], index, span, j);
      pages := pages[i := p];
      if ok {
        ErasedInst(h0, hal, ps, freePages, i, p, index, span, j);
        BasePlaced(hal, pages, freePages, i);
        ErasedPlaces(h0, hal, ps, freePages, i, p, index, span, j);
      }
    }

    /** items.rs, delete_key; chunk NO_CHUNK is ChunkIndex::Any. A chunk can be deleted from any pages;
        what is left of a key whose head goes is stated for a key with a value. */
    method DeleteKey(ns: nat, key: Key, chunk: nat, ghost v: Option<Value>)
      returns (r: Result<Unit>, ghost gone: Rec, ghost at: Place)
      requires BaseOk(hal, pages, freePages) && HalOk(hal) && ns != 0
      requires chunk == NO_CHUNK ==> InstOk(hal, pages, freePages) && HeadMayGo(hal, pages, FullKey(ns, key), v)
      modifies this`hal, this`pages
      ensures Later(old(hal), hal)
      decreases if chunk == NO_CHUNK then 2 else 0
      ensures r == Err(KeyNotFound) ==> hal == old(hal) && pages == old(pages)
      ensures r == Err(KeyNotFound) ==> forall q | q in HBag(hal, FullKey(ns, key)) :: q.item.chunk != chunk
      ensures r.Err? ==> r.error in {KeyNotFound, FlashError}
      ensures r.Ok? ==> BaseOk(hal, pages, freePages) && |pages| == |old(pages)|
      ensures r.Ok? && InstOk(old(hal), old(pages), freePages) ==> InstOk(hal, pages, freePages)
      ensures r.Ok? ==> gone in HBag(old(hal), FullKey(ns, key)) && gone.item.chunk == chunk
      ensures r.Ok? ==> KeyOf(gone.item) == FullKey(ns, key) && (chunk != NO_CHUNK ==> !IsHead(gone))
      ensures HalOk(hal)
      ensures r.Ok? && chunk != NO_CHUNK ==> Dropped(old(hal), hal, gone)
      ensures r.Ok? && chunk != NO_CHUNK ==> Vacated(View(old(hal)), View(hal), at.sequence, at.loc.index)
      ensures r.Ok? ==> Has(View(old(hal)), at.sequence, at.loc) && at.loc.rec == gone
      ensures r.Ok? ==> SameBytes(old(hal), old(pages), hal, pages)
      ensures r.Ok? && chunk == NO_CHUNK ==>
                FirstHead(old(hal), old(pages), FullKey(ns, key), gone) &&
                HeadDeleted(old(hal), hal, FullKey(ns, key), gone)
      ensures r == Err(FlashError) ==> hal.budget == Some(0)
      ensures r == Err(FlashError) ==> gone in HBag(old(hal), FullKey(ns, key)) && gone.item.chunk == chunk
      ensures r == Err(FlashError) && hal != old(hal) ==>
                && chunk == NO_CHUNK && FirstHead(old(hal), old(pages), FullKey(ns, key), gone)
                && FlashOk(hal, NoGc) && HeadGoing(old(hal), hal, FullKey(ns, key), gone)
    {
      hide BaseOk, BodyOk, ScanFrom, Dropped, FlashOk, Bag, Lean, Reads, NoneMatches, FirstMatch, LocsOf, HeadMayGo,
           FirstHead, HeadDeleted, HeadGoing, Vacated, Has, SameBytes, SweptPlaces, InstOk;
      ghost var h0, ps, k := hal, pages, FullKey(ns, key);
      BaseLoaded(hal, pages, freePages);
      ghost var j;
      var found;
      found, j := LoadKey(ns, chunk, key);
      if found.None? {
        NotInBag(hal, pages, freePages, ns, key, chunk);
        gone := Rec(Item(0, Any, 0, 0, key, Raw([])), []);
        return Err(KeyNotFound), gone, Place(0, Loc(0, gone));
      }
      var f := found.value;
      gone := LocsOf(hal, pages[f.page])[j].rec by { FirstMatchIn(LocsOf(hal, pages[f.page]), j, f, ns, key, chunk); }
      at := Place(pages[f.page].sequence, LocsOf(hal, pages[f.page])[j]);
      FoundInBag(hal, pages, freePages, ns, key, chunk, f, j);
      var ok := EraseAt(f.page, f.index, f.item.span, j);
      if !ok { return Err(FlashError), gone, at; }
      if f.item.typ == BlobIndex {
        IndexGone(h0, hal, ps, k, gone, v);
        ghost var h1, ps1 := hal, pages;
        r := DeleteBlobData(ns, key, VersionOf(f.item.data.start));
        SweepDone(h0, h1, hal, k, gone);
        if r.Ok? { SameBytesBy(h0, ps, h1, ps1, hal, pages); }
        return;
      }
      HeadGone(h0, hal, k, gone);
      r := Ok(Unit);
    }

    /** items.rs, delete_blob_data: erases the chunks of one version, whichever of them exist. No head
        goes with them, whatever the pages hold; none of the chunks is left if no two of them share an
        index. */
    method DeleteBlobData(ns: nat, key: Key, start: nat) returns (r: Result<Unit>)
      requires BaseOk(hal, pages, freePages) && HalOk(hal) && ns != 0 && start in {0, 0x80}
      modifies this`hal, this`pages
      ensures Later(old(hal), hal)
      decreases 1
      ensures r.Err? ==> r == Err(FlashError) && hal.budget == Some(0)
      ensures r.Err? && InstOk(old(hal), old(pages), freePages) ==> FlashOk(hal, NoGc)
      ensures r.Ok? ==> BaseOk(hal, pages, freePages) && |pages| == |old(pages)|
      ensures r.Ok? && InstOk(old(hal), old(pages), freePages) ==> InstOk(hal, pages, freePages)
      ensures HalOk(hal) && OthersSame(old(hal), hal, FullKey(ns, key))
      ensures r.Ok? && Lean(old(hal).codec, HBag(old(hal), FullKey(ns, key))) ==>
                NoChunks(HBag(hal, FullKey(ns, key)), start, MAX_BLOB_CHUNK_COUNT)
      ensures Shed(HBag(old(hal), FullKey(ns, key)), HBag(hal, FullKey(ns, key)), start)
      ensures SweptPlaces(View(old(hal)), View(hal), FullKey(ns, key), start)
      ensures r.Ok? ==> SameBytes(old(hal), old(pages), hal, pages)
    {
      hide BaseOk, BodyOk, ScanFrom, Dropped, FlashOk, Bag, Lean, Reads, InstOk, NoChunks, Shed, OthersSame, SameBags,
           Vacated, Has, SameBytes, SweptPlaces, SinglePlaces;
      ghost var k, lean, whole := FullKey(ns, key), Lean(hal.codec, HBag(hal, FullKey(ns, key))),
                InstOk(hal, pages, freePages);
      SweepStart(hal, pages, freePages, k, start);
      SweptRefl(hal, pages, View(hal), k, start);
      var i := 0;
      while i < MAX_BLOB_CHUNK_COUNT
        invariant Later(old(hal), hal)
        invariant i <= MAX_BLOB_CHUNK_COUNT && |pages| == |old(pages)|
        invariant BaseOk(hal, pages, freePages) && HalOk(hal) && (whole ==> InstOk(hal, pages, freePages))
        invariant OthersSame(old(hal), hal, k)
        invariant Shed(HBag(old(hal), k), HBag(hal, k), start)
        invariant lean ==> Lean(hal.codec, HBag(hal, k)) && NoChunks(HBag(hal, k), start, i)
        invariant SweptPlaces(View(old(hal)), View(hal), k, start) && SameBytes(old(hal), old(pages), hal, pages)
      {
        ghost var h1, ps1 := hal, pages;
        InstPlaces(hal, pages, freePages);
        var deleted;
        ghost var gone, at;
        deleted, gone, at := DeleteKey(ns, key, start + i, None);
        if deleted == Err(FlashError) {
          if whole { InstIdle(h1, ps1, freePages); }
          return Err(FlashError);
        }
        if deleted.Ok? {
          SweepStep(old(hal), h1, hal, k, start, i, gone);
          SweptMore(View(old(hal)), View(h1), View(hal), k, start, at);
          SameBytesBy(old(hal), old(pages), h1, ps1, hal, pages);
        } else if lean {
          SweepMissing(HBag(hal, k), start, i);
        }
        i := i + 1;
      }
      r := Ok(Unit);
    }

    /** The largest namespace index in use. */
    method MaxNamespace() returns (m: Option<nat>)
      ensures m.None? ==> namespaces == map[]
      ensures m.Some? ==> forall n | n in namespaces :: namespaces[n] <= m.value
      ensures m.Some? ==> exists n :: n in namespaces && namespaces[n] == m.value
    {
      m := None;
      var rest := namespaces.Keys;
      while rest != {}
        invariant rest <= namespaces.Keys
        invariant m.None? ==> rest == namespaces.Keys
        invariant m.Some? ==> forall n | n in namespaces && n !in rest :: namespaces[n] <= m.value
        invariant m.Some? ==> exists n :: n in namespaces && namespaces[n] == m.value
        decreases rest
      {
        var n :| n in rest;
        if m.None? || m.value < namespaces[n] { m := Some(namespaces[n]); }
        rest := rest - {n};
      }
    }

    /** items.rs, get_or_create_namespace: an entry with namespace index 0 gives the name its index. */
    method GetOrCreateNamespace(namespace: Key, page: ThinPage) returns (r: Result<nat>, p2: ThinPage)
      requires Steady(hal, pages + [page], freePages, contents) && page.state == Active && NamesOk(namespaces, contents)
      modifies this`hal, this`namespaces, this`contents
      ensures Later(old(hal), hal)
      ensures NamesOk(namespaces, old(contents)) || r.Ok?
      ensures r.Ok? ==> Steady(hal, pages + [p2], freePages, contents) && NamesOk(namespaces, contents)
      ensures r.Ok? ==> namespace in namespaces && namespaces[namespace] == r.value
      ensures r.Ok? ==> p2.state == (if IsFull(p2) then Full else Active)
      ensures namespace in old(namespaces) ==> r.Ok? && p2 == page && hal == old(hal) && namespaces == old(namespaces)
      ensures r.Ok? ==> hal.codec == old(hal).codec && hal.ws == old(hal).ws
      ensures r.Ok? ==> Opened(old(contents), contents, namespaces, namespace) && r.value < 256
      ensures r.Ok? ==> contents == WithName(old(contents), namespace, r.value)
      ensures r.Ok? ==> KeysSame(old(hal), hal)
      ensures r.Err? ==> contents == old(contents) && namespaces == old(namespaces)
      ensures r == Err(TooManyNamespaces) <==> NamesFull(old(contents), namespace)
      ensures r == Err(TooManyNamespaces) ==> p2 == page && hal == old(hal)
      ensures r == Err(FlashError) ==> hal.budget == Some(0)
      ensures r == Err(FlashError) ==>
                (Recovers(hal, contents) ||
                 exists index: nat ::
                   NameIndex(contents, namespace, index) && Recovers(hal, WithName(contents, namespace, index)))
      ensures r.Err? ==> r.error in {TooManyNamespaces, FlashError}
    {
      hide Steady, InstOk, NamesOk, Recovers, NameIndex, NamesFull, Opened;
      p2 := page;
      SteadyLast(hal, pages, page, freePages, contents);
      if namespace in namespaces {
        NameKnown(namespaces, contents, namespace);
        KnownNotFull(namespaces, contents, namespace);
        return Ok(namespaces[namespace]), p2;
      }
      var m := MaxNamespace();
      NamesFullBy(namespaces, contents, namespace, m);
      if m.Some? && m.value >= 254 { return Err(TooManyNamespaces), p2; }
      var index := if m.Some? then m.value + 1 else 1;
      NameFresh(namespaces, contents, namespace, index, m);
      r, p2 := AddNamespace(namespace, index, page);
    }

    /** The rest of get_or_create_namespace: writes the entry of a new name. */
    method AddNamespace(namespace: Key, index: nat, page: ThinPage) returns (r: Result<nat>, p2: ThinPage)
      requires Steady(hal, pages + [page], freePages, contents) && page.state == Active && NamesOk(namespaces, contents)
      requires NameIndex(contents, namespace, index) && NameKey(namespace) !in contents
      modifies this`hal, this`namespaces, this`contents
      ensures Later(old(hal), hal)
      ensures r.Ok? ==> r == Ok(index) && p2.state == (if IsFull(p2) then Full else Active)
      ensures r.Ok? ==> Steady(hal, pages + [p2], freePages, contents) && NamesOk(namespaces, contents)
      ensures r.Ok? ==> namespaces == old(namespaces)[namespace := index] && KeysSame(old(hal), hal)
      ensures r.Ok? ==> contents == WithName(old(contents), namespace, index)
      ensures r.Ok? ==> Opened(old(contents), contents, namespaces, namespace)
      ensures r.Err? ==> r == Err(FlashError) && hal.budget == Some(0)
      ensures r.Err? ==> contents == old(contents) && namespaces == old(namespaces)
      ensures r.Err? ==> Recovers(hal, contents) || Recovers(hal, WithName(contents, namespace, index))
    {
      hide Steady, InstOk, Appended, TornAppend, NamesOk, NewHead, Recovers, KeysSame, Opened, Open;
      ghost var h0 := hal;
      SteadyLast(hal, pages, page, freePages, contents);
      var it := NamespaceItem(namespace, index);
      NameHead(hal, pages, page, freePages, contents, it, namespace, index);
      ghost var rec, v := ScalarRec(h0.codec, it), NameValue(index);
      SteadyOpen(h0, pages + [page], freePages, contents, NameKey(namespace));
      var w;
      hal, p2, w := WriteItem(hal, page, it);
      if w.Err? {
        TornSet(h0, pages, page, freePages, contents, hal, NameKey(namespace), rec, v);
        return Err(w.error), p2;
      }
      AppendedState(h0, page, hal, p2, rec);
      WrittenSet(h0, pages, page, freePages, contents, hal, p2, NameKey(namespace), rec, v);
      KeysAdded(h0, hal, rec);
      NameAdded(namespaces, contents, namespace, index);
      namespaces := namespaces[namespace := index];
      contents := WithName(contents, namespace, index);
      return Ok(index), p2;
    }

    // ---- setting ----

    ghost predicate Valid()
      reads this
    {
      Steady(hal, pages, freePages, contents) && NamesOk(namespaces, contents)
    }

    /** Marks a page as full and puts it back among the pages, retired or not. */
    method Retire(page: ThinPage) returns (ok: bool)
      requires InstOk(hal, pages + [page], freePages)
      modifies this`hal, this`pages
      ensures Later(old(hal), hal)
      ensures ok ==> InstOk(hal, pages, freePages) && SameBags(old(hal), hal) && !HasActive(pages)
      ensures !ok ==> hal == old(hal) && pages == old(pages) + [page] && hal.budget == Some(0)
    {
      hide InstOk, SameBags;
      ghost var h0, ps := hal, pages;
      InstLast(hal, pages, page, freePages);
      var p2;
      hal, p2, ok := MarkAsFull(hal, page);
      if ok { RetiredInst(h0, hal, ps, page, freePages); }
      pages := pages + [p2];
    }

    /** The active page, taken out of the pages, and the index of the namespace; how all three
        setters begin. A page that is not handed out is put back. */
    method ActiveWithNamespace(namespace: Key) returns (r: Result<nat>, page: ThinPage)
      requires Valid()
      modifies this`hal, this`pages, this`freePages, this`namespaces, this`contents
      ensures Later(old(hal), hal)
      ensures r.Ok? ==> Steady(hal, pages + [page], freePages, contents) && NamesOk(namespaces, contents)
      ensures r.Ok? ==> page.state == (if IsFull(page) then Full else Active)
      ensures r.Ok? ==> namespace in namespaces && namespaces[namespace] == r.value && 0 < r.value < 256
      ensures r.Ok? ==> hal.codec == old(hal).codec && hal.ws == old(hal).ws
      ensures r.Ok? ==> contents == WithName(old(contents), namespace, r.value)
      ensures r.Ok? ==> KeysSame(old(hal), hal)
      ensures r != Err(FlashError) ==> Opened(old(contents), contents, namespaces, namespace)
      ensures r.Err? && r.error != FlashError ==> Valid()
      ensures r == Err(FlashError) ==> hal.budget == Some(0)
      ensures r == Err(FlashError) ==>
                (Recovers(hal, old(contents)) || exists index: nat ::
                   NameIndex(old(contents), namespace, index) &&
                   Recovers(hal, WithName(old(contents), namespace, index)))
      ensures r.Err? ==> r.error in {FlashFull, TooManyNamespaces, FlashError}
      ensures r != Err(FlashError) && old(freePages) != [] ==> freePages != []
      ensures r != Err(FlashError) ==> |freePages| + 1 >= |old(freePages)|
      ensures r == Err(FlashFull) <==> StoreFull(old(pages), old(freePages))
      ensures |old(freePages)| >= 2 ==> r != Err(FlashFull)
      ensures r != Err(FlashError) ==>
                (r == Err(TooManyNamespaces) <==>
                   NamesFull(old(contents), namespace) && !StoreFull(old(pages), old(freePages)))
      ensures r.Ok? && namespace in old(namespaces) ==> page.state == Active
      ensures HasActive(old(pages)) && namespace in old(namespaces) ==> r.Ok? && hal == old(hal)
    {
      hide Steady, InstOk, SameBags, FlashOk, Interrupted, Recovers, Holds, AllNeat, NamesOk, NameIndex;
      ghost var h0, ps0, fr0 := hal, pages, freePages;
      SteadyInst(hal, pages, freePages, contents);
      NamesOpened(namespaces, contents, namespace);
      var got := GetActivePage();
      if got.Err? {
        page := UninitializedPage(0);
        if got.error == FlashError { SteadyInterrupted(h0, ps0, fr0, hal, contents); }
        else { SteadyKept(h0, ps0, fr0, hal, pages, freePages, contents); }
        return Err(got.error), page;
      }
      page := got.value;
      SteadyKept(h0, ps0, fr0, hal, pages + [page], freePages, contents);
      SameCodec(h0, hal);
      ghost var h1 := hal;
      r, page := GetOrCreateNamespace(namespace, page);
      if r.Err? {
        pages := pages + [page];
        return;
      }
      NameBound(namespaces, contents, namespace);
      KeysSameBy(h0, h1, hal);
    }

    /** A page with room for an item of one entry: the one given, or the next if that is full. */
    method RetireIfFull(page0: ThinPage) returns (r: Result<Unit>, page: ThinPage)
      requires Steady(hal, pages + [page0], freePages, contents)
      requires page0.state == (if IsFull(page0) then Full else Active)
      modifies this`hal, this`pages, this`freePages
      ensures Later(old(hal), hal)
      ensures r.Ok? ==> Steady(hal, pages + [page], freePages, contents) && page.state == Active
      ensures r.Err? && r.error != FlashError ==> Steady(hal, pages, freePages, contents)
      ensures r == Err(FlashError) ==> hal.budget == Some(0) && Recovers(hal, contents)
      ensures r.Err? ==> r.error in {FlashFull, FlashError}
      ensures r != Err(FlashError) && old(freePages) != [] ==> freePages != []
      ensures r != Err(FlashError) ==> |freePages| + 1 >= |old(freePages)|
      ensures r != Err(FlashError) && |old(freePages)| >= 2 ==> r.Ok?
      ensures page0.state == Active ==> r.Ok? && page == page0 && hal == old(hal) && pages == old(pages)
    {
      hide Steady, InstOk, SameBags, Interrupted, Recovers;
      page := page0;
      if IsFull(page) { r, page := NextPage(page); }
      else { r := Ok(Unit); }
    }

    /** Retires a page and takes the next. */
    method NextPage(page0: ThinPage) returns (r: Result<Unit>, page: ThinPage)
      requires Steady(hal, pages + [page0], freePages, contents)
      modifies this`hal, this`pages, this`freePages
      ensures Later(old(hal), hal)
      ensures r.Ok? ==> Steady(hal, pages + [page], freePages, contents) && page.state == Active
      ensures r.Ok? ==> hal.codec == old(hal).codec && hal.ws == old(hal).ws
      ensures r.Err? && r.error != FlashError ==> Steady(hal, pages, freePages, contents)
      ensures r == Err(FlashError) ==> hal.budget == Some(0) && Recovers(hal, contents)
      ensures r.Err? ==> r.error in {FlashFull, FlashError}
      ensures r != Err(FlashError) && old(freePages) != [] ==> freePages != []
      ensures r != Err(FlashError) ==> |freePages| + 1 >= |old(freePages)|
      ensures r != Err(FlashError) && |old(freePages)| >= 2 ==> r.Ok? && NextFree(page) == 0
    {
      hide Steady, InstOk, SameBags, Interrupted, Recovers;
      page := page0;
      ghost var h0, ps0 := hal, pages + [page];
      SteadyInst(hal, ps0, freePages, contents);
      var ok := Retire(page);
      if !ok {
        SteadyRecovers(h0, ps0, freePages, contents);
        return Err(FlashError), page;
      }
      SteadyKept(h0, ps0, freePages, hal, pages, freePages, contents);
      SameCodec(h0, hal);
      ghost var h1, ps1, fr1 := hal, pages, freePages;
      var got := GetActivePage();
      if got.Err? {
        if got.error == FlashError { SteadyInterrupted(h1, ps1, fr1, hal, contents); }
        else { SteadyKept(h1, ps1, fr1, hal, pages, freePages, contents); }
        return Err(got.error), page;
      }
      page := got.value;
      SteadyKept(h1, ps1, fr1, hal, pages + [page], freePages, contents);
      SameCodec(h1, hal);
      r := Ok(Unit);
    }

    ghost predicate Unchanged(h: Hal, ps: seq<ThinPage>, fr: seq<ThinPage>, kv: Contents)
      reads this
    {
      hal == h && pages == ps && freePages == fr && contents == kv
    }

    /** items.rs, set_primitive; `value` is the value in little endian order. */
    method SetPrimitive(namespace: Key, key: Key, typ: ItemType, value: seq<byte>) returns (r: Result<Unit>)
      requires Valid() && |value| == 8
      modifies this`hal, this`pages, this`freePages, this`namespaces, this`contents
      ensures Later(old(hal), hal)
      ensures r.Ok? ==>
                Valid() && PrimitiveWidth(typ).Some? &&
                IsSet(old(contents), contents, namespaces, namespace, key, PrimValue(typ, value))
      ensures r.Ok? ==> IsHeld(Held(namespaces, contents, namespace, key), NewPrimitive(typ, value))
      ensures SetRefusal(namespace, key, NewPrimitive(typ, value)).None? && HasActive(old(pages)) &&
              old(Held(namespaces, contents, namespace, key)) == Some(PrimValue(typ, value)) ==>
                r.Ok? && hal == old(hal)
      ensures r.Err? && r.error != FlashError ==> Valid() && Opened(old(contents), contents, namespaces, namespace)
      ensures r == Err(FlashError) ==> hal.budget == Some(0) && PrimitiveWidth(typ).Some?
      ensures r == Err(FlashError) ==> CutDuringSet(hal, old(contents), namespace, key, PrimValue(typ, value))
      ensures SetRefusal(namespace, key, NewPrimitive(typ, value)).Some? ==>
                r == Err(SetRefusal(namespace, key, NewPrimitive(typ, value)).value) &&
                Unchanged(old(hal), old(pages), old(freePages), old(contents))
      ensures SetRefusal(namespace, key, NewPrimitive(typ, value)).None? && r.Err? ==>
                r.error in {FlashFull, TooManyNamespaces, FlashError}
      ensures SetRefusal(namespace, key, NewPrimitive(typ, value)).None? && r != Err(FlashError) ==>
                && (r == Err(TooManyNamespaces) <==>
                      NamesFull(old(contents), namespace) && !StoreFull(old(pages), old(freePages)))
                && (StoreFull(old(pages), old(freePages)) ==> r == Err(FlashFull))
                && (r == Err(FlashFull) && namespace in old(namespaces) ==> StoreFull(old(pages), old(freePages)))
      ensures r != Err(FlashError) && old(freePages) != [] ==> freePages != []
      ensures r != Err(FlashError) ==> |freePages| + 2 >= |old(freePages)|
      ensures |old(freePages)| >= 3 ==> r != Err(FlashFull)
    {
      hide Steady, InstOk, Recovers, NamesOk, NameIndex, NamesFull, StoreFull, KeysSame, CutDuringSet, Opened;
      NamesOpened(namespaces, contents, namespace);
      if key[MAX_KEY_LENGTH] != 0 { return Err(KeyMalformed); }
      if namespace[MAX_KEY_LENGTH] != 0 { return Err(NamespaceMalformed); }
      if PrimitiveWidth(typ).None? { return Err(ItemTypeMismatch(typ)); }
      r := StorePrimitive(namespace, key, typ, value);
      if r.Ok? { SetHeld(old(contents), contents, namespaces, namespace, key, NewPrimitive(typ, value)); }
    }

    /** The rest of set_primitive: the page, the namespace and the item. */
    method StorePrimitive(namespace: Key, key: Key, typ: ItemType, value: seq<byte>) returns (r: Result<Unit>)
      requires Valid() && |value| == 8 && PrimitiveWidth(typ).Some?
      modifies this`hal, this`pages, this`freePages, this`namespaces, this`contents
      ensures Later(old(hal), hal)
      ensures r.Ok? ==>
                Valid() && IsSet(old(contents), contents, namespaces, namespace, key, PrimValue(typ, value))
      ensures HasActive(old(pages)) &&
              old(Held(namespaces, contents, namespace, key)) == Some(PrimValue(typ, value)) ==>
                r.Ok? && hal == old(hal)
      ensures r.Err? && r.error != FlashError ==> Valid() && Opened(old(contents), contents, namespaces, namespace)
      ensures r == Err(FlashError) ==> hal.budget == Some(0)
      ensures r == Err(FlashError) ==> CutDuringSet(hal, old(contents), namespace, key, PrimValue(typ, value))
      ensures r.Err? ==> r.error in {FlashFull, TooManyNamespaces, FlashError}
      ensures r != Err(FlashError) ==>
                && (r == Err(TooManyNamespaces) <==>
                      NamesFull(old(contents), namespace) && !StoreFull(old(pages), old(freePages)))
                && (StoreFull(old(pages), old(freePages)) ==> r == Err(FlashFull))
                && (r == Err(FlashFull) && namespace in old(namespaces) ==> StoreFull(old(pages), old(freePages)))
      ensures r != Err(FlashError) && old(freePages) != [] ==> freePages != []
      ensures r != Err(FlashError) ==> |freePages| + 2 >= |old(freePages)|
      ensures |old(freePages)| >= 3 ==> r != Err(FlashFull)
    {
      hide Steady, InstOk, Recovers, NamesOk, NameIndex, NamesFull, StoreFull, KeysSame, CutDuringSet, Opened;
      ghost var v := PrimValue(typ, value);
      var got, page := ActiveWithNamespace(namespace);
      if got.Err? {
        if got.error == FlashError { CutEarly(hal, old(contents), namespace, key, v); }
        return Err(got.error);
      }
      OpenedIndex(old(contents), contents, namespaces, namespace);
      FreshKey(old(namespaces), old(contents), contents, namespace, got.value, key);
      r, page := RetireIfFull(page);
      if r.Err? {
        if r.error == FlashError { CutOpened(hal, old(contents), contents, namespace, got.value, key, v); }
        return;
      }
      ghost var kv := contents;
      r := PutPrimitive(got.value, key, typ, RawValue(typ, value), page);
      if r.Err? { CutOpened(hal, old(contents), kv, namespace, got.value, key, v); }
      else { NamesKept(namespaces, kv, FullKey(got.value, key), v); }
    }

    /** The rest of set_primitive, once `page` has room for an entry. */
    method PutPrimitive(ns: nat, key: Key, typ: ItemType, raw: seq<byte>, page0: ThinPage) returns (r: Result<Unit>)
      requires Steady(hal, pages + [page0], freePages, contents) && page0.state == Active && 0 < ns < 256
      requires PrimitiveWidth(typ).Some? && |raw| == 8
      modifies this`hal, this`pages, this`contents
      ensures Later(old(hal), hal)
      ensures r.Ok? ==> Steady(hal, pages, freePages, contents)
      ensures r.Ok? ==> contents == Update(old(contents), FullKey(ns, key), Some(Prim(typ, raw)))
      ensures Get(old(contents), FullKey(ns, key)) == Some(Prim(typ, raw)) ==> r.Ok? && hal == old(hal)
      ensures r.Err? ==> r == Err(FlashError) && hal.budget == Some(0)
      ensures r.Err? ==>
                Recovers(hal, old(contents)) ||
                Recovers(hal, Update(old(contents), FullKey(ns, key), Some(Prim(typ, raw))))
    {
      hide Steady, InstOk, Recovers, LocsOf, NewHead, Appended, TornAppend, Pending, BaseOk, Carries, GoodRec, HalOk,
           BodyOk, Placed, Reads, Neat, Bag, Open;
      ghost var v, k := Prim(typ, raw), FullKey(ns, key);
      ghost var ps := pages;
      // the page goes back first: an old value may be on it
      pages := pages + [page0];
      var found;
      ghost var j, q;
      found, j, q := FindKey(ns, key);
      if found.Some? { CarriedType(hal.codec, HBag(hal, k), q, Get(contents, k).value); }
      if found.Some? && found.value.item.typ == typ && found.value.item.data == Raw(raw) {
        CarriesIn(hal.codec, HBag(hal, k), q, Get(contents, k).value);
        SameValue(hal, pages, freePages, contents, k, q, v);
        return Ok(Unit);
      }
      r := ReplacePrimitive(ns, key, typ, raw, found, j, q);
    }

    /** The rest of set_primitive, once it is known what the key holds: the item is written to the last
        page, then the older one erased. */
    method ReplacePrimitive(ns: nat, key: Key, typ: ItemType, raw: seq<byte>, found: Option<Found>, ghost j: nat,
                            ghost q: Rec)
      returns (r: Result<Unit>)
      requires Steady(hal, pages, freePages, contents) && InstOk(hal, pages, freePages) && HalOk(hal)
      requires pages != [] && pages[|pages| - 1].state == Active && 0 < ns < 256
      requires PrimitiveWidth(typ).Some? && |raw| == 8
      requires found.None? <==> Get(contents, FullKey(ns, key)).None?
      requires found.Some? ==>
                 && found.value.page < |pages| && KeptAt(LocsOf(hal, pages[found.value.page]), j, found.value.index)
                 && LocsOf(hal, pages[found.value.page])[j].rec == q && q in HBag(hal, FullKey(ns, key)) && IsHead(q)
                 && q.item == found.value.item && KeyOf(q.item) == FullKey(ns, key)
      modifies this`hal, this`pages, this`contents
      ensures Later(old(hal), hal)
      ensures r.Ok? ==> Steady(hal, pages, freePages, contents)
      ensures r.Ok? ==> contents == Update(old(contents), FullKey(ns, key), Some(Prim(typ, raw)))
      ensures r.Err? ==> r == Err(FlashError) && hal.budget == Some(0)
      ensures r.Err? ==>
                Recovers(hal, old(contents)) ||
                Recovers(hal, Update(old(contents), FullKey(ns, key), Some(Prim(typ, raw))))
    {
      hide Steady, InstOk, Recovers, LocsOf, NewHead, Appended, TornAppend, Pending, BaseOk, GoodRec, HalOk, BodyOk,
           Placed, Reads, Neat, Bag, Open;
      ghost var v, k := Prim(typ, raw), FullKey(ns, key);
      var page := pages[|pages| - 1];
      pages := pages[..|pages| - 1];
      ghost var h0, ps, page0 := hal, pages, page;
      assert ps + [page0] == old(pages);
      var it := Item(ns, typ, 1, NO_CHUNK, key, Raw(raw));
      PrimHead(hal, ps, page0, freePages, contents, k, it, v);
      SteadyOpen(hal, ps + [page0], freePages, contents, k);
      hal, page, r := WriteItem(hal, page, it);
      pages := pages + [page];
      if r.Err? {
        TornSet(h0, ps, page0, freePages, contents, hal, k, ScalarRec(h0.codec, it), v);
        return;
      }
      WrittenSet(h0, ps, page0, freePages, contents, hal, page, k, ScalarRec(h0.codec, it), v);
      contents := Update(contents, k, Some(v));
      if found.Some? {
        StillThere(h0, ps, page0, hal, page, k, found.value, j, ScalarRec(h0.codec, it));
        r := EraseOld(found.value, ns, key, j, q, ScalarRec(h0.codec, it));
      }
    }

    /** load_item for the head of a key: it finds the value the key has. */
    method FindKey(ns: nat, key: Key) returns (found: Option<Found>, ghost j: nat, ghost q: Rec)
      requires Steady(hal, pages, freePages, contents) && ns != 0
      ensures InstOk(hal, pages, freePages) && HalOk(hal)
      ensures found.None? <==> Get(contents, FullKey(ns, key)).None?
      ensures found.Some? ==> found.value.page < |pages| && j < |LocsOf(hal, pages[found.value.page])|
      ensures found.Some? ==> KeptAt(LocsOf(hal, pages[found.value.page]), j, found.value.index)
      ensures found.Some? ==> LocsOf(hal, pages[found.value.page])[j].rec == q
      ensures found.Some? ==> q in HBag(hal, FullKey(ns, key)) && IsHead(q)
      ensures found.Some? ==> q.item == found.value.item && KeyOf(q.item) == FullKey(ns, key) && GoodRec(hal.codec, q)
      ensures found.Some? ==> Carries(hal.codec, HBag(hal, FullKey(ns, key)), q, Get(contents, FullKey(ns, key)).value)
    {
      hide Steady, InstOk, NoneMatches, FirstMatch, LocsOf, BaseOk, GoodRec, Carries;
      SteadyInst(hal, pages, freePages, contents);
      BaseLoaded(hal, pages, freePages);
      found, j := LoadKey(ns, NO_CHUNK, key);
      q := FindHead(hal, pages, freePages, contents, FullKey(ns, key), found, j);
    }

    // ---- the public calls (nvs.rs) ----

    /** nvs.rs, set. After a flash error the instance takes no more writes. Only primitives are looked
        for under the index a new namespace gets: see `NothingLeft` for what the others may miss. */
    method Set(namespace: Key, key: Key, value: NewValue) returns (r: Result<Unit>)
      requires !faulted ==> Valid()
      requires value.NewPrimitive? ==> |value.bytes| == 8 && PrimitiveWidth(value.typ).Some?
      modifies this
      ensures Later(old(hal), hal)
      ensures old(faulted) ==> r == Err(FlashError) && hal == old(hal) && contents == old(contents)
      ensures faulted <==> r == Err(FlashError)
      ensures !old(faulted) && SetRefusal(namespace, key, value).Some? ==>
                r == Err(SetRefusal(namespace, key, value).value) &&
                Unchanged(old(hal), old(pages), old(freePages), old(contents))
      ensures SetRefusal(namespace, key, value).None? && r.Err? ==>
                r.error in {ValueTooLong, FlashFull, TooManyNamespaces, FlashError}
      ensures r == Err(TooManyNamespaces) ==> NamesFull(old(contents), namespace)
      ensures SetRefusal(namespace, key, value).None? && !faulted && NamesFull(old(contents), namespace) ==>
                r in {Err(FlashFull), Err(TooManyNamespaces)}
      ensures SetRefusal(namespace, key, value).None? && |old(freePages)| > PagesUsed(value) && !faulted ==>
                && r !in {Err(FlashFull), Err(ValueTooLong)}
                && |freePages| + PagesUsed(value) >= |old(freePages)|
      ensures !faulted && old(freePages) != [] ==> freePages != []
      ensures faulted && !old(faulted) ==> hal.budget == Some(0)
      ensures r.Ok? ==> IsSet(old(contents), contents, namespaces, namespace, key, ValueFor(value))
      ensures r.Ok? ==> IsHeld(Held(namespaces, contents, namespace, key), value)
      ensures !old(faulted) && SetRefusal(namespace, key, value).None? && HasActive(old(pages)) &&
              old(Held(namespaces, contents, namespace, key)) == Some(ValueFor(value)) ==>
                r.Ok? && hal == old(hal)
      ensures r.Ok? ==> (Valid() <==> value.NewPrimitive? || NothingLeft(old(contents), namespace, key))
      ensures r.Ok? ==> OthersHold(hal, contents, FullKey(namespaces[namespace], key))
      ensures r.Err? && !faulted && (value.NewBlob? ==> NothingLeft(old(contents), namespace, key)) ==>
                && Opened(old(contents), contents, namespaces, namespace)
                && (Valid() || (hal.budget == Some(0) && Recovers(hal, contents)))
      ensures faulted && !old(faulted) && ValueSafe(old(hal).codec, old(hal).ws, value) &&
              (value.NewBlob? ==> NothingLeft(old(contents), namespace, key)) ==>
                CutDuringSet(hal, old(contents), namespace, key, ValueFor(value))
    {
      hide Steady, Recovers, NamesOk, NothingLeft, CutDuringSet, ChunksSafe, TornSafe, Opened, NamesFull, StoreFull,
           OthersHold, Pending, InstOk, TwoHeads, NameIndex;
      if faulted { return Err(FlashError); }
      match value {
        case NewPrimitive(typ, bytes) => r := SetPrimitive(namespace, key, typ, bytes);
        case NewString(text) => r := SetStr(namespace, key, text);
        case NewBlob(data) => r := SetBlob(namespace, key, data);
      }
      if r == Err(FlashError) { faulted := true; }
      if r.Ok? {
        ghost var k := FullKey(namespaces[namespace], key);
        if Valid() {
          SteadyOthers(hal, pages, freePages, contents, k);
        } else if value.NewString? {
          ghost var q, rec :| Pending(hal, pages, freePages, contents, k, q, rec);
          PendingOthers(hal, pages, freePages, contents, k, q, rec);
        }
      }
    }

    /** nvs.rs, delete. A missing key or namespace is no error. */
    method Delete(namespace: Key, key: Key) returns (r: Result<Unit>)
      requires !faulted ==> Valid()
      modifies this
      ensures Later(old(hal), hal)
      ensures old(faulted) ==> r == Err(FlashError) && hal == old(hal) && contents == old(contents)
      ensures faulted <==> r == Err(FlashError)
      ensures r.Ok? ==> Valid() && contents == KeyRemoved(old(contents), namespaces, namespace, key)
      ensures !old(faulted) && KeyRefusal(namespace, key).Some? ==>
                r == Err(KeyRefusal(namespace, key).value) &&
                Unchanged(old(hal), old(pages), old(freePages), old(contents)) && Valid()
      ensures KeyRefusal(namespace, key).None? && r.Err? ==> r == Err(FlashError)
      ensures faulted && !old(faulted) ==> hal.budget == Some(0)
      ensures !old(faulted) && KeyRefusal(namespace, key).None? &&
              old(Held(namespaces, contents, namespace, key)).None? ==>
                r.Ok? && hal == old(hal) && contents == old(contents)
      ensures freePages == old(freePages)
      ensures faulted && !old(faulted) ==>
                Recovers(hal, old(contents)) || Recovers(hal, KeyRemoved(old(contents), namespaces, namespace, key))
      ensures namespaces == old(namespaces)
    {
      hide Steady, Recovers, NamesOk, InstOk, HeadMayGo, FirstHead, HeadDeleted, HeadGoing, FlashOk, View, Bag, BaseOk;
      if faulted { return Err(FlashError); }
      if key[MAX_KEY_LENGTH] != 0 { return Err(KeyMalformed); }
      if namespace[MAX_KEY_LENGTH] != 0 { return Err(NamespaceMalformed); }
      if namespace !in namespaces { return Ok(Unit); }
      NameBound(namespaces, contents, namespace);
      var ns := namespaces[namespace];
      ghost var k := FullKey(ns, key);
      ghost var h0, ps0 := hal, pages;
      SteadyInst(hal, pages, freePages, contents);
      SteadyMayGo(hal, pages, freePages, contents, k);
      ghost var gone, at;
      r, gone, at := DeleteKey(ns, key, NO_CHUNK, None);
      if r == Err(KeyNotFound) {
        NothingThere(hal, pages, freePages, contents, k);
        return Ok(Unit);
      }
      SomethingThere(h0, ps0, freePages, contents, k, gone);
      if r.Err? {
        faulted := true;
        if hal == h0 { SteadyRecovers(h0, ps0, freePages, contents); }
        else { DeleteCut(h0, ps0, freePages, contents, k, gone, hal); }
        return;
      }
      DeleteDone(h0, ps0, freePages, contents, k, gone, hal, pages);
      NamesLeft(namespaces, contents, k);
      contents := Update(contents, k, None);
    }

    // ---- reading ----

    /** items.rs, get_primitive. */
    method GetPrimitive(namespace: Key, key: Key, typ: ItemType) returns (r: Result<seq<byte>>)
      requires Valid() && PrimitiveWidth(typ).Some?
      ensures r == Err(KeyMalformed) <==> key[|key| - 1] != 0
      ensures r == Err(NamespaceMalformed) <==> key[|key| - 1] == 0 && namespace[|namespace| - 1] != 0
      ensures r !in {Err(KeyMalformed), Err(NamespaceMalformed)} ==>
                var v := Held(namespaces, contents, namespace, key);
                && (r == Err(NamespaceNotFound) <==> namespace !in namespaces)
                && (r == Err(KeyNotFound) <==> namespace in namespaces && v.None?)
                && (r.Ok? ==> v == Some(Prim(typ, r.value)))
                && (v.Some? && v.value.Prim? && v.value.typ == typ ==> r == Ok(v.value.raw))
                && (v.Some? && !(v.value.Prim? && v.value.typ == typ) ==> r == Err(ItemTypeMismatch(TypeOf(v.value))))
    {
      hide Steady, Carries, NamesOk, LocsOf, GoodRec, IndexOf;
      if key[MAX_KEY_LENGTH] != 0 { return Err(KeyMalformed); }
      if namespace[MAX_KEY_LENGTH] != 0 { return Err(NamespaceMalformed); }
      if namespace !in namespaces { return Err(NamespaceNotFound); }
      var ns := namespaces[namespace];
      NameBound(namespaces, contents, namespace);
      var found;
      ghost var j, q;
      found, j, q := FindKey(ns, key);
      if found.None? { return Err(KeyNotFound); }
      CarriedType(hal.codec, HBag(hal, FullKey(ns, key)), q, Get(contents, FullKey(ns, key)).value);
      if found.value.item.typ != typ { return Err(ItemTypeMismatch(found.value.item.typ)); }
      r := Ok(found.value.item.data.bytes);
    }

    /** items.rs, get_string; `utf8` decides whether bytes are a string. */
    method GetString(namespace: Key, key: Key, utf8: seq<byte> -> bool) returns (r: Result<seq<byte>>)
      requires Valid()
      ensures r == Err(KeyMalformed) <==> key[|key| - 1] != 0
      ensures r == Err(NamespaceMalformed) <==> key[|key| - 1] == 0 && namespace[|namespace| - 1] != 0
      ensures r !in {Err(KeyMalformed), Err(NamespaceMalformed)} ==>
                var v := Held(namespaces, contents, namespace, key);
                && (r == Err(NamespaceNotFound) <==> namespace !in namespaces)
                && (r == Err(KeyNotFound) <==> namespace in namespaces && v.None?)
                && (r.Ok? ==> utf8(r.value) && v.Some? && v.value.Str? && |v.value.bytes| == |r.value| + 1 &&
                              r.value <= v.value.bytes)
                && (forall t, last | v == Some(Str(t + [last])) :: r == if utf8(t) then Ok(t) else Err(CorruptedData))
                && (v == Some(Str([])) ==> r == Err(CorruptedData))
                && (v.Some? && !v.value.Str? ==> r == Err(ItemTypeMismatch(TypeOf(v.value))))
    {
      hide Steady, Carries, NamesOk, LocsOf, GoodRec, IndexOf, LoadReferencedData, BaseOk, Bag, View;
      if key[MAX_KEY_LENGTH] != 0 { return Err(KeyMalformed); }
      if namespace[MAX_KEY_LENGTH] != 0 { return Err(NamespaceMalformed); }
      if namespace !in namespaces { return Err(NamespaceNotFound); }
      var ns := namespaces[namespace];
      NameBound(namespaces, contents, namespace);
      SteadyInst(hal, pages, freePages, contents);
      var found;
      ghost var j, q;
      found, j, q := FindKey(ns, key);
      if found.None? { return Err(KeyNotFound); }
      var f := found.value;
      CarriedType(hal.codec, HBag(hal, FullKey(ns, key)), q, Get(contents, FullKey(ns, key)).value);
      if f.item.typ != Sized { return Err(ItemTypeMismatch(f.item.typ)); }
      CarriesIn(hal.codec, HBag(hal, FullKey(ns, key)), q, Get(contents, FullKey(ns, key)).value);
      HeadData(hal, pages, freePages, FullKey(ns, key), f, j, q);
      var data := LoadReferencedData(hal, pages[f.page], f.index, f.item);
      if f.item.data.crc != hal.codec.crc(data.value) { return Err(KeyNotFound); }
      if data.value == [] { return Err(CorruptedData); }
      Terminated(data.value);
      var text := data.value[..|data.value| - 1];
      if !utf8(text) { return Err(CorruptedData); }
      r := Ok(text);
    }

    /** items.rs, get_blob, once the blob's index was found. Holds for any contents of the pages:
        the result is exactly what the index promises, or an error. `readSize` is the read size of
        the platform; it never makes a difference. */
    method ReadIndexed(ns: nat, key: Key, it: Item, readSize: nat) returns (r: Result<seq<byte>>)
      requires AllLoaded(hal, pages) && ns != 0 && it.data.Index? && readSize >= 1
      ensures r.Ok? <==> BlobRead(hal, pages, FullKey(ns, key), it).Ok?
      ensures r.Ok? ==> r == BlobRead(hal, pages, FullKey(ns, key), it)
      ensures r.Err? ==> r.error == CorruptedData || r.error.ItemTypeMismatch?
    {
      hide Loaded, LocsOf, ChunkRead, Assemble, BodyOk, DataRead;
      ghost var k := FullKey(ns, key);
      if it.data.size > MAX_BLOB_SIZE { return Err(CorruptedData); }
      if it.data.start + it.data.count > 255 { return Err(CorruptedData); }
      var size, start, end := it.data.size, it.data.start, it.data.start + it.data.count;
      var buf := new byte[size + readSize](i => 0);
      var offset := 0;
      var chunk := start;
      AssembleNone(hal, pages, k, start);
      while chunk < end
        invariant start <= chunk <= end && 0 <= offset <= size
        invariant Assemble(hal, pages, k, start, chunk) == Ok(buf[..offset])
      {
        AssembleSnoc(hal, pages, k, start, chunk);
        PartFails(hal, pages, k, start, chunk + 1, end, size);
        ghost var before := buf[..offset];
        var got := ReadChunk(ns, key, chunk, buf, offset, size, readSize);
        if got.Err? { return Err(got.error); }
        assert buf[..offset + got.value] == before + buf[offset .. offset + got.value];
        offset := offset + got.value;
        chunk := chunk + 1;
      }
      if offset != size { return Err(CorruptedData); }
      r := Ok(buf[..size]);
    }

    /** One chunk, read into its place. */
    method ReadChunk(ns: nat, key: Key, chunk: nat, buf: array<byte>, offset: nat, size: nat, readSize: nat)
      returns (r: Result<nat>)
      requires AllLoaded(hal, pages) && ns != 0 && readSize >= 1 && offset <= size && buf.Length == size + readSize
      modifies buf
      ensures buf[..offset] == old(buf[..offset])
      ensures r.Ok? ==>
                offset + r.value <= size &&
                ChunkRead(hal, pages, FullKey(ns, key), chunk) == Ok(buf[offset .. offset + r.value])
      ensures r.Err? ==>
                var read := ChunkRead(hal, pages, FullKey(ns, key), chunk);
                read.Err? || offset + |read.value| > size
      ensures r.Err? ==> r.error == CorruptedData || r.error.ItemTypeMismatch?
    {
      hide Loaded, LocsOf, NoneMatches, FirstMatch, ChunkRead, LookupKey, LoadReferencedData, AlignCeil, BodyOk;
      ghost var k := FullKey(ns, key);
      var found;
      ghost var j;
      found, j := LoadKey(ns, chunk, key);
      if found.None? {
        MissingChunk(hal, pages, k, chunk);
        return Err(CorruptedData);
      }
      var f := found.value;
      ChunkLoads(hal, pages, k, chunk, f, j);
      if f.item.typ != BlobData { return Err(ItemTypeMismatch(f.item.typ)); }
      var data := LoadReferencedData(hal, pages[f.page], f.index, f.item);
      if data.Err? { return Err(data.error); }
      var len := |data.value|;
      if offset + AlignCeil(len, readSize) > buf.Length { return Err(CorruptedData); }
      ReadInto(buf, offset, data.value, AlignCeil(len, readSize));
      if offset + len > size { return Err(CorruptedData); }
      if f.item.data.crc != hal.codec.crc(buf[offset .. offset + len]) { return Err(CorruptedData); }
      r := Ok(len);
    }

    /** page.rs, read_referenced_data: the data goes to its place, and what follows it on flash into
        the slack up to the read size. */
    method ReadInto(buf: array<byte>, offset: nat, data: seq<byte>, aligned: nat)
      requires |data| <= aligned && offset + aligned <= buf.Length
      modifies buf
      ensures buf[..offset] == old(buf[..offset]) && buf[offset .. offset + |data|] == data
    {
      var i := 0;
      while i < aligned
        invariant i <= aligned && buf[..offset] == old(buf[..offset])
        invariant forall x | 0 <= x < i && x < |data| :: buf[offset + x] == data[x]
      {
        var slack: byte := *;
        buf[offset + i] := if i < |data| then data[i] else slack;
        i := i + 1;
      }
    }

    /** items.rs, blob_is_equal: compares from the last chunk back, and agrees with reading the blob
        and comparing, whatever the pages hold. */
    method BlobIsEqual(ns: nat, key: Key, it: Item, data: seq<byte>) returns (equal: bool)
      requires AllLoaded(hal, pages) && ns != 0 && it.data.Index? && |data| < MAX_BLOB_SIZE
      ensures equal <==> BlobRead(hal, pages, FullKey(ns, key), it) == Ok(data)
    {
      hide Loaded, LocsOf, NoneMatches, FirstMatch, ChunkRead, Assemble, LookupKey, LoadReferencedData;
      ghost var k := FullKey(ns, key);
      if it.data.size != |data| { return false; }
      if it.data.start + it.data.count > 255 { return false; }
      var start, end := it.data.start, it.data.start + it.data.count;
      var rest := data;
      var chunk := end;
      AssembleNone(hal, pages, k, end);
      assert data[|data|..] == [];
      while chunk > start
        invariant start <= chunk <= end && |rest| <= |data| && rest == data[..|rest|]
        invariant Assemble(hal, pages, k, chunk, end) == Ok(data[|rest|..])
      {
        chunk := chunk - 1;
        AssembleFront(hal, pages, k, chunk, end);
        EndFails(hal, pages, k, start, chunk, end, data);
        var found;
        ghost var j;
        found, j := LoadKey(ns, chunk, key);
        if found.None? {
          MissingChunk(hal, pages, k, chunk);
          return false;
        }
        var f := found.value;
        ChunkLoads(hal, pages, k, chunk, f, j);
        if f.item.typ != BlobData { return false; }
        var read := LoadReferencedData(hal, pages[f.page], f.index, f.item);
        if f.item.data.size > |rest| { return false; }
        if read.Err? { return false; }
        if f.item.data.crc != hal.codec.crc(read.value) { return false; }
        var offset := |rest| - f.item.data.size;
        SuffixSplit(read.value, data, offset, |rest|);
        assert rest[offset..] == data[offset .. |rest|];
        if read.value != rest[offset..] { return false; }
        rest := rest[..offset];
      }
      equal := rest == [];
      assert data[|rest|..] == data <==> rest == [];
    }

    /** items.rs, get_blob. */
    method GetBlob(namespace: Key, key: Key, readSize: nat) returns (r: Result<seq<byte>>)
      requires Valid() && readSize >= 1
      ensures r == Err(KeyMalformed) <==> key[|key| - 1] != 0
      ensures r == Err(NamespaceMalformed) <==> key[|key| - 1] == 0 && namespace[|namespace| - 1] != 0
      ensures r !in {Err(KeyMalformed), Err(NamespaceMalformed)} ==>
                var v := Held(namespaces, contents, namespace, key);
                && (r == Err(NamespaceNotFound) <==> namespace !in namespaces)
                && (r == Err(KeyNotFound) <==> namespace in namespaces && v.None?)
                && (r.Ok? ==> v == Some(BlobValue(r.value)))
                && (v.Some? && v.value.BlobValue? ==> r == Ok(v.value.bytes))
                && (v.Some? && !v.value.BlobValue? ==> r == Err(ItemTypeMismatch(TypeOf(v.value))))
    {
      hide Steady, Carries, NamesOk, LocsOf, GoodRec, IndexOf, BaseOk, BlobRead, Reads, Bag;
      if key[MAX_KEY_LENGTH] != 0 { return Err(KeyMalformed); }
      if namespace[MAX_KEY_LENGTH] != 0 { return Err(NamespaceMalformed); }
      if namespace !in namespaces { return Err(NamespaceNotFound); }
      var ns := namespaces[namespace];
      NameBound(namespaces, contents, namespace);
      SteadyInst(hal, pages, freePages, contents);
      var found;
      ghost var j, q;
      found, j, q := FindKey(ns, key);
      if found.None? { return Err(KeyNotFound); }
      var it := found.value.item;
      ghost var k := FullKey(ns, key);
      CarriedType(hal.codec, HBag(hal, k), q, Get(contents, k).value);
      // a legacy blob is not among the shapes of item this model has
      if it.typ != BlobIndex { return Err(ItemTypeMismatch(it.typ)); }
      BaseLoaded(hal, pages, freePages);
      SteadyRead(hal, pages, freePages, contents, k, q);
      r := ReadIndexed(ns, key, it, readSize);
    }

    /** items.rs, set_str; `value` is the string without its terminator. A key that a lost namespace
        left under the index of a new one is not looked for: the string is then written next to the
        older item, which is the one found until the next boot. */
    method SetStr(namespace: Key, key: Key, value: seq<byte>) returns (r: Result<Unit>)
      requires Valid()
      modifies this`hal, this`pages, this`freePages, this`namespaces, this`contents
      ensures Later(old(hal), hal)
      ensures r.Ok? ==>
                IsSet(old(contents), contents, namespaces, namespace, key, Str(value + [0])) && Recovers(hal, contents)
      ensures r.Ok? ==> IsHeld(Held(namespaces, contents, namespace, key), NewString(value))
      ensures SetRefusal(namespace, key, NewString(value)).None? &&
              old(Held(namespaces, contents, namespace, key)) == Some(Str(value + [0])) ==>
                r.Ok? && Unchanged(old(hal), old(pages), old(freePages), old(contents))
      ensures r.Ok? ==> (Valid() <==> NothingLeft(old(contents), namespace, key))
      ensures r.Ok? && !NothingLeft(old(contents), namespace, key) ==>
                exists q, rec :: Pending(hal, pages, freePages, contents, FullKey(namespaces[namespace], key), q, rec)
      ensures r.Err? && r.error != FlashError ==> Valid() && Opened(old(contents), contents, namespaces, namespace)
      ensures r == Err(FlashError) ==> hal.budget == Some(0)
      ensures r == Err(FlashError) && TornSafe(old(hal).codec, old(hal).ws, value + [0]) ==>
                CutDuringSet(hal, old(contents), namespace, key, Str(value + [0]))
      ensures SetRefusal(namespace, key, NewString(value)).Some? ==>
                r == Err(SetRefusal(namespace, key, NewString(value)).value) &&
                Unchanged(old(hal), old(pages), old(freePages), old(contents))
      ensures SetRefusal(namespace, key, NewString(value)).None? && r.Err? ==>
                r.error in {FlashFull, TooManyNamespaces, FlashError}
      ensures r == Err(TooManyNamespaces) ==> NamesFull(old(contents), namespace)
      ensures SetRefusal(namespace, key, NewString(value)).None? && r != Err(FlashError) &&
              NamesFull(old(contents), namespace) ==>
                r == if StoreFull(old(pages), old(freePages)) then Err(FlashFull) else Err(TooManyNamespaces)
      ensures r != Err(FlashError) && old(freePages) != [] ==> freePages != []
      ensures r != Err(FlashError) ==> |freePages| + 2 >= |old(freePages)|
      ensures |old(freePages)| >= 3 ==> r != Err(FlashFull)
    {
      hide Steady, InstOk, Recovers, LocsOf, Carries, GoodRec, TornSafe, NamesOk, NameIndex, NothingLeft, BaseOk,
           Pending, NamesFull, StoreFull, KeysSame, CutDuringSet;
      NamesOpened(namespaces, contents, namespace);
      if key[MAX_KEY_LENGTH] != 0 { return Err(KeyMalformed); }
      if namespace[MAX_KEY_LENGTH] != 0 { return Err(NamespaceMalformed); }
      if |value| + 1 > MAX_BLOB_DATA_PER_PAGE { return Err(ValueTooLong); }
      var buf := value + [0];
      var hadOld, same := CompareString(namespace, key, buf);
      if same {
        AlreadySet(contents, namespaces, namespace, key, Str(buf));
        KnownLeft(namespaces, contents, namespace, key);
        KnownNotFull(namespaces, contents, namespace);
        SteadyRecovers(hal, pages, freePages, contents);
        return Ok(Unit);
      }
      var got, page := ActiveWithNamespace(namespace);
      if got.Err? {
        if got.error == FlashError { CutEarly(hal, old(contents), namespace, key, Str(buf)); }
        return Err(got.error);
      }
      OpenedIndex(old(contents), contents, namespaces, namespace);
      ghost var kv := contents;
      FreshKey(old(namespaces), old(contents), contents, namespace, got.value, key);
      r := PutString(got.value, key, buf, page, hadOld);
      if r == Err(FlashError) {
        if TornSafe(old(hal).codec, old(hal).ws, buf) {
          CutOpened(hal, old(contents), kv, namespace, got.value, key, Str(buf));
        }
      } else if r.Ok? {
        NamesKept(namespaces, kv, FullKey(got.value, key), Str(buf));
        if hadOld || Get(kv, FullKey(got.value, key)).None? {
          SteadyRecovers(hal, pages, freePages, contents);
        } else {
          ghost var q, rec :| Pending(hal, pages, freePages, contents, FullKey(got.value, key), q, rec);
          PendingUnread(hal, pages, freePages, contents, FullKey(got.value, key), q, rec);
        }
      }
    }

    /** The check set_str starts with: whether the key holds anything, and whether it holds this. */
    method CompareString(namespace: Key, key: Key, buf: seq<byte>) returns (hadOld: bool, same: bool)
      requires Valid()
      ensures hadOld <==> namespace in namespaces && Get(contents, FullKey(namespaces[namespace], key)).Some?
      ensures same <==>
                namespace in namespaces && Get(contents, FullKey(namespaces[namespace], key)) == Some(Str(buf))
    {
      hide Steady, InstOk, LocsOf, GoodRec, NamesOk, BaseOk, Carries, Bag, View;
      if namespace !in namespaces { return false, false; }
      NameBound(namespaces, contents, namespace);
      ghost var k := FullKey(namespaces[namespace], key);
      var found;
      ghost var j, q;
      found, j, q := FindKey(namespaces[namespace], key);
      hadOld := found.Some?;
      same := false;
      if found.Some? {
        CarriedType(hal.codec, HBag(hal, k), q, Get(contents, k).value);
        if found.value.item.typ == Sized {
          SteadyInst(hal, pages, freePages, contents);
          CarriesIn(hal.codec, HBag(hal, k), q, Get(contents, k).value);
          HeadData(hal, pages, freePages, k, found.value, j, q);
          var data := LoadReferencedData(hal, pages[found.value.page], found.value.index, found.value.item);
          same := found.value.item.data.crc == hal.codec.crc(buf) && data.value == buf;
        }
      }
    }

    /** The rest of set_str: the string goes to this page or, if it does not fit, to the next. */
    method PutString(ns: nat, key: Key, buf: seq<byte>, page0: ThinPage, hadOld: bool) returns (r: Result<Unit>)
      requires Steady(hal, pages + [page0], freePages, contents) &&
               page0.state == (if IsFull(page0) then Full else Active)
      requires 0 < ns < 256 && |buf| <= MAX_BLOB_DATA_PER_PAGE && (hadOld ==> Get(contents, FullKey(ns, key)).Some?)
      modifies this`hal, this`pages, this`freePages, this`contents
      ensures Later(old(hal), hal)
      ensures r.Ok? ==>
                if hadOld || Get(old(contents), FullKey(ns, key)).None? then Steady(hal, pages, freePages, contents)
                        else exists q, rec :: Pending(hal, pages, freePages, contents, FullKey(ns, key), q, rec)
      ensures r.Ok? ==> contents == Update(old(contents), FullKey(ns, key), Some(Str(buf)))
      ensures r == Err(FlashFull) ==> Steady(hal, pages, freePages, contents) && contents == old(contents)
      ensures r == Err(FlashError) ==> hal.budget == Some(0)
      ensures r == Err(FlashError) && TornSafe(old(hal).codec, old(hal).ws, buf) ==>
                Recovers(hal, old(contents)) || Recovers(hal, Update(old(contents), FullKey(ns, key), Some(Str(buf))))
      ensures r.Err? ==> r.error in {FlashFull, FlashError}
      ensures r != Err(FlashError) && old(freePages) != [] ==> freePages != []
      ensures r != Err(FlashError) ==> |freePages| + 1 >= |old(freePages)|
      ensures |old(freePages)| >= 2 ==> r != Err(FlashFull)
    {
      hide Steady, InstOk, Recovers, TornSafe, WroteHead, Pending;
      var page := page0;
      r, page := AppendString(page, ns, key, buf);
      if r == Err(PageFull) {
        r, page := NextPage(page);
        if r.Err? { return; }
        SteadyLast(hal, pages, page, freePages, contents);
        r, page := AppendString(page, ns, key, buf);
        pages := pages + [page];
        if r == Err(PageFull) { return Err(FlashFull); }
      } else {
        pages := pages + [page];
      }
      if r.Err? { return; }
      ghost var kv0 := contents;
      contents := Update(contents, FullKey(ns, key), Some(Str(buf)));
      r := DropOld(ns, key, hadOld, kv0, Str(buf));
    }

    /** One attempt to append a string to a page. */
    method AppendString(page: ThinPage, ns: nat, key: Key, buf: seq<byte>) returns (r: Result<Unit>, p2: ThinPage)
      requires Steady(hal, pages + [page], freePages, contents) && page.state == (if IsFull(page) then Full else Active)
      requires 0 < ns < 256 && |buf| <= MAX_BLOB_DATA_PER_PAGE
      modifies this`hal
      ensures Later(old(hal), hal)
      ensures r.Ok? ==> WroteHead(hal, pages + [p2], freePages, contents, FullKey(ns, key), Str(buf))
      ensures r == Err(PageFull) ==> hal == old(hal) && p2 == page && SpanFor(|buf|) > FreeEntries(page)
      ensures r == Err(FlashError) ==> hal.budget == Some(0)
      ensures r == Err(FlashError) && TornSafe(old(hal).codec, old(hal).ws, buf) ==>
                Recovers(hal, contents) || Recovers(hal, Update(contents, FullKey(ns, key), Some(Str(buf))))
      ensures r.Err? ==> r.error in {PageFull, FlashError}
    {
      hide Steady, InstOk, Recovers, TornSafe, NewHead, Appended, TornAppend, BodyOk, ScanFrom, WroteHead, Open;
      ghost var h0, k, v := hal, FullKey(ns, key), Str(buf);
      SteadyLast(hal, pages, page, freePages, contents);
      hal, p2, r := WriteVariableSizedItem(hal, page, ns, key, Sized, NO_CHUNK, buf);
      if r == Err(PageFull) { return; }
      ghost var rec := SizedRec(h0.codec, ns, key, Sized, NO_CHUNK, buf);
      SteadyOpen(h0, pages + [page], freePages, contents, k);
      StringHead(h0, pages, page, freePages, contents, k, rec, buf);
      if r.Err? {
        if TornSafe(h0.codec, h0.ws, buf) { TornSet(h0, pages, page, freePages, contents, hal, k, rec, v); }
        return;
      }
      WroteHeadFrom(h0, pages, page, freePages, contents, hal, p2, k, rec, v);
    }

    /** Deletes what the key held before, now that its new head is written, if it was seen. */
    method DropOld(ns: nat, key: Key, hadOld: bool, ghost kv0: Contents, ghost v: Value) returns (r: Result<Unit>)
      requires ns != 0 && (hadOld ==> Get(kv0, FullKey(ns, key)).Some?)
      requires WroteHead(hal, pages, freePages, kv0, FullKey(ns, key), v)
      requires contents == Update(kv0, FullKey(ns, key), Some(v))
      modifies this`hal, this`pages
      ensures Later(old(hal), hal)
      ensures r.Ok? ==> if hadOld || Get(kv0, FullKey(ns, key)).None? then Steady(hal, pages, freePages, contents)
                        else exists q, rec :: Pending(hal, pages, freePages, contents, FullKey(ns, key), q, rec)
      ensures r.Err? ==> r == Err(FlashError) && hal.budget == Some(0) && Recovers(hal, contents)
    {
      hide Steady, InstOk, Recovers, Pending, HeadMayGo, FirstHead, HeadDeleted, HeadGoing, FlashOk, Reads, Bag;
      if !hadOld { return Ok(Unit); }
      ghost var k := FullKey(ns, key);
      ghost var h0, ps0 := hal, pages;
      ghost var q, rec :| Pending(hal, pages, freePages, contents, k, q, rec);
      PendingFacts(hal, pages, freePages, contents, k, q, rec);
      PendingMayGo(hal, pages, freePages, contents, k, q, rec);
      ghost var gone, at;
      InstSequences(hal, pages, freePages);
      r, gone, at := DeleteKey(ns, key, NO_CHUNK, Get(contents, k));
      if r.Err? {
        if hal != h0 {
          PendingFirst(h0, ps0, freePages, contents, k, q, rec, gone);
          PendingGoing(h0, ps0, freePages, contents, k, q, rec, hal);
        }
        return;
      }
      PendingFirst(h0, ps0, freePages, contents, k, q, rec, gone);
      PendingDone(h0, ps0, freePages, contents, k, q, rec, hal, pages);
    }

    /** items.rs, find_existing_blob_version. */
    method FindBlobVersion(namespace: Key, key: Key) returns (version: Option<nat>)
      requires Valid()
      ensures namespace in namespaces ==> HasVersion(HBag(hal, FullKey(namespaces[namespace], key)), version)
      ensures namespace !in namespaces ==> version.None?
    {
      hide Steady, NamesOk, Carries, Reads, Bag, LocsOf, GoodRec;
      if namespace !in namespaces { return None; }
      NameBound(namespaces, contents, namespace);
      var found;
      ghost var j, q;
      found, j, q := FindKey(namespaces[namespace], key);
      ghost var k := FullKey(namespaces[namespace], key);
      if found.Some? { CarriedType(hal.codec, HBag(hal, k), q, Get(contents, k).value); }
      version := if found.Some? && found.value.item.typ == BlobIndex then Some(VersionOf(found.value.item.data.start))
          else None;
      VersionFound(hal, pages, freePages, contents, k, found, q, version);
    }

    /** The checks set_blob starts with: whether the key holds anything, and whether it holds this. */
    method CompareBlob(namespace: Key, key: Key, data: seq<byte>) returns (hadOld: bool, same: bool)
      requires Valid() && |data| < MAX_BLOB_SIZE
      ensures hadOld <==> namespace in namespaces && Get(contents, FullKey(namespaces[namespace], key)).Some?
      ensures same <==>
                namespace in namespaces && Get(contents, FullKey(namespaces[namespace], key)) == Some(BlobValue(data))
    {
      hide Steady, Carries, GoodRec, NamesOk, BaseOk, Bag, BlobRead, Reads, Loaded;
      if namespace !in namespaces { return false, false; }
      NameBound(namespaces, contents, namespace);
      ghost var k := FullKey(namespaces[namespace], key);
      var found;
      ghost var j, q;
      found, j, q := FindKey(namespaces[namespace], key);
      hadOld := found.Some?;
      same := false;
      if found.Some? {
        CarriedType(hal.codec, HBag(hal, k), q, Get(contents, k).value);
        if found.value.item.typ == BlobIndex {
          SteadyInst(hal, pages, freePages, contents);
          BaseLoaded(hal, pages, freePages);
          SteadyRead(hal, pages, freePages, contents, k, q);
          same := BlobIsEqual(namespaces[namespace], key, found.value.item, data);
        }
      }
    }

    /** items.rs, set_blob. `ChunksSafe` is only asked for the outcome of a power cut. A key that a lost
        namespace left under the index of a new one is not looked for, neither its version nor its
        item: the blob is then written over it, and two heads are left. */
    method SetBlob(namespace: Key, key: Key, data: seq<byte>) returns (r: Result<Unit>)
      requires Valid()
      modifies this`hal, this`pages, this`freePages, this`namespaces, this`contents
      ensures Later(old(hal), hal)
      ensures r.Ok? ==> IsSet(old(contents), contents, namespaces, namespace, key, BlobValue(data))
      ensures r.Ok? ==> IsHeld(Held(namespaces, contents, namespace, key), NewBlob(data))
      ensures SetRefusal(namespace, key, NewBlob(data)).None? &&
              old(Held(namespaces, contents, namespace, key)) == Some(BlobValue(data)) ==>
                r.Ok? && Unchanged(old(hal), old(pages), old(freePages), old(contents))
      ensures r.Ok? ==> (Valid() <==> NothingLeft(old(contents), namespace, key))
      ensures r.Ok? && !NothingLeft(old(contents), namespace, key) ==>
                && InstOk(hal, pages, freePages) && TwoHeads(hal, FullKey(namespaces[namespace], key))
                && OthersHold(hal, contents, FullKey(namespaces[namespace], key))
      ensures r.Err? && r.error != FlashError && !NothingLeft(old(contents), namespace, key) ==>
                || Valid()
                || (namespace in namespaces && OthersHold(hal, contents, FullKey(namespaces[namespace], key)) &&
                    (InstOk(hal, pages, freePages) || (hal.budget == Some(0) && FlashOk(hal, NoGc))))
      ensures r.Err? && r.error != FlashError ==> Opened(old(contents), contents, namespaces, namespace)
      ensures r.Err? && r.error != FlashError && NothingLeft(old(contents), namespace, key) ==>
                Valid() || (hal.budget == Some(0) && Recovers(hal, contents))
      ensures r == Err(FlashError) ==> hal.budget == Some(0)
      ensures r == Err(FlashError) && ChunksSafe(old(hal).codec, old(hal).ws, data) &&
              NothingLeft(old(contents), namespace, key) ==>
                CutDuringSet(hal, old(contents), namespace, key, BlobValue(data))
      ensures SetRefusal(namespace, key, NewBlob(data)).Some? ==>
                r == Err(SetRefusal(namespace, key, NewBlob(data)).value) &&
                Unchanged(old(hal), old(pages), old(freePages), old(contents))
      ensures SetRefusal(namespace, key, NewBlob(data)).None? && r.Err? ==>
                r.error in {ValueTooLong, FlashFull, TooManyNamespaces, FlashError}
      ensures r == Err(TooManyNamespaces) ==> NamesFull(old(contents), namespace)
      ensures SetRefusal(namespace, key, NewBlob(data)).None? && r != Err(FlashError) &&
              NamesFull(old(contents), namespace) ==>
                r == if StoreFull(old(pages), old(freePages)) then Err(FlashFull) else Err(TooManyNamespaces)
      ensures r != Err(FlashError) && old(freePages) != [] ==> freePages != []
      ensures |old(freePages)| >= 3 + PagesFor(|data|) && |data| < MAX_BLOB_SIZE ==> r != Err(FlashFull)
      ensures |old(freePages)| >= 3 + PagesFor(|data|) && SetRefusal(namespace, key, NewBlob(data)).None? ==>
                r != Err(ValueTooLong)
      ensures |old(freePages)| >= 3 + PagesFor(|data|) && |data| < MAX_BLOB_SIZE && r != Err(FlashError) ==>
                |freePages| + 2 + PagesFor(|data|) >= |old(freePages)|
    {
      hide Steady, Recovers, ChunksSafe, NamesOk, NameIndex, NothingLeft, Writing, HasVersion, KeysSame, PagesFor,
           InstOk, TwoHeads, Overlooked, NamesFull, StoreFull, CutDuringSet, OthersHold, FlashOk;
      NamesOpened(namespaces, contents, namespace);
      if key[MAX_KEY_LENGTH] != 0 { return Err(KeyMalformed); }
      if namespace[MAX_KEY_LENGTH] != 0 { return Err(NamespaceMalformed); }
      if |data| + 1 > MAX_BLOB_SIZE { return Err(ValueTooLong); }
      ghost var v := BlobValue(data);
      var version := FindBlobVersion(namespace, key);
      var hadOld, same := CompareBlob(namespace, key, data);
      if same {
        AlreadySet(contents, namespaces, namespace, key, v);
        KnownLeft(namespaces, contents, namespace, key);
        KnownNotFull(namespaces, contents, namespace);
        return Ok(Unit);
      }
      r := StoreBlob(namespace, key, data, version, hadOld);
    }

    /** The rest of set_blob, once the older version and whether there is an older value are known. */
    method StoreBlob(namespace: Key, key: Key, data: seq<byte>, version: Option<nat>, hadOld: bool)
      returns (r: Result<Unit>)
      requires Valid() && |data| < MAX_BLOB_SIZE
      requires namespace in namespaces ==> HasVersion(HBag(hal, FullKey(namespaces[namespace], key)), version)
      requires namespace !in namespaces ==> version.None?
      requires hadOld <==> namespace in namespaces && Get(contents, FullKey(namespaces[namespace], key)).Some?
      modifies this`hal, this`pages, this`freePages, this`namespaces, this`contents
      ensures Later(old(hal), hal)
      ensures r.Ok? ==> IsSet(old(contents), contents, namespaces, namespace, key, BlobValue(data))
      ensures r.Ok? ==> (Valid() <==> NothingLeft(old(contents), namespace, key))
      ensures r.Ok? && !NothingLeft(old(contents), namespace, key) ==>
                && InstOk(hal, pages, freePages) && TwoHeads(hal, FullKey(namespaces[namespace], key))
                && OthersHold(hal, contents, FullKey(namespaces[namespace], key))
      ensures r.Err? && r.error != FlashError && !NothingLeft(old(contents), namespace, key) ==>
                || Valid()
                || (namespace in namespaces && OthersHold(hal, contents, FullKey(namespaces[namespace], key)) &&
                    (InstOk(hal, pages, freePages) || (hal.budget == Some(0) && FlashOk(hal, NoGc))))
      ensures r.Err? && r.error != FlashError ==> Opened(old(contents), contents, namespaces, namespace)
      ensures r.Err? && r.error != FlashError && NothingLeft(old(contents), namespace, key) ==>
                Valid() || (hal.budget == Some(0) && Recovers(hal, contents))
      ensures r == Err(FlashError) ==> hal.budget == Some(0)
      ensures r == Err(FlashError) && ChunksSafe(old(hal).codec, old(hal).ws, data) &&
              NothingLeft(old(contents), namespace, key) ==>
                CutDuringSet(hal, old(contents), namespace, key, BlobValue(data))
      ensures r.Err? ==> r.error in {ValueTooLong, FlashFull, TooManyNamespaces, FlashError}
      ensures r == Err(TooManyNamespaces) ==> NamesFull(old(contents), namespace)
      ensures r != Err(FlashError) && NamesFull(old(contents), namespace) ==>
                r == if StoreFull(old(pages), old(freePages)) then Err(FlashFull) else Err(TooManyNamespaces)
      ensures r != Err(FlashError) && old(freePages) != [] ==> freePages != []
      ensures |old(freePages)| >= 3 + PagesFor(|data|) && r != Err(FlashError) ==>
                r !in {Err(FlashFull), Err(ValueTooLong)} && |freePages| + 2 + PagesFor(|data|) >= |old(freePages)|
    {
      hide Steady, Recovers, ChunksSafe, NamesOk, NameIndex, NothingLeft, Writing, HasVersion, KeysSame, PagesFor,
           InstOk, TwoHeads, Overlooked, NamesFull, StoreFull, CutDuringSet, OthersHold, FlashOk;
      NamesOpened(namespaces, contents, namespace);
      ghost var v := BlobValue(data);
      ghost var h0 := hal;
      var got, page := ActiveWithNamespace(namespace);
      if got.Err? {
        if got.error == FlashError { CutEarly(hal, old(contents), namespace, key, v); }
        return Err(got.error);
      }
      pages := pages + [page];
      OpenedIndex(old(contents), contents, namespaces, namespace);
      ghost var kv, k := contents, FullKey(got.value, key);
      FreshKey(old(namespaces), old(contents), contents, namespace, got.value, key);
      ghost var sound := NothingLeft(old(contents), namespace, key);
      ghost var q := ScalarRec(hal.codec, IndexItem(got.value, key, 0, 0, 0));
      if sound {
        VersionKept(h0, hal, pages, freePages, contents, k, version, namespace in old(namespaces));
        WritingStart(hal, pages, freePages, contents, k, version);
      } else {
        q := OverlookedFrom(hal, pages, freePages, contents, k);
      }
      r := PutBlob(got.value, key, data, NewVersion(version), hadOld, sound, q);
      if r == Err(FlashError) {
        if sound && ChunksSafe(old(hal).codec, old(hal).ws, data) {
          CutOpened(hal, old(contents), kv, namespace, got.value, key, v);
        }
      } else if r.Ok? {
        NamesKept(namespaces, kv, k, v);
        if !sound { TwiceUnsteady(hal, pages, freePages, k, contents); }
      }
    }

    /** The rest of set_blob. If `sound`, no index owns the version; if not, head q was overlooked. */
    method PutBlob(ns: nat, key: Key, data: seq<byte>, start: nat, hadOld: bool, ghost sound: bool, ghost q: Rec)
      returns (r: Result<Unit>)
      requires WritingIf(sound, hal, pages, freePages, contents, FullKey(ns, key), start, [], q) && 0 < ns < 256
      requires |data| < MAX_BLOB_SIZE && if sound then hadOld <==> Get(contents, FullKey(ns, key)).Some? else !hadOld
      modifies this`hal, this`pages, this`freePages, this`contents
      ensures Later(old(hal), hal)
      ensures r.Ok? ==> if sound then Steady(hal, pages, freePages, contents)
                        else InstOk(hal, pages, freePages) && TwoHeads(hal, FullKey(ns, key))
      ensures !sound && r != Err(FlashError) ==> OthersHold(hal, contents, FullKey(ns, key))
      ensures !sound && r.Err? && r.error != FlashError ==>
                InstOk(hal, pages, freePages) || (hal.budget == Some(0) && FlashOk(hal, NoGc))
      ensures r.Ok? ==> contents == Update(old(contents), FullKey(ns, key), Some(BlobValue(data)))
      ensures r.Err? && r.error != FlashError ==> contents == old(contents)
      ensures sound && r.Err? && r.error != FlashError ==>
                Steady(hal, pages, freePages, contents) || (hal.budget == Some(0) && Recovers(hal, contents))
      ensures r == Err(FlashError) ==> hal.budget == Some(0)
      ensures sound && r == Err(FlashError) && ChunksSafe(old(hal).codec, old(hal).ws, data) ==>
                Recovers(hal, old(contents)) ||
                Recovers(hal, Update(old(contents), FullKey(ns, key), Some(BlobValue(data))))
      ensures r.Err? ==> r.error in {FlashFull, ValueTooLong, FlashError}
      ensures r != Err(FlashError) && old(freePages) != [] ==> freePages != []
      ensures |old(freePages)| >= 2 + PagesFor(|data|) && r != Err(FlashError) ==>
                r.Ok? && |freePages| + 1 + PagesFor(|data|) >= |old(freePages)|
    {
      hide Steady, InstOk, Recovers, ChunksSafe, Writing, OthersSame, Shed, NoChunks, Holds, AllNeat, Regular, Lean,
           PagesFor, FlashOk, WroteHead, Open, Bag, AllSized, TwoHeads, OthersHold;
      ghost var k := FullKey(ns, key);
      ghost var cs;
      ghost var turns;
      r, cs, turns := WriteBlobVersion(ns, key, data, start, sound, q);
      if r.Err? {
        // with the power gone, the sweep could not change anything
        if r.error == FlashError { return; }
        ghost var h1, ps1 := hal, pages;
        WritingIfInst(sound, hal, pages, freePages, contents, k, start, cs, q);
        InstSequences(hal, pages, freePages);
        if sound { WritingInst(hal, pages, freePages, contents, k, start, cs); }
        var swept := DeleteBlobData(ns, key, start);
        if !sound { OthersStill(h1, hal, contents, k); }
        if sound {
          SweptClean(h1, ps1, freePages, contents, k, start, cs, hal);
          if swept.Ok? { SteadyAgain(hal, pages, freePages, contents); }
          else { HoldsRecovers(hal, contents, NoGc); }
        }
        return;
      }
      ghost var kv := contents;
      contents := Update(contents, k, Some(BlobValue(data)));
      if !sound { OthersSet(hal, kv, k, BlobValue(data)); }
      if hadOld { r := DropOld(ns, key, hadOld, kv, BlobValue(data)); }
      else if sound { NothingPending(hal, pages, freePages, kv, k, BlobValue(data)); }
    }

    /** The next page while a blob is being written. */
    method TakePage(ghost k: FullKey, ghost start: nat, ghost cs: seq<Rec>, ghost sound: bool, ghost q: Rec)
      returns (r: Result<ThinPage>)
      requires WritingIf(sound, hal, pages, freePages, contents, k, start, cs, q)
      modifies this`hal, this`pages, this`freePages
      ensures Later(old(hal), hal)
      ensures r.Ok? ==>
                WritingIf(sound, hal, pages + [r.value], freePages, contents, k, start, cs, q) &&
                r.value.state == Active
      ensures r.Ok? ==> hal.codec == old(hal).codec && hal.ws == old(hal).ws
      ensures r == Err(FlashFull) ==> WritingIf(sound, hal, pages, freePages, contents, k, start, cs, q)
      ensures r == Err(FlashError) ==> hal.budget == Some(0) && (sound ==> Recovers(hal, contents))
      ensures r.Err? ==> r.error in {FlashFull, FlashError}
      ensures r != Err(FlashError) && old(freePages) != [] ==> freePages != []
      ensures HasActive(old(pages)) ==> r.Ok? && freePages == old(freePages)
      ensures !HasActive(old(pages)) && |old(freePages)| >= 2 && r != Err(FlashError) ==>
                r.Ok? && NextFree(r.value) == 0 && |freePages| == |old(freePages)| - 1
      ensures r != Err(FlashError) ==> |freePages| + 1 >= |old(freePages)|
    {
      hide InstOk, Recovers, WritingIf, Writing, SameBags, Interrupted, Holds, Open, FlashOk, Regular, Lean, AllSized;
      ghost var h0, ps0, fr0 := hal, pages, freePages;
      WritingIfInst(sound, hal, pages, freePages, contents, k, start, cs, q);
      r := GetActivePage();
      if r == Err(FlashError) {
        if sound { HoldsInterrupted(h0, hal, contents); }
      } else {
        SameCodec(h0, hal);
        WritingIfKept(sound, h0, ps0, fr0, hal, if r.Ok? then pages + [r.value] else pages, freePages, contents, k,
                      start, cs, q);
      }
    }

    /** Retires a page while a blob is being written. */
    method RetireWriting(page: ThinPage, ghost k: FullKey, ghost start: nat, ghost cs: seq<Rec>, ghost sound: bool,
                         ghost q: Rec)
      returns (ok: bool)
      requires WritingIf(sound, hal, pages + [page], freePages, contents, k, start, cs, q)
      modifies this`hal, this`pages
      ensures Later(old(hal), hal)
      ensures ok ==> WritingIf(sound, hal, pages, freePages, contents, k, start, cs, q) && !HasActive(pages)
      ensures hal.codec == old(hal).codec && hal.ws == old(hal).ws
      ensures !ok ==> hal.budget == Some(0) && (sound ==> Recovers(hal, contents))
    {
      hide InstOk, Recovers, WritingIf, Writing, SameBags, Holds, Open, FlashOk, Regular, Lean, AllSized;
      ghost var h0, ps0 := hal, pages + [page];
      WritingIfInst(sound, hal, ps0, freePages, contents, k, start, cs, q);
      if sound { WritingInst(hal, ps0, freePages, contents, k, start, cs); }
      ok := Retire(page);
      if ok {
        SameCodec(h0, hal);
        WritingIfKept(sound, h0, ps0, freePages, hal, pages, freePages, contents, k, start, cs, q);
      }
    }

    /** Appends one chunk, which fits the page it is given: PageFull cannot happen. */
    method WriteChunk(page0: ThinPage, ns: nat, key: Key, part: seq<byte>, start: nat, chunkCount: nat,
                      ghost cs: seq<Rec>, ghost sound: bool, ghost q: Rec)
      returns (r: Result<Unit>, ghost rec: Rec)
      requires WritingIf(sound, hal, pages + [page0], freePages, contents, FullKey(ns, key), start, cs, q) &&
               page0.state == Active
      requires 0 < ns < 256 && chunkCount == |cs| < MAX_BLOB_CHUNK_COUNT && AllSized(cs)
      requires 1 <= |part| <= (FreeEntries(page0) - 1) * ITEM_SIZE
      modifies this`hal, this`pages
      ensures Later(old(hal), hal)
      ensures r.Ok? ==> WritingIf(sound, hal, pages, freePages, contents, FullKey(ns, key), start, cs + [rec], q)
      ensures r.Ok? ==> AllSized(cs + [rec]) && Concat(cs + [rec]) == Concat(cs) + part
      ensures r.Ok? && |part| == (FreeEntries(page0) - 1) * ITEM_SIZE ==> !HasActive(pages)
      ensures hal.codec == old(hal).codec && hal.ws == old(hal).ws
      ensures r.Err? ==> r == Err(FlashError) && hal.budget == Some(0)
      ensures sound && r.Err? && TornSafe(old(hal).codec, old(hal).ws, part) ==> Recovers(hal, contents)
    {
      hide InstOk, Recovers, Writing, Appended, TornAppend, TornSafe, BodyOk, Open, Holds, Concat, AllSized, FlashOk,
           Regular, Lean, Overlooked, GoodRec;
      ghost var k := FullKey(ns, key);
      ghost var h0, ps := hal, pages;
      WritingIfInst(sound, hal, ps + [page0], freePages, contents, k, start, cs, q);
      InstLast(hal, ps, page0, freePages);
      ChunkSpan(|part|, FreeEntries(page0));
      rec := SizedRec(hal.codec, ns, key, BlobData, start + chunkCount, part);
      var page;
      hal, page, r := WriteVariableSizedItem(hal, page0, ns, key, BlobData, start + chunkCount, part);
      pages := pages + [page];
      if r.Err? {
        if sound && TornSafe(h0.codec, h0.ws, part) {
          ChunkTorn(h0, ps, page0, freePages, contents, k, start, cs, part, hal);
        }
      } else {
        AppendedState(h0, page0, hal, page, rec);
        AppendedCounts(h0, page0, hal, page, rec);
        ChunkGood(h0.codec, k, start + chunkCount, part);
        ConcatSnoc(cs, rec);
        if sound { ChunkWritten(h0, ps, page0, freePages, contents, k, start, cs, part, hal, page); }
        else { OverlookedAdded(h0, ps, page0, freePages, contents, k, q, hal, page, rec); }
      }
    }

    /** items.rs, write_blob_version. Every turn of the loop retires a page or writes a chunk, and no
        two retires happen without a chunk in between: at most 2 * 127 + 1 turns, whatever page
        get_active_page hands back. With a reserve it need not defragment for, the size never fails:
        what is left always fits the chunk indices left. */
    method WriteBlobVersion(ns: nat, key: Key, data: seq<byte>, start: nat, ghost sound: bool, ghost q: Rec)
      returns (r: Result<Unit>, ghost cs: seq<Rec>, ghost turns: nat)
      requires WritingIf(sound, hal, pages, freePages, contents, FullKey(ns, key), start, [], q) && 0 < ns < 256 &&
               |data| < MAX_BLOB_SIZE
      modifies this`hal, this`pages, this`freePages
      ensures Later(old(hal), hal)
      ensures r.Ok? ==> WroteIf(sound, hal, pages, freePages, contents, FullKey(ns, key), BlobValue(data))
      ensures r.Err? && r.error != FlashError ==>
                WritingIf(sound, hal, pages, freePages, contents, FullKey(ns, key), start, cs, q)
      ensures r == Err(FlashError) ==> hal.budget == Some(0)
      ensures sound && r == Err(FlashError) && ChunksSafe(old(hal).codec, old(hal).ws, data) ==>
                Recovers(hal, contents) || Recovers(hal, Update(contents, FullKey(ns, key), Some(BlobValue(data))))
      ensures r.Err? ==> r.error in {FlashFull, ValueTooLong, FlashError}
      ensures r != Err(FlashError) && old(freePages) != [] ==> freePages != []
      ensures |old(freePages)| >= 2 + PagesFor(|data|) && r != Err(FlashError) ==>
                r.Ok? && |freePages| + 1 + PagesFor(|data|) >= |old(freePages)|
      ensures turns <= 2 * MAX_BLOB_CHUNK_COUNT + 1
    {
      hide Recovers, WritingIf, ChunksSafe, WroteIf, TornSafe, Concat, AllSized, PagesFor, Later;
      ghost var k := FullKey(ns, key);
      ghost var c, ws := hal.codec, hal.ws;
      ghost var roomy := |freePages| >= 2 + PagesFor(|data|);
      var chunkCount: nat, offset: nat, retired := 0, 0, false;
      cs, turns := [], 0;
      ConcatNone();
      LaterRefl(hal);
      while offset < |data|
        invariant Later(old(hal), hal)
        invariant chunkCount == |cs| <= MAX_BLOB_CHUNK_COUNT && offset <= |data| &&
                  (offset % 32 == 0 || offset == |data|)
        invariant WritingIf(sound, hal, pages, freePages, contents, k, start, cs, q) && hal.codec == c && hal.ws == ws
        invariant AllSized(cs) && Concat(cs) == data[..offset]
        invariant old(freePages) != [] ==> freePages != []
        invariant roomy ==> |freePages| + PagesFor(|data|) >= |old(freePages)| + PagesFor(|data| - offset)
        invariant roomy ==> |data| - offset <= (MAX_BLOB_CHUNK_COUNT - chunkCount) * MAX_BLOB_DATA_PER_PAGE
        invariant roomy && retired ==> !HasActive(pages)
        invariant turns + 2 * (MAX_BLOB_CHUNK_COUNT - chunkCount) +
                  (if retired then 0 else 1) <= 2 * MAX_BLOB_CHUNK_COUNT + 1
        decreases 2 * (MAX_BLOB_CHUNK_COUNT - chunkCount) + (if retired then 0 else 1)
      {
        if chunkCount >= MAX_BLOB_CHUNK_COUNT { return Err(ValueTooLong), cs, turns; }
        turns := turns + 1;
        ghost var h1 := hal;
        ghost var newPage := !HasActive(pages);
        var got := TakePage(k, start, cs, sound, q);
        LaterBy(old(hal), h1, hal);
        if got.Err? { return Err(got.error), cs, turns; }
        var page := got.value;
        var freeEntries := FreeEntries(page);
        if freeEntries <= 1 {
          if retired {
            pages := pages + [page];
            return Err(FlashFull), cs, turns;
          }
          retired := true;
          h1 := hal;
          var ok := RetireWriting(page, k, start, cs, sound, q);
          LaterBy(old(hal), h1, hal);
          if !ok { return Err(FlashError), cs, turns; }
          continue;
        }
        var remaining := |data| - offset;
        var fitsHere := (freeEntries - 1) * ITEM_SIZE;
        var fitsInRemainingChunks := (MAX_BLOB_CHUNK_COUNT - 1 - chunkCount) * MAX_BLOB_DATA_PER_PAGE;
        if !retired && remaining > fitsHere + fitsInRemainingChunks {
          retired := true;
          h1 := hal;
          var ok := RetireWriting(page, k, start, cs, sound, q);
          LaterBy(old(hal), h1, hal);
          if !ok { return Err(FlashError), cs, turns; }
          continue;
        }
        var len := Min(fitsHere, remaining);
        var part := data[offset .. offset + len];
        if ChunksSafe(c, ws, data) { SafeChunk(c, ws, data, offset, len); }
        PagesLeft(remaining, len, newPage && roomy);
        ghost var rec;
        h1 := hal;
        r, rec := WriteChunk(page, ns, key, part, start, chunkCount, cs, sound, q);
        LaterBy(old(hal), h1, hal);
        if r.Err? { return; }
        assert data[..offset + len] == data[..offset] + part;
        cs := cs + [rec];
        offset, chunkCount, retired := offset + len, chunkCount + 1, false;
      }
      assert data[..offset] == data;
      ghost var h2 := hal;
      r := WriteIndex(ns, key, |data|, start, chunkCount, data, cs, sound, q);
      LaterBy(old(hal), h2, hal);
    }

    /** The end of write_blob_version: the index that makes the chunks count. */
    method WriteIndex(ns: nat, key: Key, size: nat, start: nat, chunkCount: nat, ghost data: seq<byte>,
                      ghost cs: seq<Rec>, ghost sound: bool, ghost q: Rec)
      returns (r: Result<Unit>)
      requires WritingIf(sound, hal, pages, freePages, contents, FullKey(ns, key), start, cs, q) && 0 < ns < 256
      requires AllSized(cs) && Concat(cs) == data && size == |data| < MAX_BLOB_SIZE &&
               chunkCount == |cs| <= MAX_BLOB_CHUNK_COUNT
      modifies this`hal, this`pages, this`freePages
      ensures Later(old(hal), hal)
      ensures r.Ok? ==> WroteIf(sound, hal, pages, freePages, contents, FullKey(ns, key), BlobValue(data))
      ensures r == Err(FlashFull) ==> WritingIf(sound, hal, pages, freePages, contents, FullKey(ns, key), start, cs, q)
      ensures r == Err(FlashError) ==> hal.budget == Some(0)
      ensures sound && r == Err(FlashError) ==>
                Recovers(hal, contents) || Recovers(hal, Update(contents, FullKey(ns, key), Some(BlobValue(data))))
      ensures r.Err? ==> r.error in {FlashFull, FlashError}
      ensures r != Err(FlashError) && old(freePages) != [] ==> freePages != []
      ensures |old(freePages)| >= 2 && r != Err(FlashError) ==> r.Ok?
      ensures r != Err(FlashError) ==> |freePages| + 1 >= |old(freePages)|
    {
      hide Recovers, WritingIf, WroteIf, Concat, AllSized, InstOk, Open, NewHead, Appended, TornAppend, Typed;
      ghost var k := FullKey(ns, key);
      var got := TakePage(k, start, cs, sound, q);
      if got.Err? { return Err(got.error); }
      ghost var h0, ps, page0 := hal, pages, got.value;
      var it := IndexItem(ns, key, size, chunkCount, start);
      IndexReady(sound, hal, ps, page0, freePages, contents, k, start, cs, q, data);
      ghost var rec, v := ScalarRec(h0.codec, it), BlobValue(data);
      var page;
      hal, page, r := WriteItem(hal, got.value, it);
      pages := pages + [page];
      if r.Ok? { IndexWritten(sound, h0, ps, page0, freePages, contents, k, start, cs, q, data, hal, page); }
      else {
        TornBudget(h0, page0, hal, rec);
        if sound { TornSet(h0, ps, page0, freePages, contents, hal, k, rec, v); }
      }
    }

    /** Erases the head found before the new one was written, and the chunks it owned. */
    method EraseOld(f: Found, ns: nat, key: Key, ghost j: nat, ghost q: Rec, ghost rec: Rec) returns (r: Result<Unit>)
      requires Pending(hal, pages, freePages, contents, FullKey(ns, key), q, rec) && ns != 0
      requires f.page < |pages| && KeptAt(LocsOf(hal, pages[f.page]), j, f.index)
      requires LocsOf(hal, pages[f.page])[j].rec == q && q.item == f.item && KeyOf(q.item) == FullKey(ns, key)
      modifies this`hal, this`pages
      ensures Later(old(hal), hal)
      ensures r.Ok? ==> Steady(hal, pages, freePages, contents)
      ensures r.Err? ==> r == Err(FlashError) && hal.budget == Some(0) && Recovers(hal, contents)
    {
      hide Steady, InstOk, SameBags, FlashOk, Interrupted, Recovers, Holds, AllNeat, LocsOf, Pending, BaseOk, Dropped,
           HeadDeleted, HeadGoing, Shed, NoChunks, OthersSame, PendingBag;
      ghost var h0, ps0, k := hal, pages, FullKey(ns, key);
      PendingFacts(hal, pages, freePages, contents, k, q, rec);
      InstSequences(hal, pages, freePages);
      var ok := EraseAt(f.page, f.index, f.item.span, j);
      if !ok { return Err(FlashError); }
      if f.item.typ == BlobIndex {
        ghost var h1 := hal;
        PendingSweep(h0, ps0, freePages, contents, k, q, rec, hal);
        r := DeleteBlobData(ns, key, VersionOf(f.item.data.start));
        SweepDone(h0, h1, hal, k, q);
        if r.Err? {
          PendingGoing(h0, ps0, freePages, contents, k, q, rec, hal);
          return;
        }
      } else {
        HeadGone(h0, hal, k, q);
        r := Ok(Unit);
      }
      PendingDone(h0, ps0, freePages, contents, k, q, rec, hal, pages);
    }

    // ---- the cleanup at boot (compaction.rs) ----

    /** Erases a head and, if it is an index, the chunks of its version. `tame` says that the flash
        stands for kv and the head is not the one that wins. */
    method EraseLoser(i: nat, index: nat, span: nat, version: Option<nat>, k: FullKey, ghost j: nat, ghost kv: Contents,
                      ghost tame: bool)
      returns (ok: bool)
      requires BaseOk(hal, pages, freePages) && HalOk(hal) && k.ns != 0 && i < |pages|
      requires KeptAt(LocsOf(hal, pages[i]), j, index) && LocsOf(hal, pages[i])[j].rec.item.span == span
      requires HeadOf(View(hal), k, pages[i].sequence, LocsOf(hal, pages[i])[j])
      requires version == VersionIn(LocsOf(hal, pages[i])[j].rec.item)
      requires tame ==>
                 Cleaning(hal, pages, freePages, kv) &&
                 Loses(View(hal), k, Place(pages[i].sequence, LocsOf(hal, pages[i])[j]))
      modifies this`hal, this`pages
      ensures Later(old(hal), hal) && HalOk(old(hal)) && HalOk(hal)
      ensures ok ==> BaseOk(hal, pages, freePages) && SameBytes(old(hal), old(pages), hal, pages)
      ensures ok ==> ClearedPlaces(View(old(hal)), View(hal), k,
                                   Some(Place(old(pages)[i].sequence, LocsOf(old(hal), old(pages)[i])[j])), version)
      ensures ok ==> PartsExcept(old(hal), hal, k, version)
      ensures !ok ==> hal.budget == Some(0)
      ensures tame && ok ==> Cleaning(hal, pages, freePages, kv)
      ensures tame && ok ==>
                Cleared(old(hal), hal, k, Some(Place(old(pages)[i].sequence, LocsOf(old(hal), old(pages)[i])[j])),
                        version)
      ensures tame && !ok ==> RecoversIn(hal, kv, NoGc)
    {
      hide InstOk, BaseOk, AllFated, RecoversIn, FlashOk, Bag, View, LocsOf, Dropped, Vacated, Has, HeadOf, Loses, Lean,
           Mixed, Wins, SweptPlaces, SameBytes, Shed, NoChunks, OthersSame, Cleared, SinglePlaces, SequencesDiffer,
           ClearedPlaces, PartsExcept;
      ghost var h0, ps0, at := hal, pages, Place(pages[i].sequence, LocsOf(hal, pages[i])[j]);
      if tame {
        CleaningFacts(hal, pages, freePages, kv);
        FatedMixed(hal, pages, freePages, kv, k);
      }
      VersionStart(at.loc.rec.item);
      ok := EraseAt(i, index, span, j);
      if !ok { return; }
      PlacesDrop(View(h0), View(hal), k, at);
      HeadFacts(h0, k, at);
      PartsDrop(h0, hal, at.loc.rec, k, version);
      if tame {
        DropFated(h0, ps0, freePages, kv, k, at, hal);
        ClearedDrop(h0, k, at, hal);
      }
      if version.Some? {
        ghost var h1, ps1 := hal, pages;
        if tame { LoserUnowned(h0, k, at, h1); }
        var swept := DeleteBlobData(k.ns, k.key, version.value);
        if tame { ShedFated(h1, kv, k, version.value, hal); }
        if swept.Err? {
          if tame { FatedRecovers(hal, kv); }
          return false;
        }
        PartsSweep(h0, h1, hal, k, version.value);
        PlacesSweep(View(h0), View(h1), View(hal), k, at, version.value);
        if tame { ClearedSweep(h0, k, Some(at), h1, version.value, hal); }
        SameBytesBy(h0, ps0, h1, ps1, hal, pages);
      }
    }

    /** The page with this sequence number. */
    method FindPage(sequence: nat) returns (i: Option<nat>)
      ensures i.Some? ==> i.value < |pages| && pages[i.value].sequence == sequence
      ensures i.None? ==> forall x | 0 <= x < |pages| :: pages[x].sequence != sequence
    {
      var x := 0;
      while x < |pages|
        invariant x <= |pages| && forall y | 0 <= y < x :: pages[y].sequence != sequence
      {
        if pages[x].sequence == sequence { return Some(x); }
        x := x + 1;
      }
      return None;
    }

    /** erase_blob_version: the index where it was found, and the chunks of its version. */
    method EraseBlobVersion(bk: BlobKey, e: IndexEntry, ghost loc: Loc, ghost kv: Contents, ghost tame: bool)
      returns (ok: bool)
      requires BaseOk(hal, pages, freePages) && HalOk(hal) && bk.ns != 0 && bk.start in {0, 0x80}
      requires NotedIndex(View(hal), bk, e, loc)
      requires tame ==> Cleaning(hal, pages, freePages, kv) && Loses(View(hal), KeyFor(bk), Place(e.pageSequence, loc))
      modifies this`hal, this`pages
      ensures Later(old(hal), hal) && HalOk(old(hal)) && HalOk(hal)
      ensures ok ==> BaseOk(hal, pages, freePages) && SameBytes(old(hal), old(pages), hal, pages)
      ensures ok ==>
                ClearedPlaces(View(old(hal)), View(hal), KeyFor(bk), Some(Place(e.pageSequence, loc)), Some(bk.start))
      ensures ok ==> PartsExcept(old(hal), hal, KeyFor(bk), Some(bk.start))
      ensures !ok ==> hal.budget == Some(0)
      ensures tame && ok ==> Cleaning(hal, pages, freePages, kv)
      ensures tame && ok ==> Cleared(old(hal), hal, KeyFor(bk), Some(Place(e.pageSequence, loc)), Some(bk.start))
      ensures tame && !ok ==> RecoversIn(hal, kv, NoGc)
    {
      hide InstOk, BaseOk, AllFated, RecoversIn, FlashOk, Bag, View, LocsOf, Has, HeadOf, Loses, Lean, Mixed, Wins,
           SameBytes, Cleared, SinglePlaces, SequencesDiffer, Cleaning, NotedIndex, ClearedPlaces, PartsExcept;
      NotedPlace(View(hal), bk, e, loc);
      ghost var x, j := PageOfPlace(hal, pages, freePages, e.pageSequence, loc);
      var i := FindPage(e.pageSequence);
      if i.Some? {
        SamePage(hal, pages, freePages, x, i.value);
        ok := EraseLoser(i.value, e.itemIndex, 1, Some(bk.start), KeyFor(bk), j, kv, tame);
      }
    }

    /** cleanup_dirty_blobs: chunks without an index go, and so does an index whose chunks do not add
        up; of two whole versions, the older one. In whatever order the noted versions are visited,
        the heads that go are the noted indices of the versions given up; and where the flash stands
        for some contents, the value of no key changes. */
    method CleanupDirtyBlobs(blobIndex: BlobIndexMap, ghost kv: Contents, ghost tame: bool)
      returns (ok: bool, ghost live: set<BlobKey>)
      requires BaseOk(hal, pages, freePages) && HalOk(hal) && WfViews(View(hal)) && blobIndex == NotedIn(View(hal))
      requires tame ==> Cleaning(hal, pages, freePages, kv)
      modifies this`hal, this`pages
      ensures Later(old(hal), hal) && HalOk(old(hal)) && HalOk(hal)
      ensures ok ==> BaseOk(hal, pages, freePages) && SameBytes(old(hal), old(pages), hal, pages)
      ensures ok ==> Undoomed(blobIndex, live) && HeadsLeft(View(old(hal)), View(hal), blobIndex, live)
      ensures ok ==> PartsSpared(old(hal), hal, blobIndex, live)
      ensures ok ==> forall x, y | x in live && y in live && KeyFor(x) == KeyFor(y) :: x == y
      ensures !ok ==> hal.budget == Some(0)
      ensures tame && ok ==> Cleaning(hal, pages, freePages, kv) && AllVersionsOk(hal)
      ensures tame && !ok ==> RecoversIn(hal, kv, NoGc)
    {
      hide Cleaning, RecoversIn, View, Bag, NotedIn, AddsUp, Dirty, Listed, BaseOk, SameBytes, HeadsLeft, NotesHold,
           Undoomed, Decided, Doomed, LatestLeft, PartsSpared;
      ghost var h0, ps0 := hal, pages;
      var consistent: map<FullKey, seq<BlobKey>> := map[];
      var todo := blobIndex.Keys;
      live := todo;
      ViewLoadable(hal, pages, freePages);
      NotesTaken(View(hal), blobIndex);
      BytesRefl(hal, pages);
      SiftedStart(blobIndex);
      SparedRefl(hal, blobIndex, live);
      if tame { DirtyStart(hal, pages, freePages, kv, blobIndex); }
      while todo != {}
        invariant Later(old(hal), hal)
        invariant todo <= live <= blobIndex.Keys && HalOk(hal) && HalOk(h0)
        invariant BaseOk(hal, pages, freePages) && SameBytes(h0, ps0, hal, pages) &&
                  HeadsLeft(View(h0), View(hal), blobIndex, live)
        invariant Sifted(blobIndex, live, todo, consistent) && PartsSpared(h0, hal, blobIndex, live)
        invariant tame ==> Cleaning(hal, pages, freePages, kv) && Dirty(hal, blobIndex, live, todo)
        decreases todo
      {
        var bk :| bk in todo;
        ghost var todo0, live0, consistent0, h1, ps1 := todo, live, consistent, hal, pages;
        var whole;
        ok, whole := SettleVersion(bk, blobIndex[bk], blobIndex, h0, live, todo, kv, tame);
        if !ok { return; }
        SameBytesBy(h0, ps0, h1, ps1, hal, pages);
        todo := todo - {bk};
        if whole {
          var k := KeyFor(bk);
          consistent := consistent[k := (if k in consistent then consistent[k] else []) + [bk]];
        } else {
          live := live - {bk};
        }
        SiftedMore(blobIndex, live0, todo0, consistent0, bk, live, todo, consistent);
      }
      var keys := consistent.Keys;
      SiftedDecided(blobIndex, live, consistent);
      while keys != {}
        invariant Later(old(hal), hal)
        invariant keys <= consistent.Keys && live <= blobIndex.Keys && HalOk(hal) && HalOk(h0)
        invariant BaseOk(hal, pages, freePages) && SameBytes(h0, ps0, hal, pages) &&
                  HeadsLeft(View(h0), View(hal), blobIndex, live)
        invariant Decided(blobIndex, live, {}, keys) && PartsSpared(h0, hal, blobIndex, live)
        invariant forall k | k in keys :: consistent[k] != [] && AllListed(consistent[k], k, live)
        invariant tame ==> Cleaning(hal, pages, freePages, kv) && Dirty(hal, blobIndex, live, {})
        decreases keys
      {
        var k :| k in keys;
        ghost var keys0, live0, h1, ps1 := keys, live, hal, pages;
        keys := keys - {k};
        assert keys + {k} == keys0;
        ListedAdds(blobIndex, live, keys0, consistent[k], k);
        ok, live := KeepNewest(consistent[k], blobIndex, h0, k, live, kv, tame);
        if !ok { return; }
        SameBytesBy(h0, ps0, h1, ps1, hal, pages);
        forall j | j in keys ensures AllListed(consistent[j], j, live) {
          LatestOther(blobIndex, consistent[j], j, k, live0, live);
        }
        LatestDecided(blobIndex, k, live0, live, keys);
      }
      if tame { DirtyEnd(hal, pages, freePages, kv, blobIndex, live); }
      DecidedEnd(blobIndex, live);
      forall x, y | x in live && y in live && KeyFor(x) == KeyFor(y) ensures x == y {
        OneVersionLeft(View(h0), blobIndex, live, x, y);
      }
      ok := true;
    }

    /** One noted version: swept if it has no index, erased if it does not add up, kept if it does. */
    method SettleVersion(bk: BlobKey, o: Observed, ghost bi: BlobIndexMap, ghost was: Hal, ghost live: set<BlobKey>,
                         ghost todo: set<BlobKey>, ghost kv: Contents, ghost tame: bool)
      returns (ok: bool, whole: bool)
      requires BaseOk(hal, pages, freePages) && HalOk(hal) && bk in todo && todo <= live && bk in bi && bi[bk] == o
      requires HalOk(was) && NotesHold(View(was), bi) && HeadsLeft(View(was), View(hal), bi, live)
      requires PartsSpared(was, hal, bi, live)
      requires tame ==> Cleaning(hal, pages, freePages, kv) && Dirty(hal, bi, live, todo)
      modifies this`hal, this`pages
      ensures Later(old(hal), hal) && HalOk(old(hal)) && HalOk(hal)
      ensures ok ==> (whole <==> AddsUp(o))
      ensures ok && whole ==> hal == old(hal) && pages == old(pages)
      ensures ok ==> BaseOk(hal, pages, freePages) && SameBytes(old(hal), old(pages), hal, pages)
      ensures ok ==> HeadsLeft(View(was), View(hal), bi, if whole then live else live - {bk})
      ensures ok ==> PartsSpared(was, hal, bi, if whole then live else live - {bk})
      ensures !ok ==> hal.budget == Some(0)
      ensures tame && ok ==>
                Cleaning(hal, pages, freePages, kv) && Dirty(hal, bi, if whole then live else live - {bk}, todo - {bk})
      ensures tame && !ok ==> RecoversIn(hal, kv, NoGc)
    {
      hide Cleaning, Noted, RecoversIn, View, Bag, Cleared, VersionGone, Mixed, Lean, Wins, BaseOk, InstOk, FlashOk,
           SinglePlaces, SequencesDiffer, IndexHere, Loses, AllFated, Unowned, SweptPlaces, Shed, NoChunks, OthersSame,
           SameBytes, Dirty, HeadsLeft, NotesHold, NotedIndex, ClearedPlaces, PartsSpared, PartsExcept;
      ghost var vs0 := View(was);
      ghost var h0, ps0, k := hal, pages, KeyFor(bk);
      whole := false;
      NotedFacts(vs0, bi, bk);
      BytesRefl(hal, pages);
      if tame {
        CleaningFacts(hal, pages, freePages, kv);
        DirtyNoted(hal, bi, live, todo, bk);
        FatedMixed(hal, pages, freePages, kv, k);
      }
      if o.index.None? {
        if tame { NotedUnowned(hal, bk, o); }
        var swept := DeleteBlobData(bk.ns, bk.key, bk.start);
        if tame {
          CleaningFated(h0, ps0, freePages, kv);
          ShedFated(h0, kv, k, bk.start, hal);
        }
        if swept.Err? {
          if tame { FatedRecovers(hal, kv); }
          return false, false;
        }
        StrikeChunks(vs0, View(h0), View(hal), bi, live, bk);
        PartsRefl(h0, k, Some(bk.start));
        PartsSweep(h0, h0, hal, k, bk.start);
        SparedStep(was, h0, hal, bi, live, bk);
        if tame {
          CleaningFrom(hal, pages, freePages, kv);
          ClearedSweep(h0, k, None, h0, bk.start, hal);
          DirtyStep(h0, ps0, freePages, kv, bi, live, todo, bk, None, hal);
        }
        return true, false;
      }
      ghost var loc :| NotedIndex(vs0, bk, o.index.value, loc);
      NotedStays(vs0, View(hal), bi, live, bk, loc);
      if o.index.value.count != o.chunkCount || o.index.value.size != o.dataSize {
        if tame { BrokenLoses(hal, bk, o, loc); }
        ok := EraseBlobVersion(bk, o.index.value, loc, kv, tame);
        if !ok { return; }
        StrikeIndex(vs0, View(h0), View(hal), bi, live, bk, loc);
        SparedStep(was, h0, hal, bi, live, bk);
        if tame {
          DirtyStep(h0, ps0, freePages, kv, bi, live, todo, bk, Some(Place(o.index.value.pageSequence, loc)), hal);
        }
        return;
      }
      if tame { DirtyWhole(hal, bi, live, todo, bk); }
      ok, whole := true, true;
    }

    /** Of the versions of one key that add up, all but the newest are erased. */
    method KeepNewest(versions0: seq<BlobKey>, bi: BlobIndexMap, ghost was: Hal, ghost k: FullKey,
                      ghost live0: set<BlobKey>, ghost kv: Contents, ghost tame: bool)
      returns (ok: bool, ghost live: set<BlobKey>)
      requires BaseOk(hal, pages, freePages) && HalOk(hal) && live0 <= bi.Keys && versions0 != [] &&
               AllListed(versions0, k, live0)
      requires HalOk(was) && NotesHold(View(was), bi) && HeadsLeft(View(was), View(hal), bi, live0)
      requires PartsSpared(was, hal, bi, live0)
      requires forall x | 0 <= x < |versions0| :: versions0[x] in bi && bi[versions0[x]].index.Some?
      requires tame ==> Cleaning(hal, pages, freePages, kv) && Dirty(hal, bi, live0, {})
      modifies this`hal, this`pages
      ensures Later(old(hal), hal) && HalOk(old(hal)) && HalOk(hal)
      ensures ok ==> LatestLeft(bi, k, live0, live) && HeadsLeft(View(was), View(hal), bi, live)
      ensures ok ==> PartsSpared(was, hal, bi, live)
      ensures ok ==> BaseOk(hal, pages, freePages) && SameBytes(old(hal), old(pages), hal, pages)
      ensures !ok ==> hal.budget == Some(0)
      ensures tame && ok ==> Cleaning(hal, pages, freePages, kv) && Dirty(hal, bi, live, {})
      ensures tame && !ok ==> RecoversIn(hal, kv, NoGc)
    {
      hide Cleaning, Noted, RecoversIn, View, Bag, AddsUp, Cleared, VersionGone, Mixed, Lean, Wins, BaseOk, InstOk,
           FlashOk, SinglePlaces, SequencesDiffer, IndexHere, Loses, Dirty, HeadsLeft, NotesHold, NotedIndex,
           ClearedPlaces, SameBytes, AllListed, LaterLeft, LatestLeft, PartsSpared, PartsExcept;
      ghost var vs0 := View(was);
      var versions := versions0;
      live := live0;
      ok := true;
      ghost var h0, ps0 := hal, pages;
      BytesRefl(hal, pages);
      LaterStart(bi, k, live0);
      while |versions| > 1
        invariant Later(old(hal), hal)
        invariant versions != [] && AllListed(versions, k, live) && LaterLeft(bi, k, live0, live) && HalOk(hal) &&
                  HalOk(h0)
        invariant forall x | 0 <= x < |versions| :: versions[x] in bi && bi[versions[x]].index.Some?
        invariant BaseOk(hal, pages, freePages) && SameBytes(h0, ps0, hal, pages) && HeadsLeft(vs0, View(hal), bi, live)
        invariant PartsSpared(was, hal, bi, live)
        invariant tame ==> Cleaning(hal, pages, freePages, kv) && Dirty(hal, bi, live, {})
        decreases |versions|
      {
        ghost var h1, ps1 := hal, pages;
        var x := OldestVersion(versions, bi);
        var bk := versions[x];
        var e := bi[bk].index.value;
        NotedFacts(vs0, bi, bk);
        ListedAt(versions, k, live, x);
        ghost var loc :| NotedIndex(vs0, bk, e, loc);
        NotedStays(vs0, View(hal), bi, live, bk, loc);
        if tame {
          CleaningFacts(hal, pages, freePages, kv);
          FatedMixed(hal, pages, freePages, kv, k);
          OlderLoses(hal, bi, live, versions, k, x, loc);
        }
        ok := EraseBlobVersion(bk, e, loc, kv, tame);
        if !ok { return; }
        StrikeIndex(vs0, View(h1), View(hal), bi, live, bk, loc);
        SparedStep(was, h1, hal, bi, live, bk);
        SameBytesBy(h0, ps0, h1, ps1, hal, pages);
        if tame {
          DirtyStep(h1, ps1, freePages, kv, bi, live, {}, bk, Some(Place(e.pageSequence, loc)), hal);
          assert {} - {bk} == {};
        }
        LaterStep(vs0, bi, k, live0, live, versions, x);
        live := live - {bk};
        versions := versions[..x] + versions[x + 1..];
      }
      LatestDone(bi, k, live0, live, versions);
    }

    /** The version whose index comes first, by page sequence and then by position. */
    method OldestVersion(versions: seq<BlobKey>, bi: BlobIndexMap) returns (x: nat)
      requires |versions| > 0 && forall y | 0 <= y < |versions| :: versions[y] in bi && bi[versions[y]].index.Some?
      ensures x < |versions|
      ensures forall y | 0 <= y < |versions| :: !Earlier(bi[versions[y]].index.value, bi[versions[x]].index.value)
    {
      x := 0;
      var i := 1;
      while i < |versions|
        invariant x < i <= |versions|
        invariant forall y | 0 <= y < i :: !Earlier(bi[versions[y]].index.value, bi[versions[x]].index.value)
      {
        if Earlier(bi[versions[i]].index.value, bi[versions[x]].index.value) { x := i; }
        i := i + 1;
      }
    }

    /** Every hashed item of every page. */
    method AllSpots() returns (spots: seq<HashSpot>)
      requires AllLoaded(hal, pages)
      ensures SpotsOk(hal, pages, spots)
    {
      hide Loaded, Spotted, SpotsUpTo, SpotsOk;
      spots := [];
      var i := 0;
      NoSpots(hal, pages);
      while i < |pages|
        invariant i <= |pages| && SpotsUpTo(hal, pages, spots, i)
      {
        ghost var before := spots;
        var hs := pages[i].hashes;
        var e := 0;
        while e < |hs|
          invariant e <= |hs| && spots == before + PageEntries(hs, i)[..e]
        {
          spots := spots + [HashSpot(hs[e].hash, i, hs[e].index)];
          e := e + 1;
        }
        AddPage(hal, pages, before, i);
        assert PageEntries(hs, i)[..e] == PageEntries(hs, i);
        i := i + 1;
      }
      AllAdded(hal, pages, spots);
    }

    /** The heads among the items of one hash run; chunks go with their index and are skipped. The
        items may have been erased since the spots were taken, but they still read back. */
    method LoadCandidates(entries: seq<HashSpot>, ghost h0: Hal, ghost ps0: seq<ThinPage>, ghost spots: seq<HashSpot>,
                          ghost hash: nat)
      returns (cs: seq<Candidate>)
      requires HalOk(hal) && HalOk(h0) && BaseOk(h0, ps0, freePages) && SpotsOk(h0, ps0, spots)
      requires entries == WithHash(spots, hash) && SameBytes(h0, ps0, hal, pages)
      ensures Snapshot(h0, ps0, cs, hash)
    {
      hide BaseOk, Has, View, WithHash, Typed, SameBytes, CandidatesOf, Snapshot, LocsOf;
      cs := [];
      var i := 0;
      SpotsOrder(h0, ps0, spots, hash);
      NoCandidates(h0, ps0, entries, hash);
      while i < |entries|
        invariant i <= |entries| && CandidatesOf(h0, ps0, entries, i, cs, hash)
      {
        var s := entries[i];
        ghost var j := EntrySpot(h0, ps0, spots, hash, s);
        ghost var loc := SpotCandidate(h0, ps0, freePages, s, j, hal, pages);
        var item := LoadItem(hal, pages[s.page], s.index);
        var it := item.value;
        if it.typ == BlobData {
          CandidateSkip(h0, ps0, entries, i, cs, hash, loc);
        } else {
          var c := Candidate(FullKey(it.ns, it.key), s.page, s.index, pages[s.page].sequence, it.span, VersionIn(it));
          CandidateTake(h0, ps0, entries, i, cs, hash, loc, c);
          cs := cs + [c];
        }
        i := i + 1;
      }
      CandidatesSnapshot(h0, ps0, freePages, spots, entries, cs, hash);
    }

    /** Of the heads of one key, all but the newest are erased, the oldest first. */
    method EraseOlder(group0: seq<Candidate>, k: FullKey, ghost kv: Contents, ghost tame: bool) returns (ok: bool)
      requires BaseOk(hal, pages, freePages) && HalOk(hal) && k.ns != 0 && GroupOk(hal, pages, group0, k)
      requires tame ==> Cleaning(hal, pages, freePages, kv) && AllVersionsOk(hal)
      modifies this`hal, this`pages
      ensures Later(old(hal), hal) && HalOk(old(hal)) && HalOk(hal)
      ensures ok ==> BaseOk(hal, pages, freePages) && SameBytes(old(hal), old(pages), hal, pages)
      ensures ok ==>
                SingleHead(View(hal), k) && OnlyKey(View(old(hal)), View(hal), k) &&
                NewestStays(View(old(hal)), View(hal), k)
      ensures ok ==> NewestParts(old(hal), hal, k)
      ensures ok ==> forall j: FullKey, s: nat | j != k :: PartsKept(old(hal), hal, j, s)
      ensures !ok ==> hal.budget == Some(0)
      ensures tame && ok ==> Cleaning(hal, pages, freePages, kv) && AllVersionsOk(hal)
      ensures tame && !ok ==> RecoversIn(hal, kv, NoGc)
    {
      hide Cleaning, BaseOk, InstOk, View, Bag, Has, AllVersionsOk, GroupOk, Cleared, SameBytes, SingleHead, OnlyKey,
           RecoversIn, SinglePlaces, SequencesDiffer, LocsOf, HeadOf, Loses, Mixed, Lean, Wins, FlashOk, AllConsistent,
           LiveHead, IsLive, ClearedPlaces, NewestStays, HasNewer, NewestParts, PartsKept, PartsExcept;
      var group := group0;
      ghost var h0, ps0 := hal, pages;
      ok := true;
      OnlyRefl(hal, pages, k);
      InstPlaces(hal, pages, freePages);
      NewestPartsRefl(hal);
      PartsSame(hal);
      while |group| > 1
        invariant Later(old(hal), hal)
        invariant BaseOk(hal, pages, freePages) && HalOk(hal) && GroupOk(hal, pages, group, k)
        invariant HalOk(h0) && SameBytes(h0, ps0, hal, pages)
        invariant OnlyKey(View(h0), View(hal), k) && Fewer(View(h0), View(hal)) && NewestStays(View(h0), View(hal), k)
        invariant NewestParts(h0, hal, k) && forall j: FullKey, s: nat | j != k :: PartsKept(h0, hal, j, s)
        invariant tame ==> Cleaning(hal, pages, freePages, kv) && AllVersionsOk(hal)
        decreases |group|
      {
        ghost var h1, ps1 := hal, pages;
        var x := OldestCandidate(group);
        InstPlaces(hal, pages, freePages);
        ghost var i, j, loc := OldestAt(hal, pages, freePages, group, k, x);
        ghost var at := Place(pages[i].sequence, loc);
        LiveFacts(hal, pages, group[x], loc, j);
        if tame {
          CleaningFacts(hal, pages, freePages, kv);
          FatedMixed(hal, pages, freePages, kv, k);
          VersionsAt(hal, k);
          VersionsNeat(hal.codec, HBag(hal, k));
          OldestLoses(View(hal), k, at);
        }
        ok := EraseLoser(group[x].page, group[x].index, group[x].span, group[x].version, k, j, kv, tame);
        if !ok { return; }
        NewestKept(View(h0), View(h1), View(hal), k, at, group[x].version);
        NewestPartsStep(h0, h1, hal, k, at);
        OtherParts(h0, h1, hal, k, group[x].version);
        ClearedOnly(h1, hal, k, at, group[x].version);
        OnlyMore(h0, h1, hal, k);
        SameBytesBy(h0, ps0, h1, ps1, hal, pages);
        if tame { ClearedVersions(h1, ps1, freePages, kv, k, at, group[x].version, hal); }
        GroupStep(h1, ps1, freePages, group, k, x, loc, hal, pages);
        group := Rest(group, x);
      }
      GroupSingle(hal, pages, group, k);
    }

    method OldestCandidate(group: seq<Candidate>) returns (x: nat)
      requires |group| > 0
      ensures x < |group| && forall y | 0 <= y < |group| :: !OlderThan(group[y], group[x])
    {
      x := 0;
      var i := 1;
      while i < |group|
        invariant x < i <= |group| && forall y | 0 <= y < i :: !OlderThan(group[y], group[x])
      {
        if OlderThan(group[i], group[x]) { x := i; }
        i := i + 1;
      }
    }

    /** cleanup_duplicate_entries: afterwards every key has the one head that was its newest. Hashes
        may collide in any way; the runs and the keys within a run may be visited in any order. */
    method CleanupDuplicateEntries(ghost kv: Contents, ghost tame: bool) returns (ok: bool)
      requires BaseOk(hal, pages, freePages) && HalOk(hal)
      requires tame ==> Cleaning(hal, pages, freePages, kv) && AllVersionsOk(hal)
      modifies this`hal, this`pages
      ensures Later(old(hal), hal) && HalOk(old(hal)) && HalOk(hal)
      ensures ok ==> BaseOk(hal, pages, freePages) && SameBytes(old(hal), old(pages), hal, pages)
      ensures ok ==> OneHeadEach(View(hal)) && Fewer(View(old(hal)), View(hal))
      ensures ok ==> forall k: FullKey | k.ns != 0 :: NewestStays(View(old(hal)), View(hal), k)
      ensures ok ==> forall k: FullKey | k.ns != 0 :: NewestParts(old(hal), hal, k)
      ensures !ok ==> hal.budget == Some(0)
      ensures tame && ok ==> Steady(hal, pages, freePages, kv)
      ensures tame && !ok ==> RecoversIn(hal, kv, NoGc)
    {
      hide Cleaning, BaseOk, InstOk, View, Bag, AllVersionsOk, SameBytes, Steady, RecoversIn, SingleHead, Untouched,
           Fewer, SpotsOk, Snapshot, WithHash, AllLoaded, FlashOk, SinglePlaces, SequencesDiffer, NewestStays,
           NewestParts;
      ghost var h0, ps0 := hal, pages;
      BaseLoaded(hal, pages, freePages);
      var spots := AllSpots();
      var hashes := set s | s in spots :: s.hash;
      RunsStart(hal, pages, freePages, spots, hashes);
      NewestRefl(View(hal));
      NewestPartsRefl(hal);
      while hashes != {}
        invariant Later(old(hal), hal)
        invariant BaseOk(hal, pages, freePages) && HalOk(h0) && HalOk(hal) && SameBytes(h0, ps0, hal, pages)
        invariant Fewer(View(h0), View(hal)) && forall k: FullKey | k.ns != 0 :: NewestStays(View(h0), View(hal), k)
        invariant forall k: FullKey | k.ns != 0 && HeadHash(hal.codec, k) in hashes :: Untouched(View(h0), View(hal), k)
        invariant forall k: FullKey | k.ns != 0 && HeadHash(hal.codec, k) !in hashes :: SingleHead(View(hal), k)
        invariant forall k: FullKey | k.ns != 0 :: NewestParts(h0, hal, k)
        invariant tame ==> Cleaning(hal, pages, freePages, kv) && AllVersionsOk(hal)
        decreases hashes
      {
        var hash :| hash in hashes;
        hashes := hashes - {hash};
        var entries := WithHash(spots, hash);
        SameBytesCodec(h0, ps0, hal, pages);
        if |entries| > 1 {
          ok := CleanupRun(entries, hash, spots, h0, ps0, hashes, kv, tame);
          if !ok { return; }
        } else {
          forall k: FullKey | k.ns != 0 && HeadHash(hal.codec, k) == hash ensures SingleHead(View(hal), k) {
            LonelyHash(h0, ps0, freePages, spots, k);
            SingleLess(View(h0), View(hal), k);
          }
        }
      }
      if tame { CleanedSteady(hal, pages, freePages, kv); }
      ok := true;
    }

    /** One run of equal hashes, key by key. */
    method CleanupRun(entries: seq<HashSpot>, hash: nat, ghost spots: seq<HashSpot>, ghost h0: Hal,
                      ghost ps0: seq<ThinPage>, ghost rest: set<nat>, ghost kv: Contents, ghost tame: bool)
      returns (ok: bool)
      requires BaseOk(hal, pages, freePages) && HalOk(hal) && HalOk(h0) && SameBytes(h0, ps0, hal, pages)
      requires BaseOk(h0, ps0, freePages) && SpotsOk(h0, ps0, spots) && entries == WithHash(spots, hash) &&
               hash !in rest
      requires h0.codec == hal.codec && Fewer(View(h0), View(hal))
      requires forall k: FullKey | k.ns != 0 :: NewestStays(View(h0), View(hal), k)
      requires forall k: FullKey | k.ns != 0 && (HeadHash(hal.codec, k) in rest || HeadHash(hal.codec, k) == hash) ::
                 Untouched(View(h0), View(hal), k)
      requires forall k: FullKey | k.ns != 0 && HeadHash(hal.codec, k) !in rest && HeadHash(hal.codec, k) != hash ::
                 SingleHead(View(hal), k)
      requires forall k: FullKey | k.ns != 0 :: NewestParts(h0, hal, k)
      requires tame ==> Cleaning(hal, pages, freePages, kv) && AllVersionsOk(hal)
      modifies this`hal, this`pages
      ensures Later(old(hal), hal) && HalOk(hal)
      ensures ok ==> BaseOk(hal, pages, freePages) && SameBytes(h0, ps0, hal, pages)
      ensures ok ==> Fewer(View(h0), View(hal)) && hal.codec == h0.codec
      ensures ok ==> forall k: FullKey | k.ns != 0 :: NewestStays(View(h0), View(hal), k)
      ensures ok ==>
                forall k: FullKey | k.ns != 0 && HeadHash(hal.codec, k) in rest :: Untouched(View(h0), View(hal), k)
      ensures ok ==> forall k: FullKey | k.ns != 0 && HeadHash(hal.codec, k) !in rest :: SingleHead(View(hal), k)
      ensures ok ==> forall k: FullKey | k.ns != 0 :: NewestParts(h0, hal, k)
      ensures !ok ==> hal.budget == Some(0)
      ensures tame && ok ==> Cleaning(hal, pages, freePages, kv) && AllVersionsOk(hal)
      ensures tame && !ok ==> RecoversIn(hal, kv, NoGc)
    {
      hide Cleaning, BaseOk, InstOk, View, Bag, AllVersionsOk, SameBytes, RecoversIn, SingleHead, Untouched, Fewer,
           SpotsOk, Snapshot, WithHash, FlashOk, OnlyKey, GroupOk, HeadHash, NewestStays, NewestParts, PartsKept;
      var cs := LoadCandidates(entries, h0, ps0, spots, hash);
      var keys := set c | c in cs :: c.key;
      SnapshotKeys(h0, ps0, cs, hash, hal);
      ok := true;
      while keys != {}
        invariant Later(old(hal), hal)
        invariant BaseOk(hal, pages, freePages) && HalOk(hal) && SameBytes(h0, ps0, hal, pages)
        invariant Fewer(View(h0), View(hal)) && hal.codec == h0.codec
        invariant forall k | k in keys :: k.ns != 0 && HeadHash(hal.codec, k) == hash
        invariant forall k: FullKey | k.ns != 0 :: NewestStays(View(h0), View(hal), k)
        invariant forall k: FullKey | k.ns != 0 && (HeadHash(hal.codec, k) in rest || k in keys) ::
                    Untouched(View(h0), View(hal), k)
        invariant forall k: FullKey | k.ns != 0 && HeadHash(hal.codec, k) !in rest && k !in keys ::
                    SingleHead(View(hal), k)
        invariant forall k: FullKey | k.ns != 0 :: NewestParts(h0, hal, k)
        invariant tame ==> Cleaning(hal, pages, freePages, kv) && AllVersionsOk(hal)
        decreases keys
      {
        var k :| k in keys;
        keys := keys - {k};
        ghost var h1, ps1 := hal, pages;
        GroupStart(h0, ps0, cs, hash, hal, pages, k);
        ok := EraseOlder(WithKey(cs, k), k, kv, tame);
        if !ok { return; }
        SameBytesCodec(h1, ps1, hal, pages);
        SameBytesBy(h0, ps0, h1, ps1, hal, pages);
        forall j: FullKey | j.ns != 0
          ensures j != k && Untouched(View(h0), View(h1), j) ==> Untouched(View(h0), View(hal), j)
          ensures j != k && SingleHead(View(h1), j) ==> SingleHead(View(hal), j)
          ensures NewestStays(View(h0), View(hal), j) && NewestParts(h0, hal, j)
        {
          if j != k { OtherKey(View(h0), View(h1), View(hal), k, j); }
          NewestMore(View(h0), View(h1), View(hal), k, j);
          NewestPartsMore(h0, h1, hal, k, j);
        }
        OnlyFewer(View(h0), View(h1), View(hal), k);
      }
    }

    // ---- boot (init.rs) ----

    /** scan_sectors, up to the page order: every sector goes into the pages or into the reserve, and
        what the flash says is noted, not changed. */
    method ScanAll() returns (ok: bool, bi: BlobIndexMap)
      requires FlashFit(hal) && SequencesDiffer(View(hal)) && pages == [] && freePages == [] && namespaces == map[]
      modifies this`hal, this`pages, this`freePages, this`namespaces
      ensures Later(old(hal), hal) && HalOk(hal)
      ensures ok ==> View(hal) == View(old(hal)) && WfViews(View(hal))
      ensures ok ==> BaseOk(hal, pages, freePages) && bi == NotedIn(View(hal)) && namespaces == NamesIn(View(hal))
      ensures SectorsOk(old(hal)) ==> ScanOk(old(hal), hal) && (ok ==> BlankMaps(freePages))
      ensures MapsKept(old(hal), freePages)
      ensures !ok ==> hal.budget == Some(0)
    {
      hide ScanFrom, SectorOk, Placed, FreeOk, Addrs, AllSectors, BaseOk, NotedIn, NamesIn, NoteAll, NamespacesOf,
           ScanOk, Sorted, View, SameScan, Sound, BodyOk, Dense, Narrow, ScannedPage, Recoverable, SectorsOk, Fit,
           Unused, BlankMap, FlashFit, MapsKept;
      ghost var h0, tame := hal, SectorsOk(hal);
      MapsNone(hal);
      bi := map[];
      ok := true;
      ScanStart(hal);
      assert freePages == [];
      var a := 0;
      while a < |hal.sectors|
        invariant Later(old(hal), hal)
        invariant a <= |hal.sectors| && HalOk(hal) && HalOk(h0) && WfViews(View(hal)) &&
                  Sorted(hal, pages, freePages, a)
        invariant View(hal) == View(h0) && |hal.sectors| == |h0.sectors|
        invariant forall b | a <= b < |hal.sectors| :: hal.sectors[b] == h0.sectors[b]
        invariant tame ==> ScanOk(h0, hal) && BlankMaps(freePages)
        invariant MapsKept(h0, freePages)
        invariant bi == NotedIn(View(hal)[..a]) && namespaces == NamesIn(View(hal)[..a])
        decreases |hal.sectors| - a
      {
        ghost var h1 := hal;
        FitAt(h0, a);
        ScanSector(hal, a);
        if tame {
          ScanFacts(h0, hal);
          SectorAt(hal, a);
        }
        NotesSnoc(View(hal), a);
        var r;
        hal, r, bi, namespaces := LoadSector(hal, a, bi, namespaces);
        if InUse(h1.sectors[a]) {
          if tame { ScannedUsed(h0, h1, a, hal); }
          if r.Ok? {
            ScannedFit(h1, a, hal, r.value.page);
            SortedUsed(h1, pages, freePages, a, hal, r.value.page);
          }
        } else {
          MapsMore(h0, freePages, a, r.value.page);
          EmptyScanned(hal, a, r.value.page);
          SortedFree(hal, pages, freePages, a, r.value.page);
        }
        if r.Err? { return false, bi; }
        if r.value.EmptyPage? { freePages := freePages + [r.value.page]; } else { pages := pages + [r.value.page]; }
        a := a + 1;
      }
      assert View(hal)[..a] == View(hal);
      SortedBase(hal, pages, freePages);
    }

    /** The active page with the largest sequence, and how many active pages there are. */
    method FindActive() returns (best: nat, count: nat)
      ensures count == 0 <==> forall i | 0 <= i < |pages| :: pages[i].state != Active
      ensures count > 0 ==> best < |pages| && pages[best].state == Active
      ensures count > 0 ==>
                forall i | 0 <= i < |pages| && pages[i].state == Active :: pages[i].sequence <= pages[best].sequence
      ensures count == 1 ==> forall i | 0 <= i < |pages| && pages[i].state == Active :: i == best
    {
      best, count := 0, 0;
      var i := 0;
      while i < |pages|
        invariant i <= |pages|
        invariant count == 0 <==> forall x | 0 <= x < i :: pages[x].state != Active
        invariant count > 0 ==> best < i && pages[best].state == Active
        invariant count > 0 ==>
                    forall x | 0 <= x < i && pages[x].state == Active :: pages[x].sequence <= pages[best].sequence
        invariant count == 1 ==> forall x | 0 <= x < i && pages[x].state == Active :: x == best
      {
        if pages[i].state == Active {
          if count == 0 || pages[i].sequence > pages[best].sequence { best := i; }
          count := count + 1;
        }
        i := i + 1;
      }
    }

    /** Marks page i as full, on flash and in RAM. */
    method RetireAt(i: nat, ghost h0: Hal) returns (ok: bool)
      requires BaseOk(hal, pages, freePages) && i < |pages| && pages[i].state == Active && OnlyRetired(h0, hal)
      requires pages[i].addr < |hal.sectors| && hal.sectors[pages[i].addr] == h0.sectors[pages[i].addr]
      requires NoRoom(h0.sectors[pages[i].addr]) || ActiveAbove(h0, pages[i].sequence)
      modifies this`hal, this`pages
      ensures Later(old(hal), hal)
      ensures ok ==> BaseOk(hal, pages, freePages) && pages == old(pages)[i := old(pages)[i].(state := Full)]
      ensures ok ==>
                hal.sectors == old(hal).sectors[old(pages)[i].addr :=
                    WithState(old(hal).sectors[old(pages)[i].addr], Full)]
      ensures OnlyRetired(h0, hal)
      ensures !ok ==> hal == old(hal) && hal.budget == Some(0)
    {
      hide BaseOk, View, OnlyRetired, NoRoom, ActiveAbove, Placed, SectorOk;
      ghost var h1, ps, p0 := hal, pages, pages[i];
      BasePlaced(hal, pages, freePages, i);
      var p;
      hal, p, ok := MarkAsFull(hal, pages[i]);
      pages := pages[i := p];
      if ok {
        RetiredFacts(h0, h1);
        MarkedBase(h1, ps, freePages, i, hal);
        RetiredHere(h0, h1, p0, hal);
        RetiredMore(h0, h1, p0.addr, hal);
      }
    }

    /** compaction.rs, ensure_active_page_order. */
    method EnsureActivePageOrder() returns (ok: bool)
      requires BaseOk(hal, pages, freePages)
      modifies this`hal, this`pages
      ensures Later(old(hal), hal)
      ensures ok ==> BaseOk(hal, pages, freePages) && ActiveLast(pages)
      ensures OnlyRetired(old(hal), hal)
      ensures !ok ==> hal.budget == Some(0)
    {
      hide BaseOk, View, OnlyRetired, NoRoom, ActiveAbove, Placed;
      ghost var h0 := hal;
      BaseHal(hal, pages, freePages);
      RetiredNone(hal);
      var best, count := FindActive();
      if count == 0 { return true; }
      var last := |pages| - 1;
      if best != last {
        SwapBase(hal, pages, freePages, best, last);
        pages := pages[best := pages[last]][last := pages[best]];
      }
      ok := true;
      ghost var ps0 := pages;
      PageAddrs(hal, pages, freePages);
      if count > 1 {
        var i := 0;
        while i < last
          invariant Later(old(hal), hal)
          invariant i <= last == |pages| - 1 && |ps0| == |pages| && BaseOk(hal, pages, freePages) &&
                    OnlyRetired(h0, hal)
          invariant forall x | 0 <= x < i :: pages[x].state != Active
          invariant forall x | i <= x <= last :: pages[x] == ps0[x] && pages[x].addr < |hal.sectors|
          invariant forall x | i <= x <= last :: hal.sectors[pages[x].addr] == h0.sectors[pages[x].addr]
        {
          if pages[i].state == Active {
            ghost var h1, ps1 := hal, pages;
            AboveActive(h0, ps0, freePages, i, last);
            ok := RetireAt(i, h0);
            if !ok { return; }
            forall x | i < x <= last
              ensures hal.sectors[pages[x].addr] == h0.sectors[pages[x].addr] && pages[x].addr < |hal.sectors|
            {
              PagesApart(h1, ps1, freePages, i, x);
            }
          }
          i := i + 1;
        }
      }
      if IsFull(pages[last]) {
        FullRoomless(hal, pages, freePages, last, h0);
        ok := RetireAt(last, h0);
      }
    }

    /** scan_sectors. Whatever is on flash, pages and reserve partition the sectors afterwards; from
        what a power cut left, every contents it stood for is kept. */
    method ScanSectors() returns (ok: bool, bi: BlobIndexMap)
      requires FlashFit(hal) && SequencesDiffer(View(hal)) && pages == [] && freePages == [] && namespaces == map[]
      modifies this`hal, this`pages, this`freePages, this`namespaces
      ensures Later(old(hal), hal) && HalOk(old(hal)) && HalOk(hal)
      ensures ok ==> BaseOk(hal, pages, freePages) && ActiveLast(pages) && SameItems(View(old(hal)), View(hal))
      ensures ok ==> WfViews(View(hal)) && bi == NotedIn(View(hal)) && namespaces == NamesIn(View(hal))
      ensures SectorsOk(old(hal)) ==> forall kv, gc | RecoversIn(old(hal), kv, gc) :: RecoversIn(hal, kv, gc)
      ensures SectorsOk(old(hal)) ==> SameFreeing(old(hal), hal) && SameItems(View(old(hal)), View(hal))
      ensures SectorsOk(old(hal)) && ok ==> BlankMaps(freePages)
      ensures MapsKept(old(hal), freePages)
      ensures !ok ==> hal.budget == Some(0)
    {
      hide BaseOk, View, OnlyRetired, NotedIn, NamesIn, SectorOk, RecoversIn, SameItems, ScanOk, SectorsOk, FlashFit,
           MapsKept;
      ghost var h0, tame := hal, SectorsOk(hal);
      FitHal(hal);
      ok, bi := ScanAll();
      ghost var h1 := hal;
      if tame {
        ScannedSame(h0, h1);
        forall kv, gc | RecoversIn(h0, kv, gc) ensures RecoversIn(h1, kv, gc) { ScanRecovers(h0, h1, kv, gc); }
        ScannedItems(h0, h1);
      }
      if !ok { return; }
      ok := EnsureActivePageOrder();
      if tame {
        RetiredSame(h0, h1, hal);
        forall kv, gc | RecoversIn(h1, kv, gc) ensures RecoversIn(hal, kv, gc) { RetiredRecovers(h1, hal, kv, gc); }
      }
      RetiredFacts(h1, hal);
      RetiredItems(h1, hal);
      SameItemsNoted(View(h1), View(hal));
    }

    /** The first page in this state. */
    method FindState(state: PageState) returns (i: Option<nat>)
      ensures i.Some? ==> i.value < |pages| && pages[i.value].state == state
      ensures i.None? ==> forall x | 0 <= x < |pages| :: pages[x].state != state
    {
      var x := 0;
      while x < |pages|
        invariant x <= |pages| && forall y | 0 <= y < x :: pages[y].state != state
      {
        if pages[x].state == state { return Some(x); }
        x := x + 1;
      }
      return None;
    }

    /** compaction.rs, page_is_copy_of: compares the raw header of every hashed item. */
    method PageIsCopyOf(candidate: ThinPage, source: ThinPage) returns (copied: bool)
      requires HalOk(hal) && Loaded(hal, candidate) && Loaded(hal, source)
      ensures copied <==> IsCopy(hal, candidate, source)
    {
      hide BodyOk;
      HashesInside(hal, candidate);
      HashesInside(hal, source);
      var i := 0;
      while i < |candidate.hashes|
        invariant i <= |candidate.hashes| && forall x: nat | x < i ::
                    HasTwin(hal, candidate, source, x, |source.hashes|)
      {
        var header := Entry(hal.sectors[candidate.addr], candidate.hashes[i].index);
        var found := false;
        var j := 0;
        while j < |source.hashes| && !found
          invariant 0 <= j <= |source.hashes| && (found <==> HasTwin(hal, candidate, source, i, j))
        {
          if source.hashes[j].hash == candidate.hashes[i].hash &&
          Entry(hal.sectors[source.addr], source.hashes[j].index) == header {
            assert Twins(hal, candidate, source, i, j);
            found := true;
          }
          j := j + 1;
        }
        if !found { return false; }
        i := i + 1;
      }
      return true;
    }

    /** compaction.rs, newest_page_holds_all_items_of. Only hashed items are looked at: namespace
        entries are not among them. */
    method NewestPageHoldsAllItemsOf(source: ThinPage) returns (holds: bool)
      requires AllLoaded(hal, pages) && Loaded(hal, source) && Ranked(pages)
      ensures holds <==> HoldsAll(hal, pages, source)
    {
      hide Loaded, HasSame;
      if pages == [] { return false; }
      var n := 0;
      var i := 1;
      while i < |pages|
        invariant n < i <= |pages| && forall x | 0 <= x < i :: pages[x].sequence <= pages[n].sequence
      {
        if pages[n].sequence <= pages[i].sequence { n := i; }
        i := i + 1;
      }
      OneNewest(hal, pages, source, n);
      if pages[n].sequence <= source.sequence { return false; }
      i := 0;
      HashesInside(hal, source);
      while i < |source.hashes|
        invariant i <= |source.hashes| && forall x: nat | x < i :: HasSame(hal, pages[n], source, x)
      {
        ghost var j := HashItem(hal, source, i);
        var item := LoadItem(hal, source, source.hashes[i].index);
        var found := FindSame(pages[n], source.hashes[i].hash, item.value, source, i);
        if !found { return false; }
        i := i + 1;
      }
      assert HoldsAllAt(hal, pages, source, n);
      return true;
    }

    method FindSame(newest: ThinPage, hash: nat, it: Item, ghost source: ThinPage, ghost i: nat) returns (found: bool)
      requires HalOk(hal) && Loaded(hal, newest) && Loaded(hal, source) && i < |source.hashes|
      requires source.hashes[i].index < ENTRIES_PER_PAGE && LoadItem(hal, source, source.hashes[i].index) == Some(it)
      requires source.hashes[i].hash == hash
      ensures found <==> HasSame(hal, newest, source, i)
    {
      hide Loaded, LoadItem;
      HashesInside(hal, newest);
      var j := 0;
      while j < |newest.hashes|
        invariant j <= |newest.hashes|
        invariant forall y: nat | y < j :: !SameIdentity(hal, newest, source, i, y)
      {
        if newest.hashes[j].hash == hash {
          var candidate := LoadItem(hal, newest, newest.hashes[j].index);
          if candidate.Some? && Matches(candidate.value, it.ns, it.key, it.chunk) {
            assert SameIdentity(hal, newest, source, i, j);
            return true;
          }
        }
        j := j + 1;
      }
      return false;
    }

    /** compaction.rs, continue_free_page: a partial copy is thrown away and the copy made again; a
        complete copy is kept. Returns whether there was anything to finish. `onFlash` are the pages as
        the flash has them; `tame` says that the flash is what a power cut left of kv. */
    method ContinueFreePage(ghost kv: Contents, ghost gc: Gc, ghost onFlash: seq<ThinPage>, ghost tame: bool)
      returns (r: Result<bool>, ghost kv2: Contents, ghost onFlash2: seq<ThinPage>)
      requires BaseOk(hal, onFlash, freePages) && Faded(pages, onFlash) && HalOk(hal)
      requires tame ==> pages == onFlash && BlankMaps(freePages) && RecoversIn(hal, kv, gc)
      modifies this`hal, this`pages, this`freePages
      ensures Later(old(hal), hal)
      ensures r.Ok? ==> BaseOk(hal, onFlash2, freePages) && Faded(pages, onFlash2) && HalOk(hal)
      ensures r == Ok(false) ==>
                hal == old(hal) && pages == old(pages) && freePages == old(freePages) && kv2 == kv &&
                onFlash2 == onFlash
      ensures r == Ok(false) ==> Freeings(pages) == 0
      ensures r == Ok(true) ==> Freeings(pages) < Freeings(old(pages))
      ensures Freeings(old(pages)) == 0 ==> r == Ok(false)
      ensures r.Err? ==> r == Err(FlashError) && hal.budget == Some(0) && HalOk(hal)
      ensures tame && r.Ok? ==> (r.value <==> gc.Moving?)
      ensures tame && r == Ok(true) ==>
                (Finished(hal, pages, freePages, kv2) && pages == onFlash2) || Stuck(old(hal), old(freePages), gc)
      ensures tame && r == Ok(true) ==> KeysKept(kv, kv2) && (kv2 == kv <==> !LosesNames(View(old(hal)), gc))
      ensures tame && r == Ok(true) && !LosesNames(View(old(hal)), gc) ==>
                SameItemsLeft(old(hal), gc, hal) || Stuck(old(hal), old(freePages), gc)
      ensures tame && r.Err? ==> Recovers(hal, kv) && SameFreeing(old(hal), hal)
    {
      hide BaseOk, View, RecoversIn, Loaded, AllLoaded, IsCopy, HoldsAll, LocsOf, Recovers, SectorOk, Holds, Marked,
           SameFreeing, Ordinary, FlashOk, LosesNames, Finished, KeysKept, Stuck, Ranked, HasFree, Faded, Freeings,
           BlankMap, Later;
      kv2, onFlash2 := kv, onFlash;
      LaterRefl(hal);
      KeptRefl(hal, kv);
      ghost var h0, ps0, fr0 := hal, pages, freePages;
      var i := FindState(Freeing);
      if i.None? {
        if tame { NoSource(hal, pages, freePages, kv, gc); }
        NoneFreeing(pages);
        return Ok(false), kv2, onFlash2;
      }
      var source := pages[i.value];
      if tame { SourceKnown(hal, pages, freePages, kv, gc, i.value); }
      FadedTaken(hal, pages, onFlash, i.value);
      FreeingsRemoved(pages, i.value);
      pages := SwapRemoved(pages, i.value);
      SourceTaken(h0, onFlash, fr0, i.value);
      ghost var ps1, rs := pages, SwapRemoved(onFlash, i.value);
      var active := FindState(Active);
      var isCopy := false;
      if active.Some? {
        if tame { ActiveTarget(h0, ps0, fr0, kv, gc, i.value, active.value); }
        LoadedAt(hal, pages, active.value);
        isCopy := PageIsCopyOf(pages[active.value], source);
      } else if tame {
        FullTarget(h0, ps0, fr0, kv, gc, i.value);
      }
      if active.Some? && isCopy {
        var partial := pages[active.value];
        FadedTaken(hal, pages, rs, active.value);
        FreeingsRemoved(pages, active.value);
        pages := SwapRemoved(pages, active.value);
        PartialTaken(hal, rs, source, freePages, active.value);
        rs := SwapRemoved(rs, active.value);
        var ok := ErasePage(partial, partial, rs + [source]);
        if !ok {
          if tame { RecoversBy(hal, kv, gc); }
          return Err(FlashError), kv2, onFlash2;
        }
        if tame {
          BlanksMore(fr0, partial.addr);
          BaseFlash2(hal, pages + [source], freePages);
          PartialErased(h0, kv, gc.src, partial.addr, hal);
          FreeingErased(h0, hal, partial.addr);
          TargetNames(View(h0), gc);
          PartialItems(h0, gc, partial.addr, hal);
        }
      } else if active.None? {
        var holds := NewestPageHoldsAllItemsOf(source);
        if holds {
          var ok := ErasePage(source, source, rs);
          if !ok {
            if tame { RecoversBy(hal, kv, gc); }
            return Err(FlashError), kv2, onFlash2;
          }
          onFlash2 := rs;
          if tame {
            BlanksMore(fr0, source.addr);
            kv2 := SourceErased(h0, ps0, fr0, kv, gc, i.value, hal, freePages);
            if !LosesNames(View(h0), gc) { SourceItems(h0, ps0, fr0, kv, gc, i.value, hal); }
          }
          return Ok(true), kv2, onFlash2;
        }
        if tame { NoneHeld(h0, ps0, fr0, kv, gc, i.value); }
      }
      if freePages == [] {
        // nowhere to copy to: the source stays, as the full page it was
        if tame { StuckHere(h0, ps1 + [source], fr0, gc); }
        SourceBack(hal, pages, rs, source, freePages);
        pages := [source.(state := Full)] + pages;
        onFlash2 := [source] + rs;
        return Ok(true), kv2, onFlash2;
      }
      ghost var h1 := hal;
      SourceUsed(hal, rs, source, freePages);
      r, onFlash2 := RestartCopy(source, kv, rs, tame);
      LaterBy(h0, h1, hal);
      if tame && r.Err? { SameFreeingBy(h0, h1, hal); }
      if tame && r.Ok? { RestartItems(h0, gc, h1, hal); }
    }

    /** The copy of a page marked Freeing, made from the start. */
    method RestartCopy(source: ThinPage, ghost kv: Contents, ghost onFlash: seq<ThinPage>, ghost tame: bool)
      returns (r: Result<bool>, ghost onFlash2: seq<ThinPage>)
      requires BaseOk(hal, onFlash + [source], freePages) && Faded(pages, onFlash) && freePages != [] && HalOk(hal)
      requires source.state == Freeing && source.addr < |hal.sectors| && View(hal)[source.addr].Used?
      requires tame ==> pages == onFlash && BlankMaps(freePages) && RecoversIn(hal, kv, Moving(source.addr, None))
      requires tame ==> forall i | 0 <= i < |pages| :: pages[i].state == Full
      modifies this`hal, this`pages, this`freePages
      ensures Later(old(hal), hal) && HalOk(hal)
      ensures r.Ok? ==>
                r.value && BaseOk(hal, onFlash2, freePages) && Faded(pages, onFlash2) &&
                Freeings(pages) == Freeings(old(pages))
      ensures r.Err? ==> r == Err(FlashError) && hal.budget == Some(0)
      ensures tame && r.Ok? ==> Finished(hal, pages, freePages, kv) && pages == onFlash2 && SameBags(old(hal), hal)
      ensures tame && r.Err? ==> Recovers(hal, kv) && SameFreeing(old(hal), hal)
    {
      hide BaseOk, View, RecoversIn, Recovers, SectorOk, Holds, Marked, SameFreeing, FlashOk, Finished, Interrupted,
           CopyDone, CopyTorn, MoveDone, FreeOk, BodyOk, Addrs, Above, Recs, SameBags, GcOk, Faded, Freeings, BlankMap,
           BlankMaps, WholeItems, AllWhole, Piled, Writable, ErasedSector, GoodLocs, ScanFrom;
      ghost var h0, ps, fr := hal, pages, freePages;
      if tame {
        MovingHolds(hal, kv, source.addr);
        HoldsWhole(hal, kv);
      }
      var nextSequence := Max(NextSequence(pages), source.sequence + 1);
      FadedNext(pages, onFlash, source);
      MarkAbove(h0, onFlash, source, fr, nextSequence);
      var target, f := PopFree();
      BlanksStay(fr, f, target.addr);
      var ok, t;
      ok, t := InitReserve(target, false, nextSequence, onFlash + [source], fr, f);
      if !ok {
        if tame {
          MarkedInterrupted(h0, h0, source.addr, hal);
          InterruptedRecovers(h0, hal, kv);
          SameViewFreeing(h0, hal);
        }
        return Err(FlashError), onFlash;
      }
      ghost var h2 := hal;
      WritableMap(h2, t);
      CopyReady(h0, h2, onFlash, source, t, Removed(fr, f), source);
      var copied;
      ghost var t2;
      copied, t2 := CopyItems(source, t);
      if copied.Err? {
        if tame {
          SourceWhole(h0, source.addr);
          CopyInterrupted(h0, h0, h2, hal, source, t);
          InterruptedRecovers(h0, hal, kv);
          CopyFreeing(h0, h2, hal, source, t);
        }
        return Err(FlashError), onFlash;
      }
      CopiedBase(h2, hal, onFlash, source, t, t2, Removed(fr, f), source);
      CopiedState(h2, hal, source, t, t2);
      if tame {
        MoveCopied(h0, h0, h2, hal, ps, source, t, t2, Removed(fr, f), source);
        MoveFacts(h0, h0, hal, source, t2);
      }
      ghost var h3 := hal;
      ok := ErasePage(source, source, onFlash + [t2]);
      if !ok {
        if tame {
          MoveStopped(h0, h0, hal, source, t2);
          InterruptedRecovers(h0, hal, kv);
          MoveFreeing(h0, hal, source, t2);
        }
        return Err(FlashError), onFlash;
      }
      onFlash2 := onFlash + [t2];
      FadedNext(ps, onFlash, t2);
      FreeingsSnoc(ps, t2);
      if tame {
        MoveEnded(h0, h0, h3, hal, source, t2);
        BlanksMore(Removed(fr, f), source.addr);
        MovedInst(hal, ps, t2, freePages, nextSequence);
        CopyFinished(h0, hal, pages, freePages, kv);
      }
      r := Ok(true);
    }

    /** load_sectors. From whatever a power cut left behind to a working instance: only the entries of
        namespaces can be lost, and only in the one case LosesNames describes. From any other flash
        whose items have the shapes asked for, to pages and reserve in order with one head per key. */
    method LoadSectors(ghost kv: Contents, ghost gc: Gc) returns (ok: bool, ghost kv2: Contents)
      requires FlashFit(hal) && SequencesDiffer(View(hal)) && pages == [] && freePages == [] && namespaces == map[]
      modifies this
      ensures Later(old(hal), hal)
      ensures faulted == old(faulted) && HalOk(old(hal)) && HalOk(hal)
      ensures ok ==> BaseOk(hal, pages, freePages) && ActiveLast(pages) && OneHeadEach(View(hal))
      ensures WfViews(View(old(hal))) && (ok && NoMove(View(old(hal))) ==> SurvivorsOnly(View(old(hal)), View(hal)))
      ensures ok && NoMove(View(old(hal))) ==> WholeStays(old(hal), hal) && AsFound(old(hal), pages, freePages)
      ensures !ok ==> hal.budget == Some(0)
      ensures old(hal).budget.None? ==> ok
      ensures RecoversIn(old(hal), kv, gc) ==>
                && (ok ==> Valid() && contents == kv2 && (kv2 == kv <==> !LosesNames(View(old(hal)), gc)))
                && (!ok ==> Recovers(hal, kv2) && (kv2 == kv || LosesNames(View(old(hal)), gc)))
                && (!ok ==> NamesSafe(View(old(hal))) ==> NamesSafe(View(hal)))
                && KeysKept(kv, kv2)
    {
      hide BaseOk, View, NotedIn, NamesIn, SectorOk, RecoversIn, Recovers, SameItems, SameFreeing, LosesNames,
           NamesSafe, Finished, Stuck, Steady, NamesOk, Cleaning, KeysKept, FlashOk, SequencesDiffer, AllResolve,
           ActiveLast, FlashFit, SectorsOk, BlankMaps, OneHeadEach, SurvivorsOnly, NoMove, WfViews, AsFound, MapsKept,
           SameBytes, WholeStays;
      ghost var h0 := hal;
      ghost var tame := RecoversIn(hal, kv, gc);
      kv2 := kv;
      FitHal(hal);
      FitWf(hal);
      if tame { IdleSequences(hal, kv, gc); }
      var bi;
      ok, bi := ScanSectors();
      if tame {
        LosesSame(View(h0), View(hal), gc);
        KeptRefl(hal, kv);
        SafeSame(h0, hal);
      }
      if !ok {
        if tame { RecoversBy(hal, kv, gc); }
        return;
      }
      ghost var h1, moving := hal, !NoMove(View(h0));
      if !moving {
        NoMoveLoaded(View(h0), hal, pages, freePages);
        FoundHere(h0, hal, pages, freePages);
      }
      var r;
      r, kv2 := FinishMoves(kv, gc, tame);
      if r.Err? { return false, kv2; }
      if r.value {
        pages, freePages, namespaces := [], [], map[];
        if tame { IdleSequences(hal, kv2, NoGc); }
        ok, bi := ScanSectors();
        if !ok {
          if tame { SafeIdle(hal, kv2); }
          return;
        }
      }
      ghost var h2, ps2 := hal, pages;
      ok := Cleanups(bi, kv2, tame);
      if ok && !moving {
        SameSurvivors(View(h0), View(h2), View(hal));
        SameWholeStays(h0, h2, hal);
        FoundStill(h0, h2, ps2, freePages, hal, pages);
      }
      if !ok && tame { SafeIdle(hal, kv2); }
    }

    /** The loop of load_sectors: every move that was interrupted is finished. */
    method FinishMoves(ghost kv: Contents, ghost gc: Gc, ghost tame: bool)
      returns (r: Result<bool>, ghost kv2: Contents)
      requires BaseOk(hal, pages, freePages) && HalOk(hal)
      requires tame ==> BlankMaps(freePages) && RecoversIn(hal, kv, gc)
      modifies this`hal, this`pages, this`freePages
      ensures Later(old(hal), hal) && HalOk(hal)
      ensures r.Ok? ==> FlashFit(hal) && SequencesDiffer(View(hal))
      ensures r == Ok(false) ==> hal == old(hal) && pages == old(pages) && freePages == old(freePages)
      ensures r.Err? ==> r == Err(FlashError) && hal.budget == Some(0)
      ensures Freeings(old(pages)) == 0 ==> r == Ok(false)
      ensures tame ==>
                && KeysKept(kv, kv2) && (NamesSafe(View(old(hal))) ==> NamesSafe(View(hal)))
                && (r.Ok? ==> RecoversIn(hal, kv2, NoGc) && (kv2 == kv <==> !LosesNames(View(old(hal)), gc)))
                && (r.Ok? && !LosesNames(View(old(hal)), gc) ==> SameItemsLeft(old(hal), gc, hal))
                && (r.Err? ==> Recovers(hal, kv2) && (kv2 == kv || LosesNames(View(old(hal)), gc)))
    {
      hide BaseOk, View, SectorOk, RecoversIn, Recovers, SameFreeing, LosesNames, NamesSafe, Finished, Stuck, KeysKept,
           FlashOk, Faded, Freeings, FlashFit, BlankMaps, SequencesDiffer;
      ghost var h0 := hal;
      kv2 := kv;
      KeptRefl(hal, kv);
      FadedSame(pages);
      ghost var g, onFlash := gc, pages;
      var recovered, more := false, true;
      while more
        invariant Later(old(hal), hal)
        invariant HalOk(hal) && BaseOk(hal, onFlash, freePages) && Faded(pages, onFlash)
        invariant !recovered ==> hal == h0 && pages == old(pages) && freePages == old(freePages) && kv2 == kv && g == gc
        invariant tame ==> pages == onFlash && BlankMaps(freePages) && RecoversIn(hal, kv2, g) && KeysKept(kv, kv2)
        invariant recovered ==> Freeings(pages) < Freeings(old(pages))
        invariant tame ==> NamesSafe(View(h0)) ==> NamesSafe(View(hal))
        invariant tame && recovered ==> g.NoGc? && (kv2 == kv <==> !LosesNames(View(h0), gc))
        invariant tame && !more ==> g.NoGc?
        invariant tame && recovered && !LosesNames(View(h0), gc) ==> SameItemsLeft(h0, gc, hal)
        decreases more, Freeings(pages)
      {
        ghost var h1, kv1 := hal, kv2;
        if tame { NotStuck(h1, freePages, kv2, g); }
        r, kv2, onFlash := ContinueFreePage(kv2, g, onFlash, tame);
        if r.Err? {
          kv2 := kv1;
          if tame { SafeSame(h1, hal); }
          return;
        }
        more := r.value;
        if more {
          recovered := true;
          if tame {
            FinishedFacts(hal, pages, freePages, kv2);
            KeptTrans(kv, kv1, kv2);
            g := NoGc;
          }
        }
      }
      BaseFit(hal, onFlash, freePages);
      if tame {
        NoMoveNames(View(h0), gc);
        if !recovered { NothingMoved(hal, gc); }
      }
      r := Ok(recovered);
    }

    /** cleanup_dirty_blobs and cleanup_duplicate_entries: the instance is ready. Of every key the one
        survivor is left: the newest head that is not the noted index of a version given up. */
    method Cleanups(bi: BlobIndexMap, ghost kv: Contents, ghost tame: bool) returns (ok: bool)
      requires BaseOk(hal, pages, freePages) && ActiveLast(pages) && HalOk(hal)
      requires WfViews(View(hal)) && bi == NotedIn(View(hal)) && namespaces == NamesIn(View(hal))
      requires tame ==> RecoversIn(hal, kv, NoGc) && BlankMaps(freePages)
      modifies this`hal, this`pages, this`contents
      ensures Later(old(hal), hal) && HalOk(old(hal)) && HalOk(hal) && WfViews(View(old(hal)))
      ensures ok ==> BaseOk(hal, pages, freePages) && ActiveLast(pages) && OneHeadEach(View(hal))
      ensures ok ==> SurvivorsOnly(View(old(hal)), View(hal)) && SameBytes(old(hal), old(pages), hal, pages)
      ensures ok ==> WholeStays(old(hal), hal)
      ensures tame && ok ==> Valid() && contents == kv
      ensures !ok ==> hal.budget == Some(0)
      ensures tame && !ok ==> RecoversIn(hal, kv, NoGc)
    {
      hide BaseOk, View, NotedIn, NamesIn, RecoversIn, Steady, NamesOk, Cleaning, AllVersionsOk, ActiveLast, BlankMaps,
           SameBytes, OneHeadEach, SurvivorsOnly, HeadsLeft, Fewer, NewestStays, Undoomed, Loadable, WfViews,
           WholeStays, PartsSpared, NewestParts;
      ghost var h0, ps0 := hal, pages;
      ViewLoadable(hal, pages, freePages);
      if tame {
        BootedClean(hal, pages, freePages, kv);
        NamesBooted(hal, pages, freePages, kv);
      }
      ghost var live;
      ok, live := CleanupDirtyBlobs(bi, kv, tame);
      if !ok { return; }
      ghost var h1, ps1 := hal, pages;
      ok := CleanupDuplicateEntries(kv, tame);
      if !ok { return; }
      SameBytesBy(h0, ps0, h1, ps1, hal, pages);
      BytesActive(h0, ps0, hal, pages);
      SurvivorsLeft(View(h0), View(h1), View(hal), live);
      SurvivorsWhole(h0, h1, hal, live);
      if tame { contents := kv; }
    }
  }
}
