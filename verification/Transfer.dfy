/** Moving a page to the reserve (compaction.rs, defragment): what is copied, and what a power cut
    in between leaves. */
module Transfer {
  import opened Types
  import opened Sectors
  import opened Flash
  import opened Pages
  import opened PageOps
  import opened Scan
  import opened Store
  import opened Instance
  import opened Moves
  import opened Compaction
  import opened Lookup

  /** page.rs, Ord for ThinPage: whether p is the smaller of the two, so later out of the heap. */
  predicate HeapLess(p: ThinPage, q: ThinPage) {
    if p.state == Uninitialized && q.state == Uninitialized then q.addr < p.addr
    else if p.state == Uninitialized then false
    else if q.state == Uninitialized then true
    else q.sequence < p.sequence
  }

  /** Page f is the next one out of the heap: a blank one before leftovers, the lowest address first,
      and of leftovers the oldest. */
  ghost predicate FirstOut(fr: seq<ThinPage>, f: nat)
    requires f < |fr|
  {
    && (forall j | 0 <= j < |fr| && fr[j].state == Uninitialized ::
          fr[f].state == Uninitialized && fr[f].addr <= fr[j].addr)
    && (fr[f].state != Uninitialized ==> forall j | 0 <= j < |fr| :: fr[f].sequence <= fr[j].sequence)
  }

  predicate HasActive(ps: seq<ThinPage>) { ps != [] && ps[|ps| - 1].state == Active }

  /** No page can be had: none is active, and of the one page in reserve, if there is one, nothing is
      to be gained by moving another onto it. */
  predicate StoreFull(ps: seq<ThinPage>, fr: seq<ThinPage>) {
    && !HasActive(ps)
    && (fr == [] || (|fr| == 1 && forall i | 0 <= i < |ps| :: ps[i].used >= ENTRIES_PER_PAGE))
  }

  /** One above the largest sequence number, 0 if there is none. */
  ghost predicate NewestBy(ps: seq<ThinPage>, n: nat) {
    && (forall i | 0 <= i < |ps| :: ps[i].sequence < n)
    && (if ps == [] then n == 0 else exists i :: 0 <= i < |ps| && ps[i].sequence == n - 1)
  }

  /** items.rs, get_next_sequence. */
  function NextSequence(ps: seq<ThinPage>): (n: nat)
    ensures NewestBy(ps, n)
  {
    if ps == [] then 0 else Max(NextSequence(ps[..|ps| - 1]), ps[|ps| - 1].sequence + 1)
  }

  /** compaction.rs, defragment: erased entries, weighted against age. */
  function Points(p: ThinPage, nextSequence: nat): nat
    requires p.sequence < nextSequence
  {
    if p.erased == 0 then 0 else p.erased * 10 + (nextSequence - p.sequence)
  }

  /** What a defragmentation gains: a copied page leaves the reserve as large as it was, and its copy
      has room for everything but the source's used entries; a page without used or free entries
      simply joins the reserve. */
  ghost predicate Reclaimed(ps0: seq<ThinPage>, fr0: seq<ThinPage>, ps: seq<ThinPage>, fr: seq<ThinPage>,
                            source: ThinPage) {
    && source in ps0 && source.state == Full && source.used < ENTRIES_PER_PAGE
    && if source.erased == ENTRIES_PER_PAGE then
         |ps| == |ps0| - 1 && |fr| == |fr0| + 1 && !HasActive(ps)
       else
         |ps| == |ps0| && |fr| == |fr0| && HasActive(ps)
         && FreeEntries(ps[|ps| - 1]) == ENTRIES_PER_PAGE - source.used
  }

  /** The copy of a page is complete. */
  ghost predicate CopyDone(h: Hal, h2: Hal, source: ThinPage, target: ThinPage, t: ThinPage) {
    && HalOk(h) && HalOk(h2) && Touched(h, h2, target.addr) && source.addr < |h.sectors|
    && PageOk(h2.codec, t, h2.sectors[target.addr])
    && GoodLocs(h2.codec, ScanFrom(h2.codec, h2.sectors[target.addr], 0))
    && t.addr == target.addr && t.sequence == target.sequence
    && t.state == (if IsFull(t) then Full else Active)
    && t.used == source.used && t.erased == 0
    && Recs(ScanFrom(h2.codec, h2.sectors[target.addr], 0)) == Recs(ScanFrom(h.codec, h.sectors[source.addr], 0))
    && Dense(h2.codec, h2.sectors[target.addr])
  }

  /** The copy of a page was cut short: the target holds a first part of the items. */
  ghost predicate CopyTorn(h: Hal, h2: Hal, source: ThinPage, target: ThinPage) {
    && HalOk(h) && HalOk(h2) && Touched(h, h2, target.addr) && source.addr < |h.sectors|
    && SectorOk(h2.codec, h2.sectors[target.addr]) && InUse(h2.sectors[target.addr])
    && h2.sectors[target.addr].header == Some(Header(Active, target.sequence, true))
    && Recs(ScanFrom(h2.codec, h2.sectors[target.addr], 0)) <= Recs(ScanFrom(h.codec, h.sectors[source.addr], 0))
    && Dense(h2.codec, h2.sectors[target.addr]) && h2.budget == Some(0)
  }

  ghost predicate Copying(h: Hal, h2: Hal, source: ThinPage, target: ThinPage, t: ThinPage, acc: seq<Loc>) {
    && HalOk(h) && HalOk(h2) && Touched(h, h2, target.addr) && source.addr < |h.sectors|
    && PageOk(h2.codec, t, h2.sectors[target.addr])
    && t.addr == target.addr && t.sequence == target.sequence
    && t.state == (if IsFull(t) then Full else Active)
    && t.used == Spans(acc) && t.erased == 0
    && Recs(ScanFrom(h2.codec, h2.sectors[target.addr], 0)) == Recs(acc)
  }

  lemma RecsSnoc(xs: seq<Loc>, loc: Loc)
    ensures Recs(xs + [loc]) == Recs(xs) + [loc.rec]
  {}

  lemma RecsGood(c: Codec, xs: seq<Loc>, ys: seq<Loc>)
    requires Recs(xs) <= Recs(ys) && GoodLocs(c, ys)
    ensures GoodLocs(c, xs)
  {
    hide GoodRec;
    forall loc | loc in xs ensures GoodRec(c, loc.rec) {
      var i :| 0 <= i < |xs| && xs[i] == loc;
      assert Recs(xs)[i] == Recs(ys)[i] == ys[i].rec;
    }
  }

  /** One more item copied. */
  lemma CopyStep(h: Hal, h1: Hal, h2: Hal, source: ThinPage, target: ThinPage, t: ThinPage, t2: ThinPage, acc: seq<Loc>,
                 loc: Loc)
    requires Copying(h, h1, source, target, t, acc) && HalOk(h2)
    requires Appended(h1, t, h2, t2, loc.rec)
    ensures Copying(h, h2, source, target, t2, acc + [loc])
  {
    hide ScanFrom, BodyOk;
    SpansAppend(acc, [loc]);
    assert Spans([loc]) == loc.rec.item.span + Spans([]);
    RecsSnoc(acc, loc);
    RecsSnoc(ScanFrom(h1.codec, h1.sectors[target.addr], 0), Loc(NextFree(t), loc.rec));
  }

  /** A copy cut short is complete, or did not happen. */
  ghost predicate TornWhole(h: Hal, p: ThinPage, h2: Hal, r: Rec) {
    && HalOk(h) && HalOk(h2) && p.addr < |h.sectors| == |h2.sectors|
    && ScanFrom(h2.codec, h2.sectors[p.addr], 0) == ScanFrom(h.codec, h.sectors[p.addr], 0) + [Loc(NextFree(p), r)]
    && NextFree(p) + r.item.span <= ENTRIES_PER_PAGE && BlankFrom(h2.sectors[p.addr], NextFree(p) + r.item.span)
  }

  /** Without erased entries, a page's items lie next to each other. */
  lemma PageDense(c: Codec, p: ThinPage, s: Sector)
    requires BodyOk(c, p, s) && p.erased == 0
    ensures Dense(c, s) && Spans(ScanFrom(c, s, 0)) == NextFree(p)
  {
    hide ScanFrom, Tidy, HashList, Spans;
    ScanWritten(c, s, 0, NextFree(p));
    FullPacked(ScanFrom(c, s, 0), 0, NextFree(p));
  }

  /** Items that fill a range leave no gap in it. */
  lemma {:induction false} FullPacked(locs: seq<Loc>, lo: nat, hi: nat)
    requires Ordered(locs, lo, hi) && lo <= hi && Spans(locs) == hi - lo
    ensures forall j | 0 <= j < |locs| :: locs[j].index == lo + Spans(locs[..j])
  {
    if locs != [] {
      var mid := locs[0].index + locs[0].rec.item.span;
      SpansBound(locs[1..], mid, hi);
      FullPacked(locs[1..], mid, hi);
      forall j | 0 <= j < |locs| ensures locs[j].index == lo + Spans(locs[..j]) {
        if j > 0 { assert locs[..j][1..] == locs[1..][..j - 1]; assert locs[j] == locs[1..][j - 1]; }
      }
    }
  }

  lemma CopyDense(h: Hal, p: ThinPage, h2: Hal, r: Rec)
    requires HalOk(h) && HalOk(h2) && p.addr < |h.sectors| && BodyOk(h.codec, p, h.sectors[p.addr]) && p.erased == 0
    requires h2 == h || TornWhole(h, p, h2, r)
    ensures p.addr < |h2.sectors| && Dense(h2.codec, h2.sectors[p.addr])
  {
    hide ScanFrom, Spans, BodyOk;
    PageDense(h.codec, p, h.sectors[p.addr]);
    if h2 != h {
      var locs := ScanFrom(h.codec, h.sectors[p.addr], 0);
      SpansAppend(locs, [Loc(NextFree(p), r)]);
      SpanOne(Loc(NextFree(p), r));
      PackedSnoc(locs, Loc(NextFree(p), r));
    }
  }

  lemma PackedSnoc(locs: seq<Loc>, loc: Loc)
    requires Packed(locs) && loc.index == Spans(locs)
    ensures Packed(locs + [loc])
  {
    var all := locs + [loc];
    forall j | 0 <= j < |all| ensures all[j].index == Spans(all[..j]) {
      if j < |locs| { assert all[..j] == locs[..j]; } else { assert all[..j] == locs; }
    }
  }

  lemma CopyCut(h: Hal, h1: Hal, h2: Hal, source: ThinPage, target: ThinPage, t: ThinPage, acc: seq<Loc>, loc: Loc,
                rest: seq<Loc>)
    requires Copying(h, h1, source, target, t, acc) && HalOk(h2) && t.state == Active
    requires ScanFrom(h.codec, h.sectors[source.addr], 0) == acc + [loc] + rest
    requires GoodLocs(h.codec, ScanFrom(h.codec, h.sectors[source.addr], 0))
    requires TornAppend(h1, t, h2, loc.rec)
    requires h2 == h1 || TornWhole(h1, t, h2, loc.rec)
    ensures CopyTorn(h, h2, source, target)
  {
    hide ScanFrom, BodyOk, GoodLocs, Sound, TornWhole, Dense;
    CopyDense(h1, t, h2, loc.rec);
    RecsSnoc(acc, loc);
    RecsSnoc(ScanFrom(h1.codec, h1.sectors[target.addr], 0), Loc(NextFree(t), loc.rec));
    RecsPrefix(acc, [loc] + rest);
    RecsPrefix(acc + [loc], rest);
    assert acc + ([loc] + rest) == acc + [loc] + rest;
    RecsGood(h.codec, ScanFrom(h2.codec, h2.sectors[target.addr], 0), ScanFrom(h.codec, h.sectors[source.addr], 0));
  }

  lemma RecsPrefix(xs: seq<Loc>, ys: seq<Loc>)
    ensures Recs(xs) <= Recs(xs + ys)
  {}

  /** Source entry i is the header of the next item to copy. */
  lemma NextToCopy(c: Codec, source: ThinPage, s: Sector, acc: seq<Loc>, i: nat)
    requires BodyOk(c, source, s) && i < ENTRIES_PER_PAGE && s.emap[i] == Written && CodecOk(c)
    requires ScanFrom(c, s, 0) == acc + ScanFrom(c, s, i) && (i < NextFree(source) ==> Tidy(c, s, i, NextFree(source)))
    requires GoodLocs(c, ScanFrom(c, s, 0))
    ensures c.parse(Entry(s, i)).Some? && Fits(c.parse(Entry(s, i)).value, i) && Entry(s, i) != BLANK_ENTRY
    ensures var r := RecAt(c, s, i); var next := i + r.item.span;
            && GoodRec(c, r) && Loc(i, r) in ScanFrom(c, s, 0)
            && ScanFrom(c, s, 0) == acc + [Loc(i, r)] + ScanFrom(c, s, next)
            && next <= NextFree(source) && Tidy(c, s, next, NextFree(source))
            && Spans(acc) + r.item.span <= NextFree(source) && Spans(acc) + r.item.span <= source.used
  {
    hide ScanFrom, GoodLocs, GoodRec, Judge, Tidy;
    var n := NextFree(source);
    assert i < n;
    TidyStep(c, s, i, n);
    ScanStep(c, s, i, n);
    var r := RecAt(c, s, i);
    var rest := ScanFrom(c, s, i + r.item.span);
    assert acc + ([Loc(i, r)] + rest) == acc + [Loc(i, r)] + rest;
    GoodAt(c, ScanFrom(c, s, 0), |acc|);
    assert ScanFrom(c, s, 0)[|acc|] == Loc(i, r);
    SpansAppend(acc + [Loc(i, r)], rest);
    SpansAppend(acc, [Loc(i, r)]);
    assert Spans([Loc(i, r)]) == r.item.span + Spans([]);
  }

  lemma NothingToCopy(c: Codec, source: ThinPage, s: Sector, acc: seq<Loc>, i: nat)
    requires BodyOk(c, source, s) && i < ENTRIES_PER_PAGE && s.emap[i] != Written && CodecOk(c)
    requires ScanFrom(c, s, 0) == acc + ScanFrom(c, s, i) && (i < NextFree(source) ==> Tidy(c, s, i, NextFree(source)))
    ensures ScanFrom(c, s, 0) == acc + ScanFrom(c, s, i + 1)
    ensures i + 1 < NextFree(source) ==> Tidy(c, s, i + 1, NextFree(source))
  {
    hide ScanFrom, Tidy;
    var n := NextFree(source);
    if i < n {
      TidyStep(c, s, i, n);
      ScanStep(c, s, i, n);
      assert [] + ScanFrom(c, s, i + 1) == ScanFrom(c, s, i + 1);
    } else {
      ScanBlank(c, s, i);
      ScanBlank(c, s, i + 1);
    }
  }

  /** The source before the first item. */
  lemma CopyFirst(c: Codec, source: ThinPage, s: Sector)
    requires BodyOk(c, source, s)
    ensures Shape(s) && source.emap == s.emap && NextFree(source) <= ENTRIES_PER_PAGE
    ensures ScanFrom(c, s, 0) == [] + ScanFrom(c, s, 0)
    ensures 0 < NextFree(source) ==> Tidy(c, s, 0, NextFree(source))
  {}

  lemma CopyingPage(h: Hal, h2: Hal, source: ThinPage, target: ThinPage, t: ThinPage, acc: seq<Loc>)
    requires Copying(h, h2, source, target, t, acc)
    ensures HalOk(h2) && t.addr < |h2.sectors| && PageOk(h2.codec, t, h2.sectors[t.addr])
    ensures t.state == (if IsFull(t) then Full else Active)
  {}

  lemma CopyStart(h: Hal, source: ThinPage, target: ThinPage)
    requires HalOk(h) && source.addr < |h.sectors| && BodyOk(h.codec, source, h.sectors[source.addr])
    requires Writable(h, target) && NextFree(target) == 0
    ensures Copying(h, h, source, target, target, [])
  {
    hide ScanFrom, Tidy;
    ScanBlank(h.codec, h.sectors[target.addr], 0);
    assert h.sectors[target.addr := h.sectors[target.addr]] == h.sectors;
  }

  lemma CopyEnd(h: Hal, h2: Hal, source: ThinPage, target: ThinPage, t: ThinPage, acc: seq<Loc>)
    requires Copying(h, h2, source, target, t, acc) && BodyOk(h.codec, source, h.sectors[source.addr])
    requires ScanFrom(h.codec, h.sectors[source.addr], 0) == acc +
             ScanFrom(h.codec, h.sectors[source.addr], ENTRIES_PER_PAGE)
    requires GoodLocs(h.codec, ScanFrom(h.codec, h.sectors[source.addr], 0))
    ensures CopyDone(h, h2, source, target, t)
  {
    assert ScanFrom(h.codec, h.sectors[source.addr], ENTRIES_PER_PAGE) == [];
    assert acc + [] == acc;
    RecsGood(h.codec, ScanFrom(h2.codec, h2.sectors[target.addr], 0), acc);
    PageDense(h2.codec, t, h2.sectors[target.addr]);
  }

  /** The copy `t` of `source` is complete and the source not yet erased; h1 is the flash just after
      the source was marked. */
  ghost predicate MoveDone(h0: Hal, h1: Hal, h: Hal, source: ThinPage, t: ThinPage) {
    && HalOk(h0) && HalOk(h) && Marked(h0, h1, source.addr)
    && h.codec == h1.codec && h.ws == h0.ws && |h.sectors| == |h1.sectors|
    && SectorsOk(h)
    && source.addr < |h1.sectors| && t.addr < |h1.sectors| && View(h1)[t.addr].Free? && View(h1)[source.addr].Used?
    && View(h) == View(h1)[t.addr := View(h)[t.addr]]
    && View(h)[t.addr].Used? && View(h)[t.addr].state == t.state && View(h)[t.addr].sequence == t.sequence
    && Above(View(h1), t.sequence)
    && Recs(View(h)[t.addr].locs) == Recs(View(h1)[source.addr].locs)
    && Dense(h.codec, h.sectors[t.addr])
    && t.state == (if IsFull(t) then Full else Active)
    && t.used == source.used && t.erased == 0
  }

  lemma MarkShape(h0: Hal, h1: Hal, ps: seq<ThinPage>, fr: seq<ThinPage>, p: ThinPage)
    requires BaseOk(h0, ps + [p], fr) && p.addr < |h0.sectors|
    requires Moved(h0, h1, p.addr, WithState(h0.sectors[p.addr], Freeing))
    ensures HalOk(h1)
  {}

  lemma AllFullIdle(h: Hal, ps: seq<ThinPage>, fr: seq<ThinPage>, p: ThinPage)
    requires BaseOk(h, ps + [p], fr) && BlankMaps(fr) && p.state == Full
    requires forall i | 0 <= i < |ps| :: ps[i].state == Full
    ensures Interrupted(h, h)
  {
    hide BaseOk;
    FullIdle(h, ps + [p], fr);
  }

  /** All pages lie below the sequence of the new one. */
  lemma AboveAll(h: Hal, ps: seq<ThinPage>, fr: seq<ThinPage>, sequence: nat)
    requires BaseOk(h, ps, fr) && forall i | 0 <= i < |ps| :: ps[i].sequence < sequence
    ensures Above(View(h), sequence)
  {
    hide Placed, FreeOk, Addrs, AllSectors, ViewOf;
    forall a | 0 <= a < |View(h)| && View(h)[a].Used? ensures View(h)[a].sequence < sequence {
      var i := PageOfSector(h, ps, fr, a);
    }
  }

  lemma MarkAbove(h1: Hal, ps: seq<ThinPage>, sf: ThinPage, fr: seq<ThinPage>, sequence: nat)
    requires BaseOk(h1, ps + [sf], fr) && sf.sequence < sequence && forall i | 0 <= i < |ps| ::
               ps[i].sequence < sequence
    ensures Above(View(h1), sequence)
  {
    hide BaseOk, Above;
    AboveAll(h1, ps + [sf], fr, sequence);
  }

  lemma SourceView(h0: Hal, h1: Hal, source: ThinPage)
    requires HalOk(h0) && HalOk(h1) && Placed(h0, source) && |h1.sectors| == |h0.sectors|
    requires View(h0)[source.addr].Used?
    requires View(h1) == View(h0)[source.addr := View(h0)[source.addr].(state := Freeing)]
    ensures View(h1)[source.addr] == Used(Freeing, source.sequence, ScanFrom(h0.codec, h0.sectors[source.addr], 0))
  {
    hide ScanFrom, BodyOk;
    PlacedView(h0, source);
  }

  /** What CopyItems asks for, after the source was marked and a reserve page initialized. */
  lemma CopyReady(h1: Hal, h: Hal, ps: seq<ThinPage>, sf: ThinPage, t: ThinPage, fr: seq<ThinPage>, source: ThinPage)
    requires BaseOk(h, ps + [sf] + [t], fr) && sf == source.(state := Freeing)
    requires HalOk(h1) && |h1.sectors| == |h.sectors|
    requires View(h) == View(h1)[t.addr := Used(Active, t.sequence, [])] && t.addr < |h1.sectors|
    ensures source.addr < |h.sectors| && source.addr != t.addr
    ensures BodyOk(h.codec, source, h.sectors[source.addr])
    ensures GoodLocs(h.codec, ScanFrom(h.codec, h.sectors[source.addr], 0))
    ensures View(h1)[source.addr].Used? && ScanFrom(h.codec, h.sectors[source.addr], 0) == View(h1)[source.addr].locs
    ensures HalOk(h) && (BlankMaps(fr) ==> SectorsOk(h))
  {
    hide Addrs, AllSectors, ScanFrom, Tidy, GoodLocs, FreeOk, ViewOf, SectorOk;
    var all := ps + [sf] + [t];
    assert all[|ps|] == sf && all[|ps| + 1] == t;
    PagesApart(h, all, fr, |ps|, |ps| + 1);
    if BlankMaps(fr) { BaseFlash2(h, all, fr); }
    PlacedView(h, sf);
  }

  lemma TargetView(h2: Hal, h3: Hal, a: nat)
    requires HalOk(h2) && HalOk(h3) && Touched(h2, h3, a) && InUse(h3.sectors[a])
    ensures View(h3) == View(h2)[a := View(h3)[a]]
    ensures View(h3)[a] == Used(h3.sectors[a].header.value.state, h3.sectors[a].header.value.sequence,
                                ScanFrom(h3.codec, h3.sectors[a], 0))
  {
    hide ScanFrom;
    ViewTouched(h2, h3, a);
  }

  lemma SectorsTouched(h2: Hal, h3: Hal, a: nat)
    requires SectorsOk(h2) && HalOk(h3) && Touched(h2, h3, a) && SectorOk(h3.codec, h3.sectors[a])
    ensures SectorsOk(h3)
  {
    hide SectorOk;
    forall b | 0 <= b < |h3.sectors| ensures SectorOk(h3.codec, h3.sectors[b]) {
      if b != a { assert h3.sectors[b] == h2.sectors[b]; }
    }
  }

  lemma CopyInterrupted(h0: Hal, h1: Hal, h2: Hal, h3: Hal, source: ThinPage, t: ThinPage)
    requires HalOk(h0) && HalOk(h1) && Marked(h0, h1, source.addr) && SectorsOk(h2) && h2.codec == h1.codec
    requires t.addr < |h1.sectors| == |h2.sectors| && source.addr < |h1.sectors|
    requires View(h1)[t.addr].Free? && View(h1)[source.addr].Used?
    requires View(h2) == View(h1)[t.addr := Used(Active, t.sequence, [])]
    requires Above(View(h1), t.sequence)
    requires ScanFrom(h2.codec, h2.sectors[source.addr], 0) == View(h1)[source.addr].locs
    requires CopyTorn(h2, h3, source, t)
    ensures Interrupted(h0, h3) && h3.budget == Some(0)
  {
    hide ScanFrom, BodyOk, SectorOk, GcOk, ViewOf, Marked, Interrupted, GoodLocs, Recs, Dense;
    TargetView(h2, h3, t.addr);
    var v := View(h3)[t.addr];
    assert View(h3) == View(h1)[t.addr := v];
    SectorsTouched(h2, h3, t.addr);
    TargetInterrupted(h0, h1, source.addr, t.addr, h3, v);
  }

  /** The copy is in place, whatever the items. */
  lemma CopiedBase(h2: Hal, h3: Hal, ps: seq<ThinPage>, sf: ThinPage, t: ThinPage, t2: ThinPage, fr: seq<ThinPage>,
                   source: ThinPage)
    requires BaseOk(h2, ps + [sf] + [t], fr) && CopyDone(h2, h3, source, t, t2)
    ensures BaseOk(h3, ps + [t2] + [sf], fr)
  {
    hide ScanFrom, BodyOk, GoodLocs, Recs, Addrs, AllSectors, FreeOk, Dense;
    var all := ps + [sf] + [t];
    assert all[|ps| + 1] == t;
    CopyPlaced(h2, h3, source, t, t2);
    BaseReplace(h2, h3, all, fr, |ps| + 1, t2);
    assert all[|ps| + 1 := t2] == ps + [sf] + [t2];
    AddrsSnoc(ps, sf); AddrsSnoc(ps, t2); AddrsSnoc(ps + [sf], t2); AddrsSnoc(ps + [t2], sf);
    BaseReorder(h3, ps + [sf] + [t2], fr, ps + [t2] + [sf], fr);
  }

  lemma MoveCopied(h0: Hal, h1: Hal, h2: Hal, h3: Hal, ps: seq<ThinPage>, sf: ThinPage, t: ThinPage, t2: ThinPage,
                   fr: seq<ThinPage>, source: ThinPage)
    requires HalOk(h0) && HalOk(h1) && Marked(h0, h1, source.addr) && SectorsOk(h2) && h2.codec == h1.codec &&
             h2.ws == h0.ws
    requires t.addr < |h1.sectors| == |h2.sectors| && source.addr < |h1.sectors|
    requires View(h1)[t.addr].Free? && View(h1)[source.addr].Used?
    requires View(h2) == View(h1)[t.addr := Used(Active, t.sequence, [])]
    requires Above(View(h1), t.sequence)
    requires ScanFrom(h2.codec, h2.sectors[source.addr], 0) == View(h1)[source.addr].locs
    requires BaseOk(h2, ps + [sf] + [t], fr) && BlankMaps(fr) && sf.addr == source.addr
    requires CopyDone(h2, h3, source, t, t2)
    ensures BaseOk(h3, ps + [t2] + [sf], fr)
    ensures MoveDone(h0, h1, h3, source, t2) && t2.sequence == t.sequence
  {
    hide ScanFrom, BodyOk, SectorOk, GcOk, ViewOf, Marked, GoodLocs, Recs, Addrs, AllSectors, FreeOk, Above, Dense;
    CopyPlaced(h2, h3, source, t, t2);
    CopiedBase(h2, h3, ps, sf, t, t2, fr, source);
    BaseFlash2(h3, ps + [t2] + [sf], fr);
    TargetView(h2, h3, t.addr);
    assert View(h3) == View(h1)[t.addr := View(h3)[t.addr]];
  }

  lemma CopyPlaced(h2: Hal, h3: Hal, source: ThinPage, t: ThinPage, t2: ThinPage)
    requires CopyDone(h2, h3, source, t, t2)
    ensures Placed(h3, t2) && InUse(h3.sectors[t.addr]) && h3.sectors[t.addr].header.value.state == t2.state
    ensures h3.sectors[t.addr].header.value.sequence == t2.sequence
  {
    hide ScanFrom, BodyOk, GoodLocs, Recs, Dense;
  }

  lemma SwapRemovedBase(h: Hal, ps: seq<ThinPage>, fr: seq<ThinPage>, i: nat)
    requires InstOk(h, ps, fr) && i < |ps| && forall j | 0 <= j < |ps| :: ps[j].state == Full
    ensures BaseOk(h, SwapRemoved(ps, i) + [ps[i]], fr)
    ensures forall j | 0 <= j < |ps| - 1 :: SwapRemoved(ps, i)[j].state == Full
    ensures forall j | 0 <= j < |ps| - 1 :: SwapRemoved(ps, i)[j] in ps
  {
    hide Placed, FreeOk, Addrs, AllSectors;
    var ps2 := SwapRemoved(ps, i) + [ps[i]];
    AddrsSwapRemoved(ps, i);
    AddrsSnoc(SwapRemoved(ps, i), ps[i]);
    BaseReorder(h, ps, fr, ps2, fr);
  }

  lemma MoveStopped(h0: Hal, h1: Hal, h: Hal, source: ThinPage, t: ThinPage)
    requires MoveDone(h0, h1, h, source, t)
    ensures Interrupted(h0, h)
  {
    hide Marked, SectorOk, GcOk, View, Recs, Above, Interrupted, Dense;
    MarkedSource(h0, h1, source.addr);
    TargetInterrupted(h0, h1, source.addr, t.addr, h, View(h)[t.addr]);
  }

  lemma MarkedSource(h0: Hal, h1: Hal, src: nat)
    requires Marked(h0, h1, src)
    ensures HalOk(h1)
  {}

  lemma MoveEnded(h0: Hal, h1: Hal, h2: Hal, h3: Hal, source: ThinPage, t: ThinPage)
    requires MoveDone(h0, h1, h2, source, t) && HalOk(h3) && h3.codec == h2.codec && h3.ws == h2.ws
    requires |h3.sectors| == |h2.sectors| && View(h3) == View(h2)[source.addr := Free]
    ensures SameBags(h0, h3)
  {
    hide Marked, SectorOk, GcOk, View, Recs, Above, SameBags;
    MarkedSource(h0, h1, source.addr);
    FinishMove(h0, h1, h2, h3, source.addr, t.addr, View(h2)[t.addr]);
  }

  lemma MovedInst(h: Hal, ps: seq<ThinPage>, t: ThinPage, fr: seq<ThinPage>, sequence: nat)
    requires BaseOk(h, ps + [t], fr) && BlankMaps(fr) && t.sequence == sequence
    requires forall i | 0 <= i < |ps| :: ps[i].state == Full && ps[i].sequence < sequence
    requires t.state == (if IsFull(t) then Full else Active)
    ensures InstOk(h, ps + [t], fr)
  {
    hide BaseOk;
  }

  lemma FullInst(h: Hal, ps: seq<ThinPage>, fr: seq<ThinPage>)
    requires BaseOk(h, ps, fr) && BlankMaps(fr) && forall i | 0 <= i < |ps| :: ps[i].state == Full
    ensures InstOk(h, ps, fr)
  {
    hide BaseOk;
  }

  lemma MovedReclaimed(ps0: seq<ThinPage>, fr0: seq<ThinPage>, i: nat, ps: seq<ThinPage>, t: ThinPage,
                       fr: seq<ThinPage>)
    requires i < |ps0| && ps == SwapRemoved(ps0, i) && |fr| == |fr0|
    requires ps0[i].used < ENTRIES_PER_PAGE && ps0[i].state == Full && ps0[i].erased != ENTRIES_PER_PAGE
    requires t.used == ps0[i].used && t.erased == 0 && t.state == (if IsFull(t) then Full else Active)
    ensures Reclaimed(ps0, fr0, ps + [t], fr, ps0[i])
  {}

  lemma EmptyReclaimed(ps0: seq<ThinPage>, fr0: seq<ThinPage>, i: nat, fr: seq<ThinPage>)
    requires i < |ps0| && |fr| == |fr0| + 1 && ps0[i].used < ENTRIES_PER_PAGE && ps0[i].erased == ENTRIES_PER_PAGE
    requires forall j | 0 <= j < |ps0| :: ps0[j].state == Full
    ensures Reclaimed(ps0, fr0, SwapRemoved(ps0, i), fr, ps0[i])
  {}

  lemma {:induction false} SpansAtLeast(locs: seq<Loc>, i: nat, n: nat)
    requires Ordered(locs, i, n)
    ensures Spans(locs) >= |locs|
  {
    if locs != [] { SpansAtLeast(locs[1..], i, n); }
  }

  lemma MoveFacts(h0: Hal, h1: Hal, h: Hal, source: ThinPage, t: ThinPage)
    requires MoveDone(h0, h1, h, source, t)
    ensures t.state == (if IsFull(t) then Full else Active) && t.used == source.used && t.erased == 0
    ensures HalOk(h)
  {}

  /** A page whose every entry is erased holds no item. */
  lemma EmptyErased(h0: Hal, h: Hal, ps: seq<ThinPage>, fr: seq<ThinPage>, p: ThinPage)
    requires BaseOk(h0, ps + [p], fr) && p.erased == ENTRIES_PER_PAGE
    requires HalOk(h) && h.codec == h0.codec && h.ws == h0.ws && |h.sectors| == |h0.sectors| && p.addr < |h0.sectors|
    requires View(h) == View(h0)[p.addr := Free]
    ensures SameBags(h0, h)
  {
    hide ScanFrom, Tidy, Bag, KeyRecs, BaseOk, GoodLocs, HashList, ViewOf, View;
    LastPlaced(h0, ps, fr, p);
    PlacedView(h0, p);
    var locs := ScanFrom(h0.codec, h0.sectors[p.addr], 0);
    ScanOrdered(h0.codec, h0.sectors[p.addr], 0);
    SpansAtLeast(locs, 0, ENTRIES_PER_PAGE);
    EmptyUsed(h0.codec, p, h0.sectors[p.addr]);
    forall k: FullKey ensures HBag(h, k) == HBag(h0, k) {
      BagUpdate(View(h0), p.addr, Free, k);
      KeyRecsNone(k);
      CancelSame(HBag(h, k), HBag(h0, k), multiset{});
    }
  }

  lemma EmptyUsed(c: Codec, p: ThinPage, s: Sector)
    requires BodyOk(c, p, s) && p.erased == ENTRIES_PER_PAGE
    ensures Spans(ScanFrom(c, s, 0)) == 0
  {}

  lemma IdleInterrupted(h0: Hal, h1: Hal, h: Hal, ps: seq<ThinPage>, fr: seq<ThinPage>)
    requires InstOk(h1, ps, fr) && SameBags(h0, h1)
    requires SectorsOk(h) && h.codec == h1.codec && h.ws == h1.ws && |h.sectors| == |h1.sectors| && View(h) == View(h1)
    ensures Interrupted(h0, h)
  {
    hide BaseOk, Bag, ViewOf, SectorOk, View, GcOk, Interrupted;
    InstIdle(h1, ps, fr);
    forall k: FullKey ensures HBag(h, k) == HBag(h0, k) { assert HBag(h1, k) == HBag(h0, k); }
    InterruptedIdle(h0, h);
  }

  lemma FreshInst(h0: Hal, h1: Hal, h: Hal, ps: seq<ThinPage>, p: ThinPage, fr: seq<ThinPage>, fr2: seq<ThinPage>)
    requires InstOk(h1, ps, fr) && SameBags(h0, h1) && !HasActive(ps)
    requires BaseOk(h, ps + [p], fr2) && BlankMaps(fr2) && h.codec == h1.codec && h.ws == h1.ws &&
             |h.sectors| == |h1.sectors|
    requires p.state == Active && NextFree(p) == 0 && p.sequence == NextSequence(ps) && p.addr < |h1.sectors|
    requires View(h1)[p.addr].Free? && View(h) == View(h1)[p.addr := Used(Active, p.sequence, [])]
    ensures InstOk(h, ps + [p], fr2) && SameBags(h0, h)
  {
    hide BaseOk, Bag, KeyRecs, ViewOf, View;
    LastPlaced(h, ps, fr2, p);
    BaseHal(h1, ps, fr);
    forall k: FullKey ensures HBag(h, k) == HBag(h0, k) {
      BagUpdate(View(h1), p.addr, Used(Active, p.sequence, []), k);
      KeyRecsNone(k);
      CancelSame(HBag(h, k), HBag(h1, k), multiset{});
      assert HBag(h1, k) == HBag(h0, k);
    }
  }

  lemma ErasedView(c: Codec)
    ensures ViewOf(c, ErasedSector()) == Free
  {}

  lemma ErasedFree(h: Hal, a: nat)
    requires a < |h.sectors| && h.sectors[a] == ErasedSector()
    ensures FreeOk(h, UninitializedPage(a))
  {}

  lemma ReserveBlank(h: Hal, ps: seq<ThinPage>, fr: seq<ThinPage>, f: nat)
    requires BaseOk(h, ps, fr) && f < |fr|
    ensures HalOk(h) && fr[f].addr < |h.sectors| && View(h)[fr[f].addr] == Free
    ensures fr[f].state == Uninitialized ==> h.sectors[fr[f].addr] == ErasedSector()
    ensures fr[f].state == Uninitialized || BlankMap(fr[f].emap) ==>
              fr[f] == UninitializedPage(fr[f].addr).(state := fr[f].state, sequence := fr[f].sequence)
  {
    hide Placed, Addrs, AllSectors, ErasedSector;
    FreeView(h, fr[f]);
  }

  lemma BaseFlash2(h: Hal, ps: seq<ThinPage>, fr: seq<ThinPage>)
    requires BaseOk(h, ps, fr) && BlankMaps(fr)
    ensures SectorsOk(h)
  {
    hide Placed, FreeOk, Addrs, AllSectors, SectorOk;
    BaseFlash(h, ps, fr);
  }

  lemma FlashIfBlank(h: Hal, ps: seq<ThinPage>, fr: seq<ThinPage>)
    requires BaseOk(h, ps, fr)
    ensures HalOk(h) && (BlankMaps(fr) ==> SectorsOk(h))
  {
    hide Placed, FreeOk, Addrs, AllSectors, SectorOk;
    if BlankMaps(fr) { BaseFlash2(h, ps, fr); }
  }

  lemma BlanksStay(fr: seq<ThinPage>, f: nat, a: nat)
    requires f < |fr|
    ensures BlankMaps(fr) ==> BlankMaps(Removed(fr, f)) && BlankMaps(fr[f := UninitializedPage(a)])
  {}

  lemma SourceWhole(h: Hal, a: nat)
    requires WholeItems(h) && a < |h.sectors| && View(h)[a].Used?
    ensures AllWhole(h.codec, View(h)[a].locs)
  {
    hide View;
  }

  lemma FreshHeader(h: Hal, h2: Hal, t: ThinPage)
    requires HalOk(h) && t.addr < |h.sectors| && h.sectors[t.addr] == ErasedSector()
    requires Moved(h, h2, t.addr, h.sectors[t.addr].(header :=
               Some(AndHeader(h.sectors[t.addr].header, Header(Active, t.sequence, true)))))
    ensures HalOk(h2) && Touched(h, h2, t.addr)
    ensures h2.sectors[t.addr] == ErasedSector().(header := Some(Header(Active, t.sequence, true)))
  {}

  /** A reserve page's map has its size; popped, the others keep theirs. */
  lemma ReserveMap(h: Hal, ps: seq<ThinPage>, fr: seq<ThinPage>, f: nat)
    requires BaseOk(h, ps, fr) && f < |fr|
    ensures |fr[f].emap| == MAP_SIZE && NextFree(fr[f]) == 0 && fr[f].addr < |h.sectors|
    ensures fr[f] == UninitializedPage(fr[f].addr).(state := fr[f].state, sequence := fr[f].sequence, emap :=
            fr[f].emap)
  {
    hide Placed, Addrs, AllSectors, ErasedSector;
  }

  lemma WritableMap(h: Hal, t: ThinPage)
    requires Writable(h, t)
    ensures t.addr < |h.sectors| && |t.emap| == MAP_SIZE && t.state == Active
  {
    hide Tidy, ScanFrom, HashList;
  }

  lemma BlanksGone(fr: seq<ThinPage>, f: nat)
    requires f < |fr|
    ensures BlankMaps(fr) ==> BlankMaps(Removed(fr, f)) && BlankMap(fr[f].emap)
    ensures fr[f] in fr
  {
    hide BlankMap;
    forall i | 0 <= i < |Removed(fr, f)| ensures Removed(fr, f)[i] in fr {}
  }

  lemma NotBlanks(fr: seq<ThinPage>, f: nat)
    requires f < |fr| && !BlankMap(fr[f].emap)
    ensures !BlankMaps(fr)
  {}

  /** The source is untouched while the target is prepared. */
  lemma SourceApart(h1: Hal, h2: Hal, ps: seq<ThinPage>, sf: ThinPage, fr: seq<ThinPage>, f: nat, source: ThinPage)
    requires BaseOk(h1, ps + [sf], fr) && f < |fr| && sf == source.(state := Freeing) && Touched(h1, h2, fr[f].addr)
    ensures source.addr < |h2.sectors| && source.addr != fr[f].addr &&
            h2.sectors[source.addr] == h1.sectors[source.addr]
    ensures HalOk(h1) && BodyOk(h2.codec, source, h2.sectors[source.addr])
    ensures GoodLocs(h2.codec, ScanFrom(h2.codec, h2.sectors[source.addr], 0))
  {
    hide FreeOk, Addrs, AllSectors, ScanFrom, Tidy, GoodLocs;
    assert (ps + [sf])[|ps|] == sf;
    PageFreeApart(h1, ps + [sf], fr, |ps|, f);
  }
}
