/** The instance between flash operations (nvs.rs, Nvs): its pages and reserve against the flash,
    and what a power cut at any moment leaves for the next boot. */
module Instance {
  import opened Types
  import opened Sectors
  import opened Flash
  import opened Pages
  import opened PageOps
  import opened Scan
  import opened Store

  // ---- the flash alone ----

  /** What is asked of the items found on flash, whatever their data: only chunks carry a chunk
      index, and namespace entries and blob indices are single entries. */
  ghost predicate GoodRec(c: Codec, r: Rec) {
    && WfItem(r.item) && |r.raw| == 32 * r.item.span
    && (r.item.typ != BlobData ==> r.item.chunk == NO_CHUNK)
    && (r.item.ns == 0 || r.item.typ == BlobIndex ==> r.item.span == 1)
  }

  ghost predicate GoodLocs(c: Codec, locs: seq<Loc>) { forall loc | loc in locs :: GoodRec(c, loc.rec) }

  predicate BlankMap(m: seq<EntryState>) { forall j | 0 <= j < |m| :: m[j] == Empty }

  /** A sector this driver wrote, whenever the power went; one without a valid header has no entry
      map that a page of the reserve could pick up. */
  ghost predicate SectorOk(c: Codec, s: Sector) {
    && Shape(s)
    && (if InUse(s) then Sound(c, s) && GoodLocs(c, ScanFrom(c, s, 0)) else s.header.None? || BlankMap(s.emap))
  }

  /** Where an interrupted defragmentation stands: the page being moved, and the page it is being
      moved to once that is initialized. */
  datatype Gc = NoGc | Moving(src: nat, tgt: Option<nat>)

  ghost predicate SequencesDiffer(vs: seq<PageView>) {
    forall a, b | 0 <= a < |vs| && 0 <= b < |vs| && a != b && vs[a].Used? && vs[b].Used? ::
      vs[a].sequence != vs[b].sequence
  }

  /** Sector a, if in use, is the newest. */
  ghost predicate Newest(vs: seq<PageView>, a: nat) {
    && a < |vs| && vs[a].Used?
    && forall b | 0 <= b < |vs| && b != a && vs[b].Used? :: vs[b].sequence < vs[a].sequence
  }

  ghost predicate Idle(vs: seq<PageView>) {
    && (forall a | 0 <= a < |vs| && vs[a].Used? :: vs[a].state in {Active, Full})
    && (forall a | 0 <= a < |vs| && vs[a].Used? && vs[a].state == Active :: Newest(vs, a))
  }

  ghost predicate OthersFull(vs: seq<PageView>, src: nat, tgt: Option<nat>) {
    forall a: nat | a < |vs| && a != src && Some(a) != tgt && vs[a].Used? :: vs[a].state == Full
  }

  ghost predicate HasFree(vs: seq<PageView>) { exists a :: 0 <= a < |vs| && vs[a].Free? }

  ghost predicate GcOk(vs: seq<PageView>, gc: Gc) {
    && SequencesDiffer(vs)
    && (gc.NoGc? ==> Idle(vs))
    && (gc.Moving? ==>
          && gc.src < |vs| && vs[gc.src].Used? && vs[gc.src].state == Freeing
          && OthersFull(vs, gc.src, gc.tgt)
          && (gc.tgt.None? ==> HasFree(vs))
          && (gc.tgt.Some? ==>
                gc.tgt.value != gc.src && Newest(vs, gc.tgt.value) && CopyOf(vs[gc.tgt.value], vs[gc.src])))
  }

  /** The target holds a first part of the source's items; a target that is already full, all. */
  ghost predicate CopyOf(t: PageView, s: PageView) {
    && t.Used? && s.Used?
    && if t.state == Active then Recs(t.locs) <= Recs(s.locs)
       else t.state == Full && Recs(t.locs) == Recs(s.locs)
  }

  ghost predicate DenseTarget(h: Hal, gc: Gc)
    requires HalOk(h)
  {
    gc.Moving? && gc.tgt.Some? && gc.tgt.value < |h.sectors| ==> Dense(h.codec, h.sectors[gc.tgt.value])
  }

  ghost predicate FlashOk(h: Hal, gc: Gc) {
    && HalOk(h)
    && (forall a | 0 <= a < |h.sectors| :: SectorOk(h.codec, h.sectors[a]))
    && GcOk(View(h), gc) && DenseTarget(h, gc)
  }

  /** The pages that count: a partial copy is not one of them, its source still holds everything. */
  ghost function Logical(vs: seq<PageView>, gc: Gc): (r: seq<PageView>)
    ensures |r| == |vs|
  {
    if gc.Moving? && gc.tgt.Some? && gc.tgt.value < |vs| then vs[gc.tgt.value := Free] else vs
  }

  // ---- keys and values ----

  type Contents = map<FullKey, Value>

  function Get(kv: Contents, k: FullKey): Option<Value> { if k in kv then Some(kv[k]) else None }

  /** kv with one key set, or removed. */
  function Update(kv: Contents, k: FullKey, v: Option<Value>): (r: Contents)
    ensures Get(r, k) == v && forall j | j != k :: Get(r, j) == Get(kv, j)
  {
    if v.Some? then kv[k := v.value] else map j | j in kv && j != k :: kv[j]
  }

  /** `loc` is on the page with this sequence number. */
  ghost predicate Has(vs: seq<PageView>, sequence: nat, loc: Loc) {
    exists a: nat :: HasAt(vs, a, sequence, loc)
  }

  ghost predicate HasAt(vs: seq<PageView>, a: nat, sequence: nat, loc: Loc) {
    a < |vs| && vs[a].Used? && vs[a].sequence == sequence && loc in vs[a].locs
  }

  /** `loc` is a head of key k. */
  ghost predicate HeadOf(vs: seq<PageView>, k: FullKey, sequence: nat, loc: Loc) {
    Has(vs, sequence, loc) && KeyOf(loc.rec.item) == k && IsHead(loc.rec)
  }

  /** x was written before y: on an older page, or earlier on the same one. */
  predicate Before(sx: nat, x: Loc, sy: nat, y: Loc) { sx < sy || (sx == sy && x.index < y.index) }

  predicate SamePlaceAs(sx: nat, x: Loc, sy: nat, y: Loc) { sx == sy && x.index == y.index }

  /** Of all the heads of key k that are whole, `loc` is the newest, and it carries v. */
  ghost predicate WinsAt(c: Codec, vs: seq<PageView>, k: FullKey, v: Value, sequence: nat, loc: Loc) {
    && HeadOf(vs, k, sequence, loc) && Carries(c, Bag(vs, k), loc.rec, v)
    && forall s: nat, x: Loc | HeadOf(vs, k, s, x) && Consistent(Bag(vs, k), x.rec) &&
       !SamePlaceAs(s, x, sequence, loc) ::
         Before(s, x, sequence, loc)
  }

  /** What the boot cleanup makes of key k: its newest whole head, if it has one. */
  ghost predicate Wins(c: Codec, vs: seq<PageView>, k: FullKey, v: Option<Value>) {
    && k.ns != 0 && Mixed(c, Bag(vs, k))
    && match v
       case None => forall q | q in Bag(vs, k) && IsHead(q) :: !Consistent(Bag(vs, k), q)
       case Some(x) => exists s: nat, loc: Loc :: WinsAt(c, vs, k, x, s, loc)
  }

  /** The next boot will find v under k. */
  ghost predicate Resolves(c: Codec, vs: seq<PageView>, gc: Gc, k: FullKey, v: Option<Value>) {
    Reads(c, Bag(vs, k), v) || (gc.NoGc? && Wins(c, vs, k, v))
  }

  ghost predicate AllResolve(c: Codec, vs: seq<PageView>, gc: Gc, kv: Contents) {
    forall k: FullKey :: Resolves(c, vs, gc, k, Get(kv, k))
  }

  ghost predicate RecoversIn(h: Hal, kv: Contents, gc: Gc) {
    FlashOk(h, gc) && AllResolve(h.codec, Logical(View(h), gc), gc, kv)
  }

  /** The crash invariant: whatever the power cut left, the flash still stands for kv. */
  ghost predicate Recovers(h: Hal, kv: Contents) { exists gc :: RecoversIn(h, kv, gc) }

  ghost function HBag(h: Hal, k: FullKey): multiset<Rec>
    requires HalOk(h)
  {
    Bag(View(h), k)
  }

  ghost predicate Holds(h: Hal, kv: Contents) {
    HalOk(h) && forall k: FullKey :: Reads(h.codec, HBag(h, k), Get(kv, k))
  }

  ghost predicate AllNeat(h: Hal) {
    HalOk(h) && forall k: FullKey :: Neat(HBag(h, k))
  }

  ghost predicate SameBags(h: Hal, h2: Hal) {
    && HalOk(h) && HalOk(h2) && h2.codec == h.codec && h2.ws == h.ws && |h2.sectors| == |h.sectors|
    && forall k: FullKey :: HBag(h2, k) == HBag(h, k)
  }

  // ---- the instance ----

  ghost predicate Placed(h: Hal, p: ThinPage)
    requires HalOk(h)
  {
    && p.addr < |h.sectors| && PageOk(h.codec, p, h.sectors[p.addr])
    && GoodLocs(h.codec, ScanFrom(h.codec, h.sectors[p.addr], 0))
    && p.state in {Active, Full, Freeing}
  }

  /** A reserve page: nothing on flash, or leftovers that will be erased before its first use. Behind
      a corrupt header it was loaded with whatever entry map is there. */
  ghost predicate FreeOk(h: Hal, p: ThinPage) {
    && p.addr < |h.sectors| && !InUse(h.sectors[p.addr])
    && p.state in {Uninitialized, Corrupt, Invalid} && |p.emap| == MAP_SIZE
    && (if h.sectors[p.addr].header.None? then BlankMap(p.emap) else p.emap == h.sectors[p.addr].emap)
    && p == UninitializedPage(p.addr).(state := p.state, sequence := p.sequence, emap := p.emap)
    && (p.state == Uninitialized ==> h.sectors[p.addr] == ErasedSector())
  }

  /** No page of the reserve has a stale entry map, which free_page would go on with. */
  predicate BlankMaps(free: seq<ThinPage>) { forall i | 0 <= i < |free| :: BlankMap(free[i].emap) }

  /** The sectors the pages of a list lie on. */
  function Addrs(ps: seq<ThinPage>): multiset<nat> {
    if ps == [] then multiset{} else Addrs(ps[..|ps| - 1]) + multiset{ps[|ps| - 1].addr}
  }

  /** The sectors 0, .., n - 1, once each. */
  function AllSectors(n: nat): multiset<nat> {
    if n == 0 then multiset{} else AllSectors(n - 1) + multiset{n - 1}
  }

  ghost predicate Ranked(ps: seq<ThinPage>) {
    forall i, j | 0 <= i < |ps| && 0 <= j < |ps| && i != j :: ps[i].sequence != ps[j].sequence
  }

  /** Pages and reserve partition the sectors, and each agrees with what its sector holds. */
  ghost predicate BaseOk(h: Hal, pages: seq<ThinPage>, free: seq<ThinPage>) {
    && HalOk(h)
    && (forall i | 0 <= i < |pages| :: Placed(h, pages[i]))
    && (forall i | 0 <= i < |free| :: FreeOk(h, free[i]))
    && Ranked(pages)
    && Addrs(pages) + Addrs(free) == AllSectors(|h.sectors|)
  }

  /** Only the last page can be active; it is then the newest, with room for an entry. */
  ghost predicate InstOk(h: Hal, pages: seq<ThinPage>, free: seq<ThinPage>) {
    && BaseOk(h, pages, free) && BlankMaps(free)
    && (forall i | 0 <= i < |pages| :: pages[i].state in {Active, Full})
    && (forall i | 0 <= i < |pages| && pages[i].state == Active ::
          && i == |pages| - 1 && !IsFull(pages[i])
          && forall j | 0 <= j < i :: pages[j].sequence < pages[i].sequence)
  }

  // ---- one sector at a time ----

  lemma ViewTouched(h: Hal, h2: Hal, a: nat)
    requires HalOk(h) && HalOk(h2) && Touched(h, h2, a)
    ensures View(h2) == View(h)[a := ViewOf(h2.codec, h2.sectors[a])]
  {
    hide ViewOf;
    forall b | 0 <= b < |h.sectors| ensures View(h2)[b] == View(h)[a := ViewOf(h2.codec, h2.sectors[a])][b] {
      if b != a { assert h2.sectors[b] == h.sectors[b]; }
    }
  }

  lemma PlacedView(h: Hal, p: ThinPage)
    requires HalOk(h) && Placed(h, p)
    ensures View(h)[p.addr] == Used(p.state, p.sequence, ScanFrom(h.codec, h.sectors[p.addr], 0))
  {
    hide BodyOk, ScanFrom;
  }

  lemma FreeView(h: Hal, p: ThinPage)
    requires HalOk(h) && FreeOk(h, p)
    ensures View(h)[p.addr] == Free
  {}

  lemma BagTouched(h: Hal, h2: Hal, a: nat, k: FullKey)
    requires HalOk(h) && HalOk(h2) && Touched(h, h2, a)
    ensures HBag(h2, k) + PageBag(View(h)[a], k) == HBag(h, k) + PageBag(ViewOf(h2.codec, h2.sectors[a]), k)
  {
    hide ViewOf, Bag, PageBag;
    ViewTouched(h, h2, a);
    BagUpdate(View(h), a, ViewOf(h2.codec, h2.sectors[a]), k);
  }

  lemma Cancel(x: multiset<Rec>, a: multiset<Rec>, y: multiset<Rec>, b: multiset<Rec>)
    requires x + a == y + (a + b)
    ensures x == y + b
  {
    assert y + (a + b) == (y + b) + a;
    CancelSame(x, y + b, a);
  }

  /** An item appended to a page is added to the bag of its key, and to no other. */
  lemma BagAppend(h: Hal, h2: Hal, a: nat, loc: Loc, k: FullKey)
    requires HalOk(h) && HalOk(h2) && Touched(h, h2, a) && InUse(h.sectors[a]) && InUse(h2.sectors[a])
    requires ScanFrom(h2.codec, h2.sectors[a], 0) == ScanFrom(h.codec, h.sectors[a], 0) + [loc]
    ensures HBag(h2, k) == HBag(h, k) + OneOf(loc.rec, k)
  {
    hide ScanFrom, Bag, KeyRecs, OneOf;
    BagTouched(h, h2, a, k);
    KeyRecsSnoc(ScanFrom(h.codec, h.sectors[a], 0), loc, k);
    Cancel(HBag(h2, k), PageBag(View(h)[a], k), HBag(h, k), OneOf(loc.rec, k));
  }

  lemma BagSame(h: Hal, h2: Hal, a: nat, k: FullKey)
    requires HalOk(h) && HalOk(h2) && Touched(h, h2, a)
    requires InUse(h.sectors[a]) <==> InUse(h2.sectors[a])
    requires InUse(h.sectors[a]) ==> ScanFrom(h2.codec, h2.sectors[a], 0) == ScanFrom(h.codec, h.sectors[a], 0)
    ensures HBag(h2, k) == HBag(h, k)
  {
    hide ScanFrom, Bag, KeyRecs;
    BagTouched(h, h2, a, k);
    Cancel(HBag(h2, k), PageBag(View(h)[a], k), HBag(h, k), multiset{});
  }

  /** An item erased is taken out of the bag of its key. */
  lemma BagErase(h: Hal, h2: Hal, a: nat, j: nat, at: nat, k: FullKey)
    requires HalOk(h) && HalOk(h2) && Touched(h, h2, a) && InUse(h.sectors[a]) && InUse(h2.sectors[a])
    requires KeptAt(ScanFrom(h.codec, h.sectors[a], 0), j, at)
    requires ScanFrom(h2.codec, h2.sectors[a], 0) == Without(ScanFrom(h.codec, h.sectors[a], 0), at)
    ensures HBag(h, k) == HBag(h2, k) + OneOf(ScanFrom(h.codec, h.sectors[a], 0)[j].rec, k)
  {
    hide ScanFrom, Bag, KeyRecs, OneOf, Without;
    BagTouched(h, h2, a, k);
    var locs := ScanFrom(h.codec, h.sectors[a], 0);
    ScanOrdered(h.codec, h.sectors[a], 0);
    KeyRecsWithout(locs, j, at, 0, ENTRIES_PER_PAGE, k);
    Cancel(HBag(h, k), KeyRecs(Without(locs, at), k), HBag(h2, k), OneOf(locs[j].rec, k));
  }

  // ---- the partition of the sectors ----

  lemma {:induction false} AllSectorsCount(n: nat, a: nat)
    ensures AllSectors(n)[a] == if a < n then 1 else 0
  {
    if n > 0 { AllSectorsCount(n - 1, a); }
  }

  lemma AddrsSnoc(ps: seq<ThinPage>, p: ThinPage)
    ensures Addrs(ps + [p]) == Addrs(ps) + multiset{p.addr}
  {
    assert (ps + [p])[..|ps|] == ps;
  }

  lemma {:induction false} AddrsSet(ps: seq<ThinPage>, i: nat, p: ThinPage)
    requires i < |ps|
    ensures Addrs(ps[i := p]) + multiset{ps[i].addr} == Addrs(ps) + multiset{p.addr}
  {
    var n := |ps| - 1;
    if i == n {
      assert ps[i := p][..n] == ps[..n];
    } else {
      AddrsSet(ps[..n], i, p);
      assert ps[i := p][..n] == ps[..n][i := p];
      assert ps[i := p][n] == ps[n];
      AddSame(Addrs(ps[..n][i := p]), multiset{ps[i].addr}, Addrs(ps[..n]), multiset{p.addr}, multiset{ps[n].addr});
    }
  }

  lemma {:induction false} AddrsHas(ps: seq<ThinPage>, i: nat)
    requires i < |ps|
    ensures ps[i].addr in Addrs(ps)
  {
    if i < |ps| - 1 { AddrsHas(ps[..|ps| - 1], i); }
  }

  lemma {:induction false} AddrsPair(ps: seq<ThinPage>, i: nat, j: nat)
    requires i < j < |ps|
    ensures multiset{ps[i].addr, ps[j].addr} <= Addrs(ps)
  {
    if j < |ps| - 1 { AddrsPair(ps[..|ps| - 1], i, j); } else { AddrsHas(ps[..j], i); }
  }

  lemma {:induction false} AddrsFind(ps: seq<ThinPage>, a: nat) returns (i: nat)
    requires a in Addrs(ps)
    ensures i < |ps| && ps[i].addr == a
  {
    var n := |ps| - 1;
    if ps[n].addr == a { i := n; } else { i := AddrsFind(ps[..n], a); }
  }

  lemma PagesApart(h: Hal, pages: seq<ThinPage>, free: seq<ThinPage>, i: nat, j: nat)
    requires BaseOk(h, pages, free) && i < |pages| && j < |pages| && i != j
    ensures pages[i].addr != pages[j].addr
  {
    hide Addrs, AllSectors, Placed, FreeOk;
    AllSectorsCount(|h.sectors|, pages[i].addr);
    if i < j { AddrsPair(pages, i, j); } else { AddrsPair(pages, j, i); }
  }

  lemma FreeApart(h: Hal, pages: seq<ThinPage>, free: seq<ThinPage>, i: nat, j: nat)
    requires BaseOk(h, pages, free) && i < |free| && j < |free| && i != j
    ensures free[i].addr != free[j].addr
  {
    hide Addrs, AllSectors, Placed, FreeOk;
    AllSectorsCount(|h.sectors|, free[i].addr);
    if i < j { AddrsPair(free, i, j); } else { AddrsPair(free, j, i); }
  }

  lemma PageFreeApart(h: Hal, pages: seq<ThinPage>, free: seq<ThinPage>, i: nat, j: nat)
    requires BaseOk(h, pages, free) && i < |pages| && j < |free|
    ensures pages[i].addr != free[j].addr
  {
    hide Addrs, AllSectors, Placed, FreeOk;
    AllSectorsCount(|h.sectors|, pages[i].addr);
    AddrsHas(pages, i);
    AddrsHas(free, j);
  }

  /** Every sector in use belongs to one of the pages. */
  lemma PageOfSector(h: Hal, pages: seq<ThinPage>, free: seq<ThinPage>, a: nat) returns (i: nat)
    requires BaseOk(h, pages, free) && a < |h.sectors| && View(h)[a].Used?
    ensures i < |pages| && pages[i].addr == a
    ensures View(h)[a] == Used(pages[i].state, pages[i].sequence, ScanFrom(h.codec, h.sectors[a], 0))
  {
    hide Addrs, AllSectors, Placed, FreeOk;
    AllSectorsCount(|h.sectors|, a);
    if a in Addrs(pages) {
      i := AddrsFind(pages, a);
      PlacedView(h, pages[i]);
    } else {
      var j := AddrsFind(free, a);
      FreeView(h, free[j]);
      assert false;
    }
  }
}
