/** Setting a key: the new item is written next to the old one, which is erased after. */
module Setting {
  import opened Types
  import opened Sectors
  import opened Flash
  import opened Pages
  import opened PageOps
  import opened Scan
  import opened Store
  import opened Instance
  import opened Moves
  import opened Compaction
  import opened Lookup
  import opened Transfer
  import opened Changes
  import opened Names
  import opened BlobReads

  /** Between two calls: the instance is sound, every key reads its value, no chunk is left over. */
  ghost predicate Steady(h: Hal, ps: seq<ThinPage>, fr: seq<ThinPage>, kv: Contents) {
    InstOk(h, ps, fr) && Holds(h, kv) && AllNeat(h)
  }

  /** As between two calls, but for leftover chunks of key k. */
  ghost predicate Open(h: Hal, ps: seq<ThinPage>, fr: seq<ThinPage>, kv: Contents, k: FullKey) {
    && InstOk(h, ps, fr) && Holds(h, kv)
    && forall j: FullKey | j != k :: Neat(HBag(h, j))
  }

  /** The new head r of key k was written next to the old one, q, which is to be erased now. */
  ghost predicate Pending(h: Hal, ps: seq<ThinPage>, fr: seq<ThinPage>, kv: Contents, k: FullKey, q: Rec, r: Rec) {
    && InstOk(h, ps, fr) && Recovers(h, kv) && HalOk(h)
    && (forall j: FullKey | j != k :: Reads(h.codec, HBag(h, j), Get(kv, j)) && Neat(HBag(h, j)))
    && PendingBag(h.codec, HBag(h, k), Get(kv, k), q, r)
    && (forall x | FirstHead(h, ps, k, x) :: x == q)
  }

  ghost predicate PendingBag(c: Codec, b: multiset<Rec>, w: Option<Value>, q: Rec, r: Rec) {
    && q in b && r in b - multiset{q} && IsHead(q) && IsHead(r) && Typed(c, q)
    && (forall x | x in b && IsHead(x) :: x == q || x == r)
    && w.Some? && Reads(c, b - multiset{q}, w)
    && Neat(b) && !SameVersion(q, r)
  }

  /** r is a head of key k that carries w once it is written next to what key k has. */
  ghost predicate NewHead(h: Hal, k: FullKey, r: Rec, w: Value)
    requires HalOk(h)
  {
    && KeyOf(r.item) == k && IsHead(r) && GoodRec(h.codec, r)
    && (k.ns == 0 ==> forall q | q in HBag(h, k) :: !IsHead(q))
    && Carries(h.codec, HBag(h, k) + multiset{r}, r, w)
    && Neat(HBag(h, k) + multiset{r})
    && forall q | q in HBag(h, k) && IsHead(q) :: !SameVersion(q, r)
  }

  function RawValue(typ: ItemType, value: seq<byte>): (raw: seq<byte>)
    requires PrimitiveWidth(typ).Some? && |value| == 8
    ensures |raw| == 8
  {
    var w := PrimitiveWidth(typ).value;
    value[..w] + Ones(8 - w)
  }

  function PrimValue(typ: ItemType, value: seq<byte>): Value
    requires PrimitiveWidth(typ).Some? && |value| == 8
  {
    Prim(typ, RawValue(typ, value))
  }

  lemma SteadyKept(h0: Hal, ps0: seq<ThinPage>, fr0: seq<ThinPage>, h: Hal, ps: seq<ThinPage>, fr: seq<ThinPage>,
                   kv: Contents)
    requires Steady(h0, ps0, fr0, kv) && InstOk(h, ps, fr) && SameBags(h0, h)
    ensures Steady(h, ps, fr, kv)
  {
    hide InstOk, Bag, View, Reads, Neat;
    forall k: FullKey ensures Reads(h.codec, HBag(h, k), Get(kv, k)) && Neat(HBag(h, k)) {
      assert HBag(h, k) == HBag(h0, k);
    }
  }

  lemma KeptRecovers(h0: Hal, h: Hal, kv: Contents)
    requires Holds(h0, kv) && FlashOk(h, NoGc) && SameBags(h0, h)
    ensures Recovers(h, kv)
  {
    hide Bag, View, Reads, FlashOk;
    forall k: FullKey ensures Reads(h.codec, HBag(h, k), Get(kv, k)) {
      assert HBag(h, k) == HBag(h0, k);
    }
    FlashHal(h, NoGc);
    HoldsRecovers(h, kv, NoGc);
  }

  lemma SteadyInterrupted(h0: Hal, ps0: seq<ThinPage>, fr0: seq<ThinPage>, h: Hal, kv: Contents)
    requires Steady(h0, ps0, fr0, kv) && Cut(h0, h)
    ensures Recovers(h, kv)
  {
    hide InstOk, Cut, Holds;
    CutRecovers(h0, h, kv);
  }

  lemma SteadyRecovers(h: Hal, ps: seq<ThinPage>, fr: seq<ThinPage>, kv: Contents)
    requires Steady(h, ps, fr, kv)
    ensures Recovers(h, kv) && FlashOk(h, NoGc)
  {
    hide InstOk, Holds, FlashOk;
    InstIdle(h, ps, fr);
    HoldsRecovers(h, kv, NoGc);
  }

  /** The flash in the moment old and new head are both on it. */
  lemma DoubledRecovers(h: Hal, ps: seq<ThinPage>, p: ThinPage, fr: seq<ThinPage>, kv: Contents, h2: Hal, r: Rec,
                        k: FullKey, w: Value, st: PageState)
    requires Open(h, ps + [p], fr, kv, k) && p.state == Active && NewHead(h, k, r, w) && k.ns != 0
    requires Added(h, h2, r) && FlashOk(h2, NoGc) && p.addr < |h.sectors|
    requires View(h2) == View(h)[p.addr := Used(st, p.sequence, LocsOf(h, p) + [Loc(NextFree(p), r)])]
    ensures Recovers(h2, Update(kv, k, Some(w)))
  {
    hide Bag, View, Reads, FlashOk, InstOk, GoodRec, Carries, Neat, LocsOf, SameBags, Wins;
    var kv2 := Update(kv, k, Some(w));
    var vs := View(h2);
    forall j: FullKey ensures Resolves(h2.codec, vs, NoGc, j, Get(kv2, j)) {
      assert HBag(h2, j) == HBag(h, j) + OneOf(r, j);
      if j != k {
        assert HBag(h2, j) == HBag(h, j);
        assert Reads(h2.codec, Bag(vs, j), Get(kv2, j));
      } else {
        assert Get(kv2, j) == Some(w);
        NewestWins(h, ps, p, fr, kv, h2, r, k, w, st);
      }
    }
    assert Logical(vs, NoGc) == vs;
    assert RecoversIn(h2, kv2, NoGc);
  }

  /** An item just appended is the newest of all. */
  lemma NewestWins(h: Hal, ps: seq<ThinPage>, p: ThinPage, fr: seq<ThinPage>, kv: Contents, h2: Hal, r: Rec, k: FullKey,
                   w: Value, st: PageState)
    requires Open(h, ps + [p], fr, kv, k) && p.state == Active && NewHead(h, k, r, w) && k.ns != 0
    requires Added(h, h2, r) && p.addr < |h.sectors|
    requires View(h2) == View(h)[p.addr := Used(st, p.sequence, LocsOf(h, p) + [Loc(NextFree(p), r)])]
    ensures Wins(h2.codec, View(h2), k, Some(w))
  {
    hide Bag, View, Reads, InstOk, GoodRec, Carries, Neat, LocsOf, BaseOk, Consistent, Mixed, SameVersion;
    var vs, loc := View(h2), Loc(NextFree(p), r);
    InstSequences(h, ps + [p], fr);
    BaseHal(h, ps + [p], fr);
    assert HBag(h2, k) == HBag(h, k) + OneOf(r, k);
    assert Reads(h.codec, HBag(h, k), Get(kv, k));
    CarriesIn(h.codec, HBag(h, k) + multiset{r}, r, w);
    AddMixed(h.codec, HBag(h, k), Get(kv, k), r);
    assert (LocsOf(h, p) + [loc])[|LocsOf(h, p)|] == loc;
    assert HasAt(vs, p.addr, p.sequence, loc);
    forall s: nat, x: Loc | HeadOf(vs, k, s, x) && !SamePlaceAs(s, x, p.sequence, loc)
      ensures Before(s, x, p.sequence, loc)
    {
      var a: nat :| HasAt(vs, a, s, x);
      OlderHere(h, ps, p, fr, vs, a, s, x, loc, st);
    }
    assert WinsAt(h2.codec, vs, k, w, p.sequence, loc);
  }

  lemma OlderHere(h: Hal, ps: seq<ThinPage>, p: ThinPage, fr: seq<ThinPage>, vs: seq<PageView>, a: nat, s: nat, x: Loc,
                  loc: Loc, st: PageState)
    requires InstOk(h, ps + [p], fr) && p.state == Active && HalOk(h) && p.addr < |h.sectors|
    requires vs == View(h)[p.addr := Used(st, p.sequence, LocsOf(h, p) + [loc])] && loc.index == NextFree(p)
    requires HasAt(vs, a, s, x) && !SamePlaceAs(s, x, p.sequence, loc)
    ensures Before(s, x, p.sequence, loc)
  {
    hide View, InstOk, LocsOf, BaseOk;
    var all := ps + [p];
    assert all[|ps|] == p;
    InstSequences(h, all, fr);
    if a == p.addr {
      assert x != loc;
      var j :| 0 <= j < |LocsOf(h, p)| && LocsOf(h, p)[j] == x;
      OlderFirst(h, ps, p, fr, |ps|, j);
    } else {
      assert vs[a] == View(h)[a];
      var i := PageOfSector(h, all, fr, a);
      if i == |ps| { assert false; }
      var j :| 0 <= j < |vs[a].locs| && vs[a].locs[j] == x;
      PageLocs(h, all, fr, i);
      OlderFirst(h, ps, p, fr, i, j);
    }
  }

  lemma PageLocs(h: Hal, ps: seq<ThinPage>, fr: seq<ThinPage>, i: nat)
    requires BaseOk(h, ps, fr) && HalOk(h) && i < |ps|
    ensures ps[i].addr < |h.sectors| && View(h)[ps[i].addr] == Used(ps[i].state, ps[i].sequence, LocsOf(h, ps[i]))
  {
    hide BaseOk, ScanFrom;
    BasePlaced(h, ps, fr, i);
    PlacedView(h, ps[i]);
  }

  lemma AddMixed(c: Codec, b: multiset<Rec>, v: Option<Value>, r: Rec)
    requires Reads(c, b, v) && IsHead(r) && Typed(c, r) && forall q | q in b && IsHead(q) :: !SameVersion(q, r)
    ensures Mixed(c, b + multiset{r})
  {
    hide Typed;
    var b2 := b + multiset{r};
    forall x | x in b2 && (!IsHead(x) || x.item.data.Index?) ensures b2[x] == 1 {
      if x != r { assert x in b; } else { assert r in b ==> !SameVersion(r, r); }
    }
    forall x | x in b2 ensures Typed(c, x) { if x != r { assert x in b; } }
  }

  /** What is on the pages already comes before the next item of the active page. */
  lemma OlderFirst(h: Hal, ps: seq<ThinPage>, p: ThinPage, fr: seq<ThinPage>, x: nat, y: nat)
    requires InstOk(h, ps + [p], fr) && p.state == Active && x < |ps| + 1 && HalOk(h) && y < |LocsOf(h, (ps + [p])[x])|
    ensures x < |ps| ==> (ps + [p])[x].sequence < p.sequence
    ensures x == |ps| ==> LocsOf(h, p)[y].index < NextFree(p)
  {
    hide ScanFrom, Addrs, AllSectors, FreeOk, Tidy, GoodLocs;
    var all := ps + [p];
    assert all[|ps|] == p;
    if x == |ps| {
      ScanWritten(h.codec, h.sectors[p.addr], 0, NextFree(p));
    }
  }

  /** The power went while the new head was being written: old value or new. */
  lemma TornSet(h: Hal, ps: seq<ThinPage>, p: ThinPage, fr: seq<ThinPage>, kv: Contents, h2: Hal, k: FullKey, r: Rec,
                w: Value)
    requires Open(h, ps + [p], fr, kv, k) && p.state == Active && NewHead(h, k, r, w)
    requires HalOk(h2) && p.addr < |h.sectors| && TornAppend(h, p, h2, r)
    ensures Recovers(h2, kv) || Recovers(h2, Update(kv, k, Some(w)))
    ensures h2.budget == Some(0)
  {
    hide Bag, View, Reads, FlashOk, InstOk, GoodRec, Carries, Neat, LocsOf, SameBags, Appended, TornAppend, Recovers;
    TornInst(h, h2, ps, p, fr, r);
    if SameBags(h, h2) {
      KeptRecovers(h, h2, kv);
    } else {
      HeadRecovers(h, ps, p, fr, kv, h2, r, k, w, Active);
    }
  }

  lemma HeadRecovers(h: Hal, ps: seq<ThinPage>, p: ThinPage, fr: seq<ThinPage>, kv: Contents, h2: Hal, r: Rec,
                     k: FullKey, w: Value, st: PageState)
    requires Open(h, ps + [p], fr, kv, k) && p.state == Active && NewHead(h, k, r, w)
    requires Added(h, h2, r) && FlashOk(h2, NoGc) && p.addr < |h.sectors|
    requires View(h2) == View(h)[p.addr := Used(st, p.sequence, LocsOf(h, p) + [Loc(NextFree(p), r)])]
    ensures Recovers(h2, Update(kv, k, Some(w)))
  {
    hide Bag, View, Reads, FlashOk, InstOk, GoodRec, Carries, Neat, LocsOf, SameBags, Recovers;
    if k.ns != 0 {
      DoubledRecovers(h, ps, p, fr, kv, h2, r, k, w, st);
    } else {
      NoHeadYet(h, ps + [p], fr, kv, k);
      FirstHolds(h, ps + [p], fr, kv, h2, r, k, w);
      HoldsRecovers(h2, Update(kv, k, Some(w)), NoGc);
    }
  }

  lemma NoHeadYet(h: Hal, ps: seq<ThinPage>, fr: seq<ThinPage>, kv: Contents, k: FullKey)
    requires Open(h, ps, fr, kv, k) && HalOk(h) && forall q | q in HBag(h, k) :: !IsHead(q)
    ensures Get(kv, k).None?
  {
    hide Bag, View, Reads, InstOk, Neat;
    assert Reads(h.codec, HBag(h, k), Get(kv, k));
    OnlyHead(h.codec, HBag(h, k), Get(kv, k));
  }

  /** A key that had no value has one now. */
  lemma FirstHolds(h: Hal, ps: seq<ThinPage>, fr: seq<ThinPage>, kv: Contents, h2: Hal, r: Rec, k: FullKey, w: Value)
    requires Open(h, ps, fr, kv, k) && NewHead(h, k, r, w) && Added(h, h2, r) && Get(kv, k).None?
    ensures Holds(h2, Update(kv, k, Some(w))) && AllNeat(h2)
  {
    hide Bag, View, Reads, InstOk, GoodRec, Carries, Neat;
    var kv2 := Update(kv, k, Some(w));
    forall j: FullKey ensures Reads(h2.codec, HBag(h2, j), Get(kv2, j)) && Neat(HBag(h2, j)) {
      assert HBag(h2, j) == HBag(h, j) + OneOf(r, j);
      assert Reads(h.codec, HBag(h, j), Get(kv, j));
      if j == k {
        CarriesIn(h.codec, HBag(h, k) + multiset{r}, r, w);
        Takeover(h.codec, HBag(h, k), Get(kv, k), r, w);
      } else {
        assert HBag(h2, j) == HBag(h, j);
      }
    }
  }

  /** The new head is written: it is now the only one, or the old one is to go. */
  lemma WrittenSet(h: Hal, ps: seq<ThinPage>, p: ThinPage, fr: seq<ThinPage>, kv: Contents, h2: Hal, p2: ThinPage,
                   k: FullKey, r: Rec, w: Value)
    requires Open(h, ps + [p], fr, kv, k) && p.state == Active && NewHead(h, k, r, w)
    requires HalOk(h2) && p.addr < |h.sectors| && Appended(h, p, h2, p2, r)
    ensures InstOk(h2, ps + [p2], fr) && Recovers(h2, Update(kv, k, Some(w)))
    ensures Get(kv, k).None? ==> Steady(h2, ps + [p2], fr, Update(kv, k, Some(w)))
    ensures Get(kv, k).Some? ==> forall q | q in HBag(h, k) && IsHead(q) ::
              Pending(h2, ps + [p2], fr, Update(kv, k, Some(w)), k, q, r)
    ensures LocsOf(h2, p2) == LocsOf(h, p) + [Loc(NextFree(p), r)] && p2.addr == p.addr && Added(h, h2, r)
    ensures forall i | 0 <= i < |ps| :: LocsOf(h2, ps[i]) == LocsOf(h, ps[i])
  {
    hide Bag, View, Reads, FlashOk, InstOk, GoodRec, Carries, Neat, LocsOf, SameBags, Appended, Recovers, FirstHead,
         PendingBag;
    AppendedInst(h, h2, ps, p, p2, fr, r);
    InstLast(h2, ps, p2, fr);
    InstView(h, ps, p, fr, h2, p2, r);
    InstIdle(h2, ps + [p2], fr);
    HeadRecovers(h, ps, p, fr, kv, h2, r, k, w, p2.state);
    if Get(kv, k).None? {
      FirstHolds(h, ps + [p], fr, kv, h2, r, k, w);
    } else {
      forall q | q in HBag(h, k) && IsHead(q)
        ensures Pending(h2, ps + [p2], fr, Update(kv, k, Some(w)), k, q, r)
      {
        PendingHere(h, ps, p, fr, kv, h2, p2, k, q, r, w);
      }
    }
  }

  lemma PendingHere(h: Hal, ps: seq<ThinPage>, p: ThinPage, fr: seq<ThinPage>, kv: Contents, h2: Hal, p2: ThinPage,
                    k: FullKey, q: Rec, r: Rec, w: Value)
    requires Open(h, ps + [p], fr, kv, k) && p.state == Active && NewHead(h, k, r, w) && q in HBag(h, k) && IsHead(q)
    requires Added(h, h2, r) && InstOk(h2, ps + [p2], fr) && Recovers(h2, Update(kv, k, Some(w)))
    requires LocsOf(h2, p2) == LocsOf(h, p) + [Loc(NextFree(p), r)]
    requires forall i | 0 <= i < |ps| :: LocsOf(h2, ps[i]) == LocsOf(h, ps[i])
    ensures Pending(h2, ps + [p2], fr, Update(kv, k, Some(w)), k, q, r)
  {
    hide Bag, View, Reads, InstOk, GoodRec, Carries, Neat, LocsOf, Recovers, FirstHead, PendingBag;
    var kv2 := Update(kv, k, Some(w));
    forall j: FullKey | j != k ensures Reads(h2.codec, HBag(h2, j), Get(kv2, j)) && Neat(HBag(h2, j)) {
      assert HBag(h2, j) == HBag(h, j) + OneOf(r, j);
      assert HBag(h2, j) == HBag(h, j);
      assert Reads(h.codec, HBag(h, j), Get(kv, j)) && Neat(HBag(h, j));
    }
    assert HBag(h2, k) == HBag(h, k) + OneOf(r, k);
    assert Reads(h.codec, HBag(h, k), Get(kv, k));
    PendingFrom(h.codec, HBag(h, k), Get(kv, k), q, r, w);
    forall x | FirstHead(h2, ps + [p2], k, x) ensures x == q {
      FirstIsOld(h, ps, p, fr, kv, h2, p2, k, q, r, x);
    }
  }

  lemma PendingFrom(c: Codec, b: multiset<Rec>, v: Option<Value>, q: Rec, r: Rec, w: Value)
    requires Reads(c, b, v) && Neat(b + multiset{r}) && q in b && IsHead(q) && IsHead(r)
    requires Carries(c, b + multiset{r}, r, w) && !SameVersion(q, r)
    ensures PendingBag(c, b + multiset{r}, Some(w), q, r)
  {
    hide Carries, Neat, Typed;
    CarriesIn(c, b + multiset{r}, r, w);
    OnlyHead(c, b, v);
    Takeover(c, b, v, r, w);
    var b1 := b + multiset{r};
    forall x | x in b1 && IsHead(x) ensures x == q || x == r { if x != r { assert x in b; } }
  }

  /** load_item finds the old head: the new one is the last item of the last page. */
  lemma FirstIsOld(h: Hal, ps: seq<ThinPage>, p: ThinPage, fr: seq<ThinPage>, kv: Contents, h2: Hal, p2: ThinPage,
                   k: FullKey, q: Rec, r: Rec, x: Rec)
    requires Open(h, ps + [p], fr, kv, k) && q in HBag(h, k) && IsHead(q) && HalOk(h2)
    requires LocsOf(h2, p2) == LocsOf(h, p) + [Loc(NextFree(p), r)]
    requires forall i | 0 <= i < |ps| :: LocsOf(h2, ps[i]) == LocsOf(h, ps[i])
    requires FirstHead(h2, ps + [p2], k, x)
    ensures x == q
  {
    hide Bag, View, Reads, InstOk, Neat, LocsOf;
    hide FirstHeadAt, Holds, AllNeat;
    var all, all2 := ps + [p], ps + [p2];
    var i, j, f :| FirstHeadAt(h2, all2, k, x, i, j, f);
    FirstHeadLoc(h2, all2, k, x, i, j, f);
    InstSequences(h, all, fr);
    var a, b := BagOnPage(h, all, fr, k, q);
    NotLast(h, ps, p, h2, p2, k, q, r, x, i, j, f, a, b);
    SamePlace(h, ps, p, h2, p2, r, i, j);
    SameHead(h, all, fr, kv, k, q, i, j);
  }

  /** A key with a single value has a single head. */
  lemma SameHead(h: Hal, ps: seq<ThinPage>, fr: seq<ThinPage>, kv: Contents, k: FullKey, q: Rec, i: nat, j: nat)
    requires Open(h, ps, fr, kv, k) && q in HBag(h, k) && IsHead(q)
    requires i < |ps| && j < |LocsOf(h, ps[i])|
    requires KeyOf(LocsOf(h, ps[i])[j].rec.item) == k && LocsOf(h, ps[i])[j].rec.item.chunk == NO_CHUNK
    ensures LocsOf(h, ps[i])[j].rec == q
  {
    hide Bag, View, Reads, InstOk, Neat, LocsOf, BaseOk;
    InstSequences(h, ps, fr);
    LocInBag(h, ps, fr, i, j);
    assert Reads(h.codec, HBag(h, k), Get(kv, k));
    ReadsHead(h.codec, HBag(h, k), Get(kv, k), LocsOf(h, ps[i])[j].rec);
    OnlyHead(h.codec, HBag(h, k), Get(kv, k));
  }

  lemma SamePlace(h: Hal, ps: seq<ThinPage>, p: ThinPage, h2: Hal, p2: ThinPage, r: Rec, i: nat, j: nat)
    requires HalOk(h) && HalOk(h2) && i < |ps| + 1 && j < |LocsOf(h2, (ps + [p2])[i])|
    requires LocsOf(h2, p2) == LocsOf(h, p) + [Loc(NextFree(p), r)]
    requires forall x | 0 <= x < |ps| :: LocsOf(h2, ps[x]) == LocsOf(h, ps[x])
    requires i < |ps| || j < |LocsOf(h, p)|
    ensures j < |LocsOf(h, (ps + [p])[i])| && LocsOf(h2, (ps + [p2])[i])[j] == LocsOf(h, (ps + [p])[i])[j]
  {
    hide LocsOf;
  }

  /** An old head at (a, b) is found before the item just written. */
  lemma NotLast(h: Hal, ps: seq<ThinPage>, p: ThinPage, h2: Hal, p2: ThinPage, k: FullKey, q: Rec, r: Rec, x: Rec,
                i: nat, j: nat, f: Found, a: nat, b: nat)
    requires HalOk(h) && HalOk(h2) && FirstHeadAt(h2, ps + [p2], k, x, i, j, f)
    requires LocsOf(h2, p2) == LocsOf(h, p) + [Loc(NextFree(p), r)]
    requires forall x | 0 <= x < |ps| :: LocsOf(h2, ps[x]) == LocsOf(h, ps[x])
    requires a < |ps| + 1 && b < |LocsOf(h, (ps + [p])[a])| && LocsOf(h, (ps + [p])[a])[b].rec == q
    requires KeyOf(q.item) == k && IsHead(q)
    ensures i < |ps| || j < |LocsOf(h, p)|
  {
    hide LocsOf;
    assert Matches(q.item, k.ns, k.key, NO_CHUNK);
    SamePlace(h, ps, p, h2, p2, r, a, b);
    var locs := LocsOf(h2, (ps + [p2])[a]);
    assert locs[b].rec == q;
    if a == |ps| && i == |ps| { FirstBefore(locs, j, f, k, b); }
  }

  lemma PendingMayGo(h: Hal, ps: seq<ThinPage>, fr: seq<ThinPage>, kv: Contents, k: FullKey, q: Rec, r: Rec)
    requires Pending(h, ps, fr, kv, k, q, r)
    ensures HeadMayGo(h, ps, k, Get(kv, k)) && FlashOk(h, NoGc)
  {
    hide Bag, View, Reads, InstOk, Neat, LocsOf, FirstHead, Recovers, FlashOk, Typed;
    InstIdle(h, ps, fr);
    PendingUnowned(h.codec, HBag(h, k), Get(kv, k), q, r);
  }

  lemma PendingUnowned(c: Codec, b: multiset<Rec>, w: Option<Value>, q: Rec, r: Rec)
    requires PendingBag(c, b, w, q, r)
    ensures q.item.data.Index? ==> Unowned(b - multiset{q}, q.item.data.start)
  {
    hide Typed, Reads, Neat;
    if q.item.data.Index? {
      var b2 := b - multiset{q};
      forall o | Owns(b2, o, q.item.data.start) ensures false {
        assert o in b;
        if o == q { TwoSame(c, b, w, q, r); }
      }
    }
  }

  lemma TwoSame(c: Codec, b: multiset<Rec>, w: Option<Value>, q: Rec, r: Rec)
    requires PendingBag(c, b, w, q, r) && q in b - multiset{q}
    ensures q == r
  {
    hide Typed, Neat;
    var b2 := b - multiset{q};
    assert r.item.chunk == q.item.chunk;
  }

  /** The old head is gone, and with it its chunks: the key reads its new value, and is neat. */
  lemma PendingDone(h: Hal, ps: seq<ThinPage>, fr: seq<ThinPage>, kv: Contents, k: FullKey, q: Rec, r: Rec, h2: Hal,
                    ps2: seq<ThinPage>)
    requires Pending(h, ps, fr, kv, k, q, r) && HeadDeleted(h, h2, k, q) && InstOk(h2, ps2, fr)
    ensures Steady(h2, ps2, fr, kv)
  {
    hide Bag, View, InstOk, Neat, LocsOf, FirstHead, Recovers, Typed, Reads, Shed;
    PendingUnowned(h.codec, HBag(h, k), Get(kv, k), q, r);
    PendingReads(h.codec, HBag(h, k), Get(kv, k), q, r, HBag(h2, k));
    PendingNeat(h.codec, HBag(h, k), Get(kv, k), q, r, HBag(h2, k));
    forall j: FullKey ensures Reads(h2.codec, HBag(h2, j), Get(kv, j)) && Neat(HBag(h2, j)) {
      if j != k { assert HBag(h2, j) == HBag(h, j); }
    }
  }

  ghost predicate BagGoing(b: multiset<Rec>, b2: multiset<Rec>, q: Rec) {
    if q.item.typ == BlobIndex && q.item.data.Index? then Shed(b - multiset{q}, b2, q.item.data.start)
    else b2 == b - multiset{q}
  }

  lemma PendingReads(c: Codec, b: multiset<Rec>, w: Option<Value>, q: Rec, r: Rec, b2: multiset<Rec>)
    requires PendingBag(c, b, w, q, r) && BagGoing(b, b2, q)
    ensures Reads(c, b2, w)
  {
    hide Typed, Neat, Reads;
    PendingUnowned(c, b, w, q, r);
    if q.item.typ == BlobIndex && q.item.data.Index? {
      ShedReads(c, b - multiset{q}, b2, q.item.data.start, w);
    }
  }

  lemma PendingNeat(c: Codec, b: multiset<Rec>, w: Option<Value>, q: Rec, r: Rec, b2: multiset<Rec>)
    requires PendingBag(c, b, w, q, r) && BagGoing(b, b2, q)
    requires q.item.typ == BlobIndex && q.item.data.Index? ==> NoChunks(b2, q.item.data.start, MAX_BLOB_CHUNK_COUNT)
    ensures Neat(b2)
  {
    hide Reads, Neat;
    PendingReads(c, b, w, q, r, b2);
    ReadsRegular(c, b2, w);
    assert r in b2;
    if q.item.typ == BlobIndex && q.item.data.Index? { SweptAll(c, b2, q.item.data.start); }
    NeatAfter(c, b, q, r, b2);
  }

  /** The sweep covers every chunk index a version can have. */
  lemma SweptAll(c: Codec, b: multiset<Rec>, start: nat)
    requires Lean(c, b) && start in {0, 0x80} && NoChunks(b, start, MAX_BLOB_CHUNK_COUNT)
    ensures forall x | x in b && !IsHead(x) :: VersionOf(x.item.chunk) != start
  {
    forall x | x in b && !IsHead(x) ensures VersionOf(x.item.chunk) != start { assert Typed(c, x); }
  }

  lemma ReadsRegular(c: Codec, b: multiset<Rec>, v: Option<Value>)
    requires Reads(c, b, v)
    ensures Regular(c, b) && Lean(c, b)
  {}

  lemma PendingGoing(h: Hal, ps: seq<ThinPage>, fr: seq<ThinPage>, kv: Contents, k: FullKey, q: Rec, r: Rec, h2: Hal)
    requires Pending(h, ps, fr, kv, k, q, r) && HeadGoing(h, h2, k, q) && FlashOk(h2, NoGc)
    ensures Recovers(h2, kv)
  {
    hide Bag, View, InstOk, Neat, LocsOf, FirstHead, Recovers, Typed, Reads, Shed, FlashOk;
    PendingReads(h.codec, HBag(h, k), Get(kv, k), q, r, HBag(h2, k));
    forall j: FullKey ensures Reads(h2.codec, HBag(h2, j), Get(kv, j)) {
      if j != k { assert HBag(h2, j) == HBag(h, j); }
    }
    HoldsRecovers(h2, kv, NoGc);
  }

  lemma SteadyInst(h: Hal, ps: seq<ThinPage>, fr: seq<ThinPage>, kv: Contents)
    requires Steady(h, ps, fr, kv)
    ensures InstOk(h, ps, fr) && BaseOk(h, ps, fr) && HalOk(h)
  {
    hide BaseOk;
    InstSequences(h, ps, fr);
  }

  lemma SteadyLast(h: Hal, ps: seq<ThinPage>, p: ThinPage, fr: seq<ThinPage>, kv: Contents)
    requires Steady(h, ps + [p], fr, kv)
    ensures HalOk(h) && p.addr < |h.sectors| && Placed(h, p) && p.state in {Active, Full}
    ensures !IsFull(p) ==> InstOk(h, ps + [p], fr)
    ensures IsFull(p) ==> p.state == Full
    ensures p.state == Active ==> !IsFull(p)
  {
    hide BaseOk, Holds, AllNeat;
    InstLast(h, ps, p, fr);
    assert (ps + [p])[|ps|] == p;
  }

  /** What load_item found under a key, in terms of its value. */
  lemma FindHead(h: Hal, ps: seq<ThinPage>, fr: seq<ThinPage>, kv: Contents, k: FullKey, found: Option<Found>, j: nat)
    returns (q: Rec)
    requires Steady(h, ps, fr, kv) && k.ns != 0 && HalOk(h)
    requires found.None? ==> forall i | 0 <= i < |ps| :: NoneMatches(LocsOf(h, ps[i]), k.ns, k.key, NO_CHUNK)
    requires found.Some? ==> found.value.page < |ps|
    requires found.Some? ==> FirstMatch(LocsOf(h, ps[found.value.page]), j, found.value, k.ns, k.key, NO_CHUNK)
    requires found.Some? ==>
               forall i | 0 <= i < found.value.page :: NoneMatches(LocsOf(h, ps[i]), k.ns, k.key, NO_CHUNK)
    ensures found.None? <==> Get(kv, k).None?
    ensures found.Some? ==> j < |LocsOf(h, ps[found.value.page])| && LocsOf(h, ps[found.value.page])[j].rec == q
    ensures found.Some? ==> KeptAt(LocsOf(h, ps[found.value.page]), j, found.value.index)
    ensures found.Some? ==> q in HBag(h, k) && IsHead(q) && q.item == found.value.item && KeyOf(q.item) == k
    ensures found.Some? ==> GoodRec(h.codec, q) && Carries(h.codec, HBag(h, k), q, Get(kv, k).value)
  {
    hide BaseOk, Bag, View, Reads, Neat, NoneMatches, LocsOf, Typed, Carries;
    SteadyInst(h, ps, fr, kv);
    assert Reads(h.codec, HBag(h, k), Get(kv, k));
    OnlyHead(h.codec, HBag(h, k), Get(kv, k));
    if found.None? {
      NotInBag(h, ps, fr, k.ns, k.key, NO_CHUNK);
      q := Rec(Item(0, Any, 0, 0, k.key, Raw([])), []);
    } else {
      var f := found.value;
      q := LocsOf(h, ps[f.page])[j].rec;
      FoundInBag(h, ps, fr, k.ns, k.key, NO_CHUNK, f, j);
      LocGood(h, ps, fr, f.page, j);
      ReadsHead(h.codec, HBag(h, k), Get(kv, k), q);
      HeadCarries(h.codec, HBag(h, k), Get(kv, k), q);
    }
  }

  lemma HeadCarries(c: Codec, b: multiset<Rec>, v: Option<Value>, q: Rec)
    requires Reads(c, b, v) && q in b && IsHead(q)
    ensures v.Some? && Carries(c, b, q, v.value)
  {
    hide Carries, Typed;
    OnlyHead(c, b, v);
    var r :| Carries(c, b, r, v.value);
    CarriesIn(c, b, r, v.value);
  }

  lemma CarriesIn(c: Codec, b: multiset<Rec>, r: Rec, v: Value)
    requires Carries(c, b, r, v)
    ensures r in b && IsHead(r) && Typed(c, r)
  {}

  lemma SameValue(h: Hal, ps: seq<ThinPage>, fr: seq<ThinPage>, kv: Contents, k: FullKey, q: Rec, v: Value)
    requires HalOk(h)
    requires Carries(h.codec, HBag(h, k), q, v) ||
             (v.Prim? && q.item.typ == v.typ && PrimitiveWidth(v.typ).Some? && q.item.data == Raw(v.raw))
    requires Steady(h, ps, fr, kv) && q in HBag(h, k) && IsHead(q) && Typed(h.codec, q)
    ensures Get(kv, k) == Some(v) && Update(kv, k, Some(v)) == kv
  {
    hide InstOk, Bag, View, Neat, Typed, BlobOf;
    assert Reads(h.codec, HBag(h, k), Get(kv, k));
    assert Carries(h.codec, HBag(h, k), q, v);
    assert Reads(h.codec, HBag(h, k), Some(v));
    ReadsOnce(h.codec, HBag(h, k), Get(kv, k), Some(v));
  }

  lemma PrimHead(h: Hal, ps: seq<ThinPage>, p: ThinPage, fr: seq<ThinPage>, kv: Contents, k: FullKey, it: Item,
                 v: Value)
    requires Steady(h, ps + [p], fr, kv) && p.state == Active && k.ns != 0 && k.ns < 256
    requires v.Prim? && PrimitiveWidth(v.typ).Some? && |v.raw| == 8
    requires it == Item(k.ns, v.typ, 1, NO_CHUNK, k.key, Raw(v.raw))
    ensures Writable(h, p) && !IsFull(p) && WfItem(it) && Proper(it) && IsScalar(it.typ)
    ensures NewHead(h, k, ScalarRec(h.codec, it), v)
  {
    hide Bag, View, Reads, Neat, BaseOk;
    ActiveWritable(h, ps, p, fr);
    var r := ScalarRec(h.codec, it);
    assert Reads(h.codec, HBag(h, k), Get(kv, k)) && Neat(HBag(h, k));
    assert Typed(h.codec, r);
    CarriesAlone(h.codec, HBag(h, k) + multiset{r}, r, v);
    NeatAdd(HBag(h, k), r);
  }

  /** An item found before the append is where it was. */
  lemma StillThere(h0: Hal, ps: seq<ThinPage>, p0: ThinPage, h: Hal, p: ThinPage, k: FullKey, f: Found, j: nat, r: Rec)
    requires HalOk(h0) && HalOk(h) && f.page < |ps| + 1
    requires KeptAt(LocsOf(h0, (ps + [p0])[f.page]), j, f.index)
    requires LocsOf(h, p) == LocsOf(h0, p0) + [Loc(NextFree(p0), r)]
    requires forall i | 0 <= i < |ps| :: LocsOf(h, ps[i]) == LocsOf(h0, ps[i])
    ensures KeptAt(LocsOf(h, (ps + [p])[f.page]), j, f.index)
    ensures LocsOf(h, (ps + [p])[f.page])[j] == LocsOf(h0, (ps + [p0])[f.page])[j]
  {
    hide LocsOf;
  }

  lemma PendingFacts(h: Hal, ps: seq<ThinPage>, fr: seq<ThinPage>, kv: Contents, k: FullKey, q: Rec, r: Rec)
    requires Pending(h, ps, fr, kv, k, q, r)
    ensures InstOk(h, ps, fr) && Recovers(h, kv) && HalOk(h) && q in HBag(h, k) && IsHead(q) && Typed(h.codec, q)
  {
    hide InstOk, Recovers;
  }

  lemma PendingSweep(h: Hal, ps: seq<ThinPage>, fr: seq<ThinPage>, kv: Contents, k: FullKey, q: Rec, r: Rec, h1: Hal)
    requires Pending(h, ps, fr, kv, k, q, r) && Dropped(h, h1, q) && KeyOf(q.item) == k && q.item.typ == BlobIndex
    ensures OthersSame(h, h1, k) && HBag(h1, k) == HBag(h, k) - multiset{q} && Lean(h1.codec, HBag(h1, k))
    ensures q.item.data.Index? && q.item.data.start in {0, 0x80} && VersionOf(q.item.data.start) == q.item.data.start
  {
    hide InstOk, Recovers, Bag, View, Dropped, FirstHead;
    OneOfSame(h, h1, q, k);
    IndexData(h.codec, q);
    ReadsRegular(h.codec, HBag(h, k) - multiset{q}, Get(kv, k));
  }

  lemma NameHead(h: Hal, ps: seq<ThinPage>, p: ThinPage, fr: seq<ThinPage>, kv: Contents, it: Item, name: Key,
                 index: nat)
    requires Steady(h, ps + [p], fr, kv) && p.state == Active && 1 <= index <= 254 && it == NamespaceItem(name, index)
    requires Get(kv, NameKey(name)).None?
    ensures Writable(h, p) && !IsFull(p) && WfItem(it) && Proper(it)
    ensures NewHead(h, NameKey(name), ScalarRec(h.codec, it), NameValue(index))
  {
    hide Bag, View, Reads, Neat, BaseOk;
    ActiveWritable(h, ps, p, fr);
    IndexByte(index);
    var r, k := ScalarRec(h.codec, it), NameKey(name);
    assert Reads(h.codec, HBag(h, k), Get(kv, k)) && Neat(HBag(h, k));
    OnlyHead(h.codec, HBag(h, k), Get(kv, k));
    assert Typed(h.codec, r);
    CarriesAlone(h.codec, HBag(h, k) + multiset{r}, r, NameValue(index));
    NeatAdd(HBag(h, k), r);
  }

  lemma SteadyOpen(h: Hal, ps: seq<ThinPage>, fr: seq<ThinPage>, kv: Contents, k: FullKey)
    requires Steady(h, ps, fr, kv)
    ensures Open(h, ps, fr, kv, k)
  {}

  /** The data load_item leads to is the payload of the item found. */
  lemma HeadData(h: Hal, ps: seq<ThinPage>, fr: seq<ThinPage>, k: FullKey, f: Found, j: nat, q: Rec)
    requires BaseOk(h, ps, fr) && f.page < |ps| && KeptAt(LocsOf(h, ps[f.page]), j, f.index)
    requires LocsOf(h, ps[f.page])[j].rec == q && q.item == f.item && Typed(h.codec, q)
    requires f.item.typ in {Sized, BlobData}
    ensures HalOk(h) && ps[f.page].addr < |h.sectors| && WfItem(f.item) && Typed(h.codec, q) && SizeFits(q.item)
    ensures f.item.data.SizedData? && f.item.data.crc == h.codec.crc(DataOf(q))
    ensures LoadReferencedData(h, ps[f.page], f.index, f.item) == Ok(DataOf(q))
  {
    hide BaseOk, ScanFrom, LoadReferencedData, GoodLocs;
    BasePlaced(h, ps, fr, f.page);
    LoadsKept(h, ps[f.page], j);
    LoadsData(h, ps[f.page], f.index, q);
  }

  lemma StringHead(h: Hal, ps: seq<ThinPage>, p: ThinPage, fr: seq<ThinPage>, kv: Contents, k: FullKey, r: Rec,
                   buf: seq<byte>)
    requires Steady(h, ps + [p], fr, kv) && HalOk(h) && 0 < k.ns < 256 && |buf| <= MAX_BLOB_DATA_PER_PAGE
    requires r == SizedRec(h.codec, k.ns, k.key, Sized, NO_CHUNK, buf)
    ensures NewHead(h, k, r, Str(buf))
  {
    hide Bag, View, Reads, Neat, InstOk;
    assert Reads(h.codec, HBag(h, k), Get(kv, k)) && Neat(HBag(h, k));
    SizedTyped(h.codec, k, Sized, NO_CHUNK, buf);
    CarriesAlone(h.codec, HBag(h, k) + multiset{r}, r, Str(buf));
    NeatAdd(HBag(h, k), r);
  }

  lemma SizedTyped(c: Codec, k: FullKey, typ: ItemType, chunk: nat, data: seq<byte>)
    requires CodecOk(c) && 0 < k.ns < 256 && |data| <= MAX_BLOB_DATA_PER_PAGE
    requires (typ == Sized && chunk == NO_CHUNK) || (typ == BlobData && chunk < NO_CHUNK && chunk != 0x7F)
    ensures var r := SizedRec(c, k.ns, k.key, typ, chunk, data);
            GoodRec(c, r) && Typed(c, r) && DataOf(r) == data && KeyOf(r.item) == k
  {
    var r := SizedRec(c, k.ns, k.key, typ, chunk, data);
    assert |c.format(r.item)| == 32;
    assert r.raw[32 .. 32 + |data|] == data;
  }

  /** The new head is written: the only one of its key, or next to the old one, which is to go. */
  ghost predicate WroteHead(h: Hal, ps: seq<ThinPage>, fr: seq<ThinPage>, kv: Contents, k: FullKey, v: Value) {
    && InstOk(h, ps, fr) && Recovers(h, Update(kv, k, Some(v)))
    && (Get(kv, k).None? ==> Steady(h, ps, fr, Update(kv, k, Some(v))))
    && (Get(kv, k).Some? ==> exists q, r :: Pending(h, ps, fr, Update(kv, k, Some(v)), k, q, r))
  }

  lemma WroteHeadFrom(h: Hal, ps: seq<ThinPage>, p: ThinPage, fr: seq<ThinPage>, kv: Contents, h2: Hal, p2: ThinPage,
                      k: FullKey, r: Rec, w: Value)
    requires Open(h, ps + [p], fr, kv, k) && p.state == Active && NewHead(h, k, r, w)
    requires HalOk(h2) && p.addr < |h.sectors| && Appended(h, p, h2, p2, r)
    ensures WroteHead(h2, ps + [p2], fr, kv, k, w)
  {
    hide Bag, View, Reads, InstOk, NewHead, LocsOf, Appended, Recovers, Pending, Steady;
    WrittenSet(h, ps, p, fr, kv, h2, p2, k, r, w);
    if Get(kv, k).Some? {
      assert Reads(h.codec, HBag(h, k), Get(kv, k));
      OnlyHead(h.codec, HBag(h, k), Get(kv, k));
      var q :| q in HBag(h, k) && IsHead(q);
      assert Pending(h2, ps + [p2], fr, Update(kv, k, Some(w)), k, q, r);
    }
  }

  /** Two heads of one key, in two places. */
  ghost predicate TwoHeads(h: Hal, k: FullKey) {
    HalOk(h) && exists q, r :: BothHeads(HBag(h, k), q, r)
  }

  ghost predicate BothHeads(b: multiset<Rec>, q: Rec, r: Rec) { multiset{q, r} <= b && IsHead(q) && IsHead(r) }

  /** No contents describe a store in which a key has two heads. */
  lemma TwoHeadsUnread(h: Hal, k: FullKey, kv: Contents)
    requires TwoHeads(h, k)
    ensures !Holds(h, kv)
  {
    hide View, Bag, Typed;
    var b := HBag(h, k);
    var q, r :| BothHeads(b, q, r);
    if q == r { assert multiset{q, r}[q] == 2 && b[q] >= 2; } else {
      assert multiset{q, r}[q] == 1 && multiset{q, r}[r] == 1;
    }
    assert q in b && r in b && !Regular(h.codec, b);
    assert !Reads(h.codec, b, Get(kv, k));
  }

  lemma PendingTwice(h: Hal, ps: seq<ThinPage>, fr: seq<ThinPage>, kv: Contents, k: FullKey, q: Rec, r: Rec)
    requires Pending(h, ps, fr, kv, k, q, r)
    ensures TwoHeads(h, k) && InstOk(h, ps, fr)
  {
    hide View, Bag, Reads, Neat, InstOk, Recovers, FirstHead;
    assert BothHeads(HBag(h, k), q, r);
  }

  lemma PendingUnread(h: Hal, ps: seq<ThinPage>, fr: seq<ThinPage>, kv: Contents, k: FullKey, q: Rec, r: Rec)
    requires Pending(h, ps, fr, kv, k, q, r)
    ensures Recovers(h, kv) && !Steady(h, ps, fr, kv)
  {
    hide View, Bag, Reads, Neat, InstOk, Recovers, FirstHead, TwoHeads, Holds, PendingBag;
    PendingTwice(h, ps, fr, kv, k, q, r);
    TwoHeadsUnread(h, k, kv);
  }

  lemma PendingFirst(h: Hal, ps: seq<ThinPage>, fr: seq<ThinPage>, kv: Contents, k: FullKey, q: Rec, r: Rec, x: Rec)
    requires Pending(h, ps, fr, kv, k, q, r) && FirstHead(h, ps, k, x)
    ensures x == q
  {
    hide InstOk, Recovers, FirstHead, PendingBag, Reads, Neat;
  }

  // ---- what the getters return ----

  /** What a key holds. */
  ghost function Held(nss: map<Key, nat>, kv: Contents, name: Key, key: Key): Option<Value> {
    if name in nss then Get(kv, FullKey(nss[name], key)) else None
  }

  function TypeOf(v: Value): ItemType {
    match v
    case Prim(t, _) => t
    case Str(_) => Sized
    case BlobValue(_) => BlobIndex
  }

  /** The terminator is the last byte, whatever it is. */
  lemma Terminated(b: seq<byte>)
    requires b != []
    ensures forall t, last: byte | Some(Str(b)) == Some(Str(t + [last])) :: t == b[..|b| - 1]
  {}

  lemma CarriedType(c: Codec, b: multiset<Rec>, q: Rec, v: Value)
    requires Carries(c, b, q, v)
    ensures q.item.typ == TypeOf(v) && Typed(c, q)
    ensures PrimitiveWidth(q.item.typ).Some? <==> v.Prim?
    ensures q.item.typ == Sized <==> v.Str?
    ensures q.item.typ == BlobIndex <==> v.BlobValue?
    ensures v.Prim? ==> q.item.data == Raw(v.raw)
    ensures v.Str? ==> SizeFits(q.item) && DataOf(q) == v.bytes
  {}

  /** The index found under a key reads back as the key's value. */
  lemma SteadyRead(h: Hal, ps: seq<ThinPage>, fr: seq<ThinPage>, kv: Contents, k: FullKey, q: Rec)
    requires Steady(h, ps, fr, kv) && HalOk(h) && Get(kv, k).Some? && Get(kv, k).value.BlobValue?
    requires Carries(h.codec, HBag(h, k), q, Get(kv, k).value)
    ensures q.item.data.Index? && BlobRead(h, ps, k, q.item) == Ok(Get(kv, k).value.bytes)
  {
    hide Carries, BaseOk, Bag, View, BlobRead;
    InstSequences(h, ps, fr);
    assert Reads(h.codec, HBag(h, k), Get(kv, k));
    CarriedRead(h, ps, fr, k, q, Get(kv, k).value.bytes);
  }

  /** No key of any namespace changed; namespace entries may have. */
  ghost predicate KeysSame(h: Hal, h2: Hal) {
    && HalOk(h) && HalOk(h2) && h2.codec == h.codec && h2.ws == h.ws
    && forall k: FullKey | k.ns != 0 :: HBag(h2, k) == HBag(h, k)
  }

  lemma KeysAdded(h: Hal, h2: Hal, r: Rec)
    requires Added(h, h2, r) && r.item.ns == 0
    ensures KeysSame(h, h2)
  {
    hide Bag, View;
    forall k: FullKey | k.ns != 0 ensures HBag(h2, k) == HBag(h, k) {
      assert HBag(h2, k) == HBag(h, k) + OneOf(r, k);
    }
  }

  lemma KeysSameBy(h: Hal, h1: Hal, h2: Hal)
    requires SameBags(h, h1) && KeysSame(h1, h2)
    ensures KeysSame(h, h2)
  {
    hide Bag, View;
    forall k: FullKey | k.ns != 0 ensures HBag(h2, k) == HBag(h, k) { assert HBag(h1, k) == HBag(h, k); }
  }

  // ---- deleting ----

  /** The head of a key may go, and with it its chunks. */
  lemma SteadyMayGo(h: Hal, ps: seq<ThinPage>, fr: seq<ThinPage>, kv: Contents, k: FullKey)
    requires Steady(h, ps, fr, kv) && HalOk(h)
    ensures HeadMayGo(h, ps, k, None)
  {
    hide InstOk, Bag, View, Reads, LocsOf, FirstHead, Typed;
    forall r | FirstHead(h, ps, k, r)
      ensures Reads(h.codec, HBag(h, k) - multiset{r}, None) && Typed(h.codec, r)
      ensures r.item.data.Index? ==> Unowned(HBag(h, k) - multiset{r}, r.item.data.start)
    {
      FirstHeadIn(h, ps, fr, kv, k, r);
      HeadAlone(h.codec, HBag(h, k), Get(kv, k), r);
    }
  }

  lemma FirstHeadIn(h: Hal, ps: seq<ThinPage>, fr: seq<ThinPage>, kv: Contents, k: FullKey, r: Rec)
    requires Steady(h, ps, fr, kv) && HalOk(h) && FirstHead(h, ps, k, r)
    ensures r in HBag(h, k) && IsHead(r) && Reads(h.codec, HBag(h, k), Get(kv, k)) && Typed(h.codec, r)
  {
    hide InstOk, Bag, View, Reads, LocsOf, Typed, BaseOk, FirstHeadAt;
    InstSequences(h, ps, fr);
    var i, j, f :| FirstHeadAt(h, ps, k, r, i, j, f);
    FirstHeadLoc(h, ps, k, r, i, j, f);
    LocInBag(h, ps, fr, i, j);
    assert Reads(h.codec, HBag(h, k), Get(kv, k));
    ReadsRegular(h.codec, HBag(h, k), Get(kv, k));
    ReadsHead(h.codec, HBag(h, k), Get(kv, k), r);
  }

  lemma HeadAlone(c: Codec, b: multiset<Rec>, v: Option<Value>, r: Rec)
    requires Reads(c, b, v) && r in b && IsHead(r)
    ensures Reads(c, b - multiset{r}, None)
    ensures forall start :: Unowned(b - multiset{r}, start)
    ensures forall q | q in b - multiset{r} :: !IsHead(q)
  {
    hide Typed;
    RemoveHead(c, b, v, r);
    OnlyHead(c, b - multiset{r}, None);
  }

  lemma NothingThere(h: Hal, ps: seq<ThinPage>, fr: seq<ThinPage>, kv: Contents, k: FullKey)
    requires Steady(h, ps, fr, kv) && HalOk(h) && forall q | q in HBag(h, k) :: q.item.chunk != NO_CHUNK
    ensures Update(kv, k, None) == kv
  {
    hide InstOk, Bag, View, Reads;
    assert Reads(h.codec, HBag(h, k), Get(kv, k));
    OnlyHead(h.codec, HBag(h, k), Get(kv, k));
  }

  lemma SomethingThere(h: Hal, ps: seq<ThinPage>, fr: seq<ThinPage>, kv: Contents, k: FullKey, q: Rec)
    requires Steady(h, ps, fr, kv) && HalOk(h) && q in HBag(h, k) && q.item.chunk == NO_CHUNK
    ensures Get(kv, k).Some?
  {
    hide InstOk, Bag, View, Reads;
    assert Reads(h.codec, HBag(h, k), Get(kv, k));
    OnlyHead(h.codec, HBag(h, k), Get(kv, k));
    ReadsHead(h.codec, HBag(h, k), Get(kv, k), q);
  }

  lemma DeleteReads(h: Hal, ps: seq<ThinPage>, fr: seq<ThinPage>, kv: Contents, k: FullKey, q: Rec, h2: Hal)
    requires Steady(h, ps, fr, kv) && HalOk(h) && FirstHead(h, ps, k, q) && HeadGoing(h, h2, k, q)
    ensures Holds(h2, Update(kv, k, None))
    ensures forall j: FullKey | j != k :: Neat(HBag(h2, j))
  {
    hide InstOk, Bag, View, Reads, FirstHead, Shed, Neat, Typed;
    FirstHeadIn(h, ps, fr, kv, k, q);
    HeadAlone(h.codec, HBag(h, k), Get(kv, k), q);
    var kv2 := Update(kv, k, None);
    if q.item.typ == BlobIndex && q.item.data.Index? {
      ShedReads(h.codec, HBag(h, k) - multiset{q}, HBag(h2, k), q.item.data.start, None);
    }
    forall j: FullKey ensures Reads(h2.codec, HBag(h2, j), Get(kv2, j)) && (j != k ==> Neat(HBag(h2, j))) {
      if j != k {
        assert HBag(h2, j) == HBag(h, j);
        assert Reads(h.codec, HBag(h, j), Get(kv, j)) && Neat(HBag(h, j));
      }
    }
  }

  lemma DeleteCut(h: Hal, ps: seq<ThinPage>, fr: seq<ThinPage>, kv: Contents, k: FullKey, q: Rec, h2: Hal)
    requires Steady(h, ps, fr, kv) && HalOk(h) && FirstHead(h, ps, k, q) && HeadGoing(h, h2, k, q) && FlashOk(h2, NoGc)
    ensures Recovers(h2, Update(kv, k, None))
  {
    hide Steady, FirstHead, HeadGoing, FlashOk;
    DeleteReads(h, ps, fr, kv, k, q, h2);
    HoldsRecovers(h2, Update(kv, k, None), NoGc);
  }

  lemma DeleteDone(h: Hal, ps: seq<ThinPage>, fr: seq<ThinPage>, kv: Contents, k: FullKey, q: Rec, h2: Hal,
                   ps2: seq<ThinPage>)
    requires Steady(h, ps, fr, kv) && HalOk(h) && FirstHead(h, ps, k, q) && HeadDeleted(h, h2, k, q) &&
             InstOk(h2, ps2, fr)
    ensures Steady(h2, ps2, fr, Update(kv, k, None))
  {
    hide InstOk, Bag, View, Reads, FirstHead, Shed, Typed;
    DeleteReads(h, ps, fr, kv, k, q, h2);
    FirstHeadIn(h, ps, fr, kv, k, q);
    assert Neat(HBag(h, k));
    DeleteNeat(h.codec, HBag(h, k), Get(kv, k), q, HBag(h2, k));
  }

  lemma DeleteNeat(c: Codec, b: multiset<Rec>, v: Option<Value>, q: Rec, b2: multiset<Rec>)
    requires Reads(c, b, v) && Neat(b) && q in b && IsHead(q) && Typed(c, q) && Reads(c, b2, None)
    requires BagGoing(b, b2, q)
    requires q.item.typ == BlobIndex && q.item.data.Index? ==> NoChunks(b2, q.item.data.start, MAX_BLOB_CHUNK_COUNT)
    ensures Neat(b2)
  {
    hide Reads, NoChunks;
    OnlyHead(c, b, v);
    ReadsRegular(c, b2, None);
    assert b2 <= b;
    forall x | x in b && !IsHead(x) ensures Owns(b, q, VersionOf(x.item.chunk)) {
      var o :| Owns(b, o, VersionOf(x.item.chunk));
      assert o == q;
    }
    if q.item.typ == BlobIndex && q.item.data.Index? { SweptAll(c, b2, q.item.data.start); }
  }
}
