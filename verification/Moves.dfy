/** How the partition of the sectors into pages and reserve survives each change: a page written, a
    reserve page taken into use, a page erased, the lists reordered. */
module Moves {
  import opened Types
  import opened Sectors
  import opened Flash
  import opened Pages
  import opened PageOps
  import opened Scan
  import opened Store
  import opened Instance

  /** Vec::swap_remove: the last page takes the place of the one removed. */
  function SwapRemoved(ps: seq<ThinPage>, i: nat): (r: seq<ThinPage>)
    requires i < |ps|
    ensures |r| == |ps| - 1
    ensures forall j | 0 <= j < |r| :: r[j] == if j == i then ps[|ps| - 1] else ps[j]
  {
    if i == |ps| - 1 then ps[..i] else ps[..|ps| - 1][i := ps[|ps| - 1]]
  }

  function Removed(ps: seq<ThinPage>, i: nat): (r: seq<ThinPage>)
    requires i < |ps|
    ensures |r| == |ps| - 1
    ensures forall j | 0 <= j < |r| :: r[j] == if j < i then ps[j] else ps[j + 1]
  {
    ps[..i] + ps[i + 1..]
  }

  lemma {:induction false} AddrsAppend(ps: seq<ThinPage>, qs: seq<ThinPage>)
    ensures Addrs(ps + qs) == Addrs(ps) + Addrs(qs)
  {
    hide Addrs;
    if qs == [] {
      assert ps + qs == ps;
      AddrsNone();
    } else {
      var n := |qs| - 1;
      AddrsAppend(ps, qs[..n]);
      AddrsSnoc(ps + qs[..n], qs[n]);
      AddrsSnoc(qs[..n], qs[n]);
      assert (ps + qs[..n]) + [qs[n]] == ps + qs;
      assert qs[..n] + [qs[n]] == qs;
      Associate(Addrs(ps), Addrs(qs[..n]), multiset{qs[n].addr});
    }
  }

  lemma AddrsNone()
    ensures Addrs([]) == multiset{}
  {}

  lemma AddrsSwapRemoved(ps: seq<ThinPage>, i: nat)
    requires i < |ps|
    ensures Addrs(SwapRemoved(ps, i)) + multiset{ps[i].addr} == Addrs(ps)
  {
    hide Addrs;
    var n := |ps| - 1;
    AddrsSnoc(ps[..n], ps[n]);
    assert ps[..n] + [ps[n]] == ps;
    if i < n { AddrsSet(ps[..n], i, ps[n]); }
  }

  lemma AddrsRemoved(ps: seq<ThinPage>, i: nat)
    requires i < |ps|
    ensures Addrs(Removed(ps, i)) + multiset{ps[i].addr} == Addrs(ps)
  {
    hide Addrs;
    AddrsAppend(ps[..i], ps[i + 1..]);
    AddrsAppend(ps[..i + 1], ps[i + 1..]);
    AddrsSnoc(ps[..i], ps[i]);
    assert ps[..i] + [ps[i]] == ps[..i + 1];
    assert ps[..i + 1] + ps[i + 1..] == ps;
  }

  /** The invariant does not depend on the order of the pages or of the reserve. */
  lemma BaseReorder(h: Hal, ps: seq<ThinPage>, fr: seq<ThinPage>, ps2: seq<ThinPage>, fr2: seq<ThinPage>)
    requires BaseOk(h, ps, fr)
    requires Addrs(ps2) == Addrs(ps) && Addrs(fr2) == Addrs(fr)
    requires forall i | 0 <= i < |ps2| :: ps2[i] in ps
    requires forall i | 0 <= i < |fr2| :: fr2[i] in fr
    ensures BaseOk(h, ps2, fr2)
  {
    hide Placed, FreeOk, Addrs, AllSectors;
    forall i, j | 0 <= i < |ps2| && 0 <= j < |ps2| && i != j ensures ps2[i].sequence != ps2[j].sequence {
      AllSectorsCount(|h.sectors|, ps2[i].addr);
      if i < j { AddrsPair(ps2, i, j); } else { AddrsPair(ps2, j, i); }
      var x :| 0 <= x < |ps| && ps[x] == ps2[i];
      var y :| 0 <= y < |ps| && ps[y] == ps2[j];
    }
  }

  lemma PlacedElsewhere(h: Hal, h2: Hal, a: nat, p: ThinPage)
    requires HalOk(h) && HalOk(h2) && Touched(h, h2, a) && Placed(h, p) && p.addr != a
    ensures Placed(h2, p)
  {
    hide BodyOk, ScanFrom;
  }

  lemma FreeElsewhere(h: Hal, h2: Hal, a: nat, p: ThinPage)
    requires HalOk(h) && HalOk(h2) && Touched(h, h2, a) && FreeOk(h, p) && p.addr != a
    ensures FreeOk(h2, p)
  {}

  /** Page i was written. */
  lemma BaseReplace(h: Hal, h2: Hal, ps: seq<ThinPage>, fr: seq<ThinPage>, i: nat, p: ThinPage)
    requires BaseOk(h, ps, fr) && HalOk(h2) && i < |ps| && Touched(h, h2, ps[i].addr)
    requires p.addr == ps[i].addr && p.sequence == ps[i].sequence && Placed(h2, p)
    ensures BaseOk(h2, ps[i := p], fr)
  {
    hide Placed, FreeOk, Addrs, AllSectors;
    var a := ps[i].addr;
    var ps2 := ps[i := p];
    forall j | 0 <= j < |ps| ensures Placed(h2, ps2[j]) {
      if j != i { PagesApart(h, ps, fr, i, j); PlacedElsewhere(h, h2, a, ps[j]); }
    }
    forall j | 0 <= j < |fr| ensures FreeOk(h2, fr[j]) {
      PageFreeApart(h, ps, fr, i, j);
      FreeElsewhere(h, h2, a, fr[j]);
    }
    AddrsSet(ps, i, p);
    CancelSame(Addrs(ps2), Addrs(ps), multiset{a});
  }

  /** A reserve page was erased, and stays one. */
  lemma BaseReplaceFree(h: Hal, h2: Hal, ps: seq<ThinPage>, fr: seq<ThinPage>, f: nat, p: ThinPage)
    requires BaseOk(h, ps, fr) && HalOk(h2) && f < |fr| && Touched(h, h2, fr[f].addr)
    requires p.addr == fr[f].addr && FreeOk(h2, p)
    ensures BaseOk(h2, ps, fr[f := p])
  {
    hide Placed, FreeOk, Addrs, AllSectors;
    var a := fr[f].addr;
    forall j | 0 <= j < |ps| ensures Placed(h2, ps[j]) {
      PageFreeApart(h, ps, fr, j, f);
      PlacedElsewhere(h, h2, a, ps[j]);
    }
    var fr2 := fr[f := p];
    forall j | 0 <= j < |fr| ensures FreeOk(h2, fr2[j]) {
      if j != f { FreeApart(h, ps, fr, f, j); FreeElsewhere(h, h2, a, fr[j]); }
    }
    AddrsSet(fr, f, p);
    CancelSame(Addrs(fr2), Addrs(fr), multiset{a});
  }

  /** A reserve page was taken into use. */
  lemma BaseUse(h: Hal, h2: Hal, ps: seq<ThinPage>, fr: seq<ThinPage>, f: nat, p: ThinPage)
    requires BaseOk(h, ps, fr) && HalOk(h2) && f < |fr| && Touched(h, h2, fr[f].addr)
    requires p.addr == fr[f].addr && Placed(h2, p)
    requires forall i | 0 <= i < |ps| :: ps[i].sequence != p.sequence
    ensures BaseOk(h2, ps + [p], Removed(fr, f))
  {
    hide Placed, FreeOk, Addrs, AllSectors;
    var a := fr[f].addr;
    forall j | 0 <= j < |ps| + 1 ensures Placed(h2, (ps + [p])[j]) {
      if j < |ps| { PageFreeApart(h, ps, fr, j, f); PlacedElsewhere(h, h2, a, ps[j]); }
    }
    forall j | 0 <= j < |fr| - 1 ensures FreeOk(h2, Removed(fr, f)[j]) {
      var j2 := if j < f then j else j + 1;
      FreeApart(h, ps, fr, f, j2);
      FreeElsewhere(h, h2, a, fr[j2]);
    }
    AddrsSnoc(ps, p);
    AddrsRemoved(fr, f);
    Associate(Addrs(ps), multiset{a}, Addrs(Removed(fr, f)));
  }

  /** The last page was erased. */
  lemma BaseRetire(h: Hal, h2: Hal, ps: seq<ThinPage>, fr: seq<ThinPage>, p: ThinPage)
    requires BaseOk(h, ps + [p], fr) && HalOk(h2) && Touched(h, h2, p.addr) && h2.sectors[p.addr] == ErasedSector()
    ensures BaseOk(h2, ps, fr + [UninitializedPage(p.addr)])
  {
    hide Placed, Addrs, AllSectors, ErasedSector;
    var all := ps + [p];
    ErasedIs(ErasedSector());
    forall j | 0 <= j < |ps| ensures Placed(h2, ps[j]) {
      assert all[j] == ps[j] && all[|ps|] == p;
      PagesApart(h, all, fr, j, |ps|);
      PlacedElsewhere(h, h2, p.addr, ps[j]);
    }
    forall j | 0 <= j < |fr| + 1 ensures FreeOk(h2, (fr + [UninitializedPage(p.addr)])[j]) {
      if j < |fr| {
        assert all[|ps|] == p;
        PageFreeApart(h, all, fr, |ps|, j);
        FreeElsewhere(h, h2, p.addr, fr[j]);
      }
    }
    forall i, j | 0 <= i < |ps| && 0 <= j < |ps| && i != j ensures ps[i].sequence != ps[j].sequence {
      assert all[i] == ps[i] && all[j] == ps[j];
    }
    AddrsSnoc(ps, p);
    AddrsSnoc(fr, UninitializedPage(p.addr));
    Associate(Addrs(ps), multiset{p.addr}, Addrs(fr));
  }

  // ---- what a power cut finds ----

  lemma BaseFlash(h: Hal, ps: seq<ThinPage>, fr: seq<ThinPage>)
    requires BaseOk(h, ps, fr) && BlankMaps(fr)
    ensures forall a | 0 <= a < |h.sectors| :: SectorOk(h.codec, h.sectors[a])
    ensures SequencesDiffer(View(h))
  {
    hide Placed, FreeOk, Addrs, AllSectors, ViewOf, SectorOk;
    forall a | 0 <= a < |h.sectors| ensures SectorOk(h.codec, h.sectors[a]) { BaseSector(h, ps, fr, a); }
    BaseSequences(h, ps, fr);
  }

  lemma BaseSequences(h: Hal, ps: seq<ThinPage>, fr: seq<ThinPage>)
    requires BaseOk(h, ps, fr)
    ensures SequencesDiffer(View(h))
  {
    hide Placed, FreeOk, Addrs, AllSectors, ViewOf;
    forall a, b | 0 <= a < |h.sectors| && 0 <= b < |h.sectors| && a != b && View(h)[a].Used? && View(h)[b].Used?
      ensures View(h)[a].sequence != View(h)[b].sequence
    {
      var i := PageOfSector(h, ps, fr, a);
      var j := PageOfSector(h, ps, fr, b);
    }
  }

  lemma BaseSector(h: Hal, ps: seq<ThinPage>, fr: seq<ThinPage>, a: nat)
    requires BaseOk(h, ps, fr) && a < |h.sectors|
    ensures InUse(h.sectors[a]) ==>
              Sound(h.codec, h.sectors[a]) && GoodLocs(h.codec, ScanFrom(h.codec, h.sectors[a], 0))
    ensures BlankMaps(fr) ==> SectorOk(h.codec, h.sectors[a])
  {
    hide Addrs, AllSectors, ScanFrom, BodyOk, GoodLocs;
    AllSectorsCount(|h.sectors|, a);
    if a in Addrs(ps) {
      var i := AddrsFind(ps, a);
      SoundPage(h.codec, ps[i], h.sectors[a]);
      BodyShape(h.codec, ps[i], h.sectors[a]);
    } else {
      var j := AddrsFind(fr, a);
    }
  }

  lemma BodyShape(c: Codec, p: ThinPage, s: Sector)
    requires BodyOk(c, p, s)
    ensures Shape(s)
  {}

  lemma InstIdle(h: Hal, ps: seq<ThinPage>, fr: seq<ThinPage>)
    requires InstOk(h, ps, fr)
    ensures FlashOk(h, NoGc)
  {
    hide Placed, FreeOk, Addrs, AllSectors, ViewOf, SectorOk;
    BaseFlash(h, ps, fr);
    var vs := View(h);
    forall a | 0 <= a < |vs| && vs[a].Used? ensures vs[a].state in {Active, Full} {
      var i := PageOfSector(h, ps, fr, a);
    }
    forall a | 0 <= a < |vs| && vs[a].Used? && vs[a].state == Active ensures Newest(vs, a) {
      var i := PageOfSector(h, ps, fr, a);
      forall b | 0 <= b < |vs| && b != a && vs[b].Used? ensures vs[b].sequence < vs[a].sequence {
        var j := PageOfSector(h, ps, fr, b);
      }
    }
  }

  lemma HoldsRecovers(h: Hal, kv: Contents, gc: Gc)
    requires FlashOk(h, gc) && Holds(h, kv) && (gc.Moving? ==> gc.tgt.None?)
    ensures Recovers(h, kv)
  {
    hide FlashOk, Reads;
    assert Logical(View(h), gc) == View(h);
    assert RecoversIn(h, kv, gc);
  }
}
