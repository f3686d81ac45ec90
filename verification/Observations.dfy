/** What the boot scan notes about blobs and namespaces (blob.rs, init.rs), against what the sectors
    hold. */
module Observations {
  import opened Types
  import opened Sectors
  import opened Flash
  import opened Pages
  import opened Scan
  import opened Store
  import opened Instance
  import opened Names
  import opened Winners

  ghost predicate WfViews(vs: seq<PageView>) { forall a | 0 <= a < |vs| && vs[a].Used? :: WfLocs(vs[a].locs) }

  /** The notes of a scan of all sectors. */
  ghost function NotedIn(vs: seq<PageView>): BlobIndexMap
    requires WfViews(vs)
  {
    if vs == [] then map[]
    else
      var n := |vs| - 1;
      if vs[n].Used? then NoteAll(NotedIn(vs[..n]), vs[n].sequence, vs[n].locs) else NotedIn(vs[..n])
  }

  ghost function NamesIn(vs: seq<PageView>): map<Key, nat>
    requires WfViews(vs)
  {
    if vs == [] then map[]
    else
      var n := |vs| - 1;
      if vs[n].Used? then NamespacesOf(NamesIn(vs[..n]), vs[n].locs) else NamesIn(vs[..n])
  }

  // ---- chunks ----

  predicate IsPartOf(it: Item, bk: BlobKey) {
    it.ns == bk.ns && it.ns != 0 && it.key == bk.key && it.typ == BlobData && VersionOf(it.chunk) == bk.start
  }

  predicate IsIndexOf(it: Item, bk: BlobKey) {
    it.ns == bk.ns && it.ns != 0 && it.key == bk.key && it.typ == BlobIndex && it.data.Index? &&
    VersionOf(it.data.start) == bk.start
  }

  function OnePart(r: Rec, bk: BlobKey): seq<Rec> { if IsPartOf(r.item, bk) then [r] else [] }

  function Parts(locs: seq<Loc>, bk: BlobKey): seq<Rec> {
    if locs == [] then [] else Parts(locs[..|locs| - 1], bk) + OnePart(locs[|locs| - 1].rec, bk)
  }

  function ViewParts(vs: seq<PageView>, bk: BlobKey): seq<Rec> {
    if vs == [] then []
    else ViewParts(vs[..|vs| - 1], bk) + (if vs[|vs| - 1].Used? then Parts(vs[|vs| - 1].locs, bk) else [])
  }

  lemma {:induction false} TotalAppend(xs: seq<Rec>, ys: seq<Rec>)
    ensures TotalSize(xs + ys) == TotalSize(xs) + TotalSize(ys)
  {
    if ys == [] {
      assert xs + ys == xs;
    } else {
      var n := |ys| - 1;
      TotalAppend(xs, ys[..n]);
      assert (xs + ys)[..|xs| + n] == xs + ys[..n];
    }
  }

  /** One item noted. */
  lemma NoteStep(bi: BlobIndexMap, sequence: nat, index: nat, r: Rec, bk: BlobKey)
    requires WfItem(r.item)
    ensures var bi2 := Note(bi, sequence, index, r.item);
            && Seen(bi2, bk).chunkCount == Seen(bi, bk).chunkCount + |OnePart(r, bk)|
            && Seen(bi2, bk).dataSize == Seen(bi, bk).dataSize + TotalSize(OnePart(r, bk))
            && (IsIndexOf(r.item, bk) ==>
                  Seen(bi2, bk).index == Some(IndexEntry(index, sequence, r.item.data.size, r.item.data.count)))
            && (!IsIndexOf(r.item, bk) ==> Seen(bi2, bk).index == Seen(bi, bk).index)
            && (bk in bi2 <==> bk in bi || BlobKeyOf(r.item) == Some(bk))
  {
    assert [r][..0] == [];
    assert TotalSize([r]) == TotalSize([]) + SizeOf(r);
  }

  /** One page noted: its chunks are counted. */
  lemma {:induction false} NoteCounts(bi: BlobIndexMap, sequence: nat, locs: seq<Loc>, bk: BlobKey)
    requires WfLocs(locs)
    ensures Seen(NoteAll(bi, sequence, locs), bk).chunkCount == Seen(bi, bk).chunkCount + |Parts(locs, bk)|
    ensures Seen(NoteAll(bi, sequence, locs), bk).dataSize == Seen(bi, bk).dataSize + TotalSize(Parts(locs, bk))
  {
    hide Note, Seen, OnePart;
    if locs != [] {
      var n := |locs| - 1;
      NoteCounts(bi, sequence, locs[..n], bk);
      NoteStep(NoteAll(bi, sequence, locs[..n]), sequence, locs[n].index, locs[n].rec, bk);
      TotalAppend(Parts(locs[..n], bk), OnePart(locs[n].rec, bk));
    }
  }

  lemma {:induction false} ViewCounts(vs: seq<PageView>, bk: BlobKey)
    requires WfViews(vs)
    ensures Seen(NotedIn(vs), bk).chunkCount == |ViewParts(vs, bk)|
    ensures Seen(NotedIn(vs), bk).dataSize == TotalSize(ViewParts(vs, bk))
  {
    hide NoteAll, Parts;
    if vs != [] {
      var n := |vs| - 1;
      ViewCounts(vs[..n], bk);
      if vs[n].Used? {
        NoteCounts(NotedIn(vs[..n]), vs[n].sequence, vs[n].locs, bk);
        TotalAppend(ViewParts(vs[..n], bk), Parts(vs[n].locs, bk));
      } else {
        assert ViewParts(vs[..n], bk) + [] == ViewParts(vs[..n], bk);
      }
    }
  }

  lemma {:induction false} PartsBag(locs: seq<Loc>, bk: BlobKey, r: Rec)
    ensures multiset(Parts(locs, bk))[r] == if IsPartOf(r.item, bk) then KeyRecs(locs, FullKey(bk.ns, bk.key))[r] else 0
  {
    hide KeyRecs, OneOf;
    var k := FullKey(bk.ns, bk.key);
    if locs == [] {
      KeyRecsNone(k);
    } else {
      var n := |locs| - 1;
      PartsBag(locs[..n], bk, r);
      KeyRecsSnoc(locs[..n], locs[n], k);
      assert locs[..n] + [locs[n]] == locs;
      OneOfCount(locs[n].rec, k, r);
    }
  }

  lemma {:induction false} ViewPartsBag(vs: seq<PageView>, bk: BlobKey, r: Rec)
    ensures multiset(ViewParts(vs, bk))[r] == if IsPartOf(r.item, bk) then Bag(vs, FullKey(bk.ns, bk.key))[r] else 0
  {
    hide KeyRecs, Parts;
    if vs != [] {
      var n := |vs| - 1;
      ViewPartsBag(vs[..n], bk, r);
      if vs[n].Used? { PartsBag(vs[n].locs, bk, r); }
    }
  }

  // ---- indices ----

  /** `e` is where an index of this version is, and what it says. */
  ghost predicate IndexHere(vs: seq<PageView>, bk: BlobKey, e: IndexEntry, loc: Loc) {
    && Has(vs, e.pageSequence, loc) && loc.index == e.itemIndex && IsIndexOf(loc.rec.item, bk)
    && loc.rec.item.data.size == e.size && loc.rec.item.data.count == e.count
  }

  lemma {:induction false} NoteIndex(bi: BlobIndexMap, sequence: nat, locs: seq<Loc>, bk: BlobKey) returns (j: int)
    requires WfLocs(locs)
    ensures j == -1 ==> Seen(NoteAll(bi, sequence, locs), bk).index == Seen(bi, bk).index
    ensures j == -1 ==> forall x | 0 <= x < |locs| :: !IsIndexOf(locs[x].rec.item, bk)
    ensures -1 <= j < |locs|
    ensures j >= 0 ==> IsIndexOf(locs[j].rec.item, bk)
    ensures j >= 0 ==> Seen(NoteAll(bi, sequence, locs), bk).index ==
                       Some(IndexEntry(locs[j].index, sequence, locs[j].rec.item.data.size,
                            locs[j].rec.item.data.count))
  {
    hide Note, Seen;
    if locs == [] {
      j := -1;
    } else {
      var n := |locs| - 1;
      j := NoteIndex(bi, sequence, locs[..n], bk);
      NoteStep(NoteAll(bi, sequence, locs[..n]), sequence, locs[n].index, locs[n].rec, bk);
      if IsIndexOf(locs[n].rec.item, bk) { j := n; }
    }
  }

  lemma HasLess(vs: seq<PageView>, n: nat, s: nat, loc: Loc)
    requires n <= |vs| && Has(vs[..n], s, loc)
    ensures Has(vs, s, loc)
  {
    var a: nat :| HasAt(vs[..n], a, s, loc);
    assert HasAt(vs, a, s, loc);
  }

  lemma {:induction false} ViewIndex(vs: seq<PageView>, bk: BlobKey)
    requires WfViews(vs)
    ensures var i := Seen(NotedIn(vs), bk).index;
            && (i.None? ==> forall s: nat, loc: Loc | Has(vs, s, loc) :: !IsIndexOf(loc.rec.item, bk))
            && (i.Some? ==> exists loc :: IndexHere(vs, bk, i.value, loc))
  {
    hide NoteAll, Seen, IsIndexOf;
    if vs == [] {
      assert Seen(NotedIn(vs), bk).index.None? by { SeenNone(bk); }
    } else {
      var n := |vs| - 1;
      ViewIndex(vs[..n], bk);
      var before := Seen(NotedIn(vs[..n]), bk).index;
      var j := -1;
      if vs[n].Used? { j := NoteIndex(NotedIn(vs[..n]), vs[n].sequence, vs[n].locs, bk); }
      var i := Seen(NotedIn(vs), bk).index;
      if j >= 0 {
        assert HasAt(vs, n, vs[n].sequence, vs[n].locs[j]);
        assert IndexHere(vs, bk, i.value, vs[n].locs[j]);
      } else {
        assert i == before;
        if i.Some? {
          var loc :| IndexHere(vs[..n], bk, i.value, loc);
          HasLess(vs, n, i.value.pageSequence, loc);
          assert IndexHere(vs, bk, i.value, loc);
        } else {
          forall s: nat, loc: Loc | Has(vs, s, loc) ensures !IsIndexOf(loc.rec.item, bk) {
            var a: nat :| HasAt(vs, a, s, loc);
            if a < n { assert HasAt(vs[..n], a, s, loc); assert Has(vs[..n], s, loc); }
          }
        }
      }
    }
  }

  lemma SeenNone(bk: BlobKey)
    ensures Seen(map[], bk) == Observed(None, 0, 0)
  {}

  // ---- what was seen at all ----

  lemma {:induction false} NoteDomain(bi: BlobIndexMap, sequence: nat, locs: seq<Loc>, bk: BlobKey)
    requires WfLocs(locs)
    ensures bk in bi ==> bk in NoteAll(bi, sequence, locs)
    ensures forall j | 0 <= j < |locs| && BlobKeyOf(locs[j].rec.item) == Some(bk) :: bk in NoteAll(bi, sequence, locs)
    ensures bk in NoteAll(bi, sequence, locs) ==>
              bk in bi || exists j :: 0 <= j < |locs| && BlobKeyOf(locs[j].rec.item) == Some(bk)
  {
    hide Note, Seen, BlobKeyOf;
    if locs != [] {
      var n := |locs| - 1;
      NoteDomain(bi, sequence, locs[..n], bk);
      NoteStep(NoteAll(bi, sequence, locs[..n]), sequence, locs[n].index, locs[n].rec, bk);
    }
  }

  lemma {:induction false} ViewDomain(vs: seq<PageView>, bk: BlobKey)
    requires WfViews(vs)
    ensures forall s: nat, loc: Loc | Has(vs, s, loc) && WfItem(loc.rec.item) && BlobKeyOf(loc.rec.item) == Some(bk) ::
              bk in NotedIn(vs)
    ensures bk in NotedIn(vs) ==> bk.ns != 0 && bk.start in {0, 0x80}
  {
    hide NoteAll, BlobKeyOf;
    if vs != [] {
      var n := |vs| - 1;
      ViewDomain(vs[..n], bk);
      if vs[n].Used? {
        NoteDomain(NotedIn(vs[..n]), vs[n].sequence, vs[n].locs, bk);
        if bk in NotedIn(vs) && bk !in NotedIn(vs[..n]) {
          var j :| 0 <= j < |vs[n].locs| && BlobKeyOf(vs[n].locs[j].rec.item) == Some(bk);
          BlobKeyKnown(vs[n].locs[j].rec.item, bk);
        }
      }
      forall s: nat, loc: Loc | Has(vs, s, loc) && WfItem(loc.rec.item) && BlobKeyOf(loc.rec.item) == Some(bk)
        ensures bk in NotedIn(vs)
      {
        var a: nat :| HasAt(vs, a, s, loc);
        if a < n { assert HasAt(vs[..n], a, s, loc); assert Has(vs[..n], s, loc); }
        else { var j :| 0 <= j < |vs[n].locs| && vs[n].locs[j] == loc; }
      }
    }
  }

  lemma BlobKeyKnown(it: Item, bk: BlobKey)
    requires WfItem(it) && BlobKeyOf(it) == Some(bk)
    ensures bk.ns != 0 && bk.start in {0, 0x80}
  {}

  // ---- namespaces ----

  lemma {:induction false} PageNames(nss: map<Key, nat>, locs: seq<Loc>, n: Key)
    requires WfLocs(locs)
    ensures (forall j | 0 <= j < |locs| :: KeyOf(locs[j].rec.item) != NameKey(n)) ==>
              (n in NamespacesOf(nss, locs) <==> n in nss) && (n in nss ==> NamespacesOf(nss, locs)[n] == nss[n])
    ensures (exists j :: 0 <= j < |locs| && KeyOf(locs[j].rec.item) == NameKey(n)) ==>
              n in NamespacesOf(nss, locs) &&
              exists j ::
                0 <= j < |locs| && KeyOf(locs[j].rec.item) == NameKey(n) &&
                NamespaceIndex(locs[j].rec.item) == NamespacesOf(nss, locs)[n]
  {
    hide NamespaceIndex;
    if locs != [] {
      var m := |locs| - 1;
      var rest := locs[..m];
      PageNames(nss, rest, n);
      if KeyOf(locs[m].rec.item) == NameKey(n) {
        assert NamespacesOf(nss, locs)[n] == NamespaceIndex(locs[m].rec.item);
      } else {
        assert n in NamespacesOf(nss, locs) <==> n in NamespacesOf(nss, rest);
        if exists j :: 0 <= j < |locs| && KeyOf(locs[j].rec.item) == NameKey(n) {
          var j :| 0 <= j < |locs| && KeyOf(locs[j].rec.item) == NameKey(n);
          assert KeyOf(rest[j].rec.item) == NameKey(n);
          var i :| 0 <= i < |rest| && KeyOf(rest[i].rec.item) == NameKey(n) &&
              NamespaceIndex(rest[i].rec.item) == NamespacesOf(nss, rest)[n];
          assert locs[i] == rest[i];
        }
      }
    }
  }

  /** A name is known exactly if an entry gives it, and its index is one an entry gives it. */
  lemma {:induction false} ViewNames(vs: seq<PageView>, n: Key)
    requires WfViews(vs)
    ensures n !in NamesIn(vs) ==> forall s: nat, loc: Loc | Has(vs, s, loc) :: KeyOf(loc.rec.item) != NameKey(n)
    ensures n in NamesIn(vs) ==> exists s: nat, loc: Loc ::
              Has(vs, s, loc) && KeyOf(loc.rec.item) == NameKey(n) && WfItem(loc.rec.item) &&
              NamespaceIndex(loc.rec.item) == NamesIn(vs)[n]
  {
    hide NamespaceIndex, NamespacesOf, WfItem;
    if vs != [] {
      var m := |vs| - 1;
      ViewNames(vs[..m], n);
      if vs[m].Used? { PageNames(NamesIn(vs[..m]), vs[m].locs, n); }
      if vs[m].Used? && exists j :: 0 <= j < |vs[m].locs| && KeyOf(vs[m].locs[j].rec.item) == NameKey(n) {
        var j :| 0 <= j < |vs[m].locs| && KeyOf(vs[m].locs[j].rec.item) == NameKey(n) &&
                 NamespaceIndex(vs[m].locs[j].rec.item) == NamesIn(vs)[n];
        assert HasAt(vs, m, vs[m].sequence, vs[m].locs[j]);
        assert Has(vs, vs[m].sequence, vs[m].locs[j]);
      } else if n in NamesIn(vs) {
        var s: nat, loc: Loc :| Has(vs[..m], s, loc) && KeyOf(loc.rec.item) == NameKey(n) && WfItem(loc.rec.item) &&
                                NamespaceIndex(loc.rec.item) == NamesIn(vs[..m])[n];
        HasLess(vs, m, s, loc);
      } else {
        forall s: nat, loc: Loc | Has(vs, s, loc) ensures KeyOf(loc.rec.item) != NameKey(n) {
          var a: nat :| HasAt(vs, a, s, loc);
          if a < m { assert HasAt(vs[..m], a, s, loc); assert Has(vs[..m], s, loc); }
          else { var j :| 0 <= j < |vs[m].locs| && vs[m].locs[j] == loc; }
        }
      }
    }
  }
}
