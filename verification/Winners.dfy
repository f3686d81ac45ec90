/** Which of several heads of a key the boot cleanup keeps (compaction.rs), and why removing
    anything else does not change that. */
module Winners {
  import opened Types
  import opened Sectors
  import opened Flash
  import opened Pages
  import opened Scan
  import opened Store
  import opened Instance
  import opened Changes

  // ---- places and bags ----

  lemma HasIn(vs: seq<PageView>, s: nat, loc: Loc) returns (a: nat, j: nat)
    requires Has(vs, s, loc)
    ensures At(vs, a, j, loc) && vs[a].sequence == s
    ensures loc.rec in Bag(vs, KeyOf(loc.rec.item))
  {
    hide Bag;
    a :| HasAt(vs, a, s, loc);
    j :| 0 <= j < |vs[a].locs| && vs[a].locs[j] == loc;
    BagHas(vs, a, j, loc);
  }

  lemma InHas(vs: seq<PageView>, k: FullKey, r: Rec) returns (s: nat, loc: Loc)
    requires r in Bag(vs, k)
    ensures Has(vs, s, loc) && loc.rec == r && KeyOf(r.item) == k
  {
    hide Bag;
    var a, j := BagFind(vs, k, r);
    s, loc := vs[a].sequence, vs[a].locs[j];
    assert HasAt(vs, a, s, loc);
  }

  /** Two places hold two items, even when their bytes are the same. */
  lemma HasPair(vs: seq<PageView>, k: FullKey, s: nat, x: Loc, t: nat, y: Loc)
    requires Has(vs, s, x) && Has(vs, t, y) && !SamePlaceAs(s, x, t, y)
    requires KeyOf(x.rec.item) == k && KeyOf(y.rec.item) == k
    ensures multiset{x.rec, y.rec} <= Bag(vs, k)
  {
    hide Bag;
    var a, i := HasIn(vs, s, x);
    var b, j := HasIn(vs, t, y);
    BagPair(vs, a, i, x, b, j, y);
  }

  /** An item that is in the bag twice is in two places. */
  lemma {:induction false} KeyRecsTwice(locs: seq<Loc>, k: FullKey, r: Rec) returns (i: nat, j: nat)
    requires KeyRecs(locs, k)[r] >= 2
    ensures i < j < |locs| && locs[i].rec == r && locs[j].rec == r && KeyOf(r.item) == k
  {
    hide OneOf;
    OneOfCount(locs[0].rec, k, r);
    if locs[0].rec == r && KeyOf(r.item) == k {
      i := 0;
      j := KeyRecsFind(locs[1..], k, r);
      j := j + 1;
    } else {
      i, j := KeyRecsTwice(locs[1..], k, r);
      i, j := i + 1, j + 1;
    }
  }

  lemma OneOfCount(x: Rec, k: FullKey, r: Rec)
    ensures OneOf(x, k)[r] == if x == r && KeyOf(r.item) == k then 1 else 0
  {}

  lemma {:induction false} BagTwice(vs: seq<PageView>, k: FullKey, r: Rec) returns (a: nat, i: nat, b: nat, j: nat)
    requires Bag(vs, k)[r] >= 2
    ensures a < |vs| && vs[a].Used? && i < |vs[a].locs| && b < |vs| && vs[b].Used? && j < |vs[b].locs|
    ensures vs[a].locs[i].rec == r && vs[b].locs[j].rec == r && KeyOf(r.item) == k && (a != b || i != j)
  {
    var n := |vs| - 1;
    if PageBag(vs[n], k)[r] >= 2 {
      a, b := n, n;
      i, j := KeyRecsTwice(vs[n].locs, k, r);
    } else if PageBag(vs[n], k)[r] == 1 {
      a := n;
      i := KeyRecsFind(vs[n].locs, k, r);
      assert r in Bag(vs[..n], k);
      b, j := BagFind(vs[..n], k, r);
    } else {
      a, i, b, j := BagTwice(vs[..n], k, r);
    }
  }

  // ---- consistency ----

  lemma {:induction false} DistinctOnce(cs: seq<Rec>, j: nat)
    requires j < |cs| && forall x, y | 0 <= x < y < |cs| :: cs[x] != cs[y]
    ensures multiset(cs)[cs[j]] == 1
  {
    var n := |cs| - 1;
    assert cs == cs[..n] + [cs[n]];
    if j < n { DistinctOnce(cs[..n], j); } else { assert cs[n] !in cs[..n]; }
  }

  lemma {:induction false} ConcatSize(cs: seq<Rec>)
    requires AllSized(cs)
    ensures |Concat(cs)| == TotalSize(cs)
  {
    if cs != [] { ConcatSize(cs[..|cs| - 1]); }
  }

  /** What carries a value adds up. */
  lemma CarriesConsistent(c: Codec, b: multiset<Rec>, q: Rec, v: Value)
    requires Mixed(c, b) && Carries(c, b, q, v)
    ensures Consistent(b, q)
  {
    hide Typed, Concat;
    if q.item.typ == BlobIndex && q.item.data.Index? {
      CarriedBlob(c, b, q, v);
      var cs :| BlobOf(c, b, q, cs, v.bytes);
      var start := q.item.data.start;
      ChunksAll(c, cs, start);
      ConcatSize(cs);
      AllParts(c, b, start, cs);
      assert Adds(b, start, cs);
    }
  }

  lemma CarriedBlob(c: Codec, b: multiset<Rec>, q: Rec, v: Value)
    requires Carries(c, b, q, v) && q.item.typ == BlobIndex
    ensures v.BlobValue? && exists cs: seq<Rec> :: BlobOf(c, b, q, cs, v.bytes)
  {}

  lemma ChunksAll(c: Codec, cs: seq<Rec>, start: nat)
    requires Chunks(c, cs, start) && start in {0, 0x80} && |cs| <= MAX_BLOB_CHUNK_COUNT
    ensures AllSized(cs) && forall j | 0 <= j < |cs| :: IsPart(cs[j], start)
  {}

  lemma AllParts(c: Codec, b: multiset<Rec>, start: nat, cs: seq<Rec>)
    requires Mixed(c, b) && HasChunks(c, b, cs, start)
    ensures Adds(b, start, cs)
  {
    hide Typed;
    ChunksAll(c, cs, start);
    forall r ensures multiset(cs)[r] == if IsPart(r, start) then b[r] else 0 {
      if r in cs {
        var j :| 0 <= j < |cs| && cs[j] == r;
        DistinctOnce(cs, j);
      } else if IsPart(r, start) && r in b {
        NotMissing(c, b, start, cs, r);
      }
    }
  }

  lemma NotMissing(c: Codec, b: multiset<Rec>, start: nat, cs: seq<Rec>, r: Rec)
    requires Mixed(c, b) && HasChunks(c, b, cs, start) && r in b && IsPart(r, start)
    ensures r in cs
  {
    hide Typed;
    assert start <= r.item.chunk < start + |cs|;
    var j := r.item.chunk - start;
    assert cs[j] in b && cs[j].item.chunk == r.item.chunk;
    ChunksAll(c, cs, start);
  }

  /** The chunks of the version of q are untouched. */
  ghost predicate SameParts(b: multiset<Rec>, b2: multiset<Rec>, start: nat) {
    forall r | IsPart(r, start) :: b2[r] == b[r]
  }

  lemma ConsistentSame(b: multiset<Rec>, b2: multiset<Rec>, q: Rec)
    requires q.item.data.Index? ==> SameParts(b, b2, q.item.data.start)
    ensures Consistent(b2, q) <==> Consistent(b, q)
  {
    if q.item.typ == BlobIndex && q.item.data.Index? {
      var start := q.item.data.start;
      forall cs: seq<Rec> ensures Adds(b, start, cs) <==> Adds(b2, start, cs) {}
    }
  }

  lemma CarriesSame(c: Codec, b: multiset<Rec>, b2: multiset<Rec>, q: Rec, v: Value)
    requires Carries(c, b, q, v) && q in b2 && (q.item.data.Index? ==> SameParts(b, b2, q.item.data.start))
    ensures Carries(c, b2, q, v)
  {
    hide Typed, Concat;
    if v.BlobValue? {
      IndexData(c, q);
      var cs :| BlobOf(c, b, q, cs, v.bytes);
      var start := q.item.data.start;
      ChunksAll(c, cs, start);
      forall j | 0 <= j < |cs| ensures cs[j] in b2 { assert cs[j] in b && b2[cs[j]] == b[cs[j]]; }
      forall r | r in b2 && !IsHead(r) && VersionOf(r.item.chunk) == start ensures r.item.chunk < start + |cs| {
        assert IsPart(r, start) && b2[r] == b[r];
      }
      assert BlobOf(c, b2, q, cs, v.bytes);
    }
  }

  lemma MixedLess(c: Codec, b: multiset<Rec>, b2: multiset<Rec>)
    requires Mixed(c, b) && b2 <= b
    ensures Mixed(c, b2)
  {
    hide Typed, SameVersion;
    forall r | r in b2 ensures r in b && b2[r] <= b[r] {}
  }

  // ---- removing what does not win ----

  /** The place `at` is not the one that wins: it does not add up, or something newer does. */
  ghost predicate Loses(vs: seq<PageView>, k: FullKey, at: Place) {
    || !Consistent(Bag(vs, k), at.loc.rec)
    || exists s: nat, y: Loc ::
         HeadOf(vs, k, s, y) && Consistent(Bag(vs, k), y.rec) && Before(at.sequence, at.loc, s, y)
  }

  /** Removing a losing head. */
  lemma WinsDrop(c: Codec, vs: seq<PageView>, vs2: seq<PageView>, k: FullKey, v: Option<Value>, at: Place)
    requires Wins(c, vs, k, v) && SinglePlaces(vs) && HeadOf(vs, k, at.sequence, at.loc) && Loses(vs, k, at)
    requires Vacated(vs, vs2, at.sequence, at.loc.index) && Bag(vs2, k) == Bag(vs, k) - multiset{at.loc.rec}
    ensures Wins(c, vs2, k, v)
  {
    hide Bag, Mixed, Consistent, Carries, Has;
    var b, b2 := Bag(vs, k), Bag(vs2, k);
    MixedLess(c, b, b2);
    forall q ensures Consistent(b2, q) <==> Consistent(b, q) { ConsistentSame(b, b2, q); }
    if v.Some? {
      var s: nat, loc: Loc :| WinsAt(c, vs, k, v.value, s, loc);
      WinnerElsewhere(c, vs, k, v.value, s, loc, at);
      HasPair(vs, k, s, loc, at.sequence, at.loc);
      assert loc.rec in b2;
      CarriesSame(c, b, b2, loc.rec, v.value);
      assert WinsAt(c, vs2, k, v.value, s, loc);
    } else {
      forall q | q in b2 && IsHead(q) ensures !Consistent(b2, q) { assert q in b; }
    }
  }

  lemma WinnerElsewhere(c: Codec, vs: seq<PageView>, k: FullKey, v: Value, s: nat, loc: Loc, at: Place)
    requires WinsAt(c, vs, k, v, s, loc) && Mixed(c, Bag(vs, k)) && SinglePlaces(vs)
    requires HeadOf(vs, k, at.sequence, at.loc) && Loses(vs, k, at)
    ensures !SamePlaceAs(s, loc, at.sequence, at.loc)
  {
    hide Bag, Mixed, Consistent, Carries, Has;
    CarriesConsistent(c, Bag(vs, k), loc.rec, v);
    if Consistent(Bag(vs, k), at.loc.rec) {
      var t: nat, y: Loc :| HeadOf(vs, k, t, y) && Consistent(Bag(vs, k), y.rec) && Before(at.sequence, at.loc, t, y);
      assert SamePlaceAs(t, y, s, loc) || Before(t, y, s, loc);
    }
  }

  /** Removing chunks of a version that has no index. */
  lemma WinsShed(c: Codec, vs: seq<PageView>, vs2: seq<PageView>, k: FullKey, v: Option<Value>, start: nat)
    requires Wins(c, vs, k, v) && SweptPlaces(vs, vs2, k, start) && Shed(Bag(vs, k), Bag(vs2, k), start)
    requires Unowned(Bag(vs, k), start)
    ensures Wins(c, vs2, k, v)
  {
    hide Bag, Mixed, Carries, Has, Consistent;
    var b, b2 := Bag(vs, k), Bag(vs2, k);
    MixedLess(c, b, b2);
    forall q | q in b && IsHead(q) ensures Consistent(b2, q) <==> Consistent(b, q) {
      ShedParts(c, b, b2, q, start);
      ConsistentSame(b, b2, q);
    }
    if v.Some? {
      var s: nat, loc: Loc :| WinsAt(c, vs, k, v.value, s, loc);
      CarriedHead(c, b, loc.rec, v.value);
      assert b2[loc.rec] == b[loc.rec];
      ShedParts(c, b, b2, loc.rec, start);
      CarriesSame(c, b, b2, loc.rec, v.value);
      forall t: nat, x: Loc | HeadOf(vs2, k, t, x) && Consistent(b2, x.rec) && !SamePlaceAs(t, x, s, loc)
        ensures Before(t, x, s, loc)
      {
        var a, j := HasIn(vs, t, x);
      }
      assert WinsAt(c, vs2, k, v.value, s, loc);
    } else {
      forall q | q in b2 && IsHead(q) ensures !Consistent(b2, q) { assert q in b; }
    }
  }

  lemma CarriedHead(c: Codec, b: multiset<Rec>, q: Rec, v: Value)
    requires Carries(c, b, q, v)
    ensures q in b && IsHead(q) && Typed(c, q)
  {}

  lemma ShedParts(c: Codec, b: multiset<Rec>, b2: multiset<Rec>, q: Rec, start: nat)
    requires Mixed(c, b) && Shed(b, b2, start) && Unowned(b, start) && q in b && IsHead(q)
    ensures q.item.data.Index? ==> SameParts(b, b2, q.item.data.start)
  {
    if q.item.data.Index? {
      assert Typed(c, q);
      assert !Owns(b, q, start);
      forall r | IsPart(r, q.item.data.start) ensures b2[r] == b[r] {}
    }
  }

  /** A key none of whose items changed. */
  lemma WinsSame(c: Codec, vs: seq<PageView>, vs2: seq<PageView>, k: FullKey, v: Option<Value>)
    requires Wins(c, vs, k, v) && Bag(vs2, k) == Bag(vs, k)
    requires forall s: nat, loc: Loc | KeyOf(loc.rec.item) == k :: Has(vs2, s, loc) <==> Has(vs, s, loc)
    ensures Wins(c, vs2, k, v)
  {
    hide Bag, Mixed, Carries, Has, Consistent;
    if v.Some? {
      var s: nat, loc: Loc :| WinsAt(c, vs, k, v.value, s, loc);
      assert WinsAt(c, vs2, k, v.value, s, loc);
    }
  }

  // ---- the ends of the cleanup ----

  /** A key with a single head: nothing to choose. */
  lemma ReadsWins(c: Codec, vs: seq<PageView>, k: FullKey, v: Option<Value>)
    requires Reads(c, Bag(vs, k), v) && k.ns != 0
    ensures Wins(c, vs, k, v)
  {
    hide Bag, Has, Typed, Concat, Consistent, SameVersion, Carries;
    var b := Bag(vs, k);
    if v.Some? {
      var r :| Carries(c, b, r, v.value);
      CarriedHead(c, b, r, v.value);
      var s, loc := InHas(vs, k, r);
      forall t: nat, x: Loc | HeadOf(vs, k, t, x) ensures SamePlaceAs(t, x, s, loc) {
        OnePlace(c, vs, k, v, s, loc, t, x);
      }
      assert WinsAt(c, vs, k, v.value, s, loc);
    }
  }

  lemma OnePlace(c: Codec, vs: seq<PageView>, k: FullKey, v: Option<Value>, s: nat, x: Loc, t: nat, y: Loc)
    requires Reads(c, Bag(vs, k), v) && HeadOf(vs, k, s, x) && HeadOf(vs, k, t, y)
    ensures SamePlaceAs(t, y, s, x)
  {
    hide Bag, Has;
    OnlyHead(c, Bag(vs, k), v);
    ReadsOnceEach(c, Bag(vs, k), v);
    var a, i := HasIn(vs, s, x);
    var b, j := HasIn(vs, t, y);
    assert multiset{y.rec, x.rec}[x.rec] == 2;
    if !SamePlaceAs(t, y, s, x) {
      HasPair(vs, k, t, y, s, x);
      assert false;
    }
  }

  lemma ReadsOnceEach(c: Codec, b: multiset<Rec>, v: Option<Value>)
    requires Reads(c, b, v)
    ensures forall r | r in b :: b[r] == 1
  {}

  /** Key k has at most one head. */
  ghost predicate SingleHead(vs: seq<PageView>, k: FullKey) {
    forall s: nat, x: Loc, t: nat, y: Loc | HeadOf(vs, k, s, x) && HeadOf(vs, k, t, y) :: SamePlaceAs(s, x, t, y)
  }

  ghost predicate OneHeadEach(vs: seq<PageView>) { forall k: FullKey | k.ns != 0 :: SingleHead(vs, k) }

  ghost predicate AllConsistent(b: multiset<Rec>) { forall q | q in b && IsHead(q) :: Consistent(b, q) }

  lemma WinsReads(c: Codec, vs: seq<PageView>, k: FullKey, v: Option<Value>)
    requires Wins(c, vs, k, v) && SingleHead(vs, k) && AllConsistent(Bag(vs, k)) && SinglePlaces(vs) &&
             SequencesDiffer(vs)
    requires PlacesApart(vs)
    ensures Reads(c, Bag(vs, k), v)
  {
    hide Bag, Has, Typed, Concat, Consistent, SameVersion, Carries;
    var b := Bag(vs, k);
    forall r | r in b ensures b[r] == 1 && Typed(c, r) {
      if b[r] >= 2 { SingleOnce(c, vs, k, r); }
    }
    forall r, q | r in b && q in b && r.item.chunk == q.item.chunk ensures r == q {
      if r.item.chunk == NO_CHUNK {
        TypedHead(c, r);
        TypedHead(c, q);
        var s, x := InHas(vs, k, r);
        var t, y := InHas(vs, k, q);
        assert HeadOf(vs, k, s, x) && HeadOf(vs, k, t, y);
        assert SamePlaceAs(s, x, t, y);
      }
    }
    if v.Some? {
      var s: nat, loc: Loc :| WinsAt(c, vs, k, v.value, s, loc);
      assert Carries(c, b, loc.rec, v.value);
    }
  }

  /** Two items of one page have two indices. */
  ghost predicate PlacesApart(vs: seq<PageView>) {
    forall a, i, j | 0 <= a < |vs| && vs[a].Used? && 0 <= i < j < |vs[a].locs| ::
      vs[a].locs[i].index != vs[a].locs[j].index
  }

  lemma SingleOnce(c: Codec, vs: seq<PageView>, k: FullKey, r: Rec)
    requires Mixed(c, Bag(vs, k)) && SingleHead(vs, k) && SequencesDiffer(vs) && PlacesApart(vs) && r in Bag(vs, k)
    ensures Bag(vs, k)[r] == 1
  {
    hide Bag, Typed, SameVersion;
    if Bag(vs, k)[r] >= 2 {
      assert IsHead(r);
      var a, i, b, j := BagTwice(vs, k, r);
      assert HasAt(vs, a, vs[a].sequence, vs[a].locs[i]);
      assert HasAt(vs, b, vs[b].sequence, vs[b].locs[j]);
      assert HeadOf(vs, k, vs[a].sequence, vs[a].locs[i]);
      assert HeadOf(vs, k, vs[b].sequence, vs[b].locs[j]);
      ApartPlaces(vs, a, i, b, j);
      assert false;
    }
  }

  lemma ApartPlaces(vs: seq<PageView>, a: nat, i: nat, b: nat, j: nat)
    requires SequencesDiffer(vs) && PlacesApart(vs) && (a != b || i != j)
    requires a < |vs| && vs[a].Used? && i < |vs[a].locs| && b < |vs| && vs[b].Used? && j < |vs[b].locs|
    ensures !SamePlaceAs(vs[a].sequence, vs[a].locs[i], vs[b].sequence, vs[b].locs[j])
  {
    if a == b { assert vs[a].locs[Min(i, j)].index != vs[a].locs[Max(i, j)].index; }
  }
}
