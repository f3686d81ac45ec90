/** What the flash says about the key/value store, apart from where on flash it says it.

    A sector in use is seen as its state, its sequence number and the items the boot scan would keep
    on it; the items of one (namespace index, key), from all sectors, form its bag. `Reads` is the
    reference definition of the value a bag stands for. */
module Store {
  import opened Types
  import opened Sectors
  import opened Flash
  import opened Pages
  import opened Scan

  datatype PageView = Free | Used(state: PageState, sequence: nat, locs: seq<Loc>)

  function ViewOf(c: Codec, s: Sector): PageView
    requires Shape(s)
  {
    if InUse(s) then Used(s.header.value.state, s.header.value.sequence, ScanFrom(c, s, 0)) else Free
  }

  function View(h: Hal): (v: seq<PageView>)
    requires HalOk(h)
    ensures |v| == |h.sectors|
  {
    seq(|h.sectors|, a requires 0 <= a < |h.sectors| => ViewOf(h.codec, h.sectors[a]))
  }

  function KeyOf(it: Item): FullKey { FullKey(it.ns, it.key) }

  // ---- bags ----

  function OneOf(r: Rec, k: FullKey): multiset<Rec> {
    if KeyOf(r.item) == k then multiset{r} else multiset{}
  }

  function KeyRecs(locs: seq<Loc>, k: FullKey): multiset<Rec> {
    if locs == [] then multiset{} else OneOf(locs[0].rec, k) + KeyRecs(locs[1..], k)
  }

  function PageBag(v: PageView, k: FullKey): multiset<Rec> {
    if v.Used? then KeyRecs(v.locs, k) else multiset{}
  }

  function Bag(vs: seq<PageView>, k: FullKey): multiset<Rec> {
    if vs == [] then multiset{} else Bag(vs[..|vs| - 1], k) + PageBag(vs[|vs| - 1], k)
  }

  lemma {:induction false} KeyRecsAppend(xs: seq<Loc>, ys: seq<Loc>, k: FullKey)
    ensures KeyRecs(xs + ys, k) == KeyRecs(xs, k) + KeyRecs(ys, k)
  {
    hide OneOf, KeyRecs;
    if xs == [] {
      assert xs + ys == ys;
      KeyRecsNone(k);
    } else {
      var one, rest := xs[0], xs[1..];
      KeyRecsAppend(rest, ys, k);
      KeyRecsCons(one, rest, k);
      KeyRecsCons(one, rest + ys, k);
      assert [one] + rest == xs;
      assert [one] + (rest + ys) == xs + ys;
      Associate(OneOf(one.rec, k), KeyRecs(rest, k), KeyRecs(ys, k));
    }
  }

  lemma KeyRecsNone(k: FullKey)
    ensures KeyRecs([], k) == multiset{}
  {}

  lemma Associate<T>(x: multiset<T>, y: multiset<T>, z: multiset<T>)
    ensures x + (y + z) == (x + y) + z
  {}

  lemma CancelSame<T>(x: multiset<T>, y: multiset<T>, a: multiset<T>)
    requires x + a == y + a
    ensures x == y
  {
    forall r: T | r in x + y ensures x[r] == y[r] { assert (x + a)[r] == (y + a)[r]; }
  }

  lemma KeyRecsCons(loc: Loc, rest: seq<Loc>, k: FullKey)
    ensures KeyRecs([loc] + rest, k) == OneOf(loc.rec, k) + KeyRecs(rest, k)
  {
    assert ([loc] + rest)[1..] == rest;
  }

  lemma KeyRecsSnoc(xs: seq<Loc>, loc: Loc, k: FullKey)
    ensures KeyRecs(xs + [loc], k) == KeyRecs(xs, k) + OneOf(loc.rec, k)
  {
    KeyRecsAppend(xs, [loc], k);
    assert KeyRecs([loc], k) == OneOf(loc.rec, k) + KeyRecs([], k);
  }

  lemma {:induction false} KeyRecsWithout(locs: seq<Loc>, i: nat, at: nat, lo: nat, hi: nat, k: FullKey)
    requires KeptAt(locs, i, at) && Ordered(locs, lo, hi)
    ensures KeyRecs(locs, k) == KeyRecs(Without(locs, at), k) + OneOf(locs[i].rec, k)
  {
    hide OneOf;
    if i == 0 {
      WithoutAbsent(locs[1..], at);
      assert Without(locs, at) == locs[1..];
    } else {
      KeyRecsWithout(locs[1..], i - 1, at, lo, hi, k);
      var rest := Without(locs[1..], at);
      assert Without(locs, at) == [locs[0]] + rest;
      assert ([locs[0]] + rest)[1..] == rest;
    }
  }

  /** A copy, item for item, has the same bag. */
  lemma {:induction false} KeyRecsCopy(xs: seq<Loc>, ys: seq<Loc>, k: FullKey)
    requires Recs(xs) == Recs(ys)
    ensures KeyRecs(xs, k) == KeyRecs(ys, k)
  {
    if xs != [] {
      assert xs[0].rec == Recs(xs)[0] == Recs(ys)[0] == ys[0].rec;
      assert Recs(xs[1..]) == Recs(xs)[1..] == Recs(ys)[1..] == Recs(ys[1..]);
      KeyRecsCopy(xs[1..], ys[1..], k);
    }
  }

  lemma {:induction false} BagUpdate(vs: seq<PageView>, a: nat, v: PageView, k: FullKey)
    requires a < |vs|
    ensures Bag(vs[a := v], k) + PageBag(vs[a], k) == Bag(vs, k) + PageBag(v, k)
  {
    hide PageBag;
    var n := |vs| - 1;
    if a == n {
      assert vs[a := v][..n] == vs[..n];
    } else {
      BagUpdate(vs[..n], a, v, k);
      assert vs[a := v][..n] == vs[..n][a := v];
      assert vs[a := v][n] == vs[n];
      AddSame(Bag(vs[..n][a := v], k), PageBag(vs[a], k), Bag(vs[..n], k), PageBag(v, k), PageBag(vs[n], k));
    }
  }

  lemma AddSame<T>(x: multiset<T>, a: multiset<T>, y: multiset<T>, b: multiset<T>, z: multiset<T>)
    requires x + a == y + b
    ensures (x + z) + a == (y + z) + b
  {
    assert (x + z) + a == (x + a) + z;
    assert (y + z) + b == (y + b) + z;
  }

  lemma {:induction false} BagPage(vs: seq<PageView>, a: nat, k: FullKey)
    requires a < |vs|
    ensures PageBag(vs[a], k) <= Bag(vs, k)
  {
    hide PageBag;
    if a < |vs| - 1 { BagPage(vs[..|vs| - 1], a, k); }
  }

  lemma {:induction false} BagPages(vs: seq<PageView>, a: nat, b: nat, k: FullKey)
    requires a < b < |vs|
    ensures PageBag(vs[a], k) + PageBag(vs[b], k) <= Bag(vs, k)
  {
    hide PageBag;
    if b < |vs| - 1 { BagPages(vs[..|vs| - 1], a, b, k); } else { BagPage(vs[..|vs| - 1], a, k); }
  }

  /** `loc` is item number j of sector a. */
  ghost predicate At(vs: seq<PageView>, a: nat, j: nat, loc: Loc) {
    a < |vs| && vs[a].Used? && j < |vs[a].locs| && vs[a].locs[j] == loc
  }

  lemma {:induction false} KeyRecsHas(locs: seq<Loc>, j: nat, k: FullKey)
    requires j < |locs|
    ensures OneOf(locs[j].rec, k) <= KeyRecs(locs, k)
  {
    hide OneOf;
    if j > 0 { KeyRecsHas(locs[1..], j - 1, k); }
  }

  lemma {:induction false} KeyRecsPair(locs: seq<Loc>, i: nat, j: nat, k: FullKey)
    requires i < j < |locs|
    ensures OneOf(locs[i].rec, k) + OneOf(locs[j].rec, k) <= KeyRecs(locs, k)
  {
    hide OneOf;
    if i > 0 { KeyRecsPair(locs[1..], i - 1, j - 1, k); } else { KeyRecsHas(locs[1..], j - 1, k); }
  }

  lemma BagHas(vs: seq<PageView>, a: nat, j: nat, loc: Loc)
    requires At(vs, a, j, loc)
    ensures loc.rec in Bag(vs, KeyOf(loc.rec.item))
  {
    hide KeyRecs, Bag;
    KeyRecsHas(vs[a].locs, j, KeyOf(loc.rec.item));
    BagPage(vs, a, KeyOf(loc.rec.item));
  }

  /** Two places hold two items, even when their bytes are the same. */
  lemma BagPair(vs: seq<PageView>, a: nat, i: nat, x: Loc, b: nat, j: nat, y: Loc)
    requires At(vs, a, i, x) && At(vs, b, j, y) && (a != b || i != j)
    requires KeyOf(x.rec.item) == KeyOf(y.rec.item)
    ensures multiset{x.rec, y.rec} <= Bag(vs, KeyOf(x.rec.item))
  {
    hide KeyRecs, Bag;
    var k := KeyOf(x.rec.item);
    if a == b {
      if i < j { KeyRecsPair(vs[a].locs, i, j, k); } else { KeyRecsPair(vs[a].locs, j, i, k); }
      BagPage(vs, a, k);
    } else {
      KeyRecsHas(vs[a].locs, i, k);
      KeyRecsHas(vs[b].locs, j, k);
      if a < b { BagPages(vs, a, b, k); } else { BagPages(vs, b, a, k); }
    }
  }

  lemma {:induction false} KeyRecsFind(locs: seq<Loc>, k: FullKey, r: Rec) returns (j: nat)
    requires r in KeyRecs(locs, k)
    ensures j < |locs| && locs[j].rec == r && KeyOf(r.item) == k
  {
    if r in OneOf(locs[0].rec, k) {
      j := 0;
    } else {
      j := KeyRecsFind(locs[1..], k, r);
      j := j + 1;
    }
  }

  lemma {:induction false} BagFind(vs: seq<PageView>, k: FullKey, r: Rec) returns (a: nat, j: nat)
    requires r in Bag(vs, k)
    ensures KeyOf(r.item) == k && a < |vs| && vs[a].Used? && j < |vs[a].locs| && At(vs, a, j, vs[a].locs[j])
    ensures vs[a].locs[j].rec == r
  {
    var n := |vs| - 1;
    if r in PageBag(vs[n], k) {
      a := n;
      j := KeyRecsFind(vs[n].locs, k, r);
    } else {
      a, j := BagFind(vs[..n], k, r);
    }
  }

  // ---- the value a bag stands for ----

  datatype Value = Prim(typ: ItemType, raw: seq<byte>) | Str(bytes: seq<byte>) | BlobValue(bytes: seq<byte>)

  /** A value of its own, or the index of one: everything but a chunk. */
  predicate IsHead(r: Rec) { r.item.typ != BlobData && r.item.chunk == NO_CHUNK }

  /** An item as this driver and ESP-IDF write it, legacy blobs aside: an item without a chunk index
      or a chunk with valid data. With namespace index 0, the entry that gives a name its index, as
      write_namespace writes it. */
  ghost predicate Typed(c: Codec, r: Rec) {
    && |r.raw| == 32 * r.item.span && WfItem(r.item)
    && (if IsHead(r) then
          || (PrimitiveWidth(r.item.typ).Some? && r.item.span == 1)
          || (r.item.typ == Sized && DataValid(c, r))
          || (r.item.typ == BlobIndex && r.item.span == 1 && r.item.data.start in {0, 0x80} &&
              r.item.data.count <= MAX_BLOB_CHUNK_COUNT)
        else
          r.item.typ == BlobData && DataValid(c, r) && r.item.chunk !in {0x7F, NO_CHUNK})
    && (r.item.ns == 0 ==>
          PrimitiveWidth(r.item.typ).Some? && r.item.span == 1 && IsHead(r) && 1 <= NamespaceIndex(r.item) <= 254)
  }

  /** An item whose own checksums show that it is complete: all that a copy cut short needs. */
  ghost predicate Whole(c: Codec, r: Rec) {
    && |r.raw| == 32 * r.item.span && Proper(r.item)
    && (IsScalar(r.item.typ) || DataValid(c, r))
  }

  /** At most one item per chunk index, and only items of a known shape. */
  ghost predicate Regular(c: Codec, b: multiset<Rec>) {
    && (forall r | r in b :: b[r] == 1 && Typed(c, r))
    && (forall r, q | r in b && q in b && r.item.chunk == q.item.chunk :: r == q)
  }

  lemma TypedHead(c: Codec, r: Rec)
    requires Typed(c, r) && r.item.chunk == NO_CHUNK
    ensures IsHead(r)
  {}

  predicate AllSized(cs: seq<Rec>) { forall r | r in cs :: SizeFits(r.item) && |r.raw| == 32 * r.item.span }

  function Concat(cs: seq<Rec>): (d: seq<byte>)
    requires AllSized(cs)
  {
    if cs == [] then [] else Concat(cs[..|cs| - 1]) + DataOf(cs[|cs| - 1])
  }

  ghost predicate Chunks(c: Codec, cs: seq<Rec>, start: nat) {
    forall j | 0 <= j < |cs| :: Typed(c, cs[j]) && cs[j].item.typ == BlobData && cs[j].item.chunk == start + j
  }

  /** The chunks of the version that starts at `start` are exactly `cs`. */
  ghost predicate HasChunks(c: Codec, b: multiset<Rec>, cs: seq<Rec>, start: nat) {
    && start in {0, 0x80} && |cs| <= MAX_BLOB_CHUNK_COUNT && Chunks(c, cs, start)
    && (forall j | 0 <= j < |cs| :: cs[j] in b)
    && (forall r | r in b && !IsHead(r) && VersionOf(r.item.chunk) == start :: r.item.chunk < start + |cs|)
  }

  /** Head `r` of bag `b` carries value `v`. */
  ghost predicate Carries(c: Codec, b: multiset<Rec>, r: Rec, v: Value) {
    && r in b && IsHead(r) && Typed(c, r)
    && match v
       case Prim(t, raw) => r.item.typ == t && PrimitiveWidth(t).Some? && r.item.data == Raw(raw)
       case Str(bytes) => r.item.typ == Sized && DataOf(r) == bytes
       case BlobValue(bytes) =>
         r.item.typ == BlobIndex && exists cs: seq<Rec> :: BlobOf(c, b, r, cs, bytes)
  }

  ghost predicate BlobOf(c: Codec, b: multiset<Rec>, r: Rec, cs: seq<Rec>, bytes: seq<byte>)
    requires Typed(c, r) && r.item.typ == BlobIndex
  {
    && HasChunks(c, b, cs, r.item.data.start)
    && r.item.data.size == |bytes| && r.item.data.count == |cs|
    && Concat(cs) == bytes
  }

  /** The bag stands for value `v`, or for no value; chunks that belong to no index are ignored. */
  ghost predicate Reads(c: Codec, b: multiset<Rec>, v: Option<Value>) {
    && Regular(c, b)
    && match v
       case None => forall r | r in b :: !IsHead(r)
       case Some(x) => exists r :: Carries(c, b, r, x)
  }

  lemma ReadsHead(c: Codec, b: multiset<Rec>, v: Option<Value>, r: Rec)
    requires Reads(c, b, v) && r in b && r.item.chunk == NO_CHUNK
    ensures IsHead(r) && Typed(c, r)
  {
    TypedHead(c, r);
  }

  /** No chunk without the index of its version. */
  ghost predicate Neat(b: multiset<Rec>) {
    forall r | r in b && !IsHead(r) :: exists q :: Owns(b, q, VersionOf(r.item.chunk))
  }

  ghost predicate Owns(b: multiset<Rec>, q: Rec, start: nat) {
    q in b && IsHead(q) && q.item.typ == BlobIndex && q.item.data.Index? && q.item.data.start == start
  }

  // ---- how bags change ----

  /** No index in the bag starts at `start`. */
  ghost predicate Unowned(b: multiset<Rec>, start: nat) { forall q :: !Owns(b, q, start) }

  lemma ReadsSubset(c: Codec, b: multiset<Rec>, b2: multiset<Rec>)
    requires Regular(c, b) && b2 <= b
    ensures Regular(c, b2)
  {
    hide Typed;
    forall r | r in b2 ensures b2[r] == 1 && Typed(c, r) { assert r in b; }
  }

  /** b2 lacks some chunks of the version that starts at `start`, and nothing else. */
  ghost predicate Shed(b: multiset<Rec>, b2: multiset<Rec>, start: nat) {
    && b2 <= b
    && forall r | r in b && b2[r] != b[r] :: !IsHead(r) && VersionOf(r.item.chunk) == start
  }

  /** Removing chunks no index owns changes no value. */
  lemma ShedReads(c: Codec, b: multiset<Rec>, b2: multiset<Rec>, start: nat, v: Option<Value>)
    requires Reads(c, b, v) && Shed(b, b2, start) && Unowned(b, start)
    ensures Reads(c, b2, v)
  {
    hide Typed, Concat;
    ReadsSubset(c, b, b2);
    if v.Some? {
      var q :| Carries(c, b, q, v.value);
      assert q in b2;
      if v.value.BlobValue? {
        IndexData(c, q);
        var cs :| BlobOf(c, b, q, cs, v.value.bytes);
        assert Owns(b, q, q.item.data.start);
        forall j | 0 <= j < |cs| ensures cs[j] in b2 {
          ChunkVersion(c, cs, q.item.data.start, j);
          assert cs[j] in b;
        }
        assert BlobOf(c, b2, q, cs, v.value.bytes);
      }
      assert Carries(c, b2, q, v.value);
    }
  }

  lemma IndexData(c: Codec, q: Rec)
    requires Typed(c, q) && q.item.typ == BlobIndex
    ensures IsHead(q) && q.item.data.Index? && q.item.data.start in {0, 0x80}
  {}

  lemma ChunkVersion(c: Codec, cs: seq<Rec>, start: nat, j: nat)
    requires start in {0, 0x80} && |cs| <= MAX_BLOB_CHUNK_COUNT && Chunks(c, cs, start) && j < |cs|
    ensures VersionOf(cs[j].item.chunk) == start && !IsHead(cs[j])
  {}

  /** Adding a chunk of a version no index owns, at an index not yet used, changes no value. */
  lemma AddChunk(c: Codec, b: multiset<Rec>, v: Option<Value>, r: Rec)
    requires Reads(c, b, v) && !IsHead(r) && Typed(c, r) && Unowned(b, VersionOf(r.item.chunk))
    requires forall q | q in b :: q.item.chunk != r.item.chunk
    ensures Reads(c, b + multiset{r}, v)
  {
    hide Typed, Concat;
    var b2 := b + multiset{r};
    AddRegular(c, b, r);
    if v.Some? {
      var q :| Carries(c, b, q, v.value);
      assert q in b2;
      if v.value.BlobValue? {
        IndexData(c, q);
        var cs :| BlobOf(c, b, q, cs, v.value.bytes);
        assert Owns(b, q, q.item.data.start);
        forall j | 0 <= j < |cs| ensures cs[j] in b2 { assert cs[j] in b; }
        assert BlobOf(c, b2, q, cs, v.value.bytes);
      }
      assert Carries(c, b2, q, v.value);
    }
  }

  lemma AddRegular(c: Codec, b: multiset<Rec>, r: Rec)
    requires Regular(c, b) && Typed(c, r) && forall q | q in b :: q.item.chunk != r.item.chunk
    ensures Regular(c, b + multiset{r})
  {
    hide Typed;
    var b2 := b + multiset{r};
    assert r !in b;
    forall q | q in b2 ensures b2[q] == 1 && Typed(c, q) { if q != r { assert q in b; } }
  }

  /** Without its head, a bag stands for nothing. */
  lemma RemoveHead(c: Codec, b: multiset<Rec>, v: Option<Value>, r: Rec)
    requires Reads(c, b, v) && r in b && IsHead(r)
    ensures Reads(c, b - multiset{r}, None)
  {
    hide Typed;
    var b2 := b - multiset{r};
    ReadsSubset(c, b, b2);
    assert b[r] == 1 && r !in b2;
    forall q | q in b2 ensures !IsHead(q) { assert q in b; }
  }

  /** A head added to a bag without one gives it its value. */
  lemma AddHead(c: Codec, b: multiset<Rec>, r: Rec, v: Value)
    requires Reads(c, b, None) && Carries(c, b + multiset{r}, r, v)
    ensures Reads(c, b + multiset{r}, Some(v))
  {
    forall q | q in b ensures q.item.chunk != r.item.chunk { assert Typed(c, q); }
    hide Typed;
    AddRegular(c, b, r);
  }

  /** A bag stands for one value only. */
  lemma ReadsOnce(c: Codec, b: multiset<Rec>, v: Option<Value>, w: Option<Value>)
    requires Reads(c, b, v) && Reads(c, b, w)
    ensures v == w
  {
    hide Typed, Concat;
    if v.Some? && w.Some? {
      var r :| Carries(c, b, r, v.value);
      var q :| Carries(c, b, q, w.value);
      assert r == q;
      HeadTypes(c, r);
      if v.value.BlobValue? && w.value.BlobValue? {
        var cs :| BlobOf(c, b, r, cs, v.value.bytes);
        var ds :| BlobOf(c, b, r, ds, w.value.bytes);
        assert cs == ds;
      }
    }
  }

  lemma HeadTypes(c: Codec, r: Rec)
    requires Typed(c, r) && IsHead(r)
    ensures PrimitiveWidth(r.item.typ).Some? ==> r.item.typ != Sized && r.item.typ != BlobIndex
  {}

  /** A new head next to the old bag: without the old head, if there was one, it gives its value. */
  lemma Takeover(c: Codec, b: multiset<Rec>, v: Option<Value>, r: Rec, w: Value)
    requires Reads(c, b, v) && IsHead(r) && Typed(c, r) && Carries(c, b + multiset{r}, r, w)
    ensures v.None? ==> Reads(c, b + multiset{r}, Some(w))
    ensures forall q | q in b && IsHead(q) :: Reads(c, (b + multiset{r}) - multiset{q}, Some(w))
    ensures (b + multiset{r}) - multiset{r} == b
  {
    hide Typed, Concat, Reads, Carries;
    if v.None? { AddHead(c, b, r, w); }
    forall q | q in b && IsHead(q) ensures Reads(c, (b + multiset{r}) - multiset{q}, Some(w)) {
      RemoveHead(c, b, v, q);
      var b2 := b - multiset{q};
      assert b2 + multiset{r} == (b + multiset{r}) - multiset{q};
      CarriesWithout(c, b, q, r, w);
      AddHead(c, b2, r, w);
    }
  }

  /** Another head takes no part in what a head carries. */
  lemma CarriesWithout(c: Codec, b: multiset<Rec>, q: Rec, r: Rec, w: Value)
    requires IsHead(q) && Carries(c, b + multiset{r}, r, w)
    ensures Carries(c, (b - multiset{q}) + multiset{r}, r, w)
  {
    hide Typed, Concat;
    var b1, b2 := b + multiset{r}, (b - multiset{q}) + multiset{r};
    if w.BlobValue? {
      IndexData(c, r);
      var cs :| BlobOf(c, b1, r, cs, w.bytes);
      forall j | 0 <= j < |cs| ensures cs[j] in b2 {
        ChunkVersion(c, cs, r.item.data.start, j);
        assert cs[j] in b1 && cs[j] != q && cs[j] != r;
      }
      assert BlobOf(c, b2, r, cs, w.bytes);
    }
  }

  /** A head that carries its value by itself. */
  lemma CarriesAlone(c: Codec, b: multiset<Rec>, r: Rec, w: Value)
    requires r in b && IsHead(r) && Typed(c, r) && !w.BlobValue?
    requires w.Prim? ==> r.item.typ == w.typ && PrimitiveWidth(w.typ).Some? && r.item.data == Raw(w.raw)
    requires w.Str? ==> r.item.typ == Sized && DataOf(r) == w.bytes
    ensures Carries(c, b, r, w)
  {}

  /** The only head of a bag. */
  lemma OnlyHead(c: Codec, b: multiset<Rec>, v: Option<Value>)
    requires Reads(c, b, v)
    ensures v.None? <==> forall q | q in b :: !IsHead(q)
    ensures forall q, r | q in b && r in b && IsHead(q) && IsHead(r) :: q == r
  {
    if v.Some? { var q :| Carries(c, b, q, v.value); }
  }

  lemma NeatAdd(b: multiset<Rec>, r: Rec)
    requires Neat(b) && IsHead(r)
    ensures Neat(b + multiset{r})
  {
    var b2 := b + multiset{r};
    forall q | q in b2 && !IsHead(q) ensures exists o :: Owns(b2, o, VersionOf(q.item.chunk)) {
      assert q in b;
      var o :| Owns(b, o, VersionOf(q.item.chunk));
      assert Owns(b2, o, VersionOf(q.item.chunk));
    }
  }

  /** With the old head gone, and every chunk it owned, the bag is neat again. */
  lemma NeatAfter(c: Codec, b1: multiset<Rec>, q: Rec, r: Rec, b2: multiset<Rec>)
    requires Neat(b1) && IsHead(q) && b2 <= b1 - multiset{q} && Regular(c, b2)
    requires forall h | h in b1 && IsHead(h) :: h == q || h == r
    requires r in b2
    requires forall x | x in b2 && !IsHead(x) && Owns(b1, q, VersionOf(x.item.chunk)) && q != r :: false
    ensures Neat(b2)
  {
    hide Typed;
    forall x | x in b2 && !IsHead(x) ensures exists o :: Owns(b2, o, VersionOf(x.item.chunk)) {
      assert x in b1;
      var o :| Owns(b1, o, VersionOf(x.item.chunk));
      assert Owns(b2, r, VersionOf(x.item.chunk));
    }
  }

  // ---- before the boot cleanup ----

  predicate SameVersion(x: Rec, y: Rec) {
    x.item.data.Index? && y.item.data.Index? && x.item.data.start == y.item.data.start
  }

  /** At most one item per chunk index, whatever heads there are. */
  ghost predicate Lean(c: Codec, b: multiset<Rec>) {
    && (forall r | r in b :: Typed(c, r))
    && (forall r | r in b && !IsHead(r) :: b[r] == 1)
    && (forall r, q | r in b && q in b && !IsHead(r) && !IsHead(q) && r.item.chunk == q.item.chunk :: r == q)
  }

  lemma LeanLess(c: Codec, b: multiset<Rec>, b2: multiset<Rec>)
    requires Lean(c, b) && b2 <= b
    ensures Lean(c, b2)
  {
    hide Typed;
    forall r | r in b2 ensures r in b && b2[r] <= b[r] {}
  }

  predicate IsPart(r: Rec, start: nat) { !IsHead(r) && VersionOf(r.item.chunk) == start }

  /** Any number of heads, but at most one item per chunk index and one index per version. */
  ghost predicate Mixed(c: Codec, b: multiset<Rec>) {
    && (forall r | r in b :: Typed(c, r))
    && (forall r | r in b && (!IsHead(r) || r.item.data.Index?) :: b[r] == 1)
    && (forall r, q | r in b && q in b && !IsHead(r) && !IsHead(q) && r.item.chunk == q.item.chunk :: r == q)
    && (forall r, q | r in b && q in b && IsHead(r) && IsHead(q) && SameVersion(r, q) :: r == q)
  }

  /** `cs` are the chunks of one version, in some order. */
  ghost predicate Adds(b: multiset<Rec>, start: nat, cs: seq<Rec>) {
    forall r :: multiset(cs)[r] == if IsPart(r, start) then b[r] else 0
  }

  function TotalSize(cs: seq<Rec>): nat {
    if cs == [] then 0 else TotalSize(cs[..|cs| - 1]) + SizeOf(cs[|cs| - 1])
  }

  function SizeOf(r: Rec): nat { if r.item.data.SizedData? then r.item.data.size else 0 }

  /** The chunks of an index add up to what it says. Any other head stands for itself. */
  ghost predicate Consistent(b: multiset<Rec>, q: Rec) {
    q.item.typ == BlobIndex && q.item.data.Index? ==>
      exists cs: seq<Rec> ::
        Adds(b, q.item.data.start, cs) && |cs| == q.item.data.count && TotalSize(cs) == q.item.data.size
  }

  lemma {:induction false} TotalRemove(cs: seq<Rec>, i: nat)
    requires i < |cs|
    ensures TotalSize(cs) == TotalSize(cs[..i] + cs[i + 1..]) + SizeOf(cs[i])
    ensures multiset(cs) == multiset(cs[..i] + cs[i + 1..]) + multiset{cs[i]}
  {
    hide SizeOf;
    var n := |cs| - 1;
    assert cs == cs[..i] + [cs[i]] + cs[i + 1..];
    var rest := cs[..i] + cs[i + 1..];
    if i == n {
      assert rest == cs[..n];
    } else {
      TotalRemove(cs[..n], i);
      assert rest[..n - 1] == cs[..n][..i] + cs[..n][i + 1..];
      assert rest[n - 1] == cs[n] && cs[..n][i] == cs[i];
    }
  }

  /** Counts and sizes do not depend on the order in which the chunks are met. */
  lemma {:induction false} TotalPermuted(xs: seq<Rec>, ys: seq<Rec>)
    requires multiset(xs) == multiset(ys)
    ensures |xs| == |ys| && TotalSize(xs) == TotalSize(ys)
  {
    assert |xs| == |multiset(xs)| == |multiset(ys)| == |ys|;
    if xs != [] {
      var n := |xs| - 1;
      var last := xs[n];
      assert last in multiset(ys);
      var i :| 0 <= i < |ys| && ys[i] == last;
      TotalRemove(ys, i);
      TotalRemove(xs, n);
      assert xs[..n] + xs[n + 1..] == xs[..n];
      CancelSame(multiset(xs[..n]), multiset(ys[..i] + ys[i + 1..]), multiset{last});
      TotalPermuted(xs[..n], ys[..i] + ys[i + 1..]);
    }
  }
}
