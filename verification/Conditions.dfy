/** Where the code needs more than its callers are told: flash on which it goes wrong. When exactly it
    does is said where the code is (Stale, Recovery, Survivors, Scan and the setters of Nvs). */
module Conditions {
  import opened Types
  import opened Sectors
  import opened Flash
  import opened Pages
  import opened PageOps
  import opened Scan
  import opened Store
  import opened Instance
  import opened Recovery
  import opened Names
  import opened Observations
  import opened Changes
  import opened Cleanup
  import opened Duplicates
  import opened Winners
  import opened Survivors
  import opened Stale
  import opened Boot

  // ---- flash with one item a sector ----

  /** A page that holds one item of one entry. */
  function OneItem(c: Codec, state: PageState, sequence: nat, it: Item): (s: Sector)
    requires |c.format(it)| == 32
  {
    Sector(Some(Header(state, sequence, true)), seq(MAP_SIZE, j => if j == 0 then Written else Empty),
           c.format(it) + Ones(BODY_SIZE - 32))
  }

  /** A page without items. */
  function NoItem(state: PageState, sequence: nat): Sector {
    Sector(Some(Header(state, sequence, true)), seq(MAP_SIZE, j => Empty), Ones(BODY_SIZE))
  }

  predicate Counted(state: PageState) { state in {Active, Full, Freeing} }

  lemma OneItemSector(c: Codec, state: PageState, sequence: nat, it: Item)
    requires CodecOk(c) && WfItem(it) && it.span == 1 && Counted(state) && GoodRec(c, ScalarRec(c, it))
    ensures var s := OneItem(c, state, sequence, it);
            && Shape(s) && SectorOk(c, s) && ViewOf(c, s) == Used(state, sequence, [Loc(0, ScalarRec(c, it))])
  {
    var s := OneItem(c, state, sequence, it);
    assert Shape(s) && Entry(s, 0) == c.format(it);
    assert Entries(s, 0, 1) == c.format(it);
    assert RecAt(c, s, 0) == ScalarRec(c, it);
    assert Judge(c, s, 0) == Keep(ScalarRec(c, it));
    ScanKept(c, s, 0, ScalarRec(c, it));
    ScanBlank(c, s, 1);
    assert ScanFrom(c, s, 0) == [Loc(0, ScalarRec(c, it))];
    assert Tidy(c, s, 1, 1);
    assert SoundAt(c, s, 1, 1);
  }

  lemma NoItemSector(c: Codec, state: PageState, sequence: nat)
    requires CodecOk(c) && Counted(state)
    ensures var s := NoItem(state, sequence); Shape(s) && SectorOk(c, s) && ViewOf(c, s) == Used(state, sequence, [])
  {
    var s := NoItem(state, sequence);
    ScanBlank(c, s, 0);
    assert SoundAt(c, s, 0, 0);
  }

  lemma BlankSector(c: Codec)
    ensures SectorOk(c, ErasedSector()) && ViewOf(c, ErasedSector()) == Free
  {}

  /** With one item on all of the flash, its key has its value and no other key has one. */
  lemma LoneResolves(c: Codec, vs: seq<PageView>, gc: Gc, r: Rec, v: Value)
    requires vs != [] && vs[0].Used? && vs[0].locs == [Loc(0, r)]
    requires forall a | 1 <= a < |vs| && vs[a].Used? :: vs[a].locs == []
    requires Typed(c, r) && IsHead(r) && Carries(c, multiset{r}, r, v)
    ensures AllResolve(c, vs, gc, map[KeyOf(r.item) := v])
  {
    hide Typed, Carries;
    forall k: FullKey ensures Resolves(c, vs, gc, k, Get(map[KeyOf(r.item) := v], k)) {
      LoneBag(vs, r, k);
      if k == KeyOf(r.item) { assert Regular(c, multiset{r}); }
      assert Reads(c, Bag(vs, k), Get(map[KeyOf(r.item) := v], k));
    }
  }

  lemma {:induction false} LoneBag(vs: seq<PageView>, r: Rec, k: FullKey)
    requires vs != [] && vs[0].Used? && vs[0].locs == [Loc(0, r)]
    requires forall a | 1 <= a < |vs| && vs[a].Used? :: vs[a].locs == []
    ensures Bag(vs, k) == OneOf(r, k)
  {
    hide OneOf, KeyRecs;
    var n := |vs| - 1;
    KeyRecsNone(k);
    if n == 0 {
      KeyRecsCons(Loc(0, r), [], k);
      assert [Loc(0, r)] + [] == [Loc(0, r)];
    } else {
      LoneBag(vs[..n], r, k);
      assert PageBag(vs[n], k) == multiset{};
    }
  }

  // ---- newest_page_holds_all_items_of looks at hashed items only (compaction.rs) ----

  /** The entry of one namespace on a page being moved, a newer page, and one to spare. */
  function MovedName(c: Codec, ws: nat, name: Key): Hal
    requires |c.format(NamespaceItem(name, 1))| == 32
  {
    Hal([OneItem(c, Freeing, 1, NamespaceItem(name, 1)), NoItem(Full, 2), ErasedSector()], None, ws, c)
  }

  /** A power cut can leave flash from which the next boot loses the entry of a namespace. */
  lemma NamesLost(c: Codec, ws: nat, name: Key)
    requires CodecOk(c) && WriteSize(ws)
    ensures |c.format(NamespaceItem(name, 1))| == 32
    ensures var h, kv := MovedName(c, ws, name), map[NameKey(name) := NameValue(1)];
            RecoversIn(h, kv, Moving(0, None)) && HalOk(h) && LosesNames(View(h), Moving(0, None))
  {
    hide ViewOf, SectorOk, ScanFrom;
    var it := NamespaceItem(name, 1);
    NameTyped(c, name);
    OneItemSector(c, Freeing, 1, it);
    NoItemSector(c, Full, 2);
    BlankSector(c);
    var h, r := MovedName(c, ws, name), ScalarRec(c, it);
    var vs := View(h);
    assert vs[0] == Used(Freeing, 1, [Loc(0, r)]) && vs[1] == Used(Full, 2, []) && vs[2] == Free;
    assert vs[2].Free? && GcOk(vs, Moving(0, None));
    assert Logical(vs, Moving(0, None)) == vs;
    LoneResolves(c, vs, Moving(0, None), r, NameValue(1));
    assert vs[1].sequence > vs[0].sequence;
  }

  lemma NameTyped(c: Codec, name: Key)
    requires CodecOk(c)
    ensures var it := NamespaceItem(name, 1); var r := ScalarRec(c, it);
            WfItem(it) && Typed(c, r) && IsHead(r) && GoodRec(c, r) && KeyOf(it) == NameKey(name) &&
            Carries(c, multiset{r}, r, NameValue(1))
  {
    IndexByte(1);
  }

  // ---- a page of the reserve keeps the entry map it was loaded with (compaction.rs, free_page) ----

  /** A header that was not written in full, over a map that says that the first entry is erased. */
  function CorruptSector(): Sector {
    Sector(Some(Header(Active, 7, false)), seq(MAP_SIZE, j => if j == 0 then Erased else Empty), Ones(BODY_SIZE))
  }

  /** A full page with one key, and one sector with a corrupt header. */
  function StaleFlash(c: Codec, ws: nat, key: Key): Hal
    requires |c.format(KeyItem(key))| == 32
  {
    Hal([OneItem(c, Full, 1, KeyItem(key)), CorruptSector()], None, ws, c)
  }

  lemma StaleReserve(c: Codec, ws: nat, key: Key)
    requires CodecOk(c) && WriteSize(ws)
    ensures |c.format(KeyItem(key))| == 32
    ensures var h := StaleFlash(c, ws, key);
            && HalOk(h) && FlashFit(h) && SequencesDiffer(View(h)) && NoMove(View(h)) && AllFull(View(h))
            && Frees(View(h)) == 1 && View(h)[0].Used? && View(h)[1].Free?
            && HeadOf(View(h), FullKey(1, key), 1, Loc(0, ScalarRec(c, KeyItem(key))))
    ensures forall fr: seq<ThinPage>, i: nat, n: nat |
              MapsKept(StaleFlash(c, ws, key), fr) && i < |fr| && fr[i].addr == 1 && n > 0 :: !Unspoilt(fr[i].emap, n)
  {
    hide ViewOf, SectorOk, ScanFrom;
    KeyTyped(c, key);
    OneItemSector(c, Full, 1, KeyItem(key));
    FitSector(c, OneItem(c, Full, 1, KeyItem(key)));
    CorruptFit(c);
    var h, r := StaleFlash(c, ws, key), ScalarRec(c, KeyItem(key));
    var vs := View(h);
    assert vs == [Used(Full, 1, [Loc(0, r)]), Free];
    FreesSnoc([], vs[0]);
    FreesSnoc([vs[0]], Free);
    assert [] + [vs[0]] == [vs[0]] && [vs[0]] + [Free] == vs;
    assert HasAt(vs, 0, 1, Loc(0, r));
    assert CorruptSector().emap[0] == Erased;
  }

  /** A head that is no index stands; with no other head of its key, it survives. */
  lemma LoneSurvives(vs: seq<PageView>, k: FullKey, s: nat, loc: Loc)
    requires Loadable(vs) && HeadOf(vs, k, s, loc) && loc.rec.item.typ != BlobIndex
    requires forall t: nat, x: Loc | HeadOf(vs, k, t, x) :: SamePlaceAs(t, x, s, loc)
    ensures Survivor(vs, k, s, loc)
  {
    hide Has, NotedIn, WfViews, SinglePlaces;
    var bi := NotedIn(vs);
    NotesTaken(vs, bi);
    if Condemned(bi, s, loc.index) {
      var bk :| NotedAt(bi, bk, s, loc.index) && Doomed(bi, bk);
      NotedFacts(vs, bi, bk);
      var loc2 :| NotedIndex(vs, bk, bi[bk].index.value, loc2);
      OneThere(vs, bi, s, loc, loc2);
      assert false;
    }
  }

  lemma StaleSurvives(c: Codec, ws: nat, key: Key)
    requires CodecOk(c) && WriteSize(ws)
    ensures |c.format(KeyItem(key))| == 32
    ensures var h, k := StaleFlash(c, ws, key), FullKey(1, key);
            HalOk(h) && WfViews(View(h)) && Survivor(View(h), k, 1, Loc(0, ScalarRec(c, KeyItem(key))))
  {
    hide ViewOf, SectorOk, ScanFrom;
    StaleReserve(c, ws, key);
    KeyTyped(c, key);
    OneItemSector(c, Full, 1, KeyItem(key));
    CorruptFit(c);
    var h, loc := StaleFlash(c, ws, key), Loc(0, ScalarRec(c, KeyItem(key)));
    var vs := View(h);
    assert vs == [Used(Full, 1, [loc]), Free];
    forall s: nat, x: Loc | Has(vs, s, x) ensures s == 1 && x == loc { var a: nat :| HasAt(vs, a, s, x); }
    assert Loadable(vs);
    LoneSurvives(vs, FullKey(1, key), 1, loc);
  }

  lemma FitSector(c: Codec, s: Sector)
    requires CodecOk(c) && SectorOk(c, s)
    ensures Fit(c, s)
  {
    hide ScanFrom, Sound, GoodLocs, Markable;
    if InUse(s) { SoundMarkable(c, s); }
  }

  lemma CorruptFit(c: Codec)
    ensures Shape(CorruptSector()) && Fit(c, CorruptSector()) && ViewOf(c, CorruptSector()) == Free
  {}

  // ---- a lost namespace leaves its keys behind (items.rs, set_str and set_blob) ----

  function KeyItem(key: Key): Item { Item(1, U8, 1, NO_CHUNK, key, Raw(Ones(8))) }

  /** One page with a key of namespace 1, and no namespace, and four blank sectors. */
  function Orphaned(c: Codec, ws: nat, key: Key): Hal
    requires |c.format(KeyItem(key))| == 32
  {
    Hal([OneItem(c, Active, 1, KeyItem(key))] + seq(4, i => ErasedSector()), None, ws, c)
  }

  /** Such flash stands for a store in which any new name is given the index that has the key: the
      setters of strings and blobs leave it in no state at all. */
  lemma IndexInherited(c: Codec, ws: nat, name: Key, key: Key)
    requires CodecOk(c) && WriteSize(ws)
    ensures |c.format(KeyItem(key))| == 32
    ensures var h, kv := Orphaned(c, ws, key), map[FullKey(1, key) := Prim(U8, Ones(8))];
            && RecoversIn(h, kv, NoGc) && HalOk(h) && NamesSafe(View(h)) && NamesOk(map[], kv)
            && !NothingLeft(kv, name, key) && NoMove(View(h)) && Frees(View(h)) == 4
  {
    hide ViewOf, SectorOk, ScanFrom, NamesOk, NothingLeft;
    KeyTyped(c, key);
    OneItemSector(c, Active, 1, KeyItem(key));
    BlankSector(c);
    var h, r := Orphaned(c, ws, key), ScalarRec(c, KeyItem(key));
    var kv := map[FullKey(1, key) := Prim(U8, Ones(8))];
    var vs := View(h);
    assert vs == [Used(Active, 1, [Loc(0, r)]), Free, Free, Free, Free];
    FourFree(vs[0]);
    assert GcOk(vs, NoGc) && Logical(vs, NoGc) == vs;
    LoneResolves(c, vs, NoGc, r, Prim(U8, Ones(8)));
    LeftBehind(name, key);
  }

  lemma LeftBehind(name: Key, key: Key)
    ensures var kv := map[FullKey(1, key) := Prim(U8, Ones(8))];
            NamesOk(map[], kv) && !NothingLeft(kv, name, key)
  {
    var kv := map[FullKey(1, key) := Prim(U8, Ones(8))];
    assert NameIndex(kv, name, 1) && Get(kv, FullKey(1, key)).Some?;
  }

  lemma FourFree(v: PageView)
    requires v.Used?
    ensures Frees([v, Free, Free, Free, Free]) == 4
  {
    ManyFree(v, 4);
    assert [v] + seq(4, i => Free) == [v, Free, Free, Free, Free];
  }

  lemma {:induction false} ManyFree(v: PageView, n: nat)
    requires v.Used?
    ensures Frees([v] + seq(n, i => Free)) == n
  {
    if n == 0 {
      FreesSnoc([], v);
      assert [] + [v] == [v] + seq(0, i => Free);
    } else {
      ManyFree(v, n - 1);
      FreesSnoc([v] + seq(n - 1, i => Free), Free);
      assert [v] + seq(n - 1, i => Free) + [Free] == [v] + seq(n, i => Free);
    }
  }

  lemma FreesSnoc(vs: seq<PageView>, v: PageView)
    ensures Frees(vs + [v]) == Frees(vs) + (if v.Free? then 1 else 0)
  {
    assert (vs + [v])[..|vs|] == vs;
  }

  lemma KeyTyped(c: Codec, key: Key)
    requires CodecOk(c)
    ensures var it := KeyItem(key); var r := ScalarRec(c, it);
            WfItem(it) && Typed(c, r) && IsHead(r) && GoodRec(c, r) && KeyOf(it) == FullKey(1, key) &&
            Carries(c, multiset{r}, r, Prim(U8, Ones(8)))
  {}

  // ---- the last index met stands for its version (init.rs, compaction.rs) ----

  function VersionIndex(key: Key, size: nat, count: nat): Item {
    Item(1, BlobIndex, 1, NO_CHUNK, key, Index(size, count, 0))
  }

  /** Two indices of version 0 of one blob that has no chunks: the newer one, of five bytes, comes
      first on flash, and the older one is that of an empty blob. */
  function Twofold(c: Codec, ws: nat, key: Key): Hal
    requires |c.format(VersionIndex(key, 5, 1))| == 32 && |c.format(VersionIndex(key, 0, 0))| == 32
  {
    Hal([OneItem(c, Full, 2, VersionIndex(key, 5, 1)), OneItem(c, Full, 1, VersionIndex(key, 0, 0)), ErasedSector()],
        None, ws, c)
  }

  /** The cleanup keeps the newer index, though only the older one is whole. */
  lemma BrokenKept(c: Codec, ws: nat, key: Key)
    requires CodecOk(c) && WriteSize(ws)
    ensures |c.format(VersionIndex(key, 5, 1))| == 32 && |c.format(VersionIndex(key, 0, 0))| == 32
    ensures var h, k := Twofold(c, ws, key), FullKey(1, key);
            var x, y := Loc(0, ScalarRec(c, VersionIndex(key, 5, 1))), Loc(0, ScalarRec(c, VersionIndex(key, 0, 0)));
            && HalOk(h) && FlashFit(h) && SequencesDiffer(View(h)) && NoMove(View(h)) && WfViews(View(h))
            && Survivor(View(h), k, 2, x) && !WholeHead(View(h), k, x.rec.item) && NewestWhole(View(h), k, 1, y)
            && !BrokenKnown(View(h), k)
  {
    hide ViewOf, SectorOk, ScanFrom, Survivor, WholeHead, NewestWhole, BrokenKnown;
    IndexGood(c, key, 5, 1);
    IndexGood(c, key, 0, 0);
    OneItemSector(c, Full, 2, VersionIndex(key, 5, 1));
    OneItemSector(c, Full, 1, VersionIndex(key, 0, 0));
    BlankSector(c);
    var h := Twofold(c, ws, key);
    var x, y := Loc(0, ScalarRec(c, VersionIndex(key, 5, 1))), Loc(0, ScalarRec(c, VersionIndex(key, 0, 0)));
    var vs := View(h);
    assert vs == [Used(Full, 2, [x]), Used(Full, 1, [y]), Free];
    SectorsFit(h);
    TwofoldViews(key, x, y, vs);
  }

  lemma IndexGood(c: Codec, key: Key, size: nat, count: nat)
    requires CodecOk(c) && size < 256 && count < 256
    ensures WfItem(VersionIndex(key, size, count)) && GoodRec(c, ScalarRec(c, VersionIndex(key, size, count)))
    ensures |c.format(VersionIndex(key, size, count))| == 32
  {}

  lemma TwofoldViews(key: Key, x: Loc, y: Loc, vs: seq<PageView>)
    requires x.rec.item == VersionIndex(key, 5, 1) && y.rec.item == VersionIndex(key, 0, 0) && x.index == 0 == y.index
    requires vs == [Used(Full, 2, [x]), Used(Full, 1, [y]), Free]
    ensures WfViews(vs) && Survivor(vs, FullKey(1, key), 2, x) && !WholeHead(vs, FullKey(1, key), x.rec.item)
    ensures NewestWhole(vs, FullKey(1, key), 1, y) && !BrokenKnown(vs, FullKey(1, key))
  {
    hide ViewParts;
    var k, bk := FullKey(1, key), BlobKey(1, 0, key);
    TwofoldPlaces(x, y, vs);
    TwofoldNotes(key, x, y, vs);
    TwofoldParts(key, x, y, vs);
    var bi := NotedIn(vs);
    assert HeadOf(vs, k, 2, x) && HeadOf(vs, k, 1, y);
    forall bk2 ensures !NotedAt(bi, bk2, 2, 0) {}
    assert Standing(vs, bi, k, 2, x);
    assert Survivor(vs, k, 2, x);
    assert Broken(vs, k, 2, x) && !Known(bi, 2, 0);
  }

  lemma TwofoldPlaces(x: Loc, y: Loc, vs: seq<PageView>)
    requires vs == [Used(Full, 2, [x]), Used(Full, 1, [y]), Free]
    ensures forall s: nat, loc: Loc :: Has(vs, s, loc) <==> (s == 2 && loc == x) || (s == 1 && loc == y)
  {
    assert HasAt(vs, 0, 2, x) && HasAt(vs, 1, 1, y);
  }

  lemma TwofoldNotes(key: Key, x: Loc, y: Loc, vs: seq<PageView>)
    requires x.rec.item == VersionIndex(key, 5, 1) && y.rec.item == VersionIndex(key, 0, 0) && x.index == 0 == y.index
    requires vs == [Used(Full, 2, [x]), Used(Full, 1, [y]), Free]
    ensures WfViews(vs) && NotedIn(vs) == map[BlobKey(1, 0, key) := Observed(Some(IndexEntry(0, 1, 0, 0)), 0, 0)]
  {
    var bk := BlobKey(1, 0, key);
    assert WfViews(vs);
    assert vs[..2] == [vs[0], vs[1]] && vs[..1] == [vs[0]] && vs[..0] == [];
    assert [x][..0] == [] && [y][..0] == [];
    NoteOne(map[], 2, x);
    assert vs[..1][..0] == vs[..0];
    var b1 := NotedIn(vs[..1]);
    assert NotedIn(vs[..0]) == map[];
    assert vs[..1][0].locs == [x] && |vs[..1]| - 1 == 0;
    assert b1 == NoteAll(map[], 2, [x]);
    NoteOne(b1, 1, y);
    assert vs[..2][..1] == vs[..1];
    var b2 := NotedIn(vs[..2]);
    assert b2 == NoteAll(b1, 1, [y]);
    assert NotedIn(vs) == b2;
  }

  lemma NoteOne(bi: BlobIndexMap, sequence: nat, loc: Loc)
    requires WfItem(loc.rec.item)
    ensures NoteAll(bi, sequence, [loc]) == Note(bi, sequence, loc.index, loc.rec.item)
  {
    assert [loc][..0] == [];
  }

  lemma TwofoldParts(key: Key, x: Loc, y: Loc, vs: seq<PageView>)
    requires x.rec.item == VersionIndex(key, 5, 1) && y.rec.item == VersionIndex(key, 0, 0)
    requires vs == [Used(Full, 2, [x]), Used(Full, 1, [y]), Free]
    ensures ViewParts(vs, BlobKey(1, 0, key)) == []
  {
    var bk := BlobKey(1, 0, key);
    assert vs[..2] == [vs[0], vs[1]] && vs[..2][..1] == [vs[0]] && vs[..2][..1][..0] == [];
    assert Parts([x], bk) == [] by { assert [x][..0] == []; }
    assert Parts([y], bk) == [] by { assert [y][..0] == []; }
    assert ViewParts(vs[..2][..1], bk) == [];
    assert ViewParts(vs[..2], bk) == [];
  }

  // ---- an index of more than one entry (compaction.rs, erase_blob_version) ----

  /** An index that spans two entries, the second of which is an item's. */
  function WideSector(c: Codec, key: Key): Sector {
    Sector(Some(Header(Full, 1, true)), seq(MAP_SIZE, j => if j < 2 then Written else Empty),
           c.format(VersionIndex(key, 0, 0).(span := 2)) + c.format(KeyItem(key)) + Ones(BODY_SIZE - 64))
  }

  lemma WideEntries(c: Codec, key: Key)
    requires CodecOk(c)
    ensures var s := WideSector(c, key); Shape(s) && BlankFrom(s, 2) && s.emap[0] == Written && s.emap[1] == Written
    ensures c.parse(Entry(WideSector(c, key), 0)) == Some(VersionIndex(key, 0, 0).(span := 2))
    ensures c.parse(Entry(WideSector(c, key), 1)) == Some(KeyItem(key))
  {
    var it, inner := VersionIndex(key, 0, 0).(span := 2), KeyItem(key);
    assert WfItem(it) && WfItem(inner);
    var s := WideSector(c, key);
    assert |c.format(it)| == 32 && |c.format(inner)| == 32;
    assert Entry(s, 0) == c.format(it);
    assert Entry(s, 1) == c.format(inner);
  }

  /** The cleanup erases one entry of an index. Of an index that spans two, the second then counts as
      an item of its own. */
  lemma WideIndex(c: Codec, key: Key)
    requires CodecOk(c)
    ensures exists s: Sector :: Shape(s) && Uncovers(c, s)
  {
    hide WideSector, ScanFrom;
    WideEntries(c, key);
    var s := WideSector(c, key);
    assert Judge(c, s, 0) == Keep(RecAt(c, s, 0));
    ScanKept(c, s, 0, RecAt(c, s, 0));
    ScanBlank(c, s, 2);
    assert ScanFrom(c, s, 0) == [Loc(0, RecAt(c, s, 0))];
    var t := MarkErased(s, 0, 1);
    assert Entry(t, 1) == Entry(s, 1);
    assert Judge(c, t, 1) == Keep(RecAt(c, t, 1));
    assert Judge(c, t, 0) == Drop(1);
    ScanDropped(c, t, 0, 1);
    ScanKept(c, t, 1, RecAt(c, t, 1));
    var shown := Loc(1, RecAt(c, t, 1));
    assert ScanFrom(c, t, 0)[0] == shown;
    assert shown in ScanFrom(c, t, 0) && shown !in ScanFrom(c, s, 0);
    assert Uncovers(c, s);
  }

  /** Erasing the first entry of the first item shows an item that was not there. */
  ghost predicate Uncovers(c: Codec, s: Sector)
    requires Shape(s)
  {
    && ScanFrom(c, s, 0) != [] && ScanFrom(c, s, 0)[0].index == 0 && ScanFrom(c, s, 0)[0].rec.item.typ == BlobIndex
    && exists loc :: loc in ScanFrom(c, MarkErased(s, 0, 1), 0) && loc !in ScanFrom(c, s, 0)
  }

  // ---- the scan counts the payload of a wide namespace entry twice (init.rs) ----

  /** A sector with such an entry exists for every codec; what the scan makes of one is
      Scan.ScannedPage. */
  lemma WideEntry(c: Codec)
    requires CodecOk(c)
    ensures exists s: Sector :: Shape(s) && !Narrow(ScanFrom(c, s, 0))
  {
    var it := Item(0, U8, 2, NO_CHUNK, seq(16, i => 0 as byte), Raw(Ones(8)));
    assert WfItem(it);
    var s := Sector(Some(Header(Full, 1, true)), seq(MAP_SIZE, j => if j < 2 then Written else Empty), c.format(it) +
        Ones(BODY_SIZE - 32));
    assert Entry(s, 0) == c.format(it);
    assert PayloadWritten(s, 0, 2);
    assert Judge(c, s, 0) == Keep(RecAt(c, s, 0));
    ScanKept(c, s, 0, RecAt(c, s, 0));
    assert ScanFrom(c, s, 0)[0].rec.item == it;
  }

  // ---- the scan takes an unmarked item whose payload was erased (init.rs) ----

  /** Such a sector exists for every codec: the item is in the hash list after this boot, and gone
      after the next. */
  lemma RepairForgotten(c: Codec)
    requires CodecOk(c)
    ensures exists s: Sector :: Shape(s) && Narrow(ScanFrom(c, s, 0)) && !Markable(c, s)
  {
    var data: seq<byte> := [0];
    var it := Item(1, Sized, 2, NO_CHUNK, seq(16, i => 0 as byte), SizedData(1, c.crc(data)));
    assert WfItem(it);
    var s := Sector(Some(Header(Full, 1, true)), seq(MAP_SIZE, j => if j == 1 then Erased else Empty),
                    c.format(it) + data + Ones(BODY_SIZE - 33));
    TornEntries(c, s, it, data);
    assert Judge(c, s, 0) == Keep(RecAt(c, s, 0));
    ScanKept(c, s, 0, RecAt(c, s, 0));
    assert BlankFrom(s, 2);
    ScanBlank(c, s, 2);
    assert ScanFrom(c, s, 0) == [Loc(0, RecAt(c, s, 0))];
    assert CoversAt(ScanFrom(c, s, 0), 0, 1);
  }

  lemma TornEntries(c: Codec, s: Sector, it: Item, data: seq<byte>)
    requires CodecOk(c) && WfItem(it) && it.typ == Sized && it.span == 2 && it.data == SizedData(1, c.crc(data)) &&
             |data| == 1
    requires Shape(s) && s.body == c.format(it) + data + Ones(BODY_SIZE - 33)
    ensures !BlankEntry(s, 0) && c.parse(Entry(s, 0)) == Some(it) && DataValid(c, RecAt(c, s, 0))
  {
    assert |c.format(it)| == 32;
    assert Entry(s, 0) == c.format(it);
    BlankBytes(s, 0);
    assert s.body[32] == data[0];
    assert DataOf(RecAt(c, s, 0)) == data;
  }
}
