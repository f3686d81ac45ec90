/** What the boot cleanup (compaction.rs) keeps, whatever was found on flash: damaged data, repeated
    chunks, several indices of one version, hashes that collide. */
module Survivors {
  import opened Types
  import opened Sectors
  import opened Flash
  import opened Pages
  import opened PageOps
  import opened Scan
  import opened Store
  import opened Instance
  import opened Moves
  import opened Lookup
  import opened Changes
  import opened Setting
  import opened Winners
  import opened Observations
  import opened Cleanup
  import opened Duplicates

  // ---- the first cleanup, by what the scan noted ----

  /** The index noted for version bk is the one at this place. */
  predicate NotedAt(bi: BlobIndexMap, bk: BlobKey, s: nat, index: nat) {
    bk in bi && bi[bk].index.Some? && bi[bk].index.value.pageSequence == s && bi[bk].index.value.itemIndex == index
  }

  /** The place is that of the index noted for a version given up. */
  predicate Struck(bi: BlobIndexMap, live: set<BlobKey>, s: nat, index: nat) {
    exists bk :: bk in bi && bk !in live && NotedAt(bi, bk, s, index)
  }

  /** Version x of the same blob adds up too, and its index is newer. */
  predicate Outdone(bi: BlobIndexMap, bk: BlobKey, x: BlobKey) {
    && x in bi && bk in bi && KeyFor(x) == KeyFor(bk) && AddsUp(bi[x]) && AddsUp(bi[bk])
    && Earlier(bi[bk].index.value, bi[x].index.value)
  }

  /** The version does not add up, or another one does and is newer. */
  ghost predicate Doomed(bi: BlobIndexMap, bk: BlobKey)
    requires bk in bi
  {
    !AddsUp(bi[bk]) || exists x :: Outdone(bi, bk, x)
  }

  ghost predicate Undoomed(bi: BlobIndexMap, live: set<BlobKey>) {
    live <= bi.Keys && forall bk | bk in bi :: bk in live <==> !Doomed(bi, bk)
  }

  /** Nothing new appeared, and the heads gone are the noted indices of the versions not in `live`. */
  ghost predicate HeadsLeft(vs0: seq<PageView>, vs: seq<PageView>, bi: BlobIndexMap, live: set<BlobKey>) {
    && Fewer(vs0, vs)
    && forall s: nat, loc: Loc | Has(vs0, s, loc) && IsHead(loc.rec) ::
         (Has(vs, s, loc) <==> !Struck(bi, live, s, loc.index))
  }

  /** The scan's notes, against the pages they were taken from. */
  ghost predicate NotesHold(vs: seq<PageView>, bi: BlobIndexMap) {
    && SinglePlaces(vs)
    && forall bk | bk in bi ::
         && bk.ns != 0 && bk.start in {0, 0x80}
         && (bi[bk].index.Some? ==> exists loc :: NotedIndex(vs, bk, bi[bk].index.value, loc))
  }

  ghost predicate NotedIndex(vs: seq<PageView>, bk: BlobKey, e: IndexEntry, loc: Loc) {
    IndexHere(vs, bk, e, loc) && IsHead(loc.rec) && loc.rec.item.span == 1
  }

  /** The views of a scan: one item a place, and items of the shapes asked for. */
  ghost predicate Loadable(vs: seq<PageView>) {
    && WfViews(vs) && SinglePlaces(vs)
    && forall s: nat, loc: Loc | Has(vs, s, loc) :: Shaped(loc)
  }

  predicate Shaped(loc: Loc) {
    && loc.index < ENTRIES_PER_PAGE && (loc.rec.item.typ != BlobData ==> loc.rec.item.chunk == NO_CHUNK)
    && (loc.rec.item.typ == BlobIndex ==> loc.rec.item.span == 1)
  }

  lemma ViewLoadable(h: Hal, ps: seq<ThinPage>, fr: seq<ThinPage>)
    requires BaseOk(h, ps, fr) && HalOk(h)
    ensures Loadable(View(h))
  {
    hide BaseOk, View, Has, ScanFrom, GoodRec, SinglePlaces;
    InstPlaces(h, ps, fr);
    forall a | 0 <= a < |View(h)| && View(h)[a].Used? ensures WfLocs(View(h)[a].locs) { ViewWf(h, ps, fr, a); }
    forall s: nat, loc: Loc | Has(View(h), s, loc) ensures Shaped(loc) {
      var i, j := PageOfPlace(h, ps, fr, s, loc);
      LocGood(h, ps, fr, i, j);
      GoodShaped(h.codec, loc.rec);
      ScanOrdered(h.codec, h.sectors[ps[i].addr], 0);
    }
  }

  lemma ViewWf(h: Hal, ps: seq<ThinPage>, fr: seq<ThinPage>, a: nat)
    requires BaseOk(h, ps, fr) && HalOk(h) && a < |View(h)| && View(h)[a].Used?
    ensures WfLocs(View(h)[a].locs)
  {
    hide BaseOk, View, ScanFrom, GoodRec;
    var i := PageOfSector(h, ps, fr, a);
    forall j | 0 <= j < |View(h)[a].locs| ensures WfItem(View(h)[a].locs[j].rec.item) { LocGood(h, ps, fr, i, j); }
  }

  lemma GoodShaped(c: Codec, r: Rec)
    requires GoodRec(c, r)
    ensures r.item.typ != BlobData ==> r.item.chunk == NO_CHUNK
    ensures r.item.typ == BlobIndex ==> r.item.span == 1
  {}

  lemma NotesTaken(vs: seq<PageView>, bi: BlobIndexMap)
    requires Loadable(vs) && bi == NotedIn(vs)
    ensures NotesHold(vs, bi)
    ensures HeadsLeft(vs, vs, bi, bi.Keys)
  {
    hide Has, NotedIn, SinglePlaces;
    forall bk | bk in bi
      ensures bk.ns != 0 && bk.start in {0, 0x80}
      ensures bi[bk].index.Some? ==> exists loc :: NotedIndex(vs, bk, bi[bk].index.value, loc)
    {
      ViewDomain(vs, bk);
      ViewIndex(vs, bk);
      if bi[bk].index.Some? {
        var loc :| IndexHere(vs, bk, bi[bk].index.value, loc);
        assert Shaped(loc);
        assert NotedIndex(vs, bk, bi[bk].index.value, loc);
      }
    }
  }

  lemma NotedFacts(vs: seq<PageView>, bi: BlobIndexMap, bk: BlobKey)
    requires NotesHold(vs, bi) && bk in bi
    ensures bk.ns != 0 && bk.start in {0, 0x80}
    ensures bi[bk].index.Some? ==> exists loc :: NotedIndex(vs, bk, bi[bk].index.value, loc)
  {}

  /** No two versions have their noted index at one place. */
  lemma NotedOnce(vs: seq<PageView>, bi: BlobIndexMap, bk: BlobKey, x: BlobKey, s: nat, index: nat)
    requires NotesHold(vs, bi) && NotedAt(bi, bk, s, index) && NotedAt(bi, x, s, index)
    ensures bk == x
  {
    hide Has;
    NotedFacts(vs, bi, bk);
    NotedFacts(vs, bi, x);
    var loc :| NotedIndex(vs, bk, bi[bk].index.value, loc);
    var loc2 :| NotedIndex(vs, x, bi[x].index.value, loc2);
    assert loc == loc2;
  }

  /** Of two versions with an index, one is the earlier. */
  lemma NotedOrder(vs: seq<PageView>, bi: BlobIndexMap, bk: BlobKey, x: BlobKey)
    requires NotesHold(vs, bi) && bk in bi && x in bi && bi[bk].index.Some? && bi[x].index.Some? && bk != x
    ensures Earlier(bi[bk].index.value, bi[x].index.value) || Earlier(bi[x].index.value, bi[bk].index.value)
  {
    hide NotesHold;
    var e, e2 := bi[bk].index.value, bi[x].index.value;
    if e.pageSequence == e2.pageSequence && e.itemIndex == e2.itemIndex {
      NotedOnce(vs, bi, bk, x, e.pageSequence, e.itemIndex);
    }
  }

  /** The index of a version still live is where it was noted. */
  lemma NotedStays(vs0: seq<PageView>, vs: seq<PageView>, bi: BlobIndexMap, live: set<BlobKey>, bk: BlobKey, loc: Loc)
    requires NotesHold(vs0, bi) && HeadsLeft(vs0, vs, bi, live) && bk in live && bk in bi && bi[bk].index.Some?
    requires NotedIndex(vs0, bk, bi[bk].index.value, loc)
    ensures NotedIndex(vs, bk, bi[bk].index.value, loc) && IndexHere(vs, bk, bi[bk].index.value, loc)
    ensures HeadOf(vs, KeyFor(bk), bi[bk].index.value.pageSequence, loc)
  {
    hide Has, NotesHold;
    var e := bi[bk].index.value;
    forall x | x in bi && x !in live ensures !NotedAt(bi, x, e.pageSequence, e.itemIndex) {
      if NotedAt(bi, x, e.pageSequence, e.itemIndex) { NotedOnce(vs0, bi, bk, x, e.pageSequence, e.itemIndex); }
    }
  }

  /** A version was erased, index and chunks. */
  lemma StrikeIndex(vs0: seq<PageView>, vs: seq<PageView>, vs2: seq<PageView>, bi: BlobIndexMap, live: set<BlobKey>,
                    bk: BlobKey, loc: Loc)
    requires NotesHold(vs0, bi) && HeadsLeft(vs0, vs, bi, live) && bk in live && bk in bi && bi[bk].index.Some?
    requires NotedIndex(vs0, bk, bi[bk].index.value, loc)
    requires ClearedPlaces(vs, vs2, KeyFor(bk), Some(Place(bi[bk].index.value.pageSequence, loc)), Some(bk.start))
    ensures HeadsLeft(vs0, vs2, bi, live - {bk})
  {
    hide Has, NotesHold;
    var e := bi[bk].index.value;
    assert NotedAt(bi, bk, e.pageSequence, e.itemIndex);
    forall s: nat, l: Loc | Has(vs0, s, l) && IsHead(l.rec)
      ensures Has(vs2, s, l) <==> !Struck(bi, live - {bk}, s, l.index)
    {
      if s == e.pageSequence && l.index == e.itemIndex {
        OneThere(vs0, bi, s, l, loc);
      } else {
        assert !NotedAt(bi, bk, s, l.index);
        StruckSame(bi, live, bk, s, l.index);
      }
    }
  }

  lemma OneThere(vs: seq<PageView>, bi: BlobIndexMap, s: nat, x: Loc, y: Loc)
    requires NotesHold(vs, bi) && Has(vs, s, x) && Has(vs, s, y) && x.index == y.index
    ensures x == y
  {
    hide Has;
  }

  lemma StruckSame(bi: BlobIndexMap, live: set<BlobKey>, bk: BlobKey, s: nat, index: nat)
    requires !NotedAt(bi, bk, s, index)
    ensures Struck(bi, live - {bk}, s, index) <==> Struck(bi, live, s, index)
  {}

  /** Chunks without an index were swept. */
  lemma StrikeChunks(vs0: seq<PageView>, vs: seq<PageView>, vs2: seq<PageView>, bi: BlobIndexMap, live: set<BlobKey>,
                     bk: BlobKey)
    requires HeadsLeft(vs0, vs, bi, live) && bk in bi && bi[bk].index.None? &&
             SweptPlaces(vs, vs2, KeyFor(bk), bk.start)
    ensures HeadsLeft(vs0, vs2, bi, live - {bk})
  {
    hide Has;
    forall s: nat, l: Loc | Has(vs0, s, l) && IsHead(l.rec)
      ensures Has(vs2, s, l) <==> !Struck(bi, live - {bk}, s, l.index)
    {
      StruckSame(bi, live, bk, s, l.index);
    }
  }

  // ---- which versions are given up ----

  /** `versions` are the versions of key k in `live`. */
  ghost predicate AllListed(versions: seq<BlobKey>, k: FullKey, live: set<BlobKey>) {
    Listed(versions, k, live) && forall bk | bk in live && KeyFor(bk) == k :: bk in versions
  }

  /** Of the versions of key k in live0, those gone are earlier than those left. */
  ghost predicate LaterLeft(bi: BlobIndexMap, k: FullKey, live0: set<BlobKey>, live: set<BlobKey>) {
    && live <= live0 <= bi.Keys
    && (forall bk | bk in live0 && KeyFor(bk) != k :: bk in live)
    && (forall x, y | x in live0 && x !in live && y in live && KeyFor(y) == k ::
          bi[x].index.Some? && bi[y].index.Some? && Earlier(bi[x].index.value, bi[y].index.value))
  }

  /** Only the latest version of key k is left. */
  ghost predicate LatestLeft(bi: BlobIndexMap, k: FullKey, live0: set<BlobKey>, live: set<BlobKey>) {
    && LaterLeft(bi, k, live0, live)
    && (forall x, y | x in live && y in live && KeyFor(x) == k == KeyFor(y) :: x == y)
    && ((exists x :: x in live0 && KeyFor(x) == k) ==> exists y :: y in live && KeyFor(y) == k)
  }

  lemma LaterStep(vs: seq<PageView>, bi: BlobIndexMap, k: FullKey, live0: set<BlobKey>, live: set<BlobKey>,
                  versions: seq<BlobKey>, x: nat)
    requires NotesHold(vs, bi) && LaterLeft(bi, k, live0, live) && AllListed(versions, k, live) && x < |versions|
    requires forall y | 0 <= y < |versions| :: versions[y] in bi && bi[versions[y]].index.Some?
    requires forall y | 0 <= y < |versions| :: !Earlier(bi[versions[y]].index.value, bi[versions[x]].index.value)
    ensures LaterLeft(bi, k, live0, live - {versions[x]})
    ensures AllListed(versions[..x] + versions[x + 1..], k, live - {versions[x]})
  {
    hide NotesHold;
    var bk, rest := versions[x], versions[..x] + versions[x + 1..];
    ListedShorter(versions, k, live, x);
    forall y | y in live - {bk} && KeyFor(y) == k
      ensures y in rest && bi[y].index.Some? && Earlier(bi[bk].index.value, bi[y].index.value)
    {
      var j :| 0 <= j < |versions| && versions[j] == y;
      assert rest[if j < x then j else j - 1] == y;
      NotedOrder(vs, bi, bk, y);
    }
  }

  /** Down to one version, it is the latest. */
  lemma LatestDone(bi: BlobIndexMap, k: FullKey, live0: set<BlobKey>, live: set<BlobKey>, versions: seq<BlobKey>)
    requires LaterLeft(bi, k, live0, live) && AllListed(versions, k, live) && |versions| <= 1
    requires (exists x :: x in live0 && KeyFor(x) == k) ==> versions != []
    ensures LatestLeft(bi, k, live0, live)
  {
    if versions != [] { assert versions[0] in live && KeyFor(versions[0]) == k; }
    forall x, y | x in live && y in live && KeyFor(x) == k == KeyFor(y) ensures x == y {
      assert x in versions && y in versions;
    }
  }

  /** Where the walk stands: of the keys in `keys`, and of the versions in `todo`, nothing is decided. */
  ghost predicate Decided(bi: BlobIndexMap, live: set<BlobKey>, todo: set<BlobKey>, keys: set<FullKey>) {
    && live <= bi.Keys
    && forall bk | bk in bi && bk !in todo ::
         (bk in live <==> AddsUp(bi[bk]) && (KeyFor(bk) in keys || !Doomed(bi, bk)))
  }

  lemma LatestDecided(bi: BlobIndexMap, k: FullKey, live0: set<BlobKey>, live: set<BlobKey>, keys: set<FullKey>)
    requires Decided(bi, live0, {}, keys + {k}) && k !in keys && LatestLeft(bi, k, live0, live)
    ensures Decided(bi, live, {}, keys)
  {
    forall bk | bk in bi
      ensures bk in live <==> AddsUp(bi[bk]) && (KeyFor(bk) in keys || !Doomed(bi, bk))
    {
      if KeyFor(bk) == k && AddsUp(bi[bk]) {
        assert bk in live0;
        var last :| last in live && KeyFor(last) == k;
        assert AddsUp(bi[last]) && last in live0;
        if bk !in live { assert Outdone(bi, bk, last); }
      }
    }
  }

  lemma DecidedEnd(bi: BlobIndexMap, live: set<BlobKey>)
    requires Decided(bi, live, {}, {})
    ensures Undoomed(bi, live)
  {}

  /** A blob keeps at most one version. */
  lemma OneVersionLeft(vs: seq<PageView>, bi: BlobIndexMap, live: set<BlobKey>, x: BlobKey, y: BlobKey)
    requires NotesHold(vs, bi) && Undoomed(bi, live) && x in live && y in live && KeyFor(x) == KeyFor(y)
    ensures x == y
  {
    hide NotesHold;
    if x != y { OneOutdone(vs, bi, x, y); }
  }

  lemma OneOutdone(vs: seq<PageView>, bi: BlobIndexMap, x: BlobKey, y: BlobKey)
    requires NotesHold(vs, bi) && x in bi && y in bi && AddsUp(bi[x]) && AddsUp(bi[y]) && KeyFor(x) == KeyFor(y) &&
             x != y
    ensures Outdone(bi, x, y) || Outdone(bi, y, x)
  {
    hide NotesHold;
    NotedOrder(vs, bi, x, y);
  }

  /** The first walk: of the versions looked at, those that add up are listed by key, and the others
      are gone. */
  ghost predicate Sifted(bi: BlobIndexMap, live: set<BlobKey>, todo: set<BlobKey>,
                         consistent: map<FullKey, seq<BlobKey>>) {
    && todo <= live <= bi.Keys
    && (forall bk | bk in bi && bk !in todo :: bk in live <==> AddsUp(bi[bk]))
    && (forall k | k in consistent :: consistent[k] != [] && AllListed(consistent[k], k, live - todo))
    && (forall bk | bk in live && bk !in todo :: KeyFor(bk) in consistent)
  }

  lemma SiftedStart(bi: BlobIndexMap)
    ensures Sifted(bi, bi.Keys, bi.Keys, map[])
  {}

  lemma SiftedMore(bi: BlobIndexMap, live0: set<BlobKey>, todo0: set<BlobKey>, consistent0: map<FullKey, seq<BlobKey>>,
                   bk: BlobKey, live: set<BlobKey>, todo: set<BlobKey>, consistent: map<FullKey, seq<BlobKey>>)
    requires Sifted(bi, live0, todo0, consistent0) && bk in todo0 && bk in bi && todo == todo0 - {bk}
    requires if AddsUp(bi[bk]) then
               live == live0 &&
               consistent == consistent0[KeyFor(bk) :=
                   (if KeyFor(bk) in consistent0 then consistent0[KeyFor(bk)] else []) + [bk]]
             else live == live0 - {bk} && consistent == consistent0
    ensures Sifted(bi, live, todo, consistent)
  {
    hide AddsUp, AllListed;
    var done0, done := live0 - todo0, live - todo;
    if AddsUp(bi[bk]) {
      assert done == done0 + {bk} && bk !in done0;
      forall k | k in consistent ensures consistent[k] != [] && AllListed(consistent[k], k, done) {
        if k == KeyFor(bk) {
          if k !in consistent0 { NoneListed(k, done0); }
          ListedSnoc(if k in consistent0 then consistent0[k] else [], k, done0, bk);
        } else {
          ListedElse(consistent0[k], k, done0, bk);
        }
      }
    } else {
      assert done == done0;
    }
  }

  lemma NoneListed(k: FullKey, done: set<BlobKey>)
    requires forall x | x in done :: KeyFor(x) != k
    ensures AllListed([], k, done)
  {}

  lemma ListedSnoc(versions: seq<BlobKey>, k: FullKey, done: set<BlobKey>, bk: BlobKey)
    requires AllListed(versions, k, done) && KeyFor(bk) == k && bk !in done
    ensures AllListed(versions + [bk], k, done + {bk})
  {}

  lemma ListedElse(versions: seq<BlobKey>, k: FullKey, done: set<BlobKey>, bk: BlobKey)
    requires AllListed(versions, k, done) && KeyFor(bk) != k
    ensures AllListed(versions, k, done + {bk})
  {}

  lemma SiftedDecided(bi: BlobIndexMap, live: set<BlobKey>, consistent: map<FullKey, seq<BlobKey>>)
    requires Sifted(bi, live, {}, consistent)
    ensures Decided(bi, live, {}, consistent.Keys)
    ensures forall k | k in consistent :: consistent[k] != [] && AllListed(consistent[k], k, live)
  {
    hide Doomed, AllListed;
    assert live - {} == live;
  }

  lemma ListedAdds(bi: BlobIndexMap, live: set<BlobKey>, keys: set<FullKey>, versions: seq<BlobKey>, k: FullKey)
    requires Decided(bi, live, {}, keys) && AllListed(versions, k, live)
    ensures forall x | 0 <= x < |versions| :: versions[x] in bi && bi[versions[x]].index.Some?
  {
    hide Doomed;
  }

  lemma LatestOther(bi: BlobIndexMap, versions: seq<BlobKey>, j: FullKey, k: FullKey, live0: set<BlobKey>,
                    live: set<BlobKey>)
    requires AllListed(versions, j, live0) && j != k && LatestLeft(bi, k, live0, live)
    ensures AllListed(versions, j, live)
  {
    forall x | 0 <= x < |versions| ensures versions[x] in live { assert versions[x] in live0; }
  }

  lemma LaterStart(bi: BlobIndexMap, k: FullKey, live: set<BlobKey>)
    requires live <= bi.Keys
    ensures LaterLeft(bi, k, live, live)
  {}

  lemma ListedAt(versions: seq<BlobKey>, k: FullKey, live: set<BlobKey>, x: nat)
    requires AllListed(versions, k, live) && x < |versions|
    ensures versions[x] in live && KeyFor(versions[x]) == k && Listed(versions, k, live)
  {}

  lemma NotedPlace(vs: seq<PageView>, bk: BlobKey, e: IndexEntry, loc: Loc)
    requires NotedIndex(vs, bk, e, loc) && bk.start in {0, 0x80}
    ensures Has(vs, e.pageSequence, loc) && loc.index == e.itemIndex && loc.rec.item.span == 1
    ensures HeadOf(vs, KeyFor(bk), e.pageSequence, loc) && VersionIn(loc.rec.item) == Some(bk.start)
  {
    hide Has;
  }

  lemma BytesRefl(h: Hal, ps: seq<ThinPage>)
    ensures SameBytes(h, ps, h, ps)
  {}

  // ---- the second cleanup, and both together ----

  /** The place is that of the index noted for a version the first cleanup gives up. */
  ghost predicate Condemned(bi: BlobIndexMap, s: nat, index: nat) {
    exists bk :: NotedAt(bi, bk, s, index) && Doomed(bi, bk)
  }

  ghost predicate Standing(vs: seq<PageView>, bi: BlobIndexMap, k: FullKey, s: nat, loc: Loc) {
    HeadOf(vs, k, s, loc) && !Condemned(bi, s, loc.index)
  }

  /** The newest of the heads the first cleanup leaves. */
  ghost predicate SurvivorBy(vs: seq<PageView>, bi: BlobIndexMap, k: FullKey, s: nat, loc: Loc) {
    && Standing(vs, bi, k, s, loc)
    && forall t: nat, x: Loc | Standing(vs, bi, k, t, x) && !SamePlaceAs(t, x, s, loc) :: Before(t, x, s, loc)
  }

  ghost predicate Survivor(vs: seq<PageView>, k: FullKey, s: nat, loc: Loc)
    requires WfViews(vs)
  {
    SurvivorBy(vs, NotedIn(vs), k, s, loc)
  }

  /** The heads in vs are the survivors of vs0. */
  ghost predicate SurvivorsOnly(vs0: seq<PageView>, vs: seq<PageView>)
    requires WfViews(vs0)
  {
    forall k: FullKey, s: nat, loc: Loc | k.ns != 0 :: HeadOf(vs, k, s, loc) <==> Survivor(vs0, k, s, loc)
  }

  function Top(vs: seq<PageView>): nat {
    if vs == [] then 0
    else
      var rest := Top(vs[..|vs| - 1]);
      if vs[|vs| - 1].Used? then Max(rest, vs[|vs| - 1].sequence) else rest
  }

  lemma {:induction false} TopAbove(vs: seq<PageView>, a: nat)
    requires a < |vs| && vs[a].Used?
    ensures vs[a].sequence <= Top(vs)
  {
    if a < |vs| - 1 { TopAbove(vs[..|vs| - 1], a); }
  }

  function PlaceRank(s: nat, loc: Loc): nat { s * ENTRIES_PER_PAGE + loc.index }

  lemma RankBound(vs: seq<PageView>, s: nat, loc: Loc)
    requires Has(vs, s, loc) && loc.index < ENTRIES_PER_PAGE
    ensures PlaceRank(s, loc) < (Top(vs) + 1) * ENTRIES_PER_PAGE
  {
    var a: nat :| HasAt(vs, a, s, loc);
    TopAbove(vs, a);
    assert s * ENTRIES_PER_PAGE <= Top(vs) * ENTRIES_PER_PAGE;
  }

  /** Where a head stands, there is a newest that stands. */
  lemma SurvivorAbove(vs: seq<PageView>, bi: BlobIndexMap, k: FullKey, s: nat, loc: Loc) returns (t: nat, x: Loc)
    requires Loadable(vs) && Standing(vs, bi, k, s, loc)
    ensures SurvivorBy(vs, bi, k, t, x)
    ensures SamePlaceAs(s, loc, t, x) || Before(s, loc, t, x)
    decreases (Top(vs) + 1) * ENTRIES_PER_PAGE - PlaceRank(s, loc)
  {
    hide Has, Condemned, Top;
    if !SurvivorBy(vs, bi, k, s, loc) {
      var u: nat, y: Loc :| Standing(vs, bi, k, u, y) && !SamePlaceAs(u, y, s, loc) && !Before(u, y, s, loc);
      assert Shaped(y) && Shaped(loc) && Before(s, loc, u, y);
      RankBound(vs, u, y);
      t, x := SurvivorAbove(vs, bi, k, u, y);
    } else {
      t, x := s, loc;
    }
  }

  lemma StruckCondemned(bi: BlobIndexMap, live: set<BlobKey>, s: nat, index: nat)
    requires Undoomed(bi, live)
    ensures Struck(bi, live, s, index) <==> Condemned(bi, s, index)
  {
    hide Doomed;
  }

  /** After the first cleanup the heads are those that stand. */
  lemma StandingLeft(vs0: seq<PageView>, vs1: seq<PageView>, bi: BlobIndexMap, live: set<BlobKey>, k: FullKey, s: nat,
                     loc: Loc)
    requires Undoomed(bi, live) && HeadsLeft(vs0, vs1, bi, live)
    ensures HeadOf(vs1, k, s, loc) <==> Standing(vs0, bi, k, s, loc)
  {
    hide Has, Undoomed, Struck, Condemned;
    StruckCondemned(bi, live, s, loc.index);
  }

  /** Both cleanups: of every key the survivor is left, and no other head. */
  lemma SurvivorsLeft(vs0: seq<PageView>, vs1: seq<PageView>, vs2: seq<PageView>, live: set<BlobKey>)
    requires Loadable(vs0) && Undoomed(NotedIn(vs0), live) && HeadsLeft(vs0, vs1, NotedIn(vs0), live)
    requires Fewer(vs1, vs2) && OneHeadEach(vs2) && forall k: FullKey | k.ns != 0 :: NewestStays(vs1, vs2, k)
    ensures SurvivorsOnly(vs0, vs2)
  {
    hide Has, Undoomed, HeadsLeft, Standing, NotedIn, WfViews;
    var bi := NotedIn(vs0);
    forall k: FullKey, s: nat, loc: Loc | k.ns != 0 ensures HeadOf(vs2, k, s, loc) <==> Survivor(vs0, k, s, loc) {
      if Survivor(vs0, k, s, loc) { SurvivorStays(vs0, vs1, vs2, bi, live, k, s, loc); }
      if HeadOf(vs2, k, s, loc) {
        assert HeadOf(vs1, k, s, loc);
        StandingLeft(vs0, vs1, bi, live, k, s, loc);
        var t, x := SurvivorAbove(vs0, bi, k, s, loc);
        SurvivorStays(vs0, vs1, vs2, bi, live, k, t, x);
        assert SingleHead(vs2, k);
        StandingHas(vs0, bi, k, s, loc);
        StandingHas(vs0, bi, k, t, x);
      }
    }
  }

  lemma StandingHas(vs: seq<PageView>, bi: BlobIndexMap, k: FullKey, s: nat, loc: Loc)
    requires Standing(vs, bi, k, s, loc)
    ensures HeadOf(vs, k, s, loc)
  {}

  lemma SurvivorStays(vs0: seq<PageView>, vs1: seq<PageView>, vs2: seq<PageView>, bi: BlobIndexMap, live: set<BlobKey>,
                      k: FullKey, s: nat, loc: Loc)
    requires Undoomed(bi, live) && HeadsLeft(vs0, vs1, bi, live) && NewestStays(vs1, vs2, k) &&
             SurvivorBy(vs0, bi, k, s, loc)
    ensures HeadOf(vs2, k, s, loc)
  {
    hide Has, Undoomed, HeadsLeft, Standing;
    StandingLeft(vs0, vs1, bi, live, k, s, loc);
    forall t: nat, x: Loc | HeadOf(vs1, k, t, x) && !SamePlaceAs(t, x, s, loc) ensures Before(t, x, s, loc) {
      StandingLeft(vs0, vs1, bi, live, k, t, x);
    }
    assert NewestHead(vs1, k, s, loc);
  }

  // ---- when the survivor is the newest whole head ----

  /** The version an index belongs to. */
  function VersionKey(k: FullKey, it: Item): BlobKey
    requires it.data.Index?
  {
    BlobKey(k.ns, VersionOf(it.data.start), k.key)
  }

  /** An index agrees with the chunks of its version, all those on flash. Any other head is whole. */
  ghost predicate WholeHead(vs: seq<PageView>, k: FullKey, it: Item) {
    it.typ == BlobIndex && it.data.Index? ==>
      var cs := ViewParts(vs, VersionKey(k, it));
      it.data.count == |cs| && it.data.size == TotalSize(cs)
  }

  ghost predicate WholeAt(vs: seq<PageView>, k: FullKey, s: nat, loc: Loc) {
    HeadOf(vs, k, s, loc) && WholeHead(vs, k, loc.rec.item)
  }

  ghost predicate NewestWhole(vs: seq<PageView>, k: FullKey, s: nat, loc: Loc) {
    && WholeAt(vs, k, s, loc)
    && forall t: nat, x: Loc | WholeAt(vs, k, t, x) && !SamePlaceAs(t, x, s, loc) :: Before(t, x, s, loc)
  }

  /** A head that is not whole, though no newer one is either. */
  ghost predicate Broken(vs: seq<PageView>, k: FullKey, s: nat, loc: Loc) {
    && HeadOf(vs, k, s, loc) && !WholeHead(vs, k, loc.rec.item)
    && !exists t: nat, x: Loc :: WholeAt(vs, k, t, x) && Before(s, loc, t, x)
  }

  ghost predicate Known(bi: BlobIndexMap, s: nat, index: nat) { exists bk :: NotedAt(bi, bk, s, index) }

  /** Every broken head is the one the scan noted for its version: the last it met. */
  ghost predicate BrokenKnown(vs: seq<PageView>, k: FullKey)
    requires WfViews(vs)
  {
    forall s: nat, loc: Loc | Broken(vs, k, s, loc) :: Known(NotedIn(vs), s, loc.index)
  }

  /** A noted version adds up exactly if its noted index is whole. */
  lemma NotedWhole(vs: seq<PageView>, k: FullKey, s: nat, loc: Loc, bk: BlobKey)
    requires Loadable(vs) && HeadOf(vs, k, s, loc) && NotedAt(NotedIn(vs), bk, s, loc.index)
    ensures KeyFor(bk) == k && (AddsUp(NotedIn(vs)[bk]) <==> WholeHead(vs, k, loc.rec.item))
  {
    hide Has, NotedIn, ViewParts, TotalSize;
    var bi := NotedIn(vs);
    NotesTaken(vs, bi);
    var loc2 :| NotedIndex(vs, bk, bi[bk].index.value, loc2);
    OneThere(vs, bi, s, loc, loc2);
    ViewCounts(vs, bk);
    assert VersionKey(k, loc.rec.item) == bk;
  }

  lemma OutdoneByWhole(vs: seq<PageView>, k: FullKey, s: nat, loc: Loc, bk: BlobKey, x: BlobKey)
    returns (t: nat, y: Loc)
    requires Loadable(vs) && HeadOf(vs, k, s, loc) && NotedAt(NotedIn(vs), bk, s, loc.index) &&
             Outdone(NotedIn(vs), bk, x)
    ensures WholeAt(vs, k, t, y) && Before(s, loc, t, y)
  {
    hide Has, NotedIn, WholeHead;
    var bi := NotedIn(vs);
    NotesTaken(vs, bi);
    NotedWhole(vs, k, s, loc, bk);
    t := bi[x].index.value.pageSequence;
    y :| NotedIndex(vs, x, bi[x].index.value, y);
    NotedWhole(vs, k, t, y, x);
  }

  /** The newest whole head stands. */
  lemma WholeStands(vs: seq<PageView>, k: FullKey, s: nat, loc: Loc)
    requires Loadable(vs) && NewestWhole(vs, k, s, loc)
    ensures Standing(vs, NotedIn(vs), k, s, loc)
  {
    hide Has, NotedIn, WholeHead, WfViews, SinglePlaces, Outdone, AddsUp;
    if Condemned(NotedIn(vs), s, loc.index) {
      var bk :| NotedAt(NotedIn(vs), bk, s, loc.index) && Doomed(NotedIn(vs), bk);
      NotedWhole(vs, k, s, loc, bk);
      var x :| Outdone(NotedIn(vs), bk, x);
      var t, y := OutdoneByWhole(vs, k, s, loc, bk, x);
    }
  }

  /** A broken head the scan noted does not stand; any other does. */
  lemma BrokenStands(vs: seq<PageView>, k: FullKey, s: nat, loc: Loc)
    requires Loadable(vs) && Broken(vs, k, s, loc)
    ensures Standing(vs, NotedIn(vs), k, s, loc) <==> !Known(NotedIn(vs), s, loc.index)
  {
    hide Has, NotedIn, WholeHead, WfViews, SinglePlaces, Outdone, AddsUp;
    if Known(NotedIn(vs), s, loc.index) {
      var bk :| NotedAt(NotedIn(vs), bk, s, loc.index);
      NotedWhole(vs, k, s, loc, bk);
      assert Doomed(NotedIn(vs), bk);
    }
  }

  /** The cleanup keeps the newest whole head of a key, and nothing if none is whole, exactly if every
      broken head was the one noted for its version. */
  lemma NewestWholeKept(vs: seq<PageView>, k: FullKey)
    requires Loadable(vs)
    ensures (forall s: nat, loc: Loc :: Survivor(vs, k, s, loc) <==> NewestWhole(vs, k, s, loc)) <==> BrokenKnown(vs, k)
  {
    hide Has, NotedIn, WholeHead, WfViews, SinglePlaces, Standing, Known, Broken, NewestWhole;
    var bi := NotedIn(vs);
    if BrokenKnown(vs, k) {
      forall s: nat, loc: Loc ensures Survivor(vs, k, s, loc) <==> NewestWhole(vs, k, s, loc) {
        if NewestWhole(vs, k, s, loc) { KnownSurvives(vs, k, s, loc); }
        if Survivor(vs, k, s, loc) { SurvivorWhole(vs, k, s, loc); }
      }
    } else {
      var s: nat, loc: Loc :| Broken(vs, k, s, loc) && !Known(bi, s, loc.index);
      BrokenStands(vs, k, s, loc);
      var t, x := SurvivorAbove(vs, bi, k, s, loc);
      BrokenNewest(vs, k, s, loc, t, x);
    }
  }

  lemma BrokenNewest(vs: seq<PageView>, k: FullKey, s: nat, loc: Loc, t: nat, x: Loc)
    requires Loadable(vs) && Broken(vs, k, s, loc) && (SamePlaceAs(s, loc, t, x) || Before(s, loc, t, x))
    ensures !NewestWhole(vs, k, t, x)
  {
    hide Has, WholeHead;
  }

  lemma KnownSurvives(vs: seq<PageView>, k: FullKey, s: nat, loc: Loc)
    requires Loadable(vs) && BrokenKnown(vs, k) && NewestWhole(vs, k, s, loc)
    ensures Survivor(vs, k, s, loc)
  {
    hide Has, NotedIn, WfViews, SinglePlaces, WholeHead, Known;
    WholeStands(vs, k, s, loc);
    forall t: nat, x: Loc | Standing(vs, NotedIn(vs), k, t, x) && !SamePlaceAs(t, x, s, loc)
      ensures Before(t, x, s, loc)
    {
      if !WholeAt(vs, k, t, x) && !Before(t, x, s, loc) { NewerBroken(vs, k, s, loc, t, x); BrokenStands(vs, k, t, x); }
    }
  }

  lemma NewerBroken(vs: seq<PageView>, k: FullKey, s: nat, loc: Loc, t: nat, x: Loc)
    requires NewestWhole(vs, k, s, loc) && HeadOf(vs, k, t, x) && !WholeAt(vs, k, t, x) && !Before(t, x, s, loc)
    ensures Broken(vs, k, t, x)
  {
    hide Has, WholeHead;
  }

  lemma SurvivorWhole(vs: seq<PageView>, k: FullKey, s: nat, loc: Loc)
    requires Loadable(vs) && BrokenKnown(vs, k) && Survivor(vs, k, s, loc)
    ensures NewestWhole(vs, k, s, loc)
  {
    hide Has, NotedIn, WholeHead, Known, WfViews;
    var bi := NotedIn(vs);
    if exists t: nat, x: Loc :: WholeAt(vs, k, t, x) {
      var t: nat, x: Loc :| WholeAt(vs, k, t, x);
      var u, y := NewestOfWhole(vs, k, t, x);
      KnownSurvives(vs, k, u, y);
      assert SamePlaceAs(s, loc, u, y);
    } else {
      StandingHas(vs, bi, k, s, loc);
      assert !WholeAt(vs, k, s, loc);
      assert Broken(vs, k, s, loc);
      BrokenStands(vs, k, s, loc);
      assert false;
    }
  }

  /** Where a head is whole, there is a newest whole one. */
  lemma NewestOfWhole(vs: seq<PageView>, k: FullKey, s: nat, loc: Loc) returns (t: nat, x: Loc)
    requires Loadable(vs) && WholeAt(vs, k, s, loc)
    ensures NewestWhole(vs, k, t, x)
    decreases (Top(vs) + 1) * ENTRIES_PER_PAGE - PlaceRank(s, loc)
  {
    hide Has, WholeHead, Top;
    if NewestWhole(vs, k, s, loc) {
      t, x := s, loc;
    } else {
      var u: nat, y: Loc :| WholeAt(vs, k, u, y) && !SamePlaceAs(u, y, s, loc) && !Before(u, y, s, loc);
      assert Shaped(y) && Shaped(loc) && Before(s, loc, u, y);
      RankBound(vs, u, y);
      t, x := NewestOfWhole(vs, k, u, y);
    }
  }

  /** Two indices of one version of the key. */
  ghost predicate IndexTwice(vs: seq<PageView>, k: FullKey) {
    exists s: nat, x: Loc, t: nat, y: Loc :: SameVersionAt(vs, k, s, x, t, y)
  }

  ghost predicate SameVersionAt(vs: seq<PageView>, k: FullKey, s: nat, x: Loc, t: nat, y: Loc) {
    && HeadOf(vs, k, s, x) && HeadOf(vs, k, t, y) && !SamePlaceAs(s, x, t, y)
    && x.rec.item.typ == BlobIndex == y.rec.item.typ && x.rec.item.data.Index? && y.rec.item.data.Index?
    && VersionOf(x.rec.item.data.start) == VersionOf(y.rec.item.data.start)
  }

  /** With one index a version, every index is the one noted. */
  lemma OneIndexKnown(vs: seq<PageView>, k: FullKey)
    requires Loadable(vs) && k.ns != 0 && !IndexTwice(vs, k)
    ensures BrokenKnown(vs, k)
  {
    hide Has, NotedIn, ViewParts, TotalSize;
    var bi := NotedIn(vs);
    forall s: nat, loc: Loc | Broken(vs, k, s, loc) ensures Known(bi, s, loc.index) {
      var bk := VersionKey(k, loc.rec.item);
      IndexNoted(vs, k, s, loc);
      var loc2 :| IndexHere(vs, bk, bi[bk].index.value, loc2);
      assert Shaped(loc2);
      assert !SameVersionAt(vs, k, s, loc, bi[bk].index.value.pageSequence, loc2);
      assert NotedAt(bi, bk, s, loc.index);
    }
  }

  lemma IndexNoted(vs: seq<PageView>, k: FullKey, s: nat, loc: Loc)
    requires Loadable(vs) && k.ns != 0 && HeadOf(vs, k, s, loc) && loc.rec.item.typ == BlobIndex &&
             loc.rec.item.data.Index?
    ensures VersionKey(k, loc.rec.item) in NotedIn(vs) && NotedIn(vs)[VersionKey(k, loc.rec.item)].index.Some?
    ensures exists loc2 ::
              IndexHere(vs, VersionKey(k, loc.rec.item), NotedIn(vs)[VersionKey(k, loc.rec.item)].index.value, loc2)
  {
    hide Has, NotedIn;
    var bk := VersionKey(k, loc.rec.item);
    assert IsIndexOf(loc.rec.item, bk);
    ViewIndex(vs, bk);
  }

  // ---- chunks ----

  /** All chunks of the version are still there. */
  ghost predicate PartsKept(h0: Hal, h: Hal, k: FullKey, start: nat) {
    && HalOk(h0) && HalOk(h)
    && forall r: Rec | IsPartOf(r.item, BlobKey(k.ns, start, k.key)) :: HBag(h, k)[r] == HBag(h0, k)[r]
  }

  /** Only chunks of one version of key k may be gone. */
  ghost predicate PartsExcept(h0: Hal, h: Hal, k: FullKey, start: Option<nat>) {
    && HalOk(h0) && HalOk(h)
    && forall j: FullKey, s: nat | !(j == k && start == Some(s)) :: PartsKept(h0, h, j, s)
  }

  lemma PartsRefl(h: Hal, k: FullKey, start: Option<nat>)
    requires HalOk(h)
    ensures PartsExcept(h, h, k, start)
  {}

  lemma PartsSame(h: Hal)
    requires HalOk(h)
    ensures forall j: FullKey, s: nat :: PartsKept(h, h, j, s)
  {}

  lemma PartsDrop(h0: Hal, h: Hal, r: Rec, k: FullKey, start: Option<nat>)
    requires Dropped(h0, h, r) && IsHead(r)
    ensures PartsExcept(h0, h, k, start)
  {
    hide Bag, View;
    forall j: FullKey, s: nat ensures PartsKept(h0, h, j, s) {
      forall q: Rec | IsPartOf(q.item, BlobKey(j.ns, s, j.key)) ensures HBag(h, j)[q] == HBag(h0, j)[q] {
        assert HBag(h0, j) == HBag(h, j) + OneOf(r, j);
      }
    }
  }

  lemma PartsSweep(h0: Hal, h1: Hal, h: Hal, k: FullKey, start: nat)
    requires PartsExcept(h0, h1, k, Some(start)) && OthersSame(h1, h, k) && Shed(HBag(h1, k), HBag(h, k), start)
    ensures PartsExcept(h0, h, k, Some(start))
  {
    hide Bag, View;
    forall j: FullKey, s: nat | !(j == k && start == s) ensures PartsKept(h0, h, j, s) {
      assert PartsKept(h0, h1, j, s);
      if j != k { assert HBag(h, j) == HBag(h1, j); }
      forall q: Rec | IsPartOf(q.item, BlobKey(j.ns, s, j.key)) ensures HBag(h, j)[q] == HBag(h0, j)[q] {}
    }
  }

  /** The chunks of the versions still live, or never noted, are all there. */
  ghost predicate PartsSpared(h0: Hal, h: Hal, bi: BlobIndexMap, live: set<BlobKey>) {
    && HalOk(h0) && HalOk(h)
    && forall bk: BlobKey | bk in live || bk !in bi :: PartsKept(h0, h, KeyFor(bk), bk.start)
  }

  lemma SparedRefl(h: Hal, bi: BlobIndexMap, live: set<BlobKey>)
    requires HalOk(h)
    ensures PartsSpared(h, h, bi, live)
  {}

  lemma SparedStep(h0: Hal, h1: Hal, h: Hal, bi: BlobIndexMap, live: set<BlobKey>, bk: BlobKey)
    requires PartsSpared(h0, h1, bi, live) && PartsExcept(h1, h, KeyFor(bk), Some(bk.start)) && bk in bi
    ensures PartsSpared(h0, h, bi, live - {bk})
  {
    hide Bag, View;
    forall x: BlobKey | x in live - {bk} || x !in bi ensures PartsKept(h0, h, KeyFor(x), x.start) {
      assert PartsKept(h0, h1, KeyFor(x), x.start) && x != bk;
      assert !(KeyFor(x) == KeyFor(bk) && x.start == bk.start);
      PartsMore(h0, h1, h, KeyFor(x), x.start);
    }
  }

  lemma PartsMore(h0: Hal, h1: Hal, h: Hal, k: FullKey, start: nat)
    requires PartsKept(h0, h1, k, start) && PartsKept(h1, h, k, start)
    ensures PartsKept(h0, h, k, start)
  {
    hide Bag, View;
  }

  /** No head of key k but its newest is an index of the version. */
  ghost predicate Unshared(vs: seq<PageView>, k: FullKey, start: nat) {
    forall s: nat, loc: Loc | HeadOf(vs, k, s, loc) && HasNewer(vs, k, Place(s, loc)) ::
      VersionIn(loc.rec.item) != Some(start)
  }

  /** The second cleanup takes no chunk of a version whose index is the newest head. */
  ghost predicate NewestParts(h0: Hal, h: Hal, k: FullKey) {
    && HalOk(h0) && HalOk(h)
    && forall s: nat | Unshared(View(h0), k, s) :: PartsKept(h0, h, k, s)
  }

  lemma NewestPartsRefl(h: Hal)
    requires HalOk(h)
    ensures forall k: FullKey :: NewestParts(h, h, k)
  {}

  lemma UnsharedLess(vs: seq<PageView>, vs2: seq<PageView>, k: FullKey, start: nat)
    requires Unshared(vs, k, start) && Fewer(vs, vs2)
    ensures Unshared(vs2, k, start)
  {
    hide Has;
    forall s: nat, loc: Loc | HeadOf(vs2, k, s, loc) && HasNewer(vs2, k, Place(s, loc))
      ensures VersionIn(loc.rec.item) != Some(start)
    {
      var t: nat, y: Loc :| HeadOf(vs2, k, t, y) && Before(s, loc, t, y);
      assert HeadOf(vs, k, s, loc) && HeadOf(vs, k, t, y);
    }
  }

  /** A head that has a newer one was erased with its version. */
  lemma NewestPartsStep(h0: Hal, h1: Hal, h: Hal, k: FullKey, at: Place)
    requires NewestParts(h0, h1, k) && HalOk(h0) && Fewer(View(h0), View(h1))
    requires PartsExcept(h1, h, k, VersionIn(at.loc.rec.item))
    requires HeadOf(View(h1), k, at.sequence, at.loc) && HasNewer(View(h1), k, at)
    ensures NewestParts(h0, h, k)
  {
    hide Bag, View, Has, PartsKept;
    forall s: nat | Unshared(View(h0), k, s) ensures PartsKept(h0, h, k, s) {
      UnsharedLess(View(h0), View(h1), k, s);
      assert Place(at.sequence, at.loc) == at && VersionIn(at.loc.rec.item) != Some(s);
      PartsMore(h0, h1, h, k, s);
    }
  }

  /** One key settled: for it and for all others, step by step. */
  lemma NewestPartsMore(h0: Hal, h1: Hal, h: Hal, k: FullKey, j: FullKey)
    requires NewestParts(h0, h1, j) && HalOk(h1) && HalOk(h) && Fewer(View(h0), View(h1))
    requires if j == k then NewestParts(h1, h, k) else forall s: nat :: PartsKept(h1, h, j, s)
    ensures NewestParts(h0, h, j)
  {
    hide Bag, View, Has, PartsKept;
    forall s: nat | Unshared(View(h0), j, s) ensures PartsKept(h0, h, j, s) {
      UnsharedLess(View(h0), View(h1), j, s);
      PartsMore(h0, h1, h, j, s);
    }
  }

  lemma OtherParts(h0: Hal, h1: Hal, h: Hal, k: FullKey, start: Option<nat>)
    requires HalOk(h0) && HalOk(h1) && PartsExcept(h1, h, k, start)
    requires forall j: FullKey, s: nat | j != k :: PartsKept(h0, h1, j, s)
    ensures forall j: FullKey, s: nat | j != k :: PartsKept(h0, h, j, s)
  {
    hide Bag, View, PartsKept;
    forall j: FullKey, s: nat | j != k ensures PartsKept(h0, h, j, s) { PartsMore(h0, h1, h, j, s); }
  }

  /** With its chunks, an index is whole as before. */
  lemma WholeStill(h0: Hal, h: Hal, k: FullKey, it: Item)
    requires HalOk(h0) && HalOk(h) && it.data.Index? && PartsKept(h0, h, k, VersionOf(it.data.start))
    ensures WholeHead(View(h), k, it) <==> WholeHead(View(h0), k, it)
  {
    hide Bag, View;
    var bk := VersionKey(k, it);
    var xs, ys := ViewParts(View(h0), bk), ViewParts(View(h), bk);
    forall r: Rec ensures multiset(xs)[r] == multiset(ys)[r] {
      ViewPartsBag(View(h0), bk, r);
      ViewPartsBag(View(h), bk, r);
    }
    assert multiset(xs) == multiset(ys);
    TotalPermuted(xs, ys);
  }

  /** What is left of a key with one index a version is whole if it was. */
  ghost predicate WholeStays(h0: Hal, h: Hal) {
    && HalOk(h0) && HalOk(h)
    && forall k: FullKey, s: nat, loc: Loc | k.ns != 0 && !IndexTwice(View(h0), k) && HeadOf(View(h), k, s, loc) ::
         WholeHead(View(h0), k, loc.rec.item) ==> WholeHead(View(h), k, loc.rec.item)
  }

  lemma SurvivorsWhole(h0: Hal, h1: Hal, h: Hal, live: set<BlobKey>)
    requires HalOk(h0) && HalOk(h1) && HalOk(h) && Loadable(View(h0))
    requires Undoomed(NotedIn(View(h0)), live) && HeadsLeft(View(h0), View(h1), NotedIn(View(h0)), live)
    requires PartsSpared(h0, h1, NotedIn(View(h0)), live) && Fewer(View(h1), View(h))
    requires OneHeadEach(View(h)) && forall k: FullKey | k.ns != 0 :: NewestStays(View(h1), View(h), k)
    requires forall k: FullKey | k.ns != 0 :: NewestParts(h1, h, k)
    ensures WholeStays(h0, h)
  {
    hide Has, View, Undoomed, HeadsLeft, NotedIn, Loadable, WholeHead, IndexTwice, PartsSpared, NewestParts, HeadOf,
         NewestStays, Fewer, OneHeadEach;
    forall k: FullKey, s: nat, loc: Loc | k.ns != 0 && !IndexTwice(View(h0), k) && HeadOf(View(h), k, s, loc) &&
                                         WholeHead(View(h0), k, loc.rec.item)
      ensures WholeHead(View(h), k, loc.rec.item)
    {
      SurvivorWholeStill(h0, h1, h, live, k, s, loc);
    }
  }

  lemma SurvivorWholeStill(h0: Hal, h1: Hal, h: Hal, live: set<BlobKey>, k: FullKey, s: nat, loc: Loc)
    requires HalOk(h0) && HalOk(h1) && HalOk(h) && Loadable(View(h0)) && k.ns != 0
    requires Undoomed(NotedIn(View(h0)), live) && HeadsLeft(View(h0), View(h1), NotedIn(View(h0)), live)
    requires PartsSpared(h0, h1, NotedIn(View(h0)), live) && Fewer(View(h1), View(h))
    requires OneHeadEach(View(h)) && (forall j: FullKey | j.ns != 0 :: NewestStays(View(h1), View(h), j)) &&
             NewestParts(h1, h, k)
    requires !IndexTwice(View(h0), k) && HeadOf(View(h), k, s, loc) && WholeHead(View(h0), k, loc.rec.item)
    ensures WholeHead(View(h), k, loc.rec.item)
  {
    hide Has, View, Undoomed, HeadsLeft, NotedIn, WfViews, SinglePlaces, PartsSpared, NewestParts, NewestStays,
         IndexTwice, PartsKept, HeadOf, OneHeadEach, Survivor, Fewer;
    if loc.rec.item.typ == BlobIndex && loc.rec.item.data.Index? {
      var bi, it := NotedIn(View(h0)), loc.rec.item;
      var bk := VersionKey(k, it);
      SurvivorsLeft(View(h0), View(h1), View(h), live);
      assert Survivor(View(h0), k, s, loc);
      SurvivorLive(View(h0), live, k, s, loc);
      SparedAt(h0, h1, bi, live, bk);
      SurvivorUnshared(View(h0), View(h1), live, k, s, loc);
      NewestAt(h1, h, k, bk.start);
      PartsMore(h0, h1, h, k, bk.start);
      WholeStill(h0, h, k, it);
    }
  }

  lemma SparedAt(h0: Hal, h: Hal, bi: BlobIndexMap, live: set<BlobKey>, bk: BlobKey)
    requires PartsSpared(h0, h, bi, live) && bk in live
    ensures PartsKept(h0, h, KeyFor(bk), bk.start)
  {
    hide PartsKept;
  }

  lemma NewestAt(h0: Hal, h: Hal, k: FullKey, start: nat)
    requires NewestParts(h0, h, k) && HalOk(h0) && Unshared(View(h0), k, start)
    ensures PartsKept(h0, h, k, start)
  {
    hide PartsKept, View, Unshared;
  }

  /** The version of a whole survivor is not given up. */
  lemma SurvivorLive(vs: seq<PageView>, live: set<BlobKey>, k: FullKey, s: nat, loc: Loc)
    requires Loadable(vs) && k.ns != 0 && !IndexTwice(vs, k) && Undoomed(NotedIn(vs), live) && Survivor(vs, k, s, loc)
    requires loc.rec.item.typ == BlobIndex && loc.rec.item.data.Index? && WholeHead(vs, k, loc.rec.item)
    ensures VersionKey(k, loc.rec.item) in live && HeadOf(vs, k, s, loc)
  {
    hide Has, NotedIn, ViewParts, TotalSize, WholeHead, WfViews, SinglePlaces, Doomed;
    var bi, bk := NotedIn(vs), VersionKey(k, loc.rec.item);
    IndexNoted(vs, k, s, loc);
    var loc2 :| IndexHere(vs, bk, bi[bk].index.value, loc2);
    assert Shaped(loc2);
    assert !SameVersionAt(vs, k, s, loc, bi[bk].index.value.pageSequence, loc2);
    assert NotedAt(bi, bk, s, loc.index);
    assert !Doomed(bi, bk);
  }

  /** No other head left has the survivor's version. */
  lemma SurvivorUnshared(vs0: seq<PageView>, vs1: seq<PageView>, live: set<BlobKey>, k: FullKey, s: nat, loc: Loc)
    requires Loadable(vs0) && !IndexTwice(vs0, k) && Undoomed(NotedIn(vs0), live) &&
             HeadsLeft(vs0, vs1, NotedIn(vs0), live)
    requires Survivor(vs0, k, s, loc) && loc.rec.item.typ == BlobIndex && loc.rec.item.data.Index?
    ensures Unshared(vs1, k, VersionOf(loc.rec.item.data.start))
  {
    hide Has, NotedIn, Undoomed, HeadsLeft, WfViews, SinglePlaces, Condemned;
    var bi := NotedIn(vs0);
    forall t: nat, x: Loc | HeadOf(vs1, k, t, x) && HasNewer(vs1, k, Place(t, x))
      ensures VersionIn(x.rec.item) != Some(VersionOf(loc.rec.item.data.start))
    {
      StandingLeft(vs0, vs1, bi, live, k, t, x);
      if VersionIn(x.rec.item) == Some(VersionOf(loc.rec.item.data.start)) {
        assert !SameVersionAt(vs0, k, s, loc, t, x);
        var u: nat, y: Loc :| HeadOf(vs1, k, u, y) && Before(t, x, u, y);
        StandingLeft(vs0, vs1, bi, live, k, u, y);
        assert false;
      }
    }
  }
}
