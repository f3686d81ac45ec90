/** Duplicate heads (compaction.rs, cleanup_duplicate_entries): every item by hash, runs of equal
    hashes, groups of equal keys within a run. */
module Duplicates {
  import opened Types
  import opened Sectors
  import opened Flash
  import opened Pages
  import opened PageOps
  import opened Scan
  import opened Store
  import opened Instance
  import opened Moves
  import opened Lookup
  import opened Changes
  import opened Setting
  import opened Winners
  import opened Observations
  import opened Cleanup

  datatype HashSpot = HashSpot(hash: nat, page: nat, index: nat)

  /** An item that may be one of several heads of its key. */
  datatype Candidate = Candidate(key: FullKey, page: nat, index: nat, sequence: nat, span: nat, version: Option<nat>)

  function HeadHash(c: Codec, k: FullKey): nat { c.hash(k.ns, k.key, NO_CHUNK) }

  predicate SpotLess(x: HashSpot, y: HashSpot) { x.page < y.page || (x.page == y.page && x.index < y.index) }

  predicate CandidateLess(x: Candidate, y: Candidate) { x.page < y.page || (x.page == y.page && x.index < y.index) }

  /** By page sequence, then by position: the order in which duplicates are erased. */
  predicate OlderThan(x: Candidate, y: Candidate) {
    x.sequence < y.sequence || (x.sequence == y.sequence && x.index < y.index)
  }

  function WithHash(spots: seq<HashSpot>, hash: nat): seq<HashSpot> {
    if spots == [] then []
    else WithHash(spots[..|spots| - 1], hash) + (if spots[|spots| - 1].hash == hash then [spots[|spots| - 1]] else [])
  }

  function WithKey(cs: seq<Candidate>, k: FullKey): seq<Candidate> {
    if cs == [] then []
    else WithKey(cs[..|cs| - 1], k) + (if cs[|cs| - 1].key == k then [cs[|cs| - 1]] else [])
  }

  ghost predicate SpotsSorted(spots: seq<HashSpot>) {
    forall x, y | 0 <= x < y < |spots| :: SpotLess(spots[x], spots[y])
  }

  ghost predicate CandidatesSorted(cs: seq<Candidate>) {
    forall x, y | 0 <= x < y < |cs| :: CandidateLess(cs[x], cs[y])
  }

  lemma {:induction false} WithHashIn(spots: seq<HashSpot>, hash: nat, s: HashSpot)
    ensures s in WithHash(spots, hash) <==> s in spots && s.hash == hash
  {
    if spots != [] {
      var n := |spots| - 1;
      WithHashIn(spots[..n], hash, s);
      assert spots == spots[..n] + [spots[n]];
    }
  }

  lemma {:induction false} WithHashSorted(spots: seq<HashSpot>, hash: nat)
    requires SpotsSorted(spots)
    ensures SpotsSorted(WithHash(spots, hash))
  {
    if spots != [] {
      var n := |spots| - 1;
      WithHashSorted(spots[..n], hash);
      forall x | 0 <= x < |WithHash(spots[..n], hash)| ensures SpotLess(WithHash(spots[..n], hash)[x], spots[n]) {
        var s := WithHash(spots[..n], hash)[x];
        WithHashIn(spots[..n], hash, s);
        var y :| 0 <= y < n && spots[..n][y] == s;
        assert spots[y] == s;
      }
    }
  }

  lemma {:induction false} WithKeyIn(cs: seq<Candidate>, k: FullKey, c: Candidate)
    ensures c in WithKey(cs, k) <==> c in cs && c.key == k
  {
    if cs != [] {
      var n := |cs| - 1;
      WithKeyIn(cs[..n], k, c);
      assert cs == cs[..n] + [cs[n]];
    }
  }

  lemma {:induction false} WithKeySorted(cs: seq<Candidate>, k: FullKey)
    requires CandidatesSorted(cs)
    ensures CandidatesSorted(WithKey(cs, k))
  {
    if cs != [] {
      var n := |cs| - 1;
      WithKeySorted(cs[..n], k);
      forall x | 0 <= x < |WithKey(cs[..n], k)| ensures CandidateLess(WithKey(cs[..n], k)[x], cs[n]) {
        var c := WithKey(cs[..n], k)[x];
        WithKeyIn(cs[..n], k, c);
        var y :| 0 <= y < n && cs[..n][y] == c;
        assert cs[y] == c;
      }
    }
  }

  // ---- spots ----

  /** Item number j of page i is hashed. */
  ghost predicate Spotted(h: Hal, ps: seq<ThinPage>, s: HashSpot, j: nat)
    requires HalOk(h)
  {
    && s.page < |ps| && j < |LocsOf(h, ps[s.page])|
    && LocsOf(h, ps[s.page])[j].index == s.index && LocsOf(h, ps[s.page])[j].rec.item.ns != 0
    && ItemHash(h.codec, LocsOf(h, ps[s.page])[j].rec.item) == s.hash
  }

  ghost predicate IsSpot(h: Hal, ps: seq<ThinPage>, s: HashSpot)
    requires HalOk(h)
  {
    exists j: nat :: Spotted(h, ps, s, j)
  }

  ghost predicate SpotsOk(h: Hal, ps: seq<ThinPage>, spots: seq<HashSpot>)
    requires HalOk(h)
  {
    && (forall s | s in spots :: IsSpot(h, ps, s))
    && (forall s: HashSpot, j: nat | Spotted(h, ps, s, j) :: s in spots)
    && SpotsSorted(spots)
  }

  /** The hash list is the list of hashed items, in order. */
  lemma HashListSpots(c: Codec, locs: seq<Loc>, lo: nat, hi: nat)
    requires Ordered(locs, lo, hi)
    ensures forall x | 0 <= x < |HashList(c, locs)| :: Hashed(c, locs, HashList(c, locs)[x])
    ensures forall j | 0 <= j < |locs| && locs[j].rec.item.ns != 0 ::
              HashEntry(ItemHash(c, locs[j].rec.item), locs[j].index) in HashList(c, locs)
    ensures forall x, y | 0 <= x < y < |HashList(c, locs)| :: HashList(c, locs)[x].index < HashList(c, locs)[y].index
  {
    hide HashList, Hashed, ItemHash, Ordered;
    HashListOnly(c, locs);
    HashListAll(c, locs);
    HashListSorted(c, locs, lo, hi);
  }

  lemma HashListCons(c: Codec, locs: seq<Loc>)
    requires locs != []
    ensures HashList(c, locs) == HashOf(c, locs[0]) + HashList(c, locs[1..])
  {}

  lemma {:induction false} HashListOnly(c: Codec, locs: seq<Loc>)
    ensures forall x | 0 <= x < |HashList(c, locs)| :: Hashed(c, locs, HashList(c, locs)[x])
  {
    hide ItemHash, HashList;
    if locs == [] {
      HashListNone(c);
    } else {
      var rest := locs[1..];
      HashListOnly(c, rest);
      HashListCons(c, locs);
      var hs, one := HashList(c, rest), HashOf(c, locs[0]);
      forall x | 0 <= x < |HashList(c, locs)| ensures Hashed(c, locs, HashList(c, locs)[x]) {
        if x < |one| { assert HashedAt(c, locs, HashList(c, locs)[x], 0); }
        else {
          assert Hashed(c, rest, hs[x - |one|]);
          var j :| HashedAt(c, rest, hs[x - |one|], j);
          assert HashedAt(c, locs, HashList(c, locs)[x], j + 1);
        }
      }
    }
  }

  lemma HashListNone(c: Codec)
    ensures HashList(c, []) == []
  {}

  lemma {:induction false} HashListAll(c: Codec, locs: seq<Loc>)
    ensures forall j | 0 <= j < |locs| && locs[j].rec.item.ns != 0 ::
              HashEntry(ItemHash(c, locs[j].rec.item), locs[j].index) in HashList(c, locs)
  {
    hide ItemHash, HashList;
    if locs != [] {
      HashListAll(c, locs[1..]);
      HashListCons(c, locs);
      forall j | 0 <= j < |locs| && locs[j].rec.item.ns != 0
        ensures HashEntry(ItemHash(c, locs[j].rec.item), locs[j].index) in HashList(c, locs)
      {
        if j > 0 { assert locs[j] == locs[1..][j - 1]; } else { assert HashOf(c, locs[0])[0] in HashList(c, locs); }
      }
    }
  }

  lemma {:induction false} HashListSorted(c: Codec, locs: seq<Loc>, lo: nat, hi: nat)
    requires Ordered(locs, lo, hi)
    ensures forall x, y | 0 <= x < y < |HashList(c, locs)| :: HashList(c, locs)[x].index < HashList(c, locs)[y].index
  {
    hide ItemHash, HashList;
    if locs == [] {
      HashListNone(c);
    } else {
      var rest := locs[1..];
      HashListSorted(c, rest, lo, hi);
      HashListOnly(c, rest);
      HashListCons(c, locs);
      var hs, one := HashList(c, rest), HashOf(c, locs[0]);
      forall x, y | 0 <= x < y < |HashList(c, locs)| ensures HashList(c, locs)[x].index < HashList(c, locs)[y].index {
        if x < |one| {
          assert Hashed(c, rest, hs[y - |one|]);
          var j :| HashedAt(c, rest, hs[y - |one|], j);
          assert locs[j + 1] == rest[j];
        }
      }
    }
  }

  ghost predicate Hashed(c: Codec, locs: seq<Loc>, e: HashEntry) { exists j :: HashedAt(c, locs, e, j) }

  ghost predicate HashedAt(c: Codec, locs: seq<Loc>, e: HashEntry, j: int) {
    && 0 <= j < |locs| && locs[j].rec.item.ns != 0
    && e.index == locs[j].index && e.hash == ItemHash(c, locs[j].rec.item)
  }

  /** The hash list of one page, as spots. */
  lemma PageSpots(h: Hal, ps: seq<ThinPage>, i: nat)
    requires AllLoaded(h, ps) && i < |ps|
    ensures forall x | 0 <= x < |ps[i].hashes| ::
              IsSpot(h, ps, HashSpot(ps[i].hashes[x].hash, i, ps[i].hashes[x].index))
    ensures forall s: HashSpot, j: nat | Spotted(h, ps, s, j) && s.page == i ::
              HashEntry(s.hash, s.index) in ps[i].hashes
    ensures forall x, y | 0 <= x < y < |ps[i].hashes| :: ps[i].hashes[x].index < ps[i].hashes[y].index
  {
    hide ScanFrom, HashList, BodyOk;
    PageHashes(h, ps[i]);
    var locs := LocsOf(h, ps[i]);
    ScanOrdered(h.codec, h.sectors[ps[i].addr], 0);
    HashListSpots(h.codec, locs, 0, ENTRIES_PER_PAGE);
    forall x | 0 <= x < |ps[i].hashes|
      ensures IsSpot(h, ps, HashSpot(ps[i].hashes[x].hash, i, ps[i].hashes[x].index))
    {
      assert Hashed(h.codec, locs, HashList(h.codec, locs)[x]);
      var j :| HashedAt(h.codec, locs, HashList(h.codec, locs)[x], j);
      assert Spotted(h, ps, HashSpot(ps[i].hashes[x].hash, i, ps[i].hashes[x].index), j);
    }
  }

  // ---- candidates ----

  /** The candidate is a live head of its key. */
  ghost predicate LiveHead(h: Hal, ps: seq<ThinPage>, c: Candidate, loc: Loc)
    requires HalOk(h)
  {
    && c.page < |ps| && ps[c.page].sequence == c.sequence && HeadOf(View(h), c.key, c.sequence, loc)
    && loc.index == c.index && loc.rec.item.span == c.span && VersionIn(loc.rec.item) == c.version
  }

  ghost predicate IsLive(h: Hal, ps: seq<ThinPage>, c: Candidate)
    requires HalOk(h)
  {
    exists loc :: LiveHead(h, ps, c, loc)
  }

  ghost predicate InGroup(cs: seq<Candidate>, k: FullKey, s: nat, index: nat) {
    exists c :: c in cs && c.key == k && c.sequence == s && c.index == index
  }

  ghost predicate Distinct(cs: seq<Candidate>) {
    forall x, y | 0 <= x < y < |cs| :: cs[x].page != cs[y].page || cs[x].index != cs[y].index
  }

  /** The candidates of one hash run: every head whose hash it is, and nothing else. */
  ghost predicate Snapshot(h: Hal, ps: seq<ThinPage>, cs: seq<Candidate>, hash: nat)
    requires HalOk(h)
  {
    && (forall c | c in cs :: c.key.ns != 0 && HeadHash(h.codec, c.key) == hash && IsLive(h, ps, c))
    && (forall k: FullKey, s: nat, loc: Loc | k.ns != 0 && HeadHash(h.codec, k) == hash && HeadOf(View(h), k, s, loc) ::
          InGroup(cs, k, s, loc.index))
    && CandidatesSorted(cs)
  }

  /** The group of a key: all its heads. */
  ghost predicate GroupOk(h: Hal, ps: seq<ThinPage>, group: seq<Candidate>, k: FullKey)
    requires HalOk(h)
  {
    && (forall c | c in group :: c.key == k && IsLive(h, ps, c))
    && (forall s: nat, loc: Loc | HeadOf(View(h), k, s, loc) :: InGroup(group, k, s, loc.index))
    && Distinct(group)
  }

  /** Nothing new appeared, and only items of key k are gone. */
  ghost predicate OnlyKey(vs: seq<PageView>, vs2: seq<PageView>, k: FullKey) {
    && (forall s: nat, loc: Loc | Has(vs2, s, loc) :: Has(vs, s, loc))
    && (forall s: nat, loc: Loc | Has(vs, s, loc) && KeyOf(loc.rec.item) != k :: Has(vs2, s, loc))
  }

  /** The heads of key k are all still there. */
  ghost predicate Untouched(vs: seq<PageView>, vs2: seq<PageView>, k: FullKey) {
    forall s: nat, loc: Loc | HeadOf(vs, k, s, loc) :: Has(vs2, s, loc)
  }

  ghost predicate Fewer(vs: seq<PageView>, vs2: seq<PageView>) {
    forall s: nat, loc: Loc | Has(vs2, s, loc) :: Has(vs, s, loc)
  }

  /** A spot whose item is a head, as a candidate. */
  lemma SpotCandidate(h0: Hal, ps0: seq<ThinPage>, fr: seq<ThinPage>, s: HashSpot, j: nat, h: Hal, ps: seq<ThinPage>)
    returns (loc: Loc)
    requires BaseOk(h0, ps0, fr) && HalOk(h0) && HalOk(h) && Spotted(h0, ps0, s, j) && SameBytes(h0, ps0, h, ps)
    ensures s.page < |ps| && ps[s.page].addr < |h.sectors| && s.index < ENTRIES_PER_PAGE
    ensures loc == LocsOf(h0, ps0[s.page])[j]
    ensures LoadItem(h, ps[s.page], s.index) == Some(loc.rec.item)
    ensures loc.index == s.index && loc.rec.item.ns != 0 && GoodRec(h0.codec, loc.rec) &&
            Has(View(h0), ps0[s.page].sequence, loc)
    ensures ItemHash(h.codec, loc.rec.item) == s.hash && ps[s.page].sequence == ps0[s.page].sequence
  {
    hide BaseOk, ScanFrom, BodyOk, GoodLocs, View;
    loc := LocsOf(h0, ps0[s.page])[j];
    BaseLoaded(h0, ps0, fr);
    LoadsKept(h0, ps0[s.page], j);
    LocGood(h0, ps0, fr, s.page, j);
    PageLocs(h0, ps0, fr, s.page);
    assert HasAt(View(h0), ps0[s.page].addr, ps0[s.page].sequence, loc);
    var a := ps0[s.page].addr;
    assert h.sectors[a].body == h0.sectors[a].body;
  }

  /** A head is a spot. */
  lemma HeadSpot(h: Hal, ps: seq<ThinPage>, fr: seq<ThinPage>, k: FullKey, s: nat, loc: Loc) returns (i: nat, j: nat)
    requires BaseOk(h, ps, fr) && HalOk(h) && HeadOf(View(h), k, s, loc) && k.ns != 0
    ensures i < |ps| && ps[i].sequence == s && Spotted(h, ps, HashSpot(HeadHash(h.codec, k), i, loc.index), j)
    ensures LocsOf(h, ps[i])[j] == loc
  {
    hide BaseOk, View, ScanFrom, Has;
    i, j := PageOfPlace(h, ps, fr, s, loc);
  }

  lemma GroupStart(h0: Hal, ps0: seq<ThinPage>, cs: seq<Candidate>, hash: nat, h: Hal, ps: seq<ThinPage>, k: FullKey)
    requires HalOk(h0) && HalOk(h) && Snapshot(h0, ps0, cs, hash) && SameBytes(h0, ps0, h, ps) && k.ns != 0
    requires Untouched(View(h0), View(h), k) && Fewer(View(h0), View(h)) && HeadHash(h.codec, k) == hash
    ensures GroupOk(h, ps, WithKey(cs, k), k)
  {
    hide View, Has, WithKey;
    var group := WithKey(cs, k);
    forall c | c in group ensures c.key == k && IsLive(h, ps, c) {
      WithKeyIn(cs, k, c);
      assert IsLive(h0, ps0, c);
      var loc :| LiveHead(h0, ps0, c, loc);
      assert LiveHead(h, ps, c, loc);
    }
    forall s: nat, loc: Loc | HeadOf(View(h), k, s, loc) ensures InGroup(group, k, s, loc.index) {
      assert HeadOf(View(h0), k, s, loc);
      assert InGroup(cs, k, s, loc.index);
      var c :| c in cs && c.key == k && c.sequence == s && c.index == loc.index;
      WithKeyIn(cs, k, c);
    }
    WithKeySorted(cs, k);
  }

  lemma OneOfGroup(group: seq<Candidate>, k: FullKey, s: nat, index: nat)
    requires InGroup(group, k, s, index) && |group| <= 1
    ensures group != [] && group[0].sequence == s && group[0].index == index
  {}

  /** With one candidate left, the key has one head. */
  lemma GroupSingle(h: Hal, ps: seq<ThinPage>, group: seq<Candidate>, k: FullKey)
    requires HalOk(h) && GroupOk(h, ps, group, k) && |group| <= 1
    ensures SingleHead(View(h), k)
  {
    hide View, Has, InGroup, IsLive;
    forall s: nat, x: Loc, t: nat, y: Loc | HeadOf(View(h), k, s, x) && HeadOf(View(h), k, t, y)
      ensures SamePlaceAs(s, x, t, y)
    {
      OneOfGroup(group, k, s, x.index);
      OneOfGroup(group, k, t, y.index);
    }
  }

  lemma SingleLess(vs: seq<PageView>, vs2: seq<PageView>, k: FullKey)
    requires SingleHead(vs, k) && Fewer(vs, vs2)
    ensures SingleHead(vs2, k)
  {
    hide Has;
    forall s: nat, x: Loc, t: nat, y: Loc | HeadOf(vs2, k, s, x) && HeadOf(vs2, k, t, y)
      ensures SamePlaceAs(s, x, t, y)
    {
      assert HeadOf(vs, k, s, x) && HeadOf(vs, k, t, y);
    }
  }

  /** Of several heads, the oldest has a newer one. */
  lemma OldestAt(h: Hal, ps: seq<ThinPage>, fr: seq<ThinPage>, group: seq<Candidate>, k: FullKey, x: nat)
    returns (i: nat, j: nat, loc: Loc)
    requires BaseOk(h, ps, fr) && HalOk(h) && GroupOk(h, ps, group, k) && x < |group| && |group| > 1
    requires forall y | 0 <= y < |group| :: !OlderThan(group[y], group[x])
    ensures i == group[x].page < |ps| && j < |LocsOf(h, ps[i])| && LocsOf(h, ps[i])[j] == loc &&
            LiveHead(h, ps, group[x], loc)
    ensures group[x].key == k && group[x].sequence == ps[i].sequence
    ensures HasNewer(View(h), k, Place(ps[i].sequence, loc))
  {
    hide BaseOk, Bag, View, Has, LocsOf;
    var y := if x == 0 then 1 else 0;
    assert IsLive(h, ps, group[x]) && IsLive(h, ps, group[y]);
    loc :| LiveHead(h, ps, group[x], loc);
    var loc2 :| LiveHead(h, ps, group[y], loc2);
    i, j := PageOfPlace(h, ps, fr, group[x].sequence, loc);
    SamePage(h, ps, fr, i, group[x].page);
    if group[x].sequence == group[y].sequence { SamePage(h, ps, fr, group[x].page, group[y].page); }
    assert !OlderThan(group[y], group[x]);
    assert Before(group[x].sequence, loc, group[y].sequence, loc2);
    assert HeadOf(View(h), k, group[y].sequence, loc2);
  }

  ghost predicate HasNewer(vs: seq<PageView>, k: FullKey, at: Place) {
    exists s: nat, y: Loc :: HeadOf(vs, k, s, y) && Before(at.sequence, at.loc, s, y)
  }

  /** With all heads whole, one that has a newer one loses. */
  lemma OldestLoses(vs: seq<PageView>, k: FullKey, at: Place)
    requires AllConsistent(Bag(vs, k)) && HasNewer(vs, k, at)
    ensures Loses(vs, k, at)
  {
    hide Bag, Has, Consistent;
    var s: nat, y: Loc :| HeadOf(vs, k, s, y) && Before(at.sequence, at.loc, s, y);
    var a, b := HasIn(vs, s, y);
  }

  /** `loc` is the newest head of key k. */
  ghost predicate NewestHead(vs: seq<PageView>, k: FullKey, s: nat, loc: Loc) {
    && HeadOf(vs, k, s, loc)
    && forall t: nat, x: Loc | HeadOf(vs, k, t, x) && !SamePlaceAs(t, x, s, loc) :: Before(t, x, s, loc)
  }

  ghost predicate NewestStays(vs: seq<PageView>, vs2: seq<PageView>, k: FullKey) {
    forall s: nat, loc: Loc | NewestHead(vs, k, s, loc) :: Has(vs2, s, loc)
  }

  /** A head that has a newer one was erased, with some chunks. */
  lemma NewestKept(vs0: seq<PageView>, vs1: seq<PageView>, vs2: seq<PageView>, k: FullKey, at: Place,
                   start: Option<nat>)
    requires Fewer(vs0, vs1) && NewestStays(vs0, vs1, k) && HasNewer(vs1, k, at) && SinglePlaces(vs0)
    requires HeadOf(vs1, k, at.sequence, at.loc) && ClearedPlaces(vs1, vs2, k, Some(at), start)
    ensures NewestStays(vs0, vs2, k)
  {
    hide Has;
    var t: nat, y: Loc :| HeadOf(vs1, k, t, y) && Before(at.sequence, at.loc, t, y);
    assert HeadOf(vs0, k, t, y);
    forall s: nat, loc: Loc | NewestHead(vs0, k, s, loc) ensures Has(vs2, s, loc) {
      assert SamePlaceAs(t, y, s, loc) || Before(t, y, s, loc);
      assert !ClearedHere(k, Some(at), start, s, loc);
    }
  }

  lemma NewestMore(vs0: seq<PageView>, vs1: seq<PageView>, vs2: seq<PageView>, k: FullKey, j: FullKey)
    requires Fewer(vs0, vs1) && NewestStays(vs0, vs1, j) && OnlyKey(vs1, vs2, k) && NewestStays(vs1, vs2, k)
    ensures NewestStays(vs0, vs2, j)
  {
    hide Has;
    forall s: nat, loc: Loc | NewestHead(vs0, j, s, loc) ensures Has(vs2, s, loc) {
      if j == k {
        forall t: nat, x: Loc | HeadOf(vs1, k, t, x) ensures HeadOf(vs0, k, t, x) {}
        assert NewestHead(vs1, k, s, loc);
      }
    }
  }

  lemma ClearedOnly(h: Hal, h2: Hal, k: FullKey, at: Place, start: Option<nat>)
    requires HalOk(h) && HalOk(h2) && ClearedPlaces(View(h), View(h2), k, Some(at), start) && SinglePlaces(View(h))
    requires HeadOf(View(h), k, at.sequence, at.loc)
    ensures OnlyKey(View(h), View(h2), k) && Fewer(View(h), View(h2))
  {
    hide Bag, View, Has;
  }

  function Rest(group: seq<Candidate>, x: nat): (r: seq<Candidate>)
    requires x < |group|
    ensures |r| == |group| - 1
    ensures forall i | 0 <= i < |r| :: r[i] == group[if i < x then i else i + 1]
  {
    group[..x] + group[x + 1..]
  }

  /** The other candidates are live still. */
  lemma StillLive(h: Hal, ps: seq<ThinPage>, fr: seq<ThinPage>, group: seq<Candidate>, k: FullKey, x: nat, loc: Loc,
                  y: nat, h2: Hal, ps2: seq<ThinPage>)
    requires BaseOk(h, ps, fr) && HalOk(h) && HalOk(h2) && GroupOk(h, ps, group, k) && x < |group| &&
             LiveHead(h, ps, group[x], loc)
    requires ClearedPlaces(View(h), View(h2), k, Some(Place(group[x].sequence, loc)), group[x].version) &&
             SameBytes(h, ps, h2, ps2)
    requires y < |group| && y != x
    ensures group[y].key == k && IsLive(h2, ps2, group[y])
  {
    hide BaseOk, Bag, View, Has;
    var c := group[y];
    assert IsLive(h, ps, c);
    var l :| LiveHead(h, ps, c, l);
    if c.sequence == group[x].sequence { SamePage(h, ps, fr, c.page, group[x].page); }
    assert c.page != group[x].page || c.index != group[x].index;
    assert !ClearedHere(k, Some(Place(group[x].sequence, loc)), group[x].version, c.sequence, l);
    assert LiveHead(h2, ps2, c, l);
  }

  /** The head erased is none of the heads left. */
  lemma HeadLeft(h: Hal, ps: seq<ThinPage>, group: seq<Candidate>, k: FullKey, x: nat, loc: Loc, h2: Hal, s: nat,
                 l: Loc)
    requires HalOk(h) && HalOk(h2) && GroupOk(h, ps, group, k) && x < |group| && LiveHead(h, ps, group[x], loc)
    requires ClearedPlaces(View(h), View(h2), k, Some(Place(group[x].sequence, loc)), group[x].version)
    requires SinglePlaces(View(h)) && HeadOf(View(h2), k, s, l)
    ensures InGroup(Rest(group, x), k, s, l.index)
  {
    hide View, Has;
    assert HeadOf(View(h), k, s, l);
    assert InGroup(group, k, s, l.index);
    var c :| c in group && c.key == k && c.sequence == s && c.index == l.index;
    var y :| 0 <= y < |group| && group[y] == c;
    assert SamePlaceAs(s, l, group[x].sequence, loc) ==> l == loc;
    assert y != x;
    assert Rest(group, x)[if y < x then y else y - 1] == c;
  }

  lemma RestDistinct(group: seq<Candidate>, x: nat)
    requires Distinct(group) && x < |group|
    ensures Distinct(Rest(group, x))
  {}

  /** One head erased: the rest of the group is the key's heads. */
  lemma GroupStep(h: Hal, ps: seq<ThinPage>, fr: seq<ThinPage>, group: seq<Candidate>, k: FullKey, x: nat, loc: Loc,
                  h2: Hal, ps2: seq<ThinPage>)
    requires BaseOk(h, ps, fr) && HalOk(h) && HalOk(h2) && GroupOk(h, ps, group, k) && x < |group| &&
             LiveHead(h, ps, group[x], loc)
    requires ClearedPlaces(View(h), View(h2), k, Some(Place(group[x].sequence, loc)), group[x].version) &&
             SameBytes(h, ps, h2, ps2)
    requires SinglePlaces(View(h))
    ensures GroupOk(h2, ps2, Rest(group, x), k)
  {
    hide BaseOk, Bag, View, Has, LiveHead, IsLive, InGroup, ClearedPlaces, SameBytes, SinglePlaces, Distinct, HeadOf;
    var rest := Rest(group, x);
    forall c | c in rest ensures c.key == k && IsLive(h2, ps2, c) {
      var i :| 0 <= i < |rest| && rest[i] == c;
      StillLive(h, ps, fr, group, k, x, loc, if i < x then i else i + 1, h2, ps2);
    }
    forall s: nat, l: Loc | HeadOf(View(h2), k, s, l) ensures InGroup(rest, k, s, l.index) {
      HeadLeft(h, ps, group, k, x, loc, h2, s, l);
    }
    RestDistinct(group, x);
  }

  /** Clearing a head with its version keeps all versions in order. */
  lemma ClearedVersions(h: Hal, ps: seq<ThinPage>, fr: seq<ThinPage>, kv: Contents, k: FullKey, at: Place,
                        start: Option<nat>, h2: Hal)
    requires Cleaning(h, ps, fr, kv) && HalOk(h) && HalOk(h2) && AllVersionsOk(h) && k.ns != 0
    requires Cleared(h, h2, k, Some(at), start) && HeadOf(View(h), k, at.sequence, at.loc) &&
             start == VersionIn(at.loc.rec.item)
    ensures AllVersionsOk(h2)
  {
    hide Cleaning, Bag, View, Has, Cleared, VersionOk, Mixed, Lean, Wins, VersionGone;
    FatedMixed(h, ps, fr, kv, k);
    HeadFacts(h, k, at);
    forall j: FullKey, s: nat | j.ns != 0 && s in {0, 0x80} ensures VersionOk(HBag(h2, j), s) {
      assert VersionOk(HBag(h, j), s);
      HeadVersion(h.codec, HBag(h, k), at.loc.rec, start);
      if j == k && start == Some(s) {
        GoneNow(h, k, Some(at), s, h2);
        GoneOk(HBag(h2, k), s);
      } else {
        VersionOkKept(h, k, Some(at), start, h2, j, s);
      }
    }
  }

  lemma GoneOk(b: multiset<Rec>, s: nat)
    requires VersionGone(b, s)
    ensures VersionOk(b, s)
  {}

  lemma HeadVersion(c: Codec, b: multiset<Rec>, r: Rec, start: Option<nat>)
    requires Mixed(c, b) && r in b && IsHead(r) && start == VersionIn(r.item)
    ensures forall s | s in {0, 0x80} && start != Some(s) :: !OfVersion(r, s)
    ensures start.Some? ==> start.value in {0, 0x80} && forall q | Owns(b, q, start.value) :: q == r
  {
    assert Typed(c, r);
    if start.Some? {
      forall q | Owns(b, q, start.value) ensures q == r { assert SameVersion(q, r); }
    }
  }

  /** A run of at most one hash has no duplicates. */
  lemma LonelyHash(h: Hal, ps: seq<ThinPage>, fr: seq<ThinPage>, spots: seq<HashSpot>, k: FullKey)
    requires BaseOk(h, ps, fr) && HalOk(h) && SpotsOk(h, ps, spots) && k.ns != 0
    requires |WithHash(spots, HeadHash(h.codec, k))| <= 1
    ensures SingleHead(View(h), k)
  {
    hide BaseOk, View, Has, LocsOf, WithHash;
    forall s: nat, x: Loc, t: nat, y: Loc | HeadOf(View(h), k, s, x) && HeadOf(View(h), k, t, y)
      ensures SamePlaceAs(s, x, t, y)
    {
      var hash := HeadHash(h.codec, k);
      var i, a := HeadSpot(h, ps, fr, k, s, x);
      var j, b := HeadSpot(h, ps, fr, k, t, y);
      WithHashIn(spots, hash, HashSpot(hash, i, x.index));
      WithHashIn(spots, hash, HashSpot(hash, j, y.index));
      assert WithHash(spots, hash)[0] == HashSpot(hash, i, x.index) == HashSpot(hash, j, y.index);
    }
  }

  /** At most one head a key, all of them whole: every key reads its value. */
  lemma CleanedSteady(h: Hal, ps: seq<ThinPage>, fr: seq<ThinPage>, kv: Contents)
    requires Cleaning(h, ps, fr, kv) && AllVersionsOk(h) && forall k: FullKey | k.ns != 0 :: SingleHead(View(h), k)
    ensures Steady(h, ps, fr, kv)
  {
    hide InstOk, Bag, View, Wins, Reads, Neat, SingleHead, VersionOk;
    CleaningFacts(h, ps, fr, kv);
    ViewApart(h);
    forall k: FullKey ensures Reads(h.codec, HBag(h, k), Get(kv, k)) && Neat(HBag(h, k)) {
      if k.ns != 0 {
        FatedMixed(h, ps, fr, kv, k);
        VersionsNeat(h.codec, HBag(h, k));
        WinsReads(h.codec, View(h), k, Get(kv, k));
      } else {
        assert Fated(h, kv, k);
        ReadsRegular(h.codec, HBag(h, k), Get(kv, k));
        NamesNeat(h, ps, fr, k);
      }
    }
  }

  lemma ViewApart(h: Hal)
    requires HalOk(h)
    ensures PlacesApart(View(h))
  {
    hide ScanFrom;
    var vs := View(h);
    forall a, i, j | 0 <= a < |vs| && vs[a].Used? && 0 <= i < j < |vs[a].locs|
      ensures vs[a].locs[i].index != vs[a].locs[j].index
    {
      ScanOrdered(h.codec, h.sectors[a], 0);
    }
  }

  /** Namespace entries are heads. */
  lemma NamesNeat(h: Hal, ps: seq<ThinPage>, fr: seq<ThinPage>, k: FullKey)
    requires InstOk(h, ps, fr) && HalOk(h) && k.ns == 0 && Regular(h.codec, HBag(h, k))
    ensures Neat(HBag(h, k))
  {
    hide BaseOk, Bag, View, LocsOf;
    InstSequences(h, ps, fr);
    forall r | r in HBag(h, k) ensures IsHead(r) {
      var i, j := BagOnPage(h, ps, fr, k, r);
      assert Typed(h.codec, r);
    }
  }

  lemma SpotPage(h: Hal, ps: seq<ThinPage>, s: HashSpot, j: nat)
    requires HalOk(h) && Spotted(h, ps, s, j)
    ensures s.page < |ps|
  {}

  lemma OnlyRefl(h: Hal, ps: seq<ThinPage>, k: FullKey)
    requires HalOk(h)
    ensures OnlyKey(View(h), View(h), k) && SameBytes(h, ps, h, ps)
    ensures Fewer(View(h), View(h)) && NewestStays(View(h), View(h), k)
  {}

  lemma NewestRefl(vs: seq<PageView>)
    ensures forall k: FullKey :: NewestStays(vs, vs, k)
  {}

  lemma OnlyMore(h0: Hal, h1: Hal, h2: Hal, k: FullKey)
    requires HalOk(h0) && HalOk(h1) && HalOk(h2) && OnlyKey(View(h0), View(h1), k) && OnlyKey(View(h1), View(h2), k)
    ensures OnlyKey(View(h0), View(h2), k) && Fewer(View(h0), View(h2))
  {
    hide View, Has;
  }

  lemma OnlyFewer(vs0: seq<PageView>, vs1: seq<PageView>, vs2: seq<PageView>, k: FullKey)
    requires Fewer(vs0, vs1) && OnlyKey(vs1, vs2, k)
    ensures Fewer(vs0, vs2)
  {
    hide Has;
  }

  lemma OtherKey(vs0: seq<PageView>, vs1: seq<PageView>, vs2: seq<PageView>, k: FullKey, j: FullKey)
    requires OnlyKey(vs1, vs2, k) && j != k
    ensures Untouched(vs0, vs1, j) ==> Untouched(vs0, vs2, j)
    ensures SingleHead(vs1, j) ==> SingleHead(vs2, j)
  {
    hide Has;
    if SingleHead(vs1, j) { SingleLess(vs1, vs2, j); }
  }

  lemma SameBytesCodec(h: Hal, ps: seq<ThinPage>, h2: Hal, ps2: seq<ThinPage>)
    requires SameBytes(h, ps, h2, ps2)
    ensures h2.codec == h.codec
  {}

  lemma VersionsAt(h: Hal, k: FullKey)
    requires AllVersionsOk(h) && k.ns != 0
    ensures HalOk(h) && VersionOk(HBag(h, k), 0) && VersionOk(HBag(h, k), 0x80)
  {}

  lemma LiveFacts(h: Hal, ps: seq<ThinPage>, c: Candidate, loc: Loc, j: nat)
    requires HalOk(h) && LiveHead(h, ps, c, loc) && c.page < |ps| && j < |LocsOf(h, ps[c.page])| &&
             LocsOf(h, ps[c.page])[j] == loc
    ensures KeptAt(LocsOf(h, ps[c.page]), j, c.index) && loc.rec.item.span == c.span &&
            VersionIn(loc.rec.item) == c.version
    ensures HeadOf(View(h), c.key, ps[c.page].sequence, loc) && ps[c.page].sequence == c.sequence
  {}

  /** Before the first run nothing was touched; a hash no item has, no key has either. */
  lemma RunsStart(h: Hal, ps: seq<ThinPage>, fr: seq<ThinPage>, spots: seq<HashSpot>, hashes: set<nat>)
    requires BaseOk(h, ps, fr) && HalOk(h) && SpotsOk(h, ps, spots) && hashes == set s | s in spots :: s.hash
    ensures Fewer(View(h), View(h)) && SameBytes(h, ps, h, ps)
    ensures forall k: FullKey :: Untouched(View(h), View(h), k)
    ensures forall k: FullKey | k.ns != 0 && HeadHash(h.codec, k) !in hashes :: SingleHead(View(h), k)
  {
    hide BaseOk, View, Has, LocsOf, HeadHash;
    forall k: FullKey | k.ns != 0 ensures SingleHead(View(h), k) || HeadHash(h.codec, k) in hashes {
      if exists s: nat, x: Loc :: HeadOf(View(h), k, s, x) {
        var s: nat, x: Loc :| HeadOf(View(h), k, s, x);
        var i, j := HeadSpot(h, ps, fr, k, s, x);
        var spot := HashSpot(HeadHash(h.codec, k), i, x.index);
        assert spot in spots;
      }
    }
  }

  /** The item at a spot is a head. */
  ghost predicate HeadAt(h: Hal, ps: seq<ThinPage>, s: HashSpot, loc: Loc)
    requires HalOk(h)
  {
    && s.page < |ps| && loc in LocsOf(h, ps[s.page]) && loc.index == s.index && loc.rec.item.ns != 0 && IsHead(loc.rec)
  }

  ghost predicate CandidateOk(h: Hal, ps: seq<ThinPage>, c: Candidate, hash: nat)
    requires HalOk(h)
  {
    c.key.ns != 0 && HeadHash(h.codec, c.key) == hash && IsLive(h, ps, c)
  }

  /** Keys of the run that have no candidate have no head. */
  lemma SnapshotKeys(h0: Hal, ps0: seq<ThinPage>, cs: seq<Candidate>, hash: nat, h: Hal)
    requires HalOk(h0) && HalOk(h) && Snapshot(h0, ps0, cs, hash) && h.codec == h0.codec && Fewer(View(h0), View(h))
    ensures forall c | c in cs :: c.key.ns != 0 && HeadHash(h.codec, c.key) == hash
    ensures forall k: FullKey | k.ns != 0 && HeadHash(h.codec, k) == hash && (forall c | c in cs :: c.key != k) ::
              SingleHead(View(h), k)
  {
    hide View, Has, HeadHash;
    forall k: FullKey | k.ns != 0 && HeadHash(h.codec, k) == hash
      ensures SingleHead(View(h), k) || exists c :: c in cs && c.key == k
    {
      if exists s: nat, x: Loc :: HeadOf(View(h), k, s, x) {
        var s: nat, x: Loc :| HeadOf(View(h), k, s, x);
        assert HeadOf(View(h0), k, s, x);
        assert InGroup(cs, k, s, x.index);
      }
    }
  }

  // ---- collecting ----

  /** The hash list of page i, as spots. */
  function PageEntries(hs: seq<HashEntry>, i: nat): (r: seq<HashSpot>)
    ensures |r| == |hs|
  {
    seq(|hs|, e requires 0 <= e < |hs| => HashSpot(hs[e].hash, i, hs[e].index))
  }

  /** The spots of the first i pages. */
  ghost predicate SpotsUpTo(h: Hal, ps: seq<ThinPage>, spots: seq<HashSpot>, i: nat)
    requires HalOk(h)
  {
    && (forall s | s in spots :: IsSpot(h, ps, s) && s.page < i)
    && (forall s: HashSpot, j: nat | Spotted(h, ps, s, j) && s.page < i :: s in spots)
    && SpotsSorted(spots)
  }

  lemma AddPage(h: Hal, ps: seq<ThinPage>, spots: seq<HashSpot>, i: nat)
    requires AllLoaded(h, ps) && i < |ps| && SpotsUpTo(h, ps, spots, i)
    ensures SpotsUpTo(h, ps, spots + PageEntries(ps[i].hashes, i), i + 1)
  {
    hide Loaded, Spotted;
    PageSpots(h, ps, i);
    var one := PageEntries(ps[i].hashes, i);
    var all := spots + one;
    forall s: HashSpot, j: nat | Spotted(h, ps, s, j) && s.page < i + 1 ensures s in all {
      if s.page == i {
        var x :| 0 <= x < |ps[i].hashes| && ps[i].hashes[x] == HashEntry(s.hash, s.index);
        assert one[x] == s;
      }
    }
    forall x, y | 0 <= x < y < |all| ensures SpotLess(all[x], all[y]) {
      if x < |spots| { assert all[x] in spots; }
    }
  }

  lemma AllAdded(h: Hal, ps: seq<ThinPage>, spots: seq<HashSpot>)
    requires HalOk(h) && SpotsUpTo(h, ps, spots, |ps|)
    ensures SpotsOk(h, ps, spots)
  {
    hide LocsOf;
    forall s: HashSpot, j: nat | Spotted(h, ps, s, j) ensures s in spots { SpotPage(h, ps, s, j); }
  }

  ghost predicate From(entries: seq<HashSpot>, n: nat, c: Candidate) {
    exists x :: 0 <= x < n && x < |entries| && entries[x].page == c.page && entries[x].index == c.index
  }

  /** The candidates among the first n entries of a run. */
  ghost predicate CandidatesOf(h: Hal, ps: seq<ThinPage>, entries: seq<HashSpot>, n: nat, cs: seq<Candidate>, hash: nat)
    requires HalOk(h)
  {
    && n <= |entries|
    && (forall c | c in cs :: CandidateOk(h, ps, c, hash) && From(entries, n, c))
    && (forall x: nat, loc | x < n && HeadAt(h, ps, entries[x], loc) ::
          InGroup(cs, KeyOf(loc.rec.item), ps[entries[x].page].sequence, loc.index))
    && CandidatesSorted(cs)
  }

  /** One place on a page holds one item. */
  lemma PageUnique(h: Hal, p: ThinPage, x: Loc, y: Loc)
    requires HalOk(h) && x in LocsOf(h, p) && y in LocsOf(h, p) && x.index == y.index
    ensures x == y
  {
    hide ScanFrom;
    ScanOrdered(h.codec, h.sectors[p.addr], 0);
  }

  lemma CandidateSkip(h: Hal, ps: seq<ThinPage>, entries: seq<HashSpot>, n: nat, cs: seq<Candidate>, hash: nat,
                      loc: Loc)
    requires HalOk(h) && CandidatesOf(h, ps, entries, n, cs, hash) && n < |entries| && entries[n].page < |ps|
    requires loc in LocsOf(h, ps[entries[n].page]) && loc.index == entries[n].index && GoodRec(h.codec, loc.rec)
    requires loc.rec.item.typ == BlobData
    ensures CandidatesOf(h, ps, entries, n + 1, cs, hash)
  {
    hide LocsOf, CandidateOk, InGroup;
    forall l | l in LocsOf(h, ps[entries[n].page]) && l.index == entries[n].index ensures l == loc {
      PageUnique(h, ps[entries[n].page], loc, l);
    }
    forall c | c in cs ensures From(entries, n + 1, c) { assert From(entries, n, c); }
  }

  lemma CandidateTake(h: Hal, ps: seq<ThinPage>, entries: seq<HashSpot>, n: nat, cs: seq<Candidate>, hash: nat,
                      loc: Loc, c: Candidate)
    requires HalOk(h) && CandidatesOf(h, ps, entries, n, cs, hash) && n < |entries| && entries[n].page < |ps| &&
             SpotsSorted(entries)
    requires loc in LocsOf(h, ps[entries[n].page]) && loc.index == entries[n].index && GoodRec(h.codec, loc.rec)
    requires loc.rec.item.typ != BlobData && loc.rec.item.ns != 0 && ItemHash(h.codec, loc.rec.item) == hash
    requires Has(View(h), ps[entries[n].page].sequence, loc)
    requires c == Candidate(KeyOf(loc.rec.item), entries[n].page, entries[n].index, ps[entries[n].page].sequence,
                            loc.rec.item.span, VersionIn(loc.rec.item))
    ensures CandidatesOf(h, ps, entries, n + 1, cs + [c], hash)
  {
    hide LocsOf, View, Has;
    var more := cs + [c];
    assert IsHead(loc.rec);
    assert LiveHead(h, ps, c, loc);
    assert From(entries, n + 1, c);
    forall d | d in more ensures CandidateOk(h, ps, d, hash) && From(entries, n + 1, d) {
      if d != c { assert From(entries, n, d); }
    }
    assert c in more;
    forall x: nat, l | x < n + 1 && HeadAt(h, ps, entries[x], l)
      ensures InGroup(more, KeyOf(l.rec.item), ps[entries[x].page].sequence, l.index)
    {
      if x == n {
        PageUnique(h, ps[entries[n].page], loc, l);
        assert InGroup(more, c.key, c.sequence, c.index);
      } else {
        assert InGroup(cs, KeyOf(l.rec.item), ps[entries[x].page].sequence, l.index);
        var d :| d in cs && d.key == KeyOf(l.rec.item) && d.sequence == ps[entries[x].page].sequence &&
            d.index == l.index;
        assert d in more;
      }
    }
    forall x, y | 0 <= x < y < |more| ensures CandidateLess(more[x], more[y]) {
      if y == |cs| {
        assert more[x] in cs;
        assert From(entries, n, more[x]);
        var z :| 0 <= z < n && entries[z].page == more[x].page && entries[z].index == more[x].index;
        assert SpotLess(entries[z], entries[n]);
      }
    }
  }

  lemma CandidatesSnapshot(h: Hal, ps: seq<ThinPage>, fr: seq<ThinPage>, spots: seq<HashSpot>, entries: seq<HashSpot>,
                           cs: seq<Candidate>, hash: nat)
    requires BaseOk(h, ps, fr) && HalOk(h) && SpotsOk(h, ps, spots) && entries == WithHash(spots, hash)
    requires CandidatesOf(h, ps, entries, |entries|, cs, hash)
    ensures Snapshot(h, ps, cs, hash)
  {
    hide BaseOk, LocsOf, View, Has, WithHash;
    forall k: FullKey, s: nat, loc: Loc | k.ns != 0 && HeadHash(h.codec, k) == hash && HeadOf(View(h), k, s, loc)
      ensures InGroup(cs, k, s, loc.index)
    {
      var i, j := HeadSpot(h, ps, fr, k, s, loc);
      var spot := HashSpot(hash, i, loc.index);
      WithHashIn(spots, hash, spot);
      var x: nat :| x < |entries| && entries[x] == spot;
      assert HeadAt(h, ps, entries[x], loc);
    }
  }

  lemma NoSpots(h: Hal, ps: seq<ThinPage>)
    requires HalOk(h)
    ensures SpotsUpTo(h, ps, [], 0)
  {}

  lemma NoCandidates(h: Hal, ps: seq<ThinPage>, entries: seq<HashSpot>, hash: nat)
    requires HalOk(h)
    ensures CandidatesOf(h, ps, entries, 0, [], hash)
  {}

  lemma SpotsOrder(h: Hal, ps: seq<ThinPage>, spots: seq<HashSpot>, hash: nat)
    requires HalOk(h) && SpotsOk(h, ps, spots)
    ensures SpotsSorted(WithHash(spots, hash))
  {
    WithHashSorted(spots, hash);
  }

  lemma EntrySpot(h: Hal, ps: seq<ThinPage>, spots: seq<HashSpot>, hash: nat, s: HashSpot) returns (j: nat)
    requires HalOk(h) && SpotsOk(h, ps, spots) && s in WithHash(spots, hash)
    ensures Spotted(h, ps, s, j) && s.hash == hash && s.page < |ps|
  {
    hide LocsOf, WithHash;
    WithHashIn(spots, hash, s);
    assert IsSpot(h, ps, s);
    j :| Spotted(h, ps, s, j);
  }
}
