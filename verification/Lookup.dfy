/** Finding items: the hash lists of the pages against the items on them (items.rs, load_item). */
module Lookup {
  import opened Types
  import opened Sectors
  import opened Flash
  import opened Pages
  import opened PageOps
  import opened Scan
  import opened Store
  import opened Instance
  import opened Moves
  import opened Compaction

  /** Where an item was found. */
  datatype Found = Found(page: nat, index: nat, item: Item)

  predicate Matches(it: Item, ns: nat, key: Key, chunk: nat) { it.ns == ns && it.key == key && it.chunk == chunk }

  ghost predicate NoneMatches(locs: seq<Loc>, ns: nat, key: Key, chunk: nat) {
    forall j | 0 <= j < |locs| :: !Matches(locs[j].rec.item, ns, key, chunk)
  }

  ghost predicate FirstMatch(locs: seq<Loc>, j: nat, f: Found, ns: nat, key: Key, chunk: nat) {
    && KeptAt(locs, j, f.index) && locs[j].rec.item == f.item && Matches(f.item, ns, key, chunk)
    && NoneMatches(locs[..j], ns, key, chunk)
  }

  /** The items of a page. */
  ghost function LocsOf(h: Hal, p: ThinPage): seq<Loc>
    requires HalOk(h)
  {
    if p.addr < |h.sectors| then ScanFrom(h.codec, h.sectors[p.addr], 0) else []
  }

  /** A page whose hash list, entry map and counters are those of its sector, whatever that holds. */
  ghost predicate Loaded(h: Hal, p: ThinPage)
    requires HalOk(h)
  {
    p.addr < |h.sectors| && BodyOk(h.codec, p, h.sectors[p.addr])
  }

  ghost predicate AllLoaded(h: Hal, ps: seq<ThinPage>) {
    HalOk(h) && forall i | 0 <= i < |ps| :: Loaded(h, ps[i])
  }

  lemma BaseLoaded(h: Hal, ps: seq<ThinPage>, fr: seq<ThinPage>)
    requires BaseOk(h, ps, fr)
    ensures AllLoaded(h, ps)
  {
    hide BodyOk, FreeOk, Addrs, AllSectors, ScanFrom, GoodLocs;
  }

  // ---- the reference search ----

  ghost function FindIn(locs: seq<Loc>, k: FullKey, chunk: nat): Option<Loc> {
    if locs == [] then None
    else if Matches(locs[0].rec.item, k.ns, k.key, chunk) then Some(locs[0])
    else FindIn(locs[1..], k, chunk)
  }

  datatype Spot = Spot(page: nat, loc: Loc)

  /** The first item with this full identity in page order: a linear search that knows no hashes. */
  ghost function LookupFrom(h: Hal, ps: seq<ThinPage>, i: nat, k: FullKey, chunk: nat): (s: Option<Spot>)
    requires HalOk(h) && i <= |ps|
    decreases |ps| - i
  {
    if i == |ps| then None
    else
      match FindIn(LocsOf(h, ps[i]), k, chunk)
      case Some(loc) => Some(Spot(i, loc))
      case None => LookupFrom(h, ps, i + 1, k, chunk)
  }

  ghost function LookupKey(h: Hal, ps: seq<ThinPage>, k: FullKey, chunk: nat): Option<Spot>
    requires HalOk(h)
  {
    LookupFrom(h, ps, 0, k, chunk)
  }

  lemma {:induction false} FindInNone(locs: seq<Loc>, k: FullKey, chunk: nat)
    requires NoneMatches(locs, k.ns, k.key, chunk)
    ensures FindIn(locs, k, chunk) == None
  {
    if locs != [] { FindInNone(locs[1..], k, chunk); }
  }

  lemma {:induction false} FindInFirst(locs: seq<Loc>, j: nat, k: FullKey, chunk: nat)
    requires j < |locs| && Matches(locs[j].rec.item, k.ns, k.key, chunk)
    requires forall x | 0 <= x < j :: !Matches(locs[x].rec.item, k.ns, k.key, chunk)
    ensures FindIn(locs, k, chunk) == Some(locs[j])
  {
    if j > 0 { FindInFirst(locs[1..], j - 1, k, chunk); }
  }

  lemma FindInMatch(locs: seq<Loc>, j: nat, f: Found, k: FullKey, chunk: nat)
    requires FirstMatch(locs, j, f, k.ns, k.key, chunk)
    ensures FindIn(locs, k, chunk) == Some(locs[j])
  {
    forall x | 0 <= x < j ensures !Matches(locs[x].rec.item, k.ns, k.key, chunk) { assert locs[..j][x] == locs[x]; }
    FindInFirst(locs, j, k, chunk);
  }

  lemma {:induction false} FindInSome(locs: seq<Loc>, k: FullKey, chunk: nat) returns (j: nat)
    requires FindIn(locs, k, chunk).Some?
    ensures j < |locs| && FindIn(locs, k, chunk) == Some(locs[j]) && Matches(locs[j].rec.item, k.ns, k.key, chunk)
  {
    if Matches(locs[0].rec.item, k.ns, k.key, chunk) { j := 0; }
    else {
      j := FindInSome(locs[1..], k, chunk);
      j := j + 1;
    }
  }

  lemma {:induction false} FindInHas(locs: seq<Loc>, j: nat, k: FullKey, chunk: nat)
    requires j < |locs| && Matches(locs[j].rec.item, k.ns, k.key, chunk)
    ensures FindIn(locs, k, chunk).Some?
  {
    if !Matches(locs[0].rec.item, k.ns, k.key, chunk) { FindInHas(locs[1..], j - 1, k, chunk); }
  }

  lemma {:induction false} LookupHas(h: Hal, ps: seq<ThinPage>, i: nat, k: FullKey, chunk: nat, x: nat, j: nat)
    requires HalOk(h) && i <= x < |ps| && j < |LocsOf(h, ps[x])| &&
             Matches(LocsOf(h, ps[x])[j].rec.item, k.ns, k.key, chunk)
    ensures LookupFrom(h, ps, i, k, chunk).Some?
    decreases |ps| - i
  {
    hide LocsOf;
    if i == x { FindInHas(LocsOf(h, ps[x]), j, k, chunk); } else { LookupHas(h, ps, i + 1, k, chunk, x, j); }
  }

  lemma {:induction false} LookupSome(h: Hal, ps: seq<ThinPage>, i: nat, k: FullKey, chunk: nat) returns (j: nat)
    requires HalOk(h) && i <= |ps| && LookupFrom(h, ps, i, k, chunk).Some?
    ensures var s := LookupFrom(h, ps, i, k, chunk).value;
            && s.page < |ps| && j < |LocsOf(h, ps[s.page])| && LocsOf(h, ps[s.page])[j] == s.loc
            && Matches(s.loc.rec.item, k.ns, k.key, chunk)
    decreases |ps| - i
  {
    hide LocsOf;
    if FindIn(LocsOf(h, ps[i]), k, chunk).Some? {
      j := FindInSome(LocsOf(h, ps[i]), k, chunk);
    } else {
      j := LookupSome(h, ps, i + 1, k, chunk);
    }
  }

  lemma BasePlaced(h: Hal, ps: seq<ThinPage>, fr: seq<ThinPage>, i: nat)
    requires BaseOk(h, ps, fr) && i < |ps|
    ensures HalOk(h) && Placed(h, ps[i]) && ps[i].addr < |h.sectors|
  {
    hide Placed;
    PlacedIn(h, ps[i]);
  }

  lemma {:induction false} HashListSkip(c: Codec, locs: seq<Loc>) returns (j: nat)
    ensures j <= |locs| && (forall x | 0 <= x < j :: locs[x].rec.item.ns == 0)
    ensures j == |locs| <==> HashList(c, locs) == []
    ensures j < |locs| ==> locs[j].rec.item.ns != 0
    ensures j < |locs| ==>
              HashList(c, locs) == [HashEntry(ItemHash(c, locs[j].rec.item), locs[j].index)] +
                HashList(c, locs[j + 1..])
  {
    if locs == [] || locs[0].rec.item.ns != 0 {
      j := 0;
    } else {
      j := HashListSkip(c, locs[1..]);
      assert HashList(c, locs) == HashOf(c, locs[0]) + HashList(c, locs[1..]);
      if j + 1 < |locs| { assert locs[1..][j + 1..] == locs[j + 2..]; }
      j := j + 1;
    }
  }

  lemma LoadsKept(h: Hal, p: ThinPage, j: nat)
    requires HalOk(h) && Loaded(h, p) && j < |LocsOf(h, p)|
    ensures var loc := LocsOf(h, p)[j];
            && loc.index < ENTRIES_PER_PAGE && LoadItem(h, p, loc.index) == Some(loc.rec.item)
            && Fits(loc.rec.item, loc.index) && loc.rec == RecAt(h.codec, h.sectors[p.addr], loc.index)
  {
    hide ScanFrom, BodyOk, GoodLocs;
    ScanGrounded(h.codec, h.sectors[p.addr], 0);
  }

  /** One page of load_item. A hash may be shared by any number of items: each candidate is loaded
      and compared in full. */
  method FindOnPage(h: Hal, p: ThinPage, i: nat, hash: nat, ns: nat, chunk: nat, key: Key)
    returns (r: Option<Found>, ghost j: nat)
    requires HalOk(h) && Loaded(h, p) && ns != 0 && hash == h.codec.hash(ns, key, chunk)
    ensures r.None? ==> NoneMatches(LocsOf(h, p), ns, key, chunk)
    ensures r.Some? ==> r.value.page == i && FirstMatch(LocsOf(h, p), j, r.value, ns, key, chunk)
  {
    hide ScanFrom, GoodLocs, HashList, BodyOk, LoadItem;
    ghost var locs := LocsOf(h, p);
    PageHashes(h, p);
    j := 0;
    var e := 0;
    assert locs[0..] == locs;
    while e < |p.hashes|
      invariant e <= |p.hashes| && j <= |locs|
      invariant p.hashes[e..] == HashList(h.codec, locs[j..])
      invariant NoneMatches(locs[..j], ns, key, chunk)
    {
      ghost var skip := HashListSkip(h.codec, locs[j..]);
      assert p.hashes[e..] != [];
      j := j + skip;
      assert locs[j - skip..][skip] == locs[j];
      assert p.hashes[e] == p.hashes[e..][0];
      assert NoneMatches(locs[..j], ns, key, chunk) by {
        forall x | 0 <= x < j ensures !Matches(locs[..j][x].rec.item, ns, key, chunk) {
          if x >= j - skip { assert locs[x] == locs[j - skip..][x - (j - skip)]; }
          else { assert locs[..j][x] == locs[..j - skip][x]; }
        }
      }
      LoadsKept(h, p, j);
      if p.hashes[e].hash == hash {
        var item := LoadItem(h, p, p.hashes[e].index);
        if item.Some? && Matches(item.value, ns, key, chunk) {
          return Some(Found(i, p.hashes[e].index, item.value)), j;
        }
      }
      assert locs[j - skip..][skip + 1..] == locs[j + 1..];
      assert p.hashes[e..][1..] == p.hashes[e + 1..];
      j := j + 1;
      e := e + 1;
    }
    ghost var skip := HashListSkip(h.codec, locs[j..]);
    assert NoneMatches(locs, ns, key, chunk) by {
      forall x | 0 <= x < |locs| ensures !Matches(locs[x].rec.item, ns, key, chunk) {
        if x >= j { assert locs[x] == locs[j..][x - j]; } else { assert locs[x] == locs[..j][x]; }
      }
    }
    return None, j;
  }

  lemma PageHashes(h: Hal, p: ThinPage)
    requires HalOk(h) && Loaded(h, p)
    ensures p.hashes == HashList(h.codec, LocsOf(h, p))
  {}

  /** `r` is the first head of key k in page order. */
  ghost predicate FirstHead(h: Hal, ps: seq<ThinPage>, k: FullKey, r: Rec)
    requires HalOk(h)
  {
    exists i: nat, j: nat, f: Found :: FirstHeadAt(h, ps, k, r, i, j, f)
  }

  ghost predicate FirstHeadAt(h: Hal, ps: seq<ThinPage>, k: FullKey, r: Rec, i: nat, j: nat, f: Found)
    requires HalOk(h)
  {
    && i < |ps| && FirstMatch(LocsOf(h, ps[i]), j, f, k.ns, k.key, NO_CHUNK) && LocsOf(h, ps[i])[j].rec == r
    && forall x | 0 <= x < i :: NoneMatches(LocsOf(h, ps[x]), k.ns, k.key, NO_CHUNK)
  }

  lemma PlacedIn(h: Hal, p: ThinPage)
    requires HalOk(h) && Placed(h, p)
    ensures p.addr < |h.sectors|
  {}

  lemma BaseHal(h: Hal, ps: seq<ThinPage>, fr: seq<ThinPage>)
    requires BaseOk(h, ps, fr)
    ensures HalOk(h)
  {}

  lemma InstSequences(h: Hal, ps: seq<ThinPage>, fr: seq<ThinPage>)
    requires InstOk(h, ps, fr)
    ensures BaseOk(h, ps, fr) && BlankMaps(fr)
  {}

  lemma LocInBag(h: Hal, ps: seq<ThinPage>, fr: seq<ThinPage>, i: nat, j: nat)
    requires BaseOk(h, ps, fr) && i < |ps| && j < |LocsOf(h, ps[i])|
    ensures ps[i].addr < |h.sectors| && At(View(h), ps[i].addr, j, LocsOf(h, ps[i])[j])
    ensures LocsOf(h, ps[i])[j].rec in HBag(h, KeyOf(LocsOf(h, ps[i])[j].rec.item))
  {
    hide Placed, FreeOk, Addrs, AllSectors, Bag, ScanFrom;
    BasePlaced(h, ps, fr, i);
    PlacedView(h, ps[i]);
    BagHas(View(h), ps[i].addr, j, LocsOf(h, ps[i])[j]);
  }

  lemma BagOnPage(h: Hal, ps: seq<ThinPage>, fr: seq<ThinPage>, k: FullKey, r: Rec) returns (i: nat, j: nat)
    requires BaseOk(h, ps, fr) && r in HBag(h, k)
    ensures i < |ps| && j < |LocsOf(h, ps[i])| && LocsOf(h, ps[i])[j].rec == r && KeyOf(r.item) == k
  {
    hide Placed, FreeOk, Addrs, AllSectors, Bag, ScanFrom;
    var a, j2 := BagFind(View(h), k, r);
    i := PageOfSector(h, ps, fr, a);
    j := j2;
  }

  lemma NotInBag(h: Hal, ps: seq<ThinPage>, fr: seq<ThinPage>, ns: nat, key: Key, chunk: nat)
    requires BaseOk(h, ps, fr) && forall i | 0 <= i < |ps| :: NoneMatches(LocsOf(h, ps[i]), ns, key, chunk)
    ensures forall r | r in HBag(h, FullKey(ns, key)) :: r.item.chunk != chunk
  {
    hide BaseOk, Bag, LocsOf;
    BaseHal(h, ps, fr);
    forall r | r in HBag(h, FullKey(ns, key)) ensures r.item.chunk != chunk {
      var i, j := BagOnPage(h, ps, fr, FullKey(ns, key), r);
      assert !Matches(LocsOf(h, ps[i])[j].rec.item, ns, key, chunk);
    }
  }

  lemma FirstMatchIn(locs: seq<Loc>, j: nat, f: Found, ns: nat, key: Key, chunk: nat)
    requires FirstMatch(locs, j, f, ns, key, chunk)
    ensures j < |locs| && KeptAt(locs, j, f.index) && locs[j].rec.item == f.item && Matches(f.item, ns, key, chunk)
  {}

  lemma FoundInBag(h: Hal, ps: seq<ThinPage>, fr: seq<ThinPage>, ns: nat, key: Key, chunk: nat, f: Found, j: nat)
    requires BaseOk(h, ps, fr) && f.page < |ps| && FirstMatch(LocsOf(h, ps[f.page]), j, f, ns, key, chunk)
    requires forall x | 0 <= x < f.page :: NoneMatches(LocsOf(h, ps[x]), ns, key, chunk)
    ensures j < |LocsOf(h, ps[f.page])| && KeptAt(LocsOf(h, ps[f.page]), j, f.index)
    ensures var r := LocsOf(h, ps[f.page])[j].rec;
            && r in HBag(h, FullKey(ns, key)) && r.item == f.item && Matches(f.item, ns, key, chunk)
            && WfItem(r.item) && GoodRec(h.codec, r)
            && (chunk == NO_CHUNK ==> FirstHead(h, ps, FullKey(ns, key), r))
  {
    hide BaseOk, Bag, LocsOf, NoneMatches;
    BaseHal(h, ps, fr);
    LocInBag(h, ps, fr, f.page, j);
    LocGood(h, ps, fr, f.page, j);
    if chunk == NO_CHUNK {
      assert FirstHeadAt(h, ps, FullKey(ns, key), LocsOf(h, ps[f.page])[j].rec, f.page, j, f);
    }
  }

  lemma LocGood(h: Hal, ps: seq<ThinPage>, fr: seq<ThinPage>, i: nat, j: nat)
    requires BaseOk(h, ps, fr) && i < |ps| && j < |LocsOf(h, ps[i])|
    ensures GoodRec(h.codec, LocsOf(h, ps[i])[j].rec) && WfItem(LocsOf(h, ps[i])[j].rec.item)
  {
    hide FreeOk, Addrs, AllSectors, ScanFrom, BodyOk, Typed;
    BasePlaced(h, ps, fr, i);
    GoodAt(h.codec, LocsOf(h, ps[i]), j);
  }

  lemma GoodAt(c: Codec, locs: seq<Loc>, j: nat)
    requires GoodLocs(c, locs) && j < |locs|
    ensures GoodRec(c, locs[j].rec)
  {}

  lemma FirstHeadLoc(h: Hal, ps: seq<ThinPage>, k: FullKey, r: Rec, i: nat, j: nat, f: Found)
    requires HalOk(h) && FirstHeadAt(h, ps, k, r, i, j, f)
    ensures i < |ps| && j < |LocsOf(h, ps[i])| && LocsOf(h, ps[i])[j].rec == r && KeyOf(r.item) == k &&
            r.item.chunk == NO_CHUNK
  {
    hide LocsOf, NoneMatches;
  }

  lemma FirstBefore(locs: seq<Loc>, j: nat, f: Found, k: FullKey, b: nat)
    requires FirstMatch(locs, j, f, k.ns, k.key, NO_CHUNK) && b < |locs| &&
             Matches(locs[b].rec.item, k.ns, k.key, NO_CHUNK)
    ensures j <= b
  {
    forall x | 0 <= x < j ensures !Matches(locs[x].rec.item, k.ns, k.key, NO_CHUNK) { assert locs[..j][x] == locs[x]; }
  }

  lemma SameBagsRefl(h: Hal, ps: seq<ThinPage>, fr: seq<ThinPage>)
    requires InstOk(h, ps, fr)
    ensures SameBags(h, h)
  {}

  lemma LastPlaced(h: Hal, ps: seq<ThinPage>, fr: seq<ThinPage>, p: ThinPage)
    requires BaseOk(h, ps + [p], fr)
    ensures HalOk(h) && p.addr < |h.sectors| && Placed(h, p)
  {
    hide Placed, FreeOk, Addrs, AllSectors;
    assert (ps + [p])[|ps|] == p;
    PlacedIn(h, p);
  }

  lemma InstLast(h: Hal, ps: seq<ThinPage>, p: ThinPage, fr: seq<ThinPage>)
    requires InstOk(h, ps + [p], fr)
    ensures HalOk(h) && Placed(h, p) && p.addr < |h.sectors|
  {
    hide BaseOk;
    InstSequences(h, ps + [p], fr);
    LastPlaced(h, ps, fr, p);
  }
}
