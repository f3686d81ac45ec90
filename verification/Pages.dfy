/** A page in RAM and the operations on it (page.rs).

    The source owns every ThinPage by value: it moves in and out of `Vec<ThinPage>` and no two
    references to one page exist. So a page is a value here too, and a method taking `&mut self`
    returns the updated page. */
module Pages {
  import opened Types
  import opened Sectors
  import opened Flash

  datatype HashEntry = HashEntry(hash: nat, index: nat)

  datatype ThinPage = ThinPage(
    addr: nat,
    state: PageState,
    sequence: nat,
    emap: seq<EntryState>,
    hashes: seq<HashEntry>,
    erased: nat,
    used: nat)

  function UninitializedPage(addr: nat): ThinPage {
    ThinPage(addr, Uninitialized, 0, seq(MAP_SIZE, i => Empty), [], 0, 0)
  }

  function NextFree(p: ThinPage): nat { p.used + p.erased }

  function FreeEntries(p: ThinPage): nat {
    if NextFree(p) <= ENTRIES_PER_PAGE then ENTRIES_PER_PAGE - NextFree(p) else 0
  }

  predicate IsFull(p: ThinPage) { NextFree(p) >= ENTRIES_PER_PAGE }

  /** The hash list of a page holding `locs`: every item except namespace entries, in order. */
  function HashList(c: Codec, locs: seq<Loc>): seq<HashEntry> {
    if locs == [] then [] else HashOf(c, locs[0]) + HashList(c, locs[1..])
  }

  function HashOf(c: Codec, loc: Loc): seq<HashEntry> {
    if loc.rec.item.ns != 0 then [HashEntry(ItemHash(c, loc.rec.item), loc.index)] else []
  }

  function Retain(hs: seq<HashEntry>, index: nat): seq<HashEntry> {
    if hs == [] then []
    else KeepUnless(hs[0], index) + Retain(hs[1..], index)
  }

  function KeepUnless(h: HashEntry, index: nat): seq<HashEntry> { if h.index != index then [h] else [] }

  /** The page invariant, but for the header: RAM and flash agree on the entry map, used + erased is
      the next free entry, everything before it is settled and everything from it on is blank, and
      the counters and the hash list are those of the items the scan would keep. */
  ghost predicate BodyOk(c: Codec, p: ThinPage, s: Sector) {
    && Shape(s) && p.emap == s.emap
    && NextFree(p) <= ENTRIES_PER_PAGE
    && Tidy(c, s, 0, NextFree(p)) && BlankFrom(s, NextFree(p))
    && p.hashes == HashList(c, ScanFrom(c, s, 0))
    && p.used == Spans(ScanFrom(c, s, 0))
  }

  ghost predicate PageOk(c: Codec, p: ThinPage, s: Sector) {
    BodyOk(c, p, s) && s.header == Some(Header(p.state, p.sequence, true))
  }

  /** What a sector can hold after a power cut: a tidy prefix up to n, possibly followed by the one
      item, n to m, that was being written, its entries still marked Empty. */
  ghost predicate SoundAt(c: Codec, s: Sector, n: nat, m: nat) {
    && Shape(s) && n <= m <= ENTRIES_PER_PAGE
    && Tidy(c, s, 0, n)
    && (forall j | n <= j < ENTRIES_PER_PAGE :: s.emap[j] == Empty)
    && (forall b | 32 * m <= b < BODY_SIZE :: s.body[b] == 0xFF)
    && (n < m ==> c.parse(Entry(s, n)).Some? && Proper(c.parse(Entry(s, n)).value) &&
                  n + c.parse(Entry(s, n)).value.span == m)
  }

  ghost predicate Sound(c: Codec, s: Sector) { exists n: nat, m: nat :: SoundAt(c, s, n, m) }

  lemma {:induction false} SpansAppend(xs: seq<Loc>, ys: seq<Loc>)
    ensures Spans(xs + ys) == Spans(xs) + Spans(ys)
  {
    if xs == [] { assert xs + ys == ys; } else {
      SpansAppend(xs[1..], ys);
      assert (xs + ys)[1..] == xs[1..] + ys;
    }
  }

  lemma Reassociate<T>(x: seq<T>, y: seq<T>, z: seq<T>)
    ensures x + (y + z) == (x + y) + z
  {}

  lemma {:induction false} HashListAppend(c: Codec, xs: seq<Loc>, ys: seq<Loc>)
    ensures HashList(c, xs + ys) == HashList(c, xs) + HashList(c, ys)
  {
    hide HashOf;
    if xs == [] {
      assert xs + ys == ys;
    } else {
      HashListAppend(c, xs[1..], ys);
      assert (xs + ys)[1..] == xs[1..] + ys;
      Reassociate(HashOf(c, xs[0]), HashList(c, xs[1..]), HashList(c, ys));
    }
  }

  lemma RetainStep(h: HashEntry, rest: seq<HashEntry>, at: nat)
    ensures Retain([h] + rest, at) == KeepUnless(h, at) + Retain(rest, at)
  {
    assert ([h] + rest)[1..] == rest;
  }

  lemma {:induction false} RetainAppend(xs: seq<HashEntry>, ys: seq<HashEntry>, at: nat)
    ensures Retain(xs + ys, at) == Retain(xs, at) + Retain(ys, at)
  {
    if xs == [] {
      assert xs + ys == ys;
    } else {
      hide Retain, KeepUnless;
      RetainAppend(xs[1..], ys, at);
      RetainStep(xs[0], xs[1..], at);
      RetainStep(xs[0], xs[1..] + ys, at);
      assert [xs[0]] + xs[1..] == xs;
      assert [xs[0]] + (xs[1..] + ys) == xs + ys;
      Reassociate(KeepUnless(xs[0], at), Retain(xs[1..], at), Retain(ys, at));
    }
  }

  lemma {:induction false} HashListWithout(c: Codec, locs: seq<Loc>, at: nat)
    ensures HashList(c, Without(locs, at)) == Retain(HashList(c, locs), at)
  {
    if locs != [] {
      HashListWithout(c, locs[1..], at);
      var one := if locs[0].index == at then [] else [locs[0]];
      HashListAppend(c, one, Without(locs[1..], at));
      RetainAppend(HashOf(c, locs[0]), HashList(c, locs[1..]), at);
      HashListOne(c, locs[0], at);
      assert HashList(c, one) == Retain(HashOf(c, locs[0]), at);
    }
  }

  lemma HashListOne(c: Codec, loc: Loc, at: nat)
    ensures HashList(c, [loc]) == HashOf(c, loc)
    ensures Retain(HashOf(c, loc), at) == if loc.index == at then [] else HashOf(c, loc)
  {
    assert HashList(c, []) == [];
    assert [loc][1..] == [];
    assert HashOf(c, loc) + [] == HashOf(c, loc);
    if loc.rec.item.ns != 0 {
      var e := HashOf(c, loc);
      assert e[1..] == [];
      assert Retain([], at) == [];
    }
  }

  lemma {:induction false} SpansWithout(locs: seq<Loc>, k: nat, at: nat, i: nat, n: nat)
    requires KeptAt(locs, k, at) && Ordered(locs, i, n)
    ensures Spans(Without(locs, at)) == Spans(locs) - locs[k].rec.item.span
  {
    if k == 0 {
      WithoutAbsent(locs[1..], at);
      assert Without(locs, at) == locs[1..];
    } else {
      SpansWithout(locs[1..], k - 1, at, i, n);
      SpansAppend([locs[0]], Without(locs[1..], at));
      assert Spans([locs[0]]) == locs[0].rec.item.span + Spans([]);
    }
  }

  lemma {:induction false} SpansBound(locs: seq<Loc>, i: nat, n: nat)
    requires Ordered(locs, i, n) && i <= n
    ensures Spans(locs) <= n - i
  {
    if locs != [] {
      SpansBound(locs[1..], locs[0].index + locs[0].rec.item.span, n);
    }
  }

  /** `t` extends the tidy prefix of `s` by one item, at entry n. */
  ghost predicate Extends(c: Codec, s: Sector, t: Sector, n: nat, r: Rec) {
    && Shape(s) && Shape(t) && n < ENTRIES_PER_PAGE
    && Tidy(c, s, 0, n) && BlankFrom(s, n) && SameBelow(s, t, n)
    && Fits(r.item, n) && c.parse(Entry(t, n)) == Some(r.item)
    && r.raw == Entries(t, n, r.item.span)
    && (forall b | 32 * (n + r.item.span) <= b < BODY_SIZE :: t.body[b] == 0xFF)
  }

  lemma JudgeWritten(c: Codec, s: Sector, t: Sector, n: nat, r: Rec)
    requires Extends(c, s, t, n, r)
    requires forall j | n <= j < n + r.item.span :: t.emap[j] == Written
    ensures Judge(c, t, n) == Keep(r)
    ensures Tidy(c, t, n, n + r.item.span)
  {
    assert RecAt(c, t, n) == r;
    TidyEnd(c, t, n + r.item.span, n + r.item.span);
    TidyStep(c, t, n, n + r.item.span);
  }

  /** The item is complete once the entry map marks all of it Written. */
  lemma AppendWritten(c: Codec, s: Sector, t: Sector, n: nat, r: Rec)
    requires Extends(c, s, t, n, r)
    requires forall j | n <= j < n + r.item.span :: t.emap[j] == Written
    requires forall j | n + r.item.span <= j < ENTRIES_PER_PAGE :: t.emap[j] == Empty
    ensures Tidy(c, t, 0, n + r.item.span) && BlankFrom(t, n + r.item.span)
    ensures ScanFrom(c, t, 0) == ScanFrom(c, s, 0) + [Loc(n, r)]
  {
    hide ScanFrom, Judge, Tidy;
    var m := n + r.item.span;
    ScanSplit(c, s, t, 0, n);
    ScanBlank(c, t, m);
    JudgeWritten(c, s, t, n, r);
    ScanKept(c, t, n, r);
    assert [Loc(n, r)] + [] == [Loc(n, r)];
    TidyJoin(c, t, 0, n, m);
  }

  lemma {:induction false} TidyJoin(c: Codec, t: Sector, i: nat, n: nat, m: nat)
    requires Shape(t) && n <= m <= ENTRIES_PER_PAGE && Tidy(c, t, i, n) && Tidy(c, t, n, m)
    ensures Tidy(c, t, i, m)
    decreases ENTRIES_PER_PAGE - i
  {
    hide Tidy;
    if i < n {
      TidyStep(c, t, i, n);
      TidyStep(c, t, i, m);
      TidyJoin(c, t, i + Width(c, t, i, n), n, m);
    } else {
      TidyEnd(c, t, i, n);
    }
  }

  lemma JudgeUnmarked(c: Codec, s: Sector, t: Sector, n: nat, r: Rec)
    requires CodecOk(c) && Extends(c, s, t, n, r) && Proper(r.item)
    requires t.emap[n] == Empty
    ensures if IsScalar(r.item.typ) || DataValid(c, r) then Judge(c, t, n) == Keep(r)
            else Judge(c, t, n) == Drop(r.item.span)
  {
    BlankBytes(t, n);
    assert RecAt(c, t, n) == r;
  }

  /** Before that, the scan decides by the item's own checksums. */
  lemma AppendUnmarked(c: Codec, s: Sector, t: Sector, n: nat, r: Rec)
    requires CodecOk(c) && Extends(c, s, t, n, r) && Proper(r.item)
    requires forall j | n <= j < ENTRIES_PER_PAGE :: t.emap[j] == Empty
    ensures SoundAt(c, t, n, n + r.item.span)
    ensures ScanFrom(c, t, 0) ==
            if IsScalar(r.item.typ) || DataValid(c, r) then ScanFrom(c, s, 0) + [Loc(n, r)] else ScanFrom(c, s, 0)
  {
    hide ScanFrom, Judge, Tidy;
    var m := n + r.item.span;
    ScanSplit(c, s, t, 0, n);
    ScanBlank(c, t, m);
    JudgeUnmarked(c, s, t, n, r);
    if IsScalar(r.item.typ) || DataValid(c, r) {
      ScanKept(c, t, n, r);
      assert [Loc(n, r)] + [] == [Loc(n, r)];
    } else {
      ScanDropped(c, t, n, r.item.span);
    }
  }
}
