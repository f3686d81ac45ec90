/** A page copied into a page of the reserve that goes on with the entry map it was loaded with
    (compaction.rs, free_page and copy_items): which items survive. */
module Stale {
  import opened Types
  import opened Sectors
  import opened Flash
  import opened Pages
  import opened PageOps

  /** Items that can be copied one behind the other. */
  ghost predicate Copyable(locs: seq<Loc>) {
    && (forall x | 0 <= x < |locs| :: 1 <= locs[x].rec.item.span && |locs[x].rec.raw| == 32 * locs[x].rec.item.span)
    && Spans(locs) <= ENTRIES_PER_PAGE
  }

  lemma {:induction false} SpansLast(locs: seq<Loc>)
    requires locs != []
    ensures Spans(locs) == Spans(locs[..|locs| - 1]) + locs[|locs| - 1].rec.item.span
  {
    var n := |locs| - 1;
    assert locs == locs[..n] + [locs[n]];
    SpansAppend(locs[..n], [locs[n]]);
    assert Spans([locs[n]]) == locs[n].rec.item.span + Spans([]);
  }

  lemma CopyableLess(locs: seq<Loc>)
    requires Copyable(locs) && locs != []
    ensures Copyable(locs[..|locs| - 1])
    ensures Spans(locs) == Spans(locs[..|locs| - 1]) + locs[|locs| - 1].rec.item.span
  {
    SpansLast(locs);
  }

  /** What is there after `locs` were copied, from the first entry on. */
  ghost function Copied(d: Draft, locs: seq<Loc>, ws: nat): (r: Draft)
    requires Shape(d.sector) && |d.ram| == MAP_SIZE && WriteSize(ws) && Copyable(locs)
    ensures Shape(r.sector) && |r.ram| == MAP_SIZE
  {
    if locs == [] then d
    else
      var n := |locs| - 1;
      CopyableLess(locs);
      Stored(Copied(d, locs[..n], ws), Spans(locs[..n]), locs[n].rec.raw, ws)
  }

  lemma CopiedSnoc(d: Draft, locs: seq<Loc>, loc: Loc, ws: nat)
    requires Shape(d.sector) && |d.ram| == MAP_SIZE && WriteSize(ws) && Copyable(locs + [loc])
    ensures Copyable(locs) && Spans(locs) + loc.rec.item.span == Spans(locs + [loc]) <= ENTRIES_PER_PAGE
    ensures 1 <= loc.rec.item.span && |loc.rec.raw| == 32 * loc.rec.item.span && |loc.rec.raw| % 32 == 0
    ensures Copied(d, locs + [loc], ws) == Stored(Copied(d, locs, ws), Spans(locs), loc.rec.raw, ws)
  {
    hide Stored;
    CopyableLess(locs + [loc]);
    assert (locs + [loc])[..|locs|] == locs && (locs + [loc])[|locs|] == loc;
  }

  /** The states and bytes so far: all of the first n entries are marked, nothing behind them is
      programmed but their old states, where a write unit reaches that far. */
  ghost predicate CopyState(d: Draft, ram: seq<EntryState>, n: nat) {
    && Shape(d.sector) && |d.ram| == MAP_SIZE && |ram| == MAP_SIZE && n <= ENTRIES_PER_PAGE
    && (forall j | 0 <= j < n :: d.ram[j] == AndState(ram[j], Written) == d.sector.emap[j])
    && (forall j | n <= j < MAP_SIZE :: d.ram[j] == ram[j] && AndState(d.sector.emap[j], ram[j]) == ram[j])
    && (forall b | 32 * n <= b < BODY_SIZE :: d.sector.body[b] == 0xFF)
  }

  lemma StoredState(d: Draft, ram: seq<EntryState>, n: nat, raw: seq<byte>, ws: nat)
    requires CopyState(d, ram, n) && WriteSize(ws) && 32 <= |raw| && |raw| % 32 == 0 && 32 * n + |raw| <= BODY_SIZE
    ensures CopyState(Stored(d, n, raw, ws), ram, n + |raw| / 32)
    ensures Stored(d, n, raw, ws).sector.body[32 * n .. 32 * n + |raw|] == raw
    ensures Stored(d, n, raw, ws).sector.body[..32 * n] == d.sector.body[..32 * n]
  {
    hide ProgramBytes, WindowStart, WindowEnd;
    var hi := n + |raw| / 32;
    var s := ProgramBytes(d.sector, 32 * n, raw);
    ProgramOnBlank(d.sector, 32 * n, raw);
    var r := Stored(d, n, raw, ws);
    var lo, up := WindowStart(n, ws), WindowEnd(hi, ws);
    ProgramBytesMap(d.sector, 32 * n, raw);
    forall j | 0 <= j < MAP_SIZE
      ensures r.ram[j] == if n <= j < hi then AndState(ram[j], Written) else d.ram[j]
      ensures r.sector.emap[j] == if lo <= j < up then AndState(d.sector.emap[j], r.ram[j]) else d.sector.emap[j]
    {
      if lo <= j < up { assert r.ram[lo .. up][j - lo] == r.ram[j]; }
    }
  }

  lemma ProgramBytesMap(s: Sector, off: nat, bytes: seq<byte>)
    requires Shape(s) && off + |bytes| <= BODY_SIZE
    ensures ProgramBytes(s, off, bytes).emap == s.emap
  {}

  /** Where the items are. */
  ghost predicate StoredAt(s: Sector, locs: seq<Loc>, x: nat)
    requires Shape(s) && Copyable(locs) && x < |locs|
  {
    var at := Spans(locs[..x]);
    at + locs[x].rec.item.span <= ENTRIES_PER_PAGE &&
    s.body[32 * at .. 32 * (at + locs[x].rec.item.span)] == locs[x].rec.raw
  }

  lemma {:induction false} CopiedStates(s: Sector, ram: seq<EntryState>, locs: seq<Loc>, ws: nat)
    requires Shape(s) && BlankFrom(s, 0) && |ram| == MAP_SIZE && WriteSize(ws) && Copyable(locs)
    requires forall j | 0 <= j < MAP_SIZE :: s.emap[j] == Empty
    ensures CopyState(Copied(Draft(s, ram), locs, ws), ram, Spans(locs))
    ensures forall x | 0 <= x < |locs| :: StoredAt(Copied(Draft(s, ram), locs, ws).sector, locs, x)
  {
    hide Stored, Spans, Copyable, StoredAt;
    CopyableNone();
    if locs != [] {
      var n := |locs| - 1;
      CopyableLess(locs);
      CopyableAt(locs, n);
      CopiedStates(s, ram, locs[..n], ws);
      var d, at := Copied(Draft(s, ram), locs[..n], ws), Spans(locs[..n]);
      StoredState(d, ram, at, locs[n].rec.raw, ws);
      var t := Copied(Draft(s, ram), locs, ws).sector;
      forall x | 0 <= x < |locs| ensures StoredAt(t, locs, x) {
        if x == n {
          StoredLast(t, locs, n);
        } else {
          assert StoredAt(d.sector, locs[..n], x);
          StoredStays(d.sector, t, locs, x);
        }
      }
    }
  }

  lemma CopyableNone()
    ensures Copyable([]) && Spans([]) == 0
  {}

  lemma CopyableAt(locs: seq<Loc>, x: nat)
    requires Copyable(locs) && x < |locs|
    ensures 1 <= locs[x].rec.item.span && |locs[x].rec.raw| == 32 * locs[x].rec.item.span &&
            Spans(locs) <= ENTRIES_PER_PAGE
  {}

  lemma StoredLast(t: Sector, locs: seq<Loc>, x: nat)
    requires Shape(t) && Copyable(locs) && x < |locs|
    requires Spans(locs[..x]) + locs[x].rec.item.span <= ENTRIES_PER_PAGE
    requires t.body[32 * Spans(locs[..x]) .. 32 * (Spans(locs[..x]) + locs[x].rec.item.span)] == locs[x].rec.raw
    ensures StoredAt(t, locs, x)
  {}

  lemma StoredStays(s: Sector, t: Sector, locs: seq<Loc>, x: nat)
    requires Shape(s) && Shape(t) && Copyable(locs) && x < |locs| - 1 && Copyable(locs[..|locs| - 1])
    requires StoredAt(s, locs[..|locs| - 1], x) &&
             t.body[..32 * Spans(locs[..|locs| - 1])] == s.body[..32 * Spans(locs[..|locs| - 1])]
    ensures StoredAt(t, locs, x)
  {
    hide Spans;
    var init := locs[..|locs| - 1];
    assert init[..x] == locs[..x] && init[x] == locs[x];
    SpansUpTo(init, x);
    SpansUpTo(locs, x);
    var lo, hi, at := 32 * Spans(locs[..x]), 32 * (Spans(locs[..x]) + locs[x].rec.item.span), 32 * Spans(init);
    assert t.body[lo .. hi] == t.body[..at][lo .. hi] && s.body[lo .. hi] == s.body[..at][lo .. hi];
  }

  lemma SpansUpTo(locs: seq<Loc>, x: nat)
    requires x < |locs|
    ensures Spans(locs[..x]) + locs[x].rec.item.span <= Spans(locs)
    ensures Spans(locs[..x + 1]) == Spans(locs[..x]) + locs[x].rec.item.span
  {
    SpansLast(locs[..x + 1]);
    assert locs[..x + 1][..x] == locs[..x];
    assert locs == locs[..x + 1] + locs[x + 1..];
    SpansAppend(locs[..x + 1], locs[x + 1..]);
  }

  /** Item x of `locs` is on the copy, where it was put. */
  ghost predicate Survives(c: Codec, t: Sector, locs: seq<Loc>, x: nat)
    requires Shape(t) && x < |locs|
  {
    Loc(Spans(locs[..x]), locs[x].rec) in ScanFrom(c, t, 0)
  }

  /** Every item is on the copy. */
  ghost predicate AllSurvive(c: Codec, t: Sector, locs: seq<Loc>) {
    Shape(t) && forall x | 0 <= x < |locs| :: Survives(c, t, locs, x)
  }

  /** The first n entries are neither erased nor illegal. */
  predicate Unspoilt(ram: seq<EntryState>, n: nat) { forall j | 0 <= j < n :: j < |ram| && ram[j] in {Empty, Written} }

  ghost predicate Parsed(c: Codec, locs: seq<Loc>) {
    forall x | 0 <= x < |locs| :: |locs[x].rec.raw| >= 32 && c.parse(locs[x].rec.raw[..32]) == Some(locs[x].rec.item)
  }

  /** Behind the last byte programmed the scan finds nothing, whatever the entry map says. */
  lemma {:induction false} ScanNoBytes(c: Codec, s: Sector, i: nat)
    requires CodecOk(c) && Shape(s) && i <= ENTRIES_PER_PAGE && forall b | 32 * i <= b < BODY_SIZE :: s.body[b] == 0xFF
    ensures ScanFrom(c, s, i) == []
    decreases ENTRIES_PER_PAGE - i
  {
    if i < ENTRIES_PER_PAGE {
      BlankBytes(s, i);
      ScanNoBytes(c, s, i + 1);
    }
  }

  /** Where the scan keeps an item, it judged so. */
  lemma {:induction false} ScanJudged(c: Codec, s: Sector, i: nat, loc: Loc)
    requires Shape(s) && i <= ENTRIES_PER_PAGE && loc in ScanFrom(c, s, i)
    ensures i <= loc.index < ENTRIES_PER_PAGE && Judge(c, s, loc.index) == Keep(loc.rec)
    decreases ENTRIES_PER_PAGE - i
  {
    hide Judge;
    match Judge(c, s, i) {
      case Drop(n) =>
        ScanDropped(c, s, i, n);
        ScanJudged(c, s, i + n, loc);
      case Keep(r) =>
        ScanKept(c, s, i, r);
        if loc != Loc(i, r) { ScanJudged(c, s, i + r.item.span, loc); }
    }
  }

  /** An item is found where its bytes are, if all of its entries are marked as written. */
  lemma StoredJudged(c: Codec, t: Sector, locs: seq<Loc>, x: nat)
    requires Shape(t) && Copyable(locs) && Parsed(c, locs) && x < |locs| && StoredAt(t, locs, x)
    requires forall j | Spans(locs[..x]) <= j < Spans(locs[..x]) + locs[x].rec.item.span :: t.emap[j] == Written
    ensures Spans(locs[..x]) < ENTRIES_PER_PAGE && Judge(c, t, Spans(locs[..x])) == Keep(locs[x].rec)
  {
    var at, r := Spans(locs[..x]), locs[x].rec;
    assert Entry(t, at) == r.raw[..32];
    assert Entries(t, at, r.item.span) == r.raw;
  }

  /** With the entries of all items marked as written, the scan finds them all, in order. */
  lemma {:induction false} ScanStored(c: Codec, t: Sector, locs: seq<Loc>, x: nat)
    requires CodecOk(c) && Shape(t) && Copyable(locs) && Parsed(c, locs) && x <= |locs|
    requires forall y | 0 <= y < |locs| :: StoredAt(t, locs, y)
    requires forall j | 0 <= j < Spans(locs) :: t.emap[j] == Written
    requires forall b | 32 * Spans(locs) <= b < BODY_SIZE :: t.body[b] == 0xFF
    ensures Spans(locs[..x]) <= ENTRIES_PER_PAGE
    ensures forall y | x <= y < |locs| :: Loc(Spans(locs[..y]), locs[y].rec) in ScanFrom(c, t, Spans(locs[..x]))
    ensures Recs(ScanFrom(c, t, Spans(locs[..x]))) == Recs(locs[x..])
    decreases |locs| - x
  {
    hide ScanFrom, Judge, StoredAt, Spans, Parsed, Recs;
    if x == |locs| {
      assert locs[..x] == locs && locs[x..] == [];
      ScanNoBytes(c, t, Spans(locs));
    } else {
      SpansUpTo(locs, x);
      assert StoredAt(t, locs, x);
      StoredJudged(c, t, locs, x);
      ScanKept(c, t, Spans(locs[..x]), locs[x].rec);
      ScanStored(c, t, locs, x + 1);
      assert locs[x..] == [locs[x]] + locs[x + 1..];
      RecsCons(Loc(Spans(locs[..x]), locs[x].rec), locs[x], ScanFrom(c, t, Spans(locs[..x + 1])), locs[x + 1..]);
    }
  }

  lemma RecsCons(a: Loc, b: Loc, xs: seq<Loc>, ys: seq<Loc>)
    requires a.rec == b.rec && Recs(xs) == Recs(ys)
    ensures Recs([a] + xs) == Recs([b] + ys)
  {
    forall i | 0 <= i < |xs| ensures xs[i].rec == ys[i].rec { assert Recs(xs)[i] == Recs(ys)[i]; }
  }

  /** The item entry j belongs to. */
  lemma {:induction false} CoverFind(locs: seq<Loc>, j: nat) returns (x: nat)
    requires j < Spans(locs)
    ensures x < |locs| && Spans(locs[..x]) <= j < Spans(locs[..x]) + locs[x].rec.item.span
  {
    var n := |locs| - 1;
    SpansLast(locs);
    if j < Spans(locs[..n]) {
      x := CoverFind(locs[..n], j);
      assert locs[..n][..x] == locs[..x];
    } else {
      x := n;
    }
  }

  /** The copy of a page into an erased one: every item survives exactly if the entry map in RAM,
      which is not reset, has no erased or illegal state where an item goes. */
  lemma StaleCopy(c: Codec, s: Sector, ram: seq<EntryState>, locs: seq<Loc>, ws: nat)
    requires CodecOk(c) && Shape(s) && BlankFrom(s, 0) && (forall j | 0 <= j < MAP_SIZE :: s.emap[j] == Empty)
    requires |ram| == MAP_SIZE && WriteSize(ws) && Copyable(locs) && Parsed(c, locs)
    ensures var t := Copied(Draft(s, ram), locs, ws).sector;
            AllSurvive(c, t, locs) <==> Unspoilt(ram, Spans(locs))
    ensures Unspoilt(ram, Spans(locs)) ==>
              Recs(ScanFrom(c, Copied(Draft(s, ram), locs, ws).sector, 0)) == Recs(locs)
  {
    hide ScanFrom, Judge, Copied;
    var t := Copied(Draft(s, ram), locs, ws).sector;
    CopiedStates(s, ram, locs, ws);
    if Unspoilt(ram, Spans(locs)) {
      ScanStored(c, t, locs, 0);
      assert locs[..0] == [] && locs[0..] == locs;
      forall x | 0 <= x < |locs| ensures Survives(c, t, locs, x) {}
    } else {
      var j: nat :| j < Spans(locs) && ram[j] !in {Empty, Written};
      var x := CoverFind(locs, j);
      assert t.emap[j] == Erased;
      DamagedGone(c, t, locs, x, j);
    }
  }

  lemma DamagedGone(c: Codec, t: Sector, locs: seq<Loc>, x: nat, j: nat)
    requires Shape(t) && x < |locs| && Spans(locs[..x]) <= j < Spans(locs[..x]) + locs[x].rec.item.span && j < MAP_SIZE
    requires t.emap[j] == Erased && Spans(locs[..x]) < MAP_SIZE && t.emap[Spans(locs[..x])] in {Written, Erased}
    ensures !Survives(c, t, locs, x)
  {
    hide ScanFrom;
    if Survives(c, t, locs, x) { ScanJudged(c, t, 0, Loc(Spans(locs[..x]), locs[x].rec)); }
  }

  // ---- the copy itself ----

  /** Page t holds what copying `acc` into `target` gives. */
  ghost predicate Piled(h0: Hal, h: Hal, target: ThinPage, t: ThinPage, acc: seq<Loc>) {
    && HalOk(h0) && HalOk(h) && Touched(h0, h, target.addr) && |target.emap| == MAP_SIZE && Copyable(acc)
    && t.addr == target.addr && |t.emap| == MAP_SIZE && NextFree(t) == Spans(acc)
    && t.state == (if IsFull(t) then Full else Active)
    && Drawn(h, t, Copied(Draft(h0.sectors[target.addr], target.emap), acc, h0.ws))
  }

  lemma PileStart(h: Hal, target: ThinPage)
    requires HalOk(h) && target.addr < |h.sectors| && |target.emap| == MAP_SIZE && NextFree(target) == 0 &&
             target.state == Active
    ensures Piled(h, h, target, target, [])
  {
    assert h.sectors[target.addr := h.sectors[target.addr]] == h.sectors;
  }

  lemma PileStep(h0: Hal, h1: Hal, h2: Hal, target: ThinPage, t: ThinPage, t2: ThinPage, acc: seq<Loc>, loc: Loc)
    requires Piled(h0, h1, target, t, acc) && HalOk(h2) && Touched(h1, h2, target.addr) && Copyable(acc + [loc])
    requires Committed(t, t2, loc.rec) && |loc.rec.raw| == 32 * loc.rec.item.span && 1 <= loc.rec.item.span
    requires NextFree(t) + loc.rec.item.span <= ENTRIES_PER_PAGE
    requires Drawn(h2, t2, Stored(Draft(h1.sectors[target.addr], t.emap), NextFree(t), loc.rec.raw, h1.ws))
    ensures Piled(h0, h2, target, t2, acc + [loc])
  {
    hide Copied, Stored, Spans, Copyable;
    CopyableFits(acc, loc);
    CopiedSnoc(Draft(h0.sectors[target.addr], target.emap), acc, loc, h0.ws);
    StoredHeader(Draft(h1.sectors[target.addr], t.emap),
                 Copied(Draft(h0.sectors[target.addr], target.emap), acc, h0.ws),
                 NextFree(t), loc.rec.raw, h0.ws);
  }

  /** The header plays no part. */
  lemma StoredHeader(d: Draft, e: Draft, n: nat, raw: seq<byte>, ws: nat)
    requires Shape(d.sector) && Shape(e.sector) && |d.ram| == MAP_SIZE && WriteSize(ws)
    requires 32 <= |raw| && |raw| % 32 == 0 && 32 * n + |raw| <= BODY_SIZE
    requires d.sector.body == e.sector.body && d.sector.emap == e.sector.emap && d.ram == e.ram
    ensures Stored(d, n, raw, ws).sector.body == Stored(e, n, raw, ws).sector.body
    ensures Stored(d, n, raw, ws).sector.emap == Stored(e, n, raw, ws).sector.emap
    ensures Stored(d, n, raw, ws).ram == Stored(e, n, raw, ws).ram
  {}

  /** The live items of a page can be copied. */
  lemma SourceCopyable(c: Codec, p: ThinPage, s: Sector)
    requires CodecOk(c) && BodyOk(c, p, s)
    ensures Copyable(ScanFrom(c, s, 0)) && Parsed(c, ScanFrom(c, s, 0)) && Spans(ScanFrom(c, s, 0)) == p.used
  {
    hide ScanFrom, Tidy, Judge;
    var locs := ScanFrom(c, s, 0);
    forall x | 0 <= x < |locs|
      ensures 1 <= locs[x].rec.item.span && |locs[x].rec.raw| == 32 * locs[x].rec.item.span
      ensures c.parse(locs[x].rec.raw[..32]) == Some(locs[x].rec.item)
    {
      ScanJudged(c, s, 0, locs[x]);
      assert locs[x].rec == RecAt(c, s, locs[x].index);
      assert locs[x].rec.raw[..32] == Entry(s, locs[x].index);
    }
  }

  lemma {:induction false} CopyablePrefix(acc: seq<Loc>, loc: Loc, rest: seq<Loc>)
    requires Copyable(acc + [loc] + rest)
    ensures Copyable(acc + [loc]) && Spans(acc) + loc.rec.item.span <= Spans(acc + [loc] + rest)
  {
    var all := acc + [loc] + rest;
    forall x | 0 <= x < |acc| + 1 ensures (acc + [loc])[x] == all[x] {}
    SpansAppend(acc + [loc], rest);
    SpansLast(acc + [loc]);
    assert (acc + [loc])[..|acc|] == acc;
  }

  lemma PiledFacts(h0: Hal, h: Hal, target: ThinPage, t: ThinPage, acc: seq<Loc>)
    requires Piled(h0, h, target, t, acc)
    ensures HalOk(h) && Touched(h0, h, target.addr) && t.addr == target.addr && |t.emap| == MAP_SIZE &&
            NextFree(t) == Spans(acc)
    ensures t.state == Active || IsFull(t)
    ensures NextFree(t) < ENTRIES_PER_PAGE ==> t.state == Active
  {
    hide Copied;
  }

  lemma CopyableFits(acc: seq<Loc>, loc: Loc)
    requires Copyable(acc + [loc])
    ensures Spans(acc) + loc.rec.item.span <= ENTRIES_PER_PAGE
    ensures 1 <= loc.rec.item.span && |loc.rec.raw| == 32 * loc.rec.item.span
  {
    CopyableLess(acc + [loc]);
    assert (acc + [loc])[..|acc|] == acc && (acc + [loc])[|acc|] == loc;
  }

  lemma ScanOver(c: Codec, s: Sector, acc: seq<Loc>)
    requires Shape(s) && ScanFrom(c, s, 0) == acc + ScanFrom(c, s, ENTRIES_PER_PAGE)
    ensures acc == ScanFrom(c, s, 0)
  {
    assert acc + [] == acc;
  }

  /** The scan of the copy, with the header that was programmed last. */
  lemma PiledSurvive(h0: Hal, h: Hal, source: ThinPage, target: ThinPage, t: ThinPage, locs: seq<Loc>)
    requires HalOk(h0) && source.addr < |h0.sectors| && BodyOk(h0.codec, source, h0.sectors[source.addr])
    requires Piled(h0, h, target, t, locs) && locs == ScanFrom(h0.codec, h0.sectors[source.addr], 0)
    requires h0.sectors[target.addr].emap == ErasedSector().emap && h0.sectors[target.addr].body == ErasedSector().body
    ensures t.addr == target.addr < |h.sectors|
    ensures AllSurvive(h.codec, h.sectors[t.addr], locs) <==> Unspoilt(target.emap, source.used)
  {
    hide ScanFrom, Copied, BodyOk, Survives;
    var s := h0.sectors[target.addr];
    SourceCopyable(h0.codec, source, h0.sectors[source.addr]);
    StaleCopy(h0.codec, s, target.emap, locs, h0.ws);
    var u := Copied(Draft(s, target.emap), locs, h0.ws).sector;
    HeaderSurvives(h.codec, u, h.sectors[t.addr], locs);
  }

  lemma HeaderSurvives(c: Codec, s: Sector, t: Sector, locs: seq<Loc>)
    requires Shape(s) && Shape(t) && t.body == s.body && t.emap == s.emap
    ensures forall x | 0 <= x < |locs| :: Survives(c, t, locs, x) <==> Survives(c, s, locs, x)
  {
    assert s.(header := t.header) == t;
    HeaderOnly(c, s, t.header, 0);
  }
}
