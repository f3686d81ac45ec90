/** One flash sector and what the boot scan makes of it (init.rs, load_sector).

    `ScanFrom` is the reference definition everything else is stated against: the items the scan
    keeps, in order, computed without touching the sector. The scan itself, which repairs the entry
    map while it walks, is the method Scan.LoadSector. */
module Sectors {
  import opened Types

  /** `valid` says whether the header CRC matches. */
  datatype Header = Header(state: PageState, sequence: nat, valid: bool)

  /** A sector: None for a header of all ones, the entry map, and the 126 entries as bytes. */
  datatype Sector = Sector(header: Option<Header>, emap: seq<EntryState>, body: seq<byte>)

  predicate Shape(s: Sector) { |s.emap| == MAP_SIZE && |s.body| == BODY_SIZE }

  function ErasedSector(): (s: Sector)
    ensures Shape(s)
  {
    Sector(None, seq(MAP_SIZE, i => Empty), seq(BODY_SIZE, i => 0xFF))
  }

  function Entry(s: Sector, i: nat): (e: seq<byte>)
    requires Shape(s) && i < ENTRIES_PER_PAGE
    ensures |e| == ITEM_SIZE
  {
    s.body[32 * i .. 32 * i + 32]
  }

  /** The bytes of the entries i, .., i + n - 1. */
  function Entries(s: Sector, i: nat, n: nat): (b: seq<byte>)
    requires Shape(s) && i + n <= ENTRIES_PER_PAGE
    ensures |b| == 32 * n
  {
    s.body[32 * i .. 32 * (i + n)]
  }

  predicate BlankEntry(s: Sector, i: nat)
    requires Shape(s) && i < ENTRIES_PER_PAGE
  {
    forall b | 32 * i <= b < 32 * i + 32 :: s.body[b] == 0xFF
  }

  lemma BlankBytes(s: Sector, i: nat)
    requires Shape(s) && i < ENTRIES_PER_PAGE
    ensures BlankEntry(s, i) <==> Entry(s, i) == BLANK_ENTRY
  {
    if Entry(s, i) == BLANK_ENTRY {
      forall b | 32 * i <= b < 32 * i + 32 ensures s.body[b] == 0xFF {
        assert Entry(s, i)[b - 32 * i] == BLANK_ENTRY[b - 32 * i];
      }
    }
  }

  /** An item together with the bytes of every entry it spans, header included. */
  datatype Rec = Rec(item: Item, raw: seq<byte>)

  datatype Loc = Loc(index: nat, rec: Rec)

  predicate Fits(it: Item, i: nat) { 1 <= it.span && i + it.span <= ENTRIES_PER_PAGE }

  /** page.rs, referenced_data_size: where the payload of a sized item lies in its bytes. */
  predicate SizeFits(it: Item) {
    it.data.SizedData? && 1 <= it.span && it.data.size <= 32 * (it.span - 1)
  }

  function DataOf(r: Rec): (d: seq<byte>)
    requires SizeFits(r.item) && |r.raw| == 32 * r.item.span
    ensures |d| == r.item.data.size
  {
    r.raw[32 .. 32 + r.item.data.size]
  }

  predicate DataValid(c: Codec, r: Rec)
    requires |r.raw| == 32 * r.item.span
  {
    SizeFits(r.item) && c.crc(DataOf(r)) == r.item.data.crc
  }

  function RecAt(c: Codec, s: Sector, i: nat): (r: Rec)
    requires Shape(s) && i < ENTRIES_PER_PAGE && c.parse(Entry(s, i)).Some?
    requires Fits(c.parse(Entry(s, i)).value, i)
    ensures |r.raw| == 32 * r.item.span
  {
    var it := c.parse(Entry(s, i)).value;
    Rec(it, Entries(s, i, it.span))
  }

  predicate PayloadWritten(s: Sector, i: nat, span: nat)
    requires Shape(s) && i + span <= ENTRIES_PER_PAGE
  {
    forall j | i < j < i + span :: s.emap[j] == Written
  }

  function IsScalar(t: ItemType): bool { PrimitiveWidth(t).Some? || t == BlobIndex }

  /** The shapes of item this driver and ESP-IDF write. */
  predicate Proper(it: Item) { (IsScalar(it.typ) && it.span == 1) || IsSizedType(it.typ) }

  /** What the scan decides at an entry: keep the item found there, or drop `n` entries. */
  datatype Verdict = Keep(rec: Rec) | Drop(n: nat)

  function Judge(c: Codec, s: Sector, i: nat): (v: Verdict)
    requires Shape(s) && i < ENTRIES_PER_PAGE
    ensures v.Drop? ==> 1 <= v.n && i + v.n <= ENTRIES_PER_PAGE
    ensures v.Keep? ==> Fits(v.rec.item, i) && c.parse(Entry(s, i)) == Some(v.rec.item)
    ensures v.Keep? ==> v.rec == RecAt(c, s, i)
  {
    match s.emap[i]
    case Illegal => Drop(1)
    case Erased => Drop(1)
    case Empty =>
      if BlankEntry(s, i) then Drop(1)
      else if c.parse(Entry(s, i)).None? || !Fits(c.parse(Entry(s, i)).value, i) then Drop(1)
      else
        var r := RecAt(c, s, i);
        if IsScalar(r.item.typ) && r.item.span == 1 then Keep(r)
        else if IsSizedType(r.item.typ) then (if DataValid(c, r) then Keep(r) else Drop(r.item.span))
        else Drop(1)
    case Written =>
      if c.parse(Entry(s, i)).None? || !Fits(c.parse(Entry(s, i)).value, i) then Drop(1)
      else
        var r := RecAt(c, s, i);
        if PayloadWritten(s, i, r.item.span) then Keep(r) else Drop(r.item.span)
  }

  /** In the bytes of the sector: an entry marked Written is kept if it holds an item all of whose
      entries are marked Written; one still marked Empty if it holds one whose own checksums hold, a
      primitive or blob index of one entry by that alone. */
  lemma JudgeKeeps(c: Codec, s: Sector, i: nat)
    requires Shape(s) && i < ENTRIES_PER_PAGE
    ensures var e := s.body[32 * i .. 32 * i + 32];
            Judge(c, s, i).Keep? <==>
              && c.parse(e).Some?
              && var it := c.parse(e).value;
              && 1 <= it.span && i + it.span <= 126
              && match s.emap[i]
                 case Written => forall j | i < j < i + it.span :: s.emap[j] == Written
                 case Empty =>
                   && (exists b | 32 * i <= b < 32 * i + 32 :: s.body[b] != 0xFF)
                   && ((it.typ in {U8, I8, U16, I16, U32, I32, U64, I64, BlobIndex} && it.span == 1) ||
                       (it.typ in {Sized, Blob, BlobData} && it.data.SizedData? &&
                        it.data.size <= 32 * (it.span - 1) &&
                        c.crc(s.body[32 * i + 32 .. 32 * i + 32 + it.data.size]) == it.data.crc))
                 case _ => false
    ensures Judge(c, s, i).Keep? ==>
              var it := Judge(c, s, i).rec.item;
              Judge(c, s, i).rec.raw == s.body[32 * i .. 32 * i + 32 * it.span]
  {
    var e := Entry(s, i);
    if c.parse(e).Some? && Fits(c.parse(e).value, i) && SizeFits(c.parse(e).value) {
      var it := c.parse(e).value;
      assert s.body[32 * i .. 32 * (i + it.span)][32 .. 32 + it.data.size]
          == s.body[32 * i + 32 .. 32 * i + 32 + it.data.size];
    }
  }

  /** The items the scan keeps from entry i on. */
  function ScanFrom(c: Codec, s: Sector, i: nat): (locs: seq<Loc>)
    requires Shape(s) && i <= ENTRIES_PER_PAGE
    decreases ENTRIES_PER_PAGE - i
  {
    if i == ENTRIES_PER_PAGE then []
    else
      var v := Judge(c, s, i);
      match v
      case Drop(n) => ScanFrom(c, s, i + n)
      case Keep(r) => [Loc(i, r)] + ScanFrom(c, s, i + r.item.span)
  }

  /** Entry i is settled: erased, illegal, or the header of an item written in full before n. */
  ghost predicate Settled(c: Codec, s: Sector, i: nat, n: nat)
    requires Shape(s) && n <= ENTRIES_PER_PAGE
  {
    && i < n && s.emap[i] != Empty
    && (s.emap[i] == Written ==>
          && c.parse(Entry(s, i)).Some?
          && var span := c.parse(Entry(s, i)).value.span;
          && 1 <= span && i + span <= n && PayloadWritten(s, i, span))
  }

  /** How many entries a settled entry stands for. */
  ghost function Width(c: Codec, s: Sector, i: nat, n: nat): (w: nat)
    requires Shape(s) && n <= ENTRIES_PER_PAGE && Settled(c, s, i, n)
    ensures 1 <= w && i + w <= n
  {
    if s.emap[i] == Written then c.parse(Entry(s, i)).value.span else 1
  }

  /** The entries i, .., n - 1 are settled: each is erased, illegal, or belongs to an item written
      in full. */
  ghost predicate Tidy(c: Codec, s: Sector, i: nat, n: nat)
    requires Shape(s) && n <= ENTRIES_PER_PAGE
    decreases ENTRIES_PER_PAGE - i
  {
    i <= n && (i == n || (Settled(c, s, i, n) && Tidy(c, s, i + Width(c, s, i, n), n)))
  }

  /** The entries from n on are marked Empty, and blank. */
  ghost predicate BlankFrom(s: Sector, n: nat)
    requires Shape(s) && n <= ENTRIES_PER_PAGE
  {
    && (forall j | n <= j < ENTRIES_PER_PAGE :: s.emap[j] == Empty)
    && (forall b | 32 * n <= b < BODY_SIZE :: s.body[b] == 0xFF)
  }

  function Spans(locs: seq<Loc>): nat {
    if locs == [] then 0 else locs[0].rec.item.span + Spans(locs[1..])
  }

  function Recs(locs: seq<Loc>): (rs: seq<Rec>)
    ensures |rs| == |locs|
  {
    seq(|locs|, i requires 0 <= i < |locs| => locs[i].rec)
  }

  ghost predicate SameBelow(s: Sector, t: Sector, n: nat)
    requires Shape(s) && Shape(t) && n <= ENTRIES_PER_PAGE
  {
    && (forall j | 0 <= j < n :: s.emap[j] == t.emap[j])
    && (forall b | 0 <= b < 32 * n :: s.body[b] == t.body[b])
  }

  lemma SameEntries(s: Sector, t: Sector, i: nat, k: nat, n: nat)
    requires Shape(s) && Shape(t) && n <= ENTRIES_PER_PAGE && SameBelow(s, t, n)
    requires i + k <= n
    ensures Entries(s, i, k) == Entries(t, i, k)
    ensures k >= 1 ==> Entry(s, i) == Entry(t, i)
  {}

  ghost function StepLocs(c: Codec, s: Sector, i: nat, n: nat): (locs: seq<Loc>)
    requires Shape(s) && n <= ENTRIES_PER_PAGE && Settled(c, s, i, n)
    ensures |locs| <= 1
  {
    if s.emap[i] == Written then [Loc(i, RecAt(c, s, i))] else []
  }

  lemma ScanKept(c: Codec, s: Sector, i: nat, r: Rec)
    requires Shape(s) && i < ENTRIES_PER_PAGE && Judge(c, s, i) == Keep(r)
    ensures Fits(r.item, i)
    ensures ScanFrom(c, s, i) == [Loc(i, r)] + ScanFrom(c, s, i + r.item.span)
  {}

  lemma ScanDropped(c: Codec, s: Sector, i: nat, n: nat)
    requires Shape(s) && i < ENTRIES_PER_PAGE && Judge(c, s, i) == Drop(n)
    ensures i + n <= ENTRIES_PER_PAGE
    ensures ScanFrom(c, s, i) == ScanFrom(c, s, i + n)
  {}

  /** One step of the scan over a settled entry. */
  lemma ScanStep(c: Codec, s: Sector, i: nat, n: nat)
    requires Shape(s) && n <= ENTRIES_PER_PAGE && Settled(c, s, i, n)
    ensures ScanFrom(c, s, i) == StepLocs(c, s, i, n) + ScanFrom(c, s, i + Width(c, s, i, n))
  {
    hide ScanFrom;
    if s.emap[i] == Written {
      assert Judge(c, s, i) == Keep(RecAt(c, s, i));
      ScanKept(c, s, i, RecAt(c, s, i));
    } else {
      ScanDropped(c, s, i, 1);
    }
  }

  lemma TidyStep(c: Codec, s: Sector, i: nat, n: nat)
    requires Shape(s) && n <= ENTRIES_PER_PAGE && i < n
    ensures Tidy(c, s, i, n) <==> Settled(c, s, i, n) && Tidy(c, s, i + Width(c, s, i, n), n)
  {}

  lemma {:induction false} ScanBlank(c: Codec, s: Sector, i: nat)
    requires Shape(s) && i <= ENTRIES_PER_PAGE && BlankFrom(s, i)
    ensures ScanFrom(c, s, i) == []
    decreases ENTRIES_PER_PAGE - i
  {
    if i < ENTRIES_PER_PAGE { ScanBlank(c, s, i + 1); }
  }

  lemma SameStep(c: Codec, s: Sector, t: Sector, i: nat, n: nat)
    requires Shape(s) && Shape(t) && n <= ENTRIES_PER_PAGE && SameBelow(s, t, n) && Settled(c, s, i, n)
    ensures Settled(c, t, i, n) && Width(c, t, i, n) == Width(c, s, i, n)
    ensures StepLocs(c, t, i, n) == StepLocs(c, s, i, n)
  {
    SameEntries(s, t, i, Width(c, s, i, n), n);
  }

  /** The items of a tidy prefix. */
  ghost function Below(c: Codec, s: Sector, i: nat, n: nat): seq<Loc>
    requires Shape(s) && n <= ENTRIES_PER_PAGE && Tidy(c, s, i, n)
    decreases ENTRIES_PER_PAGE - i
  {
    if i == n then [] else StepLocs(c, s, i, n) + Below(c, s, i + Width(c, s, i, n), n)
  }

  lemma BelowStep(c: Codec, s: Sector, i: nat, n: nat)
    requires Shape(s) && n <= ENTRIES_PER_PAGE && Tidy(c, s, i, n) && i < n
    ensures Settled(c, s, i, n) && Tidy(c, s, i + Width(c, s, i, n), n)
    ensures Below(c, s, i, n) == StepLocs(c, s, i, n) + Below(c, s, i + Width(c, s, i, n), n)
  {}

  lemma BelowEnd(c: Codec, s: Sector, n: nat)
    requires Shape(s) && n <= ENTRIES_PER_PAGE
    ensures Tidy(c, s, n, n) && Below(c, s, n, n) == []
  {}

  lemma {:induction false} BelowSame(c: Codec, s: Sector, t: Sector, i: nat, n: nat)
    requires Shape(s) && Shape(t) && n <= ENTRIES_PER_PAGE && SameBelow(s, t, n) && Tidy(c, s, i, n)
    ensures Tidy(c, t, i, n) && Below(c, t, i, n) == Below(c, s, i, n)
    decreases ENTRIES_PER_PAGE - i
  {
    hide Tidy, Settled, StepLocs, Width, SameBelow, Below;
    if i >= n {
      TidyEnd(c, s, i, n);
      BelowEnd(c, s, n);
      BelowEnd(c, t, n);
    } else {
      BelowStep(c, s, i, n);
      SameStep(c, s, t, i, n);
      BelowSame(c, s, t, i + Width(c, s, i, n), n);
      TidyStep(c, t, i, n);
      BelowStep(c, t, i, n);
    }
  }

  /** The scan of a tidy prefix, then the scan of the rest. */
  lemma {:induction false} ScanBelow(c: Codec, s: Sector, i: nat, n: nat)
    requires Shape(s) && n <= ENTRIES_PER_PAGE && Tidy(c, s, i, n)
    ensures i <= n && ScanFrom(c, s, i) == Below(c, s, i, n) + ScanFrom(c, s, n)
    decreases ENTRIES_PER_PAGE - i
  {
    hide ScanFrom, Tidy, Settled, StepLocs, Width, Below;
    if i >= n {
      TidyEnd(c, s, i, n);
      BelowEnd(c, s, n);
      assert [] + ScanFrom(c, s, n) == ScanFrom(c, s, n);
    } else {
      BelowStep(c, s, i, n);
      var w, x := Width(c, s, i, n), StepLocs(c, s, i, n);
      ScanBelow(c, s, i + w, n);
      ScanStep(c, s, i, n);
      assert x + (Below(c, s, i + w, n) + ScanFrom(c, s, n)) == (x + Below(c, s, i + w, n)) + ScanFrom(c, s, n);
    }
  }

  /** A tidy prefix is scanned the same whatever follows it. */
  lemma ScanSplit(c: Codec, s: Sector, t: Sector, i: nat, n: nat)
    requires Shape(s) && Shape(t) && n <= ENTRIES_PER_PAGE
    requires SameBelow(s, t, n) && BlankFrom(s, n) && Tidy(c, s, i, n)
    ensures i <= n && Tidy(c, t, i, n)
    ensures ScanFrom(c, t, i) == ScanFrom(c, s, i) + ScanFrom(c, t, n)
  {
    hide ScanFrom, Tidy, Below;
    BelowSame(c, s, t, i, n);
    ScanBelow(c, s, i, n);
    ScanBelow(c, t, i, n);
    ScanBlank(c, s, n);
    assert Below(c, s, i, n) + [] == Below(c, s, i, n);
  }

  /** The kept items lie between i and n, in increasing order, without overlap. */
  ghost predicate Ordered(locs: seq<Loc>, i: nat, n: nat) {
    && (forall j | 0 <= j < |locs| ::
          i <= locs[j].index && locs[j].index + locs[j].rec.item.span <= n && 1 <= locs[j].rec.item.span)
    && (forall j, k | 0 <= j < k < |locs| :: locs[j].index + locs[j].rec.item.span <= locs[k].index)
  }

  lemma OrderedCons(loc: Loc, rest: seq<Loc>, n: nat)
    requires 1 <= loc.rec.item.span && loc.index + loc.rec.item.span <= n
    requires Ordered(rest, loc.index + loc.rec.item.span, n)
    ensures Ordered([loc] + rest, loc.index, n)
  {
    var all := [loc] + rest;
    forall j | 0 <= j < |all|
      ensures loc.index <= all[j].index && all[j].index + all[j].rec.item.span <= n && 1 <= all[j].rec.item.span
    { if j > 0 { assert all[j] == rest[j - 1]; } }
    forall j, k | 0 <= j < k < |all| ensures all[j].index + all[j].rec.item.span <= all[k].index
    {
      assert all[k] == rest[k - 1];
      if j > 0 { assert all[j] == rest[j - 1]; }
    }
  }

  /** Whatever the sector holds, the kept items lie inside it, in increasing order and without
      overlap. */
  lemma {:induction false} ScanOrdered(c: Codec, s: Sector, i: nat)
    requires Shape(s) && i <= ENTRIES_PER_PAGE
    ensures Ordered(ScanFrom(c, s, i), i, ENTRIES_PER_PAGE)
    decreases ENTRIES_PER_PAGE - i
  {
    if i < ENTRIES_PER_PAGE {
      hide ScanFrom, Judge;
      match Judge(c, s, i)
      case Drop(n) =>
        ScanOrdered(c, s, i + n);
        ScanDropped(c, s, i, n);
      case Keep(r) =>
        ScanOrdered(c, s, i + r.item.span);
        ScanKept(c, s, i, r);
        OrderedCons(Loc(i, r), ScanFrom(c, s, i + r.item.span), ENTRIES_PER_PAGE);
    }
  }

  /** Each kept item is what its own entries hold. */
  ghost predicate Grounded(c: Codec, s: Sector, locs: seq<Loc>)
    requires Shape(s)
  {
    forall j | 0 <= j < |locs| ::
      var i, it := locs[j].index, locs[j].rec.item;
      && Fits(it, i) && c.parse(Entry(s, i)) == Some(it)
      && locs[j].rec == RecAt(c, s, i)
  }

  lemma {:induction false} ScanGrounded(c: Codec, s: Sector, i: nat)
    requires Shape(s) && i <= ENTRIES_PER_PAGE
    ensures Grounded(c, s, ScanFrom(c, s, i))
    decreases ENTRIES_PER_PAGE - i
  {
    if i < ENTRIES_PER_PAGE {
      match Judge(c, s, i)
      case Drop(n) => ScanGrounded(c, s, i + n);
      case Keep(r) => ScanGrounded(c, s, i + r.item.span);
    }
  }

  ghost predicate AllWritten(s: Sector, locs: seq<Loc>)
    requires Shape(s)
  {
    forall j, e | 0 <= j < |locs| && locs[j].index <= e < locs[j].index + locs[j].rec.item.span ::
      e < MAP_SIZE && s.emap[e] == Written
  }

  /** In a tidy prefix, the entries of kept items are Written. */
  lemma {:induction false} ScanWritten(c: Codec, s: Sector, i: nat, n: nat)
    requires Shape(s) && n <= ENTRIES_PER_PAGE && Tidy(c, s, i, n) && BlankFrom(s, n)
    ensures Ordered(ScanFrom(c, s, i), i, n)
    ensures AllWritten(s, ScanFrom(c, s, i))
    decreases ENTRIES_PER_PAGE - i
  {
    hide ScanFrom, Tidy;
    if i == n {
      ScanBlank(c, s, n);
    } else {
      if i > n { TidyEnd(c, s, i, n); }
      TidyStep(c, s, i, n);
      var w := Width(c, s, i, n);
      ScanWritten(c, s, i + w, n);
      ScanStep(c, s, i, n);
      if s.emap[i] == Written { OrderedCons(Loc(i, RecAt(c, s, i)), ScanFrom(c, s, i + w), n); }
    }
  }

  /** The list without the item at entry `index` (erase_item keeps every other hash entry). */
  function Without(locs: seq<Loc>, index: nat): (r: seq<Loc>) {
    if locs == [] then []
    else (if locs[0].index == index then [] else [locs[0]]) + Without(locs[1..], index)
  }

  lemma {:induction false} WithoutAbsent(locs: seq<Loc>, index: nat)
    requires forall j | 0 <= j < |locs| :: locs[j].index != index
    ensures Without(locs, index) == locs
  {
    if locs != [] { WithoutAbsent(locs[1..], index); }
  }

  lemma WithoutCons(loc: Loc, rest: seq<Loc>, at: nat)
    ensures Without([loc] + rest, at) == (if loc.index == at then [] else [loc]) + Without(rest, at)
  {
    assert ([loc] + rest)[1..] == rest;
  }

  /** The entry map with `n` entries from i marked erased. */
  function MarkErased(s: Sector, i: nat, n: nat): (t: Sector)
    requires Shape(s) && i + n <= ENTRIES_PER_PAGE
    ensures Shape(t)
  {
    s.(emap := seq(MAP_SIZE, j requires 0 <= j < MAP_SIZE => if i <= j < i + n then Erased else s.emap[j]))
  }

  lemma {:induction false} ScanErasedRun(c: Codec, s: Sector, i: nat, m: nat, n: nat)
    requires Shape(s) && i <= m <= n <= ENTRIES_PER_PAGE
    requires forall j | i <= j < m :: s.emap[j] == Erased
    ensures ScanFrom(c, s, i) == ScanFrom(c, s, m)
    ensures Tidy(c, s, m, n) ==> Tidy(c, s, i, n)
    decreases m - i
  {
    if i < m {
      hide ScanFrom, Tidy;
      ScanErasedRun(c, s, i + 1, m, n);
      ScanDropped(c, s, i, 1);
      TidyStep(c, s, i, n);
    }
  }

  lemma SameJudge(c: Codec, s: Sector, t: Sector, i: nat)
    requires Shape(s) && Shape(t) && s.body == t.body && i < ENTRIES_PER_PAGE
    requires forall j | i <= j < ENTRIES_PER_PAGE :: s.emap[j] == t.emap[j]
    ensures Judge(c, s, i) == Judge(c, t, i)
  {
    assert Entry(s, i) == Entry(t, i);
  }

  lemma ScanEnd(c: Codec, s: Sector)
    requires Shape(s)
    ensures ScanFrom(c, s, ENTRIES_PER_PAGE) == []
  {}

  /** The scan from i on depends on nothing before i. */
  lemma {:induction false} ScanSame(c: Codec, s: Sector, t: Sector, i: nat)
    requires Shape(s) && Shape(t) && i <= ENTRIES_PER_PAGE && s.body == t.body
    requires forall j | i <= j < ENTRIES_PER_PAGE :: s.emap[j] == t.emap[j]
    ensures ScanFrom(c, s, i) == ScanFrom(c, t, i)
    decreases ENTRIES_PER_PAGE - i
  {
    hide ScanFrom, Judge, RecAt, Entry, Entries;
    if i < ENTRIES_PER_PAGE {
      SameJudge(c, s, t, i);
      var v := Judge(c, s, i);
      if v.Drop? {
        ScanSame(c, s, t, i + v.n);
        ScanDropped(c, s, i, v.n);
        ScanDropped(c, t, i, v.n);
      } else {
        ScanSame(c, s, t, i + v.rec.item.span);
        ScanKept(c, s, i, v.rec);
        ScanKept(c, t, i, v.rec);
      }
    } else {
      ScanEnd(c, s);
      ScanEnd(c, t);
    }
  }

  lemma {:induction false} TidySame(c: Codec, s: Sector, t: Sector, i: nat, n: nat)
    requires Shape(s) && Shape(t) && n <= ENTRIES_PER_PAGE && s.body == t.body && Tidy(c, s, i, n)
    requires forall j | i <= j < n :: s.emap[j] == t.emap[j]
    ensures Tidy(c, t, i, n)
    decreases ENTRIES_PER_PAGE - i
  {
    hide Tidy;
    if i < n {
      TidyStep(c, s, i, n);
      TidyStep(c, t, i, n);
      assert Entry(s, i) == Entry(t, i);
      TidySame(c, s, t, i + Width(c, s, i, n), n);
    } else {
      TidyEnd(c, s, i, n);
      TidyEnd(c, t, i, n);
    }
  }

  lemma TidyEnd(c: Codec, s: Sector, i: nat, n: nat)
    requires Shape(s) && i >= n && n <= ENTRIES_PER_PAGE
    ensures Tidy(c, s, i, n) <==> i == n
  {}

  ghost predicate KeptAt(locs: seq<Loc>, k: nat, at: nat) { k < |locs| && locs[k].index == at }

  lemma EraseHere(c: Codec, s: Sector, i: nat, n: nat, span: nat)
    requires Shape(s) && i < n <= ENTRIES_PER_PAGE && Tidy(c, s, i, n) && BlankFrom(s, n)
    requires s.emap[i] == Written && c.parse(Entry(s, i)).value.span == span
    ensures Tidy(c, MarkErased(s, i, span), i, n)
    ensures ScanFrom(c, MarkErased(s, i, span), i) == Without(ScanFrom(c, s, i), i)
  {
    hide ScanFrom, Tidy, Without;
    TidyStep(c, s, i, n);
    ScanStep(c, s, i, n);
    var t := MarkErased(s, i, span);
    var rest := ScanFrom(c, s, i + span);
    ScanSame(c, s, t, i + span);
    TidySame(c, s, t, i + span, n);
    ScanErasedRun(c, t, i, i + span, n);
    ScanWritten(c, s, i + span, n);
    WithoutAbsent(rest, i);
    WithoutCons(Loc(i, RecAt(c, s, i)), rest, i);
    assert [] + rest == rest;
  }

  lemma EraseLater(c: Codec, s: Sector, i: nat, n: nat, at: nat, span: nat)
    requires Shape(s) && n <= ENTRIES_PER_PAGE && Settled(c, s, i, n)
    requires i + Width(c, s, i, n) <= at && at + span <= n
    ensures Settled(c, MarkErased(s, at, span), i, n)
    ensures Width(c, MarkErased(s, at, span), i, n) == Width(c, s, i, n)
    ensures StepLocs(c, MarkErased(s, at, span), i, n) == StepLocs(c, s, i, n)
  {
    var t := MarkErased(s, at, span);
    assert Entry(t, i) == Entry(s, i);
    assert Entries(t, i, Width(c, s, i, n)) == Entries(s, i, Width(c, s, i, n));
  }

  /** Erasing a kept item removes it from the scan and nothing else. */
  lemma {:induction false} ScanErase(c: Codec, s: Sector, i: nat, n: nat, k: nat, at: nat, span: nat)
    requires Shape(s) && n <= ENTRIES_PER_PAGE && Tidy(c, s, i, n) && BlankFrom(s, n)
    requires KeptAt(ScanFrom(c, s, i), k, at) && ScanFrom(c, s, i)[k].rec.item.span == span
    ensures i <= at && at + span <= n
    ensures Tidy(c, MarkErased(s, at, span), i, n)
    ensures ScanFrom(c, MarkErased(s, at, span), i) == Without(ScanFrom(c, s, i), at)
    decreases ENTRIES_PER_PAGE - i
  {
    hide ScanFrom, Tidy, Without, Settled, Judge;
    if i == n {
      ScanBlank(c, s, n);
      assert false;
    } else {
      TidyEnd(c, s, n, n);
      if i > n { TidyEnd(c, s, i, n); }
      TidyStep(c, s, i, n);
      ScanStep(c, s, i, n);
      var w, x := Width(c, s, i, n), StepLocs(c, s, i, n);
      var rest := ScanFrom(c, s, i + w);
      if k < |x| {
        EraseHere(c, s, i, n, span);
      } else {
        assert ScanFrom(c, s, i)[k] == rest[k - |x|];
        ScanErase(c, s, i + w, n, k - |x|, at, span);
        EraseLater(c, s, i, n, at, span);
        var t := MarkErased(s, at, span);
        TidyStep(c, t, i, n);
        ScanStep(c, t, i, n);
        if x != [] { WithoutCons(x[0], rest, at); assert x == [x[0]]; }
        else { assert [] + rest == rest; assert [] + ScanFrom(c, t, i + w) == ScanFrom(c, t, i + w); }
      }
    }
  }

  // ---- erasing only the header of an item ----

  predicate Shows(locs: seq<Loc>, index: nat) { exists j :: 0 <= j < |locs| && locs[j].index == index }

  /** Behind the erased header of a wider item, the next entry is taken for a header. */
  lemma HeaderHere(c: Codec, s: Sector, i: nat, n: nat)
    requires Shape(s) && i < n <= ENTRIES_PER_PAGE && Tidy(c, s, i, n) && s.emap[i] == Written
    requires c.parse(Entry(s, i)).value.span > 1 && Tidy(c, MarkErased(s, i, 1), i, n)
    ensures Shows(ScanFrom(c, MarkErased(s, i, 1), i), i + 1)
  {
    hide ScanFrom, Tidy;
    var t := MarkErased(s, i, 1);
    TidyStep(c, s, i, n);
    TidyStep(c, t, i, n);
    TidyStep(c, t, i + 1, n);
    ScanStep(c, t, i, n);
    ScanStep(c, t, i + 1, n);
    assert ScanFrom(c, t, i)[0].index == i + 1;
  }

  lemma {:induction false} HeaderErased(c: Codec, s: Sector, i: nat, n: nat, k: nat, at: nat)
    requires Shape(s) && n <= ENTRIES_PER_PAGE && Tidy(c, s, i, n) && BlankFrom(s, n) && at < ENTRIES_PER_PAGE
    requires KeptAt(ScanFrom(c, s, i), k, at) && ScanFrom(c, s, i)[k].rec.item.span > 1
    requires Tidy(c, MarkErased(s, at, 1), i, n)
    ensures Shows(ScanFrom(c, MarkErased(s, at, 1), i), at + 1)
    decreases ENTRIES_PER_PAGE - i
  {
    hide ScanFrom, Tidy, Settled, Judge;
    if i == n {
      ScanBlank(c, s, n);
      assert false;
    } else {
      if i > n { TidyEnd(c, s, i, n); }
      TidyStep(c, s, i, n);
      ScanStep(c, s, i, n);
      var w, x, t := Width(c, s, i, n), StepLocs(c, s, i, n), MarkErased(s, at, 1);
      if k < |x| {
        HeaderHere(c, s, i, n);
      } else {
        assert ScanFrom(c, s, i)[k] == ScanFrom(c, s, i + w)[k - |x|];
        ScanWritten(c, s, i + w, n);
        EraseLater(c, s, i, n, at, 1);
        TidyStep(c, t, i, n);
        ScanStep(c, t, i, n);
        HeaderErased(c, s, i + w, n, k - |x|, at);
        var j :| 0 <= j < |ScanFrom(c, t, i + w)| && ScanFrom(c, t, i + w)[j].index == at + 1;
        assert ScanFrom(c, t, i)[|x| + j].index == at + 1;
      }
    }
  }

  lemma {:induction false} WithoutShows(locs: seq<Loc>, at: nat, index: nat)
    ensures Shows(Without(locs, at), index) ==> Shows(locs, index)
  {
    if locs != [] {
      WithoutShows(locs[1..], at, index);
      var w := Without(locs[1..], at);
      if Shows(Without(locs, at), index) {
        var j :| 0 <= j < |Without(locs, at)| && Without(locs, at)[j].index == index;
        if locs[0].index == index { assert Shows(locs, index); } else {
          assert w[if locs[0].index == at then j else j - 1].index == index;
          var i :| 0 <= i < |locs[1..]| && locs[1..][i].index == index;
          assert locs[i + 1].index == index;
        }
      }
    }
  }

  /** Erasing one entry of a kept item leaves a tidy page without just that item exactly if the item
      has no other entry. */
  lemma EraseOneEntry(c: Codec, s: Sector, n: nat, k: nat, at: nat)
    requires Shape(s) && n <= ENTRIES_PER_PAGE && Tidy(c, s, 0, n) && BlankFrom(s, n) && at < ENTRIES_PER_PAGE
    requires KeptAt(ScanFrom(c, s, 0), k, at)
    ensures Tidy(c, MarkErased(s, at, 1), 0, n) &&
            ScanFrom(c, MarkErased(s, at, 1), 0) == Without(ScanFrom(c, s, 0), at) <==>
              ScanFrom(c, s, 0)[k].rec.item.span == 1
  {
    hide ScanFrom, Tidy, Without;
    var locs, t := ScanFrom(c, s, 0), MarkErased(s, at, 1);
    ScanOrdered(c, s, 0);
    if locs[k].rec.item.span == 1 {
      ScanErase(c, s, 0, n, k, at, 1);
    } else if Tidy(c, t, 0, n) {
      HeaderErased(c, s, 0, n, k, at);
      NoneInside(locs, k, at);
      WithoutShows(locs, at, at + 1);
    }
  }

  lemma NoneInside(locs: seq<Loc>, k: nat, at: nat)
    requires Ordered(locs, 0, ENTRIES_PER_PAGE) && KeptAt(locs, k, at) && locs[k].rec.item.span > 1
    ensures !Shows(locs, at + 1)
  {}
}
