/** The writes a page performs (page.rs). Each is one or more flash operations; the contracts say
    what the sector holds when all of them happened and when the power went in between. */
module PageOps {
  import opened Types
  import opened Sectors
  import opened Flash
  import opened Pages

  /** The entry states in RAM after setting [lo, hi) to `state`: bits are only ever cleared. */
  function RangeSet(m: seq<EntryState>, lo: nat, hi: nat, state: EntryState): (r: seq<EntryState>)
    requires |m| == MAP_SIZE
    ensures |r| == MAP_SIZE
  {
    seq(MAP_SIZE, j requires 0 <= j < MAP_SIZE => if lo <= j < hi then AndState(m[j], state) else m[j])
  }

  /** The first entry of the write units holding the states of [lo, hi). */
  function WindowStart(lo: nat, ws: nat): (w: nat)
    requires WriteSize(ws)
    ensures w <= lo
  {
    Pivot(lo / 4, ws) * 4
  }

  function WindowEnd(hi: nat, ws: nat): (w: nat)
    requires WriteSize(ws) && 0 < hi <= ENTRIES_PER_PAGE
    ensures hi <= w <= MAP_SIZE
  {
    WindowFits(hi, ws);
    Pivot((hi - 1) / 4 + ws, ws) * 4
  }

  lemma WindowFits(hi: nat, ws: nat)
    requires WriteSize(ws) && 0 < hi <= ENTRIES_PER_PAGE
    ensures hi <= Pivot((hi - 1) / 4 + ws, ws) * 4 <= MAP_SIZE
  {
    if ws == 1 {} else if ws == 2 {} else if ws == 4 {} else if ws == 8 {} else if ws == 16 {} else {}
  }

  /** What set_entry_state_range leaves in a sector: the RAM states of whole write units,
      programmed over those on flash. */
  function RangeProgrammed(s: Sector, ram: seq<EntryState>, lo: nat, hi: nat, ws: nat): (t: Sector)
    requires Shape(s) && |ram| == MAP_SIZE && WriteSize(ws) && lo < hi <= ENTRIES_PER_PAGE
    ensures Shape(t) && t.header == s.header && t.body == s.body
  {
    ProgramMap(s, WindowStart(lo, ws), ram[WindowStart(lo, ws) .. WindowEnd(hi, ws)])
  }

  /** With RAM and flash in agreement before, they agree after, and only the range changed. */
  lemma RangeProgrammedExact(s: Sector, lo: nat, hi: nat, state: EntryState, ws: nat)
    requires Shape(s) && WriteSize(ws) && lo < hi <= ENTRIES_PER_PAGE
    ensures RangeProgrammed(s, RangeSet(s.emap, lo, hi, state), lo, hi, ws)
         == s.(emap := RangeSet(s.emap, lo, hi, state))
  {
    var ram := RangeSet(s.emap, lo, hi, state);
    var t := RangeProgrammed(s, ram, lo, hi, ws);
    forall j | 0 <= j < MAP_SIZE ensures t.emap[j] == ram[j] {
      var a, b := WindowStart(lo, ws), WindowEnd(hi, ws);
      if a <= j < b { assert ram[a .. b][j - a] == ram[j]; }
    }
    assert t.emap == ram;
  }

  /** A sector and the entry map that its page has in RAM; they need not agree. */
  datatype Draft = Draft(sector: Sector, ram: seq<EntryState>)

  /** Whole entries stored at entry n: their bytes, then their states. */
  function Stored(d: Draft, n: nat, raw: seq<byte>, ws: nat): (r: Draft)
    requires Shape(d.sector) && |d.ram| == MAP_SIZE && WriteSize(ws)
    requires 32 <= |raw| && |raw| % 32 == 0 && 32 * n + |raw| <= BODY_SIZE
    ensures Shape(r.sector) && |r.ram| == MAP_SIZE && r.sector.header == d.sector.header
  {
    Charted(d.(sector := ProgramBytes(d.sector, 32 * n, raw)), n, n + |raw| / 32, ws)
  }

  /** The entries [lo, hi) marked as written. */
  function Charted(d: Draft, lo: nat, hi: nat, ws: nat): (r: Draft)
    requires Shape(d.sector) && |d.ram| == MAP_SIZE && WriteSize(ws) && lo < hi <= ENTRIES_PER_PAGE
  {
    var ram := RangeSet(d.ram, lo, hi, Written);
    Draft(RangeProgrammed(d.sector, ram, lo, hi, ws), ram)
  }

  /** What page p and its sector hold, but for the header. */
  ghost predicate Drawn(h: Hal, p: ThinPage, d: Draft) {
    && p.addr < |h.sectors| && h.sectors[p.addr].body == d.sector.body && h.sectors[p.addr].emap == d.sector.emap
    && p.emap == d.ram
  }

  method SetEntryStateRange(h: Hal, p: ThinPage, lo: nat, hi: nat, state: EntryState)
    returns (h2: Hal, p2: ThinPage, ok: bool)
    requires HalOk(h) && p.addr < |h.sectors| && |p.emap| == MAP_SIZE && lo < hi <= ENTRIES_PER_PAGE
    ensures HalOk(h2) && p2 == p.(emap := RangeSet(p.emap, lo, hi, state))
    ensures Stepped(h, h2, ok, p.addr, RangeProgrammed(h.sectors[p.addr], p2.emap, lo, hi, h.ws))
    ensures p.emap == h.sectors[p.addr].emap ==>
              Stepped(h, h2, ok, p.addr, h.sectors[p.addr].(emap := p2.emap))
  {
    var m := p.emap;
    var i := lo;
    while i < hi
      invariant lo <= i <= hi && |m| == MAP_SIZE
      invariant m == RangeSet(p.emap, lo, i, state)
    {
      m := m[i := AndState(m[i], state)];
      i := i + 1;
    }
    p2 := p.(emap := m);
    var s := h.sectors[p.addr];
    if p.emap == s.emap { RangeProgrammedExact(s, lo, hi, state, h.ws); }
    h2, ok := Put(h, p.addr, RangeProgrammed(s, m, lo, hi, h.ws));
  }

  method MarkAsFull(h: Hal, p: ThinPage) returns (h2: Hal, p2: ThinPage, ok: bool)
    requires HalOk(h) && p.addr < |h.sectors|
    ensures HalOk(h2)
    ensures Stepped(h, h2, ok, p.addr, WithState(h.sectors[p.addr], Full))
    ensures p2 == if ok then p.(state := Full) else p
  {
    h2, ok := Put(h, p.addr, WithState(h.sectors[p.addr], Full));
    p2 := if ok then p.(state := Full) else p;
  }

  method Initialize(h: Hal, p: ThinPage, nextSequence: nat) returns (h2: Hal, p2: ThinPage, ok: bool)
    requires HalOk(h) && p.addr < |h.sectors|
    ensures HalOk(h2)
    ensures Stepped(h, h2, ok, p.addr, h.sectors[p.addr].(header :=
              Some(AndHeader(h.sectors[p.addr].header, Header(Active, nextSequence, true)))))
    ensures p2 == if ok then p.(state := Active, sequence := nextSequence) else p
  {
    var s := h.sectors[p.addr];
    h2, ok := Put(h, p.addr, s.(header := Some(AndHeader(s.header, Header(Active, nextSequence, true)))));
    p2 := if ok then p.(state := Active, sequence := nextSequence) else p;
  }

  /** page.rs, load_item: the item at an entry, if the entry holds one. */
  function LoadItem(h: Hal, p: ThinPage, i: nat): Option<Item>
    requires p.addr < |h.sectors| && Shape(h.sectors[p.addr]) && i < ENTRIES_PER_PAGE
  {
    var e := Entry(h.sectors[p.addr], i);
    if e == BLANK_ENTRY then None else h.codec.parse(e)
  }

  // ---- what a write leaves behind ----

  /** The page after `r` was appended to it. */
  ghost predicate Appended(h: Hal, p: ThinPage, h2: Hal, p2: ThinPage, r: Rec)
    requires p.addr < |h.sectors| && Shape(h.sectors[p.addr])
  {
    && Touched(h, h2, p.addr)
    && PageOk(h.codec, p2, h2.sectors[p.addr])
    && p2.addr == p.addr && p2.sequence == p.sequence
    && p2.used == p.used + r.item.span && p2.erased == p.erased
    && p2.state == (if IsFull(p2) then Full else Active)
    && ScanFrom(h.codec, h2.sectors[p.addr], 0) == ScanFrom(h.codec, h.sectors[p.addr], 0) + [Loc(NextFree(p), r)]
  }

  /** The sector after the power went while `r` was being appended: the scan will find `r` on it,
      or it will find what was there before. */
  ghost predicate TornAppend(h: Hal, p: ThinPage, h2: Hal, r: Rec)
    requires p.addr < |h.sectors| && Shape(h.sectors[p.addr])
  {
    && h2.budget == Some(0)
    && Touched(h, h2, p.addr)
    && var s, t := h.sectors[p.addr], h2.sectors[p.addr];
    && Sound(h.codec, t) && t.header == s.header
    && (ScanFrom(h.codec, t, 0) == ScanFrom(h.codec, s, 0) ||
        ScanFrom(h.codec, t, 0) == ScanFrom(h.codec, s, 0) + [Loc(NextFree(p), r)])
  }

  /** A page items can be appended to. */
  ghost predicate Writable(h: Hal, p: ThinPage) {
    && HalOk(h) && p.addr < |h.sectors| && PageOk(h.codec, p, h.sectors[p.addr]) && p.state == Active
  }

  lemma {:induction false} RangeOfEmpty(m: seq<EntryState>, lo: nat, hi: nat)
    requires |m| == MAP_SIZE && lo <= hi <= ENTRIES_PER_PAGE
    requires forall j | lo <= j < ENTRIES_PER_PAGE :: m[j] == Empty
    ensures forall j | lo <= j < hi :: RangeSet(m, lo, hi, Written)[j] == Written
    ensures forall j | hi <= j < ENTRIES_PER_PAGE :: RangeSet(m, lo, hi, Written)[j] == Empty
    ensures forall j | 0 <= j < lo :: RangeSet(m, lo, hi, Written)[j] == m[j]
  {}

  /** Bytes programmed at the next free entry land on blank flash and are stored as they are. */
  lemma ProgramTailEntries(c: Codec, s: Sector, n: nat, bytes: seq<byte>)
    requires Shape(s) && n <= ENTRIES_PER_PAGE && BlankFrom(s, n) && 32 * n + |bytes| <= BODY_SIZE
    ensures var t := ProgramBytes(s, 32 * n, bytes);
            && SameBelow(s, t, n)
            && (forall b | 0 <= b < |bytes| :: t.body[32 * n + b] == bytes[b])
            && (forall b | 32 * n + |bytes| <= b < BODY_SIZE :: t.body[b] == 0xFF)
  {
    ProgramOnBlank(s, 32 * n, bytes);
    var t := ProgramBytes(s, 32 * n, bytes);
    forall b | 0 <= b < |bytes| ensures t.body[32 * n + b] == bytes[b] {
      assert t.body[32 * n .. 32 * n + |bytes|][b] == bytes[b];
    }
  }

  lemma ExtendsBy(c: Codec, s: Sector, t: Sector, n: nat, r: Rec)
    requires Shape(s) && Shape(t) && n < ENTRIES_PER_PAGE && Tidy(c, s, 0, n) && BlankFrom(s, n)
    requires Fits(r.item, n) && |r.raw| == 32 * r.item.span
    requires c.parse(r.raw[..32]) == Some(r.item)
    requires SameBelow(s, t, n)
    requires forall b | 0 <= b < |r.raw| :: t.body[32 * n + b] == r.raw[b]
    requires forall b | 32 * (n + r.item.span) <= b < BODY_SIZE :: t.body[b] == 0xFF
    ensures Extends(c, s, t, n, r)
  {
    hide Tidy;
    assert Entry(t, n) == r.raw[..32];
    assert Entries(t, n, r.item.span) == r.raw;
  }

  /** Marks the entries of an item just programmed as written and takes it into the counters and
      the hash list; a page that is full then is retired. The end of write_item,
      write_variable_sized_item and copy_item_from. `exact` says that RAM and flash agree. */
  method Commit(h: Hal, p: ThinPage, ghost s: Sector, r: Rec, ghost exact: bool)
    returns (h2: Hal, p2: ThinPage, ok: bool)
    requires HalOk(h) && p.addr < |h.sectors| && p.state == Active && |p.emap| == MAP_SIZE && Fits(r.item, NextFree(p))
    requires exact ==> PageOk(h.codec, p, s) && Extends(h.codec, s, h.sectors[p.addr], NextFree(p), r)
    requires exact ==> h.sectors[p.addr].emap == s.emap && h.sectors[p.addr].header == s.header
    ensures HalOk(h2) && Touched(h, h2, p.addr)
    ensures ok ==> Committed(p, p2, r)
    ensures ok ==>
              Drawn(h2, p2, Charted(Draft(h.sectors[p.addr], p.emap), NextFree(p), NextFree(p) + r.item.span, h.ws))
    ensures exact && ok ==> PageOk(h2.codec, p2, h2.sectors[p.addr])
    ensures exact && ok ==> ScanFrom(h2.codec, h2.sectors[p.addr], 0) == ScanFrom(h.codec, s, 0) + [Loc(NextFree(p), r)]
    ensures !ok ==> h2.budget == Some(0)
    ensures exact && !ok && Proper(r.item) ==>
              Sound(h2.codec, h2.sectors[p.addr]) && h2.sectors[p.addr].header == s.header
    ensures exact && !ok && Proper(r.item) ==> BlankFrom(h2.sectors[p.addr], NextFree(p) + r.item.span)
    ensures exact && !ok && Proper(r.item) ==>
              (ScanFrom(h2.codec, h2.sectors[p.addr], 0) == ScanFrom(h.codec, s, 0) + [Loc(NextFree(p), r)] ||
               (!DataValid(h.codec, r) && !IsScalar(r.item.typ) &&
                ScanFrom(h2.codec, h2.sectors[p.addr], 0) == ScanFrom(h.codec, s, 0)))
  {
    hide ScanFrom, Tidy, RangeSet, HashList, Spans, Judge, RangeProgrammed;
    var n, span := NextFree(p), r.item.span;
    var t := h.sectors[p.addr];
    h2, p2, ok := SetEntryStateRange(h, p, n, n + span, Written);
    if exact { RangeOfEmpty(p.emap, n, n + span); }
    if !ok {
      if exact && Proper(r.item) { AppendUnmarked(h.codec, s, t, n, r); }
      return;
    }
    var u := h2.sectors[p.addr];
    if exact {
      assert u == t.(emap := p2.emap);
      ExtendsMapped(h.codec, s, t, u, n, r);
      AppendWritten(h.codec, s, u, n, r);
      CommitCounts(h.codec, ScanFrom(h.codec, s, 0), Loc(n, r));
    }
    p2 := p2.(used := p.used + span, hashes := p.hashes + HashOf(h.codec, Loc(n, r)));
    if IsFull(p2) {
      h2, p2, ok := MarkAsFull(h2, p2);
      if exact {
        if !ok {
          assert SoundAt(h.codec, u, n + span, n + span);
        } else {
          HeaderOnly(h.codec, u, Some(Header(Full, p.sequence, true)), n + span);
        }
      }
    }
  }

  ghost predicate Committed(p: ThinPage, p2: ThinPage, r: Rec) {
    && p2.addr == p.addr && p2.sequence == p.sequence
    && p2.used == p.used + r.item.span && p2.erased == p.erased
    && p2.state == (if IsFull(p2) then Full else Active)
  }

  lemma ExtendsMapped(c: Codec, s: Sector, t: Sector, u: Sector, n: nat, r: Rec)
    requires Extends(c, s, t, n, r) && Shape(u) && u.body == t.body
    requires forall j | 0 <= j < n :: u.emap[j] == s.emap[j]
    ensures Extends(c, s, u, n, r)
  {
    hide Tidy;
    assert Entry(u, n) == Entry(t, n) && Entries(u, n, r.item.span) == Entries(t, n, r.item.span);
  }

  lemma CommitCounts(c: Codec, locs: seq<Loc>, loc: Loc)
    ensures HashList(c, locs + [loc]) == HashList(c, locs) + HashOf(c, loc)
    ensures Spans(locs + [loc]) == Spans(locs) + loc.rec.item.span
  {
    HashListAppend(c, locs, [loc]);
    SpansAppend(locs, [loc]);
    HashListOne(c, loc, loc.index);
    assert Spans([loc]) == loc.rec.item.span + Spans([]);
  }

  /** The header takes no part in what the scan finds. */
  lemma {:induction false} HeaderOnly(c: Codec, s: Sector, hdr: Option<Header>, n: nat)
    requires Shape(s) && n <= ENTRIES_PER_PAGE
    ensures ScanFrom(c, s.(header := hdr), 0) == ScanFrom(c, s, 0)
    ensures Tidy(c, s, 0, n) ==> Tidy(c, s.(header := hdr), 0, n)
  {
    ScanSame(c, s, s.(header := hdr), 0);
    if Tidy(c, s, 0, n) { TidySame(c, s, s.(header := hdr), 0, n); }
  }

  function ScalarRec(c: Codec, it: Item): Rec { Rec(it, c.format(it)) }

  /** page.rs, write_item. All of its callers write items of a single entry. */
  method WriteItem(h: Hal, p: ThinPage, it: Item) returns (h2: Hal, p2: ThinPage, r: Result<Unit>)
    requires Writable(h, p) && WfItem(it) && it.span == 1 && Proper(it) && IsScalar(it.typ)
    ensures HalOk(h2) && Touched(h, h2, p.addr)
    ensures r.Ok? ==> Appended(h, p, h2, p2, ScalarRec(h.codec, it))
    ensures r == Err(PageFull) ==> h2 == h && p2 == p
    ensures r == Err(PageFull) <==> p.used + p.erased == 126
    ensures r.Ok? ==> p2.used == p.used + 1 && (p2.state == Full <==> p2.used + p2.erased == 126)
    ensures r == Err(FlashError) ==> TornAppend(h, p, h2, ScalarRec(h.codec, it))
    ensures r.Err? ==> r.error in {PageFull, FlashError}
  {
    hide ScanFrom, Tidy, HashList, Spans, ProgramBytes;
    h2, p2 := h, p;
    if it.span > FreeEntries(p) { r := Err(PageFull); return; }
    var n := NextFree(p);
    var s := h.sectors[p.addr];
    var raw := h.codec.format(it);
    var ok;
    ProgramTailEntries(h.codec, s, n, raw);
    h2, ok := WriteAligned(h, p.addr, 32 * n, raw);
    if !ok {
      SoundPage(h.codec, p, s);
      r := Err(FlashError);
      return;
    }
    var rec := ScalarRec(h.codec, it);
    assert raw[..32] == raw;
    ExtendsBy(h.codec, s, h2.sectors[p.addr], n, rec);
    h2, p2, ok := Commit(h2, p, s, rec, true);
    r := if ok then Ok(Unit) else Err(FlashError);
  }

  lemma SoundPage(c: Codec, p: ThinPage, s: Sector)
    requires BodyOk(c, p, s)
    ensures Sound(c, s)
  {
    hide Tidy;
    assert SoundAt(c, s, NextFree(p), NextFree(p));
  }

  /** The CRC of the data tells it apart from what the flash holds when its write is cut short:
      nothing of it, or its whole write units only. A check of two values per write; any CRC that
      detects these two passes it. */
  ghost predicate TornSafe(c: Codec, ws: nat, data: seq<byte>) {
    && WriteSize(ws)
    && (c.crc(Ones(|data|)) == c.crc(data) ==> Ones(|data|) == data)
    && var pv := Pivot(|data|, ws);
       (c.crc(data[..pv] + Ones(|data| - pv)) == c.crc(data) ==> data[..pv] + Ones(|data| - pv) == data)
  }

  /** Entries needed for a header and `len` bytes of data. */
  function SpanFor(len: nat): nat { 1 + (len + 31) / 32 }

  function SizedItem(c: Codec, ns: nat, key: Key, typ: ItemType, chunk: nat, data: seq<byte>): Item {
    Item(ns, typ, SpanFor(|data|), chunk, key, SizedData(|data|, c.crc(data)))
  }

  function SizedRec(c: Codec, ns: nat, key: Key, typ: ItemType, chunk: nat, data: seq<byte>): Rec {
    var it := SizedItem(c, ns, key, typ, chunk, data);
    Rec(it, c.format(it) + data + Ones(32 * (it.span - 1) - |data|))
  }

  /** page.rs, write_variable_sized_item. */
  method WriteVariableSizedItem(h: Hal, p: ThinPage, ns: nat, key: Key, typ: ItemType, chunk: nat, data: seq<byte>)
    returns (h2: Hal, p2: ThinPage, r: Result<Unit>)
    requires HalOk(h) && p.addr < |h.sectors| && PageOk(h.codec, p, h.sectors[p.addr]) &&
             (p.state == Active || IsFull(p))
    requires IsSizedType(typ) && 0 < ns < 256 && chunk < 256
    ensures HalOk(h2) && Touched(h, h2, p.addr)
    ensures r.Ok? ==> Appended(h, p, h2, p2, SizedRec(h.codec, ns, key, typ, chunk, data))
    ensures r == Err(ValueTooLong) <==> |data| > 4000
    ensures r == Err(PageFull) <==> |data| <= 4000 && |data| > 32 * (125 - p.used - p.erased)
    ensures r.Ok? ==> (p2.state == Full <==> p2.used + p2.erased == 126)
    ensures r in {Err(PageFull), Err(ValueTooLong)} ==> h2 == h && p2 == p
    ensures r == Err(FlashError) && TornSafe(h.codec, h.ws, data) ==>
              TornAppend(h, p, h2, SizedRec(h.codec, ns, key, typ, chunk, data))
    ensures r == Err(FlashError) ==> h2.budget == Some(0)
    ensures r.Err? ==> r.error in {PageFull, ValueTooLong, FlashError}
  {
    hide ScanFrom, Tidy, HashList, Spans, ProgramBytes, TornSafe;
    h2, p2 := h, p;
    var span := if |data| % 32 == 0 then |data| / 32 + 1 else |data| / 32 + 1 + 1;
    assert span == SpanFor(|data|);
    if span > ENTRIES_PER_PAGE { r := Err(ValueTooLong); return; }
    if span > FreeEntries(p) { r := Err(PageFull); return; }
    var n := NextFree(p);
    var s := h.sectors[p.addr];
    var rec := SizedRec(h.codec, ns, key, typ, chunk, data);
    var raw := h.codec.format(rec.item);
    var ok;
    ProgramTailEntries(h.codec, s, n, raw);
    h2, ok := WriteAligned(h, p.addr, 32 * n, raw);
    if !ok {
      SoundPage(h.codec, p, s);
      r := Err(FlashError);
      return;
    }
    r, h2, p2 := WriteData(h2, p, s, rec, data);
    if r == Err(FlashError) && TornSafe(h.codec, h.ws, data) { assert TornAppend(h, p, h2, rec); }
  }

  /** The data of an item whose header was just programmed, then the entry map. */
  method WriteData(h: Hal, p: ThinPage, ghost s: Sector, rec: Rec, data: seq<byte>)
    returns (r: Result<Unit>, h2: Hal, p2: ThinPage)
    requires HalOk(h) && p.addr < |h.sectors| && PageOk(h.codec, p, s) && p.state == Active
    requires IsSizedType(rec.item.typ) && WfItem(rec.item) && rec.item.data == SizedData(|data|, h.codec.crc(data))
    requires rec.item.span == SpanFor(|data|) && NextFree(p) + rec.item.span <= ENTRIES_PER_PAGE
    requires rec.raw == h.codec.format(rec.item) + data + Ones(32 * (rec.item.span - 1) - |data|)
    requires h.sectors[p.addr] == ProgramBytes(s, 32 * NextFree(p), h.codec.format(rec.item))
    ensures HalOk(h2) && Touched(h, h2, p.addr)
    ensures r.Ok? ==> PageOk(h2.codec, p2, h2.sectors[p.addr]) && Committed(p, p2, rec)
    ensures r.Ok? ==> ScanFrom(h2.codec, h2.sectors[p.addr], 0) == ScanFrom(h.codec, s, 0) + [Loc(NextFree(p), rec)]
    ensures r.Err? ==> r == Err(FlashError) && h2.budget == Some(0)
    ensures r.Err? && TornSafe(h.codec, h.ws, data) ==>
              Sound(h2.codec, h2.sectors[p.addr]) && h2.sectors[p.addr].header == s.header
    ensures r.Err? && TornSafe(h.codec, h.ws, data) ==>
              ScanFrom(h2.codec, h2.sectors[p.addr], 0) == ScanFrom(h.codec, s, 0) ||
              ScanFrom(h2.codec, h2.sectors[p.addr], 0) == ScanFrom(h.codec, s, 0) + [Loc(NextFree(p), rec)]
  {
    hide ScanFrom, Tidy, HashList, Spans, ProgramBytes, TornSafe, SoundAt;
    var n := NextFree(p);
    ghost var raw := h.codec.format(rec.item);
    ghost var pv := Pivot(|data|, h.ws);
    var ok;
    h2, ok := WriteAligned(h, p.addr, 32 * n + 32, data);
    if !ok {
      p2 := p;
      r := Err(FlashError);
      if TornSafe(h.codec, h.ws, data) {
        if h2 == h {
          assert ProgramBytes(s, 32 * n, raw + []) == h2.sectors[p.addr] by { assert raw + [] == raw; }
          TornData(h.codec, h.ws, s, h2.sectors[p.addr], n, rec, data, 0);
        } else {
          ProgramTwice(s, 32 * n, raw, data[..pv]);
          TornData(h.codec, h.ws, s, h2.sectors[p.addr], n, rec, data, pv);
        }
      }
      return;
    }
    ProgramTwice(s, 32 * n, raw, data);
    WholeData(h.codec, s, h2.sectors[p.addr], n, rec, data);
    h2, p2, ok := Commit(h2, p, s, rec, true);
    r := if ok then Ok(Unit) else Err(FlashError);
  }

  /** With all of the data programmed, the sector is extended by the whole item. */
  lemma WholeData(c: Codec, s: Sector, t: Sector, n: nat, rec: Rec, data: seq<byte>)
    requires CodecOk(c) && Shape(s) && n <= ENTRIES_PER_PAGE && Tidy(c, s, 0, n) && BlankFrom(s, n)
    requires WfItem(rec.item) && rec.item.data == SizedData(|data|, c.crc(data))
    requires rec.item.span == SpanFor(|data|) && n + rec.item.span <= ENTRIES_PER_PAGE
    requires rec.raw == c.format(rec.item) + data + Ones(32 * (rec.item.span - 1) - |data|)
    requires t == ProgramBytes(s, 32 * n, c.format(rec.item) + data)
    ensures Extends(c, s, t, n, rec) && DataValid(c, rec)
  {
    hide Tidy, ProgramBytes;
    var bytes := c.format(rec.item) + data;
    ProgramTailEntries(c, s, n, bytes);
    assert rec.raw[..32] == c.format(rec.item);
    ExtendsBy(c, s, t, n, rec);
    assert DataOf(rec) == data;
  }

  /** With the data cut short after `pv` bytes, the scan takes the item only if nothing is missing. */
  lemma TornData(c: Codec, ws: nat, s: Sector, t: Sector, n: nat, rec: Rec, data: seq<byte>, pv: nat)
    requires CodecOk(c) && Shape(s) && n <= ENTRIES_PER_PAGE && Tidy(c, s, 0, n) && BlankFrom(s, n)
    requires IsSizedType(rec.item.typ) && WfItem(rec.item) && rec.item.data == SizedData(|data|, c.crc(data))
    requires rec.item.span == SpanFor(|data|) && n + rec.item.span <= ENTRIES_PER_PAGE
    requires rec.raw == c.format(rec.item) + data + Ones(32 * (rec.item.span - 1) - |data|)
    requires WriteSize(ws) && TornSafe(c, ws, data) && (pv == 0 || pv == Pivot(|data|, ws))
    requires pv <= |data| && t == ProgramBytes(s, 32 * n, c.format(rec.item) + data[..pv])
    ensures Sound(c, t) && t.header == s.header
    ensures ScanFrom(c, t, 0) == ScanFrom(c, s, 0) || ScanFrom(c, t, 0) == ScanFrom(c, s, 0) + [Loc(n, rec)]
  {
    hide Tidy, ProgramBytes, ScanFrom, SoundAt, SameBelow, Extends, DataValid, TornSafe;
    var raw := c.format(rec.item);
    ProgramTailEntries(c, s, n, raw + data[..pv]);
    var torn := Rec(rec.item, raw + data[..pv] + Ones(32 * (rec.item.span - 1) - pv));
    TornBytes(c, s, t, n, torn, raw + data[..pv]);
    AppendUnmarked(c, s, t, n, torn);
    TornComplete(c, ws, rec, torn, data, pv);
  }

  lemma TornBytes(c: Codec, s: Sector, t: Sector, n: nat, torn: Rec, bytes: seq<byte>)
    requires CodecOk(c) && Shape(s) && n <= ENTRIES_PER_PAGE && Tidy(c, s, 0, n) && BlankFrom(s, n)
    requires WfItem(torn.item) && Fits(torn.item, n) && 32 <= |bytes| <= 32 * torn.item.span
    requires torn.raw == bytes + Ones(32 * torn.item.span - |bytes|) && bytes[..32] == c.format(torn.item)
    requires t == ProgramBytes(s, 32 * n, bytes)
    ensures Extends(c, s, t, n, torn)
  {
    hide Tidy, ProgramBytes;
    ProgramTailEntries(c, s, n, bytes);
    assert torn.raw[..32] == bytes[..32];
    ExtendsBy(c, s, t, n, torn);
  }

  lemma TornComplete(c: Codec, ws: nat, rec: Rec, torn: Rec, data: seq<byte>, pv: nat)
    requires WriteSize(ws) && TornSafe(c, ws, data) && (pv == 0 || pv == Pivot(|data|, ws)) && pv <= |data|
    requires rec.item.data == SizedData(|data|, c.crc(data)) && rec.item.span == SpanFor(|data|)
    requires |c.format(rec.item)| == 32 && torn.item == rec.item
    requires rec.raw == c.format(rec.item) + data + Ones(32 * (rec.item.span - 1) - |data|)
    requires torn.raw == c.format(rec.item) + data[..pv] + Ones(32 * (rec.item.span - 1) - pv)
    ensures DataValid(c, torn) ==> torn == rec
  {
    hide Pivot;
    var m := 32 * (rec.item.span - 1);
    var image := data[..pv] + Ones(|data| - pv);
    TornImage(c.format(rec.item), data[..pv], |data|, m);
    assert pv == 0 ==> data[..pv] == [] && [] + Ones(|data|) == Ones(|data|);
    if DataValid(c, torn) {
      assert DataOf(torn) == image;
      assert image == data;
    }
  }

  lemma TornImage(head: seq<byte>, x: seq<byte>, len: nat, m: nat)
    requires |head| == 32 && |x| <= len <= m
    ensures (head + x + Ones(m - |x|))[32 .. 32 + len] == x + Ones(len - |x|)
    ensures head + (x + Ones(len - |x|)) + Ones(m - len) == head + x + Ones(m - |x|)
  {}

  /** page.rs, copy_item_from: every entry of an item, byte for byte, in one write. `exact` says that
      the target's entry map in RAM is the one on flash. */
  method CopyItemFrom(h: Hal, p: ThinPage, source: ThinPage, index: nat, it: Item, ghost exact: bool)
    returns (h2: Hal, p2: ThinPage, r: Result<Unit>)
    requires HalOk(h) && p.addr < |h.sectors| && |p.emap| == MAP_SIZE && (p.state == Active || IsFull(p))
    requires source.addr < |h.sectors| && index < ENTRIES_PER_PAGE
    requires h.codec.parse(Entry(h.sectors[source.addr], index)) == Some(it)
    requires exact ==> PageOk(h.codec, p, h.sectors[p.addr])
    ensures HalOk(h2) && Touched(h, h2, p.addr)
    ensures r == Err(CorruptedData) <==> it.span < 1 || index + it.span > 126
    ensures r == Err(PageFull) <==> 1 <= it.span && index + it.span <= 126 && it.span > 126 - p.used - p.erased
    ensures r in {Err(PageFull), Err(CorruptedData)} ==> h2 == h && p2 == p
    ensures r.Ok? ==> Fits(it, index) && Committed(p, p2, RecAt(h.codec, h.sectors[source.addr], index))
    ensures r.Ok? ==> Drawn(h2, p2, Stored(Draft(h.sectors[p.addr], p.emap), NextFree(p),
                                           Entries(h.sectors[source.addr], index, it.span), h.ws))
    ensures exact && r.Ok? ==> Appended(h, p, h2, p2, RecAt(h.codec, h.sectors[source.addr], index))
    ensures r == Err(FlashError) ==> Fits(it, index) && h2.budget == Some(0)
    ensures exact && r == Err(FlashError) && Proper(it) ==>
              TornAppend(h, p, h2, RecAt(h.codec, h.sectors[source.addr], index))
    ensures exact && r == Err(FlashError) && Proper(it) ==>
              h2 == h ||
              ((IsScalar(it.typ) || DataValid(h.codec, RecAt(h.codec, h.sectors[source.addr], index))) ==>
                 && ScanFrom(h.codec, h2.sectors[p.addr], 0) ==
                    ScanFrom(h.codec, h.sectors[p.addr], 0) +
                      [Loc(NextFree(p), RecAt(h.codec, h.sectors[source.addr], index))]
                 && NextFree(p) + it.span <= ENTRIES_PER_PAGE && BlankFrom(h2.sectors[p.addr], NextFree(p) + it.span))
    ensures r.Err? ==> r.error in {PageFull, CorruptedData, FlashError}
  {
    hide ScanFrom, Tidy, HashList, Spans, ProgramBytes, Charted;
    h2, p2 := h, p;
    if it.span == 0 || index + it.span > ENTRIES_PER_PAGE { r := Err(CorruptedData); return; }
    if it.span > FreeEntries(p) { r := Err(PageFull); return; }
    var n := NextFree(p);
    var s := h.sectors[p.addr];
    var rec := RecAt(h.codec, h.sectors[source.addr], index);
    var raw := Entries(h.sectors[source.addr], index, it.span);
    assert raw[..32] == Entry(h.sectors[source.addr], index);
    var ok;
    if exact { ProgramTailEntries(h.codec, s, n, raw); }
    WholeEntries(it.span, h.ws);
    h2, ok := WriteAligned(h, p.addr, 32 * n, raw);
    if !ok {
      if exact { SoundPage(h.codec, p, s); }
      r := Err(FlashError);
      return;
    }
    if exact { ExtendsBy(h.codec, s, h2.sectors[p.addr], n, rec); }
    h2, p2, ok := Commit(h2, p, s, rec, exact);
    r := if ok then Ok(Unit) else Err(FlashError);
  }

  lemma WholeEntries(span: nat, ws: nat)
    requires WriteSize(ws)
    ensures 32 * span % ws == 0
  {
    if ws == 1 {} else if ws == 2 {} else if ws == 4 {} else if ws == 8 {} else if ws == 16 {} else {}
  }

  /** The page after the item at `index` was erased: used + erased is what it was, and only that
      item is gone. */
  ghost predicate ErasedFrom(h: Hal, p: ThinPage, h2: Hal, p2: ThinPage, index: nat, span: nat)
    requires p.addr < |h.sectors| && Shape(h.sectors[p.addr])
  {
    && Touched(h, h2, p.addr)
    && BodyOk(h.codec, p2, h2.sectors[p.addr])
    && h2.sectors[p.addr].header == h.sectors[p.addr].header
    && h2.sectors[p.addr].body == h.sectors[p.addr].body
    && p2.addr == p.addr && p2.sequence == p.sequence && p2.state == p.state
    && p2.used == p.used - span && p2.erased == p.erased + span
    && ScanFrom(h.codec, h2.sectors[p.addr], 0) == Without(ScanFrom(h.codec, h.sectors[p.addr], 0), index)
  }

  /** page.rs, erase_item, for the item kept at position k of the scan. */
  method EraseItem(h: Hal, p: ThinPage, index: nat, span: nat, ghost k: nat)
    returns (h2: Hal, p2: ThinPage, ok: bool)
    requires HalOk(h) && p.addr < |h.sectors| && BodyOk(h.codec, p, h.sectors[p.addr])
    requires KeptAt(ScanFrom(h.codec, h.sectors[p.addr], 0), k, index)
    requires ScanFrom(h.codec, h.sectors[p.addr], 0)[k].rec.item.span == span
    ensures HalOk(h2)
    ensures ok ==> ErasedFrom(h, p, h2, p2, index, span)
    ensures !ok ==> h2 == h && h.budget == Some(0)
  {
    hide ScanFrom, Tidy, HashList, Spans, Without, RangeSet;
    var s := h.sectors[p.addr];
    ghost var locs := ScanFrom(h.codec, s, 0);
    ScanWritten(h.codec, s, 0, NextFree(p));
    ScanErase(h.codec, s, 0, NextFree(p), k, index, span);
    h2, p2, ok := SetEntryStateRange(h, p, index, index + span, Erased);
    if !ok { return; }
    EraseMap(s, index, span);
    HashListWithout(h.codec, locs, index);
    SpansWithout(locs, k, index, 0, NextFree(p));
    assert p2.emap == MarkErased(s, index, span).emap;
    p2 := p2.(erased := p.erased + span, used := p.used - span, hashes := Retain(p.hashes, index));
  }

  lemma EraseMap(s: Sector, index: nat, span: nat)
    requires Shape(s) && index + span <= ENTRIES_PER_PAGE
    requires forall j | index <= j < index + span :: s.emap[j] == Written
    ensures RangeSet(s.emap, index, index + span, Erased) == MarkErased(s, index, span).emap
  {}

  /** page.rs, load_referenced_data. */
  function LoadReferencedData(h: Hal, p: ThinPage, index: nat, it: Item): (r: Result<seq<byte>>)
    requires p.addr < |h.sectors| && Shape(h.sectors[p.addr]) && WfItem(it)
    ensures r.Ok? <==> IsSizedType(it.typ) && Fits(it, index) && SizeFits(it)
    ensures r.Ok? ==> |r.value| == it.data.size
    ensures r.Err? ==> r.error in {CorruptedData, ItemTypeMismatch(it.typ)}
  {
    if !IsSizedType(it.typ) then Err(ItemTypeMismatch(it.typ))
    else if it.span < 1 then Err(CorruptedData)
    else if index + it.span > ENTRIES_PER_PAGE then Err(CorruptedData)
    else if it.data.size > 32 * (it.span - 1) then Err(CorruptedData)
    else Ok(h.sectors[p.addr].body[32 * (index + 1) .. 32 * (index + 1) + it.data.size])
  }

  lemma LoadsData(h: Hal, p: ThinPage, index: nat, rec: Rec)
    requires HalOk(h) && p.addr < |h.sectors| && index < ENTRIES_PER_PAGE && Fits(rec.item, index)
    requires h.codec.parse(Entry(h.sectors[p.addr], index)) == Some(rec.item)
    requires rec == RecAt(h.codec, h.sectors[p.addr], index)
    requires IsSizedType(rec.item.typ) && SizeFits(rec.item)
    ensures LoadReferencedData(h, p, index, rec.item) == Ok(DataOf(rec))
  {
    var body, n := h.sectors[p.addr].body, rec.item.data.size;
    SliceOfSlice(body, 32 * index, 32 * (index + rec.item.span), 32, 32 + n);
  }

  lemma SliceOfSlice<T>(s: seq<T>, lo: nat, hi: nat, from: nat, until: nat)
    requires lo <= hi <= |s| && from <= until <= hi - lo
    ensures s[lo .. hi][from .. until] == s[lo + from .. lo + until]
  {
    var a, b := s[lo .. hi][from .. until], s[lo + from .. lo + until];
    assert |a| == |b| == until - from;
    forall i | 0 <= i < |a| ensures a[i] == b[i] { assert a[i] == s[lo + from + i]; }
  }
}
