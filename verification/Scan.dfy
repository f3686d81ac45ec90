/** The boot scan of one sector (init.rs, load_sector): it walks the entries, repairs the entry map
    on flash where a write was cut short, and rebuilds the page's counters and hash list. */
module Scan {
  import opened Types
  import opened Sectors
  import opened Flash
  import opened Pages
  import opened PageOps

  // ---- what the scan notes about blobs and namespaces, across all sectors ----

  /** types.rs, VersionOffset::from: the half of the chunk indices an index lies in. */
  function VersionOf(chunk: nat): nat { if chunk < 0x80 then 0 else 0x80 }

  datatype BlobKey = BlobKey(ns: nat, start: nat, key: Key)

  datatype IndexEntry = IndexEntry(itemIndex: nat, pageSequence: nat, size: nat, count: nat)

  datatype Observed = Observed(index: Option<IndexEntry>, chunkCount: nat, dataSize: nat)

  type BlobIndexMap = map<BlobKey, Observed>

  function Seen(bi: BlobIndexMap, k: BlobKey): Observed {
    if k in bi then bi[k] else Observed(None, 0, 0)
  }

  function BlobKeyOf(it: Item): (k: Option<BlobKey>)
    requires WfItem(it)
  {
    if it.ns == 0 then None
    else if it.typ == BlobIndex then Some(BlobKey(it.ns, VersionOf(it.data.start), it.key))
    else if it.typ == BlobData then Some(BlobKey(it.ns, VersionOf(it.chunk), it.key))
    else None
  }

  function Note(bi: BlobIndexMap, sequence: nat, index: nat, it: Item): BlobIndexMap
    requires WfItem(it)
  {
    match BlobKeyOf(it)
    case None => bi
    case Some(k) =>
      if it.typ == BlobIndex then
        bi[k := Seen(bi, k).(index := Some(IndexEntry(index, sequence, it.data.size, it.data.count)))]
      else
        bi[k := Seen(bi, k).(chunkCount := Seen(bi, k).chunkCount + 1,
                             dataSize := Seen(bi, k).dataSize + it.data.size)]
  }

  ghost predicate WfLocs(locs: seq<Loc>) { forall j | 0 <= j < |locs| :: WfItem(locs[j].rec.item) }

  ghost function NoteAll(bi: BlobIndexMap, sequence: nat, locs: seq<Loc>): BlobIndexMap
    requires WfLocs(locs)
  {
    if locs == [] then bi
    else
      var last := locs[|locs| - 1];
      Note(NoteAll(bi, sequence, locs[..|locs| - 1]), sequence, last.index, last.rec.item)
  }

  /** The first data byte of a namespace entry is the index it gives its name. */
  function NamespaceIndex(it: Item): nat
    requires WfItem(it)
  {
    match it.data
    case Raw(bytes) => bytes[0] as nat
    case SizedData(size, _) => size % 256
    case Index(size, _, _) => size % 256
  }

  ghost function NamespacesOf(nss: map<Key, nat>, locs: seq<Loc>): map<Key, nat>
    requires WfLocs(locs)
  {
    if locs == [] then nss
    else
      var last := locs[|locs| - 1].rec.item;
      var rest := NamespacesOf(nss, locs[..|locs| - 1]);
      if last.ns == 0 then rest[last.key := NamespaceIndex(last)] else rest
  }

  // ---- counting ----

  function Blanks(m: seq<EntryState>, i: nat): nat
    requires i <= |m|
  {
    if i == 0 then 0 else Blanks(m, i - 1) + (if m[i - 1] == Empty then 1 else 0)
  }

  lemma {:induction false} BlanksSame(m: seq<EntryState>, m2: seq<EntryState>, i: nat)
    requires i <= |m| && i <= |m2| && forall j | 0 <= j < i :: m[j] == m2[j]
    ensures Blanks(m, i) == Blanks(m2, i)
  {
    if i > 0 { BlanksSame(m, m2, i - 1); }
  }

  lemma {:induction false} BlanksNone(m: seq<EntryState>, i: nat, k: nat)
    requires i <= k <= |m| && forall j | i <= j < k :: m[j] != Empty
    ensures Blanks(m, k) == Blanks(m, i)
    decreases k
  {
    if i < k { BlanksNone(m, i, k - 1); }
  }

  /** Namespace entries of a single entry, as write_namespace writes them. */
  ghost predicate Narrow(locs: seq<Loc>) {
    forall j | 0 <= j < |locs| && locs[j].rec.item.ns == 0 :: locs[j].rec.item.span == 1
  }

  /** Entry j belongs to one of the items. */
  ghost predicate Covered(locs: seq<Loc>, j: nat) { exists x :: CoversAt(locs, x, j) }

  ghost predicate CoversAt(locs: seq<Loc>, x: nat, j: nat) {
    x < |locs| && locs[x].index <= j < locs[x].index + locs[x].rec.item.span
  }

  /** What the walk has made of the entry map below i: the entries of the items found are programmed
      to Written, and nothing else is Written. */
  ghost predicate Marks(s0: Sector, emap: seq<EntryState>, acc: seq<Loc>, i: nat) {
    && Shape(s0) && |emap| == MAP_SIZE && i <= ENTRIES_PER_PAGE && Ordered(acc, 0, i)
    && (forall x: nat, e: nat | e < MAP_SIZE && CoversAt(acc, x, e) :: emap[e] == AndState(s0.emap[e], Written))
    && (forall j: nat | j < i && emap[j] == Written :: Covered(acc, j))
  }

  /** The entries of every item the scan keeps can be programmed to Written. */
  ghost predicate Markable(c: Codec, s0: Sector)
    requires Shape(s0)
  {
    forall x: nat, e: nat | e < MAP_SIZE && CoversAt(ScanFrom(c, s0, 0), x, e) :: s0.emap[e] in {Empty, Written}
  }

  // ---- one entry ----

  /** The entry map after the scan settled entry i of `s`. */
  function RepairStep(c: Codec, s: Sector, i: nat): (m: seq<EntryState>)
    requires Shape(s) && i < ENTRIES_PER_PAGE
    ensures |m| == MAP_SIZE
  {
    match Judge(c, s, i)
    case Keep(r) => if s.emap[i] == Empty then RangeSet(s.emap, i, i + r.item.span, Written) else s.emap
    case Drop(n) =>
      if s.emap[i] in {Illegal, Erased} || (s.emap[i] == Empty && BlankEntry(s, i)) then s.emap
      else RangeSet(s.emap, i, i + n, Erased)
  }

  ghost predicate StepCounts(c: Codec, s: Sector, p: ThinPage, p2: ThinPage, i: nat, kept: Option<Item>, step: nat)
    requires Shape(s) && i < ENTRIES_PER_PAGE
  {
    match Judge(c, s, i)
    case Keep(r) => kept == Some(r.item) && step == r.item.span && p2.used == p.used + r.item.span &&
      p2.erased == p.erased
    case Drop(n) =>
      && kept == None && step == n && p2.used == p.used
      && p2.erased == p.erased + (if s.emap[i] == Empty && BlankEntry(s, i) then 0 else n)
  }

  method IsBlankEntry(s: Sector, i: nat) returns (b: bool)
    requires Shape(s) && i < ENTRIES_PER_PAGE
    ensures b <==> BlankEntry(s, i)
  {
    BlankBytes(s, i);
    b := Entry(s, i) == BLANK_ENTRY;
  }

  /** The body of the scan loop up to the point where an item is kept or dropped. */
  method SettleEntry(h: Hal, p: ThinPage, i: nat)
    returns (h2: Hal, p2: ThinPage, kept: Option<Item>, step: nat, ok: bool)
    requires HalOk(h) && p.addr < |h.sectors| && p.emap == h.sectors[p.addr].emap && i < ENTRIES_PER_PAGE
    ensures HalOk(h2)
    ensures !ok ==> h2 == h && h.budget == Some(0)
    ensures ok ==> Moved(h, h2, p.addr, h.sectors[p.addr].(emap := p2.emap))
    ensures ok ==> p2.emap == RepairStep(h.codec, h.sectors[p.addr], i)
    ensures ok ==> StepCounts(h.codec, h.sectors[p.addr], p, p2, i, kept, step)
    ensures p2 == p.(emap := p2.emap, used := p2.used, erased := p2.erased)
  {
    hide RangeSet, RangeProgrammed;
    var s := h.sectors[p.addr];
    h2, p2, kept, step, ok := h, p, None, 1, true;
    assert s.(emap := s.emap) == s && h.sectors[p.addr := s] == h.sectors;
    var state := p.emap[i];
    if state == Illegal || state == Erased {
      p2 := p.(erased := p.erased + 1);
      return;
    }
    var blank := IsBlankEntry(s, i);
    if state == Empty && blank { return; }
    var item := h.codec.parse(Entry(s, i));
    if item.None? || !Fits(item.value, i) {
      h2, p2, ok := SetEntryStateRange(h, p, i, i + 1, Erased);
      p2 := p2.(erased := p.erased + 1);
      return;
    }
    var it := item.value;
    if state == Written {
      var payloadWritten := forall j | i < j < i + it.span :: p.emap[j] == Written;
      if payloadWritten {
        p2 := p.(used := p.used + it.span);
        kept, step := Some(it), it.span;
      } else {
        h2, p2, ok := SetEntryStateRange(h, p, i, i + it.span, Erased);
        p2 := p2.(erased := p.erased + it.span);
        step := it.span;
      }
      return;
    }
    h2, p2, kept, step, ok := RecoverEntry(h, p, i, it);
  }

  /** An entry marked Empty that holds an item: the write was cut short before the entry map. */
  method RecoverEntry(h: Hal, p: ThinPage, i: nat, it: Item)
    returns (h2: Hal, p2: ThinPage, kept: Option<Item>, step: nat, ok: bool)
    requires HalOk(h) && p.addr < |h.sectors| && p.emap == h.sectors[p.addr].emap && i < ENTRIES_PER_PAGE
    requires p.emap[i] == Empty && !BlankEntry(h.sectors[p.addr], i)
    requires h.codec.parse(Entry(h.sectors[p.addr], i)) == Some(it) && Fits(it, i)
    ensures HalOk(h2)
    ensures !ok ==> h2 == h && h.budget == Some(0)
    ensures ok ==> Moved(h, h2, p.addr, h.sectors[p.addr].(emap := p2.emap))
    ensures ok ==> p2.emap == RepairStep(h.codec, h.sectors[p.addr], i)
    ensures ok ==> StepCounts(h.codec, h.sectors[p.addr], p, p2, i, kept, step)
    ensures p2 == p.(emap := p2.emap, used := p2.used, erased := p2.erased)
  {
    hide RangeSet, RangeProgrammed;
    ghost var s := h.sectors[p.addr];
    kept, step := None, 1;
    if IsScalar(it.typ) && it.span == 1 {
      h2, p2, ok := SetEntryStateRange(h, p, i, i + 1, Written);
      p2 := p2.(used := p.used + 1);
      kept := Some(it);
    } else if IsSizedType(it.typ) {
      var data := LoadReferencedData(h, p, i, it);
      var valid := data.Ok? && h.codec.crc(data.value) == it.data.crc;
      if SizeFits(it) { LoadsData(h, p, i, RecAt(h.codec, s, i)); }
      if valid {
        h2, p2, ok := SetEntryStateRange(h, p, i, i + it.span, Written);
        p2 := p2.(used := p.used + it.span);
        kept, step := Some(it), it.span;
      } else {
        h2, p2, ok := SetEntryStateRange(h, p, i, i + it.span, Erased);
        p2 := p2.(erased := p.erased + it.span);
        step := it.span;
      }
    } else {
      h2, p2, ok := SetEntryStateRange(h, p, i, i + 1, Erased);
      p2 := p2.(erased := p.erased + 1);
    }
  }

  // ---- the walk ----

  /** What the walk has established when it reaches entry i: the items found so far are exactly
      those the scan keeps, and used + erased accounts for every entry behind it but the blank
      ones. */
  ghost predicate Walk(c: Codec, s0: Sector, p: ThinPage, acc: seq<Loc>, i: nat) {
    && Shape(s0) && |p.emap| == MAP_SIZE && i <= ENTRIES_PER_PAGE
    && (forall j | i <= j < MAP_SIZE :: p.emap[j] == s0.emap[j])
    && (forall j | 0 <= j < i && p.emap[j] == Empty :: BlankEntry(s0, j))
    && p.used + p.erased + Blanks(p.emap, i) == i
    && ScanFrom(c, s0, 0) == acc + ScanFrom(c, s0, i)
    && p.hashes == HashList(c, acc) && p.used == Spans(acc) && Narrow(acc)
    && Marks(s0, p.emap, acc, i)
  }

  /** Below i and from i + step on, one step of the walk leaves the map alone; in between, nothing
      stays Empty but a blank entry. */
  lemma StepMap(c: Codec, s: Sector, i: nat, step: nat)
    requires Shape(s) && i < ENTRIES_PER_PAGE
    requires step == (match Judge(c, s, i) case Keep(r) => r.item.span case Drop(n) => n)
    ensures 1 <= step && i + step <= ENTRIES_PER_PAGE
    ensures forall j | 0 <= j < MAP_SIZE && !(i <= j < i + step) :: RepairStep(c, s, i)[j] == s.emap[j]
    ensures if s.emap[i] == Empty && BlankEntry(s, i) then step == 1 && RepairStep(c, s, i)[i] == Empty
            else forall j | i <= j < i + step :: RepairStep(c, s, i)[j] != Empty
  {}

  lemma WalkCounts(c: Codec, s: Sector, p: ThinPage, p2: ThinPage, i: nat, kept: Option<Item>, step: nat, extra: nat)
    requires Shape(s) && i < ENTRIES_PER_PAGE && p.emap == s.emap && p2.emap == RepairStep(c, s, i)
    requires StepCounts(c, s, p, p2, i, kept, step)
    requires p.used + p.erased + Blanks(p.emap, i) == i + extra
    ensures 1 <= step && i + step <= ENTRIES_PER_PAGE
    ensures p2.used + p2.erased + Blanks(p2.emap, i + step) == i + step + extra
  {
    StepMap(c, s, i, step);
    BlanksSame(p.emap, p2.emap, i);
    if s.emap[i] == Empty && BlankEntry(s, i) {
    } else {
      BlanksNone(p2.emap, i, i + step);
    }
  }

  lemma WalkStep(c: Codec, s0: Sector, p: ThinPage, p2: ThinPage, acc: seq<Loc>, i: nat, kept: Option<Item>, step: nat)
    requires Walk(c, s0, p, acc, i) && i < ENTRIES_PER_PAGE
    requires var s := s0.(emap := p.emap); p2.emap == RepairStep(c, s, i) && StepCounts(c, s, p, p2, i, kept, step)
    requires kept.Some? && kept.value.ns == 0 ==> step == 1
    requires p2.hashes == p.hashes +
             (if kept.Some? && kept.value.ns != 0 then [HashEntry(ItemHash(c, kept.value), i)] else [])
    ensures 1 <= step && i + step <= ENTRIES_PER_PAGE
    ensures kept.Some? ==> Fits(kept.value, i) && c.parse(Entry(s0, i)) == Some(kept.value)
    ensures Walk(c, s0, p2, if kept.Some? then acc + [Loc(i, RecAt(c, s0, i))] else acc, i + step)
  {
    hide ScanFrom, HashList, Spans, RepairStep, Judge, Marks;
    var s := s0.(emap := p.emap);
    SameJudge(c, s0, s, i);
    WalkCounts(c, s, p, p2, i, kept, step, 0);
    StepMap(c, s, i, step);
    WalkBlank(s0, s, i);
    match Judge(c, s0, i)
    case Drop(n) =>
      ScanDropped(c, s0, i, n);
      MarksDrop(c, s0, p.emap, acc, i);
    case Keep(r) =>
      ScanKept(c, s0, i, r);
      MarksKeep(c, s0, p.emap, acc, i, r);
      WalkKeep(c, acc, Loc(i, r), p.hashes);
      assert acc + ([Loc(i, r)] + ScanFrom(c, s0, i + step)) == (acc + [Loc(i, r)]) + ScanFrom(c, s0, i + step);
  }

  lemma StepMarks(c: Codec, s: Sector, i: nat)
    requires Shape(s) && i < ENTRIES_PER_PAGE
    ensures Judge(c, s, i).Keep? ==>
              forall e | i <= e < i + Judge(c, s, i).rec.item.span ::
                RepairStep(c, s, i)[e] == AndState(s.emap[e], Written)
    ensures Judge(c, s, i).Drop? ==> forall e | i <= e < i + Judge(c, s, i).n :: RepairStep(c, s, i)[e] != Written
  {}

  lemma MarksDrop(c: Codec, s0: Sector, emap: seq<EntryState>, acc: seq<Loc>, i: nat)
    requires Marks(s0, emap, acc, i) && i < ENTRIES_PER_PAGE && Judge(c, s0.(emap := emap), i).Drop?
    ensures Marks(s0, RepairStep(c, s0.(emap := emap), i), acc, i + Judge(c, s0.(emap := emap), i).n)
  {
    hide Judge, RepairStep, AndState;
    var s := s0.(emap := emap);
    var n := Judge(c, s, i).n;
    StepMap(c, s, i, n);
    StepMarks(c, s, i);
  }

  lemma MarksKeep(c: Codec, s0: Sector, emap: seq<EntryState>, acc: seq<Loc>, i: nat, r: Rec)
    requires Marks(s0, emap, acc, i) && i < ENTRIES_PER_PAGE && Judge(c, s0.(emap := emap), i) == Keep(r)
    requires forall j | i <= j < MAP_SIZE :: emap[j] == s0.emap[j]
    ensures Marks(s0, RepairStep(c, s0.(emap := emap), i), acc + [Loc(i, r)], i + r.item.span)
  {
    hide Judge, RepairStep, AndState;
    var s, acc2 := s0.(emap := emap), acc + [Loc(i, r)];
    var m := RepairStep(c, s, i);
    StepMap(c, s, i, r.item.span);
    StepMarks(c, s, i);
    OrderedSnoc(acc, i, r);
    forall x: nat, e: nat | e < MAP_SIZE && CoversAt(acc2, x, e) ensures m[e] == AndState(s0.emap[e], Written) {
      if x < |acc| { assert CoversAt(acc, x, e); }
    }
    forall j: nat | j < i + r.item.span && m[j] == Written ensures Covered(acc2, j) {
      if j < i {
        var x: nat :| CoversAt(acc, x, j);
        assert CoversAt(acc2, x, j);
      } else {
        assert CoversAt(acc2, |acc|, j);
      }
    }
  }

  lemma OrderedSnoc(acc: seq<Loc>, i: nat, r: Rec)
    requires Ordered(acc, 0, i) && Fits(r.item, i)
    ensures Ordered(acc + [Loc(i, r)], 0, i + r.item.span)
  {}

  lemma WalkBlank(s0: Sector, s: Sector, i: nat)
    requires Shape(s0) && Shape(s) && s.body == s0.body && i < ENTRIES_PER_PAGE
    ensures BlankEntry(s, i) == BlankEntry(s0, i)
  {}

  lemma WalkKeep(c: Codec, acc: seq<Loc>, loc: Loc, hs: seq<HashEntry>)
    requires hs == HashList(c, acc) && Narrow(acc) && (loc.rec.item.ns == 0 ==> loc.rec.item.span == 1)
    ensures HashList(c, acc + [loc]) == hs + HashOf(c, loc)
    ensures Spans(acc + [loc]) == Spans(acc) + loc.rec.item.span
    ensures Narrow(acc + [loc])
  {
    CommitCounts(c, acc, loc);
  }

  /** A kept namespace entry of several entries is one the scan would keep. */
  lemma WideFound(c: Codec, s0: Sector, p: ThinPage, acc: seq<Loc>, i: nat, it: Item)
    requires Walk(c, s0, p, acc, i) && i < ENTRIES_PER_PAGE
    requires Judge(c, s0.(emap := p.emap), i).Keep? && Judge(c, s0.(emap := p.emap), i).rec.item == it
    requires it.ns == 0 && it.span > 1
    ensures !Narrow(ScanFrom(c, s0, 0))
  {
    hide ScanFrom, Judge;
    var s := s0.(emap := p.emap);
    SameJudge(c, s0, s, i);
    var r := Judge(c, s0, i).rec;
    ScanKept(c, s0, i, r);
    assert ScanFrom(c, s0, 0)[|acc|] == Loc(i, r);
  }

  // ---- sectors a power cut left behind ----

  /** The entry map once the item a power cut left unmarked is settled. */
  ghost function TailMap(c: Codec, s: Sector, n: nat, m: nat): (r: seq<EntryState>)
    requires SoundAt(c, s, n, m)
    ensures |r| == MAP_SIZE
  {
    if n == m then s.emap else RepairStep(c, s, n)
  }

  ghost predicate SoundWalk(c: Codec, s0: Sector, n: nat, m: nat, emap: seq<EntryState>, i: nat)
    requires SoundAt(c, s0, n, m)
  {
    (i <= n && Tidy(c, s0, i, n) && emap == s0.emap) || (m <= i && emap == TailMap(c, s0, n, m))
  }

  lemma TailStep(c: Codec, s: Sector, n: nat, m: nat)
    requires CodecOk(c) && SoundAt(c, s, n, m) && n < m
    ensures match Judge(c, s, n) case Keep(r) => r.item.span == m - n case Drop(k) => k == m - n
    ensures forall j | 0 <= j < MAP_SIZE && !(n <= j < m) :: RepairStep(c, s, n)[j] == s.emap[j]
    ensures Judge(c, s, n).Keep? ==> forall j | n <= j < m :: RepairStep(c, s, n)[j] == Written
    ensures Judge(c, s, n).Drop? ==> forall j | n <= j < m :: RepairStep(c, s, n)[j] == Erased
  {
    BlankBytes(s, n);
  }

  /** The walk over a sound sector changes nothing but the entry map of the unmarked item. */
  lemma SoundStep(c: Codec, s0: Sector, n: nat, m: nat, emap: seq<EntryState>, i: nat, step: nat)
    requires CodecOk(c) && SoundAt(c, s0, n, m) && SoundWalk(c, s0, n, m, emap, i) && i < ENTRIES_PER_PAGE
    requires |emap| == MAP_SIZE
    requires var s := s0.(emap := emap);
             step == (match Judge(c, s, i) case Keep(r) => r.item.span case Drop(k) => k)
    ensures SoundWalk(c, s0, n, m, RepairStep(c, s0.(emap := emap), i), i + step)
  {
    hide Tidy, Judge;
    var s := s0.(emap := emap);
    if i < n && emap == s0.emap && Tidy(c, s0, i, n) {
      assert s == s0;
      TidyStep(c, s0, i, n);
      SettledJudge(c, s0, i, n);
    } else if i == n && n < m {
      assert s == s0;
      TailStep(c, s0, n, m);
    } else {
      if n < m { TailStep(c, s0, n, m); }
      BlankJudge(c, s, i);
      if i == n && n == m { assert s.emap == s0.emap; }
    }
  }

  lemma SettledJudge(c: Codec, s: Sector, i: nat, n: nat)
    requires Shape(s) && n <= ENTRIES_PER_PAGE && Settled(c, s, i, n)
    ensures RepairStep(c, s, i) == s.emap
    ensures match Judge(c, s, i) case Keep(r) => r.item.span == Width(c, s, i, n) case Drop(k) => k == Width(c, s, i, n)
  {}

  lemma BlankJudge(c: Codec, s: Sector, i: nat)
    requires Shape(s) && i < ENTRIES_PER_PAGE && s.emap[i] == Empty && BlankEntry(s, i)
    ensures Judge(c, s, i) == Drop(1) && RepairStep(c, s, i) == s.emap
  {}

  /** Settled or not, the unmarked item counts the same for the next scan: a power cut during the
      repair does no harm. */
  lemma SoundMid(c: Codec, s0: Sector, n: nat, m: nat, emap: seq<EntryState>, i: nat)
    requires CodecOk(c) && SoundAt(c, s0, n, m) && SoundWalk(c, s0, n, m, emap, i)
    ensures var s := s0.(emap := emap);
            && Sound(c, s) && ScanFrom(c, s, 0) == ScanFrom(c, s0, 0)
            && (m <= i ==> Tidy(c, s, 0, m) && BlankFrom(s, m))
  {
    hide Tidy, ScanFrom, Judge;
    var s := s0.(emap := emap);
    if emap == s0.emap {
      assert s == s0;
      if m <= i && n < m { TailStep(c, s0, n, m); }
    } else {
      TailStep(c, s0, n, m);
      BelowSame(c, s0, s, 0, n);
      ScanBelow(c, s0, 0, n);
      ScanBelow(c, s, 0, n);
      ScanBlank(c, s, m);
      TailScan(c, s0, s, n, m);
      TidyJoin(c, s, 0, n, m);
      assert SoundAt(c, s, m, m);
    }
  }

  lemma TailScan(c: Codec, s0: Sector, s: Sector, n: nat, m: nat)
    requires CodecOk(c) && SoundAt(c, s0, n, m) && n < m && s == s0.(emap := RepairStep(c, s0, n)) && BlankFrom(s, m)
    ensures Tidy(c, s, n, m) && ScanFrom(c, s, n) == ScanFrom(c, s0, n)
  {
    hide Tidy, ScanFrom, Judge;
    TailStep(c, s0, n, m);
    ScanBlank(c, s, m);
    TidyEnd(c, s, m, m);
    TailBlank(c, s0, n, m);
    if Judge(c, s0, n).Keep? {
      var r := Judge(c, s0, n).rec;
      ScanKept(c, s0, n, r);
      assert Entry(s, n) == Entry(s0, n) && Entries(s, n, m - n) == Entries(s0, n, m - n);
      assert Settled(c, s, n, m);
      ScanStep(c, s, n, m);
      TidyStep(c, s, n, m);
    } else {
      ScanDropped(c, s0, n, m - n);
      ScanErasedRun(c, s, n, m, m);
    }
  }

  lemma TailBlank(c: Codec, s0: Sector, n: nat, m: nat)
    requires SoundAt(c, s0, n, m)
    ensures ScanFrom(c, s0, m) == []
  {
    hide Tidy, ScanFrom;
    ScanBlank(c, s0, m);
  }

  // ---- the scan of a sector ----

  lemma NoteAllSnoc(bi: BlobIndexMap, sequence: nat, locs: seq<Loc>, loc: Loc)
    requires WfLocs(locs) && WfItem(loc.rec.item)
    ensures WfLocs(locs + [loc])
    ensures NoteAll(bi, sequence, locs + [loc]) == Note(NoteAll(bi, sequence, locs), sequence, loc.index, loc.rec.item)
  {
    assert (locs + [loc])[..|locs|] == locs;
  }

  lemma NamespacesSnoc(nss: map<Key, nat>, locs: seq<Loc>, loc: Loc)
    requires WfLocs(locs) && WfItem(loc.rec.item)
    ensures WfLocs(locs + [loc])
    ensures NamespacesOf(nss, locs + [loc]) ==
            if loc.rec.item.ns == 0 then NamespacesOf(nss, locs)[loc.rec.item.key := NamespaceIndex(loc.rec.item)]
            else NamespacesOf(nss, locs)
  {
    assert (locs + [loc])[..|locs|] == locs;
  }

  /** Everything the walk over a sector keeps track of. `extra` counts the payload entries of wide
      namespace entries, which the walk counts twice; while there are none, the walk is exact. */
  ghost predicate Progress(c: Codec, s0: Sector, p: ThinPage, acc: seq<Loc>, i: nat, extra: nat, bi0: BlobIndexMap,
                           bi: BlobIndexMap, ns0: map<Key, nat>, nss: map<Key, nat>)
  {
    && Shape(s0) && |p.emap| == MAP_SIZE && i <= ENTRIES_PER_PAGE && WfLocs(acc)
    && p.used + p.erased + Blanks(p.emap, i) == i + extra
    && (if extra == 0 then
          && Walk(c, s0, p, acc, i)
          && bi == NoteAll(bi0, p.sequence, acc) && nss == NamespacesOf(ns0, acc)
        else !Narrow(ScanFrom(c, s0, 0)))
  }

  /** A sector a power cut may have left behind, and how far the walk over it got. */
  ghost predicate SoundProgress(c: Codec, s0: Sector, emap: seq<EntryState>, i: nat) {
    exists n: nat, m: nat :: SoundAt(c, s0, n, m) && SoundWalk(c, s0, n, m, emap, i)
  }

  /** A sector a power cut may have left behind, with namespace entries as this driver writes them. */
  ghost predicate Recoverable(c: Codec, s0: Sector) {
    Sound(c, s0) && Narrow(ScanFrom(c, s0, 0))
  }

  ghost predicate SameScan(c: Codec, s0: Sector, s: Sector)
    requires Shape(s0) && Shape(s)
  {
    Sound(c, s) && s.header == s0.header && ScanFrom(c, s, 0) == ScanFrom(c, s0, 0)
  }

  /** The items lie next to each other from the first entry on. */
  ghost predicate Packed(locs: seq<Loc>) {
    forall j | 0 <= j < |locs| :: locs[j].index == Spans(locs[..j])
  }

  /** The items take up the first entries without a gap, and the rest is blank. */
  ghost predicate Dense(c: Codec, s: Sector)
    requires Shape(s)
  {
    && Packed(ScanFrom(c, s, 0))
    && Spans(ScanFrom(c, s, 0)) <= ENTRIES_PER_PAGE && BlankFrom(s, Spans(ScanFrom(c, s, 0)))
  }

  /** Settling the unmarked item of a dense sector leaves it dense. */
  lemma DenseKept(c: Codec, s0: Sector, n: nat, m: nat, emap: seq<EntryState>, i: nat)
    requires CodecOk(c) && SoundAt(c, s0, n, m) && SoundWalk(c, s0, n, m, emap, i) && Dense(c, s0)
    ensures Dense(c, s0.(emap := emap))
  {
    hide Tidy, ScanFrom, Judge, Spans, Packed, RepairStep;
    var s := s0.(emap := emap);
    SoundMid(c, s0, n, m, emap, i);
    if emap != s0.emap {
      TailStep(c, s0, n, m);
      TailEnds(c, s0, n, m);
    } else {
      assert s == s0;
    }
  }

  /** In a dense sector the unmarked item is kept, and is the last. */
  lemma TailEnds(c: Codec, s: Sector, n: nat, m: nat)
    requires CodecOk(c) && SoundAt(c, s, n, m) && n < m && Dense(c, s)
    ensures Judge(c, s, n).Keep? && m == Spans(ScanFrom(c, s, 0))
  {
    hide Tidy, ScanFrom, Judge, Spans, Below;
    var all := ScanFrom(c, s, 0);
    TailStep(c, s, n, m);
    TailBlank(c, s, n, m);
    ScanBelow(c, s, 0, n);
    BelowOrdered(c, s, 0, n);
    var below := Below(c, s, 0, n);
    if Judge(c, s, n).Keep? {
      var r := Judge(c, s, n).rec;
      ScanKept(c, s, n, r);
      assert [Loc(n, r)] + [] == [Loc(n, r)];
      assert all == below + [Loc(n, r)];
      SpansAppend(below, [Loc(n, r)]);
      SpanOne(Loc(n, r));
      assert all[..|below|] == below && all[|below|].index == n;
    } else {
      ScanDropped(c, s, n, m - n);
      assert below + [] == below;
      SpansBound(below, 0, n);
      BlankBytes(s, n);
      assert false;
    }
  }

  lemma SpanOne(loc: Loc)
    ensures Spans([loc]) == loc.rec.item.span
  {
    assert Spans([]) == 0;
  }

  lemma {:induction false} BelowOrdered(c: Codec, s: Sector, i: nat, n: nat)
    requires Shape(s) && n <= ENTRIES_PER_PAGE && Tidy(c, s, i, n)
    ensures Ordered(Below(c, s, i, n), i, n)
    decreases ENTRIES_PER_PAGE - i
  {
    hide Tidy, Below;
    if i >= n {
      TidyEnd(c, s, i, n);
      BelowEnd(c, s, n);
    } else {
      BelowStep(c, s, i, n);
      var w := Width(c, s, i, n);
      BelowOrdered(c, s, i + w, n);
      if s.emap[i] == Written { OrderedCons(Loc(i, RecAt(c, s, i)), Below(c, s, i + w, n), n); }
    }
  }

  lemma SoundProgressStep(c: Codec, s0: Sector, emap: seq<EntryState>, i: nat, step: nat)
    requires CodecOk(c) && Shape(s0) && |emap| == MAP_SIZE && i < ENTRIES_PER_PAGE
    requires SoundProgress(c, s0, emap, i)
    requires var s := s0.(emap := emap);
             step == (match Judge(c, s, i) case Keep(r) => r.item.span case Drop(k) => k)
    ensures SoundProgress(c, s0, RepairStep(c, s0.(emap := emap), i), i + step)
  {
    hide SoundAt, SoundWalk, Judge, RepairStep;
    var n: nat, m: nat :| SoundAt(c, s0, n, m) && SoundWalk(c, s0, n, m, emap, i);
    SoundStep(c, s0, n, m, emap, i, step);
  }

  lemma SoundProgressScan(c: Codec, s0: Sector, emap: seq<EntryState>, i: nat)
    requires CodecOk(c) && Shape(s0) && |emap| == MAP_SIZE && SoundProgress(c, s0, emap, i)
    ensures SameScan(c, s0, s0.(emap := emap))
    ensures Dense(c, s0) ==> Dense(c, s0.(emap := emap))
    ensures i >= ENTRIES_PER_PAGE ==> exists m: nat :: Cleaned(c, s0.(emap := emap), m)
  {
    hide SoundAt, SoundWalk, ScanFrom, BlankFrom, Tidy, Dense;
    var n: nat, m: nat :| SoundAt(c, s0, n, m) && SoundWalk(c, s0, n, m, emap, i);
    SoundMid(c, s0, n, m, emap, i);
    if Dense(c, s0) { DenseKept(c, s0, n, m, emap, i); }
    SoundEnd(c, s0, n, m);
    if i >= ENTRIES_PER_PAGE { assert Cleaned(c, s0.(emap := emap), m); }
  }

  ghost predicate Cleaned(c: Codec, s: Sector, m: nat) {
    Shape(s) && m <= ENTRIES_PER_PAGE && Tidy(c, s, 0, m) && BlankFrom(s, m)
  }

  lemma SoundEnd(c: Codec, s0: Sector, n: nat, m: nat)
    requires SoundAt(c, s0, n, m)
    ensures m <= ENTRIES_PER_PAGE
  {}

  lemma SoundStart(c: Codec, s0: Sector)
    requires Sound(c, s0)
    ensures SoundProgress(c, s0, s0.emap, 0)
  {
    hide Tidy;
    var n: nat, m: nat :| SoundAt(c, s0, n, m);
    assert SoundWalk(c, s0, n, m, s0.emap, 0);
  }

  function Advance(kept: Option<Item>, step: nat): nat {
    if kept.Some? && kept.value.ns == 0 then 1 else step
  }

  function NoteBlob(bi: BlobIndexMap, sequence: nat, i: nat, kept: Option<Item>): BlobIndexMap
    requires kept.Some? ==> WfItem(kept.value)
  {
    if kept.Some? then Note(bi, sequence, i, kept.value) else bi
  }

  function NoteNamespace(nss: map<Key, nat>, kept: Option<Item>): map<Key, nat>
    requires kept.Some? ==> WfItem(kept.value)
  {
    if kept.Some? && kept.value.ns == 0 then nss[kept.value.key := NamespaceIndex(kept.value)] else nss
  }

  lemma StartProgress(c: Codec, s0: Sector, p: ThinPage, bi: BlobIndexMap, nss: map<Key, nat>)
    requires Shape(s0) && p.emap == s0.emap && p.hashes == [] && p.used == 0 && p.erased == 0
    ensures Progress(c, s0, p, [], 0, 0, bi, bi, nss, nss)
  {
    hide ScanFrom;
    assert [] + ScanFrom(c, s0, 0) == ScanFrom(c, s0, 0);
  }

  /** One turn of the scan loop keeps track. */
  lemma TakeStep(c: Codec, s0: Sector, p: ThinPage, p2: ThinPage, acc: seq<Loc>, i: nat, extra: nat, bi0: BlobIndexMap,
                 bi: BlobIndexMap, ns0: map<Key, nat>, nss: map<Key, nat>, kept: Option<Item>, step: nat)
    returns (acc2: seq<Loc>, extra2: nat)
    requires CodecOk(c) && Progress(c, s0, p, acc, i, extra, bi0, bi, ns0, nss) && i < ENTRIES_PER_PAGE
    requires var s := s0.(emap := p.emap); p2.emap == RepairStep(c, s, i) && StepCounts(c, s, p, p2, i, kept, step)
    requires p2.hashes == p.hashes +
             (if kept.Some? && kept.value.ns != 0 then [HashEntry(ItemHash(c, kept.value), i)] else [])
    requires p2.sequence == p.sequence
    ensures kept.Some? ==> WfItem(kept.value)
    ensures 1 <= step && i + step <= ENTRIES_PER_PAGE
    ensures extra2 >= extra && (extra2 == 0 ==> Advance(kept, step) == step)
    ensures Progress(c, s0, p2, acc2, i + Advance(kept, step), extra2,
                     bi0, NoteBlob(bi, p.sequence, i, kept), ns0, NoteNamespace(nss, kept))
  {
    hide ScanFrom, HashList, Spans, RepairStep, NoteAll, NamespacesOf, Marks, Ordered, Note;
    var s := s0.(emap := p.emap);
    WalkCounts(c, s, p, p2, i, kept, step, extra);
    acc2, extra2 := acc, extra;
    if kept.Some? && kept.value.ns == 0 && step > 1 {
      extra2 := extra + step - 1;
      StepMap(c, s, i, step);
      KeptFilled(c, s, i, kept, step);
      BlanksNone(p2.emap, i + 1, i + step);
      if extra == 0 { WideFound(c, s0, p, acc, i, kept.value); }
    } else if extra == 0 {
      WalkStep(c, s0, p, p2, acc, i, kept, step);
      if kept.Some? {
        var loc := Loc(i, RecAt(c, s0, i));
        acc2 := acc + [loc];
        NoteAllSnoc(bi0, p.sequence, acc, loc);
        NamespacesSnoc(ns0, acc, loc);
        NoteNone(bi, p.sequence, i, kept.value);
      }
    }
  }

  lemma NoteNone(bi: BlobIndexMap, sequence: nat, i: nat, it: Item)
    requires WfItem(it)
    ensures it.ns == 0 ==> Note(bi, sequence, i, it) == bi
  {}

  lemma KeptFilled(c: Codec, s: Sector, i: nat, kept: Option<Item>, step: nat)
    requires Shape(s) && i < ENTRIES_PER_PAGE && Judge(c, s, i).Keep? && step == Judge(c, s, i).rec.item.span
    ensures forall j | i <= j < i + step :: RepairStep(c, s, i)[j] != Empty
  {}

  /** The scan loop. */
  method ScanEntries(h: Hal, p: ThinPage, bi: BlobIndexMap, nss: map<Key, nat>)
    returns (h2: Hal, p2: ThinPage, bi2: BlobIndexMap, nss2: map<Key, nat>, ok: bool, ghost acc: seq<Loc>,
             ghost extra: nat)
    requires HalOk(h) && p.addr < |h.sectors| && p.emap == h.sectors[p.addr].emap
    requires p.hashes == [] && p.used == 0 && p.erased == 0
    ensures HalOk(h2) && |p2.emap| == MAP_SIZE
    ensures Moved(h, h2, p.addr, h.sectors[p.addr].(emap := p2.emap))
    ensures p2.addr == p.addr && p2.state == p.state && p2.sequence == p.sequence
    ensures Recoverable(h.codec, h.sectors[p.addr]) ==> SameScan(h.codec, h.sectors[p.addr], h2.sectors[p.addr])
    ensures Recoverable(h.codec, h.sectors[p.addr]) && Dense(h.codec, h.sectors[p.addr]) ==>
              Dense(h.codec, h2.sectors[p.addr])
    ensures !ok ==> h2.budget == Some(0)
    ensures ok ==> Progress(h.codec, h.sectors[p.addr], p2, acc, ENTRIES_PER_PAGE, extra, bi, bi2, nss, nss2)
    ensures ok && Recoverable(h.codec, h.sectors[p.addr]) ==> exists m: nat :: Cleaned(h.codec, h2.sectors[p.addr], m)
  {
    hide ScanFrom, Judge, RepairStep, HashList, Spans, Tidy, Sound, SoundProgress, NoteAll, NamespacesOf, SameScan,
         Progress, Cleaned, Dense;
    var c, a := h.codec, p.addr;
    ghost var s0 := h.sectors[a];
    ghost var live := Recoverable(c, s0);
    h2, p2, bi2, nss2, ok, acc, extra := h, p, bi, nss, true, [], 0;
    var i := 0;
    StartProgress(c, s0, p, bi, nss);
    if live { SoundStart(c, s0); }
    assert s0.(emap := p.emap) == s0 && h.sectors[a := s0] == h.sectors;
    while i < ENTRIES_PER_PAGE
      invariant HalOk(h2) && i <= ENTRIES_PER_PAGE && ok && |p2.emap| == MAP_SIZE
      invariant p2.addr == a && p2.state == p.state && p2.sequence == p.sequence
      invariant Moved(h, h2, a, s0.(emap := p2.emap))
      invariant Progress(c, s0, p2, acc, i, extra, bi, bi2, nss, nss2)
      invariant live ==> extra == 0 && SoundProgress(c, s0, p2.emap, i)
    {
      var h3, p3, kept, step, ok3 := SettleEntry(h2, p2, i);
      if !ok3 {
        if live { SoundProgressScan(c, s0, p2.emap, i); }
        ok := false;
        h2 := h3;
        return;
      }
      if kept.Some? && kept.value.ns != 0 {
        p3 := p3.(hashes := p3.hashes + [HashEntry(ItemHash(c, kept.value), i)]);
      }
      assert p3.hashes == p2.hashes +
             (if kept.Some? && kept.value.ns != 0 then [HashEntry(ItemHash(c, kept.value), i)] else []);
      acc, extra := TakeStep(c, s0, p2, p3, acc, i, extra, bi, bi2, nss, nss2, kept, step);
      if live {
        ProgressNarrow(c, s0, p3, acc, i + Advance(kept, step), extra, bi, NoteBlob(bi2, p.sequence, i, kept), nss,
                       NoteNamespace(nss2, kept));
        StepJudge(c, s0.(emap := p2.emap), p2, p3, i, kept, step);
        SoundProgressStep(c, s0, p2.emap, i, step);
      }
      bi2, nss2 := NoteBlob(bi2, p.sequence, i, kept), NoteNamespace(nss2, kept);
      h2, p2, i := h3, p3, i + Advance(kept, step);
    }
    if live { SoundProgressScan(c, s0, p2.emap, i); }
  }

  lemma ProgressNarrow(c: Codec, s0: Sector, p: ThinPage, acc: seq<Loc>, i: nat, extra: nat, bi0: BlobIndexMap,
                       bi: BlobIndexMap, ns0: map<Key, nat>, nss: map<Key, nat>)
    requires Progress(c, s0, p, acc, i, extra, bi0, bi, ns0, nss) && Narrow(ScanFrom(c, s0, 0))
    ensures extra == 0
  {}

  lemma StepJudge(c: Codec, s: Sector, p: ThinPage, p2: ThinPage, i: nat, kept: Option<Item>, step: nat)
    requires Shape(s) && i < ENTRIES_PER_PAGE && StepCounts(c, s, p, p2, i, kept, step)
    ensures step == (match Judge(c, s, i) case Keep(r) => r.item.span case Drop(k) => k)
  {}

  /** Nothing is marked Empty before the last entry in use. */
  ghost predicate Gapless(m: seq<EntryState>, n: nat) {
    && |m| == MAP_SIZE && n <= ENTRIES_PER_PAGE
    && (forall j | 0 <= j < n :: m[j] != Empty)
    && (forall j | n <= j < ENTRIES_PER_PAGE :: m[j] == Empty)
  }

  lemma {:induction false} BlanksAll(m: seq<EntryState>, n: nat, k: nat)
    requires n <= k <= |m| && forall j | n <= j < k :: m[j] == Empty
    ensures Blanks(m, k) == Blanks(m, n) + k - n
    decreases k
  {
    if n < k { BlanksAll(m, n, k - 1); }
  }

  ghost predicate GapsFilled(m: seq<EntryState>, m2: seq<EntryState>, n: nat)
    requires |m| == MAP_SIZE == |m2|
  {
    forall j | 0 <= j < MAP_SIZE :: m2[j] == if j < n && m[j] == Empty then Erased else m[j]
  }

  lemma GapsStart(m: seq<EntryState>)
    requires |m| == MAP_SIZE
    ensures GapsFilled(m, m, 0)
  {}

  lemma GapFilled(m: seq<EntryState>, m2: seq<EntryState>, i: nat)
    requires |m| == MAP_SIZE == |m2| && i < MAP_SIZE && GapsFilled(m, m2, i)
    ensures m2[i] == m[i] && GapsFilled(m, m2[i := if m[i] == Empty then Erased else m[i]], i + 1)
    ensures m[i] != Empty ==> GapsFilled(m, m2, i + 1)
  {}

  lemma NoGaps(m: seq<EntryState>, m2: seq<EntryState>, n: nat)
    requires |m| == MAP_SIZE == |m2| && n <= ENTRIES_PER_PAGE && GapsFilled(m, m2, n)
    requires forall j | n <= j < ENTRIES_PER_PAGE :: m[j] == Empty
    ensures Gapless(m2, n)
  {}

  /** Blank entries before the last one in use are marked erased, so that the counters match the
      positions of the entries again. */
  method FillGaps(h: Hal, p: ThinPage, ghost extra: nat)
    returns (h2: Hal, p2: ThinPage, ok: bool, ghost n: nat)
    requires HalOk(h) && p.addr < |h.sectors| && p.emap == h.sectors[p.addr].emap
    requires p.used + p.erased + Blanks(p.emap, ENTRIES_PER_PAGE) == ENTRIES_PER_PAGE + extra
    ensures HalOk(h2) && |p2.emap| == MAP_SIZE
    ensures Moved(h, h2, p.addr, h.sectors[p.addr].(emap := p2.emap))
    ensures !ok ==> h2.budget == Some(0)
    ensures p2 == p.(emap := p2.emap, erased := p2.erased)
    ensures ok ==> Gapless(p2.emap, n) && p2.used + p2.erased == n + extra
    ensures ok ==> forall j | n <= j < ENTRIES_PER_PAGE :: p.emap[j] == Empty
    ensures ok && n > 0 ==> p.emap[n - 1] != Empty
    ensures ok ==> |p.emap| == MAP_SIZE && GapsFilled(p.emap, p2.emap, n)
    ensures forall m | Gapless(p.emap, m) :: ok && p2 == p && n == m && h2 == h
  {
    hide RangeSet, RangeProgrammed, GapsFilled;
    n := ENTRIES_PER_PAGE;
    var used: nat := ENTRIES_PER_PAGE;
    h2, p2, ok := h, p, true;
    ghost var s0 := h.sectors[p.addr];
    assert s0.(emap := p.emap) == s0 && h.sectors[p.addr := s0] == h.sectors;
    GapsStart(p.emap);
    while used > 0 && p.emap[used - 1] == Empty
      invariant used <= ENTRIES_PER_PAGE
      invariant forall j | used <= j < ENTRIES_PER_PAGE :: p.emap[j] == Empty
    {
      used := used - 1;
    }
    n := used;
    BlanksAll(p.emap, used, ENTRIES_PER_PAGE);
    BlanksSame(p.emap, p.emap, used);
    var i := 0;
    while i < used
      invariant i <= used && HalOk(h2) && ok && |p2.emap| == MAP_SIZE
      invariant p2 == p.(emap := p2.emap, erased := p2.erased)
      invariant Moved(h, h2, p.addr, s0.(emap := p2.emap))
      invariant GapsFilled(p.emap, p2.emap, i)
      invariant p2.erased == p.erased + Blanks(p.emap, i)
      invariant (forall j | 0 <= j < used :: p.emap[j] != Empty) ==> p2 == p && h2 == h
    {
      GapFilled(p.emap, p2.emap, i);
      if p2.emap[i] == Empty {
        var h3, p3, ok3 := SetEntryStateRange(h2, p2, i, i + 1, Erased);
        if !ok3 {
          ok := false;
          assert p.emap[i] == Empty && p.emap[used - 1] != Empty;
          return;
        }
        SetOne(p2.emap, i);
        h2, p2 := h3, p3.(erased := p2.erased + 1);
      }
      i := i + 1;
    }
    NoGaps(p.emap, p2.emap, used);
    forall m | Gapless(p.emap, m) ensures m == used {
      if used > 0 { assert p.emap[used - 1] != Empty; }
      if m > 0 { assert p.emap[m - 1] != Empty; }
    }
  }

  lemma SetOne(m: seq<EntryState>, i: nat)
    requires |m| == MAP_SIZE && i < ENTRIES_PER_PAGE && m[i] == Empty
    ensures RangeSet(m, i, i + 1, Erased) == m[i := Erased]
  {}

  datatype LoadPageResult = EmptyPage(page: ThinPage) | UsedPage(page: ThinPage)

  predicate InUse(s: Sector) {
    s.header.Some? && s.header.value.valid && s.header.value.state in {Active, Full, Freeing}
  }

  /** What the scan promises about a used page, whatever the sector held: with namespace entries of
      one entry each, used + erased is exactly the frontier between entries in use and blank ones,
      and the hash list is that of the items the scan keeps; with a wider namespace entry, the
      counters miss the frontier. The repair lasts, that is, the next scan finds the same items and
      nothing to repair, exactly if the entries of every item kept could be programmed to Written:
      bits cannot be set again. */
  ghost predicate ScannedPage(c: Codec, s0: Sector, s: Sector, p: ThinPage) {
    && Shape(s0) && Shape(s) && s == s0.(emap := p.emap)
    && (exists n: nat :: Gapless(p.emap, n) && (NextFree(p) == n <==> Narrow(ScanFrom(c, s0, 0))))
    && (Narrow(ScanFrom(c, s0, 0)) ==>
          && NextFree(p) <= ENTRIES_PER_PAGE
          && Gapless(p.emap, NextFree(p)) && BlankFrom(s, NextFree(p))
          && p.hashes == HashList(c, ScanFrom(c, s0, 0)) && p.used == Spans(ScanFrom(c, s0, 0))
          && (Markable(c, s0) <==> BodyOk(c, p, s) && ScanFrom(c, s, 0) == ScanFrom(c, s0, 0)))
  }

  /** The page of a sector that is not in use: what its state is, and that behind a corrupt header it
      has the entry map found on flash. */
  ghost predicate Unused(s: Sector, a: nat, p: ThinPage) {
    && p == UninitializedPage(a).(state := p.state, sequence := p.sequence, emap := p.emap)
    && (p.state == Uninitialized <==> s == ErasedSector())
    && (s.header.None? ==>
         p.state in {Uninitialized, Corrupt} && p.emap == seq(MAP_SIZE, i => Empty) && p.sequence == 0)
    && (s.header.Some? ==>
         p.emap == s.emap && p.state == (if s.header.value.state == Invalid then Invalid else Corrupt))
  }

  /** init.rs, load_sector. */
  method LoadSector(h: Hal, a: nat, bi: BlobIndexMap, nss: map<Key, nat>)
    returns (h2: Hal, r: Result<LoadPageResult>, bi2: BlobIndexMap, nss2: map<Key, nat>)
    requires HalOk(h) && a < |h.sectors|
    ensures HalOk(h2) && Touched(h, h2, a)
    ensures r.Err? ==> r == Err(FlashError) && h2.budget == Some(0) && InUse(h.sectors[a])
    ensures r.Ok? ==> (r.value.UsedPage? <==> InUse(h.sectors[a])) && r.value.page.addr == a
    ensures r.Ok? && r.value.EmptyPage? ==> h2 == h && bi2 == bi && nss2 == nss && r.value.page.hashes == []
    ensures r.Ok? && r.value.EmptyPage? ==> Unused(h.sectors[a], a, r.value.page)
    ensures r.Ok? && r.value.UsedPage? ==>
              && ScannedPage(h.codec, h.sectors[a], h2.sectors[a], r.value.page)
              && h.sectors[a].header == Some(Header(r.value.page.state, r.value.page.sequence, true))
    ensures r.Ok? && r.value.UsedPage? && Narrow(ScanFrom(h.codec, h.sectors[a], 0)) ==>
              && WfLocs(ScanFrom(h.codec, h.sectors[a], 0))
              && bi2 == NoteAll(bi, r.value.page.sequence, ScanFrom(h.codec, h.sectors[a], 0))
              && nss2 == NamespacesOf(nss, ScanFrom(h.codec, h.sectors[a], 0))
    ensures InUse(h.sectors[a]) && Recoverable(h.codec, h.sectors[a]) && Dense(h.codec, h.sectors[a]) ==>
              Dense(h.codec, h2.sectors[a])
    ensures InUse(h.sectors[a]) && Recoverable(h.codec, h.sectors[a]) ==>
              && SameScan(h.codec, h.sectors[a], h2.sectors[a])
              && (r.Ok? ==> PageOk(h.codec, r.value.page, h2.sectors[a]))
  {
    hide ScanFrom, HashList, Spans, Tidy, Progress, NoteAll, NamespacesOf, ErasedSector, Sound, Gapless, BlankFrom,
         Dense;
    var c := h.codec;
    var s := h.sectors[a];
    h2, bi2, nss2 := h, bi, nss;
    if s.header.None? {
      ErasedIs(s);
      var blank := s == ErasedSector();
      r := Ok(EmptyPage(if blank then UninitializedPage(a) else UninitializedPage(a).(state := Corrupt)));
      return;
    }
    ErasedIs(s);
    var hdr := s.header.value;
    var p := ThinPage(a, hdr.state, hdr.sequence, s.emap, [], 0, 0);
    if hdr.state == Corrupt || hdr.state == Invalid {
      r := Ok(EmptyPage(p));
      return;
    }
    if hdr.state == Uninitialized || !hdr.valid {
      r := Ok(EmptyPage(p.(state := Corrupt)));
      return;
    }
    var ok;
    ghost var acc, extra, n;
    h2, p, bi2, nss2, ok, acc, extra := ScanEntries(h, p, bi, nss);
    if !ok { r := Err(FlashError); return; }
    ProgressCounts(c, s, p, acc, extra, bi, bi2, nss, nss2);
    ghost var h1, p1 := h2, p;
    h2, p, ok, n := FillGaps(h2, p, extra);
    if Recoverable(c, s) { CleanGapless(c, h1.sectors[a], p1.emap); }
    if !ok { r := Err(FlashError); return; }
    assert h2.sectors[a] == s.(emap := p.emap);
    Scanned(c, s, p1, p, acc, extra, n, bi, bi2, nss, nss2);
    if Recoverable(c, s) { ScannedSound(c, s, h2.sectors[a], p, n); }
    r := Ok(UsedPage(p));
  }

  lemma ErasedIs(s: Sector)
    ensures s == ErasedSector() ==> s.header.None?
  {}

  lemma ProgressCounts(c: Codec, s0: Sector, p: ThinPage, acc: seq<Loc>, extra: nat, bi0: BlobIndexMap,
                       bi: BlobIndexMap, ns0: map<Key, nat>, nss: map<Key, nat>)
    requires Progress(c, s0, p, acc, ENTRIES_PER_PAGE, extra, bi0, bi, ns0, nss)
    ensures |p.emap| == MAP_SIZE
    ensures p.used + p.erased + Blanks(p.emap, ENTRIES_PER_PAGE) == ENTRIES_PER_PAGE + extra
  {}

  /** A clean page has no gap to fill. */
  lemma CleanGapless(c: Codec, s: Sector, emap: seq<EntryState>)
    requires s.emap == emap && exists m: nat :: Cleaned(c, s, m)
    ensures exists m: nat :: Gapless(emap, m)
  {
    hide Tidy;
    var m: nat :| Cleaned(c, s, m);
    TidyFilled(c, s, 0, m);
    assert Gapless(emap, m);
  }

  lemma {:induction false} TidyFilled(c: Codec, s: Sector, i: nat, n: nat)
    requires Shape(s) && n <= ENTRIES_PER_PAGE && Tidy(c, s, i, n)
    ensures forall j | i <= j < n :: s.emap[j] != Empty
    decreases ENTRIES_PER_PAGE - i
  {
    hide Tidy;
    if i < n {
      TidyStep(c, s, i, n);
      TidyFilled(c, s, i + Width(c, s, i, n), n);
    }
  }

  /** The repaired sector, scanned again. */
  lemma Rescanned(c: Codec, s0: Sector, m1: seq<EntryState>, s: Sector, acc: seq<Loc>, n: nat)
    requires Marks(s0, m1, acc, ENTRIES_PER_PAGE) && acc == ScanFrom(c, s0, 0) && n <= ENTRIES_PER_PAGE
    requires Shape(s) && s == s0.(emap := s.emap) && GapsFilled(m1, s.emap, n) && BlankFrom(s, n)
    requires forall j | n <= j < ENTRIES_PER_PAGE :: m1[j] == Empty
    ensures Markable(c, s0) <==> Tidy(c, s, 0, n) && ScanFrom(c, s, 0) == acc
  {
    hide ScanFrom, Tidy, Judge;
    if Markable(c, s0) {
      forall x: nat, e: nat | e < MAP_SIZE && CoversAt(acc, x, e) ensures m1[e] == Written && s.emap[e] == Written {}
      forall x | 0 <= x < |acc| ensures acc[x].index + acc[x].rec.item.span <= n {
        assert CoversAt(acc, x, acc[x].index + acc[x].rec.item.span - 1);
      }
      ScanGrounded(c, s0, 0);
      forall x | 0 <= x < |acc| ensures Grounding(c, s, acc[x]) { GroundingSame(c, s0, s, acc, x); }
      RescanFrom(c, s, acc, 0, 0, n);
      assert acc[0..] == acc;
    } else if Tidy(c, s, 0, n) && ScanFrom(c, s, 0) == acc {
      ScanWritten(c, s, 0, n);
      forall x: nat, e: nat | e < MAP_SIZE && CoversAt(acc, x, e) ensures s0.emap[e] in {Empty, Written} {
        assert s.emap[e] == Written;
      }
    }
  }

  /** Whatever a power cut leaves can be repaired for good. */
  lemma SoundMarkable(c: Codec, s: Sector)
    requires Sound(c, s)
    ensures Shape(s) && Markable(c, s)
  {
    hide ScanFrom, Tidy, Judge;
    var n: nat, m: nat :| SoundAt(c, s, n, m);
    var t := s.(body := seq(BODY_SIZE, b requires 0 <= b < BODY_SIZE => if b < 32 * n then s.body[b] else 0xFF));
    BelowSame(c, s, t, 0, n);
    ScanWritten(c, t, 0, n);
    ScanSplit(c, t, s, 0, n);
    ScanOrdered(c, s, n);
    var x0 := ScanFrom(c, t, 0);
    forall x: nat, e: nat | e < MAP_SIZE && CoversAt(ScanFrom(c, s, 0), x, e) ensures s.emap[e] in {Empty, Written} {
      if x < |x0| { assert t.emap[e] == Written; }
      else { assert CoversAt(ScanFrom(c, s, n), x - |x0|, e); }
    }
  }

  ghost predicate Grounding(c: Codec, s: Sector, loc: Loc)
    requires Shape(s)
  {
    Fits(loc.rec.item, loc.index) && c.parse(Entry(s, loc.index)) == Some(loc.rec.item) &&
    loc.rec == RecAt(c, s, loc.index)
  }

  lemma GroundingSame(c: Codec, s0: Sector, s: Sector, acc: seq<Loc>, x: nat)
    requires Shape(s0) && Shape(s) && s.body == s0.body && Grounded(c, s0, acc) && x < |acc|
    ensures Grounding(c, s, acc[x])
  {
    var i := acc[x].index;
    assert Entry(s, i) == Entry(s0, i);
    assert Entries(s, i, acc[x].rec.item.span) == Entries(s0, i, acc[x].rec.item.span);
  }

  lemma {:induction false} RescanFrom(c: Codec, s: Sector, acc: seq<Loc>, x: nat, i: nat, n: nat)
    requires Shape(s) && x <= |acc| && i <= n <= ENTRIES_PER_PAGE && BlankFrom(s, n) && Ordered(acc, 0, n)
    requires forall y | x <= y < |acc| :: i <= acc[y].index
    requires forall y | 0 <= y < |acc| :: Grounding(c, s, acc[y])
    requires forall y: nat, e: nat | e < MAP_SIZE && CoversAt(acc, y, e) :: s.emap[e] == Written
    requires forall j: nat | j < n && s.emap[j] == Written :: Covered(acc, j)
    requires forall j: nat | j < n :: s.emap[j] != Empty
    requires forall y | 0 <= y < x :: acc[y].index + acc[y].rec.item.span <= i
    ensures Tidy(c, s, i, n) && ScanFrom(c, s, i) == acc[x..]
    decreases n - i
  {
    hide ScanFrom, Tidy, Grounding;
    if i == n {
      ScanBlank(c, s, n);
      TidyEnd(c, s, i, n);
    } else if x < |acc| && acc[x].index == i {
      var span := acc[x].rec.item.span;
      ItemSettled(c, s, acc, x, n);
      ScanStep(c, s, i, n);
      TidyStep(c, s, i, n);
      RescanFrom(c, s, acc, x + 1, i + span, n);
      assert acc[x..] == [acc[x]] + acc[x + 1..];
    } else {
      Uncovered(acc, x, i, n);
      assert Settled(c, s, i, n) && Width(c, s, i, n) == 1 && StepLocs(c, s, i, n) == [];
      ScanStep(c, s, i, n);
      TidyStep(c, s, i, n);
      RescanFrom(c, s, acc, x, i + 1, n);
      assert [] + acc[x..] == acc[x..];
    }
  }

  lemma Uncovered(acc: seq<Loc>, x: nat, i: nat, n: nat)
    requires x <= |acc| && Ordered(acc, 0, n)
    requires forall y | x <= y < |acc| :: i <= acc[y].index
    requires forall y | 0 <= y < x :: acc[y].index + acc[y].rec.item.span <= i
    requires x < |acc| ==> acc[x].index != i
    ensures !Covered(acc, i)
  {
    forall y: nat ensures !CoversAt(acc, y, i) {
      if x < y < |acc| { assert acc[x].index + acc[x].rec.item.span <= acc[y].index; }
    }
  }

  lemma ItemSettled(c: Codec, s: Sector, acc: seq<Loc>, x: nat, n: nat)
    requires Shape(s) && n <= ENTRIES_PER_PAGE && x < |acc| && Ordered(acc, 0, n) && Grounding(c, s, acc[x])
    requires forall e: nat | e < MAP_SIZE && CoversAt(acc, x, e) :: s.emap[e] == Written
    ensures Settled(c, s, acc[x].index, n) && Width(c, s, acc[x].index, n) == acc[x].rec.item.span
    ensures StepLocs(c, s, acc[x].index, n) == [acc[x]]
  {
    var i, span := acc[x].index, acc[x].rec.item.span;
    forall j | i <= j < i + span ensures s.emap[j] == Written { assert CoversAt(acc, x, j); }
  }

  lemma Scanned(c: Codec, s0: Sector, p1: ThinPage, p: ThinPage, acc: seq<Loc>, extra: nat, n: nat, bi0: BlobIndexMap,
                bi: BlobIndexMap, ns0: map<Key, nat>, nss: map<Key, nat>)
    requires Progress(c, s0, p1, acc, ENTRIES_PER_PAGE, extra, bi0, bi, ns0, nss)
    requires p == p1.(emap := p.emap, erased := p.erased)
    requires Gapless(p.emap, n) && p.used + p.erased == n + extra
    requires forall j | n <= j < ENTRIES_PER_PAGE :: p1.emap[j] == Empty
    requires |p1.emap| == MAP_SIZE && GapsFilled(p1.emap, p.emap, n)
    ensures ScannedPage(c, s0, s0.(emap := p.emap), p)
    ensures Narrow(ScanFrom(c, s0, 0)) ==>
              && WfLocs(ScanFrom(c, s0, 0))
              && bi == NoteAll(bi0, p.sequence, ScanFrom(c, s0, 0)) && nss == NamespacesOf(ns0, ScanFrom(c, s0, 0))
  {
    hide HashList, Spans, NoteAll, NamespacesOf, Tidy, Marks, Markable, GapsFilled;
    assert extra > 0 ==> !Narrow(ScanFrom(c, s0, 0));
    if extra == 0 {
      assert ScanFrom(c, s0, ENTRIES_PER_PAGE) == [];
      assert acc + [] == acc;
      hide ScanFrom;
      forall b | 32 * n <= b < BODY_SIZE ensures s0.body[b] == 0xFF {
        assert BlankEntry(s0, b / 32);
      }
      Rescanned(c, s0, p1.emap, s0.(emap := p.emap), acc, n);
    }
  }

  lemma ScannedSound(c: Codec, s0: Sector, s: Sector, p: ThinPage, n: nat)
    requires Shape(s0) && Shape(s)
    requires Recoverable(c, s0) && SameScan(c, s0, s) && ScannedPage(c, s0, s, p) && (exists m: nat :: Cleaned(c, s, m))
    ensures BodyOk(c, p, s)
  {
    hide ScanFrom, HashList, Spans, Tidy;
    var m: nat :| Cleaned(c, s, m);
    TidyFilled(c, s, 0, m);
    GaplessUnique(s.emap, NextFree(p), m);
  }

  function StateAt(m: seq<EntryState>, j: nat): EntryState { if j < |m| then m[j] else Illegal }

  lemma GaplessUnique(m: seq<EntryState>, n: nat, k: nat)
    requires Gapless(m, n) && Gapless(m, k)
    ensures n == k
  {
    var x, y := StateAt(m, n), StateAt(m, k);
    assert n < ENTRIES_PER_PAGE ==> x == Empty;
    assert k < ENTRIES_PER_PAGE ==> y == Empty;
  }
}
