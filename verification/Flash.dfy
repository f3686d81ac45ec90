/** The flash as the engine sees it: sectors, and a budget of operations.

    Every write and every erase is one operation. As in the repository's fault injection
    (tests/common.rs), an operation past the budget fails, changes nothing, and so does every
    operation after it: that is a power cut between two operations. Without a budget the power
    lasts. Reads do not fail. */
module Flash {
  import opened Types
  import opened Sectors
  import opened Platform

  /** `ws` is the write size of the platform. */
  datatype Hal = Hal(sectors: seq<Sector>, budget: Option<nat>, ws: nat, codec: Codec)

  ghost predicate HalOk(h: Hal) {
    && CodecOk(h.codec)
    && WriteSize(h.ws)
    && forall a | 0 <= a < |h.sectors| :: Shape(h.sectors[a])
  }

  /** Power that lasts goes on to last, and power that does not is not regained. */
  predicate Drained(b: Option<nat>, b2: Option<nat>) {
    if b.None? then b2.None? else b2.Some? && b2.value <= b.value
  }

  /** `h2` is `h` with sector `a` replaced and no more budget than before. */
  ghost predicate Moved(h: Hal, h2: Hal, a: nat, s: Sector) {
    && a < |h.sectors|
    && h2.sectors == h.sectors[a := s]
    && Drained(h.budget, h2.budget) && h2.ws == h.ws && h2.codec == h.codec
  }

  /** Only sector `a` may differ. */
  ghost predicate Touched(h: Hal, h2: Hal, a: nat) {
    && a < |h.sectors| && |h2.sectors| == |h.sectors|
    && Moved(h, h2, a, h2.sectors[a])
  }

  /** The same partition on the same platform. */
  ghost predicate SamePart(h: Hal, h2: Hal) { h2.codec == h.codec && h2.ws == h.ws && |h2.sectors| == |h.sectors| }

  /** The same, and later: operations may have been spent. */
  ghost predicate Later(h: Hal, h2: Hal) { SamePart(h, h2) && Drained(h.budget, h2.budget) }

  lemma LaterRefl(h: Hal)
    ensures Later(h, h)
  {}

  lemma LaterBy(h0: Hal, h1: Hal, h2: Hal)
    requires Later(h0, h1) && Later(h1, h2)
    ensures Later(h0, h2)
  {}

  /** One operation on sector `a`: it happens, or the budget is spent and nothing does. */
  ghost predicate Stepped(h: Hal, h2: Hal, ok: bool, a: nat, s: Sector) {
    if ok then Moved(h, h2, a, s) else h2 == h && h.budget == Some(0)
  }

  method Put(h: Hal, a: nat, s: Sector) returns (h2: Hal, ok: bool)
    requires a < |h.sectors|
    ensures Stepped(h, h2, ok, a, s)
    ensures ok <==> h.budget != Some(0)
    ensures ok ==> if h.budget.None? then h2.budget == None else h2.budget == Some(h.budget.value - 1)
  {
    if h.budget == Some(0) { return h, false; }
    h2 := h.(sectors := h.sectors[a := s], budget := Less(h.budget));
    ok := true;
  }

  /** The budget after one operation. */
  function Less(b: Option<nat>): Option<nat> { if b.Some? && b.value > 0 then Some(b.value - 1) else b }

  function AndHeader(prev: Option<Header>, hdr: Header): Header {
    match prev
    case None => hdr
    case Some(o) => Header(AndPageState(o.state, hdr.state), Min(o.sequence, hdr.sequence), false)
  }

  function AndHeaderState(prev: Option<Header>, state: PageState): Header {
    match prev
    case None => Header(state, 0xFFFF_FFFF, false)
    case Some(o) => o.(state := AndPageState(o.state, state))
  }

  function WithState(s: Sector, state: PageState): Sector {
    s.(header := Some(AndHeaderState(s.header, state)))
  }

  /** Programs `states` over the entry map from entry `lo` on. */
  function ProgramMap(s: Sector, lo: nat, states: seq<EntryState>): (t: Sector)
    requires Shape(s) && lo + |states| <= MAP_SIZE
    ensures Shape(t) && t.header == s.header && t.body == s.body
  {
    s.(emap := seq(MAP_SIZE, j requires 0 <= j < MAP_SIZE =>
      if lo <= j < lo + |states| then AndState(s.emap[j], states[j - lo]) else s.emap[j]))
  }

  /** Programs `bytes` over the entries from byte `off` on. */
  function ProgramBytes(s: Sector, off: nat, bytes: seq<byte>): (t: Sector)
    requires Shape(s) && off + |bytes| <= BODY_SIZE
    ensures Shape(t) && t.header == s.header && t.emap == s.emap
  {
    s.(body := seq(BODY_SIZE, b requires 0 <= b < BODY_SIZE =>
      if off <= b < off + |bytes| then s.body[b] & bytes[b - off] else s.body[b]))
  }

  lemma AndOnes(x: byte)
    ensures x & 0xFF == x && 0xFF & x == x
  {}

  /** On blank bytes, programming stores exactly the bytes given. */
  lemma ProgramOnBlank(s: Sector, off: nat, bytes: seq<byte>)
    requires Shape(s) && off + |bytes| <= BODY_SIZE
    requires forall b | off <= b < off + |bytes| :: s.body[b] == 0xFF
    ensures ProgramBytes(s, off, bytes).body[off .. off + |bytes|] == bytes
    ensures forall b | 0 <= b < BODY_SIZE && !(off <= b < off + |bytes|) ::
              ProgramBytes(s, off, bytes).body[b] == s.body[b]
  {
    forall b | off <= b < off + |bytes|
      ensures ProgramBytes(s, off, bytes).body[b] == bytes[b - off]
    {
      AndOnes(bytes[b - off]);
    }
  }

  lemma ProgramTwice(s: Sector, off: nat, x: seq<byte>, y: seq<byte>)
    requires Shape(s) && off + |x| + |y| <= BODY_SIZE
    ensures ProgramBytes(ProgramBytes(s, off, x), off + |x|, y) == ProgramBytes(s, off, x + y)
  {
    assert ProgramBytes(ProgramBytes(s, off, x), off + |x|, y).body == ProgramBytes(s, off, x + y).body;
  }

  lemma ProgramOnes(s: Sector, off: nat, x: seq<byte>, y: seq<byte>)
    requires Shape(s) && off + |x| + |y| <= BODY_SIZE
    requires forall j | 0 <= j < |y| :: y[j] == 0xFF
    ensures ProgramBytes(s, off, x + y) == ProgramBytes(s, off, x)
  {
    forall b | 0 <= b < BODY_SIZE
      ensures ProgramBytes(s, off, x + y).body[b] == ProgramBytes(s, off, x).body[b]
    {
      AndOnes(s.body[b]);
    }
    assert ProgramBytes(s, off, x + y).body == ProgramBytes(s, off, x).body;
  }

  function Ones(n: nat): seq<byte> { seq(n, i => 0xFF) }

  /** The write sizes that divide an entry; a larger one would program neighbouring entries. */
  predicate WriteSize(ws: nat) { ws in {1, 2, 4, 8, 16, 32} }

  lemma PivotBounds(len: nat, ws: nat)
    requires WriteSize(ws)
    ensures len / ws * ws <= len < len / ws * ws + ws && len / ws * ws % ws == 0
  {
    if ws == 1 {} else if ws == 2 {} else if ws == 4 {} else if ws == 8 {} else if ws == 16 {} else {}
  }

  /** The length rounded down to whole write units. */
  function Pivot(len: nat, ws: nat): (p: nat)
    requires WriteSize(ws)
    ensures p <= len < p + ws && p % ws == 0
  {
    PivotBounds(len, ws);
    AlignFloor(len, ws)
  }

  lemma ProgramNothing(s: Sector, off: nat)
    requires Shape(s) && off <= BODY_SIZE
    ensures ProgramBytes(s, off, []) == s
  {
    assert ProgramBytes(s, off, []).body == s.body;
  }

  /** The remainder, padded to a whole write unit, stores the same as the remainder alone. */
  lemma ProgramTail(s: Sector, off: nat, head: seq<byte>, tail: seq<byte>, ws: nat)
    requires Shape(s) && WriteSize(ws) && off % 32 == 0 && |head| % ws == 0 && 0 < |tail| < ws
    requires off + |head| + |tail| <= BODY_SIZE
    ensures off + |head| + ws <= BODY_SIZE
    ensures ProgramBytes(ProgramBytes(s, off, head), off + |head|, tail + Ones(ws - |tail|))
         == ProgramBytes(s, off, head + tail)
  {
    Padding(off, |head|, |head| + |tail|, ws);
    ProgramOnes(ProgramBytes(s, off, head), off + |head|, tail, Ones(ws - |tail|));
    ProgramTwice(s, off, head, tail);
  }

  /** raw.rs, write_aligned: whole write units first, then the padded remainder unless it is all
      ones. Both together program just the bytes given. */
  method WriteAligned(h: Hal, a: nat, off: nat, bytes: seq<byte>) returns (h2: Hal, ok: bool)
    requires HalOk(h) && a < |h.sectors| && off + |bytes| <= BODY_SIZE && off % 32 == 0
    ensures HalOk(h2)
    ensures ok ==> Moved(h, h2, a, ProgramBytes(h.sectors[a], off, bytes))
    ensures !ok ==> h2.budget == Some(0)
    ensures !ok ==> h2 == h || Moved(h, h2, a, ProgramBytes(h.sectors[a], off, bytes[..Pivot(|bytes|, h.ws)]))
    ensures |bytes| % h.ws == 0 && !ok ==> h2 == h
  {
    hide ProgramBytes;
    var s := h.sectors[a];
    if |bytes| % h.ws == 0 {
      h2, ok := Put(h, a, ProgramBytes(s, off, bytes));
      return;
    }
    var pivot := Pivot(|bytes|, h.ws);
    var head, tail := bytes[..pivot], bytes[pivot..];
    assert head + tail == bytes;
    h2 := h;
    if head != [] {
      h2, ok := Put(h, a, ProgramBytes(s, off, head));
      if !ok { return; }
    } else {
      ProgramNothing(s, off);
    }
    assert h2.sectors == h.sectors[a := ProgramBytes(s, off, head)];
    if exists j :: 0 <= j < |tail| && tail[j] != 0xFF {
      ProgramTail(s, off, head, tail, h.ws);
      h2, ok := Put(h2, a, ProgramBytes(h2.sectors[a], off + pivot, tail + Ones(h.ws - |tail|)));
    } else {
      ProgramOnes(s, off, head, tail);
      ok := true;
    }
  }

  /** The padded remainder stays inside the entry it starts in, so inside the sector. */
  lemma Padding(off: nat, pivot: nat, len: nat, ws: nat)
    requires WriteSize(ws) && off % 32 == 0 && pivot % ws == 0
    requires pivot <= len && off + len <= BODY_SIZE && pivot < len
    ensures off + pivot + ws <= BODY_SIZE
  {
    if ws == 1 {} else if ws == 2 {} else if ws == 4 {} else if ws == 8 {} else if ws == 16 {} else {}
  }
}
