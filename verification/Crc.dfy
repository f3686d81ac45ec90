/** The CRC-32 every checksum and lookup hash is made with (platform.rs, software_crc32); the
    polynomial and the conventions of section 8 of RFC 1952. */
module Crc {
  import opened Types

  type word = bv32

  const ALL: word := 0xFFFF_FFFF

  function Xor(a: word, b: word): word { a ^ b }
  function Low(b: byte): word { b as word }
  function Up(w: word): word { w << 8 }
  function Shr(w: word): word { w >> 1 }
  function Shl(w: word): word { w << 1 }
  function Poly(w: word): word { w ^ 0xEDB8_8320 }
  predicate Odd(w: word) { w & 1 != 0 }
  predicate High(w: word) { w & 0x8000_0000 != 0 }

  // ---- the register ----

  function BitStep(c: word): word { if Odd(c) then Poly(Shr(c)) else Shr(c) }

  function BitSteps(c: word, n: nat): word
    decreases n
  {
    if n == 0 then c else BitSteps(BitStep(c), n - 1)
  }

  function ByteStep(c: word, b: byte): word { BitSteps(Xor(c, Low(b)), 8) }

  function Feed(c: word, data: seq<byte>): word
    decreases |data|
  {
    if data == [] then c else Feed(ByteStep(c, data[0]), data[1..])
  }

  function Crc32(init: word, data: seq<byte>): word { Xor(Feed(Xor(init, ALL), data), ALL) }

  lemma {:induction false} BitStepsAdd(c: word, m: nat, n: nat)
    ensures BitSteps(BitSteps(c, m), n) == BitSteps(c, m + n)
    decreases m
  {
    hide BitStep;
    if m > 0 { BitStepsAdd(BitStep(c), m - 1, n); }
  }

  lemma OneBitStep(c: word)
    ensures BitSteps(c, 1) == BitStep(c)
  {
    hide BitStep;
    assert BitSteps(BitStep(c), 0) == BitStep(c);
  }

  lemma {:induction false} FeedAppend(c: word, x: seq<byte>, y: seq<byte>)
    ensures Feed(c, x + y) == Feed(Feed(c, x), y)
    decreases |x|
  {
    hide ByteStep;
    if x == [] {
      assert x + y == y;
    } else {
      assert (x + y)[1..] == x[1..] + y;
      FeedAppend(ByteStep(c, x[0]), x[1..], y);
    }
  }

  lemma FeedOne(c: word, b: byte)
    ensures Feed(c, [b]) == ByteStep(c, b)
  {
    hide ByteStep;
    assert [b][1..] == [];
  }

  /** platform.rs, software_crc32. */
  method SoftwareCrc32(init: word, data: seq<byte>) returns (r: word)
    ensures r == Crc32(init, data)
  {
    hide BitStep, Xor, Low, BitSteps;
    var crc := Xor(init, ALL);
    var i := 0;
    while i < |data|
      invariant i <= |data| && crc == Feed(Xor(init, ALL), data[..i])
    {
      ghost var before := crc;
      crc := Xor(crc, Low(data[i]));
      var n := 0;
      BitStepsNone(crc);
      while n < 8
        invariant n <= 8 && crc == BitSteps(Xor(before, Low(data[i])), n)
      {
        OneBitStep(crc);
        BitStepsAdd(Xor(before, Low(data[i])), n, 1);
        crc := ShiftRight(crc);
        n := n + 1;
      }
      assert data[..i + 1] == data[..i] + [data[i]];
      FeedAppend(Xor(init, ALL), data[..i], [data[i]]);
      FeedOne(before, data[i]);
      i := i + 1;
    }
    assert data[..i] == data;
    r := Xor(crc, ALL);
  }

  /** The body of the inner loop. */
  method ShiftRight(crc: word) returns (r: word)
    ensures r == BitStep(crc)
  {
    if crc & 1 != 0 { r := (crc >> 1) ^ 0xEDB8_8320; } else { r := crc >> 1; }
  }

  lemma BitStepsNone(c: word)
    ensures BitSteps(c, 0) == c
  {}

  /** Pieces fed one after another, each call given the result of the one before, count as one pass. */
  lemma Streaming(init: word, x: seq<byte>, y: seq<byte>)
    ensures Crc32(Crc32(init, x), y) == Crc32(init, x + y)
  {
    hide Feed, Xor;
    Complement(Feed(Xor(init, ALL), x));
    FeedAppend(Xor(init, ALL), x, y);
  }

  lemma Complement(c: word)
    ensures Xor(Xor(c, ALL), ALL) == c
  {}

  // ---- each step loses nothing ----

  /** The step undone: whether a bit was shifted out shows in the top bit of the polynomial. */
  function BitUnstep(c: word): word { if High(c) then SetLow(Shl(Poly(c))) else Shl(c) }

  function SetLow(w: word): word { w | 1 }

  lemma BitStepBijective(c: word)
    ensures BitUnstep(BitStep(c)) == c && BitStep(BitUnstep(c)) == c
  {
    hide Shr, Shl, Poly, SetLow, Odd, High;
    ShrFacts(c);
    ShlFacts(c);
    PolyFacts(c);
    PolyFacts(Shr(c));
    LowFacts(Poly(c));
  }

  lemma ShrFacts(c: word)
    ensures !High(Shr(c)) && (Odd(c) ==> SetLow(Shl(Shr(c))) == c) && (!Odd(c) ==> Shl(Shr(c)) == c)
  {}

  lemma ShlFacts(c: word)
    ensures !Odd(Shl(c)) && (!High(c) ==> Shr(Shl(c)) == c)
  {}

  lemma LowFacts(c: word)
    ensures Odd(SetLow(Shl(c))) && (!High(c) ==> Shr(SetLow(Shl(c))) == c)
  {}

  lemma PolyFacts(c: word)
    ensures Poly(Poly(c)) == c && (High(Poly(c)) <==> !High(c))
  {}

  lemma {:induction false} BitStepsInjective(a: word, b: word, n: nat)
    requires BitSteps(a, n) == BitSteps(b, n)
    ensures a == b
    decreases n
  {
    hide BitStep, BitUnstep;
    if n > 0 {
      BitStepsInjective(BitStep(a), BitStep(b), n - 1);
      BitStepBijective(a);
      BitStepBijective(b);
    }
  }

  lemma XorCancel(a: word, b: word, w: word)
    requires Xor(a, w) == Xor(b, w)
    ensures a == b
  {}

  lemma {:induction false} FeedInjective(a: word, b: word, data: seq<byte>)
    requires Feed(a, data) == Feed(b, data)
    ensures a == b
    decreases |data|
  {
    hide BitSteps, Xor, Low;
    if data != [] {
      FeedInjective(ByteStep(a, data[0]), ByteStep(b, data[0]), data[1..]);
      BitStepsInjective(Xor(a, Low(data[0])), Xor(b, Low(data[0])), 8);
      XorCancel(a, b, Low(data[0]));
    }
  }

  // ---- up to four bytes enter the register as one word ----

  lemma BitStepLinear(a: word, b: word)
    ensures BitStep(Xor(a, b)) == Xor(BitStep(a), BitStep(b))
  {
    hide Odd, Shr, Poly, Xor;
    LowBit(a, b);
    ShiftXor(a, b);
    SamePoly(Shr(a), Shr(b));
  }

  lemma LowBit(a: word, b: word)
    ensures Odd(Xor(a, b)) <==> Odd(a) != Odd(b)
  {}

  lemma ShiftXor(a: word, b: word)
    ensures Shr(Xor(a, b)) == Xor(Shr(a), Shr(b))
  {}

  lemma SamePoly(x: word, y: word)
    ensures Xor(Poly(x), Poly(y)) == Xor(x, y)
    ensures Xor(Poly(x), y) == Poly(Xor(x, y))
    ensures Xor(x, Poly(y)) == Poly(Xor(x, y))
  {
    hide Xor, Poly;
    PolyXor(x); PolyXor(y); PolyXor(Xor(x, y));
    XorCommute(y, POLY);
    XorAssociate(x, POLY, y);
    XorAssociate(x, y, POLY);
    XorAssociate(Xor(x, POLY), y, POLY);
    XorTwice(Xor(x, y), POLY);
  }

  const POLY: word := 0xEDB8_8320

  lemma PolyXor(x: word)
    ensures Poly(x) == Xor(x, POLY)
  {}

  lemma XorCommute(x: word, y: word)
    ensures Xor(x, y) == Xor(y, x)
  {}

  lemma XorTwice(x: word, p: word)
    ensures Xor(Xor(x, p), p) == x
  {}

  lemma {:induction false} BitStepsLinear(a: word, b: word, n: nat)
    ensures BitSteps(Xor(a, b), n) == Xor(BitSteps(a, n), BitSteps(b, n))
    decreases n
  {
    hide BitStep, Xor;
    if n > 0 {
      BitStepLinear(a, b);
      BitStepsLinear(BitStep(a), BitStep(b), n - 1);
    }
  }

  predicate TopClear(w: word) { w & 0xFF00_0000 == 0 }

  /** While the bits shifted out are zero, a step is a shift. */
  lemma ShiftOut(w: word)
    requires TopClear(w)
    ensures BitSteps(Up(w), 8) == w
  {
    hide BitStep, Up, TopClear, Shl;
    var x1 := Shl(w); var x2 := Shl(x1); var x3 := Shl(x2); var x4 := Shl(x3);
    var x5 := Shl(x4); var x6 := Shl(x5); var x7 := Shl(x6); var x8 := Shl(x7);
    UpEight(w);
    ShiftBack(x7); ShiftBack(x6); ShiftBack(x5); ShiftBack(x4);
    ShiftBack(x3); ShiftBack(x2); ShiftBack(x1); ShiftBack(w);
    assert BitSteps(x8, 8) == BitSteps(x7, 7) == BitSteps(x6, 6) == BitSteps(x5, 5) == BitSteps(x4, 4);
    assert BitSteps(x4, 4) == BitSteps(x3, 3) == BitSteps(x2, 2) == BitSteps(x1, 1) == BitSteps(w, 0);
  }

  lemma ShiftBack(w: word)
    ensures !High(w) ==> BitStep(Shl(w)) == w
  {
    hide Odd, Shr, Shl, Poly, High;
    ShlFacts(w);
  }

  lemma UpEight(w: word)
    requires TopClear(w)
    ensures Up(w) == Shl(Shl(Shl(Shl(Shl(Shl(Shl(Shl(w))))))))
    ensures !High(w) && !High(Shl(w)) && !High(Shl(Shl(w))) && !High(Shl(Shl(Shl(w)))) && !High(Shl(Shl(Shl(Shl(w)))))
    ensures !High(Shl(Shl(Shl(Shl(Shl(w)))))) && !High(Shl(Shl(Shl(Shl(Shl(Shl(w)))))))
    ensures !High(Shl(Shl(Shl(Shl(Shl(Shl(Shl(w))))))))
  {}

  /** The bytes as a little-endian word. */
  function Word(u: seq<byte>): word
    requires |u| <= 4
  {
    if u == [] then 0 else Xor(Low(u[0]), Up(Word(u[1..])))
  }

  /** No more bytes than were put in: `Word` of n bytes has the bits above them clear. */
  predicate Fits(w: word, n: nat) {
    && (n <= 3 ==> TopClear(w))
    && (n <= 2 ==> w & 0xFFFF_0000 == 0)
    && (n <= 1 ==> w & 0xFFFF_FF00 == 0)
    && (n == 0 ==> w == 0)
  }

  lemma {:induction false} WordFits(u: seq<byte>)
    requires |u| <= 4
    ensures Fits(Word(u), |u|)
    decreases |u|
  {
    hide Fits, Xor, Low, Up;
    if u == [] { NoneFits(); } else {
      WordFits(u[1..]);
      OneMoreFits(u[0], Word(u[1..]), |u| - 1);
    }
  }

  lemma NoneFits()
    ensures Fits(0, 0)
  {}

  lemma OneMoreFits(b: byte, w: word, n: nat)
    requires n < 4 && Fits(w, n)
    ensures Fits(Xor(Low(b), Up(w)), n + 1)
  {}

  lemma FitsTop(w: word, n: nat)
    requires Fits(w, n) && n <= 3
    ensures TopClear(w)
  {}

  lemma {:induction false} FeedWord(c: word, u: seq<byte>)
    requires |u| <= 4
    ensures Feed(c, u) == BitSteps(Xor(c, Word(u)), 8 * |u|)
    decreases |u|
  {
    hide BitSteps, Xor, Low, Up, Fits, TopClear;
    if u == [] {
      XorZero(c);
      BitStepsNone(c);
    } else {
      var rest := u[1..];
      var x := Xor(c, Low(u[0]));
      FeedWord(ByteStep(c, u[0]), rest);
      WordFits(rest);
      FitsTop(Word(rest), |rest|);
      ShiftOut(Word(rest));
      BitStepsLinear(x, Up(Word(rest)), 8);
      XorAssociate(c, Low(u[0]), Up(Word(rest)));
      BitStepsAdd(Xor(c, Word(u)), 8, 8 * |rest|);
    }
  }

  lemma XorZero(c: word)
    ensures Xor(c, 0) == c
  {}

  lemma XorAssociate(a: word, b: word, c: word)
    ensures Xor(Xor(a, b), c) == Xor(a, Xor(b, c))
  {}

  lemma {:induction false} WordInjective(u: seq<byte>, v: seq<byte>)
    requires |u| == |v| <= 4 && Word(u) == Word(v)
    ensures u == v
    decreases |u|
  {
    hide Xor, Low, Up, Fits, TopClear;
    if u != [] {
      WordFits(u[1..]);
      WordFits(v[1..]);
      FitsTop(Word(u[1..]), |u| - 1);
      FitsTop(Word(v[1..]), |u| - 1);
      WordSplit(u[0], Word(u[1..]), v[0], Word(v[1..]));
      WordInjective(u[1..], v[1..]);
      assert u == [u[0]] + u[1..] && v == [v[0]] + v[1..];
    }
  }

  lemma WordSplit(b: byte, w: word, d: byte, x: word)
    requires Xor(Low(b), Up(w)) == Xor(Low(d), Up(x)) && TopClear(w) && TopClear(x)
    ensures b == d && w == x
  {}

  /** A change confined to four neighbouring bytes is always seen: two messages that differ there
      and nowhere else never share a CRC. A single changed byte is the smallest case. */
  lemma BurstSeen(init: word, front: seq<byte>, u: seq<byte>, v: seq<byte>, back: seq<byte>)
    requires |u| == |v| <= 4 && u != v
    ensures Crc32(init, front + u + back) != Crc32(init, front + v + back)
  {
    hide Feed, BitSteps, Xor, Word;
    var s := Xor(init, ALL);
    var c := Feed(s, front);
    FeedAppend(s, front + u, back);
    FeedAppend(s, front + v, back);
    FeedAppend(s, front, u);
    FeedAppend(s, front, v);
    FeedWord(c, u);
    FeedWord(c, v);
    if Crc32(init, front + u + back) == Crc32(init, front + v + back) {
      XorCancel(Feed(Feed(c, u), back), Feed(Feed(c, v), back), ALL);
      FeedInjective(Feed(c, u), Feed(c, v), back);
      BitStepsInjective(Xor(c, Word(u)), Xor(c, Word(v)), 8 * |u|);
      SameWord(c, Word(u), Word(v));
      WordInjective(u, v);
    }
  }

  lemma SameWord(c: word, w: word, x: word)
    requires Xor(c, w) == Xor(c, x)
    ensures w == x
  {}

  /** Two messages of one length that differ in exactly one byte. */
  lemma OneByteSeen(init: word, x: seq<byte>, y: seq<byte>, i: nat)
    requires |x| == |y| && i < |x| && x[i] != y[i] && forall j | 0 <= j < |x| && j != i :: x[j] == y[j]
    ensures Crc32(init, x) != Crc32(init, y)
  {
    hide Crc32;
    assert x == x[..i] + [x[i]] + x[i + 1..];
    assert y == x[..i] + [y[i]] + x[i + 1..];
    BurstSeen(init, x[..i], [x[i]], [y[i]], x[i + 1..]);
  }
}
