/** What the CRC is, said without a register: the remainder of the message, read as a polynomial over
    the two bits, by the polynomial of section 8 of RFC 1952. A polynomial is the sequence of its
    coefficients, the highest exponent first; a byte enters with its lowest bit first. */
module Polynomial {
  import opened Types
  import opened Crc

  /** The exponents of the polynomial below 32. */
  const EXPONENTS: set<nat> := {26, 23, 22, 16, 12, 11, 10, 8, 7, 5, 4, 2, 1, 0}

  /** The polynomial without its leading term. */
  function Divisor(): (p: seq<bool>)
    ensures |p| == 32
  {
    seq(32, i requires 0 <= i < 32 => 31 - i in EXPONENTS)
  }

  /** Addition, which is subtraction, of r to the highest coefficients of m. */
  function XorFront(m: seq<bool>, r: seq<bool>): (x: seq<bool>)
    requires |m| >= |r|
    ensures |x| == |m|
  {
    seq(|m|, i requires 0 <= i < |m| => if i < |r| then m[i] != r[i] else m[i])
  }

  /** Long division: while there is a term of exponent 32 or more, the divisor is subtracted from it. */
  function Remainder(m: seq<bool>): (r: seq<bool>)
    requires |m| >= 32
    ensures |r| == 32
    decreases |m|
  {
    if |m| == 32 then m
    else if m[0] then Remainder(XorFront(m[1..], Divisor()))
    else Remainder(m[1..])
  }

  function Zeros(n: nat): (z: seq<bool>)
    ensures |z| == n
  {
    seq(n, i => false)
  }

  function Not(m: seq<bool>): (r: seq<bool>)
    ensures |r| == |m|
  {
    seq(|m|, i requires 0 <= i < |m| => !m[i])
  }

  /** The n lowest bits of a word, the lowest first. */
  function BitsOf(w: word, n: nat): (r: seq<bool>)
    ensures |r| == n
    decreases n
  {
    if n == 0 then [] else [w & 1 != 0] + BitsOf(w >> 1, n - 1)
  }

  function ByteBits(b: byte, n: nat): (r: seq<bool>)
    ensures |r| == n
    decreases n
  {
    if n == 0 then [] else [b & 1 != 0] + ByteBits(b >> 1, n - 1)
  }

  /** The bits of a message in the order they are sent. */
  function Bits(data: seq<byte>): (r: seq<bool>)
    ensures |r| == 8 * |data|
  {
    if data == [] then [] else ByteBits(data[0], 8) + Bits(data[1..])
  }

  function WordBits(w: word): (r: seq<bool>)
    ensures |r| == 32
  {
    BitsOf(w, 32)
  }

  // ---- the remainder ----

  function XorAt(m: seq<bool>, i: nat, r: seq<bool>): (x: seq<bool>)
    requires i + |r| <= |m|
    ensures |x| == |m|
  {
    seq(|m|, j requires 0 <= j < |m| => if i <= j < i + |r| then m[j] != r[j - i] else m[j])
  }

  /** It is the remainder: subtracting the divisor, shifted by any amount, does not change it, */
  lemma {:induction false} RemainderSame(m: seq<bool>, i: nat)
    requires i + 33 <= |m|
    ensures Remainder(XorAt(m, i, [true] + Divisor())) == Remainder(m)
    decreases |m|
  {
    hide Divisor, XorAt, XorFront, Remainder;
    var d := Divisor();
    var x := XorAt(m, i, [true] + d);
    RemainderStep(m);
    RemainderStep(x);
    if i == 0 { XorFirst(m, d); } else {
      XorLater(m, i, d);
      RemainderSame(m[1..], i - 1);
      RemainderSame(XorFront(m[1..], d), i - 1);
    }
  }

  /** and what is shorter than the divisor is its own. */
  lemma {:induction false} RemainderShort(n: nat, r: seq<bool>)
    requires |r| == 32
    ensures Remainder(Zeros(n) + r) == r
  {
    if n == 0 { assert Zeros(0) + r == r; } else {
      assert (Zeros(n) + r)[1..] == Zeros(n - 1) + r;
      RemainderShort(n - 1, r);
    }
  }

  lemma RemainderStep(m: seq<bool>)
    requires |m| > 32
    ensures Remainder(m) == Remainder(if m[0] then XorFront(m[1..], Divisor()) else m[1..])
  {
    hide Divisor;
  }

  lemma XorFirst(m: seq<bool>, d: seq<bool>)
    requires |m| > |d|
    ensures var x := XorAt(m, 0, [true] + d);
            x[0] == !m[0] && x[1..] == XorFront(m[1..], d) && XorFront(x[1..], d) == m[1..]
  {}

  lemma XorLater(m: seq<bool>, i: nat, d: seq<bool>)
    requires 0 < i && i + 1 + |d| <= |m|
    ensures var x := XorAt(m, i, [true] + d);
            && x[0] == m[0] && x[1..] == XorAt(m[1..], i - 1, [true] + d)
            && XorFront(x[1..], d) == XorAt(XorFront(m[1..], d), i - 1, [true] + d)
  {}

  // ---- bits of a word ----

  lemma BitsStep(w: word, n: nat)
    requires n > 0
    ensures BitsOf(w, n) == [Odd(w)] + BitsOf(Shr(w), n - 1)
  {}

  lemma BitsNone(w: word)
    ensures BitsOf(w, 0) == []
  {}

  function Shifted(w: word, n: nat): word
    decreases n
  {
    if n == 0 then w else Shifted(Shr(w), n - 1)
  }

  lemma {:induction false} BitsSplit(w: word, m: nat, n: nat)
    ensures BitsOf(w, m + n) == BitsOf(w, m) + BitsOf(Shifted(w, m), n)
    decreases m
  {
    hide Odd, Shr, BitsOf;
    if m == 0 { BitsNone(w); } else {
      BitsSplit(Shr(w), m - 1, n);
      BitsStep(w, m + n);
      BitsStep(w, m);
    }
  }

  lemma {:induction false} ShiftedAdd(w: word, m: nat, n: nat)
    ensures Shifted(Shifted(w, m), n) == Shifted(w, m + n)
    decreases m
  {
    hide Shr;
    if m > 0 { ShiftedAdd(Shr(w), m - 1, n); }
  }

  lemma ShiftedFour(w: word)
    ensures Shifted(w, 4) == Shr(Shr(Shr(Shr(w))))
  {
    hide Shr;
    var x1 := Shr(w); var x2 := Shr(x1); var x3 := Shr(x2);
    assert Shifted(Shr(x3), 0) == Shifted(x3, 1) == Shifted(x2, 2) == Shifted(x1, 3);
  }

  lemma ShiftedOut(w: word)
    ensures Shifted(w, 32) == 0
  {
    hide Shifted, Shr;
    var x1 := Shifted(w, 4); var x2 := Shifted(x1, 4); var x3 := Shifted(x2, 4); var x4 := Shifted(x3, 4);
    var x5 := Shifted(x4, 4); var x6 := Shifted(x5, 4); var x7 := Shifted(x6, 4);
    ShiftedFour(w); ShiftedFour(x1); ShiftedFour(x2); ShiftedFour(x3);
    ShiftedFour(x4); ShiftedFour(x5); ShiftedFour(x6); ShiftedFour(x7);
    ShiftedAdd(w, 4, 4); ShiftedAdd(w, 8, 4); ShiftedAdd(w, 12, 4); ShiftedAdd(w, 16, 4);
    ShiftedAdd(w, 20, 4); ShiftedAdd(w, 24, 4); ShiftedAdd(w, 28, 4);
    FourBits(w); FourBits(x1); FourBits(x2); FourBits(x3);
    FourBits(x4); FourBits(x5); FourBits(x6); FourBits(x7);
    NothingLeft(w);
  }

  lemma FourBits(w: word)
    ensures Shr(Shr(Shr(Shr(w)))) == w >> 4
  {}

  lemma NothingLeft(w: word)
    ensures w >> 4 >> 4 >> 4 >> 4 >> 4 >> 4 >> 4 >> 4 == 0
  {}

  lemma ShrBits(w: word)
    ensures WordBits(Shr(w)) == WordBits(w)[1..] + [false] && WordBits(w)[0] == Odd(w)
  {
    hide BitsOf, Shr, Odd;
    BitsStep(w, 32);
    BitsSplit(Shr(w), 31, 1);
    ShiftedOut(w);
    BitsZero(1);
  }

  lemma NoneOdd()
    ensures !Odd(0) && Shr(0) == 0
  {}

  lemma {:induction false} BitsXor(a: word, b: word, n: nat)
    ensures BitsOf(Xor(a, b), n) == XorFront(BitsOf(a, n), BitsOf(b, n))
    decreases n
  {
    hide Xor, Odd, Shr, BitsOf;
    if n == 0 { BitsNone(a); BitsNone(b); BitsNone(Xor(a, b)); } else {
      BitsStep(a, n); BitsStep(b, n); BitsStep(Xor(a, b), n);
      LowBit(a, b);
      ShiftXor(a, b);
      BitsXor(Shr(a), Shr(b), n - 1);
    }
  }

  lemma XorBits(a: word, b: word)
    ensures WordBits(Xor(a, b)) == XorFront(WordBits(a), WordBits(b))
  {
    BitsXor(a, b, 32);
  }

  lemma {:induction false} BitsZero(n: nat)
    ensures BitsOf(0, n) == Zeros(n)
    decreases n
  {
    hide BitsOf;
    if n == 0 { BitsNone(0); } else {
      BitsStep(0, n);
      NoneOdd();
      BitsZero(n - 1);
    }
  }

  lemma BitsFour(w: word, n: nat)
    ensures BitsOf(w, n + 4) == [w & 1 != 0, w & 2 != 0, w & 4 != 0, w & 8 != 0] + BitsOf(w >> 4, n)
  {
    hide BitsOf, Odd, Shr;
    BitsStep(w, n + 4);
    BitsStep(Shr(w), n + 3);
    BitsStep(Shr(Shr(w)), n + 2);
    BitsStep(Shr(Shr(Shr(w))), n + 1);
    FourBits(w);
    FourOdd(w);
  }

  lemma FourOdd(w: word)
    ensures Odd(w) == (w & 1 != 0) && Odd(Shr(w)) == (w & 2 != 0)
    ensures Odd(Shr(Shr(w))) == (w & 4 != 0) && Odd(Shr(Shr(Shr(w)))) == (w & 8 != 0)
  {}

  // ---- bits of a byte ----

  lemma ByteShift(b: byte)
    ensures Shr(Low(b)) == Low(b >> 1) && (Odd(Low(b)) <==> b & 1 != 0)
  {}

  lemma {:induction false} ByteSame(b: byte, n: nat)
    ensures BitsOf(Low(b), n) == ByteBits(b, n)
    decreases n
  {
    hide Low, Shr, Odd, BitsOf;
    if n == 0 { BitsNone(Low(b)); } else {
      BitsStep(Low(b), n);
      ByteShift(b);
      ByteSame(b >> 1, n - 1);
    }
  }

  lemma LowOut(b: byte)
    ensures Shifted(Low(b), 8) == 0
  {
    hide Low, Shifted, Shr;
    ShiftedFour(Low(b));
    ShiftedFour(Shifted(Low(b), 4));
    ShiftedAdd(Low(b), 4, 4);
    FourBits(Low(b));
    FourBits(Shifted(Low(b), 4));
    ByteOut(b);
  }

  lemma ByteOut(b: byte)
    ensures Low(b) >> 4 >> 4 == 0
  {}

  lemma LowBits(b: byte)
    ensures WordBits(Low(b)) == ByteBits(b, 8) + Zeros(24)
  {
    hide Low, Shifted, BitsOf;
    BitsSplit(Low(b), 8, 24);
    ByteSame(b, 8);
    LowOut(b);
    BitsZero(24);
  }

  // ---- the constants ----

  lemma PolyBits()
    ensures WordBits(POLY) == Divisor()
  {
    hide BitsOf;
    BitsFour(0xEDB8_8320, 28); BitsFour(0xEDB_8832, 24); BitsFour(0xED_B883, 20);
    BitsFour(0xE_DB88, 16); BitsFour(0xEDB8, 12); BitsFour(0xEDB, 8);
    BitsFour(0xED, 4); BitsFour(0xE, 0);
    BitsNone(0);
  }

  lemma OnesBits()
    ensures WordBits(ALL) == Not(Zeros(32))
  {
    hide BitsOf;
    BitsFour(0xFFFF_FFFF, 28); BitsFour(0xFFF_FFFF, 24); BitsFour(0xFF_FFFF, 20);
    BitsFour(0xF_FFFF, 16); BitsFour(0xFFFF, 12); BitsFour(0xFFF, 8);
    BitsFour(0xFF, 4); BitsFour(0xF, 0);
    BitsNone(0);
  }

  lemma NotBits(w: word)
    ensures WordBits(Xor(w, ALL)) == Not(WordBits(w))
  {
    hide WordBits;
    XorBits(w, ALL);
    OnesBits();
  }

  // ---- the register holds the remainder ----

  /** A step of the register is a step of the division. */
  lemma ZeroStep(c: word, t: seq<bool>)
    requires |t| >= 32
    ensures Remainder(XorFront([false] + t, WordBits(c))) == Remainder(XorFront(t, WordBits(BitStep(c))))
  {
    hide BitsOf, Divisor, Odd, Shr, Xor, Poly;
    var m := XorFront([false] + t, WordBits(c));
    var s := WordBits(Shr(c));
    ShrBits(c);
    assert m[0] == Odd(c);
    assert m[1..] == XorFront(t, s);
    if Odd(c) {
      PolyXor(Shr(c));
      XorBits(Shr(c), POLY);
      PolyBits();
      assert XorFront(XorFront(t, s), Divisor()) == XorFront(t, XorFront(s, Divisor()));
    }
  }

  lemma {:induction false} ZeroSteps(c: word, n: nat, t: seq<bool>)
    requires |t| >= 32
    ensures Remainder(XorFront(Zeros(n) + t, WordBits(c))) == Remainder(XorFront(t, WordBits(BitSteps(c, n))))
    decreases n
  {
    hide WordBits, BitStep, Remainder, XorFront;
    if n == 0 {
      assert Zeros(0) + t == t;
    } else {
      assert Zeros(n) + t == [false] + (Zeros(n - 1) + t);
      ZeroStep(c, Zeros(n - 1) + t);
      ZeroSteps(BitStep(c), n - 1, t);
    }
  }

  /** A byte added to the register is a byte of the message. */
  lemma ByteIn(c: word, b: byte, rest: seq<bool>)
    requires |rest| >= 32
    ensures XorFront(ByteBits(b, 8) + rest, WordBits(c)) == XorFront(Zeros(8) + rest, WordBits(Xor(c, Low(b))))
  {
    hide WordBits, Xor, Low, ByteBits;
    XorBits(c, Low(b));
    LowBits(b);
  }

  lemma {:induction false} FeedRemainder(c: word, data: seq<byte>)
    ensures WordBits(Feed(c, data)) == Remainder(XorFront(Bits(data) + Zeros(32), WordBits(c)))
    decreases |data|
  {
    hide WordBits, BitSteps, Xor, Low, ByteBits;
    if data == [] {
      assert XorFront(Bits(data) + Zeros(32), WordBits(c)) == WordBits(c);
    } else {
      var b, rest := data[0], Bits(data[1..]) + Zeros(32);
      ByteIn(c, b, rest);
      ZeroSteps(Xor(c, Low(b)), 8, rest);
      FeedRemainder(ByteStep(c, b), data[1..]);
      assert Bits(data) + Zeros(32) == ByteBits(b, 8) + rest;
    }
  }

  /** The CRC is the remainder of the message times x^32, both the highest 32 coefficients before and
      the result after complemented; the value a call starts from takes the place of zeros. */
  lemma CrcRemainder(init: word, data: seq<byte>)
    ensures WordBits(Crc32(init, data)) == Not(Remainder(XorFront(Bits(data) + Zeros(32), Not(WordBits(init)))))
  {
    hide WordBits, Xor, Feed, Remainder;
    NotBits(init);
    NotBits(Feed(Xor(init, ALL), data));
    FeedRemainder(Xor(init, ALL), data);
  }

  /** As the driver calls it, from all ones, the two complements before cancel out. */
  lemma CrcFromOnes(data: seq<byte>)
    ensures WordBits(Crc32(ALL, data)) == Not(Remainder(Bits(data) + Zeros(32)))
  {
    hide BitsOf, Crc32, Remainder;
    CrcRemainder(ALL, data);
    OnesBits();
    assert Not(Not(Zeros(32))) == Zeros(32);
    assert XorFront(Bits(data) + Zeros(32), Zeros(32)) == Bits(data) + Zeros(32);
  }

  // ---- up to four bytes as a word ----

  /** What `FeedWord` feeds: the bits of the bytes, in order, and zeros above them. */
  lemma {:induction false} WordOfBits(u: seq<byte>)
    requires |u| <= 4
    ensures WordBits(Word(u)) == Bits(u) + Zeros(32 - 8 * |u|)
    decreases |u|
  {
    hide BitsOf, Low, Up, Xor, Shifted, Fits, TopClear, ByteBits, XorFront;
    if u == [] { BitsZero(32); } else {
      var w, rest := Word(u[1..]), u[1..];
      WordOfBits(rest);
      WordFits(rest);
      FitsTop(w, |rest|);
      XorBits(Low(u[0]), Up(w));
      LowBits(u[0]);
      UpBits(w);
      var more := Bits(rest) + Zeros(24 - 8 * |rest|);
      assert (Bits(rest) + Zeros(32 - 8 * |rest|))[..24] == more;
      XorApart(ByteBits(u[0], 8), more);
      assert ByteBits(u[0], 8) + more == Bits(u) + Zeros(32 - 8 * |u|);
    }
  }

  lemma XorApart(x: seq<bool>, y: seq<bool>)
    requires |x| == 8 && |y| == 24
    ensures XorFront(x + Zeros(24), Zeros(8) + y) == x + y
  {}

  lemma UpBits(w: word)
    requires TopClear(w)
    ensures WordBits(Up(w)) == Zeros(8) + WordBits(w)[..24]
  {
    hide BitsOf, Up, Shifted, TopClear;
    BitsSplit(Up(w), 8, 24);
    BitsSplit(w, 24, 8);
    UpOut(w);
    UpLow(w);
  }

  lemma UpLow(w: word)
    ensures BitsOf(Up(w), 8) == Zeros(8)
  {
    hide BitsOf;
    var x := Up(w);
    BitsFour(x, 4);
    BitsFour(x >> 4, 0);
    BitsNone(x >> 4 >> 4);
    UpZeros(w);
  }

  lemma UpZeros(w: word)
    ensures Up(w) & 1 == 0 && Up(w) & 2 == 0 && Up(w) & 4 == 0 && Up(w) & 8 == 0
    ensures (Up(w) >> 4) & 1 == 0 && (Up(w) >> 4) & 2 == 0 && (Up(w) >> 4) & 4 == 0 && (Up(w) >> 4) & 8 == 0
  {}

  lemma UpOut(w: word)
    requires TopClear(w)
    ensures Shifted(Up(w), 8) == w
  {
    hide Up, Shifted, Shr, TopClear;
    ShiftedFour(Up(w));
    ShiftedFour(Shifted(Up(w), 4));
    ShiftedAdd(Up(w), 4, 4);
    FourBits(Up(w));
    FourBits(Shifted(Up(w), 4));
    UpBack(w);
  }

  lemma UpBack(w: word)
    requires TopClear(w)
    ensures Up(w) >> 4 >> 4 == w
  {}
}
