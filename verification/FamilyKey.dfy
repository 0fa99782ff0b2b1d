/** The key of the family-list cache: a 64-bit mix of (character, selector, filter).
    The mix is undone step by step, so two different triples never share a key. */
module FamilyKey {

  const WORD: nat := 0x1_0000_0000_0000_0000
  const C1: nat := 0xFF51AFD7ED558CCD
  const C2: nat := 0xC4CEB9FE1A85EC53
  const ZERO_KEY: nat := 0x9E3779B97F4A7C15     // handed out when the mix is zero

  // The inverses of C1 and C2 modulo 2^64.
  const C1_INVERSE: nat := 0x4F74430C22A54005
  const C2_INVERSE: nat := 0x9CB4B2F8129337DB

  datatype Triple = Triple(character: nat, selector: nat, filter: nat)

  /** The widths of the arguments: 32, 8 and 8 bits. */
  predicate InRange(t: Triple) {
    t.character < 0x1_0000_0000 && t.selector < 0x100 && t.filter < 0x100
  }

  // ---- bit operations on naturals ------------------------------------------------------------

  function Xor(a: nat, b: nat): nat {
    if a == 0 && b == 0 then 0 else 2 * Xor(a / 2, b / 2) + (a + b) % 2
  }

  function ShiftRight(a: nat, n: nat): nat {
    if n == 0 then a else ShiftRight(a / 2, n - 1)
  }

  function Pow2(n: nat): (r: nat)
    ensures r > 0
  {
    if n == 0 then 1 else 2 * Pow2(n - 1)
  }

  lemma {:induction false} XorZero(a: nat)
    ensures Xor(a, 0) == a
  {
    if a != 0 { XorZero(a / 2); }
  }

  function XorBits(x: nat, y: nat): nat {
    if x == y then 0 else 1
  }

  lemma XorBit(a: nat, b: nat, c: nat, x: nat, y: nat)
    requires Xor(a, b) == c && x < 2 && y < 2
    ensures Xor(2 * a + x, 2 * b + y) == 2 * c + XorBits(x, y)
  {
    assert (2 * a + x) / 2 == a && (2 * b + y) / 2 == b;
  }

  lemma {:induction false} XorTwice(a: nat, b: nat)
    ensures Xor(Xor(a, b), b) == a
  {
    hide Xor;
    if a == 0 && b == 0 {
      XorZero(0);
    } else {
      var x := Xor(a / 2, b / 2);
      XorTwice(a / 2, b / 2);
      XorBit(a / 2, b / 2, x, a % 2, b % 2);
      XorBit(x, b / 2, a / 2, XorBits(a % 2, b % 2), b % 2);
    }
  }

  lemma {:induction false} XorBound(a: nat, b: nat, n: nat)
    requires a < Pow2(n) && b < Pow2(n)
    ensures Xor(a, b) < Pow2(n)
  {
    if n != 0 { XorBound(a / 2, b / 2, n - 1); }
  }

  lemma {:induction false} ShiftXor(a: nat, b: nat, n: nat)
    ensures ShiftRight(Xor(a, b), n) == Xor(ShiftRight(a, n), ShiftRight(b, n))
  {
    if n != 0 {
      ShiftXor(a / 2, b / 2, n - 1);
      assert Xor(a, b) / 2 == Xor(a / 2, b / 2);
    }
  }

  lemma {:induction false} ShiftTwice(a: nat, n: nat, m: nat)
    ensures ShiftRight(ShiftRight(a, n), m) == ShiftRight(a, n + m)
  {
    if n != 0 { ShiftTwice(a / 2, n - 1, m); }
  }

  lemma {:induction false} ShiftOut(a: nat, n: nat)
    requires a < Pow2(n)
    ensures ShiftRight(a, n) == 0
  {
    if n != 0 { ShiftOut(a / 2, n - 1); }
  }

  lemma {:induction false} ShiftSmaller(a: nat, n: nat)
    ensures ShiftRight(a, n) <= a
  {
    if n != 0 { ShiftSmaller(a / 2, n - 1); }
  }

  lemma Pow2Word()
    ensures Pow2(64) == WORD && Pow2(66) == 4 * WORD
  {
    Pow2Byte(0); Pow2Byte(8); Pow2Byte(16); Pow2Byte(24);
    Pow2Byte(32); Pow2Byte(40); Pow2Byte(48); Pow2Byte(56);
    assert Pow2(66) == 2 * Pow2(65) == 4 * Pow2(64);
  }

  lemma Pow2Byte(n: nat)
    ensures Pow2(n + 8) == 0x100 * Pow2(n)
  {
    assert Pow2(n + 8) == 0x10 * Pow2(n + 4) by {
      assert Pow2(n + 8) == 4 * Pow2(n + 6);
    }
    assert Pow2(n + 4) == 4 * Pow2(n + 2);
  }

  // ---- the mix and its inverse ---------------------------------------------------------------

  function XorShift(k: nat): nat {
    Xor(k, ShiftRight(k, 33))
  }

  function Times(k: nat, c: nat): (r: nat)
    ensures r < WORD
  {
    (k * c) % WORD
  }

  function Pack(t: Triple): nat {
    t.character * 0x1_0000 + t.selector * 0x100 + t.filter
  }

  function Mix(k: nat): nat {
    XorShift(Times(XorShift(Times(XorShift(k), C1)), C2))
  }

  function MakeKey(t: Triple): nat {
    var k := Mix(Pack(t));
    if k != 0 then k else ZERO_KEY
  }

  function Unmix(y: nat): nat {
    XorShift(Times(XorShift(Times(XorShift(y), C2_INVERSE)), C1_INVERSE))
  }

  lemma XorShiftRange(k: nat)
    requires k < WORD
    ensures XorShift(k) < WORD
  {
    Pow2Word();
    ShiftSmaller(k, 33);
    XorBound(k, ShiftRight(k, 33), 64);
  }

  /** Shifting by more than half the width makes the xor-shift its own inverse. */
  lemma XorShiftTwice(k: nat)
    requires k < WORD
    ensures XorShift(XorShift(k)) == k
  {
    var q := ShiftRight(k, 33);
    Pow2Word();
    ShiftOut(k, 66);
    ShiftTwice(k, 33, 33);
    ShiftXor(k, q, 33);
    XorZero(q);
    XorTwice(k, q);
  }

  lemma TimesAssociates(a: int, b: int, c: int)
    ensures (a * b) * c == a * (b * c)
  {
  }

  lemma TimesDistributes(a: int, b: int, c: int)
    ensures (a + b) * c == a * c + b * c && (a - b) * c == a * c - b * c
  {
  }

  /** What is left of k * c after taking d words off, times the inverse. */
  lemma TimesBack(k: int, c: int, inverse: int, q: int, d: int, word: int)
    requires c * inverse == q * word + 1
    ensures (k * c - d * word) * inverse == k + (k * q - d * inverse) * word
  {
    TimesDistributes(k * c, d * word, inverse);
    TimesAssociates(k, c, inverse);
    TimesDistributes(q * word, 1, k);
    TimesAssociates(k, q, word);
    TimesDistributes(k * q, d * inverse, word);
    TimesAssociates(d, word, inverse);
    TimesAssociates(d, inverse, word);
  }

  lemma WholeWords(k: nat, e: int)
    requires k < WORD
    ensures (k + e * WORD) % WORD == k
  {
  }

  lemma TimesUndone(k: nat, c: nat, inverse: nat, q: nat)
    requires k < WORD && c * inverse == q * WORD + 1
    ensures Times(Times(k, c), inverse) == k
  {
    var d := (k * c) / WORD;
    assert Times(k, c) == k * c - d * WORD;
    TimesBack(k, c, inverse, q, d, WORD);
    WholeWords(k, k * q - d * inverse);
  }

  lemma UnmixMix(k: nat)
    requires k < WORD
    ensures Mix(k) < WORD && Unmix(Mix(k)) == k
  {
    var a := XorShift(k);
    var b := XorShift(Times(a, C1));
    var c := Times(b, C2);
    XorShiftRange(k);
    XorShiftRange(Times(a, C1));
    XorShiftRange(c);
    XorShiftTwice(k);
    XorShiftTwice(Times(a, C1));
    XorShiftTwice(c);
    TimesUndone(a, C1, C1_INVERSE, 5710046619856821070);
    TimesUndone(b, C2, C2_INVERSE, 8680939279959119233);
  }

  // ---- the key that stands in for zero -------------------------------------------------------

  /** One hexadecimal digit of an exclusive or, given as its bits, to compute it on literals. */
  lemma XorDigit(a: nat, b: nat, c: nat, x3: nat, x2: nat, x1: nat, x0: nat, y3: nat, y2: nat, y1: nat, y0: nat)
    requires Xor(a, b) == c && x3 < 2 && x2 < 2 && x1 < 2 && x0 < 2 && y3 < 2 && y2 < 2 && y1 < 2 && y0 < 2
    ensures Xor(0x10 * a + 8 * x3 + 4 * x2 + 2 * x1 + x0, 0x10 * b + 8 * y3 + 4 * y2 + 2 * y1 + y0)
         == 0x10 * c + 8 * XorBits(x3, y3) + 4 * XorBits(x2, y2) + 2 * XorBits(x1, y1) + XorBits(x0, y0)
  {
    hide Xor;
    var c1 := 2 * c + XorBits(x3, y3);
    var c2 := 2 * c1 + XorBits(x2, y2);
    var c3 := 2 * c2 + XorBits(x1, y1);
    XorBit(a, b, c, x3, y3);
    XorBit(2 * a + x3, 2 * b + y3, c1, x2, y2);
    XorBit(4 * a + 2 * x3 + x2, 4 * b + 2 * y3 + y2, c2, x1, y1);
    XorBit(8 * a + 4 * x3 + 2 * x2 + x1, 8 * b + 4 * y3 + 2 * y2 + y1, c3, x0, y0);
  }

  lemma ShiftBit(a: nat, n: nat)
    ensures ShiftRight(a, n + 1) == ShiftRight(a / 2, n)
  {
  }

  lemma ShiftNone(a: nat)
    ensures ShiftRight(a, 0) == a
  {
  }

  lemma ShiftByte(a: nat, n: nat)
    ensures ShiftRight(a, n + 8) == ShiftRight(a / 0x100, n)
  {
    hide ShiftRight;
    ShiftBit(a, n + 7); ShiftBit(a / 2, n + 6); ShiftBit(a / 4, n + 5); ShiftBit(a / 8, n + 4);
    ShiftBit(a / 0x10, n + 3); ShiftBit(a / 0x20, n + 2); ShiftBit(a / 0x40, n + 1); ShiftBit(a / 0x80, n);
  }

  lemma ShiftIs(a: nat, q: nat)
    requires q * 0x2_0000_0000 <= a < (q + 1) * 0x2_0000_0000
    ensures ShiftRight(a, 33) == q
  {
    hide ShiftRight;
    ShiftByte(a, 25); ShiftByte(a / 0x100, 17); ShiftByte(a / 0x1_0000, 9); ShiftByte(a / 0x100_0000, 1);
    ShiftBit(a / 0x1_0000_0000, 0);
    ShiftNone(a / 0x1_0000_0000 / 2);
  }

  lemma UnmixZeroKeyFirst()
    ensures XorShift(0x9E3779B97F4A7C15) == 0x9E3779B93051C0C9
  {
    hide Xor, ShiftRight;
    ShiftIs(0x9E3779B97F4A7C15, 0x4F1BBCDC);
    XorZero(0x9E3779B9);
    XorDigit(0x9E3779B9, 0x0, 0x9E3779B9, 0, 1, 1, 1, 0, 1, 0, 0);
    XorDigit(0x9E3779B97, 0x4, 0x9E3779B93, 1, 1, 1, 1, 1, 1, 1, 1);
    XorDigit(0x9E3779B97F, 0x4F, 0x9E3779B930, 0, 1, 0, 0, 0, 0, 0, 1);
    XorDigit(0x9E3779B97F4, 0x4F1, 0x9E3779B9305, 1, 0, 1, 0, 1, 0, 1, 1);
    XorDigit(0x9E3779B97F4A, 0x4F1B, 0x9E3779B93051, 0, 1, 1, 1, 1, 0, 1, 1);
    XorDigit(0x9E3779B97F4A7, 0x4F1BB, 0x9E3779B93051C, 1, 1, 0, 0, 1, 1, 0, 0);
    XorDigit(0x9E3779B97F4A7C, 0x4F1BBC, 0x9E3779B93051C0, 0, 0, 0, 1, 1, 1, 0, 1);
    XorDigit(0x9E3779B97F4A7C1, 0x4F1BBCD, 0x9E3779B93051C0C, 0, 1, 0, 1, 1, 1, 0, 0);
  }

  lemma UnmixZeroKeySecond()
    ensures XorShift(0xDFEAEE05BBC61AF3) == 0xDFEAEE05D4336DF1
  {
    hide Xor, ShiftRight;
    ShiftIs(0xDFEAEE05BBC61AF3, 0x6FF57702);
    XorZero(0xDFEAEE05);
    XorDigit(0xDFEAEE05, 0x0, 0xDFEAEE05, 1, 0, 1, 1, 0, 1, 1, 0);
    XorDigit(0xDFEAEE05B, 0x6, 0xDFEAEE05D, 1, 0, 1, 1, 1, 1, 1, 1);
    XorDigit(0xDFEAEE05BB, 0x6F, 0xDFEAEE05D4, 1, 1, 0, 0, 1, 1, 1, 1);
    XorDigit(0xDFEAEE05BBC, 0x6FF, 0xDFEAEE05D43, 0, 1, 1, 0, 0, 1, 0, 1);
    XorDigit(0xDFEAEE05BBC6, 0x6FF5, 0xDFEAEE05D433, 0, 0, 0, 1, 0, 1, 1, 1);
    XorDigit(0xDFEAEE05BBC61, 0x6FF57, 0xDFEAEE05D4336, 1, 0, 1, 0, 0, 1, 1, 1);
    XorDigit(0xDFEAEE05BBC61A, 0x6FF577, 0xDFEAEE05D4336D, 1, 1, 1, 1, 0, 0, 0, 0);
    XorDigit(0xDFEAEE05BBC61AF, 0x6FF5770, 0xDFEAEE05D4336DF, 0, 0, 1, 1, 0, 0, 1, 0);
  }

  lemma UnmixZeroKeyThird()
    ensures XorShift(0xE36BEF35DED265B5) == 0xE36BEF35AF67922F
  {
    hide Xor, ShiftRight;
    ShiftIs(0xE36BEF35DED265B5, 0x71B5F79A);
    XorZero(0xE36BEF35);
    XorDigit(0xE36BEF35, 0x0, 0xE36BEF35, 1, 1, 0, 1, 0, 1, 1, 1);
    XorDigit(0xE36BEF35D, 0x7, 0xE36BEF35A, 1, 1, 1, 0, 0, 0, 0, 1);
    XorDigit(0xE36BEF35DE, 0x71, 0xE36BEF35AF, 1, 1, 0, 1, 1, 0, 1, 1);
    XorDigit(0xE36BEF35DED, 0x71B, 0xE36BEF35AF6, 0, 0, 1, 0, 0, 1, 0, 1);
    XorDigit(0xE36BEF35DED2, 0x71B5, 0xE36BEF35AF67, 0, 1, 1, 0, 1, 1, 1, 1);
    XorDigit(0xE36BEF35DED26, 0x71B5F, 0xE36BEF35AF679, 0, 1, 0, 1, 0, 1, 1, 1);
    XorDigit(0xE36BEF35DED265, 0x71B5F7, 0xE36BEF35AF6792, 1, 0, 1, 1, 1, 0, 0, 1);
    XorDigit(0xE36BEF35DED265B, 0x71B5F79, 0xE36BEF35AF67922, 0, 1, 0, 1, 1, 0, 1, 0);
  }

  lemma UnmixZeroKey()
    ensures Unmix(ZERO_KEY) == 0xE36BEF35AF67922F
  {
    hide XorShift;
    UnmixZeroKeyFirst();
    assert Times(0x9E3779B93051C0C9, C2_INVERSE) == 0xDFEAEE05BBC61AF3;
    UnmixZeroKeySecond();
    assert Times(0xDFEAEE05D4336DF1, C1_INVERSE) == 0xE36BEF35DED265B5;
    UnmixZeroKeyThird();
  }

  // ---- main result ---------------------------------------------------------------------------

  lemma PackInjective(t: Triple, u: Triple)
    requires InRange(t) && InRange(u)
    requires Pack(t) == Pack(u)
    ensures t == u
  {
    var dc, ds := t.character - u.character, t.selector - u.selector;
    assert dc * 0x1_0000 + ds * 0x100 + (t.filter - u.filter) == 0;
    assert dc == 0;
    assert ds == 0;
  }

  /** No two triples share a key, the all-zero triple included: the stand-in it is given is
      the mix of a word with more than 48 bits, which no triple packs to. */
  lemma KeysNeverCollide(t: Triple, u: Triple)
    requires InRange(t) && InRange(u)
    ensures MakeKey(t) == MakeKey(u) <==> t == u
    ensures 0 < MakeKey(t) < WORD
  {
    hide Mix, Unmix;
    UnmixMix(Pack(t));
    UnmixMix(Pack(u));
    UnmixZeroKey();
    assert Pack(t) < 0x1_0000_0000_0000 && Pack(u) < 0x1_0000_0000_0000;
    if MakeKey(t) == MakeKey(u) {
      if Mix(Pack(t)) == Mix(Pack(u)) {
        PackInjective(t, u);
      } else {
        assert false;
      }
    }
  }
}
