/** GF(2^8) with the QR polynomial x^8 + x^4 + x^3 + x^2 + 1, and the log/antilog tables that compute in it. */
module Galois {

  type Byte = bv8

  function Plus(a: Byte, b: Byte): Byte {
    a ^ b
  }

  /** Multiplication by alpha = x: shift, and subtract the field polynomial when x^8 appears. */
  function Double(v: Byte): Byte {
    if v & 0x80 != 0 then (v << 1) ^ 0x1d else v << 1
  }

  /** alpha to the power k. */
  function Alpha(k: nat): Byte {
    if k == 0 then 1 else Double(Alpha(k - 1))
  }

  predicate Odd(b: Byte) { b & 1 != 0 }

  function Half(b: Byte): Byte { b >> 1 }

  /** The sum of a*x^i over the set bits i < n of b: schoolbook polynomial multiplication. */
  function Schoolbook(a: Byte, b: Byte, n: nat): Byte
    decreases n
  {
    if n == 0 then 0
    else Plus(if Odd(b) then a else 0, Schoolbook(Double(a), Half(b), n - 1))
  }

  /** The product of the polynomials a and b modulo the field polynomial. */
  function Times(a: Byte, b: Byte): Byte {
    Schoolbook(a, b, 8)
  }

  lemma PlusLaws(a: Byte, b: Byte, c: Byte)
    ensures Plus(a, b) == Plus(b, a)
    ensures Plus(Plus(a, b), c) == Plus(a, Plus(b, c))
    ensures Plus(a, a) == 0
    ensures Plus(a, 0) == a == Plus(0, a)
  {}

  /** Addition is associative and commutative: the form the polynomial proofs use. */
  lemma PlusGroup()
    ensures forall a, b :: Plus(a, b) == Plus(b, a)
    ensures forall a, b, c :: Plus(Plus(a, b), c) == Plus(a, Plus(b, c))
    ensures forall a :: Plus(a, a) == 0
    ensures forall a :: Plus(a, 0) == a
  {
    forall a, b, c
      ensures Plus(a, b) == Plus(b, a) && Plus(Plus(a, b), c) == Plus(a, Plus(b, c))
    {
      PlusLaws(a, b, c);
    }
    forall a ensures Plus(a, a) == 0 && Plus(a, 0) == a {
      PlusLaws(a, a, a);
    }
  }

  /** Interchange: (a + b) + (c + d) == (a + c) + (b + d). */
  lemma PlusSwap(a: Byte, b: Byte, c: Byte, d: Byte)
    ensures Plus(Plus(a, b), Plus(c, d)) == Plus(Plus(a, c), Plus(b, d))
  {
    PlusGroup();
    hide Plus;
    assert Plus(b, Plus(c, d)) == Plus(Plus(b, c), d) == Plus(Plus(c, b), d) == Plus(c, Plus(b, d));
  }

  lemma PlusCancel(u: Byte, v: Byte, w: Byte)
    ensures Plus(Plus(u, w), Plus(v, w)) == Plus(u, v)
  {
    PlusSwap(u, w, v, w);
    PlusLaws(w, w, w);
    PlusLaws(Plus(u, v), w, w);
  }

  lemma PlusRotate(a: Byte, b: Byte, c: Byte)
    ensures Plus(a, Plus(b, c)) == Plus(Plus(c, a), b)
  {
    hide Plus;
    PlusLaws(a, b, c);
    PlusLaws(c, a, b);
    PlusLaws(Plus(a, b), c, c);
  }

  lemma DoubleLinear(a: Byte, b: Byte)
    ensures Double(Plus(a, b)) == Plus(Double(a), Double(b))
  {
    assert (a ^ b) << 1 == (a << 1) ^ (b << 1);
    assert (a ^ b) & 0x80 == (a & 0x80) ^ (b & 0x80);
    if a & 0x80 != 0 {
      if b & 0x80 != 0 {}
    } else {
      if b & 0x80 != 0 {}
    }
  }

  lemma HalfLinear(a: Byte, b: Byte)
    ensures Half(Plus(a, b)) == Plus(Half(a), Half(b))
    ensures Odd(Plus(a, b)) == (Odd(a) != Odd(b))
  {}

  lemma DoubleInjective(a: Byte, b: Byte)
    requires Double(a) == Double(b)
    ensures a == b
  {}

  lemma {:induction false} SchoolbookDouble(a: Byte, b: Byte, n: nat)
    ensures Schoolbook(Double(a), b, n) == Double(Schoolbook(a, b, n))
    decreases n
  {
    assert Double(0) == 0;
    hide Plus, Double, Odd, Half;
    if n > 0 {
      var rest := Schoolbook(Double(a), Half(b), n - 1);
      SchoolbookDouble(Double(a), Half(b), n - 1);
      DoubleLinear(if Odd(b) then a else 0, rest);
    }
  }

  lemma {:induction false} SchoolbookPlus(a: Byte, b: Byte, c: Byte, n: nat)
    ensures Schoolbook(a, Plus(b, c), n) == Plus(Schoolbook(a, b, n), Schoolbook(a, c, n))
    decreases n
  {
    PlusLaws(a, 0, 0);
    hide Plus, Double, Odd, Half;
    if n == 0 {
      PlusLaws(0, 0, 0);
    } else {
      HalfLinear(b, c);
      SchoolbookPlus(Double(a), Half(b), Half(c), n - 1);
      PlusSwap(if Odd(b) then a else 0, Schoolbook(Double(a), Half(b), n - 1),
               if Odd(c) then a else 0, Schoolbook(Double(a), Half(c), n - 1));
      PlusLaws(0, 0, 0);
    }
  }

  function DoubleTimes(v: Byte, k: nat): Byte {
    if k == 0 then v else Double(DoubleTimes(v, k - 1))
  }

  function HalfTimes(v: Byte, k: nat): Byte {
    if k == 0 then v else HalfTimes(Half(v), k - 1)
  }

  lemma {:induction false} DoubleTimesLaws(a: Byte, b: Byte, k: nat)
    ensures DoubleTimes(Plus(a, b), k) == Plus(DoubleTimes(a, k), DoubleTimes(b, k))
    ensures DoubleTimes(Double(a), k) == DoubleTimes(a, k + 1)
    ensures DoubleTimes(1, k) == Alpha(k) && DoubleTimes(0, k) == 0
  {
    assert Double(0) == 0;
    hide Plus, Double;
    if k > 0 {
      DoubleTimesLaws(a, b, k - 1);
      DoubleLinear(DoubleTimes(a, k - 1), DoubleTimes(b, k - 1));
    }
  }

  /** A byte is its lowest bit plus alpha times the rest. */
  lemma SplitLowBit(b: Byte)
    ensures b == Plus(if Odd(b) then 1 else 0, Double(Half(b)))
  {
    if b & 1 != 0 {}
  }

  lemma {:induction false} SchoolbookOfPower(k: nat, b: Byte, n: nat)
    requires HalfTimes(b, n) == 0
    ensures Schoolbook(Alpha(k), b, n) == DoubleTimes(b, k)
    decreases n
  {
    hide Plus, Double, Odd, Half;
    DoubleTimesLaws(0, 0, k);
    if n > 0 {
      var low: Byte := if Odd(b) then 1 else 0;
      SchoolbookOfPower(k + 1, Half(b), n - 1);
      SplitLowBit(b);
      DoubleTimesLaws(low, Double(Half(b)), k);
      DoubleTimesLaws(Half(b), 0, k);
    }
  }

  lemma TimesOne(b: Byte)
    ensures Times(1, b) == b
  {
    assert Half(Half(Half(Half(Half(Half(Half(Half(b)))))))) == 0;
    assert Alpha(0) == 1;
    hide Half;
    assert HalfTimes(b, 8) == HalfTimes(Half(b), 7) == HalfTimes(Half(Half(b)), 6)
        == HalfTimes(Half(Half(Half(b))), 5) == HalfTimes(Half(Half(Half(Half(b)))), 4)
        == HalfTimes(Half(Half(Half(Half(Half(b))))), 3)
        == HalfTimes(Half(Half(Half(Half(Half(Half(b)))))), 2)
        == HalfTimes(Half(Half(Half(Half(Half(Half(Half(b))))))), 1);
    hide Plus, Double, Odd, HalfTimes;
    SchoolbookOfPower(0, b, 8);
  }

  lemma {:induction false} TimesPowers(i: nat, j: nat)
    ensures Times(Alpha(i), Alpha(j)) == Alpha(i + j)
  {
    hide Plus, Double, Odd, Half;
    if i == 0 {
      TimesOne(Alpha(j));
    } else {
      TimesPowers(i - 1, j);
      SchoolbookDouble(Alpha(i - 1), Alpha(j), 8);
    }
  }

  // -- The order of alpha ------------------------------------------------------

  /** alpha^r for r below 16. */
  function Baby(r: nat): Byte {
    match r
    case 0 => 0x01
    case 1 => 0x02
    case 2 => 0x04
    case 3 => 0x08
    case 4 => 0x10
    case 5 => 0x20
    case 6 => 0x40
    case 7 => 0x80
    case 8 => 0x1d
    case 9 => 0x3a
    case 10 => 0x74
    case 11 => 0xe8
    case 12 => 0xcd
    case 13 => 0x87
    case 14 => 0x13
    case _ => 0x26
  }

  /** alpha^(16 j + 15) for j below 16. */
  function Giant(j: nat): Byte {
    match j
    case 0 => 0x26
    case 1 => 0xc0
    case 2 => 0x23
    case 3 => 0xa1
    case 4 => 0xf0
    case 5 => 0xe2
    case 6 => 0xce
    case 7 => 0xcc
    case 8 => 0x54
    case 9 => 0x73
    case 10 => 0xff
    case 11 => 0x41
    case 12 => 0xa6
    case 13 => 0x09
    case 14 => 0x16
    case _ => 0x01
  }

  function Double4(v: Byte): Byte {
    Double(Double(Double(Double(v))))
  }

  lemma Leap(k: nat)
    ensures Alpha(k + 16) == Double4(Double4(Double4(Double4(Alpha(k)))))
  {
    hide Double;
    assert Alpha(k + 4) == Double4(Alpha(k)) by {
      assert Alpha(k + 2) == Double(Alpha(k + 1));
    }
    assert Alpha(k + 8) == Double4(Alpha(k + 4)) by {
      assert Alpha(k + 6) == Double(Alpha(k + 5));
    }
    assert Alpha(k + 12) == Double4(Alpha(k + 8)) by {
      assert Alpha(k + 10) == Double(Alpha(k + 9));
    }
    assert Alpha(k + 16) == Double4(Alpha(k + 12)) by {
      assert Alpha(k + 14) == Double(Alpha(k + 13));
    }
  }

  lemma {:induction false} BabySteps(r: nat)
    requires r < 16
    ensures Alpha(r) == Baby(r)
  {
    if r > 0 {
      BabySteps(r - 1);
      BabyTable(r);
      hide Double, Baby;
    }
  }

  lemma BabyTable(r: nat)
    requires 0 < r < 16
    ensures Baby(r) == Double(Baby(r - 1))
  {}

  lemma {:induction false} GiantSteps(j: nat)
    requires j < 16
    ensures Alpha(16 * j + 15) == Giant(j)
  {
    if j == 0 {
      BabySteps(15);
    } else {
      hide Giant, Double4;
      GiantSteps(j - 1);
      Leap(16 * j - 1);
      GiantTable(j);
    }
  }

  lemma GiantTable(j: nat)
    requires 0 < j < 16
    ensures Giant(j) == Double4(Double4(Double4(Double4(Giant(j - 1)))))
  {}

  lemma GiantMeetsBaby(j: nat, i: nat)
    requires j < 16 && i < 16 && Giant(j) == Baby(i)
    ensures (j == 0 && i == 15) || (j == 15 && i == 0)
  {}

  /** Equal powers stay equal after dividing both by a power of alpha. */
  lemma {:induction false} CancelPower(i: nat, j: nat, k: nat)
    requires Alpha(i + k) == Alpha(j + k)
    ensures Alpha(i) == Alpha(j)
  {
    if k > 0 {
      DoubleInjective(Alpha(i + k - 1), Alpha(j + k - 1));
      CancelPower(i, j, k - 1);
    }
  }

  lemma AlphaCycle()
    ensures Alpha(255) == 1
  {
    GiantSteps(15);
    assert Giant(15) == 1;
  }

  /** alpha is primitive: its order is exactly 255. */
  lemma AlphaOrder(k: nat)
    requires 0 < k < 255
    ensures Alpha(k) != 1
  {
    hide *;
    if Alpha(k) == 1 {
      var j, r := k / 16, k % 16;
      TimesPowers(k, 15 - r);
      TimesOne(Alpha(15 - r));
      GiantSteps(j);
      BabySteps(15 - r);
      GiantMeetsBaby(j, 15 - r);
    }
  }

  lemma AlphaInjective(i: nat, j: nat)
    requires i < 255 && j < 255 && Alpha(i) == Alpha(j)
    ensures i == j
  {
    var lo, hi := if i <= j then i else j, if i <= j then j else i;
    CancelPower(hi - lo, 0, lo);
    if hi != lo {
      AlphaOrder(hi - lo);
    }
  }

  lemma {:induction false} AlphaNonzero(k: nat)
    ensures Alpha(k) != 0
  {
    if k > 0 {
      AlphaNonzero(k - 1);
      assert Double(0) == 0;
      if Alpha(k) == 0 {
        DoubleInjective(Alpha(k - 1), 0);
      }
    }
  }

  // -- Every nonzero byte is a power of alpha ----------------------------------

  ghost function PowersBelow(n: nat): set<int> {
    set k | 0 <= k < n :: Alpha(k) as int
  }

  lemma SameInt(a: Byte, b: Byte)
    requires a as int == b as int
    ensures a == b
  {}

  lemma {:induction false} PowersDistinct(n: nat)
    requires n <= 255
    ensures |PowersBelow(n)| == n
  {
    hide Alpha;
    if n == 0 {
      assert PowersBelow(0) == {};
    } else {
      PowersDistinct(n - 1);
      assert PowersBelow(n) == PowersBelow(n - 1) + {Alpha(n - 1) as int};
      forall k | 0 <= k < n - 1 ensures Alpha(k) as int != Alpha(n - 1) as int {
        if Alpha(k) as int == Alpha(n - 1) as int {
          SameInt(Alpha(k), Alpha(n - 1));
          AlphaInjective(k, n - 1);
        }
      }
    }
  }

  lemma {:induction false} SubsetOfRange(s: set<int>, n: nat)
    requires forall x :: x in s ==> 0 < x <= n
    ensures |s| <= n
    ensures |s| == n ==> forall x :: 0 < x <= n ==> x in s
  {
    if n == 0 {
      assert s == {} by {
        forall x ensures x !in s {
          assert x in s ==> 0 < x <= 0;
        }
      }
    } else {
      var t := s - {n};
      SubsetOfRange(t, n - 1);
      if n in s {
        assert s == t + {n};
      } else {
        assert s == t;
      }
    }
  }

  lemma AlphaOnto(v: Byte)
    requires v != 0
    ensures exists k :: 0 <= k < 255 && Alpha(k) == v
  {
    PowersDistinct(255);
    forall x | x in PowersBelow(255) ensures 0 < x <= 255 {
      var k :| 0 <= k < 255 && Alpha(k) as int == x;
      AlphaNonzero(k);
    }
    SubsetOfRange(PowersBelow(255), 255);
    assert v as int in PowersBelow(255);
    var k :| 0 <= k < 255 && Alpha(k) as int == v as int;
    SameInt(Alpha(k), v);
  }

  /** The discrete logarithm to base alpha. */
  ghost function Log(v: Byte): (k: nat)
    requires v != 0
    ensures k < 255 && Alpha(k) == v
  {
    AlphaOnto(v);
    var k :| 0 <= k < 255 && Alpha(k) == v;
    k
  }

  // -- The field laws ----------------------------------------------------------

  lemma {:induction false} SchoolbookZero(a: Byte, n: nat)
    ensures Schoolbook(0, a, n) == 0 && Schoolbook(a, 0, n) == 0
    decreases n
  {
    assert Double(0) == 0 && Half(0) == 0 && !Odd(0);
    PlusLaws(0, 0, 0);
    hide Plus, Double, Half, Odd;
    if n > 0 {
      SchoolbookZero(Half(a), n - 1);
      SchoolbookZero(Double(a), n - 1);
    }
  }

  lemma TimesZero(a: Byte)
    ensures Times(0, a) == 0 && Times(a, 0) == 0
  {
    SchoolbookZero(a, 8);
  }

  lemma TimesCommutes(a: Byte, b: Byte)
    ensures Times(a, b) == Times(b, a)
  {
    hide *;
    if a == 0 {
      TimesZero(b);
    } else if b == 0 {
      TimesZero(a);
    } else {
      TimesPowers(Log(a), Log(b));
      TimesPowers(Log(b), Log(a));
    }
  }

  lemma TimesAssociates(a: Byte, b: Byte, c: Byte)
    ensures Times(Times(a, b), c) == Times(a, Times(b, c))
  {
    hide *;
    TimesZero(a);
    TimesZero(b);
    TimesZero(c);
    TimesZero(Times(a, b));
    TimesZero(Times(b, c));
    if a != 0 && b != 0 && c != 0 {
      var i, j, k := Log(a), Log(b), Log(c);
      TimesPowers(i, j);
      TimesPowers(j, k);
      TimesPowers(i + j, k);
      TimesPowers(i, j + k);
    }
  }

  lemma TimesDistributes(a: Byte, b: Byte, c: Byte)
    ensures Times(a, Plus(b, c)) == Plus(Times(a, b), Times(a, c))
    ensures Times(Plus(b, c), a) == Plus(Times(b, a), Times(c, a))
  {
    SchoolbookPlus(a, b, c, 8);
    hide Schoolbook, Plus;
    TimesCommutes(a, b);
    TimesCommutes(a, c);
    TimesCommutes(a, Plus(b, c));
  }

  lemma NoZeroDivisors(a: Byte, b: Byte)
    requires a != 0 && b != 0
    ensures Times(a, b) != 0
  {
    hide *;
    TimesPowers(Log(a), Log(b));
    AlphaNonzero(Log(a) + Log(b));
  }

  lemma TimesTwo(v: Byte)
    ensures Times(v, 2) == Double(v)
  {
    TimesCommutes(v, 2);
    TimesOne(v);
    assert Double(1) == 2;
    SchoolbookDouble(1, v, 8);
  }

  // -- The tables --------------------------------------------------------------

  /** One step of the table loop, on a word wider than a byte, is doubling in the field. */
  lemma DoubleWide(v: bv16, w: Byte)
    requires v == w as bv16
    ensures v < 256 && v as Byte == w && v as int == w as int
    ensures (if (v << 1) & 0x100 != 0 then (v << 1) ^ 0x11d else v << 1) == Double(w) as bv16
  {}

  lemma {:induction false} AlphaPeriod(k: nat)
    ensures Alpha(k + 255) == Alpha(k)
  {
    if k == 0 {
      AlphaCycle();
    } else {
      AlphaPeriod(k - 1);
    }
  }

  lemma AlphaStart()
    ensures Alpha(0) as bv16 == 1
  {}

  lemma AlphaNext(i: nat)
    ensures Alpha(i + 1) == Double(Alpha(i))
  {}

  class Tables {
    const exp: array<Byte>
    const log: array<nat>

    ghost predicate Valid()
      reads exp, log
    {
      && exp.Length == 512 && log.Length == 256
      && (forall k | 0 <= k < 512 :: exp[k] == Alpha(k))
      && (forall k | 0 <= k < 255 :: log[Alpha(k) as int] == k)
    }

    constructor ()
      ensures Valid() && fresh(exp) && fresh(log)
    {
      exp := new Byte[512](_ => 0);
      log := new nat[256](_ => 0);
      new;
      FillPowers(exp, log);
      FillWrap(exp);
    }

    /**
     * The second half of the antilogarithm table repeats the first, so that a sum of two logarithms needs no
     * reduction.
     */
    static method FillWrap(exp: array<Byte>)
      requires exp.Length == 512
      requires forall k | 0 <= k < 255 :: exp[k] == Alpha(k)
      modifies exp
      ensures forall k | 0 <= k < 512 :: exp[k] == Alpha(k)
    {
      hide Alpha;
      for i := 255 to 512
        invariant forall k | 0 <= k < i :: exp[k] == Alpha(k)
      {
        AlphaPeriod(i - 255);
        exp[i] := exp[i - 255];
      }
    }

    /** The first 255 antilogarithms and all the logarithms, by repeated doubling. */
    static method FillPowers(exp: array<Byte>, log: array<nat>)
      requires exp.Length == 512 && log.Length == 256
      modifies exp, log
      ensures forall k | 0 <= k < 255 :: exp[k] == Alpha(k)
      ensures forall k | 0 <= k < 255 :: log[Alpha(k) as int] == k
    {
      hide Alpha, Double;
      AlphaStart();
      var value: bv16 := 1;
      for i := 0 to 255
        invariant value == Alpha(i) as bv16
        invariant forall k | 0 <= k < i :: exp[k] == Alpha(k)
        invariant forall k | 0 <= k < i :: log[Alpha(k) as int] == k
      {
        DoubleWide(value, Alpha(i));
        AlphaNext(i);
        forall k | 0 <= k < i ensures Alpha(k) as int != Alpha(i) as int {
          if Alpha(k) as int == Alpha(i) as int {
            SameInt(Alpha(k), Alpha(i));
            AlphaInjective(k, i);
          }
        }
        exp[i] := value as Byte;
        log[value as int] := i;
        value := value << 1;
        if value & 0x100 != 0 {
          value := value ^ 0x11d;
        }
      }
    }

    /** The table product is the product of the field. */
    method GfMul(a: Byte, b: Byte) returns (r: Byte)
      requires Valid()
      ensures r == Times(a, b)
    {
      hide Times, Alpha;
      if a == 0 || b == 0 {
        TimesZero(a);
        TimesZero(b);
        return 0;
      }
      assert log[a as int] == Log(a) && log[b as int] == Log(b);
      TimesPowers(Log(a), Log(b));
      return exp[log[a as int] + log[b as int]];
    }
  }
}
