/** The Reed-Solomon code of the QR symbol: generator, division, and how far apart its words are. */
module ReedSolomon {
  import opened Galois

  // A polynomial is the sequence of its coefficients, highest power first.
  type Poly = seq<Byte>

  /** The value of p at x, by Horner's rule. */
  function Eval(p: Poly, x: Byte): Byte {
    if |p| == 0 then 0 else Plus(Times(Eval(p[..|p| - 1], x), x), p[|p| - 1])
  }

  function Power(x: Byte, n: nat): Byte {
    if n == 0 then 1 else Times(Power(x, n - 1), x)
  }

  function Zeros(n: nat): Poly {
    seq(n, _ => 0)
  }

  function Sum(p: Poly, q: Poly): Poly
    requires |p| == |q|
  {
    seq(|p|, i requires 0 <= i < |p| => Plus(p[i], q[i]))
  }

  function Scale(r: Byte, p: Poly): Poly {
    seq(|p|, i requires 0 <= i < |p| => Times(p[i], r))
  }

  lemma EvalAppend(p: Poly, c: Byte, x: Byte)
    ensures Eval(p + [c], x) == Plus(Times(Eval(p, x), x), c)
  {
    assert (p + [c])[..|p|] == p;
  }

  lemma EvalSingle(c: Byte, x: Byte)
    ensures Eval([c], x) == c
  {
    assert [c][..0] == [];
    hide Plus, Times;
    TimesZero(x);
    PlusLaws(c, 0, 0);
  }

  // -- Evaluation is linear ----------------------------------------------------

  lemma {:induction false} EvalSum(p: Poly, q: Poly, x: Byte)
    requires |p| == |q|
    ensures Eval(Sum(p, q), x) == Plus(Eval(p, x), Eval(q, x))
  {
    hide Plus, Times;
    if |p| == 0 {
      PlusLaws(0, 0, 0);
    } else {
      var n := |p| - 1;
      var p', q' := p[..n], q[..n];
      EvalSum(p', q', x);
      assert Sum(p, q)[..n] == Sum(p', q');
      TimesDistributes(x, Eval(p', x), Eval(q', x));
      PlusSwap(Times(Eval(p', x), x), p[n], Times(Eval(q', x), x), q[n]);
    }
  }

  lemma {:induction false} EvalScale(r: Byte, p: Poly, x: Byte)
    ensures Eval(Scale(r, p), x) == Times(Eval(p, x), r)
  {
    hide Plus, Times;
    if |p| == 0 {
      TimesZero(r);
    } else {
      var n := |p| - 1;
      var p' := p[..n];
      EvalScale(r, p', x);
      assert Scale(r, p)[..n] == Scale(r, p');
      TimesAssociates(Eval(p', x), r, x);
      TimesAssociates(Eval(p', x), x, r);
      TimesCommutes(r, x);
      TimesDistributes(r, Times(Eval(p', x), x), p[n]);
    }
  }

  lemma {:induction false} EvalZeros(n: nat, x: Byte)
    ensures Eval(Zeros(n), x) == 0
  {
    hide Plus, Times;
    if n > 0 {
      EvalZeros(n - 1, x);
      assert Zeros(n)[..n - 1] == Zeros(n - 1);
      TimesZero(x);
      PlusLaws(0, 0, 0);
    }
  }

  lemma {:induction false} EvalConcat(p: Poly, q: Poly, x: Byte)
    ensures Eval(p + q, x) == Plus(Times(Eval(p, x), Power(x, |q|)), Eval(q, x))
  {
    hide Plus, Times;
    if |q| == 0 {
      assert p + q == p;
      TimesCommutes(Eval(p, x), 1);
      TimesOne(Eval(p, x));
      PlusLaws(Eval(p, x), 0, 0);
    } else {
      var n := |q| - 1;
      var q', c := q[..n], q[n];
      EvalConcat(p, q', x);
      assert (p + q)[..|p| + n] == p + q';
      var high := Times(Eval(p, x), Power(x, n));
      TimesDistributes(x, high, Eval(q', x));
      TimesAssociates(Eval(p, x), Power(x, n), x);
      PlusLaws(Times(high, x), Times(Eval(q', x), x), c);
    }
  }

  // -- The generator -----------------------------------------------------------

  /** p(x) * (x - r): in characteristic 2 that is x*p + r*p. */
  function TimesLinear(p: Poly, r: Byte): Poly {
    Sum(p + [0], Scale(r, [0] + p))
  }

  /** (x - alpha^0)(x - alpha^1) .. (x - alpha^(n-1)), leading 1 included. */
  function RootProduct(n: nat): (p: Poly)
    ensures |p| == n + 1
  {
    if n == 0 then [1] else TimesLinear(RootProduct(n - 1), Alpha(n - 1))
  }

  /** The generator polynomial of the given degree, without its leading 1. */
  function Divisor(degree: nat): (p: Poly)
    ensures |p| == degree
  {
    RootProduct(degree)[1..]
  }

  lemma EvalTimesLinear(p: Poly, r: Byte, x: Byte)
    ensures Eval(TimesLinear(p, r), x) == Times(Eval(p, x), Plus(x, r))
  {
    hide Plus, Times;
    EvalSum(p + [0], Scale(r, [0] + p), x);
    EvalScale(r, [0] + p, x);
    EvalAppend(p, 0, x);
    EvalConcat([0], p, x);
    EvalSingle(0, x);
    TimesZero(Power(x, |p|));
    PlusLaws(Eval(p, x), 0, 0);
    PlusLaws(Times(Eval(p, x), x), 0, 0);
    TimesDistributes(Eval(p, x), x, r);
  }

  lemma {:induction false} RootProductIsMonic(n: nat)
    ensures RootProduct(n)[0] == 1
  {
    hide Plus, Times;
    if n > 0 {
      RootProductIsMonic(n - 1);
      TimesZero(Alpha(n - 1));
      PlusLaws(1, 0, 0);
    }
  }

  lemma {:induction false} RootProductVanishes(n: nat, k: nat)
    requires k < n
    ensures Eval(RootProduct(n), Alpha(k)) == 0
  {
    hide Plus, Times, Alpha, TimesLinear;
    EvalTimesLinear(RootProduct(n - 1), Alpha(n - 1), Alpha(k));
    if k < n - 1 {
      RootProductVanishes(n - 1, k);
      TimesZero(Plus(Alpha(k), Alpha(n - 1)));
    } else {
      PlusLaws(Alpha(k), 0, 0);
      TimesZero(Eval(RootProduct(n - 1), Alpha(k)));
    }
  }

  /** At a root of the generator the dropped leading power equals the rest of it. */
  lemma DivisorAtRoot(count: nat, k: nat)
    requires k < count
    ensures Eval(Divisor(count), Alpha(k)) == Power(Alpha(k), count)
  {
    hide Plus, Times, Alpha, RootProduct;
    var x := Alpha(k);
    RootProductVanishes(count, k);
    RootProductIsMonic(count);
    assert RootProduct(count) == [1] + Divisor(count);
    EvalConcat([1], Divisor(count), x);
    EvalSingle(1, x);
    TimesOne(Power(x, count));
    var a, b := Power(x, count), Eval(Divisor(count), x);
    PlusLaws(a, a, b);
    PlusLaws(b, 0, 0);
    PlusLaws(a, 0, 0);
  }

  // -- The remainder -----------------------------------------------------------

  /** One division step: bring down the next byte, subtract the multiple of the divisor that clears the leading term. */
  function DivideStep(rest: Poly, byte: Byte, divisor: Poly): Poly
    requires |rest| == |divisor|
  {
    if |rest| == 0 then []
    else Sum(rest[1..] + [0], Scale(Plus(byte, rest[0]), divisor))
  }

  /** The error-correction bytes of a data word. */
  function Ecc(data: Poly, count: nat): (r: Poly)
    ensures |r| == count
  {
    if |data| == 0 then Zeros(count)
    else DivideStep(Ecc(data[..|data| - 1], count), data[|data| - 1], Divisor(count))
  }

  lemma EvalByHead(p: Poly, x: Byte)
    requires |p| > 0
    ensures Eval(p, x) == Plus(Times(p[0], Power(x, |p| - 1)), Eval(p[1..], x))
  {
    hide *;
    assert p == [p[0]] + p[1..];
    EvalConcat([p[0]], p[1..], x);
    EvalSingle(p[0], x);
  }

  lemma EvalDivideStep(rest: Poly, byte: Byte, divisor: Poly, x: Byte)
    requires |rest| == |divisor| > 0
    requires Eval(divisor, x) == Power(x, |divisor|)
    ensures Eval(DivideStep(rest, byte, divisor), x)
         == Plus(Times(Eval(rest[1..], x), x), Times(Power(x, |divisor|), Plus(byte, rest[0])))
  {
    hide Plus, Times, Eval;
    EvalSum(rest[1..] + [0], Scale(Plus(byte, rest[0]), divisor), x);
    EvalScale(Plus(byte, rest[0]), divisor, x);
    EvalAppend(rest[1..], 0, x);
    PlusLaws(Times(Eval(rest[1..], x), x), 0, 0);
  }

  lemma DivideIdentity(head: Byte, byte: Byte, low: Byte, top: Byte, x: Byte)
    ensures Plus(Times(low, x), Times(Times(top, x), Plus(byte, head)))
         == Plus(Times(Plus(Times(head, top), low), x), Times(byte, Times(top, x)))
  {
    hide Plus, Times;
    var full := Times(top, x);
    TimesDistributes(x, Times(head, top), low);
    TimesAssociates(head, top, x);
    TimesDistributes(full, byte, head);
    TimesCommutes(full, Plus(byte, head));
    PlusRotate(Times(low, x), Times(byte, full), Times(head, full));
  }

  /** What one division step does to the value at a root x of the generator. */
  lemma DivideStepAtRoot(rest: Poly, byte: Byte, divisor: Poly, x: Byte)
    requires |rest| == |divisor| > 0
    requires Eval(divisor, x) == Power(x, |divisor|)
    ensures Eval(DivideStep(rest, byte, divisor), x)
         == Plus(Times(Eval(rest, x), x), Times(byte, Power(x, |divisor|)))
  {
    hide Plus, Times, Eval, DivideStep;
    EvalByHead(rest, x);
    EvalDivideStep(rest, byte, divisor, x);
    DivideIdentity(rest[0], byte, Eval(rest[1..], x), Power(x, |divisor| - 1), x);
  }

  /** Reed-Solomon correctness: data followed by its check bytes vanishes at alpha^0 .. alpha^(count-1). */
  lemma {:induction false} CodewordVanishes(data: Poly, count: nat, k: nat)
    requires k < count
    ensures Eval(data + Ecc(data, count), Alpha(k)) == 0
  {
    hide Plus, Times, Alpha, Divisor, DivideStep;
    var x := Alpha(k);
    EvalConcat(data, Ecc(data, count), x);
    if |data| == 0 {
      EvalZeros(count, x);
      TimesZero(Power(x, count));
      PlusLaws(0, 0, 0);
    } else {
      var front, byte := data[..|data| - 1], data[|data| - 1];
      var rest := Ecc(front, count);
      CodewordVanishes(front, count, k);
      EvalConcat(front, rest, x);
      DivisorAtRoot(count, k);
      DivideStepAtRoot(rest, byte, Divisor(count), x);
      var p, d, r := Power(x, count), Eval(front, x), Eval(rest, x);
      TimesDistributes(p, Times(d, x), byte);
      TimesAssociates(d, x, p);
      TimesCommutes(x, p);
      TimesAssociates(d, p, x);
      TimesDistributes(x, Times(d, p), r);
      TimesZero(x);
      var u, v, w := Times(Times(d, p), x), Times(r, x), Times(byte, p);
      PlusCancel(u, v, w);
    }
  }

  // -- The loops that compute them ---------------------------------------------

  /** The low `degree` coefficients of the product of the first i factors, padded on the left. */
  ghost function Window(degree: nat, i: nat): (w: Poly)
    requires i <= degree
    ensures |w| == degree
  {
    (Zeros(degree) + RootProduct(i))[i + 1..]
  }

  lemma TimesLinearAt(p: Poly, r: Byte, k: nat)
    requires k <= |p|
    ensures |TimesLinear(p, r)| == |p| + 1
    ensures TimesLinear(p, r)[k]
         == Plus(Times(if k > 0 then p[k - 1] else 0, r), if k < |p| then p[k] else 0)
  {
    hide Plus, Times;
    var high, low := (p + [0])[k], ([0] + p)[k];
    assert Scale(r, [0] + p)[k] == Times(low, r);
    PlusLaws(high, Times(low, r), 0);
  }

  /** Multiplying in one more root moves the window by one coefficient. */
  lemma WindowStep(degree: nat, i: nat, j: nat)
    requires i < degree && j < degree
    ensures Window(degree, i + 1)[j]
         == Plus(Times(Window(degree, i)[j], Alpha(i)), if j + 1 < degree then Window(degree, i)[j + 1] else 0)
  {
    hide Plus, Times, Alpha, TimesLinear;
    var p, r := RootProduct(i), Alpha(i);
    var k := j + i + 2 - degree;
    assert Window(degree, i)[j] == if k > 0 then p[k - 1] else 0;
    assert j + 1 < degree ==> Window(degree, i)[j + 1] == if k >= 0 then p[k] else 0;
    assert Window(degree, i + 1)[j] == if k >= 0 then RootProduct(i + 1)[k] else 0;
    if k < 0 {
      TimesZero(r);
      PlusLaws(0, 0, 0);
    } else {
      TimesLinearAt(p, r, k);
    }
  }

  /** The generator loops leave the product of the linear factors, without its leading 1. */
  method Generator(gf: Tables, degree: nat) returns (coeff: array<Byte>)
    requires gf.Valid()
    ensures fresh(coeff) && coeff[..] == Divisor(degree)
  {
    hide Plus, Times, Alpha, RootProduct;
    coeff := new Byte[degree](_ => 0);
    if degree > 0 {
      coeff[degree - 1] := 1;
      WindowStart(degree);
      assert coeff[..] == Window(degree, 0);
    }
    var root: Byte := 1;
    AlphaStart();
    for i := 0 to degree
      invariant root == Alpha(i)
      invariant degree > 0 ==> coeff[..] == Window(degree, i)
      invariant gf.Valid()
    {
      ghost var before := coeff[..];
      for j := 0 to degree
        invariant forall k | 0 <= k < j :: coeff[k] == Window(degree, i + 1)[k]
        invariant forall k | j <= k < degree :: coeff[k] == before[k]
        invariant gf.Valid()
      {
        WindowStep(degree, i, j);
        PlusLaws(Times(coeff[j], root), 0, 0);
        coeff[j] := gf.GfMul(coeff[j], root);
        if j + 1 < degree {
          coeff[j] := Plus(coeff[j], coeff[j + 1]);
        }
      }
      root := gf.GfMul(root, 2);
      TimesTwo(Alpha(i));
      AlphaNext(i);
    }
    WindowEnd(degree);
  }

  lemma WindowStart(degree: nat)
    requires degree > 0
    ensures Window(degree, 0) == Zeros(degree - 1) + [1]
  {}

  lemma WindowEnd(degree: nat)
    ensures Window(degree, degree) == Divisor(degree)
  {
    hide TimesLinear;
  }

  method ShiftLeft(rest: array<Byte>)
    requires rest.Length > 0
    modifies rest
    ensures rest[..] == old(rest[..])[1..] + [0]
  {
    forall i | 0 <= i < rest.Length - 1 {
      rest[i] := rest[i + 1];
    }
    rest[rest.Length - 1] := 0;
  }

  method AddMultiple(gf: Tables, rest: array<Byte>, factor: Byte, divisor: array<Byte>)
    requires gf.Valid() && rest != divisor && rest != gf.exp && rest as object != gf.log
    requires rest.Length == divisor.Length
    modifies rest
    ensures rest[..] == Sum(old(rest[..]), Scale(factor, divisor[..]))
  {
    hide Plus, Times, Alpha;
    for i := 0 to rest.Length
      invariant forall k | 0 <= k < i :: rest[k] == Plus(old(rest[k]), Times(divisor[k], factor))
      invariant forall k | i <= k < rest.Length :: rest[k] == old(rest[k])
      invariant gf.Valid()
    {
      var product := gf.GfMul(divisor[i], factor);
      rest[i] := Plus(rest[i], product);
    }
  }

  /** The in-place division leaves the check bytes of the whole data word. */
  method ErrorCorrection(gf: Tables, data: seq<Byte>, count: nat) returns (rest: array<Byte>)
    requires gf.Valid()
    ensures fresh(rest) && rest[..] == Ecc(data, count)
  {
    hide Divisor, Plus, Times, Sum, Scale;
    var divisor := Generator(gf, count);
    rest := new Byte[count](_ => 0);
    assert data[..0] == [] && rest[..] == Zeros(count);
    for t := 0 to |data|
      invariant rest[..] == Ecc(data[..t], count)
      invariant divisor[..] == Divisor(count) && gf.Valid()
    {
      assert data[..t + 1][..t] == data[..t];
      if count > 0 {
        var factor := Plus(data[t], rest[0]);
        ShiftLeft(rest);
        AddMultiple(gf, rest, factor, divisor);
      } else {
        assert rest[..] == [] == Ecc(data[..t + 1], 0);
      }
    }
    assert data[..|data|] == data;
  }

  // -- Minimum distance --------------------------------------------------------

  /** How many coefficients are not zero. */
  function Weight(p: Poly): nat {
    if |p| == 0 then 0
    else Weight(p[..|p| - 1]) + if p[|p| - 1] != 0 then 1 else 0
  }

  /** In how many positions two words of equal length differ. */
  function Distance(p: Poly, q: Poly): nat
    requires |p| == |q|
  {
    if |p| == 0 then 0
    else Distance(p[..|p| - 1], q[..|q| - 1]) + if p[|p| - 1] != q[|q| - 1] then 1 else 0
  }

  lemma {:induction false} DistanceIsWeight(p: Poly, q: Poly)
    requires |p| == |q|
    ensures Distance(p, q) == Weight(Sum(p, q))
  {
    hide Plus;
    if |p| > 0 {
      var n := |p| - 1;
      DistanceIsWeight(p[..n], q[..n]);
      assert Sum(p, q)[..n] == Sum(p[..n], q[..n]);
      PlusEqual(p[n], q[n]);
    }
  }

  lemma PlusEqual(a: Byte, b: Byte)
    ensures Plus(a, b) == 0 <==> a == b
  {
    PlusLaws(a, b, b);
    PlusLaws(a, 0, 0);
    PlusLaws(b, 0, 0);
  }

  /** p with its coefficient of x^e multiplied by alpha^e: the polynomial p(alpha x). */
  ghost function Twist(p: Poly): Poly {
    seq(|p|, i requires 0 <= i < |p| => Times(p[i], Alpha(|p| - 1 - i)))
  }

  lemma {:induction false} EvalTwist(p: Poly, x: Byte)
    ensures Eval(Twist(p), x) == Eval(p, Times(x, Alpha(1)))
  {
    hide Plus, Times, Alpha;
    if |p| > 0 {
      var n := |p| - 1;
      var q, a := p[..n], Alpha(1);
      EvalTwist(q, x);
      assert Twist(p)[..n] == Scale(a, Twist(q)) by {
        forall i | 0 <= i < n ensures Twist(p)[i] == Scale(a, Twist(q))[i] {
          TimesAssociates(p[i], Alpha(n - 1 - i), a);
          TimesPowers(n - 1 - i, 1);
        }
      }
      EvalScale(a, Twist(q), x);
      TimesAssociates(Eval(Twist(q), x), a, x);
      TimesCommutes(a, x);
      AlphaStart();
      TimesCommutes(p[n], 1);
      TimesOne(p[n]);
    }
  }

  /** f(alpha x) - alpha^e f(x): the term at position e is gone and no other term is. */
  ghost function Eliminate(f: Poly, at: nat): (g: Poly)
    requires at < |f|
    ensures |g| == |f|
  {
    Sum(Twist(f), Scale(Alpha(|f| - 1 - at), f))
  }

  lemma EliminateTerm(f: Poly, at: nat, i: nat)
    requires at < |f| <= 255 && i < |f|
    ensures Eliminate(f, at)[i] != 0 <==> f[i] != 0 && i != at
  {
    hide Plus, Times, Alpha;
    var a, b := Alpha(|f| - 1 - i), Alpha(|f| - 1 - at);
    PlusEqual(Times(f[i], a), Times(f[i], b));
    PlusEqual(a, b);
    TimesDistributes(f[i], a, b);
    TimesZero(a);
    TimesZero(b);
    if f[i] != 0 && i != at {
      if a == b {
        AlphaInjective(|f| - 1 - i, |f| - 1 - at);
      }
      NoZeroDivisors(f[i], Plus(a, b));
    }
  }

  lemma EliminateVanishes(f: Poly, at: nat, k: nat)
    requires at < |f|
    requires Eval(f, Alpha(k)) == 0 && Eval(f, Alpha(k + 1)) == 0
    ensures Eval(Eliminate(f, at), Alpha(k)) == 0
  {
    hide Plus, Times, Alpha, Eval;
    var b := Alpha(|f| - 1 - at);
    EvalSum(Twist(f), Scale(b, f), Alpha(k));
    EvalTwist(f, Alpha(k));
    TimesPowers(k, 1);
    EvalScale(b, f, Alpha(k));
    TimesZero(b);
    PlusLaws(0, 0, 0);
  }

  /** Clearing one nonzero position lowers the weight by exactly one. */
  lemma {:induction false} WeightWithout(f: Poly, g: Poly, at: nat)
    requires |f| == |g| && at < |f| && f[at] != 0
    requires forall i | 0 <= i < |f| :: g[i] != 0 <==> f[i] != 0 && i != at
    ensures Weight(g) == Weight(f) - 1
  {
    var n := |f| - 1;
    if at == n {
      WeightSame(f[..n], g[..n]);
    } else {
      WeightWithout(f[..n], g[..n], at);
    }
  }

  lemma {:induction false} WeightSame(f: Poly, g: Poly)
    requires |f| == |g|
    requires forall i | 0 <= i < |f| :: g[i] != 0 <==> f[i] != 0
    ensures Weight(g) == Weight(f)
  {
    if |f| > 0 {
      WeightSame(f[..|f| - 1], g[..|f| - 1]);
    }
  }

  lemma {:induction false} WeightPositive(f: Poly)
    ensures Weight(f) == 0 <==> forall i | 0 <= i < |f| :: f[i] == 0
    ensures Weight(f) <= |f|
  {
    if |f| > 0 {
      WeightPositive(f[..|f| - 1]);
      assert forall i | 0 <= i < |f| - 1 :: f[i] == f[..|f| - 1][i];
    }
  }

  /** A polynomial with exactly one term has no root but zero. */
  lemma {:induction false} OneTerm(f: Poly, x: Byte)
    requires x != 0
    ensures Weight(f) == 0 ==> Eval(f, x) == 0
    ensures Weight(f) == 1 ==> Eval(f, x) != 0
  {
    hide Plus, Times;
    if |f| > 0 {
      var n := |f| - 1;
      OneTerm(f[..n], x);
      TimesZero(x);
      PlusLaws(f[n], 0, 0);
      if Eval(f[..n], x) != 0 {
        NoZeroDivisors(Eval(f[..n], x), x);
        PlusLaws(Times(Eval(f[..n], x), x), 0, 0);
      }
    }
  }

  /** A polynomial with at most w terms that vanishes at w consecutive powers of alpha is zero. */
  lemma {:induction false} TooManyRoots(f: Poly, w: nat, s: nat)
    requires |f| <= 255 && Weight(f) <= w
    requires forall k: nat | s <= k < s + w :: Eval(f, Alpha(k)) == 0
    ensures Weight(f) == 0
    decreases w
  {
    hide Eval, Alpha, Plus, Times, Eliminate;
    if Weight(f) > 0 {
      WeightPositive(f);
      var at :| 0 <= at < |f| && f[at] != 0;
      var g := Eliminate(f, at);
      forall i | 0 <= i < |f| ensures g[i] != 0 <==> f[i] != 0 && i != at {
        EliminateTerm(f, at, i);
      }
      WeightWithout(f, g, at);
      forall k: nat | s <= k < s + (w - 1) ensures Eval(g, Alpha(k)) == 0 {
        EliminateVanishes(f, at, k);
      }
      assert Eval(f, Alpha(s)) == 0;
      TooManyRoots(g, w - 1, s);
      AlphaNonzero(s);
      OneTerm(f, Alpha(s));
    }
  }

  /** Minimum distance: the words of two different data words differ in at least count + 1 positions. */
  lemma MinimumDistance(a: seq<Byte>, b: seq<Byte>, count: nat)
    requires |a| == |b| && |a| + count <= 255 && a != b
    ensures Distance(a + Ecc(a, count), b + Ecc(b, count)) >= count + 1
  {
    hide Eval, Alpha, Plus, Times, Ecc;
    var u, v := a + Ecc(a, count), b + Ecc(b, count);
    var f := Sum(u, v);
    DistanceIsWeight(u, v);
    if Weight(f) <= count {
      forall k: nat | 0 <= k < 0 + count ensures Eval(f, Alpha(k)) == 0 {
        CodewordVanishes(a, count, k);
        CodewordVanishes(b, count, k);
        EvalSum(u, v, Alpha(k));
        PlusLaws(0, 0, 0);
      }
      TooManyRoots(f, count, 0);
      WeightPositive(f);
      forall i | 0 <= i < |a| ensures a[i] == b[i] {
        assert f[i] == Plus(u[i], v[i]);
        PlusEqual(u[i], v[i]);
      }
    }
  }

  lemma {:induction false} DistanceTriangle(p: Poly, q: Poly, r: Poly)
    requires |p| == |q| == |r|
    ensures Distance(p, r) <= Distance(p, q) + Distance(q, r)
  {
    if |p| > 0 {
      DistanceTriangle(p[..|p| - 1], q[..|p| - 1], r[..|p| - 1]);
    }
  }

  lemma {:induction false} DistanceSymmetric(p: Poly, q: Poly)
    requires |p| == |q|
    ensures Distance(p, q) == Distance(q, p)
  {
    if |p| > 0 {
      DistanceSymmetric(p[..|p| - 1], q[..|p| - 1]);
    }
  }

  /** Any damage to at most half of the check bytes' number of codewords leaves the data word determined. */
  lemma DamageIsCorrectable(a: seq<Byte>, b: seq<Byte>, count: nat, seen: seq<Byte>)
    requires |a| == |b| && |a| + count <= 255 && |seen| == |a| + count
    requires 2 * Distance(a + Ecc(a, count), seen) <= count
    requires 2 * Distance(b + Ecc(b, count), seen) <= count
    ensures a == b
  {
    hide Ecc, Distance;
    if a != b {
      MinimumDistance(a, b, count);
      DistanceTriangle(a + Ecc(a, count), seen, b + Ecc(b, count));
      DistanceSymmetric(seen, b + Ecc(b, count));
    }
  }
}
