/** The series evaluations of `src/geom.rs` over exact reals: Horner's rule, the coefficient tables
    of the auxiliary latitudes, and Clenshaw summation of sine series, real and complex. */
module Series {

  // ---------- explicit sums ----------

  function Power(x: real, n: nat): real {
    if n == 0 then 1.0 else x * Power(x, n - 1)
  }

  /** `p[0] w(0) + p[1] w(1) + ... + p[n-1] w(n-1)`. */
  function Weighted(p: seq<real>, w: nat -> real): real {
    if p == [] then 0.0 else Weighted(p[..|p| - 1], w) + p[|p| - 1] * w(|p| - 1)
  }

  function PowersOf(x: real): nat -> real {
    (n: nat) => Power(x, n)
  }

  /** `p[0] + p[1] x + ... + p[n-1] x^(n-1)`. */
  function PowerSum(x: real, p: seq<real>): real {
    Weighted(p, PowersOf(x))
  }

  lemma OneMore(p: seq<real>, w: nat -> real, i: nat)
    requires i < |p|
    ensures Weighted(p[..i + 1], w) == Weighted(p[..i], w) + p[i] * w(i)
  {
    assert p[..i + 1][..i] == p[..i];
  }

  lemma HornerStep(x: real, y: real, a: real, power: real)
    ensures (y * x + a) * power == y * (x * power) + a * power
  {
  }

  /** The terms from `i` on have been put into `y`. */
  ghost predicate IsHorner(p: seq<real>, w: nat -> real, n: nat, i: nat, y: real)
    requires i <= n < |p|
  {
    y * w(i) + Weighted(p[..i], w) == Weighted(p[..n + 1], w)
  }

  lemma HornerKeeps(x: real, p: seq<real>, w: nat -> real, n: nat, i: nat, y: real)
    requires i < n < |p| && w(i + 1) == x * w(i) && IsHorner(p, w, n, i + 1, y)
    ensures IsHorner(p, w, n, i, y * x + p[i])
  {
    OneMore(p, w, i);
    HornerStep(x, y, p[i], w(i));
  }

  lemma HornerEnds(p: seq<real>, w: nat -> real, n: nat, y: real)
    requires n < |p| && w(0) == 1.0 && IsHorner(p, w, n, 0, y)
    ensures y == Weighted(p[..n + 1], w)
  {
    assert y * 1.0 == y && p[..0] == [];
  }

  lemma HornerStarts(x: real, p: seq<real>, n: nat)
    requires n < |p|
    ensures IsHorner(p, PowersOf(x), n, n, p[n])
  {
    OneMore(p, PowersOf(x), n);
  }

  lemma HornerTurn(x: real, p: seq<real>, n: nat, i: nat, y: real)
    requires i < n < |p| && IsHorner(p, PowersOf(x), n, i + 1, y)
    ensures IsHorner(p, PowersOf(x), n, i, y * x + p[i])
  {
    HornerKeeps(x, p, PowersOf(x), n, i, y);
  }

  /** Horner evaluation: `y` runs from the highest coefficient down. */
  method Polyval(x: real, p: seq<real>, n: nat) returns (y: real)
    requires n < |p|
    ensures y == PowerSum(x, p[..n + 1])
  {
    y := p[n];
    var i := n;
    HornerStarts(x, p, n);
    while i > 0
      invariant i <= n
      invariant IsHorner(p, PowersOf(x), n, i, y)
    {
      i := i - 1;
      HornerTurn(x, p, n, i, y);
      y := y * x + p[i];
    }
    HornerEnds(p, PowersOf(x), n, y);
  }

  // ---------- coefficient tables ----------

  const ORDER: nat := 6

  /** Where row `l` starts in the block: the rows have 6, 5, ..., 1 entries. */
  function RowStart(l: nat): (o: nat)
    requires l <= ORDER
    ensures l < ORDER ==> o + (ORDER - l) <= 21
  {
    match l
    case 0 => 0
    case 1 => 6
    case 2 => 11
    case 3 => 15
    case 4 => 18
    case 5 => 20
    case 6 => 21
  }

  function Row(block: seq<real>, l: nat): seq<real>
    requires |block| == 21 && l < ORDER
  {
    block[RowStart(l)..RowStart(l) + (ORDER - l)]
  }

  function Rows(block: seq<real>, n: nat): seq<real>
    requires |block| == 21 && n <= ORDER
  {
    if n == 0 then [] else Rows(block, n - 1) + Row(block, n - 1)
  }

  /** The rows read the 21-entry block exactly once, in order. */
  lemma RowsAreTheBlock(block: seq<real>)
    requires |block| == 21
    ensures Rows(block, ORDER) == block
  {
    assert Rows(block, 1) == block[..6];
    assert Rows(block, 2) == block[..11];
    assert Rows(block, 3) == block[..15];
    assert Rows(block, 4) == block[..18];
    assert Rows(block, 5) == block[..20];
  }

  function Coefficient(n: real, block: seq<real>, l: nat): real
    requires |block| == 21 && l < ORDER
  {
    Power(n, l + 1) * PowerSum(n, Row(block, l))
  }

  lemma Powers(n: real)
    ensures var n2 := n * n; var n3 := n * n2; var n4 := n * n3; var n5 := n * n4; var n6 := n * n5;
            && Power(n, 0) == 1.0 && Power(n, 1) == n && Power(n, 2) == n2 && Power(n, 3) == n3
            && Power(n, 4) == n4 && Power(n, 5) == n5 && Power(n, 6) == n6
  {
    assert n * 1.0 == n;
    assert Power(n, 2) == n * Power(n, 1) && Power(n, 3) == n * Power(n, 2) && Power(n, 4) == n * Power(n, 3);
    assert Power(n, 5) == n * Power(n, 4) && Power(n, 6) == n * Power(n, 5);
  }

  function Term(p: seq<real>, w: nat -> real, k: nat): real {
    if k < |p| then p[k] * w(k) else 0.0
  }

  /** The first six terms. */
  function Terms(p: seq<real>, w: nat -> real): (t: seq<real>)
    ensures |t| == 6
  {
    seq(6, k requires 0 <= k < 6 => Term(p, w, k))
  }

  function Total(t: seq<real>): real
    requires |t| == 6
  {
    t[0] + t[1] + t[2] + t[3] + t[4] + t[5]
  }

  lemma TotalStep(t: seq<real>, u: seq<real>, n: nat)
    requires |t| == |u| == 6 && n < 6 && t[n] == 0.0 && forall k :: 0 <= k < 6 && k != n ==> u[k] == t[k]
    ensures Total(u) == Total(t) + u[n]
  {
  }

  lemma OneMoreTerm(p: seq<real>, w: nat -> real, i: nat)
    requires i < |p| && i < 6
    ensures var (t, u) := (Terms(p[..i], w), Terms(p[..i + 1], w));
            t[i] == 0.0 && u[i] == p[i] * w(i) && forall k :: 0 <= k < 6 && k != i ==> u[k] == t[k]
  {
  }

  lemma SumStep(p: seq<real>, w: nat -> real, i: nat)
    requires i < |p| && i < 6
    ensures Weighted(p[..i + 1], w) - Weighted(p[..i], w) == Total(Terms(p[..i + 1], w)) - Total(Terms(p[..i], w))
  {
    OneMore(p, w, i);
    OneMoreTerm(p, w, i);
    TotalStep(Terms(p[..i], w), Terms(p[..i + 1], w), i);
  }

  /** The sum of up to six terms. */
  lemma {:induction false} SumOfTerms(p: seq<real>, w: nat -> real, i: nat)
    requires i <= |p| && i <= 6
    ensures Weighted(p[..i], w) == Total(Terms(p[..i], w))
  {
    if i > 0 {
      SumOfTerms(p, w, i - 1);
      SumStep(p, w, i - 1);
    }
  }

  lemma TermValues(p: seq<real>, w: nat -> real)
    requires 1 <= |p| <= 6 && w(0) == 1.0
    ensures Weighted(p, w) == p[0] + Term(p, w, 1) + Term(p, w, 2) + Term(p, w, 3) + Term(p, w, 4) + Term(p, w, 5)
  {
    SumOfTerms(p, w, |p|);
    assert p[..|p|] == p && p[0] * 1.0 == p[0];
    assert Terms(p, w)[0] == p[0];
  }

  /** Six polynomials of the 21 entries; `w(k)` is the `k`-th power. */
  ghost predicate ArePolynomials(s: seq<real>, b: seq<real>, w: nat -> real)
    requires |s| == 6 && |b| == 21
  {
    && s[0] == b[0] + b[1] * w(1) + b[2] * w(2) + b[3] * w(3) + b[4] * w(4) + b[5] * w(5)
    && s[1] == b[6] + b[7] * w(1) + b[8] * w(2) + b[9] * w(3) + b[10] * w(4)
    && s[2] == b[11] + b[12] * w(1) + b[13] * w(2) + b[14] * w(3)
    && s[3] == b[15] + b[16] * w(1) + b[17] * w(2)
    && s[4] == b[18] + b[19] * w(1)
    && s[5] == b[20]
  }

  function RowSums(b: seq<real>, w: nat -> real): (s: seq<real>)
    requires |b| == 21
    ensures |s| == 6
  {
    seq(6, l requires 0 <= l < 6 => Weighted(Row(b, l), w))
  }

  /** The sums of the six rows, for any powers, written out. */
  lemma RowsArePolynomials(b: seq<real>, w: nat -> real)
    requires |b| == 21 && w(0) == 1.0
    ensures ArePolynomials(RowSums(b, w), b, w)
  {
    TermValues(Row(b, 0), w);
    TermValues(Row(b, 1), w);
    TermValues(Row(b, 2), w);
    TermValues(Row(b, 3), w);
    TermValues(Row(b, 4), w);
    TermValues(Row(b, 5), w);
  }

  /** Each coefficient is the power one above its row's number times the row's sum. */
  lemma CoefficientIsProduct(n: real, b: seq<real>, l: nat)
    requires |b| == 21 && l < 6
    ensures Coefficient(n, b, l) == Power(n, l + 1) * RowSums(b, PowersOf(n))[l]
  {
    var sum := RowSums(b, PowersOf(n))[l];
    assert PowerSum(n, Row(b, l)) == sum;
  }

  lemma PowerStep(n: real, l: nat)
    ensures Power(n, l + 1) == Power(n, l) * n
  {
  }

  /** One turn of the loop: the cell of row `l`, the next row start and the next power. */
  method Cell(n: real, block: seq<real>, l: nat, o: nat, d: real) returns (cell: real, next: nat, power: real)
    requires |block| == 21 && l < ORDER && o == RowStart(l) && d == Power(n, l + 1)
    ensures cell == Coefficient(n, block, l)
    ensures next == RowStart(l + 1) && power == Power(n, l + 2)
  {
    var m := ORDER - l - 1;
    var row := block[o..o + m + 1];
    var y := Polyval(n, row, m);
    assert row[..m + 1] == Row(block, l);
    cell := d * y;
    next := o + m + 1;
    power := d * n;
    PowerStep(n, l + 1);
  }

  /** `F[l]` is `n^(l+1)` times the power sum of row `l`. */
  method AuxlatCoeffs(n: real, block: seq<real>) returns (f: seq<real>)
    requires |block| == 21
    ensures |f| == ORDER && forall l :: 0 <= l < ORDER ==> f[l] == Coefficient(n, block, l)
  {
    f := [];
    var d := n;
    var o := 0;
    PowerStep(n, 0);
    for l := 0 to ORDER
      invariant |f| == l && o == RowStart(l) && d == Power(n, l + 1)
      invariant forall j :: 0 <= j < l ==> f[j] == Coefficient(n, block, j)
    {
      var cell, next, power := Cell(n, block, l, o, d);
      f := f + [cell];
      o, d := next, power;
    }
  }

  // ---------- complex numbers ----------

  datatype Complex = Complex(re: real, im: real) {
    function Plus(z: Complex): Complex { Complex(re + z.re, im + z.im) }

    function Minus(z: Complex): Complex { Complex(re - z.re, im - z.im) }

    function Times(z: Complex): Complex { Complex(re * z.re - im * z.im, re * z.im + im * z.re) }

    function Scale(x: real): Complex { Complex(x * re, x * im) }
  }

  const ZERO := Complex(0.0, 0.0)
  const ONE := Complex(1.0, 0.0)

  /** The sine and cosine of `n z` by the addition theorems, from those of `z`. */
  function Multiple(s: Complex, c: Complex, n: nat): (Complex, Complex) {
    if n == 0 then (ZERO, ONE)
    else
      var (sn, cn) := Multiple(s, c, n - 1);
      (sn.Times(c).Plus(cn.Times(s)), cn.Times(c).Minus(sn.Times(s)))
  }

  function Sine(s: Complex, c: Complex, n: nat): Complex {
    Multiple(s, c, n).0
  }

  /** `s` and `c` are the sine and cosine of one number. */
  predicate IsSineCosine(s: Complex, c: Complex) {
    s.Times(s).Plus(c.Times(c)) == ONE
  }

  /** `sum f[k] sin((k+1) z)`. */
  function SineSeries(f: seq<real>, s: Complex, c: Complex): Complex {
    if f == [] then ZERO
    else SineSeries(f[..|f| - 1], s, c).Plus(Sine(s, c, |f|).Scale(f[|f| - 1]))
  }

  /** The three-term recurrence of sine multiples. */
  lemma SineRecurrence(s: Complex, c: Complex, n: nat)
    requires IsSineCosine(s, c)
    ensures Sine(s, c, n + 2) == c.Scale(2.0).Times(Sine(s, c, n + 1)).Minus(Sine(s, c, n))
  {
    var (sn, cn) := Multiple(s, c, n);
    var (sm, cm) := Multiple(s, c, n + 1);
    assert sm == sn.Times(c).Plus(cn.Times(s));
    assert cm == cn.Times(c).Minus(sn.Times(s));
    assert Sine(s, c, n + 2) == sm.Times(c).Plus(cm.Times(s));
    StepBack(sn, cn, s, c);
    DoubleMinus(sm, cm, s, c);
  }

  lemma TimesAssociates(a: Complex, b: Complex, d: Complex)
    ensures a.Times(b).Times(d) == a.Times(b.Times(d))
  {
  }

  lemma TimesCommutes(a: Complex, b: Complex)
    ensures a.Times(b) == b.Times(a)
  {
  }

  lemma TimesDistributes(a: Complex, b: Complex, d: Complex)
    ensures a.Plus(b).Times(d) == a.Times(d).Plus(b.Times(d))
    ensures a.Minus(b).Times(d) == a.Times(d).Minus(b.Times(d))
    ensures d.Times(a.Plus(b)) == d.Times(a).Plus(d.Times(b))
  {
  }

  /** Subtracting the angle again: `sin(n z) = sin((n+1) z) cos z - cos((n+1) z) sin z`. */
  lemma StepBack(sn: Complex, cn: Complex, s: Complex, c: Complex)
    requires IsSineCosine(s, c)
    ensures var sm := sn.Times(c).Plus(cn.Times(s));
            var cm := cn.Times(c).Minus(sn.Times(s));
            sm.Times(c).Minus(cm.Times(s)) == sn
  {
    TimesDistributes(sn.Times(c), cn.Times(s), c);
    TimesDistributes(cn.Times(c), sn.Times(s), s);
    TimesAssociates(sn, c, c);
    TimesAssociates(sn, s, s);
    TimesAssociates(cn, s, c);
    TimesAssociates(cn, c, s);
    TimesCommutes(s, c);
    TimesDistributes(s.Times(s), c.Times(c), sn);
    CancelMiddle(sn.Times(c.Times(c)), cn.Times(s.Times(c)), sn.Times(s.Times(s)));
    assert sn.Times(ONE) == sn;
  }

  lemma CancelMiddle(a: Complex, b: Complex, d: Complex)
    ensures a.Plus(b).Minus(b.Minus(d)) == d.Plus(a)
  {
  }

  lemma DoubleMinus(sm: Complex, cm: Complex, s: Complex, c: Complex)
    ensures sm.Times(c).Plus(cm.Times(s)) == c.Scale(2.0).Times(sm).Minus(sm.Times(c).Minus(cm.Times(s)))
  {
  }

  /** One turn of either summation loop: with `h`, `h1` summing the terms from `i + 1` on, `f[i]` moves
      from the sum in front to the pair behind. */
  lemma ClenshawStep(front: Complex, h: Complex, h1: Complex, f: real, x: Complex, si: Complex, sj: Complex)
    ensures front.Plus(sj.Scale(f)).Plus(h.Times(x.Times(sj).Minus(si))).Minus(h1.Times(sj)) ==
            front.Plus(x.Times(h).Minus(h1).Plus(Complex(f, 0.0)).Times(sj)).Minus(h.Times(si))
  {
    TimesDistributes(x.Times(h).Minus(h1), Complex(f, 0.0), sj);
    TimesDistributes(x.Times(h), h1, sj);
    TimesAssociates(x, h, sj);
    TimesAssociates(h, x, sj);
    TimesCommutes(x, h);
    TimesOverMinus(x.Times(sj), si, h);
    assert Complex(f, 0.0).Times(sj) == sj.Scale(f);
  }

  lemma TimesOverMinus(a: Complex, b: Complex, d: Complex)
    ensures d.Times(a.Minus(b)) == d.Times(a).Minus(d.Times(b))
  {
  }

  /** Sine and cosine of twice a real angle. */
  function DoubleSine(szeta: real, czeta: real): Complex {
    Complex(2.0 * szeta * czeta, 0.0)
  }

  function DoubleCosine(szeta: real, czeta: real): Complex {
    Complex(czeta * czeta - szeta * szeta, 0.0)
  }

  /** Scalar Clenshaw summation: for the sine and cosine of `zeta` the result is
      `sum f[i] sin((2 i + 2) zeta)`, a real number. */
  method Clenshaw(szeta: real, czeta: real, f: seq<real>, k: nat) returns (r: real)
    requires k <= |f|
    ensures szeta * szeta + czeta * czeta == 1.0 ==>
              Complex(r, 0.0) == SineSeries(f[..k], DoubleSine(szeta, czeta), DoubleCosine(szeta, czeta))
  {
    var x := 2.0 * (czeta - szeta) * (czeta + szeta);
    ghost var proper, sine, c := StartReal(szeta, czeta, x, f[..k]);
    var u0, u1 := ClenshawLoop(x, f, k, proper, Complex(sine, 0.0), c);
    var sin2 := 2.0 * szeta * czeta;
    r := sin2 * u0;
    if proper { PairIsReal(f[..k], sin2, c, u0, u1); }
  }

  /** The loop of `clenshaw`, for `x` twice the cosine. */
  method ClenshawLoop(x: real, f: seq<real>, k: nat, ghost proper: bool, ghost s: Complex, ghost c: Complex)
    returns (u0: real, ghost u1: real)
    requires k <= |f|
    requires proper ==> IsSineCosine(s, c) && c.Scale(2.0) == Complex(x, 0.0) && SummedReal(f[..k], s, c, k, 0.0, 0.0)
    ensures proper ==> SummedReal(f[..k], s, c, 0, u0, u1)
  {
    var v1 := 0.0;
    u0 := 0.0;
    var i: nat := k;
    while i > 0
      invariant i <= k
      invariant proper ==> SummedReal(f[..k], s, c, i, u0, v1)
    {
      i := i - 1;
      if proper { MoveRealTerm(f[..k], s, c, i, x, u0, v1); }
      var t := x * u0 - v1 + f[i];
      v1 := u0;
      u0 := t;
    }
    u1 := v1;
  }

  ghost predicate SummedReal(f: seq<real>, s: Complex, c: Complex, i: nat, u0: real, u1: real)
    requires i <= |f|
  {
    Summed(f, s, c, i, Complex(u0, 0.0), Complex(u1, 0.0))
  }

  lemma StartReal(szeta: real, czeta: real, x: real, f: seq<real>) returns (proper: bool, sine: real, c: Complex)
    requires x == 2.0 * (czeta - szeta) * (czeta + szeta)
    ensures proper == (szeta * szeta + czeta * czeta == 1.0)
    ensures sine == 2.0 * szeta * czeta && c == DoubleCosine(szeta, czeta)
    ensures proper ==>
              IsSineCosine(Complex(sine, 0.0), c) && c.Scale(2.0) == Complex(x, 0.0) &&
              SummedReal(f, Complex(sine, 0.0), c, |f|, 0.0, 0.0)
  {
    proper, sine, c := szeta * szeta + czeta * czeta == 1.0, 2.0 * szeta * czeta, DoubleCosine(szeta, czeta);
    if proper {
      DoubleAngleIsAngle(szeta, czeta);
      assert x == 2.0 * (czeta * czeta - szeta * szeta);
      EmptyTail(f, DoubleSine(szeta, czeta), DoubleCosine(szeta, czeta));
    }
  }

  lemma MoveRealTerm(f: seq<real>, s: Complex, c: Complex, i: nat, x: real, u0: real, u1: real)
    requires IsSineCosine(s, c) && c.Scale(2.0) == Complex(x, 0.0)
    requires i < |f| && SummedReal(f, s, c, i + 1, u0, u1)
    ensures SummedReal(f, s, c, i, x * u0 - u1 + f[i], u0)
  {
    MoveTerm(f, s, c, i, Complex(u0, 0.0), Complex(u1, 0.0));
    RealTimes(x, u0);
  }

  lemma Commutes(a: real, b: real)
    ensures a * b == b * a
  {
  }

  /** With nothing in front, the pair stands for a real number. */
  lemma PairIsReal(f: seq<real>, sine: real, c: Complex, u0: real, u1: real)
    ensures SumAt(f, Complex(sine, 0.0), c, 0, Complex(u0, 0.0), Complex(u1, 0.0)) == Complex(sine * u0, 0.0)
  {
    PairIsProduct(f, Complex(sine, 0.0), c, Complex(u0, 0.0), Complex(u1, 0.0));
    TimesCommutes(Complex(u0, 0.0), Complex(sine, 0.0));
    RealTimes(sine, u0);
  }

  /** What both loops keep: the whole series is the part in front of `i` plus what the pair `h`, `h1`
      stands for. */
  ghost predicate Summed(f: seq<real>, s: Complex, c: Complex, i: nat, h: Complex, h1: Complex)
    requires i <= |f|
  {
    SineSeries(f, s, c) == SumAt(f, s, c, i, h, h1)
  }

  /** The part in front of `i` and what the pair stands for. */
  function SumAt(f: seq<real>, s: Complex, c: Complex, i: nat, h: Complex, h1: Complex): Complex
    requires i <= |f|
  {
    SineSeries(f[..i], s, c).Plus(h.Times(Sine(s, c, i + 1))).Minus(h1.Times(Sine(s, c, i)))
  }

  lemma EmptyTail(f: seq<real>, s: Complex, c: Complex)
    ensures Summed(f, s, c, |f|, ZERO, ZERO)
  {
    assert f[..|f|] == f;
  }

  lemma MoveTerm(f: seq<real>, s: Complex, c: Complex, i: nat, h: Complex, h1: Complex)
    requires IsSineCosine(s, c) && i < |f| && Summed(f, s, c, i + 1, h, h1)
    ensures Summed(f, s, c, i, c.Scale(2.0).Times(h).Minus(h1).Plus(Complex(f[i], 0.0)), h)
  {
    assert f[..i + 1][..i] == f[..i];
    SineRecurrence(s, c, i);
    ClenshawStep(SineSeries(f[..i], s, c), h, h1, f[i], c.Scale(2.0), Sine(s, c, i), Sine(s, c, i + 1));
  }

  lemma PairIsProduct(f: seq<real>, s: Complex, c: Complex, h: Complex, h1: Complex)
    ensures SumAt(f, s, c, 0, h, h1) == h.Times(s)
  {
    assert f[..0] == [];
    FirstSines(s, c);
    assert h1.Times(ZERO) == ZERO;
  }

  lemma FirstSines(s: Complex, c: Complex)
    ensures Sine(s, c, 0) == ZERO && Sine(s, c, 1) == s
  {
    assert Multiple(s, c, 0) == (ZERO, ONE);
    assert ZERO.Times(c).Plus(ONE.Times(s)) == s;
  }

  lemma RealTimes(a: real, b: real)
    ensures Complex(a, 0.0).Times(Complex(b, 0.0)) == Complex(a * b, 0.0)
  {
  }

  lemma DoubleAngleIsAngle(szeta: real, czeta: real)
    requires szeta * szeta + czeta * czeta == 1.0
    ensures IsSineCosine(DoubleSine(szeta, czeta), DoubleCosine(szeta, czeta))
  {
    RealTimes(2.0 * szeta * czeta, 2.0 * szeta * czeta);
    RealTimes(czeta * czeta - szeta * szeta, czeta * czeta - szeta * szeta);
    var p, q := szeta * szeta, czeta * czeta;
    assert (2.0 * szeta * czeta) * (2.0 * szeta * czeta) == 4.0 * (p * q);
    assert (q - p) * (q - p) + 4.0 * (p * q) == (p + q) * (p + q);
  }

  /** The multiples of the double angle are the even multiples of the angle itself. */
  lemma {:induction false} EvenMultiples(szeta: real, czeta: real, n: nat)
    ensures Multiple(DoubleSine(szeta, czeta), DoubleCosine(szeta, czeta), n) ==
            Multiple(Complex(szeta, 0.0), Complex(czeta, 0.0), 2 * n)
  {
    if n > 0 {
      EvenMultiples(szeta, czeta, n - 1);
      var s, c := Complex(szeta, 0.0), Complex(czeta, 0.0);
      var (sn, cn) := Multiple(s, c, 2 * (n - 1));
      var (sm, cm) := Multiple(s, c, 2 * (n - 1) + 1);
      assert sm == sn.Times(c).Plus(cn.Times(s)) && cm == cn.Times(c).Minus(sn.Times(s));
      assert Multiple(s, c, 2 * n) == (sm.Times(c).Plus(cm.Times(s)), cm.Times(c).Minus(sm.Times(s)));
      TwoSteps(sn, cn, s, c);
      DoubleParts(szeta, czeta);
    }
  }

  lemma DoubleParts(szeta: real, czeta: real)
    ensures var s, c := Complex(szeta, 0.0), Complex(czeta, 0.0);
            && DoubleCosine(szeta, czeta) == c.Times(c).Minus(s.Times(s))
            && DoubleSine(szeta, czeta) == s.Times(c).Plus(c.Times(s))
  {
    RealTimes(szeta, czeta);
    RealTimes(czeta, szeta);
    RealTimes(szeta, szeta);
    RealTimes(czeta, czeta);
    Commutes(szeta, czeta);
  }

  /** Adding the angle twice. */
  lemma TwoSteps(sn: Complex, cn: Complex, s: Complex, c: Complex)
    ensures var sm, cm := sn.Times(c).Plus(cn.Times(s)), cn.Times(c).Minus(sn.Times(s));
            var c2, s2 := c.Times(c).Minus(s.Times(s)), s.Times(c).Plus(c.Times(s));
            && sm.Times(c).Plus(cm.Times(s)) == sn.Times(c2).Plus(cn.Times(s2))
            && cm.Times(c).Minus(sm.Times(s)) == cn.Times(c2).Minus(sn.Times(s2))
  {
    TimesDistributes(sn.Times(c), cn.Times(s), c);
    TimesDistributes(cn.Times(c), sn.Times(s), s);
    TimesDistributes(cn.Times(c), sn.Times(s), c);
    TimesDistributes(sn.Times(c), cn.Times(s), s);
    TimesAssociates(sn, c, c); TimesAssociates(cn, s, c); TimesAssociates(cn, c, s); TimesAssociates(sn, s, s);
    TimesAssociates(cn, c, c); TimesAssociates(sn, s, c); TimesAssociates(sn, c, s); TimesAssociates(cn, s, s);
    TimesOverMinus(c.Times(c), s.Times(s), sn);
    TimesOverMinus(c.Times(c), s.Times(s), cn);
    TimesDistributes(s.Times(c), c.Times(s), sn);
    TimesDistributes(s.Times(c), c.Times(s), cn);
  }

  // ---------- the complex form ----------

  /** Sine and cosine of `r + i m` from those of `r` and the hyperbolic ones of `m`. */
  function SineOf(sinR: real, cosR: real, sinhI: real, coshI: real): Complex {
    Complex(sinR * coshI, cosR * sinhI)
  }

  function CosineOf(sinR: real, cosR: real, sinhI: real, coshI: real): Complex {
    Complex(cosR * coshI, -(sinR * sinhI))
  }

  lemma ComplexAngle(sinR: real, cosR: real, sinhI: real, coshI: real)
    requires sinR * sinR + cosR * cosR == 1.0 && coshI * coshI - sinhI * sinhI == 1.0
    ensures IsSineCosine(SineOf(sinR, cosR, sinhI, coshI), CosineOf(sinR, cosR, sinhI, coshI))
  {
    var a, b, u, v := sinR * sinR, cosR * cosR, coshI * coshI, sinhI * sinhI;
    Square(sinR * coshI, cosR * sinhI);
    Square(cosR * coshI, -(sinR * sinhI));
    Products(sinR, coshI); Products(cosR, sinhI); Products(cosR, coshI); Products(sinR, sinhI);
    assert a * u - b * v + (b * u - a * v) == (a + b) * (u - v);
    assert (sinR * coshI) * (cosR * sinhI) == (cosR * coshI) * (sinR * sinhI);
  }

  lemma Square(x: real, y: real)
    ensures Complex(x, y).Times(Complex(x, y)) == Complex(x * x - y * y, 2.0 * (x * y))
  {
  }

  lemma Products(x: real, y: real)
    ensures (x * y) * (x * y) == (x * x) * (y * y)
  {
  }

  /** Complex Clenshaw summation: the result is `sum a[k] sin((k + 1) z)`. */
  method ClenS(a: seq<real>, size: nat, sinR: real, cosR: real, sinhI: real, coshI: real)
    returns (re: real, im: real)
    requires 1 <= size <= |a|
    ensures sinR * sinR + cosR * cosR == 1.0 && coshI * coshI - sinhI * sinhI == 1.0 ==>
              Complex(re, im) ==
              SineSeries(a[..size], SineOf(sinR, cosR, sinhI, coshI), CosineOf(sinR, cosR, sinhI, coshI))
  {
    ghost var s, c := SineOf(sinR, cosR, sinhI, coshI), CosineOf(sinR, cosR, sinhI, coshI);
    ghost var proper := sinR * sinR + cosR * cosR == 1.0 && coshI * coshI - sinhI * sinhI == 1.0;
    if proper { ComplexAngle(sinR, cosR, sinhI, coshI); }
    var r := 2.0 * cosR * coshI;
    var i := -2.0 * sinR * sinhI;
    assert c.Scale(2.0) == Complex(r, i);
    var hr1, hi1, hi := 0.0, 0.0, 0.0;
    var hr := a[size - 1];
    var p: nat := size - 1;
    LastTerm(SineSeries(a[..size][..p], s, c), Sine(s, c, size), Sine(s, c, p), hr);
    while p > 0
      invariant p < size
      invariant proper ==> IsSineCosine(s, c) && c.Scale(2.0) == Complex(r, i)
      invariant proper ==> Summed(a[..size], s, c, p, Complex(hr, hi), Complex(hr1, hi1))
    {
      p := p - 1;
      if proper { MoveComplexTerm(a[..size], s, c, p, r, i, hr, hi, hr1, hi1); }
      var hr2, hi2 := hr1, hi1;
      hr1, hi1 := hr, hi;
      hr := -hr2 + r * hr1 - i * hi1 + a[p];
      hi := -hi2 + i * hr1 + r * hi1;
    }
    r := sinR * coshI;
    var i2 := cosR * sinhI;
    if proper { PairIsComplex(a[..size], r, i2, c, hr, hi, hr1, hi1); }
    re, im := r * hr - i2 * hi, r * hi + i2 * hr;
  }

  /** With nothing in front, the pair stands for the product of the sine and its first part. */
  lemma PairIsComplex(f: seq<real>, r: real, i: real, c: Complex, hr: real, hi: real, hr1: real, hi1: real)
    ensures SumAt(f, Complex(r, i), c, 0, Complex(hr, hi), Complex(hr1, hi1)) == Complex(r * hr - i * hi, r * hi + i * hr)
  {
    PairIsProduct(f, Complex(r, i), c, Complex(hr, hi), Complex(hr1, hi1));
    TimesCommutes(Complex(hr, hi), Complex(r, i));
  }

  /** The pair before the first turn stands for the last term. */
  lemma LastTerm(front: Complex, sine: Complex, before: Complex, last: real)
    ensures front.Plus(Complex(last, 0.0).Times(sine)).Minus(ZERO.Times(before)) == front.Plus(sine.Scale(last))
  {
  }

  lemma MoveComplexTerm(f: seq<real>, s: Complex, c: Complex, p: nat, r: real, i: real,
                        hr: real, hi: real, hr1: real, hi1: real)
    requires IsSineCosine(s, c) && c.Scale(2.0) == Complex(r, i)
    requires p < |f| && Summed(f, s, c, p + 1, Complex(hr, hi), Complex(hr1, hi1))
    ensures Summed(f, s, c, p, Complex(-hr1 + r * hr - i * hi + f[p], -hi1 + i * hr + r * hi), Complex(hr, hi))
  {
    MoveTerm(f, s, c, p, Complex(hr, hi), Complex(hr1, hi1));
    LoopStep(r, i, hr, hi, hr1, hi1, f[p]);
  }

  /** The two real assignments of the loop are one complex step. */
  lemma LoopStep(r: real, i: real, hr: real, hi: real, hr1: real, hi1: real, f: real)
    ensures Complex(r, i).Times(Complex(hr, hi)).Minus(Complex(hr1, hi1)).Plus(Complex(f, 0.0)) ==
            Complex(-hr1 + r * hr - i * hi + f, -hi1 + i * hr + r * hi)
  {
    Commutes(r, hi);
    Commutes(i, hr);
  }
}
