// Words over the field, the generator polynomial and the division by shift register of
// the ECC 200 encoder, as functions on sequences of bytes.

module ReedSolomonCode {
  import opened GaloisField
  import opened Sequences

  // A word is the coefficients of a polynomial, highest first; this is its value at the
  // j-th power of alpha.
  function Value(w: seq<Byte>, j: nat): Byte {
    if w == [] then ZERO else Add(Times(j * (|w| - 1), w[0]), Value(w[1..], j))
  }

  // The same for coefficients stored lowest first, as rspoly and out are.
  function Low(p: seq<Byte>, j: nat): Byte {
    if p == [] then ZERO else Add(p[0], Times(j, Low(p[1..], j)))
  }

  // The polynomial has the roots alpha^first .. alpha^(first + n - 1).
  ghost predicate IsCodeword(w: seq<Byte>, first: nat, n: nat) {
    forall j :: first <= j < first + n ==> Value(w, j) == ZERO
  }

  lemma MulSuccessor(j: nat, k: nat)
    ensures j * (k + 1) == j + j * k
  {
  }

  lemma TimesShift(j: nat, k: nat, x: Byte)
    ensures Times(j * (k + 1), x) == Times(j, Times(j * k, x))
  {
    MulSuccessor(j, k);
    TimesAdd(j, j * k, x);
  }

  // One more symbol moves what is before it up by one power.
  lemma Carry(j: nat, k: nat, x: Byte, y: Byte, b: Byte)
    ensures Add(Times(j, Add(Times(j * k, x), y)), b) == Add(Times(j * (k + 1), x), Add(Times(j, y), b))
  {
    TimesShift(j, k, x);
    TimesLinear(j, Times(j * k, x), y);
    AddAssoc(Times(j * (k + 1), x), Times(j, y), b);
  }

  lemma {:induction false} ValueSnoc(w: seq<Byte>, b: Byte, j: nat)
    ensures Value(w + [b], j) == Add(Times(j, Value(w, j)), b)
  {
    if w == [] {
      assert w + [b] == [b];
      TimesZero(j);
      ValueOne(b, j);
      AddZero(b);
    } else {
      ValueSnoc(w[1..], b, j);
      assert (w + [b])[1..] == w[1..] + [b] && (w + [b])[0] == w[0];
      Carry(j, |w| - 1, w[0], Value(w[1..], j), b);
    }
  }

  lemma ValueOne(b: Byte, j: nat)
    ensures Value([b], j) == b
  {
    assert j * 0 == 0;
    assert Value([b][1..], j) == ZERO;
    AddZero(b);
  }

  lemma {:induction false} ValueReverse(p: seq<Byte>, j: nat)
    ensures Value(Reverse(p), j) == Low(p, j)
  {
    if p != [] {
      ValueReverse(p[1..], j);
      ValueSnoc(Reverse(p[1..]), p[0], j);
    }
  }

  lemma {:induction false} ValueConcat(u: seq<Byte>, v: seq<Byte>, j: nat)
    ensures Value(u + v, j) == Add(Times(j * |v|, Value(u, j)), Value(v, j))
  {
    if v == [] {
      assert u + v == u && j * |v| == 0;
      AddZero(Value(u, j));
    } else {
      var k := |v| - 1;
      var t, b := v[..k], v[k];
      ValueConcat(u, t, j);
      assert u + v == (u + t) + [b] && v == t + [b];
      ValueSnoc(u + t, b, j);
      ValueSnoc(t, b, j);
      Carry(j, k, Value(u, j), Value(t, j), b);
    }
  }

  // Sums and multiples of polynomials, lowest coefficient first --------------------

  function Sum(p: seq<Byte>, q: seq<Byte>): (r: seq<Byte>)
    requires |p| == |q|
    ensures |r| == |p|
  {
    if p == [] then [] else [Add(p[0], q[0])] + Sum(p[1..], q[1..])
  }

  function Scale(n: nat, p: seq<Byte>): (r: seq<Byte>)
    ensures |r| == |p|
  {
    if p == [] then [] else [Times(n, p[0])] + Scale(n, p[1..])
  }

  lemma {:induction false} SumAt(p: seq<Byte>, q: seq<Byte>, k: nat)
    requires |p| == |q| && k < |p|
    ensures Sum(p, q)[k] == Add(p[k], q[k])
  {
    if k > 0 {
      SumAt(p[1..], q[1..], k - 1);
    }
  }

  lemma {:induction false} ScaleAt(n: nat, p: seq<Byte>, k: nat)
    requires k < |p|
    ensures Scale(n, p)[k] == Times(n, p[k])
  {
    if k > 0 {
      ScaleAt(n, p[1..], k - 1);
    }
  }

  lemma {:induction false} LowSum(p: seq<Byte>, q: seq<Byte>, j: nat)
    requires |p| == |q|
    ensures Low(Sum(p, q), j) == Add(Low(p, j), Low(q, j))
  {
    if p == [] {
      AddZero(ZERO);
    } else {
      LowSum(p[1..], q[1..], j);
      assert Sum(p, q)[1..] == Sum(p[1..], q[1..]);
      TimesLinear(j, Low(p[1..], j), Low(q[1..], j));
      AddShuffle(p[0], q[0], Times(j, Low(p[1..], j)), Times(j, Low(q[1..], j)));
    }
  }

  lemma {:induction false} LowScale(n: nat, p: seq<Byte>, j: nat)
    ensures Low(Scale(n, p), j) == Times(n, Low(p, j))
  {
    if p == [] {
      TimesZero(n);
    } else {
      LowScale(n, p[1..], j);
      assert Scale(n, p)[1..] == Scale(n, p[1..]);
      TimesLinear(n, p[0], Times(j, Low(p[1..], j)));
      TimesCommute(n, j, Low(p[1..], j));
    }
  }

  lemma {:induction false} LowSnoc(p: seq<Byte>, c: Byte, j: nat)
    ensures Low(p + [c], j) == Add(Low(p, j), Times(j * |p|, c))
  {
    if p == [] {
      assert p + [c] == [c] && [c][1..] == [];
      TimesZero(j);
      assert j * |p| == 0;
      AddZero(c);
    } else {
      LowSnoc(p[1..], c, j);
      assert (p + [c])[1..] == p[1..] + [c] && (p + [c])[0] == p[0];
      TimesLinear(j, Low(p[1..], j), Times(j * (|p| - 1), c));
      TimesShift(j, |p| - 1, c);
      AddAssoc(p[0], Times(j, Low(p[1..], j)), Times(j * |p|, c));
    }
  }

  // The generator -------------------------------------------------------------------

  // (x + alpha^i) * p
  function WithRoot(p: seq<Byte>, i: nat): (r: seq<Byte>)
    ensures |r| == |p| + 1
  {
    Sum([ZERO] + p, Scale(i, p) + [ZERO])
  }

  // (x + alpha^first) * ... * (x + alpha^(first + n - 1))
  function Generator(n: nat, first: nat): (g: seq<Byte>)
    ensures |g| == n + 1
  {
    if n == 0 then [ONE] else WithRoot(Generator(n - 1, first), first + n - 1)
  }

  lemma LowShifted(p: seq<Byte>, j: nat)
    ensures Low([ZERO] + p, j) == Times(j, Low(p, j))
  {
    assert ([ZERO] + p)[1..] == p;
    AddZero(Times(j, Low(p, j)));
  }

  lemma LowPadded(p: seq<Byte>, j: nat)
    ensures Low(p + [ZERO], j) == Low(p, j)
  {
    LowSnoc(p, ZERO, j);
    TimesZero(j * |p|);
    AddZero(Low(p, j));
  }

  lemma LowWithRoot(p: seq<Byte>, i: nat, j: nat)
    ensures Low(WithRoot(p, i), j) == Add(Times(j, Low(p, j)), Times(i, Low(p, j)))
  {
    var u, v := [ZERO] + p, Scale(i, p);
    LowSum(u, v + [ZERO], j);
    LowShifted(p, j);
    LowPadded(v, j);
    LowScale(i, p, j);
  }

  // It is monic and its constant term is not zero.
  lemma {:induction false} GeneratorEnds(n: nat, first: nat)
    ensures Generator(n, first)[n] == ONE && Generator(n, first)[0] != ZERO
  {
    if n > 0 {
      GeneratorEnds(n - 1, first);
      WithRootEnds(Generator(n - 1, first), first + n - 1, Generator(n, first));
    }
  }

  lemma WithRootEnds(p: seq<Byte>, i: nat, r: seq<Byte>)
    requires p != [] && p[0] != ZERO && r == WithRoot(p, i)
    ensures r[|p|] == p[|p| - 1] && r[0] != ZERO
  {
    var u, v := [ZERO] + p, Scale(i, p) + [ZERO];
    SumAt(u, v, |p|);
    AddZero(p[|p| - 1]);
    SumAt(u, v, 0);
    ScaleAt(i, p, 0);
    AddZero(v[0]);
    TimesNonzero(i, p[0]);
  }

  lemma LowOne(j: nat)
    ensures Low([ONE], j) == ONE
  {
    assert [ONE][1..] == [];
    TimesZero(j);
    AddZero(ONE);
  }

  // (alpha^j + alpha^i) * y is zero exactly when a factor is.
  lemma RootFactor(i: nat, j: nat, y: Byte)
    requires i < ORDER && j < ORDER
    ensures Add(Times(j, y), Times(i, y)) == ZERO <==> y == ZERO || i == j
  {
    if y == ZERO || i == j {
      RootFactorZero(i, j, y);
    } else {
      TimesSeparates(i, j, y);
      if Add(Times(j, y), Times(i, y)) == ZERO {
        AddCancel(Times(j, y), Times(i, y));
      }
    }
  }

  lemma RootFactorZero(i: nat, j: nat, y: Byte)
    requires y == ZERO || i == j
    ensures Add(Times(j, y), Times(i, y)) == ZERO
  {
    if y == ZERO {
      TimesZero(i);
      TimesZero(j);
    }
    AddLaws(Times(i, y), ZERO);
  }

  // The roots among the powers of alpha are exactly the ones it was built from.
  lemma {:induction false} GeneratorRoots(n: nat, first: nat, j: nat)
    requires j < ORDER && first + n <= ORDER
    ensures Low(Generator(n, first), j) == ZERO <==> first <= j < first + n
  {
    if n == 0 {
      LowOne(j);
    } else {
      GeneratorRoots(n - 1, first, j);
      var p := Generator(n - 1, first);
      LowWithRoot(p, first + n - 1, j);
      RootFactor(first + n - 1, j, Low(p, j));
    }
  }

  lemma {:induction false} GeneratorVanishes(n: nat, first: nat, j: nat)
    requires first <= j < first + n
    ensures Low(Generator(n, first), j) == ZERO
  {
    var p := Generator(n - 1, first);
    LowWithRoot(p, first + n - 1, j);
    if j < first + n - 1 {
      GeneratorVanishes(n - 1, first, j);
    }
    RootFactorZero(first + n - 1, j, Low(p, j));
  }

  // The shift register --------------------------------------------------------------

  ghost function Multiple(m: Byte, p: seq<Byte>): (r: seq<Byte>)
    ensures |r| == |p|
  {
    if p == [] then [] else [Mul(m, p[0])] + Multiple(m, p[1..])
  }

  lemma {:induction false} MultipleAt(m: Byte, p: seq<Byte>, k: nat)
    requires k < |p|
    ensures Multiple(m, p)[k] == Mul(m, p[k])
  {
    if k > 0 {
      MultipleAt(m, p[1..], k - 1);
    }
  }

  lemma {:induction false} LowMultiple(m: Byte, p: seq<Byte>, j: nat)
    ensures Low(Multiple(m, p), j) == Mul(m, Low(p, j))
  {
    if p == [] {
      MulZero(m);
    } else {
      LowMultiple(m, p[1..], j);
      assert Multiple(m, p)[1..] == Multiple(m, p[1..]);
      MulLinear(m, p[0], Times(j, Low(p[1..], j)));
      MulTimes(m, Low(p[1..], j), j);
    }
  }

  lemma MulTimes(m: Byte, x: Byte, j: nat)
    ensures Mul(m, Times(j, x)) == Times(j, Mul(m, x))
  {
    if m == ZERO {
      TimesZero(j);
    } else {
      TimesCommute(Log(m), j, x);
    }
  }

  // One symbol of the message is shifted into the register.
  ghost function Feed(out: seq<Byte>, g: seq<Byte>, d: Byte): (r: seq<Byte>)
    requires |g| == |out| + 1 && out != []
    ensures |r| == |out|
  {
    var n := |out|;
    Sum([ZERO] + out[..n - 1], Multiple(Add(out[n - 1], d), g[..n]))
  }

  ghost function Remainder(data: seq<Byte>, g: seq<Byte>): (r: seq<Byte>)
    requires |g| > 1
    ensures |r| == |g| - 1
  {
    if data == [] then seq(|g| - 1, _ => ZERO)
    else Feed(Remainder(data[..|data| - 1], g), g, data[|data| - 1])
  }

  lemma LowFeed(out: seq<Byte>, g: seq<Byte>, d: Byte, j: nat, k: nat)
    requires |g| == |out| + 1 && out != [] && g[|out|] == ONE && Low(g, j) == ZERO && k == j * |out|
    ensures Low(Feed(out, g, d), j) == Add(Times(j, Low(out, j)), Times(k, d))
  {
    var n := |out|;
    var c := out[n - 1];
    Split(out, g);
    FeedParts(out, g, [ZERO] + out[..n - 1], c, g[..n], d, j, k);
  }

  lemma Split(out: seq<Byte>, g: seq<Byte>)
    requires |g| == |out| + 1 && out != []
    ensures [ZERO] + out == [ZERO] + out[..|out| - 1] + [out[|out| - 1]]
    ensures g == g[..|out|] + [g[|out|]]
  {
  }

  lemma FeedParts(out: seq<Byte>, g: seq<Byte>, u: seq<Byte>, c: Byte, front: seq<Byte>, d: Byte, j: nat, k: nat)
    requires [ZERO] + out == u + [c] && g == front + [ONE] && |u| == |front| && Low(g, j) == ZERO && k == j * |u|
    ensures Low(Sum(u, Multiple(Add(c, d), front)), j) == Add(Times(j, Low(out, j)), Times(k, d))
  {
    ShiftedOut(out, u, c, j, k);
    LowTaps(Add(c, d), front, g, j, k);
    FeedbackCancels(u, Multiple(Add(c, d), front), j, Times(j, Low(out, j)), c, d, k);
  }

  // What leaves the register on one side comes back through the taps.
  lemma FeedbackCancels(u: seq<Byte>, v: seq<Byte>, j: nat, a: Byte, c: Byte, d: Byte, k: nat)
    requires |u| == |v| && Low(u, j) == Add(a, Times(k, c)) && Low(v, j) == Times(k, Add(c, d))
    ensures Low(Sum(u, v), j) == Add(a, Times(k, d))
  {
    LowSum(u, v, j);
    TimesLinear(k, c, d);
    AddTwice(a, Times(k, c), Times(k, d));
  }

  lemma LowTaps(m: Byte, front: seq<Byte>, g: seq<Byte>, j: nat, k: nat)
    requires g == front + [ONE] && Low(g, j) == ZERO && k == j * |front|
    ensures Low(Multiple(m, front), j) == Times(k, m)
  {
    LowMultiple(m, front, j);
    LowSnoc(front, ONE, j);
    AddCancel(Low(front, j), Times(k, ONE));
    MulTimes(m, ONE, k);
    MulOne(m);
  }

  lemma AddTwice(a: Byte, c: Byte, d: Byte)
    ensures Add(Add(a, c), Add(c, d)) == Add(a, d)
  {
    AddAssoc(a, c, Add(c, d));
    AddLaws(c, d);
  }

  lemma ShiftedOut(out: seq<Byte>, u: seq<Byte>, c: Byte, j: nat, k: nat)
    requires [ZERO] + out == u + [c] && k == j * |u|
    ensures Low(u, j) == Add(Times(j, Low(out, j)), Times(k, c))
  {
    LowSnoc(u, c, j);
    LowShifted(out, j);
    Move(Times(j, Low(out, j)), Low(u, j), Times(k, c));
  }

  lemma Move(x: Byte, u: Byte, c: Byte)
    requires x == Add(u, c)
    ensures u == Add(x, c)
  {
    AddAssoc(u, c, c);
    AddLaws(c, c);
    AddZero(u);
  }

  lemma MulOne(m: Byte)
    ensures Mul(m, ONE) == m
  {
  }

  lemma {:induction false} LowZeros(z: seq<Byte>, j: nat)
    requires forall k :: 0 <= k < |z| ==> z[k] == ZERO
    ensures Low(z, j) == ZERO
  {
    if z != [] {
      LowZeros(z[1..], j);
      TimesZero(j);
      AddZero(ZERO);
    }
  }

  // At a root of g the register holds the message shifted past the check symbols.
  lemma {:induction false} LowRemainder(data: seq<Byte>, g: seq<Byte>, j: nat)
    requires |g| > 1 && g[|g| - 1] == ONE && Low(g, j) == ZERO
    ensures Low(Remainder(data, g), j) == Times(j * (|g| - 1), Value(data, j))
  {
    var n := |g| - 1;
    if data == [] {
      LowZeros(Remainder(data, g), j);
      TimesZero(j * n);
    } else {
      var t, d := data[..|data| - 1], data[|data| - 1];
      LowRemainder(t, g, j);
      LowFeed(Remainder(t, g), g, d, j, j * n);
      assert data == t + [d];
      ShiftedValue(t, d, j, j * n);
    }
  }

  lemma ShiftedValue(t: seq<Byte>, d: Byte, j: nat, k: nat)
    ensures Times(k, Value(t + [d], j)) == Add(Times(j, Times(k, Value(t, j))), Times(k, d))
  {
    ValueSnoc(t, d, j);
    TimesLinear(k, Times(j, Value(t, j)), d);
    TimesCommute(j, k, Value(t, j));
  }

  // The message followed by its check symbols
  ghost function Encoded(data: seq<Byte>, n: nat, first: nat): seq<Byte>
    requires n > 0
  {
    data + Reverse(Remainder(data, Generator(n, first)))
  }

  // It has all the roots of the generator.
  lemma EncodedIsCodeword(data: seq<Byte>, n: nat, first: nat)
    requires n > 0
    ensures IsCodeword(Encoded(data, n, first), first, n)
  {
    var g := Generator(n, first);
    var r := Remainder(data, g);
    GeneratorEnds(n, first);
    forall j | first <= j < first + n ensures Value(data + Reverse(r), j) == ZERO {
      GeneratorVanishes(n, first, j);
      LowRemainder(data, g, j);
      ValueConcat(data, Reverse(r), j);
      ValueReverse(r, j);
      AddLaws(Low(r, j), ZERO);
    }
  }

  // Distance ------------------------------------------------------------------------

  // A nonzero term of a word
  datatype Term = Term(exponent: nat, coefficient: Byte)

  function Terms(w: seq<Byte>): seq<Term> {
    if w == [] then []
    else if w[0] == ZERO then Terms(w[1..])
    else [Term(|w| - 1, w[0])] + Terms(w[1..])
  }

  function EvalTerms(ts: seq<Term>, j: nat): Byte {
    if ts == [] then ZERO else Add(Times(j * ts[0].exponent, ts[0].coefficient), EvalTerms(ts[1..], j))
  }

  lemma {:induction false} TermsValue(w: seq<Byte>, j: nat)
    ensures EvalTerms(Terms(w), j) == Value(w, j)
  {
    if w != [] {
      TermsValue(w[1..], j);
      if w[0] == ZERO {
        TimesZero(j * (|w| - 1));
        AddZero(Value(w[1..], j));
      } else {
        assert Terms(w)[1..] == Terms(w[1..]);
      }
    }
  }

  // Nonzero coefficients at strictly falling exponents
  predicate Sparse(ts: seq<Term>, bound: nat) {
    ts == [] || (ts[0].exponent < bound && ts[0].coefficient != ZERO && Sparse(ts[1..], ts[0].exponent))
  }

  lemma {:induction false} SparseWeaken(ts: seq<Term>, a: nat, b: nat)
    requires Sparse(ts, a) && a <= b
    ensures Sparse(ts, b)
  {
  }

  lemma {:induction false} TermsSparse(w: seq<Byte>)
    ensures Sparse(Terms(w), |w|)
  {
    if w != [] {
      TermsSparse(w[1..]);
      if w[0] == ZERO {
        SparseWeaken(Terms(w[1..]), |w| - 1, |w|);
      } else {
        assert Terms(w)[1..] == Terms(w[1..]);
      }
    }
  }

  // Each coefficient c of exponent e becomes c * (alpha^e + alpha^e0).
  function Reduce(ts: seq<Term>, e0: nat): seq<Term> {
    if ts == [] then []
    else
      var t := ts[0];
      [Term(t.exponent, Add(Times(t.exponent, t.coefficient), Times(e0, t.coefficient)))] + Reduce(ts[1..], e0)
  }

  lemma {:induction false} ReduceValue(ts: seq<Term>, e0: nat, j: nat)
    ensures EvalTerms(Reduce(ts, e0), j) == Add(EvalTerms(ts, j + 1), Times(e0, EvalTerms(ts, j)))
    ensures |Reduce(ts, e0)| == |ts|
  {
    if ts == [] {
      TimesZero(e0);
      AddZero(ZERO);
    } else {
      ReduceValue(ts[1..], e0, j);
      assert Reduce(ts, e0)[1..] == Reduce(ts[1..], e0);
      var e, c := ts[0].exponent, ts[0].coefficient;
      ReduceTerm(e, c, e0, j);
      TimesLinear(e0, Times(j * e, c), EvalTerms(ts[1..], j));
      AddShuffle(Times((j + 1) * e, c), Times(e0, Times(j * e, c)),
                 EvalTerms(ts[1..], j + 1), Times(e0, EvalTerms(ts[1..], j)));
    }
  }

  lemma ReduceTerm(e: nat, c: Byte, e0: nat, j: nat)
    ensures Times(j * e, Add(Times(e, c), Times(e0, c))) == Add(Times((j + 1) * e, c), Times(e0, Times(j * e, c)))
  {
    MulNext(j, e);
    ReduceShift(e, c, e0, j * e, (j + 1) * e);
  }

  lemma MulNext(j: nat, e: nat)
    ensures (j + 1) * e == e + j * e
  {
  }

  lemma ReduceShift(e: nat, c: Byte, e0: nat, k: nat, n: nat)
    requires n == e + k
    ensures Times(k, Add(Times(e, c), Times(e0, c))) == Add(Times(n, c), Times(e0, Times(k, c)))
  {
    var a, b := Times(k, Times(e, c)), Times(k, Times(e0, c));
    assert a == Times(n, c) by { TimesAdd(k, e, c); }
    assert b == Times(e0, Times(k, c)) by { TimesCommute(k, e0, c); }
    TimesLinear(k, Times(e, c), Times(e0, c));
  }

  lemma {:induction false} ReduceSparse(ts: seq<Term>, e0: nat, bound: nat)
    requires Sparse(ts, bound) && bound <= e0 < ORDER
    ensures Sparse(Reduce(ts, e0), bound)
  {
    if ts != [] {
      var t := ts[0];
      TimesSeparates(t.exponent, e0, t.coefficient);
      if Add(Times(t.exponent, t.coefficient), Times(e0, t.coefficient)) == ZERO {
        AddCancel(Times(t.exponent, t.coefficient), Times(e0, t.coefficient));
      }
      ReduceSparse(ts[1..], e0, ts[0].exponent);
      assert Reduce(ts, e0)[1..] == Reduce(ts[1..], e0);
    }
  }

  // Eliminating the first term at two neighbouring roots
  lemma OneTermLess(ts: seq<Term>, j: nat)
    requires ts != [] && EvalTerms(ts, j) == ZERO && EvalTerms(ts, j + 1) == ZERO
    ensures EvalTerms(Reduce(ts[1..], ts[0].exponent), j) == ZERO
  {
    var t := ts[0];
    ReduceValue(ts, t.exponent, j);
    var less := Reduce(ts, t.exponent);
    assert less[1..] == Reduce(ts[1..], t.exponent);
    TimesZero(t.exponent);
    TimesZero(j * t.exponent);
    AddZero(ZERO);
    AddLaws(Times(t.exponent, t.coefficient), ZERO);
    AddZero(EvalTerms(less[1..], j));
  }

  // A polynomial with as many consecutive roots as terms is zero: eliminating one term
  // costs one root.
  lemma {:induction false} TooManyRoots(ts: seq<Term>, bound: nat, first: nat)
    requires Sparse(ts, bound) && bound <= ORDER
    requires forall j :: first <= j < first + |ts| ==> EvalTerms(ts, j) == ZERO
    ensures ts == []
    decreases |ts|
  {
    if ts != [] {
      var t, rest := ts[0], ts[1..];
      var less := Reduce(rest, t.exponent);
      forall j | first <= j < first + |rest| ensures EvalTerms(less, j) == ZERO {
        OneTermLess(ts, j);
      }
      ReduceValue(rest, t.exponent, first);
      ReduceSparse(rest, t.exponent, t.exponent);
      TooManyRoots(less, t.exponent, first);
      assert rest == [];
      assert EvalTerms(ts, first) == Add(Times(first * t.exponent, t.coefficient), EvalTerms(rest, first));
      AddZero(Times(first * t.exponent, t.coefficient));
      TimesNonzero(first * t.exponent, t.coefficient);
    }
  }

  // The number of positions at which two words differ
  function Distance(u: seq<Byte>, v: seq<Byte>): nat
    requires |u| == |v|
  {
    if u == [] then 0 else (if u[0] == v[0] then 0 else 1) + Distance(u[1..], v[1..])
  }

  lemma {:induction false} SumDistance(u: seq<Byte>, v: seq<Byte>)
    requires |u| == |v|
    ensures |Terms(Sum(u, v))| == Distance(u, v)
  {
    if u != [] {
      SumDistance(u[1..], v[1..]);
      assert Sum(u, v)[1..] == Sum(u[1..], v[1..]);
      AddLaws(u[0], v[0]);
      if Add(u[0], v[0]) == ZERO {
        AddCancel(u[0], v[0]);
      }
    }
  }

  lemma {:induction false} SumValue(u: seq<Byte>, v: seq<Byte>, j: nat)
    requires |u| == |v|
    ensures Value(Sum(u, v), j) == Add(Value(u, j), Value(v, j))
  {
    if u == [] {
      AddZero(ZERO);
    } else {
      SumValue(u[1..], v[1..], j);
      assert Sum(u, v)[1..] == Sum(u[1..], v[1..]);
      TimesLinear(j * (|u| - 1), u[0], v[0]);
      AddShuffle(Times(j * (|u| - 1), u[0]), Times(j * (|u| - 1), v[0]), Value(u[1..], j), Value(v[1..], j));
    }
  }

  lemma {:induction false} DistanceZero(u: seq<Byte>, v: seq<Byte>)
    requires |u| == |v| && Distance(u, v) == 0
    ensures u == v
  {
    if u != [] {
      DistanceZero(u[1..], v[1..]);
      assert u == [u[0]] + u[1..] && v == [v[0]] + v[1..];
    }
  }

  // Two codewords that are not equal differ in more than n positions, so n / 2 errors
  // can be corrected.
  lemma CodewordsFarApart(u: seq<Byte>, v: seq<Byte>, first: nat, n: nat)
    requires |u| == |v| <= ORDER && u != v
    requires IsCodeword(u, first, n) && IsCodeword(v, first, n)
    ensures Distance(u, v) > n
  {
    var w := Sum(u, v);
    SumDistance(u, v);
    if Distance(u, v) <= n {
      forall j | first <= j < first + |Terms(w)| ensures EvalTerms(Terms(w), j) == ZERO {
        TermsValue(w, j);
        SumValue(u, v, j);
        AddZero(ZERO);
      }
      TermsSparse(w);
      TooManyRoots(Terms(w), |w|, first);
      DistanceZero(u, v);
    }
  }

  lemma {:induction false} DistanceAtMost(u: seq<Byte>, v: seq<Byte>)
    requires |u| == |v|
    ensures Distance(u, v) <= |u|
  {
    if u != [] {
      DistanceAtMost(u[1..], v[1..]);
    }
  }

  lemma {:induction false} DistancePrefix(a: seq<Byte>, u: seq<Byte>, v: seq<Byte>)
    requires |u| == |v|
    ensures Distance(a + u, a + v) == Distance(u, v)
  {
    if a == [] {
      assert a + u == u && a + v == v;
    } else {
      DistancePrefix(a[1..], u, v);
      assert (a + u)[1..] == a[1..] + u && (a + v)[1..] == a[1..] + v;
    }
  }

  // The check symbols are the only ones that complete the message to a codeword.
  lemma CheckSymbolsUnique(data: seq<Byte>, check: seq<Byte>, n: nat, first: nat)
    requires n > 0 && |check| == n && |data| + n <= ORDER
    ensures IsCodeword(data + check, first, n) <==> data + check == Encoded(data, n, first)
  {
    var r := Reverse(Remainder(data, Generator(n, first)));
    EncodedIsCodeword(data, n, first);
    if IsCodeword(data + check, first, n) && data + check != data + r {
      CodewordsFarApart(data + check, data + r, first, n);
      DistancePrefix(data, check, r);
      DistanceAtMost(check, r);
    }
  }
}
