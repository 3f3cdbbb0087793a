// The Reed-Solomon encoder of the Data Matrix symbol: the tables of the field, the
// generator polynomial, the shift register, and the interleaving of the blocks.

module ReedSolomonEncoder {
  import opened GaloisField
  import opened ReedSolomonCode
  import opened Sequences

  const POLYNOMIAL: nat := 0x12d

  lemma PolynomialBits()
    ensures POLYNOMIAL == 256 + ToNat(REDUCTION)
  {
  }

  function Exp2(n: nat): nat {
    if n == 0 then 1 else 2 * Exp2(n - 1)
  }

  lemma {:induction false} Exp2Monotone(m: nat, n: nat)
    requires m <= n
    ensures Exp2(m) <= Exp2(n)
  {
    if m < n {
      Exp2Monotone(m, n - 1);
    }
  }

  // The highest bit of the polynomial and its position
  method TopBit(polynomial: nat) returns (b: nat, m: nat)
    requires polynomial > 0
    ensures b == Exp2(m) && b <= polynomial < 2 * b
  {
    b, m := 1, 0;
    while b <= polynomial
      invariant b == Exp2(m)
      invariant m > 0 ==> Exp2(m - 1) <= polynomial
      decreases 2 * polynomial - b
    {
      m := m + 1;
      b := 2 * b;
    }
    b := b / 2;
    m := m - 1;
  }

  lemma EightBits(m: nat)
    requires Exp2(m) <= POLYNOMIAL < 2 * Exp2(m)
    ensures m == 8
  {
    assert Exp2(8) == 256 by { assert Exp2(4) == 16; }
    if m < 8 {
      Exp2Monotone(m, 7);
    } else if m > 8 {
      Exp2Monotone(9, m);
    }
  }

  // The logarithm table holds the logarithm of x.
  predicate LogAt(z: seq<nat>, x: Byte)
    requires |z| == 256
  {
    NatBound(x);
    z[ToNat(x)] < ORDER && Pow(z[ToNat(x)]) == x
  }

  lemma NatBound(x: Byte)
    ensures ToNat(x) < 256
  {
  }

  ghost predicate TablesFor(a: seq<Byte>, z: seq<nat>) {
    && |a| == ORDER && |z| == 256
    && (forall i :: 0 <= i < ORDER ==> a[i] == Pow(i))
    && forall x :: x != ZERO ==> LogAt(z, x)
  }

  // The first v entries are filled.
  ghost predicate Filled(a: seq<Byte>, z: seq<nat>, v: nat) {
    && |a| == ORDER && |z| == 256 && v <= ORDER
    && (forall i :: 0 <= i < v ==> a[i] == Pow(i))
    && forall i :: 0 <= i < v ==> Logged(z, i)
  }

  predicate Logged(z: seq<nat>, i: nat)
    requires |z| == 256
  {
    NatBound(Pow(i));
    z[ToNat(Pow(i))] == i
  }

  lemma FillStep(a: seq<Byte>, z: seq<nat>, v: nat)
    requires Filled(a, z, v) && v < ORDER
    ensures ToNat(Pow(v)) < 256
    ensures Filled(a[v := Pow(v)], z[ToNat(Pow(v)) := v], v + 1)
  {
    NatBound(Pow(v));
    var y := z[ToNat(Pow(v)) := v];
    forall i | 0 <= i < v + 1 ensures Logged(y, i) {
      if i < v {
        assert Logged(z, i);
        PowInjectiveOrdered(i, v);
        Apart(Pow(i), Pow(v));
      }
    }
  }

  lemma FillEnd(a: seq<Byte>, z: seq<nat>)
    requires Filled(a, z, ORDER)
    ensures TablesFor(a, z)
  {
    forall x | x != ZERO ensures LogAt(z, x) {
      Reached(x);
      var i: nat :| i < ORDER && Pow(i) == x;
      assert Logged(z, i);
    }
  }

  // Sums of logarithms look up products.
  lemma LogFound(a: seq<Byte>, z: seq<nat>, x: Byte)
    requires TablesFor(a, z) && x != ZERO
    ensures ToNat(x) < 256 && z[ToNat(x)] < ORDER && Pow(z[ToNat(x)]) == x
  {
    NatBound(x);
    assert LogAt(z, x);
  }

  // The logarithm of a product is the sum of the logarithms.
  lemma LogSum(x: Byte, y: Byte, i: nat, j: nat)
    requires i < ORDER && j < ORDER && Pow(i) == x && Pow(j) == y
    ensures Pow((i + j) % ORDER) == Mul(x, y)
  {
    LogProduct(x, j, i);
    MulIs(y, x, j);
    MulCommutes(x, y);
  }

  // The inner loop over rspoly has done the positions above k.
  ghost predicate RootLoop(before: seq<Byte>, now: seq<Byte>, i: nat, index: nat, k: nat) {
    && |before| == |now| && 0 < i < |now| && k < i
    && (forall t :: 0 <= t <= k ==> now[t] == before[t])
    && (forall t :: k < t < i ==> now[t] == Add(Times(index, before[t]), before[t - 1]))
    && (forall t :: i <= t < |now| ==> now[t] == before[t])
  }

  lemma RootLoopEnd(before: seq<Byte>, now: seq<Byte>, i: nat, index: nat)
    requires RootLoop(before, now, i, index, 0) && before[i - 1] == ONE && before[i] == ONE
    ensures now[0 := Times(index, before[0])][..i + 1] == WithRoot(before[..i], index)
  {
    var p := before[..i];
    var r, s := WithRoot(p, index), now[0 := Times(index, before[0])][..i + 1];
    var u, v := [ZERO] + p, Scale(index, p) + [ZERO];
    forall t | 0 <= t < i + 1 ensures s[t] == r[t] {
      SumAt(u, v, t);
      if t < i {
        ScaleAt(index, p, t);
      }
      AddLaws(u[t], v[t]);
      AddZero(u[t]);
      AddZero(v[t]);
    }
  }

  // The inner loop over the register has done the positions above k: each received its
  // neighbour and v, the multiple of the generator.
  ghost predicate FeedLoop(before: seq<Byte>, now: seq<Byte>, v: seq<Byte>, k: nat) {
    && |before| == |now| == |v| && k < |now|
    && (forall t :: 0 <= t <= k ==> now[t] == before[t])
    && forall t :: k < t < |now| ==> now[t] == Add(before[t - 1], v[t])
  }

  lemma FeedLoopStep(before: seq<Byte>, now: seq<Byte>, v: seq<Byte>, k: nat)
    requires FeedLoop(before, now, v, k) && k > 0
    ensures FeedLoop(before, now[k := Add(now[k - 1], v[k])], v, k - 1)
  {
  }

  lemma FeedLoopEnd(before: seq<Byte>, now: seq<Byte>, v: seq<Byte>)
    requires FeedLoop(before, now, v, 0)
    ensures now[0 := v[0]] == Sum([ZERO] + before[..|before| - 1], v)
  {
    var u := [ZERO] + before[..|before| - 1];
    forall t | 0 <= t < |v| ensures now[0 := v[0]][t] == Sum(u, v)[t] {
      SumAt(u, v, t);
      if t == 0 {
        AddZero(v[0]);
      }
    }
  }

  class ReedSolomon {
    var gfpoly: nat
    var symsize: nat
    var logmod: nat
    var zlog: array<nat>
    var alog: array<Byte>
    var rspoly: array<Byte>
    var rslen: nat

    ghost predicate Tables()
      reads this, zlog, alog
    {
      gfpoly == POLYNOMIAL && symsize == 8 && logmod == ORDER && TablesFor(alog[..], zlog[..])
    }

    ghost predicate Valid()
      reads this, zlog, alog, rspoly
    {
      Tables() && rslen > 0 && rspoly[..] == Generator(rslen, 1)
    }

    constructor (blockSize: nat)
      requires blockSize > 0
      ensures Valid() && rslen == blockSize
      ensures fresh(zlog) && fresh(alog) && fresh(rspoly)
    {
      gfpoly, symsize, logmod, rslen := 0, 0, 0, 0;
      zlog, alog, rspoly := new nat[0], new Byte[0], new Byte[0];
      new;
      InitializeGaloisField(POLYNOMIAL);
      InitializeEncodingParameters(blockSize, 1);
    }

    method InitializeGaloisField(polynomial: nat)
      requires polynomial == POLYNOMIAL
      modifies this
      ensures Tables() && fresh(zlog) && fresh(alog)
      ensures rspoly == old(rspoly) && rslen == old(rslen)
    {
      gfpoly := polynomial;
      var b, m := TopBit(polynomial);
      EightBits(m);
      symsize := m;
      assert b == 256 by { assert Exp2(8) == 256 by { assert Exp2(4) == 16; } }
      logmod := b - 1;
      zlog := new nat[logmod + 1](_ => 0);
      alog := new Byte[logmod](_ => ZERO);
      var p, v := ONE, 0;
      while v < logmod
        invariant 0 <= v <= logmod == ORDER && p == Pow(v)
        invariant gfpoly == POLYNOMIAL && symsize == 8
        invariant fresh(zlog) && fresh(alog) && rspoly == old(rspoly) && rslen == old(rslen)
        invariant Filled(alog[..], zlog[..], v)
      {
        FillStep(alog[..], zlog[..], v);
        alog[v] := p;
        zlog[ToNat(p)] := v;
        var carry := p.b7;
        p := Shift(p);
        if carry {
          p := Add(p, REDUCTION);
        }
        v := v + 1;
      }
      FillEnd(alog[..], zlog[..]);
    }

    method InitializeEncodingParameters(chunks: nat, polynomialIndex: nat)
      requires Tables()
      modifies this
      ensures Tables() && zlog == old(zlog) && alog == old(alog) && fresh(rspoly)
      ensures rslen == chunks && rspoly[..] == Generator(chunks, polynomialIndex)
    {
      rspoly := new Byte[chunks + 1](_ => ZERO);
      rslen := chunks;
      rspoly[0] := ONE;
      var i := 1;
      var index := polynomialIndex;
      assert rspoly[..i] == [ONE];
      while i <= chunks
        invariant 1 <= i <= chunks + 1 && index == polynomialIndex + i - 1
        invariant Tables() && zlog == old(zlog) && alog == old(alog)
        invariant fresh(rspoly) && rspoly.Length == chunks + 1 && rslen == chunks
        invariant rspoly[..i] == Generator(i - 1, polynomialIndex)
      {
        NextRoot(i, index, polynomialIndex);
        index := index + 1;
        i := i + 1;
      }
      assert rspoly[..] == rspoly[..chunks + 1];
    }

    // One round of the outer loop
    method NextRoot(i: nat, index: nat, ghost first: nat)
      requires Tables() && 0 < i < rspoly.Length && rspoly != alog
      requires index == first + i - 1 && rspoly[..i] == Generator(i - 1, first)
      modifies rspoly
      ensures Tables() && rspoly[..i + 1] == Generator(i, first)
    {
      GeneratorEnds(i - 1, first);
      ghost var p := rspoly[..i];
      assert rspoly[i - 1] == p[i - 1] && rspoly[0] == p[0];
      rspoly[i] := ONE;
      assert rspoly[..i] == p;
      AddRoot(i, index);
    }

    // One factor is multiplied into the first i + 1 coefficients.
    method AddRoot(i: nat, index: nat)
      requires Tables() && 0 < i < rspoly.Length && rspoly != alog
      requires rspoly[i] == ONE && rspoly[i - 1] == ONE && rspoly[0] != ZERO
      modifies rspoly
      ensures Tables()
      ensures rspoly[..i + 1] == WithRoot(old(rspoly[..i]), index)
    {
      ghost var before := rspoly[..];
      assert before[..i] == rspoly[..i];
      var k := i - 1;
      while k > 0
        invariant 0 <= k < i && Tables()
        invariant RootLoop(before, rspoly[..], i, index, k)
      {
        if rspoly[k] != ZERO {
          Multiply(k, index);
        } else {
          TimesZero(index);
        }
        rspoly[k] := Add(rspoly[k], rspoly[k - 1]);
        k := k - 1;
      }
      RootLoopEnd(before, rspoly[..], i, index);
      Multiply(0, index);
      assert rspoly[..i + 1] == rspoly[..][..i + 1];
    }

    // A coefficient is multiplied by a power of alpha through the tables.
    method Multiply(k: nat, index: nat)
      requires Tables() && k < rspoly.Length && rspoly[k] != ZERO && rspoly != alog
      modifies rspoly
      ensures Tables()
      ensures rspoly[..] == old(rspoly[..])[k := Times(index, old(rspoly[k]))]
    {
      var log := LogOf(rspoly[k]);
      LogProduct(rspoly[k], index, log);
      rspoly[k] := Antilog(log + index);
    }

    method LogOf(x: Byte) returns (n: nat)
      requires Tables() && x != ZERO
      ensures n < ORDER && Pow(n) == x
    {
      LogFound(alog[..], zlog[..], x);
      n := zlog[ToNat(x)];
    }

    method Antilog(n: nat) returns (x: Byte)
      requires Tables()
      ensures x == Pow(n % ORDER)
    {
      x := alog[n % logmod];
    }

    method EncodeArray(byteArray: seq<Byte>) returns (out: array<Byte>)
      requires Valid()
      ensures fresh(out) && out[..] == Remainder(byteArray, rspoly[..])
      ensures IsCodeword(byteArray + Reverse(out[..]), 1, rslen)
    {
      out := new Byte[rslen](_ => ZERO);
      assert out[..] == Remainder([], rspoly[..]);
      assert byteArray[..0] == [];
      var i := 0;
      while i < |byteArray|
        invariant 0 <= i <= |byteArray|
        invariant fresh(out) && out.Length == rslen
        invariant out[..] == Remainder(byteArray[..i], rspoly[..])
      {
        assert byteArray[..i + 1][..i] == byteArray[..i];
        FeedByte(out, byteArray[i]);
        i := i + 1;
      }
      assert byteArray[..i] == byteArray;
      EncodedIsCodeword(byteArray, rslen, 1);
    }

    method FeedByte(out: array<Byte>, d: Byte)
      requires Valid() && out.Length == rslen && out != alog && out != rspoly
      modifies out
      ensures out[..] == Feed(old(out[..]), rspoly[..], d)
    {
      var m := Add(out[rslen - 1], d);
      AddMultiple(out, m, Multiple(m, rspoly[..][..rslen]));
    }

    // The register moves up by one position and receives the multiple v of the generator.
    method AddMultiple(out: array<Byte>, m: Byte, ghost v: seq<Byte>)
      requires Valid() && out.Length == rslen && out != alog && out != rspoly
      requires v == Multiple(m, rspoly[..][..rslen])
      modifies out
      ensures out[..] == Sum([ZERO] + old(out[..])[..rslen - 1], v)
    {
      ghost var before, g := out[..], rspoly[..];
      var k := rslen - 1;
      while k > 0
        invariant 0 <= k < rslen && Valid() && rspoly[..] == g
        invariant FeedLoop(before, out[..], v, k)
      {
        FeedLoopStep(before, out[..], v, k);
        var product := Coefficient(m, k, v);
        Accumulate(out, k, product);
        k := k - 1;
      }
      FeedLoopEnd(before, out[..], v);
      out[0] := Coefficient(m, 0, v);
    }

    static method Accumulate(out: array<Byte>, k: nat, product: Byte)
      requires 0 < k < out.Length
      modifies out
      ensures out[..] == old(out[..])[k := Add(old(out[k - 1]), product)]
    {
      out[k] := Add(out[k - 1], product);
    }

    method Coefficient(m: Byte, k: nat, ghost v: seq<Byte>) returns (r: Byte)
      requires Valid() && k < rslen && v == Multiple(m, rspoly[..][..rslen])
      ensures r == v[k]
    {
      r := Product(m, rspoly[k]);
      MultipleAt(m, rspoly[..][..rslen], k);
    }

    // m and the coefficient are multiplied through the tables unless one of them is zero.
    method Product(m: Byte, c: Byte) returns (r: Byte)
      requires Tables()
      ensures r == Mul(m, c)
    {
      if m == ZERO || c == ZERO {
        MulZero(m);
        return ZERO;
      }
      var i := LogOf(m);
      var j := LogOf(c);
      LogSum(m, c, i, j);
      r := Antilog(i + j);
    }
  }
}
