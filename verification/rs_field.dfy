// The field of 256 elements of the ECC 200 encoder: bytes under exclusive or, with the
// multiplication given by the reduction polynomial 0x12d. Multiplying by the generator
// alpha is one step, multiplying by a power of it is that step repeated.

module GaloisField {
  // The bits of a byte, the highest first
  datatype Byte = Byte(b7: bool, b6: bool, b5: bool, b4: bool, b3: bool, b2: bool, b1: bool, b0: bool)

  const ZERO: Byte := Byte(false, false, false, false, false, false, false, false)
  const ONE: Byte := Byte(false, false, false, false, false, false, false, true)
  // The reduction polynomial 0x12d without its bit 8
  const REDUCTION: Byte := Byte(false, false, true, false, true, true, false, true)
  const ORDER: nat := 255

  // Exclusive or, the addition of the field
  function Add(x: Byte, y: Byte): Byte {
    Byte(x.b7 != y.b7, x.b6 != y.b6, x.b5 != y.b5, x.b4 != y.b4,
         x.b3 != y.b3, x.b2 != y.b2, x.b1 != y.b1, x.b0 != y.b0)
  }

  lemma AddLaws(x: Byte, y: Byte)
    ensures Add(x, y) == Add(y, x)
    ensures Add(x, ZERO) == x && Add(ZERO, x) == x && Add(x, x) == ZERO
    ensures Add(x, Add(x, y)) == y
  {
    AddAssoc(x, x, y);
    AddZero(x);
    AddZero(y);
  }

  lemma AddZero(x: Byte)
    ensures Add(x, ZERO) == x && Add(ZERO, x) == x
  {
  }

  lemma AddAssoc(x: Byte, y: Byte, z: Byte)
    ensures Add(Add(x, y), z) == Add(x, Add(y, z))
  {
  }

  lemma AddShuffle(x: Byte, y: Byte, z: Byte, w: Byte)
    ensures Add(Add(x, y), Add(z, w)) == Add(Add(x, z), Add(y, w))
  {
  }

  lemma AddCancel(x: Byte, y: Byte)
    requires Add(x, y) == ZERO
    ensures x == y
  {
    AddLaws(x, y);
    AddLaws(x, x);
  }

  // One place to the left; the bit that leaves the byte is b7.
  function Shift(x: Byte): Byte {
    Byte(x.b6, x.b5, x.b4, x.b3, x.b2, x.b1, x.b0, false)
  }

  // x times alpha
  function XTime(x: Byte): Byte {
    if x.b7 then Add(Shift(x), REDUCTION) else Shift(x)
  }

  // x times the n-th power of alpha
  function Times(n: nat, x: Byte): Byte {
    if n == 0 then x else XTime(Times(n - 1, x))
  }

  function Pow(n: nat): Byte {
    Times(n, ONE)
  }

  // Linear maps ---------------------------------------------------------------------

  lemma XTimeBits(x: Byte)
    ensures XTime(x) == Byte(x.b6, x.b5, x.b4 != x.b7, x.b3, x.b2 != x.b7, x.b1 != x.b7, x.b0, x.b7)
  {
  }

  lemma XTimeLinear(x: Byte, y: Byte)
    ensures XTime(Add(x, y)) == Add(XTime(x), XTime(y))
  {
    XTimeBits(x);
    XTimeBits(y);
    XTimeBits(Add(x, y));
  }

  lemma XTimeInjective(x: Byte, y: Byte)
    requires XTime(x) == XTime(y)
    ensures x == y
  {
    assert XTime(x).b0 == x.b7 && XTime(y).b0 == y.b7;
    assert Shift(x) == Shift(y);
  }

  lemma {:induction false} TimesLinear(n: nat, x: Byte, y: Byte)
    ensures Times(n, Add(x, y)) == Add(Times(n, x), Times(n, y))
  {
    if n > 0 {
      TimesLinear(n - 1, x, y);
      XTimeLinear(Times(n - 1, x), Times(n - 1, y));
    }
  }

  lemma {:induction false} TimesInjective(n: nat, x: Byte, y: Byte)
    requires Times(n, x) == Times(n, y)
    ensures x == y
  {
    if n > 0 {
      XTimeInjective(Times(n - 1, x), Times(n - 1, y));
      TimesInjective(n - 1, x, y);
    }
  }

  lemma {:induction false} TimesZero(n: nat)
    ensures Times(n, ZERO) == ZERO
  {
    if n > 0 {
      TimesZero(n - 1);
    }
  }

  lemma TimesNonzero(n: nat, x: Byte)
    ensures Times(n, x) == ZERO <==> x == ZERO
  {
    TimesZero(n);
    if Times(n, x) == ZERO {
      TimesInjective(n, x, ZERO);
    }
  }

  lemma {:induction false} TimesAdd(m: nat, n: nat, x: Byte)
    ensures Times(m + n, x) == Times(m, Times(n, x))
  {
    if m > 0 {
      TimesAdd(m - 1, n, x);
    }
  }

  lemma TimesCommute(m: nat, n: nat, x: Byte)
    ensures Times(m, Times(n, x)) == Times(n, Times(m, x))
  {
    TimesAdd(m, n, x);
    TimesAdd(n, m, x);
  }

  // The order of alpha --------------------------------------------------------------

  // The square of x: squaring is linear, so the eight even powers determine it.
  function Square(x: Byte): Byte {
    Byte(x.b5 != x.b6, x.b3 != x.b7, (x.b4 != x.b5) != x.b7, (x.b2 != x.b5) != x.b7,
         x.b4 != x.b6, (x.b1 != x.b4) != x.b5, x.b6 != x.b7, x.b0 != x.b4)
  }

  lemma SquareStep(x: Byte)
    ensures Square(XTime(x)) == XTime(XTime(Square(x)))
  {
    var y, z := Square(x), XTime(Square(x));
    XTimeBits(x);
    XTimeBits(y);
    XTimeBits(z);
  }

  lemma {:induction false} PowDouble(n: nat)
    ensures Pow(2 * n) == Square(Pow(n))
    ensures Pow(2 * n + 1) == XTime(Square(Pow(n)))
  {
    if n > 0 {
      PowDouble(n - 1);
      SquareStep(Pow(n - 1));
    }
  }

  lemma Powers()
    ensures Pow(255) == ONE && Pow(85) != ONE && Pow(51) != ONE && Pow(15) != ONE
  {
    PowDouble(1); PowDouble(3); PowDouble(7); PowDouble(15); PowDouble(31); PowDouble(63); PowDouble(127);
    PowDouble(2); PowDouble(5); PowDouble(10); PowDouble(21); PowDouble(42);
    PowDouble(6); PowDouble(12); PowDouble(25);
    assert Pow(1) == XTime(ONE);
  }

  lemma {:induction false} TimesPeriod(x: Byte, d: nat, k: nat)
    requires Times(d, x) == x
    ensures Times(k * d, x) == x
  {
    if k > 0 {
      TimesPeriod(x, d, k - 1);
      TimesAdd(d, (k - 1) * d, x);
      assert d + (k - 1) * d == k * d;
    }
  }

  lemma PowRemainder(a: nat, b: nat)
    requires b > 0 && Pow(a) == ONE && Pow(b) == ONE
    ensures Pow(a % b) == ONE
  {
    TimesPeriod(ONE, b, a / b);
    assert a == a % b + a / b * b;
    TimesAdd(a % b, a / b * b, ONE);
  }

  // Euclid: if two powers of alpha are 1, so is that of a common divisor.
  lemma {:induction false} PowDivisor(a: nat, b: nat) returns (g: nat, p: nat, q: nat)
    requires a > 0 && Pow(a) == ONE && Pow(b) == ONE
    ensures g > 0 && Pow(g) == ONE && a == g * p && b == g * q
    decreases a
  {
    if b % a == 0 {
      g, p, q := a, 1, b / a;
    } else {
      PowRemainder(b, a);
      var r;
      g, r, p := PowDivisor(b % a, a);
      q := r + p * (b / a);
      assert a * (b / a) == g * (p * (b / a));
      assert b == b % a + a * (b / a);
    }
  }

  // A proper divisor of 255 divides 85, 51 or 15.
  lemma ProperDivisors(g: nat, q: nat) returns (m: nat, k: nat)
    requires g < 255 && g * q == 255
    ensures m == 85 || m == 51 || m == 15
    ensures m == g * k
  {
    SmallFactor(g, q);
    if q % 3 == 0 {
      m, k := 85, q / 3;
    } else if q % 5 == 0 {
      m, k := 51, q / 5;
    } else {
      m, k := 15, q / 17;
    }
    var c := 255 / m;
    assert c * (g * k) == g * (c * k) == g * q;
  }

  lemma SmallFactor(g: nat, q: nat)
    requires g < 255 && g * q == 255
    ensures q % 3 == 0 || q % 5 == 0 || q % 17 == 0
  {
    if g <= 15 {
      assert g == 0 || g == 1 || g == 2 || g == 3 || g == 4 || g == 5 || g == 6 || g == 7 || g == 8
        || g == 9 || g == 10 || g == 11 || g == 12 || g == 13 || g == 14 || g == 15;
    } else if q >= 16 {
      MulAtLeast(g, q);
    } else {
      assert q == 0 || q == 1 || q == 2 || q == 3 || q == 4 || q == 5 || q == 6 || q == 7 || q == 8
        || q == 9 || q == 10 || q == 11 || q == 12 || q == 13 || q == 14 || q == 15;
    }
  }

  lemma MulAtLeast(g: nat, q: nat)
    requires g >= 16 && q >= 16
    ensures g * q >= 256
  {
  }

  lemma PowMultiple(g: nat, k: nat)
    requires Pow(g) == ONE
    ensures Pow(k * g) == ONE
  {
    TimesPeriod(ONE, g, k);
  }

  // No smaller power of alpha is 1.
  lemma OrderIsExact(d: nat)
    requires 0 < d < ORDER
    ensures Pow(d) != ONE
  {
    if Pow(d) == ONE {
      Powers();
      var g, p, q := PowDivisor(d, ORDER);
      assert g < 255 by { AtMost(g, p, d); }
      var m, k := ProperDivisors(g, q);
      PowMultiple(g, k);
    }
  }

  lemma AtMost(g: nat, p: nat, d: nat)
    requires d == g * p && d > 0
    ensures g <= d
  {
  }

  lemma PowInjective(i: nat, j: nat)
    requires i < ORDER && j < ORDER && Pow(i) == Pow(j)
    ensures i == j
  {
    if i < j {
      PowInjectiveOrdered(i, j);
    } else if j < i {
      PowInjectiveOrdered(j, i);
    }
  }

  lemma PowInjectiveOrdered(i: nat, j: nat)
    requires i < j < ORDER
    ensures Pow(i) != Pow(j)
  {
    OrderIsExact(j - i);
    TimesAdd(i, j - i, ONE);
    if Pow(i) == Pow(j) {
      TimesInjective(i, ONE, Pow(j - i));
    }
  }

  // Every nonzero Byte is a power of alpha ------------------------------------------

  function ToNat(x: Byte): nat {
    Bit(x.b7, 128) + Bit(x.b6, 64) + Bit(x.b5, 32) + Bit(x.b4, 16)
    + Bit(x.b3, 8) + Bit(x.b2, 4) + Bit(x.b1, 2) + Bit(x.b0, 1)
  }

  function Bit(b: bool, weight: nat): nat {
    if b then weight else 0
  }

  ghost function Images(n: nat): set<int> {
    if n == 0 then {} else Images(n - 1) + {ToNat(Pow(n - 1))}
  }

  ghost function UpTo(n: nat): set<int> {
    if n == 0 then {} else UpTo(n - 1) + {n}
  }

  lemma {:induction false} UpToSize(n: nat)
    ensures |UpTo(n)| == n && forall k :: k in UpTo(n) <==> 1 <= k <= n
  {
    if n > 0 {
      UpToSize(n - 1);
    }
  }

  lemma {:induction false} InImages(n: nat, v: int)
    ensures v in Images(n) <==> exists i :: 0 <= i < n && ToNat(Pow(i)) == v
  {
    if n > 0 {
      InImages(n - 1, v);
    }
  }

  lemma {:induction false} ImagesSize(n: nat)
    requires n <= ORDER
    ensures |Images(n)| == n
  {
    if n > 0 {
      ImagesSize(n - 1);
      var v := ToNat(Pow(n - 1));
      InImages(n - 1, v);
      forall i | 0 <= i < n - 1 ensures ToNat(Pow(i)) != v {
        PowInjectiveOrdered(i, n - 1);
        Apart(Pow(i), Pow(n - 1));
      }
      assert v !in Images(n - 1);
    }
  }

  lemma {:induction false} ImagesRange(n: nat)
    ensures Images(n) <= UpTo(ORDER)
  {
    if n > 0 {
      ImagesRange(n - 1);
      TimesNonzero(n - 1, ONE);
      ToNatRange(Pow(n - 1));
      UpToSize(ORDER);
    }
  }

  lemma Apart(x: Byte, y: Byte)
    requires x != y
    ensures ToNat(x) != ToNat(y)
  {
  }

  lemma ToNatRange(x: Byte)
    requires x != ZERO
    ensures 1 <= ToNat(x) <= 255
  {
  }

  lemma {:induction false} AtMostUpTo(a: set<int>, n: nat)
    requires a <= UpTo(n)
    ensures |a| <= n
  {
    if n > 0 {
      AtMostUpTo(a - {n}, n - 1);
    }
  }

  lemma Reached(x: Byte)
    requires x != ZERO
    ensures exists i: nat :: i < ORDER && Pow(i) == x
  {
    var v := ToNat(x);
    ToNatRange(x);
    AllImages(v, ORDER);
    InImages(ORDER, v);
    var i: nat :| i < ORDER && ToNat(Pow(i)) == v;
    if Pow(i) != x {
      Apart(Pow(i), x);
    }
  }

  // A set of n of the numbers 1..n is all of them.
  lemma FullSet(s: set<int>, n: nat, v: int)
    requires s <= UpTo(n) && |s| == n && 1 <= v <= n
    ensures v in s
  {
    UpToSize(n);
    if v !in s {
      AtMostUpTo(s + {v}, n);
    }
  }

  lemma AllImages(v: int, n: nat)
    requires n == ORDER && 1 <= v <= n
    ensures v in Images(n)
  {
    ImagesSize(n);
    ImagesRange(n);
    FullSet(Images(n), n, v);
  }

  // The discrete logarithm
  ghost function Log(x: Byte): (i: nat)
    requires x != ZERO
    ensures i < ORDER && Pow(i) == x
  {
    Reached(x);
    var i: nat :| i < ORDER && Pow(i) == x;
    i
  }

  // The product of two Bytes
  ghost function Mul(x: Byte, y: Byte): Byte {
    if x == ZERO then ZERO else Times(Log(x), y)
  }

  lemma LogIs(x: Byte, i: nat)
    requires i < ORDER && Pow(i) == x
    ensures x != ZERO && Log(x) == i
  {
    TimesNonzero(i, ONE);
    PowInjective(i, Log(x));
  }

  lemma TimesOrder(n: nat, x: Byte)
    requires n == ORDER
    ensures Times(n, x) == x
  {
    if x == ZERO {
      TimesZero(n);
    } else {
      Powers();
      TimesCommute(n, Log(x), ONE);
    }
  }

  // An exponent counts modulo the order.
  lemma TimesModulo(n: nat, x: Byte)
    ensures Times(n % ORDER, x) == Times(n, x)
  {
    var d := ORDER;
    TimesOrder(d, x);
    TimesPeriod(x, d, n / d);
    assert n == n % d + n / d * d;
    TimesAdd(n % d, n / d * d, x);
  }

  // Products by adding logarithms: k is the logarithm of x.
  lemma LogProduct(x: Byte, n: nat, k: nat)
    requires x == Pow(k)
    ensures Pow((k + n) % ORDER) == Times(n, x)
  {
    TimesModulo(k + n, ONE);
    TimesAdd(n, k, ONE);
  }

  lemma MulIs(x: Byte, y: Byte, k: nat)
    requires k < ORDER && x == Pow(k)
    ensures Mul(x, y) == Times(k, y)
  {
    LogIs(x, k);
  }

  lemma MulCommutes(x: Byte, y: Byte)
    ensures Mul(x, y) == Mul(y, x)
  {
    if x == ZERO || y == ZERO {
      MulZero(x);
      MulZero(y);
    } else {
      MulPowers(x, y, Log(x), Log(y));
    }
  }

  lemma MulZero(x: Byte)
    ensures Mul(x, ZERO) == ZERO
  {
    if x != ZERO {
      TimesZero(Log(x));
    }
  }

  lemma MulPowers(x: Byte, y: Byte, i: nat, j: nat)
    requires i < ORDER && j < ORDER && x == Pow(i) && y == Pow(j)
    ensures Mul(x, y) == Mul(y, x)
  {
    MulIs(x, y, i);
    MulIs(y, x, j);
    TimesCommute(i, j, ONE);
  }

  // A product is linear in each factor.
  lemma MulLinear(x: Byte, y: Byte, z: Byte)
    ensures Mul(x, Add(y, z)) == Add(Mul(x, y), Mul(x, z))
    ensures Mul(Add(y, z), x) == Add(Mul(y, x), Mul(z, x))
  {
    if x != ZERO {
      TimesLinear(Log(x), y, z);
    }
    MulCommutes(x, Add(y, z));
    MulCommutes(x, y);
    MulCommutes(x, z);
  }

  // Different powers move every nonzero Byte differently.
  lemma TimesSeparates(i: nat, j: nat, x: Byte)
    requires i < ORDER && j < ORDER && i != j && x != ZERO
    ensures Times(i, x) != Times(j, x)
  {
    TimesCommute(i, Log(x), ONE);
    TimesCommute(j, Log(x), ONE);
    if Times(i, x) == Times(j, x) {
      TimesInjective(Log(x), Pow(i), Pow(j));
      PowInjective(i, j);
    }
  }
}
