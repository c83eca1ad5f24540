/** Unsigned 64-bit words: wrap-around subtraction, masking, and sizes that are powers of two. */
module Words {
  import opened Arithmetic

  const WORD := 0x1_0000_0000_0000_0000

  /** Bitwise and, bit by bit. */
  function And(a: nat, b: nat): (r: nat)
    ensures r <= a && r <= b
  {
    if a == 0 || b == 0 then 0
    else 2 * And(a / 2, b / 2) + if a % 2 == 1 && b % 2 == 1 then 1 else 0
  }

  /** Unsigned subtraction. */
  function Sub(a: int, b: int): (r: nat)
    ensures r < WORD
  {
    (a - b) % WORD
  }

  function Pow2(k: nat): (r: nat)
    ensures r > 0
  {
    if k == 0 then 1 else 2 * Pow2(k - 1)
  }

  ghost predicate IsPower(n: nat) {
    exists k: nat :: n == Pow2(k)
  }

  lemma {:induction false} AndSelf(n: nat)
    ensures And(n, n) == n
  {
    if n > 0 {
      AndSelf(n / 2);
    }
  }

  lemma RemainderOfDouble(a: nat, m: nat)
    requires m > 0
    ensures a % (2 * m) == 2 * (a / 2 % m) + a % 2
  {
    var h, b := a / 2, a % 2;
    var q, r := h / m, h % m;
    assert h == m * q + r && a == 2 * h + b;
    assert 2 * m * q == 2 * (m * q);
    RemainderIs(a, 2 * m, q, 2 * r + b);
  }

  lemma AndHalves(a: nat, b: nat)
    ensures And(a, b) == 2 * And(a / 2, b / 2) + if a % 2 == 1 && b % 2 == 1 then 1 else 0
  {
  }

  lemma AndZero(a: nat)
    ensures And(a, 0) == 0
  {
  }

  /** Masking with a power of two less one is the remainder. */
  lemma {:induction false} MaskIsRemainder(a: nat, k: nat)
    ensures And(a, Pow2(k) - 1) == a % Pow2(k)
  {
    hide And;
    if k > 0 {
      var m := Pow2(k - 1);
      MaskIsRemainder(a / 2, k - 1);
      assert (2 * m - 1) / 2 == m - 1 && (2 * m - 1) % 2 == 1;
      AndHalves(a, 2 * m - 1);
      RemainderOfDouble(a, m);
    } else {
      AndZero(a);
    }
  }

  lemma PowersDouble(m: nat)
    requires m > 0
    ensures IsPower(m) <==> IsPower(2 * m)
  {
    if IsPower(m) {
      var k: nat :| m == Pow2(k);
      assert 2 * m == Pow2(k + 1);
    }
    if IsPower(2 * m) {
      var k: nat :| 2 * m == Pow2(k);
      assert k > 0 && m == Pow2(k - 1);
    }
  }

  /** The size test of the ring: exactly the powers of two pass it. */
  lemma {:induction false} PowersPass(n: nat)
    requires n > 0
    ensures And(n, n - 1) == 0 <==> IsPower(n)
  {
    hide And;
    var m := n / 2;
    if n == 1 {
      AndZero(1);
      assert n == Pow2(0);
    } else {
      AndHalves(n, n - 1);
      if n % 2 == 1 {
        AndSelf(m);
        assert (n - 1) / 2 == m;
        assert forall k: nat :: k > 0 ==> Pow2(k) % 2 == 0;
      } else {
        assert (n - 1) / 2 == m - 1;
        PowersPass(m);
        PowersDouble(m);
      }
    }
  }

  lemma Doubled(x: int, y: int)
    ensures 2 * (x * y) == 2 * x * y
  {
  }

  lemma {:induction false} PowersMultiply(a: nat, b: nat)
    ensures Pow2(a + b) == Pow2(a) * Pow2(b)
  {
    if a > 0 {
      PowersMultiply(a - 1, b);
      Doubled(Pow2(a - 1), Pow2(b));
    }
  }

  lemma EightBits()
    ensures Pow2(8) == 256
  {
    assert Pow2(4) == 16;
  }

  lemma WordIsPower()
    ensures Pow2(64) == WORD
  {
    EightBits();
    hide Pow2;
    PowersMultiply(8, 8);
    PowersMultiply(16, 16);
    PowersMultiply(32, 32);
  }

  /** The sizes the ring accepts. */
  predicate SizeOk(size: nat) {
    1 < size < WORD && And(size, size - 1) == 0
  }

  ghost function Log(size: nat): (k: nat)
    requires SizeOk(size)
    ensures size == Pow2(k)
  {
    PowersPass(size);
    var k: nat :| size == Pow2(k);
    k
  }

  lemma PowersGrow(a: nat, b: nat)
    requires a <= b
    ensures Pow2(a) <= Pow2(b)
  {
    PowersMultiply(a, b - a);
    var x, y := Pow2(a), Pow2(b - a);
    assert x * y >= x * 1;
  }

  lemma SmallPower(k: nat)
    requires Pow2(k) < WORD
    ensures k < 64
  {
    hide Pow2;
    WordIsPower();
    if k >= 64 {
      PowersGrow(64, k);
    }
  }

  ghost function SizeDividesWord(size: nat): (q: nat)
    requires SizeOk(size)
    ensures WORD == size * q
  {
    var k := Log(size);
    WordIsPower();
    SmallPower(k);
    PowersMultiply(k, 64 - k);
    Pow2(64 - k)
  }

  lemma RemainderOfRemainder(x: nat, word: nat, size: nat, q: nat)
    requires size > 0 && word > 0 && word == size * q
    ensures x % word % size == x % size
  {
    var r := x % word;
    var t, u, v := x / word, r / size, r % size;
    assert x == word * t + r && r == size * u + v;
    assert word * t == size * (q * t);
    assert size * (q * t) + size * u == size * (q * t + u);
    RemainderIs(x, size, q * t + u, v);
  }

  /** The slot of a wrapped counter is the remainder of the unwrapped one. */
  lemma SlotOfCounter(size: nat, x: nat)
    requires SizeOk(size)
    ensures And(x % WORD, size - 1) == x % size
  {
    hide And;
    MaskIsRemainder(x % WORD, Log(size));
    RemainderOfRemainder(x, WORD, size, SizeDividesWord(size));
  }

  lemma SlotsDiffer(size: nat, i: nat, j: nat)
    requires i < j < i + size
    ensures i % size != j % size
  {
    var a, b := i / size, j / size;
    assert i == size * a + i % size && j == size * b + j % size;
    if i % size == j % size {
      assert size * (b - a) == j - i;
      if b > a {
        Products(1, b - a, size);
      } else if a > b {
        Products(1, a - b, size);
      }
    }
  }

  /** Unsigned subtraction of wrapped counters is exact as long as they are less than a word apart. */
  lemma SubIsExact(w: nat, k: nat)
    requires 0 <= w - k < WORD
    ensures Sub(w % WORD, k % WORD) == w - k
  {
    var a, b := w / WORD, k / WORD;
    assert w % WORD - k % WORD == WORD * (b - a) + (w - k);
    RemainderIs(w % WORD - k % WORD, WORD, b - a, w - k);
  }

  lemma NextWraps(w: nat)
    ensures (w % WORD + 1) % WORD == (w + 1) % WORD
  {
  }
}
