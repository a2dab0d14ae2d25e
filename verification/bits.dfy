/** Bit strings as the toolchain handles them: text of '0' and '1', most
    significant bit first, read and written through Python's integer
    conversions. */
module Bits {

  /** A bit string; index 0 is the most significant bit, `true` stands for '1'. */
  type Bits = seq<bool>

  function Pow2(n: nat): (r: nat)
    ensures r >= 1
  {
    if n == 0 then 1 else 2 * Pow2(n - 1)
  }

  lemma {:induction false} Pow2Monotone(m: nat, n: nat)
    requires m <= n
    ensures Pow2(m) <= Pow2(n)
    decreases n
  {
    if m < n {
      Pow2Monotone(m, n - 1);
    }
  }

  lemma {:induction false} Pow2Add(m: nat, n: nat)
    ensures Pow2(m + n) == Pow2(m) * Pow2(n)
    decreases n
  {
    if n > 0 {
      Pow2Add(m, n - 1);
    }
  }

  /** A bit string written as text, for the fixed code tables. */
  function Bin(s: string): Bits
  {
    seq(|s|, i requires 0 <= i < |s| => s[i] == '1')
  }

  function Zeros(n: nat): (r: Bits)
    ensures |r| == n
  {
    seq(n, _ => false)
  }

  function Ones(n: nat): (r: Bits)
    ensures |r| == n
  {
    seq(n, _ => true)
  }

  /** The unsigned value of a bit string, as `int(s, 2)` reads it. */
  function Val(s: Bits): nat
  {
    if |s| == 0 then 0 else 2 * Val(s[..|s| - 1]) + (if s[|s| - 1] then 1 else 0)
  }

  lemma {:induction false} ValBound(s: Bits)
    ensures Val(s) < Pow2(|s|)
    decreases |s|
  {
    if |s| > 0 {
      ValBound(s[..|s| - 1]);
    }
  }

  lemma {:induction false} ValAppend(a: Bits, b: Bits)
    ensures Val(a + b) == Val(a) * Pow2(|b|) + Val(b)
    decreases |b|
  {
    if |b| == 0 {
      assert a + b == a;
    } else {
      var b' := b[..|b| - 1];
      var bit := if b[|b| - 1] then 1 else 0;
      assert (a + b)[..|a + b| - 1] == a + b';
      assert Val(a + b) == 2 * Val(a + b') + bit;
      assert Val(b) == 2 * Val(b') + bit;
      ValAppend(a, b');
      assert Pow2(|b|) == 2 * Pow2(|b'|);
      Double(Val(a), Pow2(|b'|));
    }
  }

  lemma {:induction false} Double(x: int, y: int)
    ensures 2 * (x * y) == x * (2 * y)
  {
  }

  lemma {:induction false} ValZeros(n: nat)
    ensures Val(Zeros(n)) == 0
    decreases n
  {
    if n > 0 {
      assert Zeros(n)[..n - 1] == Zeros(n - 1);
      ValZeros(n - 1);
    }
  }

  lemma {:induction false} ValOnes(n: nat)
    ensures Val(Ones(n)) == Pow2(n) - 1
    decreases n
  {
    if n > 0 {
      assert Ones(n)[..n - 1] == Ones(n - 1);
      ValOnes(n - 1);
    }
  }

  /** A bit string reads as zero exactly when every bit is clear. */
  lemma {:induction false} ValZeroIff(s: Bits)
    ensures Val(s) == 0 <==> forall i :: 0 <= i < |s| ==> !s[i]
    decreases |s|
  {
    if |s| > 0 {
      var p := s[..|s| - 1];
      ValZeroIff(p);
      assert forall i :: 0 <= i < |p| ==> p[i] == s[i];
    }
  }

  /** The leading bit is set exactly when the value reaches the upper half of the range. */
  lemma {:induction false} ValLeading(s: Bits)
    requires |s| >= 1
    ensures s[0] <==> Val(s) >= Pow2(|s| - 1)
  {
    assert s == [s[0]] + s[1..];
    ValAppend([s[0]], s[1..]);
    ValBound(s[1..]);
  }

  /** Two bit strings of one width with one value are the same string. */
  lemma {:induction false} ValInjective(s: Bits, t: Bits)
    requires |s| == |t| && Val(s) == Val(t)
    ensures s == t
    decreases |s|
  {
    if |s| > 0 {
      var n := |s| - 1;
      ValInjective(s[..n], t[..n]);
      assert s == s[..n] + [s[n]];
      assert t == t[..n] + [t[n]];
    }
  }

  /** The last `n` bits of a string hold its value modulo 2^n. */
  lemma {:induction false} ValSuffix(s: Bits, n: nat)
    requires n <= |s|
    ensures Val(s[|s| - n..]) == Val(s) % Pow2(n)
  {
    var hi, lo := s[..|s| - n], s[|s| - n..];
    assert s == hi + lo;
    ValAppend(hi, lo);
    ValBound(lo);
    ModUnique(Val(s), Pow2(n), Val(hi), Val(lo));
  }

  lemma {:induction false} ModUnique(v: int, m: nat, q: int, r: int)
    requires m > 0 && v == q * m + r && 0 <= r < m
    ensures v % m == r && v / m == q
  {
    var q', r' := v / m, v % m;
    assert q' * m - q * m == (q' - q) * m;
    if q' > q {
      MulAtLeast(q' - q, m);
    } else if q' < q {
      MulAtLeast(q - q', m);
    }
  }

  lemma {:induction false} MulAtLeast(a: int, m: nat)
    requires a >= 1
    ensures a * m >= m
  {
    assert a * m == (a - 1) * m + m;
  }

  /** The binary digits of `v` without leading zeros ("0" for zero), as
      `bin(v)[2:]` prints them. */
  function Binary(v: nat): (r: Bits)
    ensures |r| >= 1
    ensures Val(r) == v
    ensures v > 0 ==> r[0]
    decreases v
  {
    if v < 2 then [v == 1] else
      var p := Binary(v / 2);
      var r := p + [v % 2 == 1];
      assert r[..|r| - 1] == p;
      r
  }

  /** `bin(v)[2:]` fits in `n` digits exactly when `v < 2^n`. */
  lemma {:induction false} BinaryFits(v: nat, n: nat)
    requires n >= 1
    ensures |Binary(v)| <= n <==> v < Pow2(n)
  {
    var r := Binary(v);
    ValBound(r);
    if |r| <= n {
      Pow2Monotone(|r|, n);
    } else {
      ValLeading(r);
      Pow2Monotone(n, |r| - 1);
    }
  }

  /** `s.zfill(n)`: pads with leading zeros up to width `n`, never truncates. */
  function ZFill(s: Bits, n: nat): (r: Bits)
    ensures |r| == if |s| < n then n else |s|
    ensures Val(r) == Val(s)
    ensures r[|r| - |s|..] == s
  {
    if |s| < n then
      ValAppend(Zeros(n - |s|), s);
      ValZeros(n - |s|);
      Zeros(n - |s|) + s
    else s
  }

  /** `s[-n:]`: the last `n` bits; Python reads `s[-0:]` as all of `s`. */
  function TakeLast(s: Bits, n: nat): (r: Bits)
    ensures n >= 1 ==> |r| == if n < |s| then n else |s|
    ensures n >= 1 && n <= |s| ==> Val(r) == Val(s) % Pow2(n)
  {
    if n == 0 || n >= |s| then
      ValBound(s);
      (if n == |s| then ModUnique(Val(s), Pow2(n), 0, Val(s)); s else s)
    else
      ValSuffix(s, n);
      s[|s| - n..]
  }

  /** `v` written in exactly `n` binary digits; the caller keeps `v` below 2^n. */
  function Fixed(v: nat, n: nat): (r: Bits)
    requires n >= 1 && v < Pow2(n)
    ensures |r| == n
    ensures Val(r) == v
  {
    BinaryFits(v, n);
    ZFill(Binary(v), n)
  }
}
