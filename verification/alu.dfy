/** The arithmetic-logic unit of alu.py: a pure function of two equal-width
    bit strings and six control bits. The width is whatever the operands
    have; the CPU feeds it 64-bit words. */
module Alu {
  import opened Bits

  /** `b_and`: bitwise AND, position by position over the length of `a`. */
  function BAnd(a: Bits, b: Bits): (r: Bits)
    requires |b| >= |a|
    ensures |r| == |a|
    ensures forall i :: 0 <= i < |a| ==> r[i] == (a[i] && b[i])
  {
    if |a| == 0 then [] else BAnd(a[..|a| - 1], b) + [a[|a| - 1] && b[|a| - 1]]
  }

  /** `b_or`: bitwise OR, position by position over the length of `a`. */
  function BOr(a: Bits, b: Bits): (r: Bits)
    requires |b| >= |a|
    ensures |r| == |a|
    ensures forall i :: 0 <= i < |a| ==> r[i] == (a[i] || b[i])
  {
    if |a| == 0 then [] else BOr(a[..|a| - 1], b) + [a[|a| - 1] || b[|a| - 1]]
  }

  /** `b_not`: flips every bit. */
  function BNot(a: Bits): (r: Bits)
    ensures |r| == |a|
    ensures forall i :: 0 <= i < |a| ==> r[i] == !a[i]
  {
    if |a| == 0 then [] else BNot(a[..|a| - 1]) + [!a[|a| - 1]]
  }

  lemma {:induction false} BNotInvolutive(a: Bits)
    ensures BNot(BNot(a)) == a
  {
  }

  /** Read as a number, the complement of `a` is `2^|a| - 1 - a`. */
  lemma {:induction false} ValBNot(a: Bits)
    ensures Val(BNot(a)) == Pow2(|a|) - 1 - Val(a)
    decreases |a|
  {
    if |a| > 0 {
      var p := a[..|a| - 1];
      assert BNot(a)[..|a| - 1] == BNot(p);
      ValBNot(p);
    }
  }

  /** The six control bits in the order of the comp field: zx, nx, zy, ny, f, no. */
  datatype Control = Control(zx: bool, nx: bool, zy: bool, ny: bool, f: bool, no: bool)

  /** The ALU's result: the output word and the zero and negative flags. */
  datatype AluOut = AluOut(out: Bits, zr: bool, ng: bool)

  /** The zero stage then the negate stage for one operand (alu.py:20-26). */
  function Prepare(v: Bits, zero: bool, negate: bool): (r: Bits)
    ensures |r| == |v|
    ensures !zero && !negate ==> r == v
    ensures zero && !negate ==> forall i :: 0 <= i < |r| ==> !r[i]
    ensures zero && negate ==> forall i :: 0 <= i < |r| ==> r[i]
    ensures !zero && negate ==> forall i :: 0 <= i < |r| ==> r[i] == !v[i]
  {
    var z := if zero then Zeros(|v|) else v;
    if negate then BNot(z) else z
  }

  /** Line 28: the sum of the two operands in `|x|` bits, computed the way the
      source does it, through `bin`, `zfill` and a negative slice. */
  function Sum(x: Bits, y: Bits): (r: Bits)
    requires |x| >= 1 && |y| >= 1
    ensures |r| == |x|
    ensures Val(r) == (Val(x) + Val(y)) % Pow2(|x|)
  {
    TakeLast(ZFill(Binary(Val(x) + Val(y)), |x|), |x|)
  }

  /** Lines 28-30: the function stage, before the optional output negation.
      The AND reads `y` position by position over the width of `x`. */
  function Combine(x: Bits, y: Bits, f: bool): (r: Bits)
    requires |x| >= 1 && |y| >= 1 && (f || |y| >= |x|)
    ensures |r| == |x|
  {
    if f then Sum(x, y) else BAnd(x, y)
  }

  /** `alu(x, y, zx, nx, zy, ny, f, no)`. The output has the width of `x`.
      Python raises on `int("", 2)` at line 28 or 36 for an empty `x`, at
      line 28 for an empty `y` when `f` is set, and on an index past the end
      of `y` in `b_and` when `y` is the narrower operand; none of these is
      in the domain. */
  function Alu(x: Bits, y: Bits, c: Control): (r: AluOut)
    requires |x| >= 1 && |y| >= 1 && (c.f || |y| >= |x|)
    ensures |r.out| == |x|
    ensures r.zr <==> forall i :: 0 <= i < |r.out| ==> !r.out[i]
    ensures r.ng <==> Val(r.out) >= Pow2(|x| - 1)
  {
    var out := Output(x, y, c);
    ValZeroIff(out);
    ValLeading(out);
    AluOut(out, Val(out) == 0, out[0])
  }

  /** Lines 20-34: the output word. */
  function Output(x: Bits, y: Bits, c: Control): (r: Bits)
    requires |x| >= 1 && |y| >= 1 && (c.f || |y| >= |x|)
    ensures |r| == |x|
  {
    var o := PreNo(x, y, c);
    var o1 := if c.no then BNot(o) else o;
    if |o1| > |x| then DropFirst(o1) else o1
  }

  /** `s[1:]`, which Python reads as empty for an empty string. */
  function DropFirst(s: Bits): Bits
  {
    if |s| == 0 then s else s[1..]
  }

  /** The output before the `no` stage (lines 20-30). */
  function PreNo(x: Bits, y: Bits, c: Control): (r: Bits)
    requires |x| >= 1 && |y| >= 1 && (c.f || |y| >= |x|)
    ensures |r| == |x|
  {
    Combine(Prepare(x, c.zx, c.nx), Prepare(y, c.zy, c.ny), c.f)
  }

  /** The width never grows, so the trimming at line 34 never fires: the output
      is the function stage, complemented when `no` is set. */
  lemma {:induction false} AluStages(x: Bits, y: Bits, c: Control)
    requires |x| >= 1 && |y| >= 1 && (c.f || |y| >= |x|)
    ensures Alu(x, y, c).out == if c.no then BNot(PreNo(x, y, c)) else PreNo(x, y, c)
  {
  }

  /** With `f` set the function stage is addition modulo 2^width. */
  lemma {:induction false} AluAdds(x: Bits, y: Bits, c: Control)
    requires |x| >= 1 && |y| >= 1 && c.f
    ensures Val(PreNo(x, y, c)) == (Val(Prepare(x, c.zx, c.nx)) + Val(Prepare(y, c.zy, c.ny))) % Pow2(|x|)
  {
    SumOfPrepared(x, y, c);
    SumVal(Prepare(x, c.zx, c.nx), Prepare(y, c.zy, c.ny), |x|);
  }

  lemma {:induction false} SumVal(a: Bits, b: Bits, n: nat)
    requires |a| == n >= 1 && |b| >= 1
    ensures Val(Sum(a, b)) == (Val(a) + Val(b)) % Pow2(n)
  {
  }

  lemma {:induction false} SumOfPrepared(x: Bits, y: Bits, c: Control)
    requires |x| >= 1 && |y| >= 1 && c.f
    ensures Val(PreNo(x, y, c)) == Val(Sum(Prepare(x, c.zx, c.nx), Prepare(y, c.zy, c.ny)))
    ensures |Prepare(x, c.zx, c.nx)| == |x|
  {
  }

  /** With `f` clear the function stage is the bitwise AND of the prepared operands. */
  lemma {:induction false} AluAnds(x: Bits, y: Bits, c: Control)
    requires |x| >= 1 && |y| >= |x| && !c.f
    ensures forall i :: 0 <= i < |x| ==>
      PreNo(x, y, c)[i] == (Prepare(x, c.zx, c.nx)[i] && Prepare(y, c.zy, c.ny)[i])
  {
  }

  /** Both flags describe the output word read as a two's complement number:
      `zr` when it is zero and `ng` when it is negative. */
  lemma {:induction false} AluFlags(x: Bits, y: Bits, c: Control)
    requires |x| >= 1 && |y| >= 1 && (c.f || |y| >= |x|)
    ensures Alu(x, y, c).zr <==> Val(Alu(x, y, c).out) == 0
    ensures Alu(x, y, c).ng <==> Alu(x, y, c).out[0]
  {
    ValZeroIff(Alu(x, y, c).out);
    ValLeading(Alu(x, y, c).out);
  }
}
