/** The code generator of compiler.py. It gives each variable a RAM address
    from 16 upward in order of first use, numbers labels from a counter, and
    appends mnemonic lines for assignments, arithmetic, loop conditions,
    loops and printing. Failures are returned instead of raised. */
module Compiler {
  import opened Text
  import opened Results
  import Bits
  import Assembler
  import Semantics

  /** An operand as the front-end passes it: a number or a variable name. */
  datatype Operand = Lit(n: nat) | Var(name: string)

  /** `Compiler` (compiler.py:6-10): the variable addresses, the next free
      address, the emitted lines and the label counter. */
  datatype Compiler = Compiler(vars: map<string, nat>, nextRam: nat, asm: seq<string>, labelCount: nat)

  /** The first address handed to a variable. */
  const FirstVar: nat := 16

  /** A fresh compiler: no variables, no lines, the counter at 0. */
  const Start: Compiler := Compiler(map[], FirstVar, [], 0)

  /** `c'` continues `c`: the lines emitted so far are still there, every
      variable keeps its address, and neither counter has gone back. */
  predicate Extends(c: Compiler, c': Compiler)
  {
    && c.asm <= c'.asm
    && (forall v :: v in c.vars ==> v in c'.vars && c'.vars[v] == c.vars[v])
    && c.nextRam <= c'.nextRam && c.labelCount <= c'.labelCount
  }

  lemma {:induction false} ExtendsTrans(c: Compiler, c': Compiler, c'': Compiler)
    requires Extends(c, c') && Extends(c', c'')
    ensures Extends(c, c'')
  {
  }

  /** Every variable has its own address in [16, nextRam), and the addresses
      handed out are exactly as many as the variables. */
  predicate Allocated(c: Compiler)
  {
    && c.nextRam == FirstVar + |c.vars|
    && (forall v :: v in c.vars ==> FirstVar <= c.vars[v] < c.nextRam)
    && (forall u, v :: u in c.vars && v in c.vars && u != v ==> c.vars[u] != c.vars[v])
  }

  /** `get_var_addr` (compiler.py:12-16). */
  function GetVarAddr(c: Compiler, v: string): (r: (nat, Compiler))
    ensures r.1.asm == c.asm && r.1.labelCount == c.labelCount && Extends(c, r.1)
    ensures v in r.1.vars && r.1.vars[v] == r.0
    ensures v in c.vars ==> r.1 == c
    ensures v !in c.vars ==> r.0 == c.nextRam && r.1.nextRam == c.nextRam + 1 && r.1.vars.Keys == c.vars.Keys + {v}
    ensures Allocated(c) ==> Allocated(r.1)
  {
    if v in c.vars then (c.vars[v], c)
    else (c.nextRam, c.(vars := c.vars[v := c.nextRam], nextRam := c.nextRam + 1))
  }

  /** The variables were first used in the order `order`: the k-th has
      address 16 + k and the next free address follows the last. */
  ghost predicate OrderedBy(c: Compiler, order: seq<string>)
  {
    && Assembler.NoDup(order)
    && (forall v :: v in c.vars <==> v in order)
    && (forall k :: 0 <= k < |order| ==> c.vars[order[k]] == FirstVar + k)
    && c.nextRam == FirstVar + |order|
  }

  /** A name seen before keeps its address; a new one gets the next address
      after all earlier ones. */
  lemma {:induction false} GetVarAddrOrder(c: Compiler, order: seq<string>, v: string)
    requires OrderedBy(c, order)
    ensures var order' := if v in order then order else order + [v];
      OrderedBy(GetVarAddr(c, v).1, order') && GetVarAddr(c, v).0 == FirstVar + Assembler.IndexOf(order', v)
  {
    var order' := if v in order then order else order + [v];
    if v !in order {
      assert order'[|order|] == v;
    }
  }

  /** `write` (compiler.py:18-19). */
  function Write(c: Compiler, line: string): (r: Compiler)
    ensures Extends(c, r) && r.vars == c.vars && r.nextRam == c.nextRam && r.labelCount == c.labelCount
    ensures |r.asm| == |c.asm| + 1 && r.asm[|c.asm|] == line
  {
    c.(asm := c.asm + [line])
  }

  /** Several `write` calls in a row. */
  function WriteAll(c: Compiler, lines: seq<string>): (r: Compiler)
    ensures Extends(c, r) && r.vars == c.vars && r.nextRam == c.nextRam && r.labelCount == c.labelCount
    ensures r.asm == c.asm + lines
  {
    c.(asm := c.asm + lines)
  }

  /** `@n`, an A-instruction line with a decimal operand. */
  function At(n: nat): string
  {
    "@" + Dec(n)
  }

  /** The lines that load an operand into D: a literal through A, a variable
      from its RAM cell. The variable is allocated first when new. */
  function LoadD(c: Compiler, e: Operand): (r: Compiler)
    ensures Extends(c, r) && r.labelCount == c.labelCount
    ensures Allocated(c) ==> Allocated(r)
    ensures e.Var? ==> e.name in r.vars
    ensures e.Lit? ==> r.asm == c.asm + [At(e.n), "D=A"] && r.vars == c.vars
    ensures e.Var? ==> r.asm == c.asm + [At(r.vars[e.name]), "D=M"]
  {
    match e
    case Lit(n) => WriteAll(c, [At(n), "D=A"])
    case Var(name) =>
      var (addr, c1) := GetVarAddr(c, name);
      WriteAll(c1, [At(addr), "D=M"])
  }

  // ---------------------------------------------------------------------------
  // Labels (compiler.py:10, 65-66, 93-94, 139-140, 170-171, 221-222)

  /** The digits at the end of `s`. */
  function TrailDigits(s: string): (r: string)
    ensures AllDigits(r) && |r| <= |s|
  {
    if |s| > 0 && IsDigit(s[|s| - 1]) then TrailDigits(s[..|s| - 1]) + [s[|s| - 1]] else ""
  }

  /** The counter value a label definition line carries: the number at the
      end of its name. */
  function LabelNum(line: string): nat
    requires Assembler.IsLabelDef(line)
  {
    DigitsVal(TrailDigits(Assembler.LabelName(line)))
  }

  /** `(prefix<k>)`: the definition line of a label drawn from the counter. */
  function LabelDef(name: string): string
  {
    "(" + name + ")"
  }

  /** A label name made of a prefix that does not end in a digit and the
      counter value `k` is defined by a line that carries `k`. */
  lemma {:induction false} LabelDefNum(prefix: string, k: nat)
    requires |prefix| > 0 && !IsDigit(prefix[|prefix| - 1])
    ensures Assembler.IsLabelDef(LabelDef(prefix + Dec(k)))
    ensures LabelNum(LabelDef(prefix + Dec(k))) == k
  {
    var line := LabelDef(prefix + Dec(k));
    assert line[..1] == "(" && line[|line| - 1..] == ")";
    assert Assembler.LabelName(line) == prefix + Dec(k);
    TrailDigitsOf(prefix, Dec(k));
  }

  lemma {:induction false} TrailDigitsOf(p: string, d: string)
    requires AllDigits(d) && (|p| == 0 || !IsDigit(p[|p| - 1]))
    ensures TrailDigits(p + d) == d
    decreases |d|
  {
    if |d| == 0 {
      assert p + d == p;
    } else {
      var s, d' := p + d, d[..|d| - 1];
      assert s[..|s| - 1] == p + d' && s[|s| - 1] == d[|d| - 1];
      assert IsDigit(s[|s| - 1]);
      assert TrailDigits(s) == TrailDigits(p + d') + [d[|d| - 1]];
      TrailDigitsOf(p, d');
      assert d == d' + [d[|d| - 1]];
    }
  }

  /** Every label defined so far carries a number the counter has passed,
      and no two definitions carry the same number; so no label is defined
      twice. */
  predicate LabelsFresh(c: Compiler)
  {
    && (forall i :: 0 <= i < |c.asm| && Assembler.IsLabelDef(c.asm[i]) ==> LabelNum(c.asm[i]) < c.labelCount)
    && (forall i, j :: 0 <= i < j < |c.asm| && Assembler.IsLabelDef(c.asm[i]) && Assembler.IsLabelDef(c.asm[j]) ==>
          LabelNum(c.asm[i]) != LabelNum(c.asm[j]))
  }

  /** The invariant every compiler state keeps. */
  predicate Good(c: Compiler)
  {
    Allocated(c) && LabelsFresh(c)
  }

  lemma {:induction false} StartGood()
    ensures Good(Start)
  {
  }

  /** Appending lines that define no label keeps the invariant. */
  lemma {:induction false} WriteAllGood(c: Compiler, lines: seq<string>)
    requires Good(c)
    requires forall i :: 0 <= i < |lines| ==> !Assembler.IsLabelDef(lines[i])
    ensures Good(WriteAll(c, lines))
  {
    var r := WriteAll(c, lines);
    assert forall i :: 0 <= i < |lines| ==> r.asm[|c.asm| + i] == lines[i];
  }

  /** `c'` continues `c` and keeps the invariant, and every label it defines
      beyond `c` carries a number drawn after `c`. */
  predicate Follows(c: Compiler, c': Compiler)
  {
    && Good(c') && Extends(c, c')
    && forall i :: |c.asm| <= i < |c'.asm| && Assembler.IsLabelDef(c'.asm[i]) ==> c.labelCount <= LabelNum(c'.asm[i])
  }

  lemma {:induction false} FollowsTrans(c: Compiler, c': Compiler, c'': Compiler)
    requires Follows(c, c') && Follows(c', c'')
    ensures Follows(c, c'')
  {
    forall i | |c.asm| <= i < |c''.asm| && Assembler.IsLabelDef(c''.asm[i])
      ensures c.labelCount <= LabelNum(c''.asm[i])
    {
      if i < |c'.asm| {
        assert c''.asm[i] == c'.asm[i];
      }
    }
  }

  /** None of `lines` defines a label. */
  predicate NoLabels(lines: seq<string>)
  {
    forall i :: 0 <= i < |lines| ==> !Assembler.IsLabelDef(lines[i])
  }

  /** Writing lines that define no label keeps the invariant. */
  lemma {:induction false} WriteAllFollows(c: Compiler, lines: seq<string>)
    requires Good(c) && NoLabels(lines)
    ensures Follows(c, WriteAll(c, lines))
  {
    var r := WriteAll(c, lines);
    assert forall i :: 0 <= i < |lines| ==> r.asm[|c.asm| + i] == lines[i];
  }

  /** The common case: two lines, neither starting with `(`. */
  lemma {:induction false} WritePairFollows(c: Compiler, a: string, b: string)
    requires Good(c)
    requires |a| > 0 && a[0] != '(' && |b| > 0 && b[0] != '('
    ensures Follows(c, WriteAll(c, [a, b]))
  {
    NotLabelDef(a);
    NotLabelDef(b);
    WriteAllFollows(c, [a, b]);
  }

  /** Drawing `k` numbers from the counter and writing lines whose label
      definitions carry distinct numbers among them keeps the invariant. */
  lemma {:induction false} DrawAndWriteFollows(c: Compiler, k: nat, lines: seq<string>)
    requires Good(c)
    requires NumbersIn(lines, c.labelCount, c.labelCount + k) && NumbersDistinct(lines)
    ensures Follows(c, WriteAll(c.(labelCount := c.labelCount + k), lines))
  {
    var r := WriteAll(c.(labelCount := c.labelCount + k), lines);
    NumbersAppend(c.asm, lines, c.labelCount, c.labelCount + k);
  }

  /** Every label definition among `lines` carries a number in [lo, hi). */
  predicate NumbersIn(lines: seq<string>, lo: nat, hi: nat)
  {
    forall i :: 0 <= i < |lines| && Assembler.IsLabelDef(lines[i]) ==> lo <= LabelNum(lines[i]) < hi
  }

  /** No two label definitions among `lines` carry the same number. */
  predicate NumbersDistinct(lines: seq<string>)
  {
    forall i, j :: 0 <= i < j < |lines| && Assembler.IsLabelDef(lines[i]) && Assembler.IsLabelDef(lines[j]) ==>
      LabelNum(lines[i]) != LabelNum(lines[j])
  }

  /** Lines numbered in [lo, hi) after lines numbered below lo keep all
      numbers distinct and below hi. */
  lemma {:induction false} NumbersAppend(before: seq<string>, lines: seq<string>, lo: nat, hi: nat)
    requires lo <= hi
    requires NumbersIn(before, 0, lo) && NumbersDistinct(before)
    requires NumbersIn(lines, lo, hi) && NumbersDistinct(lines)
    ensures NumbersIn(before + lines, 0, hi) && NumbersDistinct(before + lines)
    ensures NumbersIn((before + lines)[|before|..], lo, hi)
  {
    assert (before + lines)[|before|..] == lines;
    NumbersInAppend(before, lines, lo, hi);
    NumbersDistinctAppend(before, lines, lo, hi);
  }

  lemma {:induction false} NumbersInAppend(before: seq<string>, lines: seq<string>, lo: nat, hi: nat)
    requires lo <= hi && NumbersIn(before, 0, lo) && NumbersIn(lines, lo, hi)
    ensures NumbersIn(before + lines, 0, hi)
  {
    var s, n := before + lines, |before|;
    forall i | 0 <= i < |s| && Assembler.IsLabelDef(s[i])
      ensures LabelNum(s[i]) < hi
    {
      if i >= n {
        assert s[i] == lines[i - n];
      } else {
        assert s[i] == before[i];
      }
    }
  }

  lemma {:induction false} NumbersDistinctAppend(before: seq<string>, lines: seq<string>, lo: nat, hi: nat)
    requires NumbersIn(before, 0, lo) && NumbersDistinct(before)
    requires NumbersIn(lines, lo, hi) && NumbersDistinct(lines)
    ensures NumbersDistinct(before + lines)
  {
    var s, n := before + lines, |before|;
    forall i, j | 0 <= i < j < |s| && Assembler.IsLabelDef(s[i]) && Assembler.IsLabelDef(s[j])
      ensures LabelNum(s[i]) != LabelNum(s[j])
    {
      if i >= n {
        assert s[i] == lines[i - n] && s[j] == lines[j - n];
      } else if j >= n {
        assert s[i] == before[i] && s[j] == lines[j - n];
        assert LabelNum(s[i]) < lo <= LabelNum(s[j]);
      } else {
        assert s[i] == before[i] && s[j] == before[j];
      }
    }
  }

  /** Lines whose first character is not `(` define no label. */
  lemma {:induction false} NotLabelDef(line: string)
    requires |line| > 0 && line[0] != '('
    ensures !Assembler.IsLabelDef(line)
  {
    assert line[..1][0] == line[0];
  }

  // ---------------------------------------------------------------------------
  // Assignment (compiler.py:21-31)

  /** `compile_assign(var, expr)`: the target is allocated before the source. */
  function CompileAssign(c: Compiler, v: string, e: Operand): (r: Compiler)
    ensures Extends(c, r) && r.labelCount == c.labelCount
    ensures v in r.vars && (e.Var? ==> e.name in r.vars)
    ensures Allocated(c) ==> Allocated(r)
    ensures r.asm == c.asm + Load(e, r.vars) + [At(r.vars[v]), "M=D"]
  {
    var (addr, c1) := GetVarAddr(c, v);
    var c2 := LoadD(c1, e);
    WriteAll(c2, [At(addr), "M=D"])
  }

  /** The names an assignment allocates: the target first (line 22), then a
      variable source (line 27), and no others. */
  lemma {:induction false} CompileAssignOrder(c: Compiler, v: string, e: Operand)
    ensures var r := CompileAssign(c, v, e);
      && r.vars.Keys == c.vars.Keys + {v} + (if e.Var? then {e.name} else {})
      && (v !in c.vars ==> r.vars[v] == c.nextRam)
      && (e.Var? && e.name !in c.vars && e.name != v ==>
            r.vars[e.name] == c.nextRam + (if v in c.vars then 0 else 1))
  {
    var c1 := GetVarAddr(c, v).1;
    assert c1.vars.Keys == c.vars.Keys + {v};
    assert c1.nextRam == c.nextRam + (if v in c.vars then 0 else 1);
    match e
    case Lit(n) =>
      assert CompileAssign(c, v, e).vars == c1.vars;
    case Var(name) =>
      var c2 := GetVarAddr(c1, name).1;
      assert CompileAssign(c, v, e).vars == c2.vars;
  }

  /** The two lines that put an operand in D, given the variable addresses. */
  function Load(e: Operand, vars: map<string, nat>): seq<string>
    requires e.Var? ==> e.name in vars
  {
    match e
    case Lit(n) => [At(n), "D=A"]
    case Var(name) => [At(vars[name]), "D=M"]
  }

  lemma {:induction false} LoadNoLabels(e: Operand, vars: map<string, nat>)
    requires e.Var? ==> e.name in vars
    ensures NoLabels(Load(e, vars))
  {
    var l := Load(e, vars);
    NotLabelDef(l[0]);
  }

  /** Allocating a variable writes nothing, so it keeps the invariant. */
  lemma {:induction false} AllocFollows(c: Compiler, v: string)
    requires Good(c)
    ensures Follows(c, GetVarAddr(c, v).1)
  {
  }

  lemma {:induction false} LoadDFollows(c: Compiler, e: Operand)
    requires Good(c)
    ensures Follows(c, LoadD(c, e))
  {
    match e
    case Lit(n) =>
      WritePairFollows(c, At(n), "D=A");
    case Var(name) =>
      var (addr, c1) := GetVarAddr(c, name);
      AllocFollows(c, name);
      WritePairFollows(c1, At(addr), "D=M");
      FollowsTrans(c, c1, LoadD(c, e));
  }

  lemma {:induction false} CompileAssignFollows(c: Compiler, v: string, e: Operand)
    requires Good(c)
    ensures Follows(c, CompileAssign(c, v, e))
  {
    var (addr, c1) := GetVarAddr(c, v);
    AllocFollows(c, v);
    var c2 := LoadD(c1, e);
    LoadDFollows(c1, e);
    FollowsTrans(c, c1, c2);
    WritePairFollows(c2, At(addr), "M=D");
    FollowsTrans(c, c2, CompileAssign(c, v, e));
  }

  // ---------------------------------------------------------------------------
  // Arithmetic (compiler.py:33-198)

  /** The operators lowered to a single ALU instruction. */
  const OneStepOps: set<string> := {"+", "-", "&", "|"}

  /** Every operator `compile_math` lowers. */
  const MathOps: set<string> := OneStepOps + {"*", "/"}

  /** The multiplication loop (lines 58-84 and 132-161): R13 holds the left
      operand as a down-counter and R14 accumulates the right operand, which
      `load` brings into D after the A-line `@operand`. */
  function MulLines(operand: string, load: string, loop: string, end: string): seq<string>
  {
    ["@R13", "M=D", "@0", "D=A", "@R14", "M=D",
     LabelDef(loop), "@R13", "D=M", "@" + end, "D;JEQ",
     "@" + operand, load, "@R14", "M=D+M", "@R13", "M=M-1", "@" + loop, "0;JMP",
     LabelDef(end), "@R14", "D=M"]
  }

  /** The division loop (lines 86-116 and 163-193): R13 holds the dividend,
      which `subtract` reduces by the divisor after the A-line `@operand`,
      and R14 counts the subtractions until the difference is negative. */
  function DivLines(operand: string, subtract: string, loop: string, end: string): seq<string>
  {
    ["@R13", "M=D", "@0", "D=A", "@R14", "M=D",
     LabelDef(loop), "@R13", "D=M", "@" + operand, subtract, "@" + end, "D;JLT",
     "@R13", "M=D", "@R14", "M=M+1", "@" + loop, "0;JMP",
     LabelDef(end), "@R14", "D=M"]
  }

  /** The loop template for `*` or `/`, with its two labels drawn from the
      counter: `MUL_LOOP<n>` and `MUL_END<n+1>`, or the `DIV_` pair. */
  function LoopLines(op: string, operand: string, fromRam: bool, n: nat): seq<string>
    requires op in {"*", "/"}
  {
    if op == "*" then
      MulLines(operand, if fromRam then "D=M" else "D=A", "MUL_LOOP" + Dec(n), "MUL_END" + Dec(n + 1))
    else
      DivLines(operand, if fromRam then "D=D-M" else "D=D-A", "DIV_LOOP" + Dec(n), "DIV_END" + Dec(n + 1))
  }

  /** Lines 44-195 once the left operand is in D: the right operand is
      combined into D. The source's `@{right}` in the loop templates is the
      literal for a number and the variable's NAME for a variable, which the
      assembler then resolves as a symbol of its own. */
  function ApplyOp(c: Compiler, op: string, right: Operand): (r: Result<Compiler>)
    ensures r.Ok? <==> op in MathOps
    ensures r.Ok? ==> Extends(c, r.value) && (right.Var? ==> right.name in r.value.vars)
    ensures r.Ok? ==> r.value.labelCount == c.labelCount + (if op in OneStepOps then 0 else 2)
    ensures r.Ok? && Allocated(c) ==> Allocated(r.value)
  {
    match right
    case Lit(n) =>
      if op in OneStepOps then Ok(WriteAll(c, [At(n), "D=D" + op + "A"]))
      else if op in {"*", "/"} then
        Ok(WriteAll(c.(labelCount := c.labelCount + 2), LoopLines(op, Dec(n), false, c.labelCount)))
      else Err(NotImplemented(op))
    case Var(name) =>
      var (addr, c1) := GetVarAddr(c, name);
      var c2 := Write(c1, At(addr));
      if op in OneStepOps then Ok(Write(c2, "D=D" + op + "M"))
      else if op in {"*", "/"} then
        Ok(WriteAll(c2.(labelCount := c2.labelCount + 2), LoopLines(op, name, true, c2.labelCount)))
      else Err(NotImplemented(op))
  }

  /** `compile_math(dest, left, op, right)`: the target is allocated first,
      the left operand loaded into D, the right one combined in, and D stored
      at the target. Any operator but the six is `NotImplementedError`. */
  function CompileMath(c: Compiler, dest: string, left: Operand, op: string, right: Operand): (r: Result<Compiler>)
    ensures r.Ok? <==> op in MathOps
    ensures r.Ok? ==> Extends(c, r.value) && dest in r.value.vars
    ensures r.Ok? ==> |r.value.asm| >= |c.asm| + 2 && r.value.asm[|r.value.asm| - 2..] == [At(r.value.vars[dest]), "M=D"]
    ensures r.Ok? ==> r.value.labelCount == c.labelCount + (if op in OneStepOps then 0 else 2)
    ensures r.Ok? && Allocated(c) ==> Allocated(r.value)
  {
    var (addr, c1) := GetVarAddr(c, dest);
    var c2 := LoadD(c1, left);
    var c3 :- ApplyOp(c2, op, right);
    Ok(WriteAll(c3, [At(addr), "M=D"]))
  }

  /** Apart from lines 6 and 19, no line of a loop template starts with `(`. */
  predicate TemplateShape(lines: seq<string>, loop: string, end: string)
  {
    && |lines| == 22 && lines[6] == LabelDef(loop) && lines[19] == LabelDef(end)
    && forall i :: 0 <= i < |lines| && i != 6 && i != 19 ==> |lines[i]| > 0 && lines[i][0] != '('
  }

  lemma {:induction false} MulLinesShape(operand: string, load: string, loop: string, end: string)
    requires |load| > 0 && load[0] != '('
    ensures TemplateShape(MulLines(operand, load, loop, end), loop, end)
  {
  }

  lemma {:induction false} DivLinesShape(operand: string, subtract: string, loop: string, end: string)
    requires |subtract| > 0 && subtract[0] != '('
    ensures TemplateShape(DivLines(operand, subtract, loop, end), loop, end)
  {
  }

  /** A loop template defines exactly two labels, the loop head carrying `n`
      and the exit carrying `n + 1`. */
  lemma {:induction false} LoopLinesLabels(op: string, operand: string, fromRam: bool, n: nat)
    requires op in {"*", "/"}
    ensures var lines := LoopLines(op, operand, fromRam, n);
      && |lines| == 22
      && (forall i :: 0 <= i < |lines| && Assembler.IsLabelDef(lines[i]) ==> i == 6 || i == 19)
      && Assembler.IsLabelDef(lines[6]) && LabelNum(lines[6]) == n
      && Assembler.IsLabelDef(lines[19]) && LabelNum(lines[19]) == n + 1
  {
    var lines := LoopLines(op, operand, fromRam, n);
    if op == "*" {
      MulLinesShape(operand, if fromRam then "D=M" else "D=A", "MUL_LOOP" + Dec(n), "MUL_END" + Dec(n + 1));
      ShapeLabels(lines, "MUL_LOOP", "MUL_END", n);
    } else {
      DivLinesShape(operand, if fromRam then "D=D-M" else "D=D-A", "DIV_LOOP" + Dec(n), "DIV_END" + Dec(n + 1));
      ShapeLabels(lines, "DIV_LOOP", "DIV_END", n);
    }
  }

  /** A template whose label names end in their numbers defines exactly
      those two labels. */
  lemma {:induction false} ShapeLabels(lines: seq<string>, p: string, q: string, n: nat)
    requires |p| > 0 && !IsDigit(p[|p| - 1]) && |q| > 0 && !IsDigit(q[|q| - 1])
    requires TemplateShape(lines, p + Dec(n), q + Dec(n + 1))
    ensures |lines| == 22
    ensures forall i :: 0 <= i < |lines| && Assembler.IsLabelDef(lines[i]) ==> i == 6 || i == 19
    ensures Assembler.IsLabelDef(lines[6]) && LabelNum(lines[6]) == n
    ensures Assembler.IsLabelDef(lines[19]) && LabelNum(lines[19]) == n + 1
  {
    forall i | 0 <= i < |lines| && i != 6 && i != 19
      ensures !Assembler.IsLabelDef(lines[i])
    {
      NotLabelDef(lines[i]);
    }
    LabelDefNum(p, n);
    LabelDefNum(q, n + 1);
  }

  /** Lines whose only labels are at 6 and 19, numbered `n` and `n + 1`. */
  lemma {:induction false} TwoLabels(lines: seq<string>, n: nat)
    requires |lines| == 22
    requires forall i :: 0 <= i < |lines| && Assembler.IsLabelDef(lines[i]) ==> i == 6 || i == 19
    requires Assembler.IsLabelDef(lines[6]) && LabelNum(lines[6]) == n
    requires Assembler.IsLabelDef(lines[19]) && LabelNum(lines[19]) == n + 1
    ensures NumbersIn(lines, n, n + 2) && NumbersDistinct(lines)
  {
  }

  lemma {:induction false} LoopFollows(c: Compiler, op: string, operand: string, fromRam: bool)
    requires Good(c) && op in {"*", "/"}
    ensures Follows(c, WriteAll(c.(labelCount := c.labelCount + 2), LoopLines(op, operand, fromRam, c.labelCount)))
  {
    LoopLinesLabels(op, operand, fromRam, c.labelCount);
    TwoLabels(LoopLines(op, operand, fromRam, c.labelCount), c.labelCount);
    DrawAndWriteFollows(c, 2, LoopLines(op, operand, fromRam, c.labelCount));
  }

  lemma {:induction false} ApplyLitFollows(c: Compiler, op: string, n: nat)
    requires Good(c)
    ensures ApplyOp(c, op, Lit(n)).Ok? ==> Follows(c, ApplyOp(c, op, Lit(n)).value)
  {
    if op in OneStepOps {
      WritePairFollows(c, At(n), "D=D" + op + "A");
    } else if op in MathOps {
      LoopFollows(c, op, Dec(n), false);
    }
  }

  lemma {:induction false} ApplyVarFollows(c: Compiler, op: string, name: string)
    requires Good(c)
    ensures ApplyOp(c, op, Var(name)).Ok? ==> Follows(c, ApplyOp(c, op, Var(name)).value)
  {
    if op in MathOps {
      var (addr, c1) := GetVarAddr(c, name);
      var c2 := Write(c1, At(addr));
      AddressFollows(c, name);
      var r := ApplyOp(c, op, Var(name)).value;
      ApplyVarTail(c2, op, name, r);
      FollowsTrans(c, c2, r);
    }
  }

  /** Allocating a variable and loading its address keeps the invariant. */
  lemma {:induction false} AddressFollows(c: Compiler, name: string)
    requires Good(c)
    ensures Follows(c, Write(GetVarAddr(c, name).1, At(GetVarAddr(c, name).0)))
  {
    var (addr, c1) := GetVarAddr(c, name);
    NotLabelDef(At(addr));
    WriteAllFollows(c1, [At(addr)]);
  }

  /** The step that combines a variable's cell into D keeps the invariant. */
  lemma {:induction false} ApplyVarTail(c2: Compiler, op: string, name: string, r: Compiler)
    requires Good(c2) && op in MathOps
    requires r == if op in OneStepOps then Write(c2, "D=D" + op + "M")
      else WriteAll(c2.(labelCount := c2.labelCount + 2), LoopLines(op, name, true, c2.labelCount))
    ensures Follows(c2, r)
  {
    if op in OneStepOps {
      WriteAllFollows(c2, ["D=D" + op + "M"]);
    } else {
      LoopFollows(c2, op, name, true);
    }
  }

  /** Allocating a variable and loading an operand keeps the invariant. */
  lemma {:induction false} AllocLoadFollows(c: Compiler, v: string, e: Operand)
    requires Good(c)
    ensures Follows(c, LoadD(GetVarAddr(c, v).1, e))
  {
    LoadDFollows(GetVarAddr(c, v).1, e);
  }

  lemma {:induction false} CompileMathFollows(c: Compiler, dest: string, left: Operand, op: string, right: Operand)
    requires Good(c)
    ensures CompileMath(c, dest, left, op, right).Ok? ==> Follows(c, CompileMath(c, dest, left, op, right).value)
  {
    if op in MathOps {
      var (addr, c1) := GetVarAddr(c, dest);
      var c2 := LoadD(c1, left);
      AllocLoadFollows(c, dest, left);
      var c3 := ApplyOp(c2, op, right).value;
      if right.Lit? {
        ApplyLitFollows(c2, op, right.n);
      } else {
        ApplyVarFollows(c2, op, right.name);
      }
      FollowsTrans(c, c2, c3);
      WritePairFollows(c3, At(addr), "M=D");
      FollowsTrans(c, c3, CompileMath(c, dest, left, op, right).value);
    }
  }

  // ---------------------------------------------------------------------------
  // Loop conditions (compiler.py:200-218, 225-238)

  /** The jump that LEAVES a loop for each comparison (line 217): the
      opposite condition on `left - right`. */
  const JumpMap: map<string, string> :=
    map[">" := "JLE", "<" := "JGE", "==" := "JNE", "!=" := "JEQ", ">=" := "JLT", "<=" := "JGT"]

  /** The comparison `a op b` itself. */
  predicate Compares(op: string, a: int, b: int)
  {
    || (op == ">" && a > b) || (op == "<" && a < b) || (op == "==" && a == b)
    || (op == "!=" && a != b) || (op == ">=" && a >= b) || (op == "<=" && a <= b)
  }

  /** The exit jump fires on `left - right` exactly when the comparison is
      false, and it is a jump the assembler knows. */
  lemma {:induction false} ExitJump(op: string, a: int, b: int)
    requires op in JumpMap
    ensures Some(JumpMap[op]) in Assembler.JumpTable
    ensures Semantics.JumpHolds(Some(JumpMap[op]), a - b) <==> !Compares(op, a, b)
  {
  }

  /** `compile_condition(left, op, right)`: D := left - right, then the exit
      jump for `op`; an operator missing from the map is a `KeyError`. */
  function CompileCondition(c: Compiler, left: Operand, op: string, right: Operand): (r: Result<(Compiler, string)>)
    ensures r.Ok? <==> op in JumpMap
    ensures r.Err? ==> r.error == UnknownKey("jump_map", op)
    ensures r.Ok? ==> r.value.1 == JumpMap[op]
    ensures r.Ok? ==> Extends(c, r.value.0) && r.value.0.labelCount == c.labelCount && |r.value.0.asm| == |c.asm| + 4
    ensures r.Ok? && Allocated(c) ==> Allocated(r.value.0)
  {
    var c2 := SubtractRight(LoadD(c, left), right);
    if op in JumpMap then Ok((c2, JumpMap[op])) else Err(UnknownKey("jump_map", op))
  }

  /** Lines 205-213: D := D - right, from a literal (`A`) or a variable (`M`). */
  function SubtractRight(c: Compiler, right: Operand): (r: Compiler)
    ensures Extends(c, r) && r.labelCount == c.labelCount && |r.asm| == |c.asm| + 2
    ensures Allocated(c) ==> Allocated(r)
    ensures right.Lit? ==> r.asm == c.asm + [At(right.n), "D=D-A"] && r.vars == c.vars
    ensures right.Var? ==> right.name in r.vars && r.asm == c.asm + [At(r.vars[right.name]), "D=D-M"]
  {
    match right
    case Lit(n) => WriteAll(c, [At(n), "D=D-A"])
    case Var(name) =>
      var (addr, c3) := GetVarAddr(c, name);
      WriteAll(c3, [At(addr), "D=D-M"])
  }

  lemma {:induction false} CompileConditionFollows(c: Compiler, left: Operand, op: string, right: Operand)
    requires Good(c)
    ensures CompileCondition(c, left, op, right).Ok? ==> Follows(c, CompileCondition(c, left, op, right).value.0)
  {
    if op in JumpMap {
      var c1 := LoadD(c, left);
      LoadDFollows(c, left);
      SubtractRightFollows(c1, right);
      FollowsTrans(c, c1, SubtractRight(c1, right));
    }
  }

  lemma {:induction false} SubtractRightFollows(c: Compiler, right: Operand)
    requires Good(c)
    ensures Follows(c, SubtractRight(c, right))
  {
    match right
    case Lit(n) =>
      WritePairFollows(c, At(n), "D=D-A");
    case Var(name) =>
      var (addr, c3) := GetVarAddr(c, name);
      WritePairFollows(c3, At(addr), "D=D-M");
      FollowsTrans(c, c3, SubtractRight(c, right));
  }

  /** The comparison operators the condition pattern accepts. */
  const CompareOps: set<string> := {"==", "!=", ">=", "<=", ">", "<"}

  /** Every operator the pattern accepts has an exit jump. */
  lemma {:induction false} CompareOpsJump()
    ensures forall op :: op in CompareOps ==> op in JumpMap
  {
  }

  /** The operator alternation `(==|!=|>=|<=|>|<)` at the start of `t`: the
      alternatives are tried in this order and the first that fits is taken. */
  function OpAt(t: string): (r: Option<string>)
    ensures r.Some? ==> r.value in CompareOps && StartsWith(t, r.value)
    ensures r.None? <==> forall op :: op in CompareOps ==> !StartsWith(t, op)
  {
    if StartsWith(t, "==") then Some("==")
    else if StartsWith(t, "!=") then Some("!=")
    else if StartsWith(t, ">=") then Some(">=")
    else if StartsWith(t, "<=") then Some("<=")
    else if StartsWith(t, ">") then Some(">")
    else if StartsWith(t, "<") then Some("<")
    else None
  }

  /** The three groups of a match of `(\w+|\d+)\s*(==|!=|>=|<=|>|<)\s*(\w+|\d+)`
      together with the two runs of whitespace around the operator. */
  datatype CondMatch = CondMatch(left: string, gap1: string, op: string, gap2: string, right: string)

  /** `\w+`. */
  predicate IsWord(s: string)
  {
    |s| > 0 && forall i :: 0 <= i < |s| ==> IsWordChar(s[i])
  }

  /** `\s*`. */
  predicate AllSpace(s: string)
  {
    forall i :: 0 <= i < |s| ==> IsSpace(s[i])
  }

  /** The text a match covers. */
  function Spelled(m: CondMatch): string
  {
    m.left + m.gap1 + m.op + m.gap2 + m.right
  }

  /** `m` is how the pattern reads the start of `s`: each piece has its shape,
      together they are a prefix of `s`, and the right operand is not cut
      short by a word character after it. */
  predicate Fits(m: CondMatch, s: string)
  {
    && IsWord(m.left) && AllSpace(m.gap1) && m.op in CompareOps && AllSpace(m.gap2) && IsWord(m.right)
    && StartsWith(s, Spelled(m))
    && (|s| == |Spelled(m)| || !IsWordChar(s[|Spelled(m)|]))
  }

  /** Pieces cut from `s` at the boundaries of the pattern's runs fit it. */
  lemma {:induction false} FitsAt(s: string, op: string, i1: nat, i2: nat, i4: nat, i5: nat)
    requires 0 < i1 <= i2 && i2 + |op| <= i4 < i5 <= |s|
    requires forall j :: 0 <= j < i1 ==> IsWordChar(s[j])
    requires forall j :: i1 <= j < i2 ==> IsSpace(s[j])
    requires op in CompareOps && s[i2..i2 + |op|] == op
    requires forall j :: i2 + |op| <= j < i4 ==> IsSpace(s[j])
    requires forall j :: i4 <= j < i5 ==> IsWordChar(s[j])
    requires i5 == |s| || !IsWordChar(s[i5])
    ensures Fits(Pieces(s, i1, i2, op, i4, i5), s)
  {
    var m := Pieces(s, i1, i2, op, i4, i5);
    assert Spelled(m) == s[..i5];
  }

  /** `re.match` of the condition pattern (line 229): anchored at the start,
      not at the end. Each `\w+` takes the longest run of word characters
      (the `\d+` alternative can only match less), each `\s*` the longest run
      of whitespace, and the operator is the first alternative that fits;
      backtracking never finds another match because operators start with
      neither a word character nor whitespace. */
  function MatchCondition(s: string): Option<CondMatch>
  {
    var i1 := WordEnd(s, 0);
    var i2 := SpaceEnd(s, i1);
    match OpAt(s[i2..])
    case None => None
    case Some(op) =>
      var i4 := SpaceEnd(s, i2 + |op|);
      var i5 := WordEnd(s, i4);
      if i1 == 0 || i5 == i4 then None else Some(Pieces(s, i1, i2, op, i4, i5))
  }

  /** What `MatchCondition` finds is a reading of `s` as the pattern. */
  lemma {:induction false} MatchConditionSound(s: string)
    ensures MatchCondition(s).Some? ==> Fits(MatchCondition(s).value, s)
  {
    var i1 := WordEnd(s, 0);
    var i2 := SpaceEnd(s, i1);
    if MatchCondition(s).Some? {
      var op := OpAt(s[i2..]).value;
      var i4 := SpaceEnd(s, i2 + |op|);
      var i5 := WordEnd(s, i4);
      MatchConditionAt(s, i1, i2, op, i4, i5);
      FitsEnds(s, i1, i2, op, i4, i5);
    }
  }

  /** Pieces cut at the run boundaries `MatchCondition` computes fit the pattern. */
  lemma {:induction false} FitsEnds(s: string, i1: nat, i2: nat, op: string, i4: nat, i5: nat)
    requires WordEnd(s, 0) == i1 > 0 && SpaceEnd(s, i1) == i2
    requires OpAt(s[i2..]) == Some(op) && i2 + |op| <= |s|
    requires SpaceEnd(s, i2 + |op|) == i4 && WordEnd(s, i4) == i5 && i4 < i5
    ensures Fits(Pieces(s, i1, i2, op, i4, i5), s)
  {
    assert s[i2..i2 + |op|] == s[i2..][..|op|];
    WordEndRun(s, 0);
    SpaceEndRun(s, i1);
    SpaceEndRun(s, i2 + |op|);
    WordEndRun(s, i4);
    FitsAt(s, op, i1, i2, i4, i5);
  }

  /** The match cut from `s` at the given boundaries. */
  function Pieces(s: string, i1: nat, i2: nat, op: string, i4: nat, i5: nat): CondMatch
    requires i1 <= i2 && i2 + |op| <= i4 <= i5 <= |s|
  {
    CondMatch(s[..i1], s[i1..i2], op, s[i2 + |op|..i4], s[i4..i5])
  }

  /** The operator the pattern takes is the one written, provided the next
      character is whitespace or a word character: `>` and `<` are then not
      read as the start of `>=` and `<=`. */
  lemma {:induction false} OpAtIs(t: string, op: string)
    requires op in CompareOps && StartsWith(t, op) && |op| < |t|
    requires IsSpace(t[|op|]) || IsWordChar(t[|op|])
    ensures OpAt(t) == Some(op)
  {
    assert t[0] == op[0];
    assert forall p :: |p| == 2 && StartsWith(t, p) ==> p[0] == t[0] && p[1] == t[1];
    assert forall p :: |p| == 1 && StartsWith(t, p) <==> p == [t[0]];
    if |op| == 2 {
      assert t[1] == op[1];
    }
  }

  /** A reading of `s` as the pattern, character by character. */
  lemma {:induction false} FitsPieces(s: string, m: CondMatch, i1: nat, i2: nat, i3: nat, i4: nat, i5: nat)
    requires Fits(m, s)
    requires i1 == |m.left| && i2 == i1 + |m.gap1| && i3 == i2 + |m.op| && i4 == i3 + |m.gap2| && i5 == i4 + |m.right|
    ensures i5 <= |s|
    ensures s[..i1] == m.left && s[i1..i2] == m.gap1 && s[i2..i3] == m.op && s[i3..i4] == m.gap2 && s[i4..i5] == m.right
    ensures forall j :: 0 <= j < i1 ==> IsWordChar(s[j])
    ensures forall j :: i1 <= j < i2 ==> IsSpace(s[j])
    ensures forall j :: i3 <= j < i4 ==> IsSpace(s[j])
    ensures forall j :: i4 <= j < i5 ==> IsWordChar(s[j])
    ensures i5 == |s| || !IsWordChar(s[i5])
  {
    SpelledSlices(s, m);
    SliceChars(s, 0, i1, m.left);
    SliceChars(s, i1, i2, m.gap1);
    SliceChars(s, i3, i4, m.gap2);
    SliceChars(s, i4, i5, m.right);
  }

  lemma {:induction false} SliceChars(s: string, lo: nat, hi: nat, piece: string)
    requires lo <= hi <= |s| && s[lo..hi] == piece
    ensures forall j :: lo <= j < hi ==> s[j] == piece[j - lo]
  {
    forall j | lo <= j < hi
      ensures s[j] == piece[j - lo]
    {
      assert s[lo..hi][j - lo] == s[j];
    }
  }

  /** The pieces of a reading are the slices of `s` between their ends. */
  lemma {:induction false} SpelledSlices(s: string, m: CondMatch)
    requires StartsWith(s, Spelled(m))
    ensures var i1 := |m.left|;
      var i2 := i1 + |m.gap1|;
      var i3 := i2 + |m.op|;
      var i4 := i3 + |m.gap2|;
      var i5 := i4 + |m.right|;
      && i5 <= |s|
      && s[..i1] == m.left && s[i1..i2] == m.gap1 && s[i2..i3] == m.op && s[i3..i4] == m.gap2 && s[i4..i5] == m.right
  {
    var x := Spelled(m);
    var i1 := |m.left|;
    var i2 := i1 + |m.gap1|;
    var i3 := i2 + |m.op|;
    var i4 := i3 + |m.gap2|;
    var i5 := i4 + |m.right|;
    assert |x| == i5;
    assert forall j :: 0 <= j < i5 ==> s[j] == x[j];
    SliceOfConcat(s, m.left, 0, i1, x, 0);
    SliceOfConcat(s, m.gap1, i1, i2, x, i1);
    SliceOfConcat(s, m.op, i2, i3, x, i2);
    SliceOfConcat(s, m.gap2, i3, i4, x, i3);
    SliceOfConcat(s, m.right, i4, i5, x, i4);
  }

  lemma {:induction false} SliceOfConcat(s: string, piece: string, lo: nat, hi: nat, x: string, at: nat)
    requires lo == at && hi == lo + |piece| <= |x| <= |s|
    requires forall j :: 0 <= j < |x| ==> s[j] == x[j]
    requires forall j :: 0 <= j < |piece| ==> x[at + j] == piece[j]
    ensures s[lo..hi] == piece
  {
  }

  /** The left word and the gap after it end where the reading says. */
  lemma {:induction false} FitsLeft(s: string, m: CondMatch, i1: nat, i2: nat, i3: nat, i4: nat, i5: nat)
    requires Fits(m, s)
    requires i1 == |m.left| && i2 == i1 + |m.gap1| && i3 == i2 + |m.op| && i4 == i3 + |m.gap2| && i5 == i4 + |m.right|
    ensures i1 > 0 && WordEnd(s, 0) == i1 && SpaceEnd(s, i1) == i2
  {
    FitsPieces(s, m, i1, i2, i3, i4, i5);
    assert s[i2] == m.op[0];
    WordEndIs(s, 0, i1);
    SpaceEndIs(s, i1, i2);
  }

  /** The operator of the reading is the one the alternation picks. */
  lemma {:induction false} FitsOp(s: string, m: CondMatch, i1: nat, i2: nat, i3: nat, i4: nat, i5: nat)
    requires Fits(m, s)
    requires i1 == |m.left| && i2 == i1 + |m.gap1| && i3 == i2 + |m.op| && i4 == i3 + |m.gap2| && i5 == i4 + |m.right|
    ensures i3 <= |s| && OpAt(s[i2..]) == Some(m.op)
  {
    FitsPieces(s, m, i1, i2, i3, i4, i5);
    assert s[i2..][..|m.op|] == m.op;
    assert s[i4] == m.right[0];
    assert i3 < i4 ==> IsSpace(s[i3]);
    OpAtIs(s[i2..], m.op);
  }

  /** The gap after the operator and the right word end where the reading says. */
  lemma {:induction false} FitsRight(s: string, m: CondMatch, i1: nat, i2: nat, i3: nat, i4: nat, i5: nat)
    requires Fits(m, s)
    requires i1 == |m.left| && i2 == i1 + |m.gap1| && i3 == i2 + |m.op| && i4 == i3 + |m.gap2| && i5 == i4 + |m.right|
    ensures i4 < i5 <= |s| && SpaceEnd(s, i3) == i4 && WordEnd(s, i4) == i5
  {
    FitsPieces(s, m, i1, i2, i3, i4, i5);
    assert s[i4] == m.right[0];
    SpaceEndIs(s, i3, i4);
    WordEndIs(s, i4, i5);
  }

  /** Cutting `s` where a reading's pieces end gives back that reading. */
  lemma {:induction false} PiecesOfFits(s: string, m: CondMatch, i1: nat, i2: nat, i3: nat, i4: nat, i5: nat)
    requires Fits(m, s)
    requires i1 == |m.left| && i2 == i1 + |m.gap1| && i3 == i2 + |m.op| && i4 == i3 + |m.gap2| && i5 == i4 + |m.right|
    ensures i5 <= |s| && Pieces(s, i1, i2, m.op, i4, i5) == m
  {
    FitsPieces(s, m, i1, i2, i3, i4, i5);
  }

  /** Conversely, every way of reading the start of `s` as the pattern is
      the one `MatchCondition` finds: with `MatchConditionSound`, the match
      is found exactly when such a reading exists, and that reading is unique. */
  lemma {:induction false} MatchConditionComplete(s: string, m: CondMatch)
    requires Fits(m, s)
    ensures MatchCondition(s) == Some(m)
  {
    var i1 := |m.left|;
    var i2 := i1 + |m.gap1|;
    var i3 := i2 + |m.op|;
    var i4 := i3 + |m.gap2|;
    var i5 := i4 + |m.right|;
    FitsLeft(s, m, i1, i2, i3, i4, i5);
    FitsOp(s, m, i1, i2, i3, i4, i5);
    FitsRight(s, m, i1, i2, i3, i4, i5);
    PiecesOfFits(s, m, i1, i2, i3, i4, i5);
    MatchConditionAt(s, i1, i2, m.op, i4, i5);
  }

  /** `MatchCondition` read off the run boundaries. */
  lemma {:induction false} MatchConditionAt(s: string, i1: nat, i2: nat, op: string, i4: nat, i5: nat)
    requires WordEnd(s, 0) == i1 > 0 && SpaceEnd(s, i1) == i2
    requires OpAt(s[i2..]) == Some(op) && i2 + |op| <= |s|
    requires SpaceEnd(s, i2 + |op|) == i4 && WordEnd(s, i4) == i5 && i4 < i5
    ensures MatchCondition(s) == Some(Pieces(s, i1, i2, op, i4, i5))
  {
  }

  /** `int(w) if w.isdigit() else w` (lines 233-234). */
  function OperandOf(w: string): (e: Operand)
    ensures e.Lit? <==> IsDigits(w)
    ensures e.Lit? ==> e.n == DigitsVal(w)
    ensures e.Var? ==> e.name == w
  {
    if IsDigits(w) then Lit(DigitsVal(w)) else Var(w)
  }

  /** Lines 226-238 for a list of comparisons: each is matched, compiled
      into D := left - right, and followed by a jump to `end` when it fails.
      The first comparison the pattern rejects is a `SyntaxError`. */
  function WriteTests(c: Compiler, conds: seq<string>, end: string): (r: Result<Compiler>)
    ensures r.Ok? <==> forall k :: 0 <= k < |conds| ==> MatchCondition(conds[k]).Some?
    ensures r.Err? ==> r.error.SyntaxError? && r.error.text in conds
    decreases |conds|
  {
    if |conds| == 0 then Ok(c)
    else
      match MatchCondition(conds[0])
      case None => Err(SyntaxError(conds[0]))
      case Some(m) =>
        var r := WriteTest(c, m, end);
        assert forall k :: 1 <= k < |conds| ==> conds[k] == conds[1..][k - 1];
        WriteTests(r, conds[1..], end)
  }

  /** One matched comparison and its exit jump. */
  function WriteTest(c: Compiler, m: CondMatch, end: string): (r: Compiler)
    requires m.op in CompareOps
  {
    CompareOpsJump();
    var cj := CompileCondition(c, OperandOf(m.left), m.op, OperandOf(m.right)).value;
    WriteAll(cj.0, ["@" + end, "D;" + cj.1])
  }

  /** One test is six lines: D := left - right in four, then the exit jump. */
  lemma {:induction false} WriteTestShape(c: Compiler, m: CondMatch, end: string)
    requires m.op in CompareOps
    ensures var r := WriteTest(c, m, end);
      && Extends(c, r) && r.labelCount == c.labelCount && |r.asm| == |c.asm| + 6
      && r.asm[|c.asm| + 4] == "@" + end && r.asm[|c.asm| + 5] == "D;" + JumpMap[m.op]
  {
    CompareOpsJump();
  }

  lemma {:induction false} WriteTestFollows(c: Compiler, m: CondMatch, end: string)
    requires Good(c) && m.op in CompareOps
    ensures Follows(c, WriteTest(c, m, end))
  {
    CompareOpsJump();
    var left, right := OperandOf(m.left), OperandOf(m.right);
    CompileConditionFollows(c, left, m.op, right);
    var cj := CompileCondition(c, left, m.op, right).value;
    WritePairFollows(cj.0, "@" + end, "D;" + cj.1);
    FollowsTrans(c, cj.0, WriteTest(c, m, end));
  }

  lemma {:induction false} WriteTestsFollows(c: Compiler, conds: seq<string>, end: string)
    requires Good(c)
    ensures WriteTests(c, conds, end).Ok? ==>
      Follows(c, WriteTests(c, conds, end).value) && WriteTests(c, conds, end).value.labelCount == c.labelCount
    decreases |conds|
  {
    if |conds| > 0 && MatchCondition(conds[0]).Some? {
      var m := MatchCondition(conds[0]).value;
      var c1 := WriteTest(c, m, end);
      WriteTestFollows(c, m, end);
      WriteTestShape(c, m, end);
      WriteTestsFollows(c1, conds[1..], end);
      if WriteTests(c, conds, end).Ok? {
        FollowsTrans(c, c1, WriteTests(c, conds, end).value);
      }
    }
  }

  /** The exit jump a comparison compiles to. */
  function ExitOf(cond: string): string
  {
    match MatchCondition(cond)
    case Some(m) => if m.op in JumpMap then JumpMap[m.op] else ""
    case None => ""
  }

  /** `lines` are six per comparison, each group ending with the jump
      `D;<exit>` to `end`. */
  predicate TestsExit(lines: seq<string>, conds: seq<string>, end: string)
    decreases |conds|
  {
    && |lines| == 6 * |conds|
    && (|conds| > 0 ==>
      && lines[4] == "@" + end && lines[5] == "D;" + ExitOf(conds[0])
      && TestsExit(lines[6..], conds[1..], end))
  }

  /** Every comparison, whether joined by `and` or by `or`, is followed by a
      jump to the same exit label on its failure: the loop runs only while
      ALL of them hold. */
  lemma {:induction false} WriteTestsJumps(c: Compiler, conds: seq<string>, end: string)
    ensures var r := WriteTests(c, conds, end);
      r.Ok? ==> c.asm <= r.value.asm && TestsExit(r.value.asm[|c.asm|..], conds, end)
    decreases |conds|
  {
    var r := WriteTests(c, conds, end);
    if |conds| > 0 && r.Ok? {
      var m := WriteTestsCons(c, conds, end);
      var c1 := WriteTest(c, m, end);
      WriteTestShape(c, m, end);
      WriteTestsJumps(c1, conds[1..], end);
      var asm := r.value.asm;
      assert asm[|c.asm| + 4] == c1.asm[|c.asm| + 4] && asm[|c.asm| + 5] == c1.asm[|c.asm| + 5];
      TestsExitCons(asm, |c.asm|, conds, end);
    }
  }

  /** The first comparison matched, its test comes first. */
  lemma {:induction false} WriteTestsCons(c: Compiler, conds: seq<string>, end: string) returns (m: CondMatch)
    requires |conds| > 0 && WriteTests(c, conds, end).Ok?
    ensures MatchCondition(conds[0]) == Some(m) && m.op in CompareOps && m.op in JumpMap
    ensures ExitOf(conds[0]) == JumpMap[m.op]
    ensures WriteTests(c, conds, end) == WriteTests(WriteTest(c, m, end), conds[1..], end)
  {
    m := MatchCondition(conds[0]).value;
    MatchConditionSound(conds[0]);
    CompareOpsJump();
  }

  /** One group of six lines ahead of the groups for the other comparisons. */
  lemma {:induction false} TestsExitCons(asm: seq<string>, base: nat, conds: seq<string>, end: string)
    requires |conds| > 0 && base + 6 <= |asm|
    requires asm[base + 4] == "@" + end && asm[base + 5] == "D;" + ExitOf(conds[0])
    requires TestsExit(asm[base + 6..], conds[1..], end)
    ensures TestsExit(asm[base..], conds, end)
  {
    var lines := asm[base..];
    assert lines[6..] == asm[base + 6..];
    assert lines[4] == asm[base + 4] && lines[5] == asm[base + 5];
  }

  // ---------------------------------------------------------------------------
  // Loops (compiler.py:220-242)

  /** Each piece stripped. */
  function StripAll(parts: seq<string>): (r: seq<string>)
    ensures |r| == |parts| && forall k :: 0 <= k < |parts| ==> r[k] == Strip(parts[k])
  {
    if |parts| == 0 then [] else [Strip(parts[0])] + StripAll(parts[1..])
  }

  /** Lines 225-228 for the `or` pieces: each is stripped and cut at every
      `and`, and the results are read one after another. */
  function Conjuncts(orParts: seq<string>): (r: seq<string>)
    ensures |r| >= |orParts|
  {
    if |orParts| == 0 then []
    else StripAll(Split(Strip(orParts[0]), "and")) + Conjuncts(orParts[1..])
  }

  /** The comparisons of a loop condition in the order they are compiled.
      Both connectives are cut as plain substrings, so a name containing
      `or` or `and` is cut too. */
  function Comparisons(cond: string): seq<string>
  {
    Conjuncts(StripAll(Split(cond, "or")))
  }

  /** `compile_while(condition, body)`. The two labels are drawn first; the
      tests, the body, the jump back and the exit label follow. The body is
      whatever the front end compiles into the state it is given. */
  function CompileWhile(c: Compiler, cond: string, body: Compiler -> Result<Compiler>): (r: Result<Compiler>)
    ensures r.Ok? <==>
      && WriteTests(LoopHead(c), Comparisons(cond), LoopEnd(c)).Ok?
      && body(WriteTests(LoopHead(c), Comparisons(cond), LoopEnd(c)).value).Ok?
    ensures r.Ok? ==> |r.value.asm| >= 3
    ensures r.Ok? ==> r.value.asm[|r.value.asm| - 3..] == ["@" + LoopStart(c), "0;JMP", LabelDef(LoopEnd(c))]
    ensures r.Err? ==> r.error.SyntaxError? || (WriteTests(LoopHead(c), Comparisons(cond), LoopEnd(c)).Ok? &&
                                                body(WriteTests(LoopHead(c), Comparisons(cond), LoopEnd(c)).value) == Err(r.error))
  {
    var c2 :- WriteTests(LoopHead(c), Comparisons(cond), LoopEnd(c));
    var c3 :- body(c2);
    Ok(WriteAll(c3, ["@" + LoopStart(c), "0;JMP", LabelDef(LoopEnd(c))]))
  }

  /** The head label `WHILE_START<n>`. */
  function LoopStart(c: Compiler): string
  {
    "WHILE_START" + Dec(c.labelCount)
  }

  /** The exit label `WHILE_END<n+1>`. */
  function LoopEnd(c: Compiler): string
  {
    "WHILE_END" + Dec(c.labelCount + 1)
  }

  /** Two numbers drawn and the head label `WHILE_START<n>` written. */
  function LoopHead(c: Compiler): (r: Compiler)
    ensures r.labelCount == c.labelCount + 2 && r.asm == c.asm + [LabelDef(LoopStart(c))]
  {
    Write(c.(labelCount := c.labelCount + 2), LabelDef(LoopStart(c)))
  }

  /** Appending a label whose number no earlier line carries keeps the
      invariant. */
  lemma {:induction false} AppendLabelGood(c: Compiler, line: string, k: nat)
    requires Good(c) && k < c.labelCount
    requires Assembler.IsLabelDef(line) && LabelNum(line) == k
    requires forall i :: 0 <= i < |c.asm| && Assembler.IsLabelDef(c.asm[i]) ==> LabelNum(c.asm[i]) != k
    ensures Good(Write(c, line))
  {
    var r := Write(c, line);
    assert forall i :: 0 <= i < |c.asm| ==> r.asm[i] == c.asm[i];
    forall i, j | 0 <= i < j < |r.asm| && Assembler.IsLabelDef(r.asm[i]) && Assembler.IsLabelDef(r.asm[j])
      ensures LabelNum(r.asm[i]) != LabelNum(r.asm[j])
    {
      if j == |c.asm| {
        assert r.asm[j] == line;
      }
    }
  }

  /** The loop closes with the jump back and the exit label. */
  lemma {:induction false} CloseLoopFollows(c: Compiler, c3: Compiler)
    requires Good(c) && Follows(LoopHead(c), c3)
    ensures Follows(c, WriteAll(c3, ["@" + LoopStart(c), "0;JMP", LabelDef(LoopEnd(c))]))
  {
    var n := c.labelCount;
    var c1 := LoopHead(c);
    LoopHeadFollows(c);
    FollowsTrans(c, c1, c3);
    forall i | 0 <= i < |c3.asm| && Assembler.IsLabelDef(c3.asm[i])
      ensures LabelNum(c3.asm[i]) != n + 1
    {
      if i < |c.asm| {
        assert c3.asm[i] == c.asm[i];
      } else if i == |c.asm| {
        assert c3.asm[i] == c1.asm[i];
      }
    }
    var a, b := "@" + LoopStart(c), "0;JMP";
    var c4 := WriteAll(c3, [a, b]);
    WritePairFollows(c3, a, b);
    assert forall i :: 0 <= i < |c3.asm| ==> c4.asm[i] == c3.asm[i];
    assert !Assembler.IsLabelDef(c4.asm[|c3.asm|]) && !Assembler.IsLabelDef(c4.asm[|c3.asm| + 1]) by {
      NotLabelDef(a);
      NotLabelDef(b);
    }
    AppendLabelGood(c4, LabelDef(LoopEnd(c)), n + 1);
    var r := Write(c4, LabelDef(LoopEnd(c)));
    assert r == WriteAll(c3, [a, b, LabelDef(LoopEnd(c))]);
    FollowsTrans(c, c3, c4);
  }

  /** The head label carries the first number drawn, the exit label the second. */
  lemma {:induction false} LoopHeadFollows(c: Compiler)
    requires Good(c)
    ensures Follows(c, LoopHead(c))
    ensures Assembler.IsLabelDef(LabelDef(LoopStart(c))) && LabelNum(LabelDef(LoopStart(c))) == c.labelCount
    ensures Assembler.IsLabelDef(LabelDef(LoopEnd(c))) && LabelNum(LabelDef(LoopEnd(c))) == c.labelCount + 1
  {
    LabelDefNum("WHILE_START", c.labelCount);
    LabelDefNum("WHILE_END", c.labelCount + 1);
    assert LoopHead(c) == WriteAll(c.(labelCount := c.labelCount + 2), [LabelDef(LoopStart(c))]);
    DrawAndWriteFollows(c, 2, [LabelDef(LoopStart(c))]);
  }

  /** A body that keeps the invariant, as every front-end body does. */
  ghost predicate KeepsFollows(body: Compiler -> Result<Compiler>)
  {
    forall c' :: Good(c') && body(c').Ok? ==> Follows(c', body(c').value)
  }

  /** The tests and the body continue the loop head. */
  lemma {:induction false} LoopBodyFollows(c: Compiler, cond: string, body: Compiler -> Result<Compiler>)
    requires Good(c) && KeepsFollows(body)
    requires WriteTests(LoopHead(c), Comparisons(cond), LoopEnd(c)).Ok?
    ensures var c2 := WriteTests(LoopHead(c), Comparisons(cond), LoopEnd(c)).value;
      body(c2).Ok? ==> Follows(LoopHead(c), body(c2).value)
  {
    var c1 := LoopHead(c);
    LoopHeadFollows(c);
    var c2 := WriteTests(c1, Comparisons(cond), LoopEnd(c)).value;
    WriteTestsFollows(c1, Comparisons(cond), LoopEnd(c));
    if body(c2).Ok? {
      FollowsTrans(c1, c2, body(c2).value);
    }
  }

  /** A loop keeps the invariant when its body does, and starts with its head label. */
  lemma {:induction false} CompileWhileFollows(c: Compiler, cond: string, body: Compiler -> Result<Compiler>)
    requires Good(c) && KeepsFollows(body)
    ensures var r := CompileWhile(c, cond, body);
      r.Ok? ==> Follows(c, r.value) && |c.asm| < |r.value.asm| && r.value.asm[|c.asm|] == LabelDef(LoopStart(c))
  {
    var r := CompileWhile(c, cond, body);
    if r.Ok? {
      var c2 := WriteTests(LoopHead(c), Comparisons(cond), LoopEnd(c)).value;
      LoopBodyFollows(c, cond, body);
      var c3 := body(c2).value;
      CloseLoopFollows(c, c3);
      assert r.value == WriteAll(c3, ["@" + LoopStart(c), "0;JMP", LabelDef(LoopEnd(c))]);
      assert r.value.asm[|c.asm|] == c3.asm[|c.asm|] == LoopHead(c).asm[|c.asm|];
    }
  }

  // ---------------------------------------------------------------------------
  // Printing and output (compiler.py:244-262)

  /** The operand `compile_print` loads: a string of digits stands for its
      number, as an int does. */
  function PrintOperand(value: Operand): (e: Operand)
    ensures value.Var? && IsDigits(value.name) ==> e == Lit(DigitsVal(value.name))
    ensures !(value.Var? && IsDigits(value.name)) ==> e == value
  {
    if value.Var? && IsDigits(value.name) then Lit(DigitsVal(value.name)) else value
  }

  /** `compile_print` (compiler.py:244-256): D := the value, then `<mode> D`. */
  function CompilePrint(c: Compiler, value: Operand, mode: string := "PRINT"): (r: Compiler)
    ensures Extends(c, r) && r.labelCount == c.labelCount
    ensures Allocated(c) ==> Allocated(r)
    ensures PrintOperand(value).Var? ==> value.name in r.vars
    ensures r.asm == c.asm + Load(PrintOperand(value), r.vars) + [mode + " D"]
    ensures value.Lit? || IsDigits(value.name) ==> r.vars == c.vars
  {
    Write(LoadD(c, PrintOperand(value)), mode + " D")
  }

  /** Printing a number written as digits emits what printing the number does. */
  lemma {:induction false} PrintDigitsAsNumber(c: Compiler, n: nat, mode: string)
    ensures CompilePrint(c, Var(Dec(n)), mode) == CompilePrint(c, Lit(n), mode)
    ensures CompilePrint(c, Lit(n), mode).asm == c.asm + [At(n), "D=A", mode + " D"]
  {
  }

  /** Printing defines no label, so the invariant is kept. */
  lemma {:induction false} CompilePrintFollows(c: Compiler, value: Operand, mode: string)
    requires Good(c)
    ensures Follows(c, CompilePrint(c, value, mode))
  {
    var c1 := LoadD(c, PrintOperand(value));
    LoadDFollows(c, PrintOperand(value));
    var line := mode + " D";
    assert line[|line| - 1] == 'D' && !EndsWith(line, ")");
    WriteAllGood(c1, [line]);
    assert Write(c1, line) == WriteAll(c1, [line]);
    FollowsTrans(c, c1, Write(c1, line));
  }

  /** `get_code` (compiler.py:258-259): the lines joined by newlines. */
  function GetCode(c: Compiler): string
  {
    Join(c.asm, "\n")
  }

  /** The assembler's first split of the code gives back the emitted lines. */
  lemma {:induction false} GetCodeLines(c: Compiler)
    requires |c.asm| >= 1
    requires forall i :: 0 <= i < |c.asm| ==> !Contains(c.asm[i], "\n")
    ensures Split(GetCode(c), "\n") == c.asm
  {
    SplitJoin(c.asm, '\n');
  }

  /** `compile` (compiler.py:261-262): the emitted lines assembled. */
  function Compile(c: Compiler): Result<seq<Bits.Bits>>
  {
    Assembler.Assemble(GetCode(c))
  }

  /** When every emitted line is clean, both assembler passes read exactly
      the emitted lines: joining and re-splitting loses and adds nothing,
      and the comment and blank-line filters drop nothing. */
  lemma {:induction false} CompileReadsLines(c: Compiler)
    requires |c.asm| >= 1
    requires forall i :: 0 <= i < |c.asm| ==> Assembler.IsClean(c.asm[i]) && !Contains(c.asm[i], "\n")
    ensures Compile(c) == Assembler.Translate(c.asm, Assembler.CollectLabels(c.asm, 0, map[]), Assembler.InitialSymbols, Assembler.EncodeC)
  {
    GetCodeLines(c);
    Assembler.CleanLinesOfClean(c.asm);
  }
}
