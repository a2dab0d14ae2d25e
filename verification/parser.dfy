/** The front end of parser.py: it cleans the source lines, reads each one
    as an assignment, a `while … do` header or nothing, cuts out the body of
    each loop up to its matching `end`, and drives the code generator. The
    regular expressions it uses are written out as scanners over the
    character classes, each with the reading of the pattern it implements. */
module Parser {
  import opened Text
  import opened Results
  import Bits
  import Assembler
  import Compiler

  // ---------------------------------------------------------------------------
  // Cleaning (parser.py:7-8)

  /** The source lines with the text from the first `//` on removed, each
      stripped, and the empty ones dropped. */
  function CleanSource(raw: seq<string>): (r: seq<string>)
    ensures |r| <= |raw|
  {
    if |raw| == 0 then [] else
      var line := Assembler.CleanLine(raw[0]);
      (if line != "" then [line] else []) + CleanSource(raw[1..])
  }

  /** Every line the front end keeps is clean. */
  lemma {:induction false} CleanSourceClean(raw: seq<string>)
    ensures forall i :: 0 <= i < |CleanSource(raw)| ==> Assembler.IsClean(CleanSource(raw)[i])
  {
    CleanSourceIsAssemblers(raw);
    Assembler.CleanLinesClean(raw);
  }

  /** The front end and the assembler clean the same way: the assembler's
      extra filter on lines starting with `//` never drops anything once
      the comments are cut off. */
  lemma {:induction false} CleanSourceIsAssemblers(raw: seq<string>)
    ensures CleanSource(raw) == Assembler.CleanLines(raw)
    decreases |raw|
  {
    if |raw| > 0 {
      var line := Assembler.CleanLine(raw[0]);
      Assembler.CleanLineClean(raw[0]);
      if line != "" {
        assert !OccursAt(line, "//", 0);
      }
      CleanSourceIsAssemblers(raw[1..]);
    }
  }

  // ---------------------------------------------------------------------------
  // Assignments (parser.py:18-20, 42-54)

  /** `re.match(r"^\w+\s*=\s*.+$", line)` (parser.py:18): a word, optional
      whitespace, `=`, and at least one more character. The word is the
      longest run of word characters: a shorter one would be followed by a
      word character where whitespace or `=` is needed. */
  predicate IsAssignment(line: string)
  {
    var i1 := WordEnd(line, 0);
    var i2 := SpaceEnd(line, i1);
    0 < i1 && i2 + 1 < |line| && line[i2] == '='
  }

  /** The pattern of line 18 read with its pieces chosen freely:
      `line[..w]` is the word, `line[w..k]` the whitespace, `line[k]` the
      `=`, and something follows. */
  predicate AssignmentAt(line: string, w: nat, k: nat)
  {
    && 0 < w <= k && k + 1 < |line| && line[k] == '='
    && (forall j :: 0 <= j < w ==> IsWordChar(line[j]))
    && (forall j :: w <= j < k ==> IsSpace(line[j]))
  }

  /** The scanner accepts exactly the lines some reading of the pattern fits. */
  lemma {:induction false} IsAssignmentIff(line: string)
    ensures IsAssignment(line) <==> exists w: nat, k: nat :: AssignmentAt(line, w, k)
  {
    var i1 := WordEnd(line, 0);
    var i2 := SpaceEnd(line, i1);
    WordEndRun(line, 0);
    SpaceEndRun(line, i1);
    if IsAssignment(line) {
      assert AssignmentAt(line, i1, i2);
    }
    if w: nat, k: nat :| AssignmentAt(line, w, k) {
      assert w < k ==> IsSpace(line[w]);
      WordEndIs(line, 0, w);
      SpaceEndIs(line, w, k);
    }
  }

  /** The operator class of the arithmetic pattern: `+`, `-`, `*` or `/`. */
  predicate IsMathOp(ch: char)
  {
    ch == '+' || ch == '-' || ch == '*' || ch == '/'
  }

  /** The three groups of the arithmetic pattern. */
  datatype MathParts = MathParts(left: string, op: char, right: string)

  /** The arithmetic pattern of parser.py:44: an operand, optional
      whitespace, one operator character, optional whitespace and an
      operand, anchored at both ends. Each operand is a longest run of word characters (`\d+` only matches
      less), and the right one must reach the end. */
  function MatchMath(e: string): Option<MathParts>
  {
    var i1 := WordEnd(e, 0);
    var i2 := SpaceEnd(e, i1);
    if i1 == 0 || i2 >= |e| || !IsMathOp(e[i2]) then None
    else
      var i3 := SpaceEnd(e, i2 + 1);
      if i3 == |e| || WordEnd(e, i3) != |e| then None
      else Some(MathParts(e[..i1], e[i2], e[i3..]))
  }

  /** The pattern of line 44 read with its pieces chosen freely: the left
      word `e[..i1]`, whitespace, the operator `e[i2]`, whitespace, and the
      right word `e[i3..]` up to the end. */
  predicate MathAt(e: string, i1: nat, i2: nat, i3: nat)
  {
    && 0 < i1 <= i2 && i2 < i3 < |e| && IsMathOp(e[i2])
    && (forall j :: 0 <= j < i1 ==> IsWordChar(e[j]))
    && (forall j :: i1 <= j < i2 ==> IsSpace(e[j]))
    && (forall j :: i2 + 1 <= j < i3 ==> IsSpace(e[j]))
    && (forall j :: i3 <= j < |e| ==> IsWordChar(e[j]))
  }

  /** What `MatchMath` finds is a reading of the pattern. */
  lemma {:induction false} MatchMathSound(e: string)
    ensures MatchMath(e).Some? ==>
      exists i1: nat, i2: nat, i3: nat :: MathAt(e, i1, i2, i3) && MatchMath(e).value == MathParts(e[..i1], e[i2], e[i3..])
  {
    if MatchMath(e).Some? {
      var i1 := WordEnd(e, 0);
      var i2 := SpaceEnd(e, i1);
      var i3 := SpaceEnd(e, i2 + 1);
      WordEndRun(e, 0);
      SpaceEndRun(e, i1);
      SpaceEndRun(e, i2 + 1);
      WordEndRun(e, i3);
      assert MathAt(e, i1, i2, i3);
    }
  }

  /** Every reading of the pattern is the one `MatchMath` finds, so the
      reading is unique. */
  lemma {:induction false} MatchMathComplete(e: string, i1: nat, i2: nat, i3: nat)
    requires MathAt(e, i1, i2, i3)
    ensures MatchMath(e) == Some(MathParts(e[..i1], e[i2], e[i3..]))
  {
    WordEndIs(e, 0, i1);
    SpaceEndIs(e, i1, i2);
    assert e[i3] == e[i3..][0];
    SpaceEndIs(e, i2 + 1, i3);
    WordEndIs(e, i3, |e|);
  }

  /** `parse_assignment` (parser.py:42-54): `v = l op r` goes to
      `compile_math` with digit operands as numbers; otherwise the
      expression is a number when it is all digits and a name when not. */
  function ParseAssignment(c: Compiler.Compiler, v: string, expr: string): (r: Result<Compiler.Compiler>)
    ensures r.Ok?
    ensures Compiler.Extends(c, r.value) && v in r.value.vars
    ensures |r.value.asm| >= |c.asm| + 2 && r.value.asm[|r.value.asm| - 2..] == [Compiler.At(r.value.vars[v]), "M=D"]
    ensures Compiler.Allocated(c) ==> Compiler.Allocated(r.value)
  {
    var e := Strip(expr);
    match MatchMath(e)
    case Some(m) =>
      Compiler.CompileMath(c, v, Compiler.OperandOf(m.left), [m.op], Compiler.OperandOf(m.right))
    case None =>
      Ok(Compiler.CompileAssign(c, v, Compiler.OperandOf(e)))
  }

  /** An expression that is not `l op r` is copied: a number through A, a
      name from its own RAM cell, then stored at the target. */
  lemma {:induction false} ParseCopy(c: Compiler.Compiler, v: string, expr: string)
    requires MatchMath(Strip(expr)).None?
    ensures var r := ParseAssignment(c, v, expr).value;
      && (IsDigits(Strip(expr)) ==>
            r.asm == c.asm + [Compiler.At(DigitsVal(Strip(expr))), "D=A", Compiler.At(r.vars[v]), "M=D"])
      && (!IsDigits(Strip(expr)) ==>
            Strip(expr) in r.vars &&
            r.asm == c.asm + [Compiler.At(r.vars[Strip(expr)]), "D=M", Compiler.At(r.vars[v]), "M=D"])
  {
    ParseCopies(c, v, expr);
    CopyLines(c, v, Strip(expr));
  }

  lemma {:induction false} ParseCopies(c: Compiler.Compiler, v: string, expr: string)
    requires MatchMath(Strip(expr)).None?
    ensures ParseAssignment(c, v, expr) == Ok(Compiler.CompileAssign(c, v, Compiler.OperandOf(Strip(expr))))
  {
  }

  lemma {:induction false} CopyLines(c: Compiler.Compiler, v: string, e: string)
    ensures var r := Compiler.CompileAssign(c, v, Compiler.OperandOf(e));
      && (IsDigits(e) ==> r.asm == c.asm + [Compiler.At(DigitsVal(e)), "D=A", Compiler.At(r.vars[v]), "M=D"])
      && (!IsDigits(e) ==> e in r.vars && r.asm == c.asm + [Compiler.At(r.vars[e]), "D=M", Compiler.At(r.vars[v]), "M=D"])
  {
  }

  /** An expression read as `l op r` is compiled as that arithmetic. */
  lemma {:induction false} ParseMathAt(c: Compiler.Compiler, v: string, expr: string, i1: nat, i2: nat, i3: nat)
    requires MathAt(Strip(expr), i1, i2, i3)
    ensures var e := Strip(expr);
      ParseAssignment(c, v, expr) ==
      Compiler.CompileMath(c, v, Compiler.OperandOf(e[..i1]), [e[i2]], Compiler.OperandOf(e[i3..]))
  {
    MatchMathComplete(Strip(expr), i1, i2, i3);
  }

  /** A bare number is never read as arithmetic: it is assigned as a number. */
  lemma {:induction false} ParseDigits(c: Compiler.Compiler, v: string, expr: string)
    requires IsDigits(Strip(expr))
    ensures ParseAssignment(c, v, expr) == Ok(Compiler.CompileAssign(c, v, Compiler.Lit(DigitsVal(Strip(expr)))))
  {
    var e := Strip(expr);
    WordEndIs(e, 0, |e|);
  }

  // ---------------------------------------------------------------------------
  // Loop headers (parser.py:23-28, 62)

  /** `do` at index `r` right after whitespace: a place where `\s+do` can end. */
  predicate DoAt(s: string, r: nat)
  {
    1 <= r && r + 2 <= |s| && s[r..r + 2] == "do" && IsSpace(s[r - 1])
  }

  /** The last index in [lo, hi) where `\s+do` can end. */
  function LastDo(s: string, lo: nat, hi: nat): (r: Option<nat>)
    ensures r.Some? ==> lo <= r.value < hi && DoAt(s, r.value)
    ensures forall k :: lo <= k < hi && (r.None? || r.value < k) ==> !DoAt(s, k)
    decreases hi
  {
    if hi <= lo then None
    else if DoAt(s, hi - 1) then Some(hi - 1)
    else LastDo(s, lo, hi - 1)
  }

  /** `re.match(r"while\s+(.+)\s+do", line)` (parser.py:24) and the group
      stripped (line 28). The first `\s+` is tried longest first, then
      `(.+)` longest first, so the group ends before the whitespace of the
      last `do` that leaves it non-empty; it starts after all the
      whitespace following `while` unless that would leave it empty. */
  function WhileCondition(line: string): Option<string>
  {
    if !(StartsWith(line, "while") && 5 < |line| && IsSpace(line[5])) then None
    else
      match LastDo(line, 8, |line|)
      case None => None
      case Some(r) =>
        var s1 := SpaceEnd(line, 5);
        var a := if s1 <= r - 2 then s1 else r - 2;
        Some(Strip(line[a..r - 1]))
  }

  /** The pattern of line 24 read with its pieces chosen freely: `while`,
      whitespace `line[5..a]`, the group `line[a..q]`, whitespace
      `line[q..r]` and `do` at `r`. */
  predicate HeaderAt(line: string, a: nat, q: nat, r: nat)
  {
    && StartsWith(line, "while") && 5 < a < q < r && r + 2 <= |line| && line[r..r + 2] == "do"
    && (forall j :: 5 <= j < a ==> IsSpace(line[j]))
    && (forall j :: q <= j < r ==> IsSpace(line[j]))
  }

  /** A header is accepted exactly when some reading of the pattern fits it. */
  lemma {:induction false} WhileConditionIff(line: string)
    ensures WhileCondition(line).Some? <==> exists a: nat, q: nat, r: nat :: HeaderAt(line, a, q, r)
  {
    if WhileCondition(line).Some? {
      WhileConditionGroup(line);
    }
    if a: nat, q: nat, r: nat :| HeaderAt(line, a, q, r) {
      assert IsSpace(line[5]) && DoAt(line, r);
    }
  }

  /** `line[a..q]` is the group the engine settles on: of all readings,
      the one with the longest leading whitespace and, for that, the
      longest group. */
  ghost predicate Settles(line: string, a: nat, q: nat, r: nat)
  {
    && HeaderAt(line, a, q, r)
    && forall a': nat, q': nat, r': nat :: HeaderAt(line, a', q', r') ==> a' < a || (a' == a && q' <= q)
  }

  /** The condition is the stripped group of the reading the regular
      expression engine settles on: the one with the longest leading
      whitespace and, for that, the longest group. */
  lemma {:induction false} WhileConditionGroup(line: string)
    requires WhileCondition(line).Some?
    ensures exists a: nat, q: nat, r: nat :: Settles(line, a, q, r) && WhileCondition(line).value == Strip(line[a..q])
  {
    var r := LastDo(line, 8, |line|).value;
    var s1 := SpaceEnd(line, 5);
    SpaceEndRun(line, 5);
    var a := if s1 <= r - 2 then s1 else r - 2;
    assert HeaderAt(line, a, r - 1, r);
    forall a': nat, q': nat, r': nat | HeaderAt(line, a', q', r')
      ensures a' < a || (a' == a && q' <= r - 1)
    {
      assert DoAt(line, r');
      SpaceEndCovers(line, 5, a');
    }
    assert Settles(line, a, r - 1, r);
  }

  /** `re.match(r"while\s+.*\s+do", line)` (parser.py:62): like the header
      pattern but the middle may be empty. */
  predicate BlockOpens(line: string)
  {
    StartsWith(line, "while") && 5 < |line| && IsSpace(line[5]) && LastDo(line, 7, |line|).Some?
  }

  /** The pattern of line 62 read with its pieces chosen freely. */
  predicate OpensAt(line: string, a: nat, q: nat, r: nat)
  {
    && StartsWith(line, "while") && 5 < a <= q < r && r + 2 <= |line| && line[r..r + 2] == "do"
    && (forall j :: 5 <= j < a ==> IsSpace(line[j]))
    && (forall j :: q <= j < r ==> IsSpace(line[j]))
  }

  lemma {:induction false} BlockOpensIff(line: string)
    ensures BlockOpens(line) <==> exists a: nat, q: nat, r: nat :: OpensAt(line, a, q, r)
  {
    if BlockOpens(line) {
      var r := LastDo(line, 7, |line|).value;
      assert OpensAt(line, 6, r - 1, r);
    }
    if a: nat, q: nat, r: nat :| OpensAt(line, a, q, r) {
      assert IsSpace(line[5]) && DoAt(line, r);
    }
  }

  /** Every accepted header opens a block for the extractor's count. */
  lemma {:induction false} HeaderOpens(line: string)
    requires WhileCondition(line).Some?
    ensures BlockOpens(line)
  {
    assert DoAt(line, LastDo(line, 8, |line|).value);
  }

  // ---------------------------------------------------------------------------
  // Blocks (parser.py:56-70)

  /** What a line does to the nesting depth the extractor counts. */
  function Delta(line: string): int
  {
    if BlockOpens(line) then 1 else if line == "end" then -1 else 0
  }

  /** The net change of the nesting depth over a run of lines. */
  function Level(ls: seq<string>): int
  {
    if |ls| == 0 then 0 else Level(ls[..|ls| - 1]) + Delta(ls[|ls| - 1])
  }

  /** The level of `lines[b..k]`. */
  function LevelOf(lines: seq<string>, b: nat, k: nat): int
    requires b <= k <= |lines|
  {
    Level(lines[b..k])
  }

  /** The scan of `extract_block` from index `i` at depth `depth`: the
      lines taken and the index where it stops. */
  function ExtractFrom(lines: seq<string>, i: nat, depth: nat): (r: (seq<string>, nat))
    requires i <= |lines| && depth >= 1
    ensures i <= r.1 <= |lines| && r.0 == lines[i..r.1]
    ensures r.1 < |lines| ==> lines[r.1] == "end"
    decreases |lines| - i
  {
    if i == |lines| then ([], i)
    else if BlockOpens(lines[i]) then
      var (b, j) := ExtractFrom(lines, i + 1, depth + 1);
      ([lines[i]] + b, j)
    else if lines[i] == "end" && depth == 1 then ([], i)
    else
      var (b, j) := ExtractFrom(lines, i + 1, if lines[i] == "end" then depth - 1 else depth);
      ([lines[i]] + b, j)
  }

  /** `extract_block(lines, start)`: the body after the header at `start`
      and the index of its `end`, or `|lines|` when there is none. */
  function ExtractBlock(lines: seq<string>, start: nat): (r: (seq<string>, nat))
    requires start < |lines|
    ensures start + 1 <= r.1 <= |lines| && r.0 == lines[start + 1..r.1]
    ensures r.1 < |lines| ==> lines[r.1] == "end"
  {
    ExtractFrom(lines, start + 1, 1)
  }

  lemma {:induction false} LevelStep(lines: seq<string>, b: nat, i: nat)
    requires b <= i < |lines|
    ensures LevelOf(lines, b, i + 1) == LevelOf(lines, b, i) + Delta(lines[i])
  {
    assert lines[b..i + 1][..i - b] == lines[b..i];
  }

  /** The scan keeps depth = 1 + the level since `b`, and stops at the
      first `end` that brings the level below zero. */
  lemma {:induction false} ExtractFromSpec(lines: seq<string>, b: nat, i: nat, depth: nat)
    requires b <= i <= |lines| && depth >= 1 && depth == 1 + LevelOf(lines, b, i)
    requires forall k :: b <= k <= i ==> LevelOf(lines, b, k) >= 0
    ensures var j := ExtractFrom(lines, i, depth).1;
      && (forall k :: b <= k <= j ==> LevelOf(lines, b, k) >= 0)
      && (j < |lines| ==> LevelOf(lines, b, j) == 0)
    decreases |lines| - i
  {
    if i < |lines| {
      LevelStep(lines, b, i);
      if BlockOpens(lines[i]) {
        ExtractFromSpec(lines, b, i + 1, depth + 1);
      } else if lines[i] == "end" && depth == 1 {
      } else {
        ExtractFromSpec(lines, b, i + 1, if lines[i] == "end" then depth - 1 else depth);
      }
    }
  }

  /** No prefix of `ls` closes more blocks than it has opened. */
  predicate Nested(ls: seq<string>)
  {
    forall k :: 0 <= k <= |ls| ==> Level(ls[..k]) >= 0
  }

  /** Every block `ls` opens it also closes, never before opening it. */
  predicate Balanced(ls: seq<string>)
  {
    Nested(ls) && Level(ls) == 0
  }

  lemma {:induction false} LevelPrefixStep(ls: seq<string>, k: nat)
    requires k < |ls|
    ensures Level(ls[..k + 1]) == Level(ls[..k]) + Delta(ls[k])
  {
    assert ls[..k + 1][..k] == ls[..k];
  }

  /** The body keeps every nested block balanced: no prefix of it closes
      more blocks than it opens; when an `end` is found, the body opens and
      closes equally many, and no earlier `end` was the matching one. */
  lemma {:induction false} ExtractBlockSpec(lines: seq<string>, start: nat)
    requires start < |lines|
    ensures var (body, j) := ExtractBlock(lines, start);
      && Nested(body)
      && (j < |lines| ==> Balanced(body))
      && (forall k :: 0 <= k < |body| ==> !(body[k] == "end" && Level(body[..k]) == 0))
  {
    var b := start + 1;
    assert lines[b..b] == [];
    ExtractFromSpec(lines, b, b, 1);
    var (body, j) := ExtractBlock(lines, start);
    forall k | 0 <= k <= |body|
      ensures Level(body[..k]) >= 0
    {
      assert body[..k] == lines[b..b + k];
      assert LevelOf(lines, b, b + k) >= 0;
    }
    assert body == lines[b..j];
    forall k | 0 <= k < |body|
      ensures !(body[k] == "end" && Level(body[..k]) == 0)
    {
      LevelPrefixStep(body, k);
    }
  }

  /** Given a balanced body followed by `end`, the extractor returns that
      body and the index of that `end`. */
  lemma {:induction false} ExtractBalanced(lines: seq<string>, start: nat, j: nat)
    requires start < j < |lines| && lines[j] == "end"
    requires Balanced(lines[start + 1..j])
    ensures ExtractBlock(lines, start) == (lines[start + 1..j], j)
  {
    assert lines[start + 1..start + 1] == [];
    ExtractFromReaches(lines, start + 1, start + 1, j);
  }

  /** From inside a balanced body, the scan runs to the `end` after it. */
  lemma {:induction false} ExtractFromReaches(lines: seq<string>, b: nat, i: nat, j: nat)
    requires b <= i <= j < |lines| && lines[j] == "end"
    requires Balanced(lines[b..j])
    ensures LevelOf(lines, b, i) >= 0
    ensures ExtractFrom(lines, i, 1 + LevelOf(lines, b, i) as nat) == (lines[i..j], j)
    decreases j - i
  {
    var body := lines[b..j];
    assert body[..i - b] == lines[b..i];
    if i < j {
      assert lines[i..j] == [lines[i]] + lines[i + 1..j];
      assert body[..i + 1 - b] == lines[b..i + 1];
      LevelStep(lines, b, i);
      ExtractFromReaches(lines, b, i + 1, j);
    }
  }

  // ---------------------------------------------------------------------------
  // Driving the code generator (parser.py:4-40)

  /** Where `parse_lines` resumes after a block whose scan stopped at `j`:
      after the `end`, or at the end of the lines when there was none. */
  function After(j: nat, n: nat): (r: nat)
    requires j <= n
    ensures r <= n
  {
    if j < n then j + 1 else n
  }

  /** `parse_lines` (parser.py:12-40): each line is an assignment, a loop
      header starting with `while`, or nothing; the line after a loop is
      the one after its `end`. */
  function ParseLines(c: Compiler.Compiler, lines: seq<string>): Result<Compiler.Compiler>
    decreases |lines|, 2
  {
    if |lines| == 0 then Ok(c)
    else if IsAssignment(lines[0]) then AssignLine(c, lines)
    else if StartsWith(lines[0], "while") then WhileBlock(c, lines)
    else ParseLines(c, lines[1..])
  }

  /** Lines 19-20 and 40: the line is cut at `=` into exactly two parts,
      which are stripped and compiled. */
  function AssignLine(c: Compiler.Compiler, lines: seq<string>): Result<Compiler.Compiler>
    requires |lines| > 0
    decreases |lines|, 1
  {
    var parts := Split(lines[0], "=");
    if |parts| != 2 then Err(Unpack(lines[0]))
    else
      var c' :- ParseAssignment(c, Strip(parts[0]), Strip(parts[1]));
      ParseLines(c', lines[1..])
  }

  /** Lines 23-40: the header must match, its block is compiled by the same
      function as the body of `compile_while`, and parsing goes on after
      the block. */
  function WhileBlock(c: Compiler.Compiler, lines: seq<string>): Result<Compiler.Compiler>
    requires |lines| > 0
    decreases |lines|, 1
  {
    match WhileCondition(lines[0])
    case None => Err(SyntaxError(lines[0]))
    case Some(cond) => Loop(c, lines, cond)
  }

  /** Lines 29-38 for a header whose condition is `cond`. */
  function Loop(c: Compiler.Compiler, lines: seq<string>, cond: string): Result<Compiler.Compiler>
    requires |lines| > 0
    decreases |lines|, 0
  {
    var block := ExtractBlock(lines, 0);
    var c' :- Compiler.CompileWhile(c, cond, Body(block.0));
    ParseLines(c', lines[After(block.1, |lines|)..])
  }

  /** The closure `body` of parser.py:35-36: the block's lines compiled
      into whatever state the loop reaches. */
  function Body(body: seq<string>): Compiler.Compiler -> Result<Compiler.Compiler>
    decreases |body|, 3
  {
    c0 => ParseLines(c0, body)
  }

  /** `parse` (parser.py:4-10): clean the source, compile the lines into a
      fresh code generator, and assemble what it emitted. */
  function Parse(source: string): Result<seq<Bits.Bits>>
  {
    var c :- ParseLines(Compiler.Start, CleanSource(Split(source, "\n")));
    Compiler.Compile(c)
  }

  /** Compiling lines keeps the code generator's invariant: in particular
      no label is ever defined twice. */
  lemma {:induction false} ParseLinesFollows(c: Compiler.Compiler, lines: seq<string>)
    requires Compiler.Good(c)
    ensures ParseLines(c, lines).Ok? ==> Compiler.Follows(c, ParseLines(c, lines).value)
    decreases |lines|, 2
  {
    if |lines| > 0 && ParseLines(c, lines).Ok? {
      var line := lines[0];
      if IsAssignment(line) {
        AssignLineFollows(c, lines);
      } else if StartsWith(line, "while") {
        WhileBlockFollows(c, lines);
      } else {
        ParseLinesFollows(c, lines[1..]);
      }
    }
  }

  /** The step for an assignment line. */
  lemma {:induction false} AssignLineFollows(c: Compiler.Compiler, lines: seq<string>)
    requires Compiler.Good(c) && |lines| > 0
    ensures AssignLine(c, lines).Ok? ==> Compiler.Follows(c, AssignLine(c, lines).value)
    decreases |lines|, 1
  {
    var parts := Split(lines[0], "=");
    if |parts| == 2 {
      var c' := ParseAssignment(c, Strip(parts[0]), Strip(parts[1])).value;
      assert AssignLine(c, lines) == ParseLines(c', lines[1..]);
      ParseAssignmentFollows(c, Strip(parts[0]), Strip(parts[1]));
      ParseLinesFollows(c', lines[1..]);
      if ParseLines(c', lines[1..]).Ok? {
        Compiler.FollowsTrans(c, c', ParseLines(c', lines[1..]).value);
      }
    }
  }

  /** The step for a loop header. */
  lemma {:induction false} WhileBlockFollows(c: Compiler.Compiler, lines: seq<string>)
    requires Compiler.Good(c) && |lines| > 0
    ensures WhileBlock(c, lines).Ok? ==> Compiler.Follows(c, WhileBlock(c, lines).value)
    decreases |lines|, 1
  {
    if WhileCondition(lines[0]).Some? {
      var cond := WhileCondition(lines[0]).value;
      var block := ExtractBlock(lines, 0);
      BodyFollows(block.0);
      var w := Compiler.CompileWhile(c, cond, Body(block.0));
      Compiler.CompileWhileFollows(c, cond, Body(block.0));
      if w.Ok? {
        var rest := lines[After(block.1, |lines|)..];
        assert WhileBlock(c, lines) == ParseLines(w.value, rest);
        ParseLinesFollows(w.value, rest);
        if ParseLines(w.value, rest).Ok? {
          Compiler.FollowsTrans(c, w.value, ParseLines(w.value, rest).value);
        }
      }
    }
  }

  /** A block's closure keeps the invariant, as `compile_while` needs. */
  lemma {:induction false} BodyFollows(body: seq<string>)
    ensures Compiler.KeepsFollows(Body(body))
    decreases |body|, 3
  {
    forall c0 | Compiler.Good(c0) && Body(body)(c0).Ok?
      ensures Compiler.Follows(c0, Body(body)(c0).value)
    {
      ParseLinesFollows(c0, body);
    }
  }

  /** An assignment keeps the code generator's invariant. */
  lemma {:induction false} ParseAssignmentFollows(c: Compiler.Compiler, v: string, expr: string)
    requires Compiler.Good(c)
    ensures Compiler.Follows(c, ParseAssignment(c, v, expr).value)
  {
    var e := Strip(expr);
    match MatchMath(e)
    case Some(m) =>
      Compiler.CompileMathFollows(c, v, Compiler.OperandOf(m.left), [m.op], Compiler.OperandOf(m.right));
    case None =>
      Compiler.CompileAssignFollows(c, v, Compiler.OperandOf(e));
  }

  /** No label of a whole program is defined twice, and every variable has
      its own address from 16 upward. */
  lemma {:induction false} ParseLabelsDistinct(source: string)
    ensures var r := ParseLines(Compiler.Start, CleanSource(Split(source, "\n")));
      r.Ok? ==> Compiler.Good(r.value)
  {
    Compiler.StartGood();
    ParseLinesFollows(Compiler.Start, CleanSource(Split(source, "\n")));
  }

  /** A loop whose body is balanced and closed by `end` compiles that body
      and resumes right after the `end`. */
  lemma {:induction false} ParseLinesResume(c: Compiler.Compiler, header: string, body: seq<string>, rest: seq<string>)
    requires StartsWith(header, "while") && !IsAssignment(header) && WhileCondition(header).Some?
    requires Balanced(body)
    ensures var w := Compiler.CompileWhile(c, WhileCondition(header).value, Body(body));
      ParseLines(c, [header] + body + ["end"] + rest) == if w.Ok? then ParseLines(w.value, rest) else Err(w.error)
  {
    LoopLayout(header, body, rest);
    ParseLinesResumeAt(c, [header] + body + ["end"] + rest, |body| + 1);
  }

  lemma {:induction false} ParseLinesResumeAt(c: Compiler.Compiler, lines: seq<string>, j: nat)
    requires 0 < j < |lines| && lines[j] == "end" && Balanced(lines[1..j])
    requires StartsWith(lines[0], "while") && !IsAssignment(lines[0]) && WhileCondition(lines[0]).Some?
    ensures var w := Compiler.CompileWhile(c, WhileCondition(lines[0]).value, Body(lines[1..j]));
      ParseLines(c, lines) == if w.Ok? then ParseLines(w.value, lines[j + 1..]) else Err(w.error)
  {
    ParseLinesAtWhile(c, lines);
    ExtractBalanced(lines, 0, j);
    LoopResumes(c, lines, WhileCondition(lines[0]).value, lines[1..j], j);
  }

  lemma LoopLayout(header: string, body: seq<string>, rest: seq<string>)
    ensures var lines := [header] + body + ["end"] + rest;
      && |lines| == |body| + 2 + |rest|
      && lines[0] == header && lines[|body| + 1] == "end"
      && lines[1..|body| + 1] == body && lines[|body| + 2..] == rest
  {
    var lines := [header] + body + ["end"] + rest;
    assert lines[1..|body| + 1] == body;
    assert lines[|body| + 2..] == rest;
  }

  /** A line that starts a loop hands the lines to the loop. */
  lemma {:induction false} ParseLinesAtWhile(c: Compiler.Compiler, lines: seq<string>)
    requires |lines| > 0 && StartsWith(lines[0], "while") && !IsAssignment(lines[0])
    requires WhileCondition(lines[0]).Some?
    ensures ParseLines(c, lines) == Loop(c, lines, WhileCondition(lines[0]).value)
  {
  }

  /** A loop whose block ends at line `j` goes on at line `j + 1`. */
  lemma {:induction false} LoopResumes(c: Compiler.Compiler, lines: seq<string>, cond: string, body: seq<string>, j: nat)
    requires j < |lines| && ExtractBlock(lines, 0) == (body, j)
    ensures var w := Compiler.CompileWhile(c, cond, Body(body));
      Loop(c, lines, cond) == if w.Ok? then ParseLines(w.value, lines[j + 1..]) else Err(w.error)
  {
  }

  /** A program fails only with a syntax error in a loop header or a
      comparison, or with an assignment line that does not cut into two
      parts at `=`: the arithmetic and jump lookups never fail on what the
      front end passes them. */
  lemma {:induction false} ParseLinesErrors(c: Compiler.Compiler, lines: seq<string>)
    ensures ParseLines(c, lines).Err? ==> ParseLines(c, lines).error.SyntaxError? || ParseLines(c, lines).error.Unpack?
    decreases |lines|, 2
  {
    if |lines| > 0 {
      if IsAssignment(lines[0]) {
        AssignLineErrors(c, lines);
      } else if StartsWith(lines[0], "while") {
        WhileBlockErrors(c, lines);
      } else {
        ParseLinesErrors(c, lines[1..]);
      }
    }
  }

  lemma {:induction false} AssignLineErrors(c: Compiler.Compiler, lines: seq<string>)
    requires |lines| > 0
    ensures AssignLine(c, lines).Err? ==> AssignLine(c, lines).error.SyntaxError? || AssignLine(c, lines).error.Unpack?
    decreases |lines|, 1
  {
    var parts := Split(lines[0], "=");
    if |parts| == 2 {
      var c' := ParseAssignment(c, Strip(parts[0]), Strip(parts[1])).value;
      assert AssignLine(c, lines) == ParseLines(c', lines[1..]);
      ParseLinesErrors(c', lines[1..]);
    }
  }

  lemma {:induction false} WhileBlockErrors(c: Compiler.Compiler, lines: seq<string>)
    requires |lines| > 0
    ensures WhileBlock(c, lines).Err? ==> WhileBlock(c, lines).error.SyntaxError? || WhileBlock(c, lines).error.Unpack?
    decreases |lines|, 1
  {
    if WhileCondition(lines[0]).Some? {
      var cond := WhileCondition(lines[0]).value;
      var block := ExtractBlock(lines, 0);
      var w := Compiler.CompileWhile(c, cond, Body(block.0));
      if w.Ok? {
        var rest := lines[After(block.1, |lines|)..];
        assert WhileBlock(c, lines) == ParseLines(w.value, rest);
        ParseLinesErrors(w.value, rest);
      } else {
        assert WhileBlock(c, lines) == Err(w.error);
        LoopErrors(c, lines, cond);
      }
    }
  }

  /** A loop whose header or body fails fails with the body's error kinds. */
  lemma {:induction false} LoopErrors(c: Compiler.Compiler, lines: seq<string>, cond: string)
    requires |lines| > 0
    ensures var w := Compiler.CompileWhile(c, cond, Body(ExtractBlock(lines, 0).0));
            w.Err? ==> w.error.SyntaxError? || w.error.Unpack?
    decreases |lines|, 0
  {
    var body := ExtractBlock(lines, 0).0;
    var tests := Compiler.WriteTests(Compiler.LoopHead(c), Compiler.Comparisons(cond), Compiler.LoopEnd(c));
    if tests.Ok? {
      assert Body(body)(tests.value) == ParseLines(tests.value, body);
      ParseLinesErrors(tests.value, body);
    }
  }

  /** A line starting with `while` that is not an assignment and that no
      reading of the header pattern fits is a syntax error. */
  lemma {:induction false} ParseBadHeader(c: Compiler.Compiler, lines: seq<string>)
    requires |lines| > 0 && StartsWith(lines[0], "while") && !IsAssignment(lines[0])
    requires !exists a: nat, q: nat, r: nat :: HeaderAt(lines[0], a, q, r)
    ensures ParseLines(c, lines) == Err(SyntaxError(lines[0]))
  {
    WhileConditionIff(lines[0]);
  }

  /** A line that is neither an assignment nor starts with `while` emits
      nothing: parsing goes on with the next line in the same state. */
  lemma {:induction false} ParseSkips(c: Compiler.Compiler, lines: seq<string>)
    requires |lines| > 0 && !StartsWith(lines[0], "while")
    requires forall w: nat, k: nat :: !AssignmentAt(lines[0], w, k)
    ensures ParseLines(c, lines) == ParseLines(c, lines[1..])
  {
    IsAssignmentIff(lines[0]);
  }
}
