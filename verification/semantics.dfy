/** What the assembler's mnemonics mean on the machine: each comp mnemonic
    names an ALU computation on D and A (or M), each dest mnemonic the
    registers written, each jump mnemonic a test of D, each print mnemonic
    what is printed. The lemmas check the bit codes of assembler.py against
    these readings through alu.py and cpu.py. */
module Semantics {
  import opened Bits
  import opened Results
  import opened Alu
  import opened Assembler
  import opened Cpu

  // ---------------------------------------------------------------------------
  // Modular arithmetic

  lemma {:induction false} ModAddMultiple(u: int, k: int, m: nat)
    requires m > 0
    ensures (u + k * m) % m == u % m
  {
    var q, r := u / m, u % m;
    assert u + k * m == (q + k) * m + r by {
      assert (q + k) * m == q * m + k * m;
    }
    ModUnique(u + k * m, m, q + k, r);
  }

  /** Complementing a residue is the residue of `-1 - u`. */
  lemma {:induction false} NotMod(u: int, m: nat)
    requires m > 0
    ensures m - 1 - u % m == (-1 - u) % m
  {
    var q, r := u / m, u % m;
    assert -1 - u == (-q - 1) * m + (m - 1 - r) by {
      assert (-q - 1) * m == -(q * m) - m;
    }
    ModUnique(-1 - u, m, -q - 1, m - 1 - r);
  }

  // ---------------------------------------------------------------------------
  // The ALU read as integer arithmetic

  /** The ALU's computation on the numbers `a` and `b` with plain integers:
      zeroing gives 0, negating a value `v` gives `-1 - v` (the complement),
      and `f` adds. Reduced modulo 2^n it is what the word-level ALU gives. */
  function Reading(c: Control, a: int, b: int): int
  {
    if c.no then -1 - Added(c, a, b) else Added(c, a, b)
  }

  /** The reading before the `no` stage. */
  function Added(c: Control, a: int, b: int): int
  {
    var pa := if c.zx then 0 else a;
    var pb := if c.zy then 0 else b;
    (if c.nx then -1 - pa else pa) + (if c.ny then -1 - pb else pb)
  }

  /** One prepared operand read as a number: the integer reading, plus
      2^width when it was complemented. */
  lemma {:induction false} PrepareVal(v: Bits, zero: bool, negate: bool)
    ensures var p := if zero then 0 else Val(v);
      Val(Prepare(v, zero, negate)) == if negate then Pow2(|v|) + (-1 - p) else p
  {
    var z := if zero then Zeros(|v|) else v;
    if zero {
      ValZeros(|v|);
    }
    if negate {
      ValBNot(z);
    }
  }

  /** With `f` set the ALU computes its integer reading modulo 2^width, the
      second operand being at least as wide as the first (the CPU's A is). */
  lemma {:induction false} AluArith(x: Bits, y: Bits, c: Control)
    requires |x| >= 1 && |y| >= |x| && c.f
    ensures Val(Alu.Alu(x, y, c).out) == Reading(c, Val(x), Val(y)) % Pow2(|x|)
  {
    var s := PreNo(x, y, c);
    PreNoArith(x, y, c);
    AluStages(x, y, c);
    ValBNot(s);
    NoStage(c, Val(x), Val(y), Val(s), Val(Alu.Alu(x, y, c).out), Pow2(|x|));
  }

  /** The `no` stage on residues: complementing `t mod m` gives `-1 - t` mod m. */
  lemma {:induction false} NoStage(c: Control, a: int, b: int, s: int, r: int, m: nat)
    requires m > 0 && s == Added(c, a, b) % m
    requires r == if c.no then m - 1 - s else s
    ensures r == Reading(c, a, b) % m
  {
    if c.no {
      NotMod(Added(c, a, b), m);
    }
  }

  lemma {:induction false} PreNoArith(x: Bits, y: Bits, c: Control)
    requires |x| >= 1 && |y| >= |x| && c.f
    ensures Val(PreNo(x, y, c)) == Added(c, Val(x), Val(y)) % Pow2(|x|)
  {
    AluAdds(x, y, c);
    PreparedSum(x, y, c);
  }

  /** The prepared operands add up to the integer reading, modulo 2^|x|. */
  lemma {:induction false} PreparedSum(x: Bits, y: Bits, c: Control)
    requires |y| >= |x|
    ensures (Val(Prepare(x, c.zx, c.nx)) + Val(Prepare(y, c.zy, c.ny))) % Pow2(|x|) == Added(c, Val(x), Val(y)) % Pow2(|x|)
  {
    PrepareVal(x, c.zx, c.nx);
    PrepareVal(y, c.zy, c.ny);
    AddedMod(c, Val(x), Val(y), Val(Prepare(x, c.zx, c.nx)), Val(Prepare(y, c.zy, c.ny)), |x|, |y|);
  }

  /** The arithmetic behind `PreNoArith`: complementing within a width `w`
      at least `n` adds a multiple of 2^n. */
  lemma {:induction false} AddedMod(c: Control, a: int, b: int, u: int, v: int, n: nat, w: nat)
    requires n <= w
    requires u == if c.nx then Pow2(n) + (-1 - (if c.zx then 0 else a)) else (if c.zx then 0 else a)
    requires v == if c.ny then Pow2(w) + (-1 - (if c.zy then 0 else b)) else (if c.zy then 0 else b)
    ensures (u + v) % Pow2(n) == Added(c, a, b) % Pow2(n)
  {
    Pow2Split(n, w);
    MultipleMod(c, a, b, u, v, Pow2(n), Pow2(w - n), Pow2(w));
  }

  lemma {:induction false} MultipleMod(c: Control, a: int, b: int, u: int, v: int, m: nat, e: nat, big: nat)
    requires m > 0 && big == m * e
    requires u == if c.nx then m + (-1 - (if c.zx then 0 else a)) else (if c.zx then 0 else a)
    requires v == if c.ny then big + (-1 - (if c.zy then 0 else b)) else (if c.zy then 0 else b)
    ensures (u + v) % m == Added(c, a, b) % m
  {
    var k := (if c.nx then 1 else 0) + (if c.ny then e else 0);
    assert u + v == Added(c, a, b) + k * m by {
      assert k * m == (if c.nx then m else 0) + (if c.ny then big else 0);
    }
    ModAddMultiple(Added(c, a, b), k, m);
  }

  lemma {:induction false} Pow2Split(n: nat, w: nat)
    requires n <= w
    ensures Pow2(w) == Pow2(n) * Pow2(w - n)
  {
    Pow2Add(n, w - n);
  }

  /** One output bit of the ALU with `f` clear, from one bit of each operand. */
  predicate Logic(c: Control, p: bool, q: bool)
  {
    var a := (p && !c.zx) != c.nx;
    var b := (q && !c.zy) != c.ny;
    (a && b) != c.no
  }

  /** With `f` clear the ALU works bit by bit. */
  lemma {:induction false} AluLogic(x: Bits, y: Bits, c: Control)
    requires |x| >= 1 && |y| >= |x| && !c.f
    ensures forall i :: 0 <= i < |x| ==> Alu.Alu(x, y, c).out[i] == Logic(c, x[i], y[i])
  {
    AluStages(x, y, c);
    AluAnds(x, y, c);
  }

  // ---------------------------------------------------------------------------
  // The comp mnemonics

  /** The control bits of a seven-bit comp code (its last six bits). */
  function CodeControl(code: Bits): Control
    requires |code| == 7
  {
    Control(code[1], code[2], code[3], code[4], code[5], code[6])
  }

  /** The comp mnemonics that denote arithmetic on D and A (or M). */
  const ArithComps: set<string> := {
    "0", "1", "-1", "-D", "-A", "-M", "D+1", "A+1", "M+1", "D-1", "A-1", "M-1",
    "D+A", "D+M", "D-A", "D-M", "A-D", "M-D"}

  /** The comp mnemonics that denote bitwise operations. */
  const BitComps: set<string> := {"D", "A", "M", "!D", "!A", "!M", "D&A", "D&M", "D|A", "D|M"}

  /** The number an arithmetic comp mnemonic names, with D read as `d` and
      A or M as `y`. */
  function Arith(k: string, d: int, y: int): int
    requires k in ArithComps
  {
    if k == "0" then 0
    else if k == "1" then 1
    else if k == "-1" then -1
    else if k == "-D" then -d
    else if k == "-A" || k == "-M" then -y
    else if k == "D+1" then d + 1
    else if k == "A+1" || k == "M+1" then y + 1
    else if k == "D-1" then d - 1
    else if k == "A-1" || k == "M-1" then y - 1
    else if k == "D+A" || k == "D+M" then d + y
    else if k == "D-A" || k == "D-M" then d - y
    else y - d
  }

  /** The bit a bitwise comp mnemonic names, from a bit `p` of D and the bit
      `q` in the same place of A or M. */
  predicate Bitwise(k: string, p: bool, q: bool)
    requires k in BitComps
  {
    if k == "D" then p
    else if k == "A" || k == "M" then q
    else if k == "!D" then !p
    else if k == "!A" || k == "!M" then !q
    else if k == "D&A" || k == "D&M" then p && q
    else p || q
  }

  /** Every comp mnemonic is of exactly one kind. */
  lemma {:induction false} CompKinds(k: string)
    requires k in CompTable
    ensures k in ArithComps <==> k !in BitComps
  {
  }

  /** The a-bit of a comp code is set exactly when the mnemonic reads M. */
  lemma {:induction false} CompReadsM(k: string)
    requires k in CompTable
    ensures CompTable[k][0] <==> 'M' in k
  {
  }

  /** The control bits of an arithmetic mnemonic select addition, and their
      integer reading is the mnemonic's number. */
  lemma {:induction false} CompArithCode(k: string, d: int, y: int)
    requires k in ArithComps
    ensures k in CompTable && |CompTable[k]| == 7
    ensures CodeControl(CompTable[k]).f
    ensures Reading(CodeControl(CompTable[k]), d, y) == Arith(k, d, y)
  {
    if k in {"0", "1", "-1", "-D", "-A", "-M"} {
      CompArithNeg(k, d, y);
    } else if k in {"D+1", "A+1", "M+1", "D-1", "A-1", "M-1"} {
      CompArithStep(k, d, y);
    } else if k in {"D+A", "D+M"} {
      CompArithSum(k, d, y);
    } else {
      CompArithDiff(k, d, y);
    }
  }

  lemma {:induction false} CompArithNeg(k: string, d: int, y: int)
    requires k in {"0", "1", "-1", "-D", "-A", "-M"}
    ensures k in ArithComps && k in CompTable && |CompTable[k]| == 7
    ensures CodeControl(CompTable[k]).f
    ensures Reading(CodeControl(CompTable[k]), d, y) == Arith(k, d, y)
  {
  }

  lemma {:induction false} CompArithStep(k: string, d: int, y: int)
    requires k in {"D+1", "A+1", "M+1", "D-1", "A-1", "M-1"}
    ensures k in ArithComps && k in CompTable && |CompTable[k]| == 7
    ensures CodeControl(CompTable[k]).f
    ensures Reading(CodeControl(CompTable[k]), d, y) == Arith(k, d, y)
  {
  }

  lemma {:induction false} CompArithSum(k: string, d: int, y: int)
    requires k in {"D+A", "D+M"}
    ensures k in ArithComps && k in CompTable && |CompTable[k]| == 7
    ensures CodeControl(CompTable[k]).f
    ensures Reading(CodeControl(CompTable[k]), d, y) == Arith(k, d, y)
  {
  }

  lemma {:induction false} CompArithDiff(k: string, d: int, y: int)
    requires k in {"D-A", "D-M", "A-D", "M-D"}
    ensures k in ArithComps && k in CompTable && |CompTable[k]| == 7
    ensures CodeControl(CompTable[k]).f
    ensures Reading(CodeControl(CompTable[k]), d, y) == Arith(k, d, y)
  {
  }

  /** The control bits of a bitwise mnemonic select AND, and bit by bit they
      compute the mnemonic's operation. */
  lemma {:induction false} CompBitCode(k: string, p: bool, q: bool)
    requires k in BitComps
    ensures k in CompTable && |CompTable[k]| == 7
    ensures !CodeControl(CompTable[k]).f
    ensures Logic(CodeControl(CompTable[k]), p, q) == Bitwise(k, p, q)
  {
  }

  /** An arithmetic comp mnemonic computes its number modulo 2^width. */
  lemma {:induction false} CompMeaningArith(k: string, x: Bits, y: Bits)
    requires k in ArithComps && |x| >= 1 && |y| >= |x|
    ensures k in CompTable && |CompTable[k]| == 7
    ensures Val(Alu.Alu(x, y, CodeControl(CompTable[k])).out) == Arith(k, Val(x), Val(y)) % Pow2(|x|)
  {
    CompArithCode(k, Val(x), Val(y));
    AluArith(x, y, CodeControl(CompTable[k]));
  }

  /** A bitwise comp mnemonic computes its operation bit by bit. */
  lemma {:induction false} CompMeaningBits(k: string, x: Bits, y: Bits)
    requires k in BitComps && |x| >= 1 && |y| >= |x|
    ensures k in CompTable && |CompTable[k]| == 7
    ensures forall i :: 0 <= i < |x| ==> Alu.Alu(x, y, CodeControl(CompTable[k])).out[i] == Bitwise(k, x[i], y[i])
  {
    CompBitCode(k, false, false);
    var c := CodeControl(CompTable[k]);
    AluLogic(x, y, c);
    forall i | 0 <= i < |x|
      ensures Logic(c, x[i], y[i]) == Bitwise(k, x[i], y[i])
    {
      CompBitCode(k, x[i], y[i]);
    }
  }

  // ---------------------------------------------------------------------------
  // The dest, jump and print mnemonics

  /** The destination mnemonic names register `r` (A, D or M). */
  predicate Names(dest: Option<string>, r: char)
  {
    dest.Some? && r in dest.value
  }

  /** The three dest bits are the A, D and M write enables, in that order. */
  lemma {:induction false} DestBits(k: Option<string>)
    requires k in DestTable
    ensures |DestTable[k]| == 3
    ensures DestTable[k][0] <==> Names(k, 'A')
    ensures DestTable[k][1] <==> Names(k, 'D')
    ensures DestTable[k][2] <==> Names(k, 'M')
  {
  }

  /** The condition a jump mnemonic names, on the signed value of D. */
  predicate JumpHolds(k: Option<string>, v: int)
  {
    match k
    case None => false
    case Some(j) =>
      || (j == "JGT" && v > 0) || (j == "JEQ" && v == 0) || (j == "JGE" && v >= 0)
      || (j == "JLT" && v < 0) || (j == "JNE" && v != 0) || (j == "JLE" && v <= 0)
      || j == "JMP"
  }

  /** The CPU's jump decision on a jump code is the condition its mnemonic names. */
  lemma {:induction false} JumpCodes(k: Option<string>, v: int)
    requires k in JumpTable
    ensures Jumps(JumpTable[k], v) <==> JumpHolds(k, v)
  {
    CodeDisplays();
  }

  /** What a print mnemonic prints from D: the signed number, the character
      of its low byte, or nothing. */
  function PrintOf(k: string, d: Bits): seq<Token>
  {
    if k == "PRINT" then [Int(Signed64(Val(d)))]
    else if k == "PRINT_CHAR" then [Char((Val(d) % 256) as char)]
    else []
  }

  /** The CPU's printing on a print code is what its mnemonic names. */
  lemma {:induction false} PrintCodes(k: string, d: Bits)
    requires k in PrintTable
    ensures Printed(PrintTable[k], d) == PrintOf(k, d)
  {
    CodeDisplays();
  }

  /** The two- and three-bit codes as explicit sequences, which makes
      distinct codes visibly distinct. */
  lemma {:induction false} CodeDisplays()
    ensures Bin("01") == [false, true] && Bin("10") == [true, false] && Bin("11") == [true, true]
    ensures Bin("000") == [false, false, false] && Bin("001") == [false, false, true]
    ensures Bin("010") == [false, true, false] && Bin("011") == [false, true, true]
    ensures Bin("100") == [true, false, false] && Bin("101") == [true, false, true]
    ensures Bin("110") == [true, true, false] && Bin("111") == [true, true, true]
  {
  }

  // ---------------------------------------------------------------------------
  // An assembled C-instruction on the machine

  /** The word `EncodeFields` builds: a one, then the print, comp, dest and
      jump codes of the mnemonics. */
  lemma {:induction false} FieldsLayout(f: CFields, w: Bits)
    requires EncodeFields(f) == Ok(w)
    ensures f.mode in PrintTable && f.comp in CompTable && f.dest in DestTable && f.jump in JumpTable
    ensures |w| == 16 && w[0]
    ensures w[1..3] == PrintTable[f.mode] && w[3..10] == CompTable[f.comp]
    ensures w[10..13] == DestTable[f.dest] && w[13..16] == JumpTable[f.jump]
  {
    TableWidths();
  }

  /** The fields of an assembled word, read the way the CPU reads them. */
  lemma {:induction false} FieldBits(f: CFields, w: Bits)
    requires EncodeFields(f) == Ok(w)
    ensures |w| == 16 && w[0] && f.comp in CompTable && |CompTable[f.comp]| == 7
    ensures w[3] <==> 'M' in f.comp
    ensures ControlOf(w) == CodeControl(CompTable[f.comp])
    ensures (w[10] <==> Names(f.dest, 'A')) && (w[11] <==> Names(f.dest, 'D')) && (w[12] <==> Names(f.dest, 'M'))
    ensures f.jump in JumpTable && JumpField(w) == JumpTable[f.jump]
    ensures f.mode in PrintTable && w[1..3] == PrintTable[f.mode]
  {
    FieldsLayout(f, w);
    CompReadsM(f.comp);
    DestBits(f.dest);
    assert w[3] == w[3..10][0];
    assert w[10] == w[10..13][0] && w[11] == w[10..13][1] && w[12] == w[10..13][2];
  }

  /** A word assembled from mnemonics executes as they say: it raises only
      when it touches M with A past the end of RAM; otherwise the ALU
      combines D with M when the comp mnemonic mentions M and with A when
      not, the result goes to each register the dest mnemonic names, the
      print mnemonic decides what is printed from the new D, and the jump
      mnemonic's condition on the new D decides between the new A and the
      next instruction. */
  lemma {:induction false} ExecInstruction(f: CFields, rom: seq<Bits>, s: State)
    requires Valid(s) && s.pc < |rom| && EncodeFields(f) == Ok(rom[s.pc])
    ensures f.comp in CompTable && |CompTable[f.comp]| == 7
    ensures Step(rom, s).Fault? <==> ('M' in f.comp || Names(f.dest, 'M')) && Val(s.a) >= RamSize
    ensures Step(rom, s).Next? ==>
      var y := if 'M' in f.comp then s.ram[Val(s.a)] else s.a;
      var out := Alu.Alu(s.d, y, CodeControl(CompTable[f.comp])).out;
      var n := Step(rom, s).s;
      && (n.d == if Names(f.dest, 'D') then out else s.d)
      && (n.a == if Names(f.dest, 'A') then out else s.a)
      && (n.ram == if Names(f.dest, 'M') then s.ram[Val(s.a) := out] else s.ram)
      && (n.pc == if JumpHolds(f.jump, Signed64(Val(n.d))) then Val(n.a) else s.pc + 1)
      && Step(rom, s).out == PrintOf(f.mode, n.d)
  {
    var w := rom[s.pc];
    FieldBits(f, w);
    if !CFaults(w, s) {
      var n := Step(rom, s).s;
      assert Step(rom, s) == ExecC(w, s);
      JumpCodes(f.jump, Signed64(Val(n.d)));
      PrintCodes(f.mode, n.d);
    }
  }

  /** An assembled `@` word loads its address into A and moves on, changing
      nothing else and printing nothing. */
  lemma {:induction false} ExecAddress(addr: nat, rom: seq<Bits>, s: State)
    requires Valid(s) && s.pc < |rom| && rom[s.pc] == EncodeA(addr)
    ensures Step(rom, s).Next? && Step(rom, s).out == []
    ensures var n := Step(rom, s).s;
      Val(n.a) == addr && n.d == s.d && n.ram == s.ram && n.pc == s.pc + 1
  {
    StepA(rom, s);
  }
}
