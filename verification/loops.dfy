/** The multiply and divide loops that compiler.py emits, run on the CPU of
    cpu.py. The loop templates are given as the instructions the assembler
    makes of their lines; the proofs follow them on numbers (`MRun`) and
    carry the result over to the CPU with `Simulation.Lift`. */
module Loops {
  import opened Bits
  import opened Results
  import opened Assembler
  import opened Cpu
  import opened Semantics
  import opened Simulation

  // ---------------------------------------------------------------------------
  // Arithmetic on 64-bit words

  /** The difference of two numbers below 2^63, taken modulo 2^64, reads as
      the true difference when signed. */
  lemma {:induction false} SignedDiff(u: nat, w: nat)
    requires u < Half && w < Half
    ensures 0 <= (u - w) % WordMod < WordMod
    ensures SignedWord((u - w) % WordMod) == u - w
  {
    if u >= w {
      ModUnique(u - w, WordMod, 0, u - w);
    } else {
      ModUnique(u - w, WordMod, -1, u - w + WordMod);
    }
  }

  /** Reducing one summand first does not change a sum modulo m. */
  lemma {:induction false} ModAddMod(u: int, v: int, m: nat)
    requires m > 0
    ensures (u % m + v) % m == (u + v) % m
  {
    ModAddMultiple(u % m + v, u / m, m);
    assert u % m + v + (u / m) * m == u + v;
  }

  /** One more round of the multiplication loop adds `right` once more. */
  lemma {:induction false} MulStep(acc: int, n: nat, right: int, m: nat)
    requires m > 0 && n >= 1
    ensures ((acc + right) % m + (n - 1) * right) % m == (acc + n * right) % m
  {
    ModAddMod(acc + right, (n - 1) * right, m);
    assert acc + right + (n - 1) * right == acc + n * right;
  }

  /** One more subtraction of the divisor takes one off the quotient and
      leaves the remainder. */
  lemma {:induction false} DivStep(u: nat, w: nat)
    requires 0 < w <= u
    ensures (u - w) / w == u / w - 1 && (u - w) % w == u % w
  {
    ModUnique(u - w, w, u / w - 1, u % w);
  }

  // ---------------------------------------------------------------------------
  // The loop templates as instructions (compiler.py:57-116)

  /** The multiplication template of `Compiler.MulLines` loaded at `p`: the
      loop label is `p + 6`, the end label `p + 18`, and the right operand
      is the literal or the variable address `operand`, read with `D=M`
      when it is a variable. */
  function MulProgram(p: nat, operand: nat, fromRam: bool): seq<Instr>
  {
    [At(13), Op(Quiet(Some("M"), "D", None)), At(0), Op(Quiet(Some("D"), "A", None)),
     At(14), Op(Quiet(Some("M"), "D", None)),
     At(13), Op(Quiet(Some("D"), "M", None)), At(p + 18), Op(Quiet(None, "D", Some("JEQ"))),
     At(operand), Op(Quiet(Some("D"), if fromRam then "M" else "A", None)),
     At(14), Op(Quiet(Some("M"), "D+M", None)), At(13), Op(Quiet(Some("M"), "M-1", None)),
     At(p + 6), Op(Quiet(None, "0", Some("JMP"))),
     At(14), Op(Quiet(Some("D"), "M", None))]
  }

  /** The same for the division template of `Compiler.DivLines`. */
  function DivProgram(p: nat, operand: nat, fromRam: bool): seq<Instr>
  {
    [At(13), Op(Quiet(Some("M"), "D", None)), At(0), Op(Quiet(Some("D"), "A", None)),
     At(14), Op(Quiet(Some("M"), "D", None)),
     At(13), Op(Quiet(Some("D"), "M", None)), At(operand), Op(Quiet(Some("D"), if fromRam then "D-M" else "D-A", None)),
     At(p + 18), Op(Quiet(None, "D", Some("JLT"))),
     At(13), Op(Quiet(Some("M"), "D", None)), At(14), Op(Quiet(Some("M"), "M+1", None)),
     At(p + 6), Op(Quiet(None, "0", Some("JMP"))),
     At(14), Op(Quiet(Some("D"), "M", None))]
  }

  /** The right operand fits the template: a literal of at most fifteen
      bits, or a RAM address other than the loop's R13 and R14. */
  predicate OperandFits(operand: nat, fromRam: bool)
  {
    if fromRam then operand < RamSize && operand != 13 && operand != 14 else operand < Short
  }

  /** The right operand's value: the literal, or the word at its address. */
  function Right(ram: seq<nat>, operand: nat, fromRam: bool): nat
    requires |ram| == RamSize && OperandFits(operand, fromRam)
  {
    if fromRam then ram[operand] else operand
  }

  // ---------------------------------------------------------------------------
  // The instructions of the templates, one step each on numbers

  /** `@addr`. */
  lemma {:induction false} StepAt(prog: seq<Instr>, p: nat, r: Regs, addr: nat)
    requires p <= r.pc < p + |prog| && prog[r.pc - p] == At(addr)
    ensures MStep(prog, p, r) == Some(r.(a := addr, narrow := addr < Short, pc := r.pc + 1))
  {
  }

  /** `M=D`. */
  lemma {:induction false} StepStore(prog: seq<Instr>, p: nat, r: Regs)
    requires p <= r.pc < p + |prog| && prog[r.pc - p] == Op(Quiet(Some("M"), "D", None))
    requires r.a < RamSize && |r.ram| == RamSize
    ensures MStep(prog, p, r) == Some(r.(ram := r.ram[r.a := r.d], pc := r.pc + 1))
  {
  }

  /** `D=M`. */
  lemma {:induction false} StepLoadM(prog: seq<Instr>, p: nat, r: Regs)
    requires p <= r.pc < p + |prog| && prog[r.pc - p] == Op(Quiet(Some("D"), "M", None))
    requires r.a < RamSize && |r.ram| == RamSize
    ensures MStep(prog, p, r) == Some(r.(d := r.ram[r.a], pc := r.pc + 1))
  {
  }

  /** `D=A`, with A 64 bits wide. */
  lemma {:induction false} StepLoadA(prog: seq<Instr>, p: nat, r: Regs)
    requires p <= r.pc < p + |prog| && prog[r.pc - p] == Op(Quiet(Some("D"), "A", None))
    requires r.narrow
    ensures MStep(prog, p, r) == Some(r.(d := r.a, pc := r.pc + 1))
  {
  }

  /** `M=D+M`, `M=M-1` and `M=M+1`: RAM[A] takes the mnemonic's number modulo 2^64. */
  lemma {:induction false} StepArithM(prog: seq<Instr>, p: nat, r: Regs, k: string)
    requires k in {"D+M", "M-1", "M+1"}
    requires p <= r.pc < p + |prog| && prog[r.pc - p] == Op(Quiet(Some("M"), k, None))
    requires r.a < RamSize && |r.ram| == RamSize
    ensures MStep(prog, p, r) ==
      Some(r.(ram := r.ram[r.a := Arith(k, r.d, r.ram[r.a]) % WordMod], pc := r.pc + 1))
  {
    assert 'M' in k;
  }

  /** `D=D-M` and `D=D-A`: D takes the difference modulo 2^64. */
  lemma {:induction false} StepSubD(prog: seq<Instr>, p: nat, r: Regs, k: string)
    requires k in {"D-M", "D-A"}
    requires p <= r.pc < p + |prog| && prog[r.pc - p] == Op(Quiet(Some("D"), k, None))
    requires k == "D-M" ==> r.a < RamSize && |r.ram| == RamSize
    ensures MStep(prog, p, r) ==
      Some(r.(d := (r.d - (if k == "D-M" then r.ram[r.a] else r.a)) % WordMod, pc := r.pc + 1))
  {
    assert 'M' in k <==> k == "D-M";
  }

  /** `D;JEQ` and `D;JLT`: jump to A when D, read as signed, is zero or negative. */
  lemma {:induction false} StepBranch(prog: seq<Instr>, p: nat, r: Regs, j: string)
    requires j in {"JEQ", "JLT"}
    requires p <= r.pc < p + |prog| && prog[r.pc - p] == Op(Quiet(None, "D", Some(j)))
    ensures MStep(prog, p, r) ==
      Some(r.(pc := if (if j == "JEQ" then SignedWord(r.d) == 0 else SignedWord(r.d) < 0) then r.a else r.pc + 1))
  {
  }

  /** `0;JMP`. */
  lemma {:induction false} StepJump(prog: seq<Instr>, p: nat, r: Regs)
    requires p <= r.pc < p + |prog| && prog[r.pc - p] == Op(Quiet(None, "0", Some("JMP")))
    ensures MStep(prog, p, r) == Some(r.(pc := r.a))
  {
  }

  /** One step on numbers followed by a run is a longer run. */
  lemma {:induction false} MRunCons(prog: seq<Instr>, p: nat, r: Regs, n: Regs, k: nat)
    requires MStep(prog, p, r) == Some(n)
    ensures MRun(prog, p, r, k + 1) == MRun(prog, p, n, k)
  {
  }

  /** Two steps on numbers in a row are a run of two. */
  lemma {:induction false} Run2(prog: seq<Instr>, p: nat, r0: Regs, r1: Regs, r2: Regs)
    requires MStep(prog, p, r0) == Some(r1) && MStep(prog, p, r1) == Some(r2)
    ensures MRun(prog, p, r0, 2) == Some(r2)
  {
    MRunCons(prog, p, r1, r2, 0);
    MRunCons(prog, p, r0, r1, 1);
  }

  /** Four steps on numbers in a row are a run of four. */
  lemma {:induction false} Run4(prog: seq<Instr>, p: nat, r0: Regs, r1: Regs, r2: Regs, r3: Regs, r4: Regs)
    requires MStep(prog, p, r0) == Some(r1) && MStep(prog, p, r1) == Some(r2)
    requires MStep(prog, p, r2) == Some(r3) && MStep(prog, p, r3) == Some(r4)
    ensures MRun(prog, p, r0, 4) == Some(r4)
  {
    MRunCons(prog, p, r3, r4, 0);
    MRunCons(prog, p, r2, r3, 1);
    MRunCons(prog, p, r1, r2, 2);
    MRunCons(prog, p, r0, r1, 3);
  }

  /** Two runs in a row are one run, of the summed length. */
  lemma {:induction false} RunJoin(prog: seq<Instr>, p: nat, r: Regs, i: nat, m: Regs, j: nat, t: Regs, k: nat)
    requires MRun(prog, p, r, i) == Some(m) && MRun(prog, p, m, j) == Some(t) && k == i + j
    ensures MRun(prog, p, r, k) == Some(t)
  {
    MRunTrans(prog, p, r, i, m, j);
  }

  /** Three runs in a row are one run, of the summed length. */
  lemma {:induction false} Run3Parts(prog: seq<Instr>, p: nat, r: Regs, i: nat, m1: Regs, j: nat, m2: Regs, k: nat, t: Regs, total: nat)
    requires MRun(prog, p, r, i) == Some(m1) && MRun(prog, p, m1, j) == Some(m2) && MRun(prog, p, m2, k) == Some(t)
    requires total == i + j + k
    ensures MRun(prog, p, r, total) == Some(t)
  {
    MRunTrans(prog, p, r, i, m1, j + k);
    MRunTrans(prog, p, m1, j, m2, k);
  }

  // ---------------------------------------------------------------------------
  // The lines both templates share

  /** The setup and the end lines of both templates (compiler.py:58-63,
      80-84, 86-91 and 113-116): `@R13 M=D @0 D=A @R14 M=D` first,
      `@R14 D=M` last. */
  predicate FrameShape(prog: seq<Instr>)
  {
    && |prog| == 20
    && prog[0] == At(13) && prog[1] == Op(Quiet(Some("M"), "D", None))
    && prog[2] == At(0) && prog[3] == Op(Quiet(Some("D"), "A", None))
    && prog[4] == At(14) && prog[5] == Op(Quiet(Some("M"), "D", None))
    && prog[18] == At(14) && prog[19] == Op(Quiet(Some("D"), "M", None))
  }

  /** Where the setup lines leave the numbers: the left operand moves from
      D into R13, and R14 and D are zero. */
  function Enter(r: Regs): Regs
    requires |r.ram| == RamSize
  {
    r.(a := 14, narrow := true, d := 0, ram := r.ram[13 := r.d][14 := 0], pc := r.pc + 6)
  }

  /** Where the end lines leave the numbers: R14 is copied into D. */
  function Leave(r: Regs): Regs
    requires |r.ram| == RamSize
  {
    r.(a := 14, narrow := true, d := r.ram[14], pc := r.pc + 2)
  }

  /** The setup lines take six steps. */
  lemma {:induction false} EnterRuns(prog: seq<Instr>, p: nat, r: Regs)
    requires FrameShape(prog) && r.pc == p && |r.ram| == RamSize
    ensures MRun(prog, p, r, 6) == Some(Enter(r))
  {
    var r1 := r.(a := 13, narrow := true, pc := p + 1);
    StepAt(prog, p, r, 13);
    var r2 := r1.(ram := r.ram[13 := r.d], pc := p + 2);
    StepStore(prog, p, r1);
    var r3 := r2.(a := 0, narrow := true, pc := p + 3);
    StepAt(prog, p, r2, 0);
    var r4 := r3.(d := 0, pc := p + 4);
    StepLoadA(prog, p, r3);
    Run4(prog, p, r, r1, r2, r3, r4);
    var r5 := r4.(a := 14, narrow := true, pc := p + 5);
    StepAt(prog, p, r4, 14);
    var r6 := r5.(ram := r2.ram[14 := 0], pc := p + 6);
    StepStore(prog, p, r5);
    Run2(prog, p, r4, r5, r6);
    MRunTrans(prog, p, r, 4, r4, 2);
  }

  /** The end lines take two steps. */
  lemma {:induction false} LeaveRuns(prog: seq<Instr>, p: nat, r: Regs)
    requires FrameShape(prog) && r.pc == p + 18 && |r.ram| == RamSize
    ensures MRun(prog, p, r, 2) == Some(Leave(r))
  {
    var r1 := r.(a := 14, narrow := true, pc := p + 19);
    StepAt(prog, p, r, 14);
    StepLoadM(prog, p, r1);
    Run2(prog, p, r, r1, Leave(r));
  }

  // ---------------------------------------------------------------------------
  // Multiplication

  /** The loop lines of the multiplication template (compiler.py:64-79). */
  predicate MulShape(prog: seq<Instr>, p: nat, operand: nat, fromRam: bool)
  {
    && FrameShape(prog)
    && prog[6] == At(13) && prog[7] == Op(Quiet(Some("D"), "M", None))
    && prog[8] == At(p + 18) && prog[9] == Op(Quiet(None, "D", Some("JEQ")))
    && prog[10] == At(operand) && prog[11] == Op(Quiet(Some("D"), if fromRam then "M" else "A", None))
    && prog[12] == At(14) && prog[13] == Op(Quiet(Some("M"), "D+M", None))
    && prog[14] == At(13) && prog[15] == Op(Quiet(Some("M"), "M-1", None))
    && prog[16] == At(p + 6) && prog[17] == Op(Quiet(None, "0", Some("JMP")))
  }

  /** `MulProgram` has the shape the proofs below follow. */
  lemma {:induction false} MulProgramShape(p: nat, operand: nat, fromRam: bool)
    ensures MulShape(MulProgram(p, operand, fromRam), p, operand, fromRam)
  {
    MulProgramFrame(p, operand, fromRam);
    MulProgramHead(p, operand, fromRam);
    MulProgramTail(p, operand, fromRam);
  }

  lemma {:induction false} MulProgramFrame(p: nat, operand: nat, fromRam: bool)
    ensures FrameShape(MulProgram(p, operand, fromRam))
  {
  }

  lemma {:induction false} MulProgramHead(p: nat, operand: nat, fromRam: bool)
    ensures var prog := MulProgram(p, operand, fromRam);
      && |prog| == 20
      && prog[6] == At(13) && prog[7] == Op(Quiet(Some("D"), "M", None))
      && prog[8] == At(p + 18) && prog[9] == Op(Quiet(None, "D", Some("JEQ")))
  {
  }

  lemma {:induction false} MulProgramTail(p: nat, operand: nat, fromRam: bool)
    ensures var prog := MulProgram(p, operand, fromRam);
      && |prog| == 20
      && prog[10] == At(operand) && prog[11] == Op(Quiet(Some("D"), if fromRam then "M" else "A", None))
      && prog[12] == At(14) && prog[13] == Op(Quiet(Some("M"), "D+M", None))
      && prog[14] == At(13) && prog[15] == Op(Quiet(Some("M"), "M-1", None))
      && prog[16] == At(p + 6) && prog[17] == Op(Quiet(None, "0", Some("JMP")))
  {
  }

  /** `@R13 D=M @END D;JEQ`: the counter comes into D, and the loop ends
      when it is zero. */
  function MulCheck(p: nat, r: Regs): Regs
    requires |r.ram| == RamSize
  {
    r.(a := p + 18, narrow := p + 18 < Short, d := r.ram[13], pc := if r.ram[13] == 0 then p + 18 else p + 10)
  }

  /** `@operand load @R14 M=D+M`: R14 grows by the right operand, modulo 2^64. */
  function MulAccumulate(p: nat, operand: nat, fromRam: bool, r: Regs): Regs
    requires |r.ram| == RamSize && OperandFits(operand, fromRam)
  {
    var right := Right(r.ram, operand, fromRam);
    r.(a := 14, narrow := true, d := right, ram := r.ram[14 := (right + r.ram[14]) % WordMod], pc := p + 14)
  }

  /** `@R13 M=M-1 @LOOP 0;JMP`: the counter drops by one and control goes
      back to the loop label. */
  function MulCountDown(p: nat, r: Regs): Regs
    requires |r.ram| == RamSize && r.ram[13] > 0
  {
    r.(a := p + 6, narrow := p + 6 < Short, ram := r.ram[13 := r.ram[13] - 1], pc := p + 6)
  }

  /** One round of the loop body, when the counter is not zero. */
  function MulRound(p: nat, operand: nat, fromRam: bool, r: Regs): Regs
    requires |r.ram| == RamSize && OperandFits(operand, fromRam) && r.ram[13] > 0
  {
    MulCountDown(p, MulAccumulate(p, operand, fromRam, MulCheck(p, r)))
  }

  lemma {:induction false} MulCheckRuns(prog: seq<Instr>, p: nat, operand: nat, fromRam: bool, r: Regs)
    requires MulShape(prog, p, operand, fromRam)
    requires r.pc == p + 6 && |r.ram| == RamSize && r.ram[13] < WordMod
    ensures MRun(prog, p, r, 4) == Some(MulCheck(p, r))
  {
    var r1 := r.(a := 13, narrow := true, pc := p + 7);
    StepAt(prog, p, r, 13);
    var r2 := r1.(d := r.ram[13], pc := p + 8);
    StepLoadM(prog, p, r1);
    var r3 := r2.(a := p + 18, narrow := p + 18 < Short, pc := p + 9);
    StepAt(prog, p, r2, p + 18);
    StepBranch(prog, p, r3, "JEQ");
    Run4(prog, p, r, r1, r2, r3, MulCheck(p, r));
  }

  lemma {:induction false} MulAccumulateRuns(prog: seq<Instr>, p: nat, operand: nat, fromRam: bool, r: Regs)
    requires MulShape(prog, p, operand, fromRam)
    requires r.pc == p + 10 && |r.ram| == RamSize && OperandFits(operand, fromRam)
    ensures MRun(prog, p, r, 4) == Some(MulAccumulate(p, operand, fromRam, r))
  {
    var r1 := r.(a := operand, narrow := operand < Short, pc := p + 11);
    StepAt(prog, p, r, operand);
    var r2 := r1.(d := Right(r.ram, operand, fromRam), pc := p + 12);
    if fromRam {
      StepLoadM(prog, p, r1);
    } else {
      StepLoadA(prog, p, r1);
    }
    var r3 := r2.(a := 14, narrow := true, pc := p + 13);
    StepAt(prog, p, r2, 14);
    StepArithM(prog, p, r3, "D+M");
    Run4(prog, p, r, r1, r2, r3, MulAccumulate(p, operand, fromRam, r));
  }

  lemma {:induction false} MulCountDownRuns(prog: seq<Instr>, p: nat, operand: nat, fromRam: bool, r: Regs)
    requires MulShape(prog, p, operand, fromRam)
    requires r.pc == p + 14 && |r.ram| == RamSize && 0 < r.ram[13] < WordMod
    ensures MRun(prog, p, r, 4) == Some(MulCountDown(p, r))
  {
    var r1 := r.(a := 13, narrow := true, pc := p + 15);
    StepAt(prog, p, r, 13);
    var r2 := r1.(ram := r.ram[13 := r.ram[13] - 1], pc := p + 16);
    StepArithM(prog, p, r1, "M-1");
    var r3 := r2.(a := p + 6, narrow := p + 6 < Short, pc := p + 17);
    StepAt(prog, p, r2, p + 6);
    StepJump(prog, p, r3);
    Run4(prog, p, r, r1, r2, r3, MulCountDown(p, r));
  }

  /** A round takes twelve steps. */
  lemma {:induction false} MulRoundRuns(prog: seq<Instr>, p: nat, operand: nat, fromRam: bool, r: Regs)
    requires MulShape(prog, p, operand, fromRam)
    requires r.pc == p + 6 && |r.ram| == RamSize && OperandFits(operand, fromRam) && 0 < r.ram[13] < WordMod
    ensures MRun(prog, p, r, 12) == Some(MulRound(p, operand, fromRam, r))
  {
    var r1 := MulCheck(p, r);
    var r2 := MulAccumulate(p, operand, fromRam, r1);
    MulCheckRuns(prog, p, operand, fromRam, r);
    MulAccumulateRuns(prog, p, operand, fromRam, r1);
    MulCountDownRuns(prog, p, operand, fromRam, r2);
    Run3Parts(prog, p, r, 4, r1, 4, r2, 4, MulRound(p, operand, fromRam, r), 12);
  }

  /** A round adds the right operand to R14 and counts R13 down; nothing
      else in RAM changes, so the right operand stays what it was. */
  lemma {:induction false} MulRoundEffect(p: nat, operand: nat, fromRam: bool, r: Regs)
    requires |r.ram| == RamSize && OperandFits(operand, fromRam) && r.ram[13] > 0
    ensures var t := MulRound(p, operand, fromRam, r);
      && t.pc == p + 6 && |t.ram| == RamSize
      && t.ram == r.ram[14 := (r.ram[14] + Right(r.ram, operand, fromRam)) % WordMod][13 := r.ram[13] - 1]
      && Right(t.ram, operand, fromRam) == Right(r.ram, operand, fromRam)
  {
  }

  /** Where the loop leaves the numbers, in closed form: with `n` in R13 and
      `acc` in R14 at the loop label, the loop ends at the end label with
      R13 and D zero and `acc + n * right`, modulo 2^64, in R14. */
  function MulDone(p: nat, operand: nat, fromRam: bool, r: Regs): Regs
    requires |r.ram| == RamSize && OperandFits(operand, fromRam)
  {
    var product := (r.ram[14] + r.ram[13] * Right(r.ram, operand, fromRam)) % WordMod;
    r.(a := p + 18, narrow := p + 18 < Short, d := 0, ram := r.ram[13 := 0][14 := product], pc := p + 18)
  }

  /** With the counter at zero, the test leaves the loop as `MulDone` says. */
  lemma {:induction false} MulDoneExit(p: nat, operand: nat, fromRam: bool, r: Regs)
    requires |r.ram| == RamSize && OperandFits(operand, fromRam) && r.ram[13] == 0 && r.ram[14] < WordMod
    ensures MulCheck(p, r) == MulDone(p, operand, fromRam, r)
  {
    assert r.ram[13 := 0][14 := r.ram[14]] == r.ram;
  }

  /** A round does not change where the loop ends. */
  lemma {:induction false} MulDoneRound(p: nat, operand: nat, fromRam: bool, r: Regs)
    requires |r.ram| == RamSize && OperandFits(operand, fromRam) && r.ram[13] > 0
    ensures MulDone(p, operand, fromRam, MulRound(p, operand, fromRam, r)) == MulDone(p, operand, fromRam, r)
  {
    var n, acc, right := r.ram[13], r.ram[14], Right(r.ram, operand, fromRam);
    var m := MulRound(p, operand, fromRam, r);
    MulRoundEffect(p, operand, fromRam, r);
    MulStep(acc, n, right, WordMod);
    var v := (acc + right) % WordMod;
    assert m.ram[14] == v && m.ram[13] == n - 1;
    var w := (v + (n - 1) * right) % WordMod;
    assert w == (acc + n * right) % WordMod;
    SetTwice(r.ram, v, n - 1, 0, w);
  }

  /** From the loop label with `n` in R13 the loop takes `12n + 4` steps and
      ends where `MulDone` says. */
  lemma {:induction false} MulLoopRuns(prog: seq<Instr>, p: nat, operand: nat, fromRam: bool, r: Regs)
    requires MulShape(prog, p, operand, fromRam)
    requires r.pc == p + 6 && |r.ram| == RamSize && OperandFits(operand, fromRam)
    requires r.ram[13] < WordMod && r.ram[14] < WordMod
    ensures MRun(prog, p, r, 12 * r.ram[13] + 4) == Some(MulDone(p, operand, fromRam, r))
    decreases r.ram[13]
  {
    if r.ram[13] == 0 {
      MulCheckRuns(prog, p, operand, fromRam, r);
      MulDoneExit(p, operand, fromRam, r);
    } else {
      var m := MulRound(p, operand, fromRam, r);
      MulRoundEffect(p, operand, fromRam, r);
      MulRoundRuns(prog, p, operand, fromRam, r);
      MulLoopRuns(prog, p, operand, fromRam, m);
      MulDoneRound(p, operand, fromRam, r);
      RunJoin(prog, p, r, 12, m, 12 * m.ram[13] + 4, MulDone(p, operand, fromRam, m), 12 * r.ram[13] + 4);
    }
  }

  /** Where the whole multiplication template leaves the numbers. */
  function Multiply(p: nat, operand: nat, fromRam: bool, r: Regs): Regs
    requires |r.ram| == RamSize && OperandFits(operand, fromRam)
  {
    Leave(MulDone(p, operand, fromRam, Enter(r)))
  }

  /** The template puts the product of D and the right operand, modulo
      2^64, into D and R14, zeroes R13 and changes no other RAM word. */
  lemma {:induction false} MultiplyEffect(p: nat, operand: nat, fromRam: bool, r: Regs)
    requires |r.ram| == RamSize && OperandFits(operand, fromRam)
    ensures var t := Multiply(p, operand, fromRam, r);
      && t.pc == p + 20
      && t.d == (r.d * Right(r.ram, operand, fromRam)) % WordMod
      && t.ram == r.ram[13 := 0][14 := t.d]
  {
    var e := Enter(r);
    assert Right(e.ram, operand, fromRam) == Right(r.ram, operand, fromRam);
    assert e.ram[13 := 0][14 := (r.d * Right(r.ram, operand, fromRam)) % WordMod]
      == r.ram[13 := 0][14 := (r.d * Right(r.ram, operand, fromRam)) % WordMod];
  }

  /** From its first line with D below 2^64, the template takes
      `12 * D + 12` steps. */
  lemma {:induction false} MultiplyRuns(prog: seq<Instr>, p: nat, operand: nat, fromRam: bool, r: Regs)
    requires MulShape(prog, p, operand, fromRam)
    requires r.pc == p && |r.ram| == RamSize && OperandFits(operand, fromRam) && r.d < WordMod
    ensures MRun(prog, p, r, 12 * r.d + 12) == Some(Multiply(p, operand, fromRam, r))
  {
    var e := Enter(r);
    assert e.pc == p + 6 && e.ram[13] == r.d && e.ram[14] == 0;
    var m := MulDone(p, operand, fromRam, e);
    assert m.pc == p + 18 && |m.ram| == RamSize;
    EnterRuns(prog, p, r);
    MulLoopRuns(prog, p, operand, fromRam, e);
    LeaveRuns(prog, p, m);
    Run3Parts(prog, p, r, 6, e, 12 * e.ram[13] + 4, m, 2, Leave(m), 12 * r.d + 12);
  }

  /** The same on the CPU. */
  lemma {:induction false} MultiplyLifts(rom: seq<Bits>, prog: seq<Instr>, p: nat, operand: nat, fromRam: bool, s: State)
    returns (t: State)
    requires MulShape(prog, p, operand, fromRam) && Loaded(rom, p, prog)
    requires Valid(s) && s.pc == p && OperandFits(operand, fromRam)
    ensures Reaches(rom, s, 12 * Val(s.d) + 12, t) && Models(t, Multiply(p, operand, fromRam, Read(s)))
  {
    var r := Read(s);
    WordBound(s.d);
    MultiplyRuns(prog, p, operand, fromRam, r);
    t := Lift(rom, p, prog, s, r, 12 * r.d + 12, Multiply(p, operand, fromRam, r));
  }

  /** The multiplication template, loaded at `p` and entered with the left
      operand in D, leaves the product of D and the right operand, modulo
      2^64, in D and R14 after `12 * D + 12` quiet steps, with R13 zero and
      every other RAM word as it was. */
  lemma {:induction false} MulComputes(rom: seq<Bits>, p: nat, operand: nat, fromRam: bool, s: State) returns (t: State)
    requires Loaded(rom, p, MulProgram(p, operand, fromRam))
    requires Valid(s) && s.pc == p && OperandFits(operand, fromRam)
    ensures Reaches(rom, s, 12 * Val(s.d) + 12, t) && Valid(t) && t.pc == p + 20
    ensures Val(t.d) == (Val(s.d) * (if fromRam then Val(s.ram[operand]) else operand)) % WordMod
    ensures Val(t.ram[14]) == Val(t.d) && Val(t.ram[13]) == 0
    ensures forall i :: 0 <= i < RamSize && i != 13 && i != 14 ==> Val(t.ram[i]) == Val(s.ram[i])
  {
    MulProgramShape(p, operand, fromRam);
    t := MultiplyLifts(rom, MulProgram(p, operand, fromRam), p, operand, fromRam, s);
    var r := Read(s);
    var x := Multiply(p, operand, fromRam, r);
    MultiplyEffect(p, operand, fromRam, r);
    assert Right(r.ram, operand, fromRam) == (if fromRam then Val(s.ram[operand]) else operand);
    assert x.ram[13] == 0 && x.ram[14] == x.d;
    forall i | 0 <= i < RamSize && i != 13 && i != 14
      ensures Val(t.ram[i]) == Val(s.ram[i])
    {
      assert x.ram[i] == r.ram[i];
    }
  }

  /** Setting R14 and R13 and then setting them again is setting them once. */
  lemma {:induction false} SetTwice(ram: seq<nat>, v: nat, c: nat, e: nat, w: nat)
    requires |ram| == RamSize
    ensures ram[14 := v][13 := c][13 := e][14 := w] == ram[13 := e][14 := w]
    ensures ram[13 := c][14 := v][13 := e][14 := w] == ram[13 := e][14 := w]
  {
  }


  // ---------------------------------------------------------------------------
  // Division

  /** The loop lines of the division template (compiler.py:92-112). */
  predicate DivShape(prog: seq<Instr>, p: nat, operand: nat, fromRam: bool)
  {
    && FrameShape(prog)
    && prog[6] == At(13) && prog[7] == Op(Quiet(Some("D"), "M", None))
    && prog[8] == At(operand) && prog[9] == Op(Quiet(Some("D"), if fromRam then "D-M" else "D-A", None))
    && prog[10] == At(p + 18) && prog[11] == Op(Quiet(None, "D", Some("JLT")))
    && prog[12] == At(13) && prog[13] == Op(Quiet(Some("M"), "D", None))
    && prog[14] == At(14) && prog[15] == Op(Quiet(Some("M"), "M+1", None))
    && prog[16] == At(p + 6) && prog[17] == Op(Quiet(None, "0", Some("JMP")))
  }

  /** `DivProgram` has the shape the proofs below follow. */
  lemma {:induction false} DivProgramShape(p: nat, operand: nat, fromRam: bool)
    ensures DivShape(DivProgram(p, operand, fromRam), p, operand, fromRam)
  {
    DivProgramFrame(p, operand, fromRam);
    DivProgramHead(p, operand, fromRam);
    DivProgramTail(p, operand, fromRam);
  }

  lemma {:induction false} DivProgramFrame(p: nat, operand: nat, fromRam: bool)
    ensures FrameShape(DivProgram(p, operand, fromRam))
  {
  }

  lemma {:induction false} DivProgramHead(p: nat, operand: nat, fromRam: bool)
    ensures var prog := DivProgram(p, operand, fromRam);
      && |prog| == 20
      && prog[6] == At(13) && prog[7] == Op(Quiet(Some("D"), "M", None))
      && prog[8] == At(operand) && prog[9] == Op(Quiet(Some("D"), if fromRam then "D-M" else "D-A", None))
  {
  }

  lemma {:induction false} DivProgramTail(p: nat, operand: nat, fromRam: bool)
    ensures var prog := DivProgram(p, operand, fromRam);
      && |prog| == 20
      && prog[10] == At(p + 18) && prog[11] == Op(Quiet(None, "D", Some("JLT")))
      && prog[12] == At(13) && prog[13] == Op(Quiet(Some("M"), "D", None))
      && prog[14] == At(14) && prog[15] == Op(Quiet(Some("M"), "M+1", None))
      && prog[16] == At(p + 6) && prog[17] == Op(Quiet(None, "0", Some("JMP")))
  {
  }

  /** `@R13 D=M @operand D=D-M` (or `D=D-A`): D is the running dividend
      less the divisor, modulo 2^64. */
  function DivSubtract(p: nat, operand: nat, fromRam: bool, r: Regs): Regs
    requires |r.ram| == RamSize && OperandFits(operand, fromRam)
  {
    r.(a := operand, narrow := operand < Short, d := (r.ram[13] - Right(r.ram, operand, fromRam)) % WordMod, pc := p + 10)
  }

  /** `@END D;JLT`: the loop ends when that difference is negative. */
  function DivTest(p: nat, r: Regs): Regs
  {
    r.(a := p + 18, narrow := p + 18 < Short, pc := if SignedWord(r.d) < 0 then p + 18 else p + 12)
  }

  /** `@R13 M=D @R14 M=M+1`: the difference becomes the running dividend
      and the quotient in R14 grows by one, modulo 2^64. */
  function DivCount(p: nat, r: Regs): Regs
    requires |r.ram| == RamSize
  {
    r.(a := 14, narrow := true, ram := r.ram[13 := r.d][14 := (r.ram[14] + 1) % WordMod], pc := p + 16)
  }

  /** `@LOOP 0;JMP`. */
  function DivBack(p: nat, r: Regs): Regs
  {
    r.(a := p + 6, narrow := p + 6 < Short, pc := p + 6)
  }

  /** Where one round of the loop body leaves the numbers when the divisor
      fits: it is taken off R13, R14 counts one more, and control is back
      at the loop label. */
  function DivRound(p: nat, operand: nat, fromRam: bool, r: Regs): Regs
    requires |r.ram| == RamSize && OperandFits(operand, fromRam) && r.ram[13] >= Right(r.ram, operand, fromRam)
  {
    var u := r.ram[13] - Right(r.ram, operand, fromRam);
    r.(a := p + 6, narrow := p + 6 < Short, d := u, ram := r.ram[13 := u][14 := (r.ram[14] + 1) % WordMod], pc := p + 6)
  }

  lemma {:induction false} DivSubtractRuns(prog: seq<Instr>, p: nat, operand: nat, fromRam: bool, r: Regs)
    requires DivShape(prog, p, operand, fromRam)
    requires r.pc == p + 6 && |r.ram| == RamSize && OperandFits(operand, fromRam)
    ensures MRun(prog, p, r, 4) == Some(DivSubtract(p, operand, fromRam, r))
  {
    var r1 := r.(a := 13, narrow := true, pc := p + 7);
    StepAt(prog, p, r, 13);
    var r2 := r1.(d := r.ram[13], pc := p + 8);
    StepLoadM(prog, p, r1);
    var r3 := r2.(a := operand, narrow := operand < Short, pc := p + 9);
    StepAt(prog, p, r2, operand);
    StepSubD(prog, p, r3, if fromRam then "D-M" else "D-A");
    Run4(prog, p, r, r1, r2, r3, DivSubtract(p, operand, fromRam, r));
  }

  lemma {:induction false} DivTestRuns(prog: seq<Instr>, p: nat, operand: nat, fromRam: bool, r: Regs)
    requires DivShape(prog, p, operand, fromRam) && r.pc == p + 10
    ensures MRun(prog, p, r, 2) == Some(DivTest(p, r))
  {
    var r1 := r.(a := p + 18, narrow := p + 18 < Short, pc := p + 11);
    StepAt(prog, p, r, p + 18);
    StepBranch(prog, p, r1, "JLT");
    Run2(prog, p, r, r1, DivTest(p, r));
  }

  lemma {:induction false} DivCountRuns(prog: seq<Instr>, p: nat, operand: nat, fromRam: bool, r: Regs)
    requires DivShape(prog, p, operand, fromRam) && r.pc == p + 12 && |r.ram| == RamSize
    ensures MRun(prog, p, r, 4) == Some(DivCount(p, r))
  {
    var r1 := r.(a := 13, narrow := true, pc := p + 13);
    StepAt(prog, p, r, 13);
    var r2 := r1.(ram := r.ram[13 := r.d], pc := p + 14);
    StepStore(prog, p, r1);
    var r3 := r2.(a := 14, narrow := true, pc := p + 15);
    StepAt(prog, p, r2, 14);
    StepArithM(prog, p, r3, "M+1");
    Run4(prog, p, r, r1, r2, r3, DivCount(p, r));
  }

  lemma {:induction false} DivBackRuns(prog: seq<Instr>, p: nat, operand: nat, fromRam: bool, r: Regs)
    requires DivShape(prog, p, operand, fromRam) && r.pc == p + 16
    ensures MRun(prog, p, r, 2) == Some(DivBack(p, r))
  {
    var r1 := r.(a := p + 6, narrow := p + 6 < Short, pc := p + 17);
    StepAt(prog, p, r, p + 6);
    StepJump(prog, p, r1);
    Run2(prog, p, r, r1, DivBack(p, r));
  }
  /** The running dividend in R13 and the divisor are positive words below
      2^63, and the quotient in R14 is a word. */
  predicate DivBounds(operand: nat, fromRam: bool, r: Regs)
  {
    && |r.ram| == RamSize && OperandFits(operand, fromRam)
    && 0 < Right(r.ram, operand, fromRam) < Half && r.ram[13] < Half && r.ram[14] < WordMod
  }

  /** The test reads the difference as its true, signed value. */
  lemma {:induction false} DivTestReads(p: nat, operand: nat, fromRam: bool, r: Regs)
    requires DivBounds(operand, fromRam, r)
    ensures var x := DivSubtract(p, operand, fromRam, r);
      && x.d == (r.ram[13] - Right(r.ram, operand, fromRam)) % WordMod
      && (SignedWord(x.d) < 0 <==> r.ram[13] < Right(r.ram, operand, fromRam))
  {
    SignedDiff(r.ram[13], Right(r.ram, operand, fromRam));
  }

  /** A round of the division loop takes twelve steps. */
  lemma {:induction false} DivRoundRuns(prog: seq<Instr>, p: nat, operand: nat, fromRam: bool, r: Regs)
    requires DivShape(prog, p, operand, fromRam)
    requires r.pc == p + 6 && DivBounds(operand, fromRam, r) && r.ram[13] >= Right(r.ram, operand, fromRam)
    ensures MRun(prog, p, r, 12) == Some(DivRound(p, operand, fromRam, r))
  {
    var r1 := DivSubtract(p, operand, fromRam, r);
    var r2 := DivTest(p, r1);
    var r3 := DivCount(p, r2);
    DivRoundSteps(p, operand, fromRam, r);
    DivSubtractRuns(prog, p, operand, fromRam, r);
    DivTestRuns(prog, p, operand, fromRam, r1);
    DivCountRuns(prog, p, operand, fromRam, r2);
    DivBackRuns(prog, p, operand, fromRam, r3);
    Run3Parts(prog, p, r, 4, r1, 2, r2, 4, r3, 10);
    RunJoin(prog, p, r, 10, r3, 2, DivRound(p, operand, fromRam, r), 12);
  }

  /** The four groups of lines of a round, when the divisor fits, end where
      `DivRound` says. */
  lemma {:induction false} DivRoundSteps(p: nat, operand: nat, fromRam: bool, r: Regs)
    requires DivBounds(operand, fromRam, r) && r.ram[13] >= Right(r.ram, operand, fromRam)
    ensures DivBack(p, DivCount(p, DivTest(p, DivSubtract(p, operand, fromRam, r)))) == DivRound(p, operand, fromRam, r)
  {
    DivTestReads(p, operand, fromRam, r);
    SignedDiff(r.ram[13], Right(r.ram, operand, fromRam));
  }

  /** A round keeps the bounds and the divisor. */
  lemma {:induction false} DivRoundEffect(p: nat, operand: nat, fromRam: bool, r: Regs)
    requires DivBounds(operand, fromRam, r) && r.ram[13] >= Right(r.ram, operand, fromRam)
    ensures var t := DivRound(p, operand, fromRam, r);
      && t.pc == p + 6 && DivBounds(operand, fromRam, t)
      && Right(t.ram, operand, fromRam) == Right(r.ram, operand, fromRam)
  {
  }

  /** How many times the divisor `w` can be taken off `u`: the rounds the
      division loop runs. */
  function Rounds(u: nat, w: nat): nat
    requires w > 0
    decreases u
  {
    if u < w then 0 else 1 + Rounds(u - w, w)
  }

  /** What is left of `u` after those rounds. */
  function Remainder(u: nat, w: nat): nat
    requires w > 0
    decreases u
  {
    if u < w then u else Remainder(u - w, w)
  }

  /** The rounds are the quotient and what is left is the remainder. */
  lemma {:induction false} RoundsDivide(u: nat, w: nat)
    requires w > 0
    ensures Rounds(u, w) == u / w && Remainder(u, w) == u % w
    decreases u
  {
    if u < w {
      ModUnique(u, w, 0, u);
    } else {
      RoundsDivide(u - w, w);
      DivStep(u, w);
    }
  }

  /** No more rounds than `u` itself. */
  lemma {:induction false} RoundsBound(u: nat, w: nat)
    requires w > 0
    ensures Rounds(u, w) <= u
    decreases u
  {
    if u >= w {
      RoundsBound(u - w, w);
    }
  }

  /** A quotient of a word by a positive divisor is a word again. */
  lemma {:induction false} QuotientFits(u: nat, w: nat)
    requires w > 0 && u < WordMod
    ensures Rounds(u, w) == u / w && Remainder(u, w) == u % w
    ensures (0 + u / w) % WordMod == u / w
  {
    RoundsDivide(u, w);
    RoundsBound(u, w);
    ModUnique(u / w, WordMod, 0, u / w);
  }

  /** Where the division loop leaves the numbers: with `u` in R13 and `q`
      in R14 at the loop label, the loop ends at the end label with the
      remainder of `u` in R13, `q` plus the rounds, modulo 2^64, in R14, and
      in D the last, negative, difference. */
  function DivDone(p: nat, operand: nat, fromRam: bool, r: Regs): Regs
    requires |r.ram| == RamSize && OperandFits(operand, fromRam) && Right(r.ram, operand, fromRam) > 0
  {
    var w := Right(r.ram, operand, fromRam);
    var u := r.ram[13];
    r.(a := p + 18, narrow := p + 18 < Short, d := (Remainder(u, w) - w) % WordMod,
       ram := r.ram[13 := Remainder(u, w)][14 := (r.ram[14] + Rounds(u, w)) % WordMod], pc := p + 18)
  }

  /** When the divisor does not fit, the test leaves the loop as `DivDone` says. */
  lemma {:induction false} DivDoneExit(p: nat, operand: nat, fromRam: bool, r: Regs)
    requires DivBounds(operand, fromRam, r) && r.ram[13] < Right(r.ram, operand, fromRam)
    ensures DivTest(p, DivSubtract(p, operand, fromRam, r)) == DivDone(p, operand, fromRam, r)
  {
    DivTestReads(p, operand, fromRam, r);
    assert r.ram[13 := r.ram[13]][14 := r.ram[14]] == r.ram;
  }

  /** A round does not change where the division loop ends. */
  lemma {:induction false} DivDoneRound(p: nat, operand: nat, fromRam: bool, r: Regs)
    requires DivBounds(operand, fromRam, r) && r.ram[13] >= Right(r.ram, operand, fromRam)
    ensures DivDone(p, operand, fromRam, DivRound(p, operand, fromRam, r)) == DivDone(p, operand, fromRam, r)
  {
    var u, q, w := r.ram[13], r.ram[14], Right(r.ram, operand, fromRam);
    var m := DivRound(p, operand, fromRam, r);
    DivRoundEffect(p, operand, fromRam, r);
    assert m.ram[13] == u - w && m.ram[14] == (q + 1) % WordMod && Right(m.ram, operand, fromRam) == w;
    assert Rounds(u, w) == 1 + Rounds(u - w, w) && Remainder(u, w) == Remainder(u - w, w);
    ModAddMod(q + 1, Rounds(u - w, w), WordMod);
    SetTwice(r.ram, u - w, (q + 1) % WordMod, Remainder(u, w), (q + Rounds(u, w)) % WordMod);
    assert DivDone(p, operand, fromRam, m).ram == DivDone(p, operand, fromRam, r).ram;
  }

  /** When the divisor does not fit, the loop ends after six steps. */
  lemma {:induction false} DivExitRuns(prog: seq<Instr>, p: nat, operand: nat, fromRam: bool, r: Regs)
    requires DivShape(prog, p, operand, fromRam) && DivBounds(operand, fromRam, r) && r.pc == p + 6
    requires r.ram[13] < Right(r.ram, operand, fromRam)
    ensures MRun(prog, p, r, 6) == Some(DivDone(p, operand, fromRam, r))
  {
    var r1 := DivSubtract(p, operand, fromRam, r);
    DivSubtractRuns(prog, p, operand, fromRam, r);
    DivTestRuns(prog, p, operand, fromRam, r1);
    DivDoneExit(p, operand, fromRam, r);
    RunJoin(prog, p, r, 4, r1, 2, DivTest(p, r1), 6);
  }

  /** From the loop label the loop takes twelve steps for each of its `n`
      rounds and six more, and ends where `DivDone` says. */
  lemma {:induction false} DivLoopRuns(prog: seq<Instr>, p: nat, operand: nat, fromRam: bool, r: Regs, n: nat)
    requires DivShape(prog, p, operand, fromRam) && DivBounds(operand, fromRam, r) && r.pc == p + 6
    requires n == Rounds(r.ram[13], Right(r.ram, operand, fromRam))
    ensures MRun(prog, p, r, 12 * n + 6) == Some(DivDone(p, operand, fromRam, r))
    decreases r.ram[13]
  {
    if r.ram[13] < Right(r.ram, operand, fromRam) {
      DivExitRuns(prog, p, operand, fromRam, r);
      var e := DivDone(p, operand, fromRam, r);
      RunJoin(prog, p, r, 6, e, 0, e, 12 * n + 6);
    } else {
      var m := DivRound(p, operand, fromRam, r);
      DivRoundEffect(p, operand, fromRam, r);
      DivLoopRuns(prog, p, operand, fromRam, m, n - 1);
      DivLoopStep(prog, p, operand, fromRam, r, n);
    }
  }

  /** A round in front of the rest of the loop is the whole loop. */
  lemma {:induction false} DivLoopStep(prog: seq<Instr>, p: nat, operand: nat, fromRam: bool, r: Regs, n: nat)
    requires DivShape(prog, p, operand, fromRam) && r.pc == p + 6 && n >= 1
    requires DivBounds(operand, fromRam, r) && r.ram[13] >= Right(r.ram, operand, fromRam)
    requires var m := DivRound(p, operand, fromRam, r);
      MRun(prog, p, m, 12 * (n - 1) + 6) == Some(DivDone(p, operand, fromRam, m))
    ensures MRun(prog, p, r, 12 * n + 6) == Some(DivDone(p, operand, fromRam, r))
  {
    var m := DivRound(p, operand, fromRam, r);
    DivDoneRound(p, operand, fromRam, r);
    DivRoundThen(prog, p, operand, fromRam, r, 12 * (n - 1) + 6, DivDone(p, operand, fromRam, m), 12 * n + 6);
  }

  /** A round in front of a run from where it ends is a run twelve steps longer. */
  lemma {:induction false} DivRoundThen(prog: seq<Instr>, p: nat, operand: nat, fromRam: bool, r: Regs, j: nat, e: Regs, k: nat)
    requires DivShape(prog, p, operand, fromRam) && r.pc == p + 6
    requires DivBounds(operand, fromRam, r) && r.ram[13] >= Right(r.ram, operand, fromRam)
    requires MRun(prog, p, DivRound(p, operand, fromRam, r), j) == Some(e) && k == 12 + j
    ensures MRun(prog, p, r, k) == Some(e)
  {
    DivRoundRuns(prog, p, operand, fromRam, r);
    RunJoin(prog, p, r, 12, DivRound(p, operand, fromRam, r), j, e, k);
  }

  /** The division template as a whole: save D, run the loop, take the
      quotient out of R14. */
  function Divide(p: nat, operand: nat, fromRam: bool, r: Regs): Regs
    requires |r.ram| == RamSize && OperandFits(operand, fromRam) && Right(r.ram, operand, fromRam) > 0
  {
    var e := Enter(r);
    assert Right(e.ram, operand, fromRam) == Right(r.ram, operand, fromRam);
    Leave(DivDone(p, operand, fromRam, e))
  }

  /** For D below 2^64 and a positive divisor, the template puts the
      quotient of D by the right operand into D and R14, the remainder into
      R13, and changes no other RAM word. */
  lemma {:induction false} DivideEffect(p: nat, operand: nat, fromRam: bool, r: Regs)
    requires |r.ram| == RamSize && OperandFits(operand, fromRam) && Right(r.ram, operand, fromRam) > 0
    requires r.d < WordMod
    ensures var t := Divide(p, operand, fromRam, r);
      && t.pc == p + 20
      && t.d == r.d / Right(r.ram, operand, fromRam)
      && t.ram == r.ram[13 := r.d % Right(r.ram, operand, fromRam)][14 := t.d]
  {
    var w := Right(r.ram, operand, fromRam);
    var e := Enter(r);
    assert Right(e.ram, operand, fromRam) == w && e.ram[13] == r.d && e.ram[14] == 0;
    QuotientFits(r.d, w);
    SetTwice(r.ram, 0, r.d, r.d % w, r.d / w);
  }

  /** Entering the template sets up the loop within its bounds. */
  lemma {:induction false} DivEnter(p: nat, operand: nat, fromRam: bool, r: Regs)
    requires r.pc == p && |r.ram| == RamSize && OperandFits(operand, fromRam)
    requires 0 < Right(r.ram, operand, fromRam) < Half && r.d < Half
    ensures var e := Enter(r);
      && e.pc == p + 6 && e.ram[13] == r.d && DivBounds(operand, fromRam, e)
      && Right(e.ram, operand, fromRam) == Right(r.ram, operand, fromRam)
      && DivDone(p, operand, fromRam, e).pc == p + 18 && |DivDone(p, operand, fromRam, e).ram| == RamSize
  {
  }

  /** From its first line with D below 2^63 and a divisor in (0, 2^63), the
      template takes twelve steps a round and fourteen more. */
  lemma {:induction false} DivideRuns(prog: seq<Instr>, p: nat, operand: nat, fromRam: bool, r: Regs, n: nat)
    requires DivShape(prog, p, operand, fromRam)
    requires r.pc == p && |r.ram| == RamSize && OperandFits(operand, fromRam)
    requires 0 < Right(r.ram, operand, fromRam) < Half && r.d < Half
    requires n == Rounds(r.d, Right(r.ram, operand, fromRam))
    ensures MRun(prog, p, r, 12 * n + 14) == Some(Divide(p, operand, fromRam, r))
  {
    var e := Enter(r);
    DivEnter(p, operand, fromRam, r);
    var m := DivDone(p, operand, fromRam, e);
    EnterRuns(prog, p, r);
    DivLoopRuns(prog, p, operand, fromRam, e, n);
    LeaveRuns(prog, p, m);
    Run3Parts(prog, p, r, 6, e, 12 * n + 6, m, 2, Leave(m), 12 * n + 14);
  }

  /** The same on the CPU. */
  lemma {:induction false} DivideLifts(rom: seq<Bits>, prog: seq<Instr>, p: nat, operand: nat, fromRam: bool, s: State, n: nat)
    returns (t: State)
    requires DivShape(prog, p, operand, fromRam) && Loaded(rom, p, prog)
    requires Valid(s) && s.pc == p && OperandFits(operand, fromRam) && Val(s.d) < Half
    requires 0 < Right(Read(s).ram, operand, fromRam) < Half
    requires n == Rounds(Val(s.d), Right(Read(s).ram, operand, fromRam))
    ensures Reaches(rom, s, 12 * n + 14, t) && Models(t, Divide(p, operand, fromRam, Read(s)))
  {
    var r := Read(s);
    DivideRuns(prog, p, operand, fromRam, r, n);
    t := Lift(rom, p, prog, s, r, 12 * n + 14, Divide(p, operand, fromRam, r));
  }

  /** The division template's result for any program of its shape. */
  lemma {:induction false} DivideComputes(rom: seq<Bits>, prog: seq<Instr>, p: nat, operand: nat, fromRam: bool, s: State)
    returns (t: State, n: nat)
    requires DivShape(prog, p, operand, fromRam) && Loaded(rom, p, prog)
    requires Valid(s) && s.pc == p && OperandFits(operand, fromRam)
    requires Val(s.d) < Half && 0 < (if fromRam then Val(s.ram[operand]) else operand) < Half
    ensures n == Val(s.d) / (if fromRam then Val(s.ram[operand]) else operand)
    ensures Reaches(rom, s, 12 * n + 14, t) && Valid(t) && t.pc == p + 20
    ensures var w := if fromRam then Val(s.ram[operand]) else operand;
      Val(t.d) == Val(s.d) / w && Val(t.ram[13]) == Val(s.d) % w
    ensures Val(t.ram[14]) == Val(t.d)
    ensures forall i :: 0 <= i < RamSize && i != 13 && i != 14 ==> Val(t.ram[i]) == Val(s.ram[i])
  {
    var w := Right(Read(s).ram, operand, fromRam);
    assert w == (if fromRam then Val(s.ram[operand]) else operand);
    QuotientFits(Val(s.d), w);
    n := Rounds(Val(s.d), w);
    t := DivideLifts(rom, prog, p, operand, fromRam, s, n);
    DivideReads(p, operand, fromRam, s, t);
  }

  /** What a state that models the template's result holds. */
  lemma {:induction false} DivideReads(p: nat, operand: nat, fromRam: bool, s: State, t: State)
    requires Valid(s) && OperandFits(operand, fromRam)
    requires Val(s.d) < Half && 0 < (if fromRam then Val(s.ram[operand]) else operand) < Half
    requires Models(t, Divide(p, operand, fromRam, Read(s)))
    ensures Valid(t) && t.pc == p + 20
    ensures var w := if fromRam then Val(s.ram[operand]) else operand;
      Val(t.d) == Val(s.d) / w && Val(t.ram[13]) == Val(s.d) % w
    ensures Val(t.ram[14]) == Val(t.d)
    ensures forall i :: 0 <= i < RamSize && i != 13 && i != 14 ==> Val(t.ram[i]) == Val(s.ram[i])
  {
    var r := Read(s);
    assert Right(r.ram, operand, fromRam) == (if fromRam then Val(s.ram[operand]) else operand);
    var x := Divide(p, operand, fromRam, r);
    DivideEffect(p, operand, fromRam, r);
    assert x.ram[13] == Val(s.d) % Right(r.ram, operand, fromRam) && x.ram[14] == x.d;
    forall i | 0 <= i < RamSize && i != 13 && i != 14
      ensures Val(t.ram[i]) == Val(s.ram[i])
    {
      assert x.ram[i] == r.ram[i];
    }
  }

  /** The division template, loaded at `p` and entered with a left operand
      below 2^63 in D and a right operand in (0, 2^63), leaves the quotient
      in D and R14 and the remainder in R13 after `12 * n + 14` quiet steps,
      `n` the quotient, with every other RAM word as it was. */
  lemma {:induction false} DivComputes(rom: seq<Bits>, p: nat, operand: nat, fromRam: bool, s: State)
    returns (t: State, n: nat)
    requires Loaded(rom, p, DivProgram(p, operand, fromRam))
    requires Valid(s) && s.pc == p && OperandFits(operand, fromRam)
    requires Val(s.d) < Half && 0 < (if fromRam then Val(s.ram[operand]) else operand) < Half
    ensures n == Val(s.d) / (if fromRam then Val(s.ram[operand]) else operand)
    ensures Reaches(rom, s, 12 * n + 14, t) && Valid(t) && t.pc == p + 20
    ensures var w := if fromRam then Val(s.ram[operand]) else operand;
      Val(t.d) == Val(s.d) / w && Val(t.ram[13]) == Val(s.d) % w
    ensures Val(t.ram[14]) == Val(t.d)
    ensures forall i :: 0 <= i < RamSize && i != 13 && i != 14 ==> Val(t.ram[i]) == Val(s.ram[i])
  {
    DivProgramShape(p, operand, fromRam);
    t, n := DivideComputes(rom, DivProgram(p, operand, fromRam), p, operand, fromRam, s);
  }
}
