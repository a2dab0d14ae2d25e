/** The machine of cpu.py running assembled instructions, read at the level
    of their mnemonics. A register file of numbers (`Regs`) steps through a
    list of instructions (`MStep`) the way the mnemonics describe, and
    `Simulate` and `Lift` show that the CPU, running the words the assembler
    makes of those instructions, takes the same steps without printing. */
module Simulation {
  import opened Bits
  import opened Results
  import opened Alu
  import opened Assembler
  import opened Cpu
  import opened Semantics

  // ---------------------------------------------------------------------------
  // Programs and runs of several steps

  /** 2^15: an `@` address below it is encoded in sixteen bits. */
  const Short: nat := 0x8000

  /** 2^63, the sign bit of a CPU word. */
  const Half: nat := 0x8000_0000_0000_0000

  /** 2^64, the modulus of the CPU's words. */
  const WordMod: nat := 0x1_0000_0000_0000_0000

  lemma {:induction false} Powers()
    ensures Pow2(15) == Short && Pow2(Width - 1) == Half && Pow2(Width) == WordMod
  {
    Pow2Fifteen();
    Pow2SixtyThree();
    Pow2Small();
    Pow2Add(63, 1);
  }

  lemma {:induction false} Pow2Fifteen()
    ensures Pow2(15) == 0x8000
  {
    Pow2Small();
    Pow2Add(5, 5);
    Pow2Add(10, 5);
  }

  lemma {:induction false} Pow2Sixty()
    ensures Pow2(60) == 0x1000_0000_0000_0000
  {
    Pow2Thirty();
    Pow2Add(30, 30);
  }

  lemma {:induction false} Pow2Thirty()
    ensures Pow2(30) == 0x4000_0000
  {
    Pow2Fifteen();
    Pow2Add(15, 15);
  }

  lemma {:induction false} Pow2SixtyThree()
    ensures Pow2(63) == 0x8000_0000_0000_0000
  {
    Pow2Sixty();
    Pow2Small();
    Pow2Add(60, 3);
  }

  lemma {:induction false} Pow2Small()
    ensures Pow2(1) == 2 && Pow2(3) == 8 && Pow2(5) == 32
  {
    assert Pow2(2) == 4;
    assert Pow2(4) == 16;
  }

  /** `signed64` on a 64-bit word, with the constants written out. */
  function SignedWord(v: nat): int
  {
    if v >= Half then v - WordMod else v
  }

  lemma {:induction false} SignedWordIs(v: nat)
    requires v < WordMod
    ensures Signed64(v) == SignedWord(v)
  {
    Powers();
    Signed64Range(v);
    assert Signed64(v) == v || Signed64(v) == v - Pow2(Width);
  }

  /** A 64-bit word is below 2^64. */
  lemma {:induction false} WordBound(w: Bits)
    requires |w| == Width
    ensures Val(w) < WordMod
  {
    ValBound(w);
    Powers();
  }

  /** One instruction as the assembler emits it: an `@` word with its
      resolved address, or the mnemonics of a C-instruction. */
  datatype Instr = At(addr: nat) | Op(f: CFields)

  /** A C-instruction line that prints nothing. */
  function Quiet(dest: Option<string>, comp: string, jump: Option<string>): CFields
  {
    CFields("NO_PRINT", dest, comp, jump)
  }

  /** What the CPU needs of an assembled `@addr` word (see `EncodeAWord`):
      a leading zero, then the address, in sixteen bits when the address
      has at most fifteen. */
  predicate AddressWord(w: Bits, addr: nat)
  {
    |w| >= 16 && !w[0] && Val(w[1..]) == addr && (addr < Short ==> |w| == 16)
  }

  /** The assembler's `@` words are address words. */
  lemma {:induction false} EncodeAWord(addr: nat)
    ensures AddressWord(EncodeA(addr), addr)
  {
    Powers();
  }

  /** The words of `prog` are in `rom` from address `p` on. */
  predicate Loaded(rom: seq<Bits>, p: nat, prog: seq<Instr>)
  {
    && p + |prog| <= |rom|
    && forall i :: 0 <= i < |prog| ==>
         match prog[i]
         case At(addr) => AddressWord(rom[p + i], addr)
         case Op(f) => EncodeFields(f) == Ok(rom[p + i])
  }

  /** `k` steps of a step function from `s`, with everything they print; a
      step that raises makes the whole run raise. */
  function Exec(step: State -> StepResult, s: State, k: nat): StepResult
    decreases k
  {
    if k == 0 then Next(s, [])
    else
      match step(s)
      case Fault => Fault
      case Next(n, out) =>
        match Exec(step, n, k - 1)
        case Fault => Fault
        case Next(t, more) => Next(t, out + more)
  }

  /** `k` steps of the machine running `rom` lead from `s` to `t` without
      raising and print nothing. */
  predicate Reaches(rom: seq<Bits>, s: State, k: nat, t: State)
  {
    Exec(Stepper(rom), s, k) == Next(t, [])
  }

  /** Steps that stay inside the program are a stretch of the `run()` loop:
      with `k` more steps in the budget the loop ends as it does from the
      state they reach, after printing what they print. */
  lemma {:induction false} LoopExec(step: State -> StepResult, size: nat, s: State, k: nat, fuel: nat)
    requires Exec(step, s, k).Next?
    requires forall t :: step(t).Next? ==> t.pc < size
    ensures Loop(step, size, s, fuel + k) == Emit(Exec(step, s, k).out, Loop(step, size, Exec(step, s, k).s, fuel))
    decreases k
  {
    if k == 0 {
      EmitNothing(Loop(step, size, s, fuel));
    } else {
      var n, out := step(s).s, step(s).out;
      LoopUnfold(step, size, s, k, fuel);
      LoopExec(step, size, n, k - 1, fuel);
      var e := Exec(step, n, k - 1);
      assert Exec(step, s, k) == Next(e.s, out + e.out);
      EmitEmit(out, e.out, Loop(step, size, e.s, fuel));
    }
  }

  lemma {:induction false} LoopUnfold(step: State -> StepResult, size: nat, s: State, k: nat, fuel: nat)
    requires k > 0 && Exec(step, s, k).Next?
    requires forall t :: step(t).Next? ==> t.pc < size
    ensures step(s).Next?
    ensures Loop(step, size, s, fuel + k) == Emit(step(s).out, Loop(step, size, step(s).s, fuel + (k - 1)))
  {
  }

  /** The same for `run()` itself. */
  lemma {:induction false} RunExec(rom: seq<Bits>, s: State, k: nat, fuel: nat)
    requires Exec(Stepper(rom), s, k).Next?
    ensures var e := Exec(Stepper(rom), s, k);
      Run(rom, s, fuel + k) == Emit(e.out, Run(rom, e.s, fuel))
  {
    forall t | Step(rom, t).Next?
      ensures t.pc < |rom|
    {
      if t.pc >= |rom| {
        StepPastEnd(rom, t);
      }
    }
    LoopExec(Stepper(rom), |rom|, s, k, fuel);
  }

  /** A quiet run of `k` steps ends `run()` as the state it reaches does. */
  lemma {:induction false} RunReaches(rom: seq<Bits>, s: State, k: nat, t: State, fuel: nat)
    requires Reaches(rom, s, k, t)
    ensures Run(rom, s, fuel + k) == Run(rom, t, fuel)
  {
    RunExec(rom, s, k, fuel);
    EmitNothing(Run(rom, t, fuel));
  }

  lemma {:induction false} EmitNothing(o: Outcome)
    ensures Emit([], o) == o
  {
    assert [] + o.out == o.out;
  }

  lemma {:induction false} EmitEmit(a: seq<Token>, b: seq<Token>, o: Outcome)
    ensures Emit(a, Emit(b, o)) == Emit(a + b, o)
  {
    assert a + (b + o.out) == (a + b) + o.out;
  }

  /** Quiet runs compose. */
  lemma {:induction false} ExecTrans(step: State -> StepResult, s: State, i: nat, m: State, j: nat, t: State)
    requires Exec(step, s, i) == Next(m, []) && Exec(step, m, j) == Next(t, [])
    ensures Exec(step, s, i + j) == Next(t, [])
    decreases i
  {
    if i > 0 {
      var n := step(s).s;
      ExecTrans(step, n, i - 1, m, j, t);
    }
  }

  lemma {:induction false} ReachesTrans(rom: seq<Bits>, s: State, i: nat, m: State, j: nat, t: State)
    requires Reaches(rom, s, i, m) && Reaches(rom, m, j, t)
    ensures Reaches(rom, s, i + j, t)
  {
    ExecTrans(Stepper(rom), s, i, m, j, t);
  }

  /** A quiet step followed by a quiet run is a quiet run. */
  lemma {:induction false} ExecCons(step: State -> StepResult, s: State, n: State, k: nat, t: State)
    requires step(s) == Next(n, []) && Exec(step, n, k) == Next(t, [])
    ensures Exec(step, s, k + 1) == Next(t, [])
  {
    var e: seq<Token> := [];
    assert e + e == e;
  }

  /** The word at `pc` of a loaded program is its instruction's word. */
  lemma {:induction false} LoadedAt(rom: seq<Bits>, p: nat, prog: seq<Instr>, i: nat)
    requires Loaded(rom, p, prog) && i < |prog|
    ensures p + i < |rom|
    ensures prog[i].At? ==> AddressWord(rom[p + i], prog[i].addr)
    ensures prog[i].Op? ==> EncodeFields(prog[i].f) == Ok(rom[p + i])
  {
  }

  // ---------------------------------------------------------------------------
  // One instruction on the CPU

  /** An `@` word loads its address into A, 64 bits wide when the address
      fits the fifteen bits of an encoded word. */
  lemma {:induction false} DoAt(rom: seq<Bits>, s: State, addr: nat) returns (n: State)
    requires Valid(s) && s.pc < |rom| && AddressWord(rom[s.pc], addr)
    ensures Step(rom, s) == Next(n, []) && Valid(n)
    ensures Val(n.a) == addr && n.d == s.d && n.ram == s.ram && n.pc == s.pc + 1
    ensures addr < Short ==> |n.a| == Width
  {
    Powers();
    StepA(rom, s);
    n := Step(rom, s).s;
  }

  /** A C-instruction that prints nothing, read through its mnemonics; the
      flags say whether the comp mnemonic reads M and which registers the
      dest mnemonic names. */
  lemma {:induction false} DoOp(rom: seq<Bits>, s: State, f: CFields, readsM: bool, toA: bool, toD: bool, toM: bool)
    returns (n: State, out: Bits)
    requires Valid(s) && s.pc < |rom| && EncodeFields(f) == Ok(rom[s.pc]) && f.mode == "NO_PRINT"
    requires readsM == ('M' in f.comp)
    requires toA == Names(f.dest, 'A') && toD == Names(f.dest, 'D') && toM == Names(f.dest, 'M')
    requires (readsM || toM) ==> Val(s.a) < RamSize
    ensures f.comp in CompTable && |CompTable[f.comp]| == 7
    ensures out == Alu.Alu(s.d, if readsM then s.ram[Val(s.a)] else s.a, CodeControl(CompTable[f.comp])).out
    ensures Step(rom, s) == Next(n, []) && Valid(n)
    ensures n.d == (if toD then out else s.d)
    ensures n.a == (if toA then out else s.a)
    ensures n.ram == (if toM then s.ram[Val(s.a) := out] else s.ram)
    ensures f.jump.None? ==> n.pc == s.pc + 1
    ensures f.jump.Some? ==> n.pc == if JumpHolds(f.jump, Signed64(Val(n.d))) then Val(n.a) else s.pc + 1
  {
    ExecInstruction(f, rom, s);
    n := Step(rom, s).s;
    out := Alu.Alu(s.d, if readsM then s.ram[Val(s.a)] else s.a, CodeControl(CompTable[f.comp])).out;
  }

  /** `D`, `A` and `M` copy a register: D, or the second operand. */
  lemma {:induction false} CopyComp(k: string, x: Bits, y: Bits)
    requires k in {"D", "A", "M"} && |x| >= 1 && |y| >= |x| && (k != "D" ==> |y| == |x|)
    ensures k in CompTable && |CompTable[k]| == 7
    ensures Alu.Alu(x, y, CodeControl(CompTable[k])).out == if k == "D" then x else y
  {
    CompMeaningBits(k, x, y);
    SameBits(Alu.Alu(x, y, CodeControl(CompTable[k])).out, if k == "D" then x else y);
  }

  /** Two bit strings that agree everywhere are equal. */
  lemma {:induction false} SameBits(x: Bits, y: Bits)
    requires |x| == |y| && forall i :: 0 <= i < |x| ==> x[i] == y[i]
    ensures x == y
  {
  }

  // ---------------------------------------------------------------------------
  // The same machine over numbers

  /** The registers read as numbers. `narrow` records that A holds exactly
      64 bits, as it does after an `@` word whose address fits fifteen bits;
      copying A into D needs that. */
  datatype Regs = Regs(a: nat, narrow: bool, d: nat, pc: nat, ram: seq<nat>)

  /** The C-instructions the machine over numbers follows: printing nothing,
      not writing A, and computing an arithmetic mnemonic or copying D, A or M. */
  predicate Supported(f: CFields)
  {
    && f.mode == "NO_PRINT"
    && (f.comp in ArithComps || f.comp in {"D", "A", "M"})
    && !Names(f.dest, 'A')
  }

  /** The number a supported comp mnemonic gives on D and its second operand. */
  function Compute(k: string, d: nat, y: nat): nat
  {
    if k in ArithComps then Arith(k, d, y) % WordMod
    else if k == "D" then d
    else y
  }

  /** One step of `prog`, loaded from address `p`, on numbers; `None` when the
      program counter leaves the program, on an instruction outside
      `Supported`, on a RAM access past the memory and on copying a wide A. */
  function MStep(prog: seq<Instr>, p: nat, r: Regs): Option<Regs>
  {
    if r.pc < p || r.pc - p >= |prog| then None else MExec(prog[r.pc - p], r)
  }

  /** One instruction on numbers. */
  function MExec(ins: Instr, r: Regs): Option<Regs>
  {
    match ins
    case At(addr) => Some(r.(a := addr, narrow := addr < Short, pc := r.pc + 1))
    case Op(f) =>
      var readsM := 'M' in f.comp;
      var toM := Names(f.dest, 'M');
      if !Supported(f) || ((readsM || toM) && (r.a >= RamSize || |r.ram| != RamSize))
        || (f.comp == "A" && !r.narrow) then None
      else
        var v := Compute(f.comp, r.d, if readsM then r.ram[r.a] else r.a);
        var d := if Names(f.dest, 'D') then v else r.d;
        var ram := if toM then r.ram[r.a := v] else r.ram;
        Some(Regs(r.a, r.narrow, d, if JumpHolds(f.jump, SignedWord(d)) then r.a else r.pc + 1, ram))
  }

  /** `k` steps on numbers. */
  function MRun(prog: seq<Instr>, p: nat, r: Regs, k: nat): Option<Regs>
    decreases k
  {
    if k == 0 then Some(r)
    else
      match MStep(prog, p, r)
      case None => None
      case Some(n) => MRun(prog, p, n, k - 1)
  }

  /** The state `s` of the CPU is read as the numbers `r`. */
  predicate Models(s: State, r: Regs)
  {
    && Valid(s) && Val(s.a) == r.a && (r.narrow ==> |s.a| == Width)
    && Val(s.d) == r.d && s.pc == r.pc && |r.ram| == RamSize
    && forall i :: 0 <= i < RamSize ==> Val(s.ram[i]) == r.ram[i]
  }

  /** The numbers a valid state holds. */
  function Read(s: State): (r: Regs)
    requires Valid(s)
    ensures Models(s, r) && r.pc == s.pc
  {
    Regs(Val(s.a), |s.a| == Width, Val(s.d), s.pc, seq(RamSize, i requires 0 <= i < RamSize => Val(s.ram[i])))
  }

  /** One step on numbers is one quiet step of the CPU running the assembled words. */
  lemma {:induction false} Simulate(rom: seq<Bits>, p: nat, prog: seq<Instr>, s: State, r: Regs) returns (n: State)
    requires Loaded(rom, p, prog) && Models(s, r) && MStep(prog, p, r).Some?
    ensures Step(rom, s) == Next(n, []) && Models(n, MStep(prog, p, r).value)
  {
    var i: nat := r.pc - p;
    LoadedAt(rom, p, prog, i);
    match prog[i]
    case At(addr) =>
      n := DoAt(rom, s, addr);
      assert n.ram == s.ram;
    case Op(f) =>
      n := SimulateOp(rom, s, r, f);
  }

  lemma {:induction false} SimulateOp(rom: seq<Bits>, s: State, r: Regs, f: CFields) returns (n: State)
    requires Models(s, r) && s.pc < |rom| && EncodeFields(f) == Ok(rom[s.pc]) && Supported(f)
    requires ('M' in f.comp || Names(f.dest, 'M')) ==> r.a < RamSize
    requires f.comp == "A" ==> r.narrow
    ensures Step(rom, s) == Next(n, [])
    ensures var readsM := 'M' in f.comp;
      var v := Compute(f.comp, r.d, if readsM then r.ram[r.a] else r.a);
      var d := if Names(f.dest, 'D') then v else r.d;
      var ram := if Names(f.dest, 'M') then r.ram[r.a := v] else r.ram;
      Models(n, Regs(r.a, r.narrow, d, if JumpHolds(f.jump, SignedWord(d)) then r.a else r.pc + 1, ram))
  {
    var readsM, toD, toM := 'M' in f.comp, Names(f.dest, 'D'), Names(f.dest, 'M');
    var y := if readsM then s.ram[Val(s.a)] else s.a;
    var out;
    n, out := DoOp(rom, s, f, readsM, false, toD, toM);
    var v := Compute(f.comp, r.d, if readsM then r.ram[r.a] else r.a);
    OpValue(f.comp, s.d, y, r.d, if readsM then r.ram[r.a] else r.a);
    var d := if toD then v else r.d;
    WordBound(n.d);
    SignedWordIs(Val(n.d));
    var pc := if JumpHolds(f.jump, SignedWord(d)) then r.a else r.pc + 1;
    assert n.pc == pc;
    ModelsAfter(s, r, n, out, v, toD, toM, pc);
  }

  /** The ALU computes what `Compute` says on 64-bit D and a second operand
      that is 64 bits wide whenever it is copied. */
  lemma {:induction false} OpValue(k: string, x: Bits, y: Bits, d: nat, yv: nat)
    requires k in ArithComps || k in {"D", "A", "M"}
    requires |x| == Width && |y| >= Width && Val(x) == d && Val(y) == yv
    requires (k == "A" || k == "M") ==> |y| == Width
    ensures k in CompTable && |CompTable[k]| == 7
    ensures Val(Alu.Alu(x, y, CodeControl(CompTable[k])).out) == Compute(k, d, yv)
  {
    Powers();
    if k in ArithComps {
      CompMeaningArith(k, x, y);
    } else {
      CopyComp(k, x, y);
    }
  }

  /** Writing the computed word into D and RAM keeps the reading. */
  lemma {:induction false} ModelsAfter(s: State, r: Regs, n: State, out: Bits, v: nat, toD: bool, toM: bool, pc: nat)
    requires Models(s, r) && Valid(n) && Val(out) == v && (toM ==> r.a < RamSize)
    requires n.a == s.a && n.d == (if toD then out else s.d) && n.pc == pc
    requires n.ram == (if toM then s.ram[Val(s.a) := out] else s.ram)
    ensures Models(n, Regs(r.a, r.narrow, if toD then v else r.d, pc, if toM then r.ram[r.a := v] else r.ram))
  {
    var ram := if toM then r.ram[r.a := v] else r.ram;
    forall j | 0 <= j < RamSize
      ensures Val(n.ram[j]) == ram[j]
    {
    }
  }

  /** Every step on numbers is a quiet step of `step` from any state that
      holds those numbers. */
  ghost predicate Simulates(step: State -> StepResult, prog: seq<Instr>, p: nat)
  {
    forall s, r {:trigger step(s), MStep(prog, p, r)} :: Models(s, r) && MStep(prog, p, r).Some? ==>
      step(s).Next? && step(s).out == [] && Models(step(s).s, MStep(prog, p, r).value)
  }

  /** The machine running a loaded program simulates its steps on numbers. */
  lemma {:induction false} LoadedSimulates(rom: seq<Bits>, p: nat, prog: seq<Instr>)
    requires Loaded(rom, p, prog)
    ensures Simulates(Stepper(rom), prog, p)
  {
    forall s, r | Models(s, r) && MStep(prog, p, r).Some?
      ensures Stepper(rom)(s).Next? && Stepper(rom)(s).out == []
      ensures Models(Stepper(rom)(s).s, MStep(prog, p, r).value)
    {
      var n := Simulate(rom, p, prog, s, r);
    }
  }

  /** A run on numbers is a quiet run of any step function that simulates it. */
  lemma {:induction false} ExecSimulates(step: State -> StepResult, prog: seq<Instr>, p: nat, s: State, r: Regs, k: nat, e: Regs)
    returns (t: State)
    requires Simulates(step, prog, p) && Models(s, r) && MRun(prog, p, r, k) == Some(e)
    ensures Exec(step, s, k) == Next(t, []) && Models(t, e)
    decreases k
  {
    if k == 0 {
      t := s;
    } else {
      var r1 := SimulatesFirst(step, prog, p, s, r, k, e);
      t := ExecSimulates(step, prog, p, step(s).s, r1, k - 1, e);
      ExecCons(step, s, step(s).s, k - 1, t);
    }
  }

  /** The first of `k` steps on numbers is a quiet step of `step`. */
  lemma {:induction false} SimulatesFirst(step: State -> StepResult, prog: seq<Instr>, p: nat, s: State, r: Regs, k: nat, e: Regs)
    returns (r1: Regs)
    requires Simulates(step, prog, p) && Models(s, r) && k > 0 && MRun(prog, p, r, k) == Some(e)
    ensures step(s) == Next(step(s).s, []) && Models(step(s).s, r1) && MRun(prog, p, r1, k - 1) == Some(e)
  {
    MRunFirst(prog, p, r, k);
    r1 := MStep(prog, p, r).value;
  }

  /** `k` steps on numbers are `k` quiet steps of the CPU. */
  lemma {:induction false} Lift(rom: seq<Bits>, p: nat, prog: seq<Instr>, s: State, r: Regs, k: nat, e: Regs)
    returns (t: State)
    requires Loaded(rom, p, prog) && Models(s, r) && MRun(prog, p, r, k) == Some(e)
    ensures Reaches(rom, s, k, t) && Models(t, e)
  {
    LoadedSimulates(rom, p, prog);
    t := ExecSimulates(Stepper(rom), prog, p, s, r, k, e);
  }

  lemma {:induction false} MRunFirst(prog: seq<Instr>, p: nat, r: Regs, k: nat)
    requires k > 0 && MRun(prog, p, r, k).Some?
    ensures MStep(prog, p, r).Some? && MRun(prog, p, r, k) == MRun(prog, p, MStep(prog, p, r).value, k - 1)
  {
  }

  /** Runs on numbers compose. */
  lemma {:induction false} MRunTrans(prog: seq<Instr>, p: nat, r: Regs, i: nat, m: Regs, j: nat)
    requires MRun(prog, p, r, i) == Some(m)
    ensures MRun(prog, p, r, i + j) == MRun(prog, p, m, j)
    decreases i
  {
    if i > 0 {
      MRunTrans(prog, p, MStep(prog, p, r).value, i - 1, m, j);
    }
  }
}
