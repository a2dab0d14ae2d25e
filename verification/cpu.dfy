/** The CPU of cpu.py: a 64-bit machine with registers A and D, a program
    counter, 2^16 RAM words and a read-only program of bit strings. One step
    executes the word at `pc`; printing is returned as output tokens. */
module Cpu {
  import opened Bits
  import opened Alu

  /** The word width (cpu.py:5). */
  const Width: nat := 64

  /** The number of RAM words (cpu.py:32). */
  const RamSize: nat := 65536

  /** `int_to_bin`: the low 64 bits of `v`, in two's complement for a
      negative `v` as Python's `&` reads it. */
  function IntToBin(v: int): (r: Bits)
    ensures |r| == Width
    ensures Val(r) == v % Pow2(Width)
  {
    Fixed(v % Pow2(Width), Width)
  }

  /** `signed64`: bit 63 of `v` set means `v - 2^64`. */
  function Signed64(v: nat): int
  {
    if (v / Pow2(Width - 1)) % 2 == 1 then v - Pow2(Width) else v
  }

  /** On a 64-bit value `signed64` is the two's complement reading: in range,
      negative exactly when the leading bit is set, and equal to `v` modulo 2^64. */
  lemma {:induction false} Signed64Range(v: nat)
    requires v < Pow2(Width)
    ensures -(Pow2(Width - 1) as int) <= Signed64(v) < Pow2(Width - 1)
    ensures Signed64(v) < 0 <==> v >= Pow2(Width - 1)
    ensures Signed64(v) % Pow2(Width) == v
  {
    var h := Pow2(Width - 1);
    assert Pow2(Width) == 2 * h;
    if v < h {
      ModUnique(v, h, 0, v);
      ModUnique(v, Pow2(Width), 0, v);
    } else {
      ModUnique(v, h, 1, v - h);
      ModUnique(v - Pow2(Width), Pow2(Width), -1, v);
    }
  }

  /** Writing a signed 64-bit value and reading it back gives the value. */
  lemma {:induction false} IntToBinRoundTrip(v: int)
    requires -(Pow2(Width - 1) as int) <= v < Pow2(Width - 1)
    ensures Signed64(Val(IntToBin(v))) == v
  {
    var u := Val(IntToBin(v));
    var h := Pow2(Width - 1);
    assert Pow2(Width) == 2 * h;
    if v >= 0 {
      ModUnique(v, Pow2(Width), 0, v);
      ModUnique(v, h, 0, v);
    } else {
      ModUnique(v, Pow2(Width), -1, v + Pow2(Width));
      ModUnique(u, h, 1, u - h);
    }
  }

  /** The registers and memory. `a` can be wider than 64 bits: an A-instruction
      pads its payload to 64 bits but never truncates it. */
  datatype State = State(a: Bits, d: Bits, pc: nat, ram: seq<Bits>)

  /** D and every RAM word are 64 bits, A at least 64, RAM has 2^16 words. */
  predicate Valid(s: State)
  {
    && |s.a| >= Width && |s.d| == Width && |s.ram| == RamSize
    && forall i :: 0 <= i < |s.ram| ==> |s.ram[i]| == Width
  }

  /** `CPU(rom)`: everything zero. */
  function Init(): (s: State)
    ensures Valid(s) && s.pc == 0
    ensures Val(s.a) == 0 && Val(s.d) == 0
    ensures forall i :: 0 <= i < RamSize ==> Val(s.ram[i]) == 0
  {
    ValZeros(Width);
    State(Zeros(Width), Zeros(Width), 0, seq(RamSize, _ => Zeros(Width)))
  }

  /** What one step prints: a signed number, a character, or the final newline. */
  datatype Token = Int(n: int) | Char(c: char) | Newline

  /** A step either moves to a new state, printing `out`, or raises. */
  datatype StepResult = Next(s: State, out: seq<Token>) | Fault

  /** The jump decision of lines 76-90 on the field `jump` (the word's bits
      from 13 up to 16) and the signed value of D. */
  predicate Jumps(jump: Bits, dv: int)
  {
    || (jump == Bin("001") && dv > 0)
    || (jump == Bin("010") && dv == 0)
    || (jump == Bin("011") && dv >= 0)
    || (jump == Bin("100") && dv < 0)
    || (jump == Bin("101") && dv != 0)
    || (jump == Bin("110") && dv <= 0)
    || jump == Bin("111")
  }

  /** The printed tokens of lines 70-74 for the print field `mode` and D. */
  function Printed(mode: Bits, d: Bits): seq<Token>
  {
    if mode == Bin("01") then [Int(Signed64(Val(d)))]
    else if mode == Bin("10") then [Char((Val(d) % 256) as char)]
    else []
  }

  /** The six ALU control bits, bits 4 to 9 of a C-instruction. */
  function ControlOf(w: Bits): Control
    requires |w| >= 10
  {
    Control(w[4], w[5], w[6], w[7], w[8], w[9])
  }

  /** A C-instruction raises before any effect when it is shorter than 13
      bits (an index or unpacking error), or when it reads or writes M while
      A holds an address past the end of RAM. */
  predicate CFaults(w: Bits, s: State)
  {
    |w| < 13 || ((w[3] || w[12]) && Val(s.a) >= RamSize)
  }

  /** `step()`. The machine only ever holds well-formed states; the first
      test keeps the function total. */
  function Step(rom: seq<Bits>, s: State): (r: StepResult)
    ensures r.Next? ==> Valid(s) && Valid(r.s)
  {
    if !Valid(s) || s.pc >= |rom| || |rom[s.pc]| == 0 then Fault
    else if !rom[s.pc][0] then Next(ExecA(rom[s.pc], s), [])
    else if CFaults(rom[s.pc], s) then Fault
    else ExecC(rom[s.pc], s)
  }

  /** Lines 37-40: A takes the payload, zero-filled to 64 bits. */
  function ExecA(w: Bits, s: State): (n: State)
    requires Valid(s) && |w| >= 1
    ensures Valid(n)
  {
    s.(a := ZFill(w[1..], Width), pc := s.pc + 1)
  }

  /** Lines 42-95 for a C-instruction that does not raise. */
  function ExecC(w: Bits, s: State): (r: StepResult)
    requires Valid(s) && !CFaults(w, s)
    ensures r.Next? && Valid(r.s)
  {
    var addr := Val(s.a);
    var y := if w[3] then s.ram[addr] else s.a;
    var out := Alu.Alu(s.d, y, ControlOf(w)).out;
    var ram := if w[12] then s.ram[addr := out] else s.ram;
    var d := if w[11] then out else s.d;
    var a := if w[10] then out else s.a;
    var pc := if Jumps(JumpField(w), Signed64(Val(d))) then Val(a) else s.pc + 1;
    Next(State(a, d, pc, ram), Printed(w[1..3], d))
  }

  /** `instr[13:16]`, shorter when the word is. */
  function JumpField(w: Bits): (r: Bits)
    requires |w| >= 13
    ensures |r| <= 3
  {
    w[13..if |w| < 16 then |w| else 16]
  }

  /** An A-instruction loads its payload into A, zero-padded to 64 bits, and
      moves on; nothing else changes and nothing is printed. */
  lemma {:induction false} StepA(rom: seq<Bits>, s: State)
    requires Valid(s) && s.pc < |rom| && |rom[s.pc]| >= 1 && !rom[s.pc][0]
    ensures Step(rom, s).Next?
    ensures var n := Step(rom, s).s;
      && Val(n.a) == Val(rom[s.pc][1..])
      && |n.a| == (if |rom[s.pc]| - 1 < Width then Width else |rom[s.pc]| - 1)
      && n.d == s.d && n.ram == s.ram && n.pc == s.pc + 1
      && Step(rom, s).out == []
  {
  }

  /** A C-instruction that does not raise computes the ALU on D and either A
      or RAM[A] (bit 3), stores the result in RAM[A], D and A as bits 12, 11
      and 10 say, leaves every other RAM word alone, prints from the new D,
      and jumps to the new A when the jump field holds for the new D. */
  lemma {:induction false} StepC(rom: seq<Bits>, s: State)
    requires Valid(s) && s.pc < |rom| && |rom[s.pc]| >= 1 && rom[s.pc][0]
    ensures Step(rom, s).Fault? <==> CFaults(rom[s.pc], s)
    ensures !CFaults(rom[s.pc], s) ==>
      var w := rom[s.pc];
      var addr := Val(s.a);
      var y := if w[3] then s.ram[addr] else s.a;
      var out := Alu.Alu(s.d, y, ControlOf(w)).out;
      var n := Step(rom, s).s;
      && (n.d == if w[11] then out else s.d)
      && (n.a == if w[10] then out else s.a)
      && (w[12] ==> n.ram[addr] == out)
      && (!w[12] ==> n.ram == s.ram)
      && (forall i :: 0 <= i < RamSize && i != addr ==> n.ram[i] == s.ram[i])
      && (n.pc == if Jumps(JumpField(w), Signed64(Val(n.d))) then Val(n.a) else s.pc + 1)
      && Step(rom, s).out == Printed(w[1..3], n.d)
  {
  }

  /** Stepping past the end of the program raises; `run` never does so. */
  lemma {:induction false} StepPastEnd(rom: seq<Bits>, s: State)
    requires s.pc >= |rom|
    ensures Step(rom, s).Fault?
  {
  }

  /** How `run()` ends: the loop leaves with `pc` past the program and prints
      a newline, or a step raises (output so far kept, no newline), or the
      step budget runs out first. */
  datatype Outcome = Halted(s: State, out: seq<Token>) | Faulted(out: seq<Token>) | OutOfFuel(s: State, out: seq<Token>)

  function Emit(out: seq<Token>, o: Outcome): (r: Outcome)
    ensures r.Halted? == o.Halted? && r.Faulted? == o.Faulted? && r.OutOfFuel? == o.OutOfFuel?
    ensures r.out == out + o.out
  {
    match o
    case Halted(s, rest) => Halted(s, out + rest)
    case Faulted(rest) => Faulted(out + rest)
    case OutOfFuel(s, rest) => OutOfFuel(s, out + rest)
  }

  /** The `while pc < size` loop of `run()` over a step function, for at most
      `fuel` steps. */
  function Loop(step: State -> StepResult, size: nat, s: State, fuel: nat): (r: Outcome)
    ensures r.Halted? ==> r.s.pc >= size && |r.out| >= 1 && r.out[|r.out| - 1] == Newline
    ensures r.Faulted? ==> fuel > 0 && s.pc < size
    ensures r.OutOfFuel? ==> r.s.pc < size
    decreases fuel
  {
    if s.pc >= size then Halted(s, [Newline])
    else if fuel == 0 then OutOfFuel(s, [])
    else
      match step(s)
      case Fault => Faulted([])
      case Next(s', out) => Emit(out, Loop(step, size, s', fuel - 1))
  }

  /** The step function `run()` applies to the program `rom`. */
  function Stepper(rom: seq<Bits>): State -> StepResult
  {
    t => Step(rom, t)
  }

  /** `run()` on the program `rom` from `s`, for at most `fuel` steps. */
  function Run(rom: seq<Bits>, s: State, fuel: nat): (r: Outcome)
    ensures r.Halted? ==> r.s.pc >= |rom| && |r.out| >= 1 && r.out[|r.out| - 1] == Newline
    ensures r.OutOfFuel? ==> r.s.pc < |rom|
  {
    Loop(Stepper(rom), |rom|, s, fuel)
  }

  /** A run that ends within its budget ends the same way with any larger budget. */
  lemma {:induction false} LoopMonotone(step: State -> StepResult, size: nat, s: State, fuel: nat, more: nat)
    requires fuel <= more && !Loop(step, size, s, fuel).OutOfFuel?
    ensures Loop(step, size, s, more) == Loop(step, size, s, fuel)
    decreases fuel
  {
    if s.pc < size && step(s).Next? {
      LoopMonotone(step, size, step(s).s, fuel - 1, more - 1);
    }
  }

  lemma {:induction false} RunMonotone(rom: seq<Bits>, s: State, fuel: nat, more: nat)
    requires fuel <= more && !Run(rom, s, fuel).OutOfFuel?
    ensures Run(rom, s, more) == Run(rom, s, fuel)
  {
    LoopMonotone(Stepper(rom), |rom|, s, fuel, more);
  }

  /** Every state the loop stops in satisfies an invariant its steps keep. */
  lemma {:induction false} LoopValid(step: State -> StepResult, size: nat, s: State, fuel: nat)
    requires Valid(s)
    requires forall t :: Valid(t) && step(t).Next? ==> Valid(step(t).s)
    ensures Loop(step, size, s, fuel).Halted? ==> Valid(Loop(step, size, s, fuel).s)
    ensures Loop(step, size, s, fuel).OutOfFuel? ==> Valid(Loop(step, size, s, fuel).s)
    decreases fuel
  {
    if s.pc < size && fuel > 0 && step(s).Next? {
      LoopValid(step, size, step(s).s, fuel - 1);
    }
  }

  /** A run from a well-formed state stops in a well-formed state. */
  lemma {:induction false} RunValid(rom: seq<Bits>, s: State, fuel: nat)
    requires Valid(s)
    ensures Run(rom, s, fuel).Halted? ==> Valid(Run(rom, s, fuel).s)
    ensures Run(rom, s, fuel).OutOfFuel? ==> Valid(Run(rom, s, fuel).s)
  {
    LoopValid(Stepper(rom), |rom|, s, fuel);
  }

  /** A step that continues contributes its output ahead of the rest of the run. */
  lemma {:induction false} RunStep(rom: seq<Bits>, s: State, fuel: nat)
    requires s.pc < |rom| && fuel > 0 && Step(rom, s).Next?
    ensures Run(rom, s, fuel) == Emit(Step(rom, s).out, Run(rom, Step(rom, s).s, fuel - 1))
  {
  }
}
