/** The two-pass assembler of assembler.py: mnemonic text in, one bit string per
    instruction out. Pass 1 records every label at the count of instructions
    before it; pass 2 encodes `@symbol` lines and C-instruction lines. */
module Assembler {
  import opened Bits
  import opened Text
  import opened Results

  /** The predefined symbols (assembler.py:1-7). A single `assemble` call starts
      from exactly these. */
  const Predefined: map<string, nat> := map[
    "SP" := 0, "LCL" := 1, "ARG" := 2, "THIS" := 3, "THAT" := 4,
    "R0" := 0, "R1" := 1, "R2" := 2, "R3" := 3, "R4" := 4,
    "R5" := 5, "R6" := 6, "R7" := 7, "R8" := 8, "R9" := 9,
    "R10" := 10, "R11" := 11, "R12" := 12, "R13" := 13, "R14" := 14, "R15" := 15,
    "SCREEN" := 16384, "KBD" := 24576]

  /** The two print bits; the Hack "11" prefix means no print. */
  const PrintTable: map<string, Bits> := map[
    "PRINT" := Bin("01"), "PRINT_CHAR" := Bin("10"), "NO_PRINT" := Bin("11")]

  /** The a-bit followed by zx, nx, zy, ny, f, no. */
  const CompTable: map<string, Bits> := map[
    "0" := Bin("0101010"), "1" := Bin("0111111"), "-1" := Bin("0111010"),
    "D" := Bin("0001100"), "A" := Bin("0110000"), "M" := Bin("1110000"),
    "!D" := Bin("0001101"), "!A" := Bin("0110001"), "!M" := Bin("1110001"),
    "-D" := Bin("0001111"), "-A" := Bin("0110011"), "-M" := Bin("1110011"),
    "D+1" := Bin("0011111"), "A+1" := Bin("0110111"), "M+1" := Bin("1110111"),
    "D-1" := Bin("0001110"), "A-1" := Bin("0110010"), "M-1" := Bin("1110010"),
    "D+A" := Bin("0000010"), "D+M" := Bin("1000010"), "D-A" := Bin("0010011"), "D-M" := Bin("1010011"),
    "A-D" := Bin("0000111"), "M-D" := Bin("1000111"), "D&A" := Bin("0000000"), "D&M" := Bin("1000000"),
    "D|A" := Bin("0010101"), "D|M" := Bin("1010101")]

  /** The A, D and M write bits; `None` is a line without `=`. */
  const DestTable: map<Option<string>, Bits> := map[
    None := Bin("000"), Some("M") := Bin("001"), Some("D") := Bin("010"), Some("MD") := Bin("011"),
    Some("A") := Bin("100"), Some("AM") := Bin("101"), Some("AD") := Bin("110"), Some("AMD") := Bin("111")]

  /** The jump conditions; `None` is a line without `;`. */
  const JumpTable: map<Option<string>, Bits> := map[
    None := Bin("000"), Some("JGT") := Bin("001"), Some("JEQ") := Bin("010"), Some("JGE") := Bin("011"),
    Some("JLT") := Bin("100"), Some("JNE") := Bin("101"), Some("JLE") := Bin("110"), Some("JMP") := Bin("111")]

  /** Every code in each table has its field's width, so an encoded
      C-instruction is 1 + 2 + 7 + 3 + 3 = 16 bits. */
  lemma {:induction false} TableWidths()
    ensures forall k :: k in PrintTable ==> |PrintTable[k]| == 2
    ensures forall k :: k in CompTable ==> |CompTable[k]| == 7
    ensures forall k :: k in DestTable ==> |DestTable[k]| == 3
    ensures forall k :: k in JumpTable ==> |JumpTable[k]| == 3
  {
    CompWidths();
  }

  lemma {:induction false} CompWidths()
    ensures forall k :: k in CompTable ==> |CompTable[k]| == 7
  {
  }

  // ---------------------------------------------------------------------------
  // Cleaning (assembler.py:36-38)

  /** One raw line: the text before the first `//`, stripped. */
  function CleanLine(raw: string): string
  {
    Strip(Split(raw, "//")[0])
  }

  predicate Kept(line: string)
  {
    !StartsWith(line, "//") && Strip(line) != ""
  }

  /** A cleaned line is non-empty, carries no surrounding whitespace and no `//`. */
  predicate IsClean(line: string)
  {
    line != "" && !IsSpace(line[0]) && !IsSpace(line[|line| - 1]) && NoComment(line)
  }

  /** No two adjacent slashes. */
  predicate NoComment(line: string)
  {
    forall j :: 0 <= j < |line| - 1 ==> !(line[j] == '/' && line[j + 1] == '/')
  }

  lemma {:induction false} NoCommentIff(s: string)
    ensures NoComment(s) <==> !Contains(s, "//")
  {
    if Contains(s, "//") {
      var j := Find(s, "//").value;
      assert s[j..j + 2][0] == s[j] && s[j..j + 2][1] == s[j + 1];
    } else {
      forall j | 0 <= j < |s| - 1
        ensures !(s[j] == '/' && s[j + 1] == '/')
      {
        if s[j] == '/' && s[j + 1] == '/' {
          assert s[j..j + 2] == "//";
          assert OccursAt(s, "//", j);
        }
      }
    }
  }

  /** The same in the terms the source uses: `strip()` leaves the line alone
      and `//` does not occur in it. */
  lemma {:induction false} IsCleanIff(line: string)
    ensures IsClean(line) <==> line != "" && Strip(line) == line && !Contains(line, "//")
  {
    NoCommentIff(line);
  }

  /** The lines both passes read: comments cut off, blank lines dropped. */
  function CleanLines(raw: seq<string>): (r: seq<string>)
    ensures |r| <= |raw|
  {
    if |raw| == 0 then [] else
      var line := CleanLine(raw[0]);
      (if Kept(line) then [line] else []) + CleanLines(raw[1..])
  }

  /** Every line the cleaning keeps is clean. */
  lemma {:induction false} CleanLinesClean(raw: seq<string>)
    ensures forall i :: 0 <= i < |CleanLines(raw)| ==> IsClean(CleanLines(raw)[i])
    decreases |raw|
  {
    if |raw| > 0 {
      var line := CleanLine(raw[0]);
      var rest := CleanLines(raw[1..]);
      CleanLineClean(raw[0]);
      CleanLinesClean(raw[1..]);
      var r := CleanLines(raw);
      assert r == (if Kept(line) then [line] else []) + rest;
      forall i | 0 <= i < |r|
        ensures IsClean(r[i])
      {
        if !Kept(line) {
          assert r[i] == rest[i];
        } else if i > 0 {
          assert r[i] == rest[i - 1];
        }
      }
    }
  }

  lemma {:induction false} CleanLineClean(raw: string)
    ensures !Contains(CleanLine(raw), "//") && Strip(CleanLine(raw)) == CleanLine(raw)
    ensures Kept(CleanLine(raw)) ==> IsClean(CleanLine(raw))
  {
    var before := Split(raw, "//")[0];
    assert !Contains(before, "//");
    StrippedClean(before);
  }

  /** Stripping a text without `//` leaves a clean line, or nothing. */
  lemma {:induction false} StrippedClean(before: string)
    requires !Contains(before, "//")
    ensures !Contains(Strip(before), "//") && Strip(Strip(before)) == Strip(before)
    ensures Kept(Strip(before)) ==> IsClean(Strip(before))
  {
    var a := StripIsSlice(before);
    NoSeparatorInSlice(before, "//", a, Strip(before));
    StripStrip(before);
    IsCleanIff(Strip(before));
  }

  /** Lines that are already clean pass the cleaning unchanged. */
  lemma {:induction false} CleanLinesOfClean(lines: seq<string>)
    requires forall i :: 0 <= i < |lines| ==> IsClean(lines[i])
    ensures CleanLines(lines) == lines
    decreases |lines|
  {
    if |lines| > 0 {
      CleanLineOfClean(lines[0]);
      assert CleanLines(lines) == [lines[0]] + CleanLines(lines[1..]);
      forall i | 0 <= i < |lines| - 1
        ensures IsClean(lines[1..][i])
      {
        assert lines[1..][i] == lines[i + 1];
      }
      CleanLinesOfClean(lines[1..]);
      assert lines == [lines[0]] + lines[1..];
    }
  }

  lemma {:induction false} CleanLineOfClean(line: string)
    requires IsClean(line)
    ensures CleanLine(line) == line && Kept(line)
  {
    IsCleanIff(line);
    assert Find(line, "//").None?;
    assert Split(line, "//") == [line];
    assert !OccursAt(line, "//", 0);
  }

  /** A piece of a text without `sep` has no `sep` either. */
  lemma {:induction false} NoSeparatorInSlice(s: string, sep: string, a: nat, t: string)
    requires |sep| >= 1 && !Contains(s, sep)
    requires a + |t| <= |s| && t == s[a..a + |t|]
    ensures !Contains(t, sep)
  {
    if Contains(t, sep) {
      var j := Find(t, sep).value;
      SliceOfSlice(s, a, a + |t|, j, j + |sep|);
      assert OccursAt(s, sep, a + j);
    }
  }

  lemma SliceOfSlice(s: string, a: nat, b: nat, i: nat, k: nat)
    requires a <= b <= |s| && i <= k <= b - a
    ensures s[a..b][i..k] == s[a + i..a + k]
  {
    var t := s[a..b];
    assert |t[i..k]| == k - i == |s[a + i..a + k]|;
    forall j | 0 <= j < k - i
      ensures t[i..k][j] == s[a + i..a + k][j]
    {
      assert t[i..k][j] == t[i + j] == s[a + i + j];
    }
  }

  // ---------------------------------------------------------------------------
  // Pass 1 (assembler.py:40-47)

  /** A line that pass 1 reads as a label definition. */
  predicate IsLabelDef(line: string)
  {
    StartsWith(line, "(") && EndsWith(line, ")")
  }

  function LabelName(line: string): string
    requires IsLabelDef(line)
  {
    assert line[..1][0] == '(' && line[|line| - 1..][0] == ')';
    line[1..|line| - 1]
  }

  /** The number of lines pass 1 counts as instructions. */
  function CountInstr(lines: seq<string>): nat
  {
    if |lines| == 0 then 0
    else CountInstr(lines[..|lines| - 1]) + (if IsLabelDef(lines[|lines| - 1]) then 0 else 1)
  }

  /** Pass 1 from ROM address `rom` on, a later definition overriding an earlier one. */
  function CollectLabels(lines: seq<string>, rom: nat, labels: map<string, nat>): map<string, nat>
  {
    if |lines| == 0 then labels
    else if IsLabelDef(lines[0]) then CollectLabels(lines[1..], rom, labels[LabelName(lines[0]) := rom])
    else CollectLabels(lines[1..], rom + 1, labels)
  }

  /** `lines[i]` is the last definition of label `name`. */
  predicate LastDefinition(lines: seq<string>, i: nat, name: string)
  {
    && i < |lines| && IsLabelDef(lines[i]) && LabelName(lines[i]) == name
    && forall j :: i < j < |lines| && IsLabelDef(lines[j]) ==> LabelName(lines[j]) != name
  }

  predicate Defines(lines: seq<string>, name: string)
  {
    exists i :: 0 <= i < |lines| && IsLabelDef(lines[i]) && LabelName(lines[i]) == name
  }

  lemma {:induction false} CountInstrCons(line: string, rest: seq<string>)
    ensures CountInstr([line] + rest) == (if IsLabelDef(line) then 0 else 1) + CountInstr(rest)
    decreases |rest|
  {
    var s := [line] + rest;
    if |rest| > 0 {
      assert s[..|s| - 1] == [line] + rest[..|rest| - 1];
      CountInstrCons(line, rest[..|rest| - 1]);
    }
  }

  lemma {:induction false} DefinesCons(lines: seq<string>, name: string)
    requires |lines| > 0
    ensures Defines(lines, name) <==>
      (IsLabelDef(lines[0]) && LabelName(lines[0]) == name) || Defines(lines[1..], name)
  {
    var rest := lines[1..];
    if Defines(rest, name) {
      var i :| 0 <= i < |rest| && IsLabelDef(rest[i]) && LabelName(rest[i]) == name;
      assert lines[i + 1] == rest[i];
    }
    if Defines(lines, name) && !(IsLabelDef(lines[0]) && LabelName(lines[0]) == name) {
      var i :| 0 <= i < |lines| && IsLabelDef(lines[i]) && LabelName(lines[i]) == name;
      assert i > 0 && rest[i - 1] == lines[i];
    }
  }

  /** Pass 1 knows exactly the labels defined somewhere in the lines, and
      leaves the entries for other names as they were. */
  lemma {:induction false} CollectLabelsKeys(lines: seq<string>, rom: nat, labels: map<string, nat>)
    ensures forall name :: name in CollectLabels(lines, rom, labels) <==> name in labels || Defines(lines, name)
    ensures forall name :: name in labels && !Defines(lines, name) ==>
      CollectLabels(lines, rom, labels)[name] == labels[name]
    decreases |lines|
  {
    if |lines| > 0 {
      var l := lines[0];
      var rom' := if IsLabelDef(l) then rom else rom + 1;
      var labels' := if IsLabelDef(l) then labels[LabelName(l) := rom] else labels;
      CollectLabelsKeys(lines[1..], rom', labels');
      forall name {
        DefinesCons(lines, name);
      }
    }
  }

  /** Pass 1 maps a label to its starting ROM address plus the number of
      instruction lines before the label's last definition. */
  lemma {:induction false} CollectLabelsSpec(lines: seq<string>, rom: nat, labels: map<string, nat>, i: nat, name: string)
    requires LastDefinition(lines, i, name)
    ensures name in CollectLabels(lines, rom, labels)
    ensures CollectLabels(lines, rom, labels)[name] == rom + CountInstr(lines[..i])
    decreases |lines|
  {
    var l, rest := lines[0], lines[1..];
    var rom' := if IsLabelDef(l) then rom else rom + 1;
    var labels' := if IsLabelDef(l) then labels[LabelName(l) := rom] else labels;
    assert CollectLabels(lines, rom, labels) == CollectLabels(rest, rom', labels');
    if i == 0 {
      forall j | 0 <= j < |rest| && IsLabelDef(rest[j]) ensures LabelName(rest[j]) != name {
        assert rest[j] == lines[j + 1];
      }
      CollectLabelsKeys(rest, rom', labels');
      assert lines[..0] == [];
    } else {
      assert LastDefinition(rest, i - 1, name) by {
        forall j | i - 1 < j < |rest| && IsLabelDef(rest[j]) ensures LabelName(rest[j]) != name {
          assert rest[j] == lines[j + 1];
        }
      }
      CollectLabelsSpec(rest, rom', labels', i - 1, name);
      assert lines[..i] == [l] + rest[..i - 1];
      CountInstrCons(l, rest[..i - 1]);
    }
  }

  // ---------------------------------------------------------------------------
  // Symbols (assembler.py:50, 58-69)

  /** The symbol table as pass 2 grows it, and the next fresh address. */
  datatype Symbols = Symbols(table: map<string, nat>, next: nat)

  /** Pass 2 starts from the predefined table and hands out fresh addresses from 1. */
  const InitialSymbols := Symbols(Predefined, 1)

  /** `@symbol`: a decimal literal, else a label, else a known symbol, else a
      fresh address that is recorded for later references. */
  function Resolve(sym: string, labels: map<string, nat>, st: Symbols): (nat, Symbols)
  {
    if IsDigits(sym) then (DigitsVal(sym), st)
    else if sym in labels then (labels[sym], st)
    else if sym in st.table then (st.table[sym], st)
    else (st.next, Symbols(st.table[sym := st.next], st.next + 1))
  }

  /** A symbol that pass 2 treats as a variable: no literal, label or predefined name. */
  predicate IsVariable(sym: string, labels: map<string, nat>)
  {
    !IsDigits(sym) && sym !in labels && sym !in Predefined
  }

  /** The distinct variables of `syms` in order of first reference, after those of `seen`. */
  function FreshOrder(syms: seq<string>, labels: map<string, nat>, seen: seq<string>): seq<string>
  {
    if |syms| == 0 then seen
    else FreshOrder(syms[1..], labels,
           if IsVariable(syms[0], labels) && syms[0] !in seen then seen + [syms[0]] else seen)
  }

  function IndexOf(s: seq<string>, x: string): (i: nat)
    requires x in s
    ensures i < |s| && s[i] == x
    ensures forall j :: 0 <= j < i ==> s[j] != x
  {
    if s[0] == x then 0 else 1 + IndexOf(s[1..], x)
  }

  predicate NoDup(s: seq<string>)
  {
    forall i, j :: 0 <= i < j < |s| ==> s[i] != s[j]
  }

  /** The address a reference to `sym` stands for once the variables are
      numbered in `order`: its literal value, else its label, else its
      predefined address, else its position in `order` counted from 1. */
  predicate ResolvesTo(sym: string, labels: map<string, nat>, order: seq<string>, addr: nat)
  {
    if IsDigits(sym) then addr == DigitsVal(sym)
    else if sym in labels then addr == labels[sym]
    else if sym in Predefined then addr == Predefined[sym]
    else sym in order && addr == 1 + IndexOf(order, sym)
  }

  /** The symbol table holds the predefined names plus the variables of
      `order`, the k-th of them at address k + 1. */
  ghost predicate TableFor(st: Symbols, labels: map<string, nat>, order: seq<string>)
  {
    && NoDup(order)
    && (forall i :: 0 <= i < |order| ==> IsVariable(order[i], labels))
    && st.next == |order| + 1
    && (forall k :: k in st.table <==> k in Predefined || k in order)
    && (forall k :: k in Predefined ==> st.table[k] == Predefined[k])
    && (forall i :: 0 <= i < |order| ==> st.table[order[i]] == i + 1)
  }

  /** `order` after one more reference to `sym`. */
  function NoteFresh(order: seq<string>, sym: string, labels: map<string, nat>): seq<string>
  {
    if IsVariable(sym, labels) && sym !in order then order + [sym] else order
  }

  /** One reference resolves to the address it stands for and keeps the table
      in step with the numbering. */
  lemma {:induction false} ResolveStep(sym: string, labels: map<string, nat>, st: Symbols, order: seq<string>)
    requires TableFor(st, labels, order)
    ensures TableFor(Resolve(sym, labels, st).1, labels, NoteFresh(order, sym, labels))
    ensures ResolvesTo(sym, labels, NoteFresh(order, sym, labels), Resolve(sym, labels, st).0)
  {
    if IsVariable(sym, labels) {
      if sym in order {
        var i := IndexOf(order, sym);
        assert st.table[order[i]] == i + 1;
      } else {
        ResolveFresh(sym, labels, st, order);
      }
    }
  }

  /** The first reference to a variable gives it the next address. */
  lemma {:induction false} ResolveFresh(sym: string, labels: map<string, nat>, st: Symbols, order: seq<string>)
    requires TableFor(st, labels, order) && IsVariable(sym, labels) && sym !in order
    ensures TableFor(Resolve(sym, labels, st).1, labels, order + [sym])
    ensures ResolvesTo(sym, labels, order + [sym], Resolve(sym, labels, st).0)
  {
    var order' := order + [sym];
    assert IndexOf(order', sym) == |order|;
    var st' := Resolve(sym, labels, st).1;
    assert st' == Symbols(st.table[sym := st.next], st.next + 1);
    forall i | 0 <= i < |order'| ensures st'.table[order'[i]] == i + 1 {
      if i < |order| {
        assert order'[i] == order[i];
      }
    }
  }

  /** A reference keeps its meaning when later variables are numbered after it. */
  lemma {:induction false} ResolvesToStable(sym: string, labels: map<string, nat>, seen: seq<string>, order: seq<string>, addr: nat)
    requires ResolvesTo(sym, labels, seen, addr)
    requires |seen| <= |order| && order[..|seen|] == seen && NoDup(order)
    ensures ResolvesTo(sym, labels, order, addr)
  {
    if IsVariable(sym, labels) {
      var k := IndexOf(seen, sym);
      assert order[k] == seen[k];
      var k' := IndexOf(order, sym);
      assert k' <= k;
    }
  }

  /** Resolves a run of `@` references in order. */
  function ResolveAll(syms: seq<string>, labels: map<string, nat>, st: Symbols): (r: (seq<nat>, Symbols))
    ensures |r.0| == |syms|
  {
    if |syms| == 0 then ([], st)
    else
      var (a, st') := Resolve(syms[0], labels, st);
      var (rest, st'') := ResolveAll(syms[1..], labels, st');
      ([a] + rest, st'')
  }

  lemma {:induction false} FreshOrderGrows(syms: seq<string>, labels: map<string, nat>, seen: seq<string>)
    ensures |seen| <= |FreshOrder(syms, labels, seen)|
    ensures FreshOrder(syms, labels, seen)[..|seen|] == seen
    decreases |syms|
  {
    if |syms| > 0 {
      var seen' := NoteFresh(seen, syms[0], labels);
      FreshOrderGrows(syms[1..], labels, seen');
      var out := FreshOrder(syms, labels, seen);
      assert out[..|seen|] == out[..|seen'|][..|seen|];
    }
  }

  lemma {:induction false} FreshOrderNoDup(syms: seq<string>, labels: map<string, nat>, seen: seq<string>)
    requires NoDup(seen)
    ensures NoDup(FreshOrder(syms, labels, seen))
    decreases |syms|
  {
    if |syms| > 0 {
      FreshOrderNoDup(syms[1..], labels, NoteFresh(seen, syms[0], labels));
    }
  }

  /** Every reference resolves to the address it stands for, the variables
      being numbered 1, 2, 3, ... in order of first reference. */
  lemma {:induction false} ResolveAllSpec(syms: seq<string>, labels: map<string, nat>, st: Symbols, seen: seq<string>)
    requires TableFor(st, labels, seen)
    ensures TableFor(ResolveAll(syms, labels, st).1, labels, FreshOrder(syms, labels, seen))
    ensures forall i :: 0 <= i < |syms| ==>
      ResolvesTo(syms[i], labels, FreshOrder(syms, labels, seen), ResolveAll(syms, labels, st).0[i])
    decreases |syms|
  {
    if |syms| > 0 {
      var sym := syms[0];
      var seen' := NoteFresh(seen, sym, labels);
      var (a, st') := Resolve(sym, labels, st);
      ResolveStep(sym, labels, st, seen);
      ResolveAllSpec(syms[1..], labels, st', seen');
      FreshOrderGrows(syms[1..], labels, seen');
      var order := FreshOrder(syms, labels, seen);
      assert order == FreshOrder(syms[1..], labels, seen');
      var out := ResolveAll(syms, labels, st).0;
      assert out == [a] + ResolveAll(syms[1..], labels, st').0;
      ResolvesToStable(sym, labels, seen', order, a);
      forall i | 0 < i < |syms| ensures ResolvesTo(syms[i], labels, order, out[i]) {
        assert syms[1..][i - 1] == syms[i];
      }
    }
  }

  /** From the initial table the first distinct variable gets address 1, the
      next 2, and so on; repeated references agree, and distinct variables
      never share an address. */
  lemma {:induction false} FreshAddresses(syms: seq<string>, labels: map<string, nat>)
    ensures var order := FreshOrder(syms, labels, []);
      && NoDup(order)
      && forall i :: 0 <= i < |syms| && IsVariable(syms[i], labels) ==>
           syms[i] in order && ResolveAll(syms, labels, InitialSymbols).0[i] == 1 + IndexOf(order, syms[i])
    ensures forall i, j :: 0 <= i < |syms| && 0 <= j < |syms| && syms[i] == syms[j] ==>
      ResolveAll(syms, labels, InitialSymbols).0[i] == ResolveAll(syms, labels, InitialSymbols).0[j]
    ensures forall i, j ::
      (0 <= i < |syms| && 0 <= j < |syms| && syms[i] != syms[j] &&
       IsVariable(syms[i], labels) && IsVariable(syms[j], labels)) ==>
      ResolveAll(syms, labels, InitialSymbols).0[i] != ResolveAll(syms, labels, InitialSymbols).0[j]
  {
    assert TableFor(InitialSymbols, labels, []);
    ResolveAllSpec(syms, labels, InitialSymbols, []);
  }

  // ---------------------------------------------------------------------------
  // Encoding (assembler.py:70-98)

  /** `f"0{addr:015b}"`: a zero, then the binary digits of `addr` padded to 15;
      wider addresses are not rejected and give a longer word. */
  function EncodeA(addr: nat): (w: Bits)
    ensures |w| >= 16 && !w[0]
    ensures Val(w[1..]) == addr
    ensures |w| == 16 <==> addr < Pow2(15)
  {
    BinaryFits(addr, 15);
    [false] + ZFill(Binary(addr), 15)
  }

  /** The four mnemonics of a C-instruction line. */
  datatype CFields = CFields(mode: string, dest: Option<string>, comp: string, jump: Option<string>)

  /** Lines 72-91: splitting a C-instruction line into its mnemonics. The
      `=` test looks at the text after the print token but the split is of
      the whole line, as in the source. */
  function SplitFields(line: string): Result<CFields>
  {
    var pe :-
      if StartsWith(line, "PRINT") then
        var parts := SplitOnce(line, " ");
        if |parts| != 2 then Err(Unpack(line)) else Ok((Strip(parts[0]), Strip(parts[1])))
      else Ok(("NO_PRINT", line));
    var dc :-
      if Contains(pe.1, "=") then
        var parts := Split(line, "=");
        if |parts| != 2 then Err(Unpack(line)) else Ok((Some(Strip(parts[0])), parts[1]))
      else Ok((None, pe.1));
    var cj :-
      if Contains(dc.1, ";") then
        var parts := Split(dc.1, ";");
        if |parts| != 2 then Err(Unpack(line)) else Ok((Strip(parts[0]), Some(Strip(parts[1]))))
      else Ok((Strip(dc.1), None));
    Ok(CFields(pe.0, dc.0, cj.0, cj.1))
  }

  function OptText(k: Option<string>): string
  {
    if k.Some? then k.value else "None"
  }

  /** Lines 93-97: the four table lookups, in the source's order, then the word. */
  function EncodeFields(f: CFields): Result<Bits>
  {
    if f.mode !in PrintTable then Err(UnknownKey("print", f.mode))
    else if f.comp !in CompTable then Err(UnknownKey("comp", f.comp))
    else if f.dest !in DestTable then Err(UnknownKey("dest", OptText(f.dest)))
    else if f.jump !in JumpTable then Err(UnknownKey("jump", OptText(f.jump)))
    else Ok([true] + PrintTable[f.mode] + CompTable[f.comp] + DestTable[f.dest] + JumpTable[f.jump])
  }

  function EncodeC(line: string): Result<Bits>
  {
    var f :- SplitFields(line);
    EncodeFields(f)
  }

  /** A C-instruction word is a one, then print(2), comp(7), dest(3) and
      jump(3): 16 bits; a mnemonic missing from its table is a failure. */
  lemma {:induction false} EncodeCLayout(line: string)
    ensures EncodeC(line).Ok? <==>
      && SplitFields(line).Ok?
      && var f := SplitFields(line).value;
         f.mode in PrintTable && f.comp in CompTable && f.dest in DestTable && f.jump in JumpTable
    ensures EncodeC(line).Ok? ==>
      var w := EncodeC(line).value;
      var f := SplitFields(line).value;
      && |w| == 16 && w[0]
      && w[1..3] == PrintTable[f.mode] && w[3..10] == CompTable[f.comp]
      && w[10..13] == DestTable[f.dest] && w[13..16] == JumpTable[f.jump]
  {
    var r := SplitFields(line);
    if r.Ok? {
      assert EncodeC(line) == EncodeFields(r.value);
      EncodeFieldsLayout(r.value);
    }
  }

  lemma {:induction false} EncodeFieldsLayout(f: CFields)
    ensures EncodeFields(f).Ok? <==> f.mode in PrintTable && f.comp in CompTable && f.dest in DestTable && f.jump in JumpTable
    ensures EncodeFields(f).Ok? ==>
      var w := EncodeFields(f).value;
      && |w| == 16 && w[0]
      && w[1..3] == PrintTable[f.mode] && w[3..10] == CompTable[f.comp]
      && w[10..13] == DestTable[f.dest] && w[13..16] == JumpTable[f.jump]
  {
    TableWidths();
  }

  // ---------------------------------------------------------------------------
  // Pass 2 and the whole call (assembler.py:35-99)

  /** Pass 2 over the cleaned lines: lines starting with `(` are skipped,
      `@` lines are resolved and encoded, the rest go through `encodeC`, which
      `Assemble` sets to `EncodeC`. Keeping the C-line encoder a parameter
      lets the pass be reasoned about apart from the table contents. */
  function Translate(lines: seq<string>, labels: map<string, nat>, st: Symbols, encodeC: string -> Result<Bits>): Result<seq<Bits>>
  {
    if |lines| == 0 then Ok([])
    else
      var line := lines[0];
      if StartsWith(line, "(") then Translate(lines[1..], labels, st, encodeC)
      else if StartsWith(line, "@") then
        var (addr, st') := Resolve(line[1..], labels, st);
        var rest :- Translate(lines[1..], labels, st', encodeC);
        Ok([EncodeA(addr)] + rest)
      else
        var w :- encodeC(line);
        var rest :- Translate(lines[1..], labels, st, encodeC);
        Ok([w] + rest)
  }

  /** `assemble(asm_code)`. */
  function Assemble(code: string): Result<seq<Bits>>
  {
    var lines := CleanLines(Split(code, "\n"));
    Translate(lines, CollectLabels(lines, 0, map[]), InitialSymbols, EncodeC)
  }

  /** The lines pass 2 emits a word for. */
  function InstrLines(lines: seq<string>): seq<string>
  {
    if |lines| == 0 then []
    else (if StartsWith(lines[0], "(") then [] else [lines[0]]) + InstrLines(lines[1..])
  }

  /** The symbols of the `@` lines among `lines`, in order. */
  function ASymbols(lines: seq<string>): seq<string>
  {
    if |lines| == 0 then []
    else (if !StartsWith(lines[0], "(") && StartsWith(lines[0], "@") then [lines[0][1..]] else []) + ASymbols(lines[1..])
  }

  lemma {:induction false} InstrLinesAppend(a: seq<string>, b: seq<string>)
    ensures InstrLines(a + b) == InstrLines(a) + InstrLines(b)
    decreases |a|
  {
    if |a| > 0 {
      assert (a + b)[1..] == a[1..] + b;
      InstrLinesAppend(a[1..], b);
    } else {
      assert a + b == b;
    }
  }

  /** Every line that pass 2 skips is a label definition pass 1 counted. */
  predicate LabelsClosed(lines: seq<string>)
  {
    forall i :: 0 <= i < |lines| && StartsWith(lines[i], "(") ==> EndsWith(lines[i], ")")
  }

  /** When the skipped lines are exactly the label definitions, pass 1 counts
      as many instructions as pass 2 emits words. */
  lemma {:induction false} CountInstrWords(lines: seq<string>)
    requires LabelsClosed(lines)
    ensures CountInstr(lines) == |InstrLines(lines)|
    decreases |lines|
  {
    if |lines| > 0 {
      var init, last := lines[..|lines| - 1], lines[|lines| - 1];
      assert lines == init + [last];
      assert LabelsClosed(init) by {
        forall i | 0 <= i < |init| && StartsWith(init[i], "(") ensures EndsWith(init[i], ")") {
          assert init[i] == lines[i];
        }
      }
      CountInstrWords(init);
      InstrLinesAppend(init, [last]);
    }
  }

  /** A label stands for the address of the word emitted right after its
      last definition: the number of words pass 2 emits before that line. */
  lemma {:induction false} LabelAddress(lines: seq<string>, i: nat, name: string)
    requires LabelsClosed(lines) && LastDefinition(lines, i, name)
    ensures name in CollectLabels(lines, 0, map[])
    ensures CollectLabels(lines, 0, map[])[name] == |InstrLines(lines[..i])|
    ensures InstrLines(lines) == InstrLines(lines[..i]) + InstrLines(lines[i + 1..])
  {
    CollectLabelsSpec(lines, 0, map[], i, name);
    assert LabelsClosed(lines[..i]) by {
      forall j | 0 <= j < i && StartsWith(lines[..i][j], "(") ensures EndsWith(lines[..i][j], ")") {
        assert lines[..i][j] == lines[j];
      }
    }
    CountInstrWords(lines[..i]);
    assert lines == lines[..i] + [lines[i]] + lines[i + 1..];
    InstrLinesAppend(lines[..i] + [lines[i]], lines[i + 1..]);
    InstrLinesAppend(lines[..i], [lines[i]]);
    assert InstrLines([lines[i]]) == [];
  }

  /** Word `w` is what pass 2 emits for `line` with the variables numbered in
      `order`: for an `@` line the A-instruction of the address the symbol
      stands for, otherwise the line's C-instruction encoding. */
  predicate EncodesLine(line: string, labels: map<string, nat>, order: seq<string>, encodeC: string -> Result<Bits>, w: Bits)
  {
    if StartsWith(line, "@") then
      |w| >= 1 && w == EncodeA(Val(w[1..])) && ResolvesTo(line[1..], labels, order, Val(w[1..]))
    else encodeC(line) == Ok(w)
  }

  /** Pass 2 skips a line starting with `(`. */
  lemma {:induction false} TranslateSkip(lines: seq<string>, labels: map<string, nat>, st: Symbols, encodeC: string -> Result<Bits>)
    requires |lines| > 0 && StartsWith(lines[0], "(")
    ensures Translate(lines, labels, st, encodeC) == Translate(lines[1..], labels, st, encodeC)
  {
  }

  /** Pass 2 on an `@` line: its A-instruction, then the rest with the grown table. */
  lemma {:induction false} TranslateA(lines: seq<string>, labels: map<string, nat>, st: Symbols, encodeC: string -> Result<Bits>)
    requires |lines| > 0 && !StartsWith(lines[0], "(") && StartsWith(lines[0], "@")
    ensures var r := Resolve(lines[0][1..], labels, st);
      && (Translate(lines, labels, st, encodeC).Ok? <==> Translate(lines[1..], labels, r.1, encodeC).Ok?)
      && (Translate(lines, labels, st, encodeC).Ok? ==>
            Translate(lines, labels, st, encodeC).value == [EncodeA(r.0)] + Translate(lines[1..], labels, r.1, encodeC).value)
  {
  }

  /** Pass 2 on a C-instruction line: its encoding, then the rest. */
  lemma {:induction false} TranslateC(lines: seq<string>, labels: map<string, nat>, st: Symbols, encodeC: string -> Result<Bits>)
    requires |lines| > 0 && !StartsWith(lines[0], "(") && !StartsWith(lines[0], "@")
    ensures Translate(lines, labels, st, encodeC).Ok? <==>
      encodeC(lines[0]).Ok? && Translate(lines[1..], labels, st, encodeC).Ok?
    ensures Translate(lines, labels, st, encodeC).Ok? ==>
      Translate(lines, labels, st, encodeC).value == [encodeC(lines[0]).value] + Translate(lines[1..], labels, st, encodeC).value
  {
  }

  /** The lines pass 2 emits a word for, after the first line. */
  lemma {:induction false} InstrLinesCons(lines: seq<string>)
    requires |lines| > 0
    ensures InstrLines(lines) == (if StartsWith(lines[0], "(") then [] else [lines[0]]) + InstrLines(lines[1..])
    ensures ASymbols(lines) ==
      (if !StartsWith(lines[0], "(") && StartsWith(lines[0], "@") then [lines[0][1..]] else []) + ASymbols(lines[1..])
  {
  }

  /** Every C-instruction line among `il` encodes. */
  predicate AllEncode(il: seq<string>, encodeC: string -> Result<Bits>)
  {
    forall k :: 0 <= k < |il| && !StartsWith(il[k], "@") ==> encodeC(il[k]).Ok?
  }

  lemma {:induction false} AllEncodeCons(line: string, il: seq<string>, encodeC: string -> Result<Bits>)
    ensures AllEncode([line] + il, encodeC) <==>
      (!StartsWith(line, "@") ==> encodeC(line).Ok?) && AllEncode(il, encodeC)
  {
    var s := [line] + il;
    if AllEncode(s, encodeC) {
      assert s[0] == line;
      forall k | 0 <= k < |il| && !StartsWith(il[k], "@") ensures encodeC(il[k]).Ok? {
        assert s[k + 1] == il[k];
      }
    }
    if (!StartsWith(line, "@") ==> encodeC(line).Ok?) && AllEncode(il, encodeC) {
      forall k | 0 <= k < |s| && !StartsWith(s[k], "@") ensures encodeC(s[k]).Ok? {
        if k == 0 {
          assert s[k] == line;
        } else {
          assert s[k] == il[k - 1];
        }
      }
    }
  }

  /** Pass 2 fails exactly when some C-instruction line does not encode. */
  lemma {:induction false} TranslateOk(lines: seq<string>, labels: map<string, nat>, st: Symbols, encodeC: string -> Result<Bits>)
    ensures Translate(lines, labels, st, encodeC).Ok? <==> AllEncode(InstrLines(lines), encodeC)
    decreases |lines|
  {
    if |lines| > 0 {
      var line, rest := lines[0], lines[1..];
      InstrLinesCons(lines);
      if StartsWith(line, "(") {
        TranslateSkip(lines, labels, st, encodeC);
        TranslateOk(rest, labels, st, encodeC);
        assert InstrLines(lines) == InstrLines(rest);
      } else if StartsWith(line, "@") {
        TranslateA(lines, labels, st, encodeC);
        TranslateOk(rest, labels, Resolve(line[1..], labels, st).1, encodeC);
        AllEncodeCons(line, InstrLines(rest), encodeC);
      } else {
        TranslateC(lines, labels, st, encodeC);
        TranslateOk(rest, labels, st, encodeC);
        AllEncodeCons(line, InstrLines(rest), encodeC);
      }
    }
  }

  /** Each word of `words` is the encoding of the corresponding line of `il`. */
  predicate EncodesAll(il: seq<string>, labels: map<string, nat>, order: seq<string>, encodeC: string -> Result<Bits>, words: seq<Bits>)
  {
    && |words| == |il|
    && forall k :: 0 <= k < |il| ==> EncodesLine(il[k], labels, order, encodeC, words[k])
  }

  lemma {:induction false} EncodesAllCons(line: string, il: seq<string>, labels: map<string, nat>, order: seq<string>,
                       encodeC: string -> Result<Bits>, w: Bits, words: seq<Bits>)
    requires EncodesLine(line, labels, order, encodeC, w) && EncodesAll(il, labels, order, encodeC, words)
    ensures EncodesAll([line] + il, labels, order, encodeC, [w] + words)
  {
    var s, ws := [line] + il, [w] + words;
    forall k | 0 <= k < |s|
      ensures EncodesLine(s[k], labels, order, encodeC, ws[k])
    {
      if k > 0 {
        assert s[k] == il[k - 1] && ws[k] == words[k - 1];
      }
    }
  }

  /** An `@` line encodes the address its symbol stands for, however many
      variables later lines number after it. */
  lemma {:induction false} ALineEncodes(line: string, labels: map<string, nat>, st: Symbols, seen: seq<string>,
                     later: seq<string>, encodeC: string -> Result<Bits>)
    requires TableFor(st, labels, seen) && StartsWith(line, "@")
    ensures EncodesLine(line, labels, FreshOrder([line[1..]] + later, labels, seen), encodeC,
                        EncodeA(Resolve(line[1..], labels, st).0))
  {
    var sym := line[1..];
    var addr := Resolve(sym, labels, st).0;
    var seen' := NoteFresh(seen, sym, labels);
    ResolveStep(sym, labels, st, seen);
    var order := FreshOrder([sym] + later, labels, seen);
    assert ([sym] + later)[1..] == later;
    assert order == FreshOrder(later, labels, seen');
    FreshOrderGrows(later, labels, seen');
    FreshOrderNoDup(later, labels, seen');
    ResolvesToStable(sym, labels, seen', order, addr);
    var w := EncodeA(addr);
    assert Val(w[1..]) == addr;
  }

  /** The step of `TranslateWords` for an `@` line. */
  lemma {:induction false} TranslateWordsA(lines: seq<string>, labels: map<string, nat>, st: Symbols,
                        encodeC: string -> Result<Bits>, seen: seq<string>)
    requires |lines| > 0 && !StartsWith(lines[0], "(") && StartsWith(lines[0], "@")
    requires TableFor(st, labels, seen)
    requires Translate(lines, labels, st, encodeC).Ok?
    requires var r := Resolve(lines[0][1..], labels, st);
      Translate(lines[1..], labels, r.1, encodeC).Ok? &&
      EncodesAll(InstrLines(lines[1..]), labels, FreshOrder(ASymbols(lines[1..]), labels, NoteFresh(seen, lines[0][1..], labels)),
                 encodeC, Translate(lines[1..], labels, r.1, encodeC).value)
    ensures EncodesAll(InstrLines(lines), labels, FreshOrder(ASymbols(lines), labels, seen), encodeC,
                       Translate(lines, labels, st, encodeC).value)
  {
    var line, rest := lines[0], lines[1..];
    var sym := line[1..];
    var r := Resolve(sym, labels, st);
    InstrLinesCons(lines);
    TranslateA(lines, labels, st, encodeC);
    assert ASymbols(lines) == [sym] + ASymbols(rest);
    var order := FreshOrder(ASymbols(lines), labels, seen);
    assert order == FreshOrder(ASymbols(rest), labels, NoteFresh(seen, sym, labels));
    ALineEncodes(line, labels, st, seen, ASymbols(rest), encodeC);
    EncodesAllCons(line, InstrLines(rest), labels, order, encodeC, EncodeA(r.0), Translate(rest, labels, r.1, encodeC).value);
  }

  /** A successful pass 2 emits one word per line it does not skip, each the
      encoding of its line. */
  lemma {:induction false} TranslateWords(lines: seq<string>, labels: map<string, nat>, st: Symbols,
                                          encodeC: string -> Result<Bits>, seen: seq<string>)
    requires TableFor(st, labels, seen)
    requires Translate(lines, labels, st, encodeC).Ok?
    ensures EncodesAll(InstrLines(lines), labels, FreshOrder(ASymbols(lines), labels, seen), encodeC,
                       Translate(lines, labels, st, encodeC).value)
    decreases |lines|
  {
    if |lines| > 0 {
      var line, rest := lines[0], lines[1..];
      InstrLinesCons(lines);
      if StartsWith(line, "(") {
        TranslateSkip(lines, labels, st, encodeC);
        TranslateWords(rest, labels, st, encodeC, seen);
        assert InstrLines(lines) == InstrLines(rest);
        assert ASymbols(lines) == ASymbols(rest);
      } else if StartsWith(line, "@") {
        var sym := line[1..];
        ResolveStep(sym, labels, st, seen);
        TranslateA(lines, labels, st, encodeC);
        TranslateWords(rest, labels, Resolve(sym, labels, st).1, encodeC, NoteFresh(seen, sym, labels));
        TranslateWordsA(lines, labels, st, encodeC, seen);
      } else {
        TranslateC(lines, labels, st, encodeC);
        TranslateWords(rest, labels, st, encodeC, seen);
        assert ASymbols(lines) == ASymbols(rest);
        EncodesAllCons(line, InstrLines(rest), labels, FreshOrder(ASymbols(lines), labels, seen), encodeC,
          encodeC(line).value, Translate(rest, labels, st, encodeC).value);
      }
    }
  }

  /** A whole `assemble` call fails exactly when a C-instruction line does not
      encode; otherwise it emits one word per line that is not skipped, each
      `@` line carrying its literal, label, predefined or fresh address, the
      fresh ones numbered from 1 in order of first reference. */
  lemma {:induction false} AssembleSpec(code: string)
    ensures var lines := CleanLines(Split(code, "\n"));
      Assemble(code).Ok? <==> AllEncode(InstrLines(lines), EncodeC)
    ensures var lines := CleanLines(Split(code, "\n"));
      var labels := CollectLabels(lines, 0, map[]);
      var il := InstrLines(lines);
      var order := FreshOrder(ASymbols(lines), labels, []);
      Assemble(code).Ok? ==>
        && |Assemble(code).value| == |il|
        && forall k :: 0 <= k < |il| ==> EncodesLine(il[k], labels, order, EncodeC, Assemble(code).value[k])
  {
    var lines := CleanLines(Split(code, "\n"));
    var labels := CollectLabels(lines, 0, map[]);
    TranslateOk(lines, labels, InitialSymbols, EncodeC);
    if Assemble(code).Ok? {
      assert TableFor(InitialSymbols, labels, []);
      TranslateWords(lines, labels, InitialSymbols, EncodeC, []);
    }
  }
}
