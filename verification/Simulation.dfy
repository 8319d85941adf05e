/**
  The interpreter on a transpiled image does what the reference machine does on the original.

  One step, at any instruction of any executable section of a loaded image: fetching four bytes of the
  transpiled image and executing them does what the reference machine does with the original image.
 */
module Simulation {
  import opened Wrappers
  import opened Words
  import opened Formats
  import opened Embive
  import opened Machines
  import opened MemoryModel
  import opened MemoryProofs
  import opened Converter
  import opened Transpiler
  import opened Boundaries
  import opened Programs
  import opened Meaning
  import opened Equivalence
  import opened Departures
  import opened Shapes
  import Halfwords
  import S = Steps
  import C = Csr
  import Exec
  import R = Riscv
  import Ref = Reference

  // Fetching.

  lemma ParcelBytes(b0: bv8, b1: bv8, b2: bv8, b3: bv8)
    ensures FromBytes2(b0, b1) | (FromBytes2(b2, b3) << 16) == FromBytes4(b0, b1, b2, b3)
  {
  }

  lemma LengthLow(w: bv32)
    ensures R.Length(w) == R.Length(Low16(w))
    ensures w & 0x3 != 3 <==> R.Length(w) == 2
  {
  }

  lemma ParcelAt(code: Memory, ram: Memory, a: int, b0: bv8, b1: bv8)
    requires Ref.ByteAt(code, ram, a) == Some(b0) && Ref.ByteAt(code, ram, a + 1) == Some(b1)
    ensures Ref.Parcel(code, ram, a) == Some(FromBytes2(b0, b1))
  {
    hide Ref.ByteAt;
  }

  lemma FetchShort(code: Memory, ram: Memory, a: int, low: bv32)
    requires Ref.Parcel(code, ram, a) == Some(low) && R.Length(low) == 2
    ensures Ref.Fetch(code, ram, a) == Some(low)
  {
    hide Ref.Parcel, R.Length;
  }

  lemma FetchLong(code: Memory, ram: Memory, a: int, low: bv32, high: bv32, w: bv32)
    requires Ref.Parcel(code, ram, a) == Some(low) && R.Length(low) != 2
    requires Ref.Parcel(code, ram, a + 2) == Some(high) && w == low | (high << 16)
    ensures Ref.Fetch(code, ram, a) == Some(w)
  {
    hide Ref.Parcel, R.Length;
  }

  /** What the reference fetches at a boundary converts to what the sweep wrote there. */
  lemma FetchedOriginal(p: Program, x: Section, ram: Memory, pc: u32)
    requires p.Holds(x) && Fits(p.original, ram) && p.BoundaryIn(x, pc)
    ensures Ref.Fetch(p.original, ram, pc).Some?
    ensures var w := Ref.Fetch(p.original, ram, pc).value; var raw := RawAt(p.Text(x), pc - x.start);
            Convert(w) == Convert(raw) && R.Length(w) == R.Length(raw)
  {
    hide Convert, R.Length, FromBytes2, FromBytes4, Finish, Output, Reaches, Low16, Ref.Parcel, Ref.Fetch,
      Ref.ByteAt;
    var i := pc - x.start;
    var t := p.Text(x);
    ConvertedInPlace(t, i);
    LengthKinds(RawAt(t, i));
    OriginalBytes(p, x, ram, i);
    ParcelAt(p.original, ram, pc, t[i], t[i + 1]);
    LowHalf2(t[i], t[i + 1]);
    if i + 4 <= |t| {
      LowHalf4(t[i], t[i + 1], t[i + 2], t[i + 3]);
      LengthLow(RawAt(t, i));
      if R.Length(RawAt(t, i)) == 2 {
        ConvertLow(RawAt(t, i));
        FetchShort(p.original, ram, pc, FromBytes2(t[i], t[i + 1]));
      } else {
        ParcelAt(p.original, ram, pc + 2, t[i + 2], t[i + 3]);
        ParcelBytes(t[i], t[i + 1], t[i + 2], t[i + 3]);
        FetchLong(p.original, ram, pc, FromBytes2(t[i], t[i + 1]), FromBytes2(t[i + 2], t[i + 3]), RawAt(t, i));
      }
    } else {
      FetchShort(p.original, ram, pc, FromBytes2(t[i], t[i + 1]));
    }
  }

  lemma LengthKinds(w: bv32)
    ensures R.Length(w) == 2 || R.Length(w) == 4
  {
  }

  lemma ConvertLow(w: bv32)
    requires R.Length(w) == 2
    ensures Convert(w) == Convert(Low16(w))
  {
    hide Convert;
    LengthLow(w);
    Halfwords.ConvertHalf(w);
  }

  lemma OriginalBytes(p: Program, x: Section, ram: Memory, i: nat)
    requires Fits(p.original, ram) && x.End() <= |p.original| && i <= x.length
    ensures i < x.length ==> Ref.ByteAt(p.original, ram, x.start + i) == Some(p.Text(x)[i])
    ensures i + 1 < x.length ==> Ref.ByteAt(p.original, ram, x.start + i + 1) == Some(p.Text(x)[i + 1])
    ensures i + 2 < x.length ==> Ref.ByteAt(p.original, ram, x.start + i + 2) == Some(p.Text(x)[i + 2])
    ensures i + 3 < x.length ==> Ref.ByteAt(p.original, ram, x.start + i + 3) == Some(p.Text(x)[i + 3])
  {
  }

  lemma TranspiledBytes(p: Program, x: Section, i: nat, n: nat)
    requires p.Holds(x) && i + n <= x.length
    ensures p.transpiled[x.start + i..x.start + i + n] == Output(p.Text(x), 0)[i..i + n]
  {
    hide Output, Finish;
    assert p.transpiled[x.start + i..x.start + i + n] == p.transpiled[x.start..x.End()][i..i + n];
  }

  lemma LoadedWord(code: Memory, ram: Memory, a: u32)
    requires a + 4 <= |code| < RAM_OFFSET
    ensures LoadWord(code, ram, a) == Success(RawAt(code, a))
  {
    hide FromBytes4, FromBytes2;
  }

  lemma DecodedBack(data: bv32, w: bv32, size: Size)
    requires OpcodeSize(data) == size
    requires size.WordSize? ==> w == data
    requires size.HalfSize? ==> Low16(data) == data && Low16(w) == data
    ensures Decode(w) == Decode(data)
  {
    hide Decode;
    if size.HalfSize? {
      OpcodeLow(w);
      Halfwords.DecodeHalf(w);
    }
  }

  /** What the interpreter fetches at a boundary decodes as the converted instruction, whatever follows it. */
  lemma FetchedTranspiled(p: Program, x: Section, ram: Memory, pc: u32)
    requires p.Holds(x) && Fits(p.transpiled, ram) && p.BoundaryIn(x, pc)
    ensures Convert(RawAt(p.Text(x), pc - x.start)).Success?
    ensures LoadWord(p.transpiled, ram, pc).Success?
    ensures Decode(LoadWord(p.transpiled, ram, pc).value) == Decode(Convert(RawAt(p.Text(x), pc - x.start)).value.data)
  {
    hide Convert, RawAt, Encoded, Finish, Output, OpcodeSize, Low16, WellShaped, Decode, LoadWord, R.Length,
      Reaches;
    var i := pc - x.start;
    var w := RawAt(p.Text(x), i);
    ConvertedInPlace(p.Text(x), i);
    ConvertShaped(w);
    ShapedData(Convert(w), SizeOf(w));
    SizeKept(w);
    var raw := Convert(w).value;
    TranspiledBytes(p, x, i, raw.size.Bytes());
    ReadBack(raw, p.transpiled, pc);
    PaddingSuffices(p.Text(x), i);
    LoadedWord(p.transpiled, ram, pc);
    DecodedBack(raw.data, RawAt(p.transpiled, pc), raw.size);
  }

  // Data.

  /** Some of the `n` bytes from `a` on belong to an executable section. */
  predicate Overlaps(p: Program, a: int, n: nat) {
    exists i: int :: a <= i < a + n && p.InText(i)
  }

  /** The instruction reads bytes that the sweep has overwritten. */
  predicate ReadsText(p: Program, r: R.Instr, m: Machine) {
    match r
    case Load(k, _, rs1, imm) => Overlaps(p, Ref.Target(Ref.X(m, rs1), imm), Ref.LoadWidth(k))
    case LoadReserved(_, rs1) => Overlaps(p, ToU32(Ref.X(m, rs1)), 4)
    case StoreConditional(_, rs1, _) => Overlaps(p, ToU32(Ref.X(m, rs1)), 4)
    case Amo(_, _, rs1, _) => Overlaps(p, ToU32(Ref.X(m, rs1)), 4)
    case _ => false
  }

  lemma ByteAtSame(p: Program, ram: Memory, a: int)
    requires p.Loadable() && !p.InText(a)
    ensures Ref.ByteAt(p.transpiled, ram, a) == Ref.ByteAt(p.original, ram, a)
  {
    hide Program.Holds, Program.InText;
  }

  lemma {:induction false} ReadSame(p: Program, ram: Memory, a: int, n: nat)
    requires p.Loadable() && !Overlaps(p, a, n)
    ensures Ref.Read(p.transpiled, ram, a, n) == Ref.Read(p.original, ram, a, n)
    decreases n
  {
    hide Ref.ByteAt, Program.Loadable, Program.InText;
    if n > 0 {
      assert a <= a < a + n;
      ByteAtSame(p, ram, a);
      ReadSame(p, ram, a + 1, n - 1);
    }
  }

  /** An instruction that reads no text sees the same memory in both images. */
  lemma PerformSame(p: Program, r: R.Instr, n: nat, m: Machine)
    requires p.Loadable() && !ReadsText(p, r, m)
    ensures Ref.Perform(r, n, p.transpiled, m) == Ref.Perform(r, n, p.original, m)
    ensures Diverges(r, n, p.transpiled, m) <==> Diverges(r, n, p.original, m)
  {
    hide Ref.Read, Ref.SetX, Ref.Loaded, Ref.Write, Ref.AmoValue, Ref.Alu, Ref.DoStore, Ref.DoCsr,
      Ref.DoLoadReserved, Ref.DoStoreConditional, Ref.DoAmo, Program.Loadable, Overlaps;
    match r {
      case Load(k, _, rs1, imm) => ReadSame(p, m.ram, Ref.Target(Ref.X(m, rs1), imm), Ref.LoadWidth(k));
      case LoadReserved(_, rs1) => ReadSame(p, m.ram, ToU32(Ref.X(m, rs1)), 4);
      case StoreConditional(_, rs1, _) => ReadSame(p, m.ram, ToU32(Ref.X(m, rs1)), 4);
      case Amo(_, _, rs1, _) => ReadSame(p, m.ram, ToU32(Ref.X(m, rs1)), 4);
      case _ =>
    }
  }

  // One step.

  lemma IllegalIsShort(w: bv32)
    requires R.Decode(w) == Some(R.Illegal)
    ensures SizeOf(w) == HalfSize
  {
    hide R.DecodeQuadrant0, R.DecodeQuadrant1, R.DecodeQuadrant2, R.DecodeOpImm, R.DecodeAmo, R.DecodeSystem,
      R.LoadKindOf, R.StoreKindOf, R.ConditionOf, R.AluOpOf, R.Rd, R.Rs1, R.Rs2, R.ImmI, R.ImmS, R.ImmB, R.ImmU,
      R.ImmJ;
    NeverIllegal(w);
  }

  lemma NeverIllegal(w: bv32)
    ensures R.DecodeOpImm(w) != Some(R.Illegal) && R.DecodeAmo(w) != Some(R.Illegal)
             && R.DecodeSystem(w) != Some(R.Illegal)
  {
    hide R.Rd, R.Rs1, R.Rs2, R.ImmI;
  }

  /**
    The meaning of one instruction is kept: for every defined word and every sound machine, what the
    converted word decodes to does what the standard says of the original, exactly when it does not diverge.
   */
  lemma ConvertedVerdict(w: bv32, r: R.Instr, code: Memory, m: Machine)
    requires R.Decode(w) == Some(r) && Sound(code, m)
    ensures Convert(w).Success? && Decode(Convert(w).value.data).Some?
    ensures var e := Decode(Convert(w).value.data).value;
            && e.Encodable()
            && (Agrees(Exec.Execute(e, code, m), Ref.Perform(r, R.Length(w), code, m))
                <==> !Diverges(r, R.Length(w), code, m))
  {
    hide Ref.Perform, R.Decode, R.Length, Convert, Decode, Mean, Exec.Execute, Diverges, Agrees,
      Instruction.Encodable, Instruction.Size;
    ConvertMeans(w, r);
    var e := Decode(Convert(w).value.data).value;
    if r.Illegal? {
      IllegalIsShort(w);
      HalfIsNotAmo(e);
    }
    ExecuteVerdict(e, code, m);
  }

  lemma StepExecutes(code: Memory, m: Machine, data: bv32, e: Instruction)
    requires LoadWord(code, m.ram, m.pc) == Success(data) && Decode(data) == Some(e)
    ensures e.Encodable() && S.Step(code, m) == Exec.Execute(e, code, m)
  {
    hide Decode, LoadWord, Instruction.Encodable, Exec.Execute;
    DecodeShaped(data);
  }

  lemma CyclePerforms(code: Memory, m: Machine, w: bv32, r: R.Instr)
    requires Ref.Fetch(code, m.ram, m.pc) == Some(w) && R.Decode(w) == Some(r)
    ensures Ref.Cycle(code, m) == Ref.Perform(r, R.Length(w), code, m)
  {
    hide Ref.Fetch, R.Decode, Ref.Perform, R.Length;
  }

  /**
    One instruction of the text section: fetching, decoding and executing the transpiled bytes agrees with
    the reference machine on the original bytes exactly when the instruction does not diverge.
   */
  lemma StepVerdict(p: Program, m: Machine, w: bv32, r: R.Instr)
    requires p.Loadable() && Sound(p.transpiled, m) && p.AtBoundary(m.pc)
    requires Ref.Fetch(p.original, m.ram, m.pc) == Some(w) && R.Decode(w) == Some(r) && !ReadsText(p, r, m)
    ensures Agrees(S.Step(p.transpiled, m), Ref.Cycle(p.original, m))
       <==> !Diverges(r, R.Length(w), p.original, m)
  {
    hide S.Step, Ref.Cycle, Ref.Perform, Ref.Fetch, R.Decode, R.Length, Convert, Decode, Exec.Execute, Diverges,
      Agrees, LoadWord, ReadsText, Instruction.Encodable, Instruction.Size, Program.Holds, Program.BoundaryIn, RawAt;
    var x :| x in p.sections && p.BoundaryIn(x, m.pc);
    InSection(p, x, m.ram, m.pc);
    FetchedOriginal(p, x, m.ram, m.pc);
    FetchedTranspiled(p, x, m.ram, m.pc);
    ConvertedVerdict(w, r, p.transpiled, m);
    var e := Decode(Convert(w).value.data).value;
    StepExecutes(p.transpiled, m, LoadWord(p.transpiled, m.ram, m.pc).value, e);
    CyclePerforms(p.original, m, w, r);
    PerformSame(p, r, R.Length(w), m);
  }

  /** The instruction at an address: the four bytes there, whatever the instruction's size. */
  lemma FetchedWord(code: Memory, m: Machine)
    requires Fits(code, m.ram)
    ensures match Ref.Read(code, m.ram, m.pc, 4)
            case None => LoadWord(code, m.ram, m.pc).Failure? && IsAccessError(LoadWord(code, m.ram, m.pc).error)
            case Some(v) => 0 <= v < 0x1_0000_0000 && LoadWord(code, m.ram, m.pc) == Success(Word(v))
  {
    hide Ref.Read, LoadWord, Nat, Word;
    LoadWordSame(code, m.ram, m.pc);
    LoadErrors(code, m.ram, m.pc);
    if LoadWord(code, m.ram, m.pc).Success? {
      var data := LoadWord(code, m.ram, m.pc).value;
      NatSum(data);
      Words.NatWord(Nat(data));
      NatInjective(Word(Nat(data)), data);
    }
  }

  /** A step anywhere, on any code: the four bytes at the program counter are decoded and executed. */
  lemma StepActual(code: Memory, m: Machine)
    requires Fits(code, m.ram) && WellFormedCsrs(m.csr)
    ensures match Ref.Read(code, m.ram, m.pc, 4)
            case None => Agrees(S.Step(code, m), Ref.Effect(Ref.AccessFault, m))
            case Some(v) =>
              && 0 <= v < 0x1_0000_0000 && Decode(Word(v)).Some?
              && Agrees(S.Step(code, m), ActualOf(Decode(Word(v)).value, code, m))
  {
    hide Ref.Read, LoadWord, Word, Decode, Exec.Execute, ActualOf, Agrees, Instruction.Encodable, WellFormedCsrs;
    FetchedWord(code, m);
    if Ref.Read(code, m.ram, m.pc, 4).Some? {
      var data := Word(Ref.Read(code, m.ram, m.pc, 4).value);
      DecodeShaped(data);
      StepExecutes(code, m, data, Decode(data).value);
      ExecuteActual(Decode(data).value, code, m);
    } else {
      StepFaults(code, m);
    }
  }

  lemma StepFaults(code: Memory, m: Machine)
    requires LoadWord(code, m.ram, m.pc).Failure? && IsAccessError(LoadWord(code, m.ram, m.pc).error)
    ensures Agrees(S.Step(code, m), Ref.Effect(Ref.AccessFault, m))
  {
    hide LoadWord;
  }

  lemma InSection(p: Program, x: Section, ram: Memory, pc: u32)
    requires p.Loadable() && x in p.sections && p.BoundaryIn(x, pc) && Fits(p.transpiled, ram)
    ensures p.Holds(x) && Fits(p.original, ram)
    ensures x.End() <= |p.original| && x.start <= pc && pc - x.start + 2 <= |p.Text(x)|
  {
    hide Program.Holds;
  }

  lemma HalfIsNotAmo(e: Instruction)
    requires e.Size() == HalfSize
    ensures !e.OpAmo?
  {
  }

  /** Where not even two bytes are mapped, both machines report the same fault. */
  lemma FetchFaults(p: Program, m: Machine)
    requires p.Loadable() && Fits(p.transpiled, m.ram)
    requires Ref.Parcel(p.original, m.ram, m.pc).None?
    ensures Agrees(S.Step(p.transpiled, m), Ref.Cycle(p.original, m))
  {
    hide R.Decode, Decode, Exec.Execute, Program.Holds, Program.InText;
    InsideMapped(p.transpiled, m.ram, m.pc, 4);
    LoadBytesMapped(p.transpiled, m.ram, m.pc, 4);
    assert Ref.ByteAt(p.transpiled, m.ram, m.pc).Some? <==> Ref.ByteAt(p.original, m.ram, m.pc).Some?;
    assert Ref.ByteAt(p.transpiled, m.ram, m.pc + 1).Some? <==> Ref.ByteAt(p.original, m.ram, m.pc + 1).Some?;
  }
}
