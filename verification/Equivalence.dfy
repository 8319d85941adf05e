/**
  One instruction: executing an Embive instruction agrees with performing the RISC-V instruction that it
  means, except in the cases that `Diverges` lists, and in exactly those cases it does not.
 */
module Equivalence {
  import opened Wrappers
  import opened Words
  import opened Formats
  import opened Embive
  import opened Machines
  import opened MemoryModel
  import opened Exec
  import C = Csr
  import R = Riscv
  import Ref = Reference
  import opened Meaning
  import opened Departures
  import Effects
  import Arithmetic
  import BinaryDigits
  import opened MemoryProofs

  /** What a step's result looks like from outside. */
  function Observed(result: Result<State, Error>): Ref.Report {
    match result
    case Success(Running) => Ref.Continue
    case Success(Called) => Ref.EnvironmentCall
    case Success(Halted) => Ref.Breakpoint
    case Success(Waiting) => Ref.WaitForInterrupt
    case Failure(e) =>
      if e.InvalidMemoryAddress? || e.InvalidMemoryAccessLength? then Ref.AccessFault else Ref.Report.IllegalInstruction
  }

  predicate Agrees(o: Outcome, f: Ref.Effect) {
    Observed(o.result) == f.report && o.machine == f.machine
  }

  // Registers, addresses and program counters.

  lemma GetSame(m: Machine, r: bv8)
    requires r < 32
    ensures Get(m, r) == Src(m, Reg(r)) && Reg(r) < 32 && (Reg(r) == 0 <==> r == 0)
  {
    RegBound(r);
  }

  lemma PutSame(m: Machine, r: bv8, value: i32)
    requires r < 32
    ensures PutUnlessZero(m, r, value) == Ref.SetX(m, Reg(r), value)
    ensures Put(m, r, value) == SetAny(m, Reg(r), value)
    ensures Reg(r) != 0 ==> Put(m, r, value) == Ref.SetX(m, Reg(r), value)
    ensures Reg(r) < 32
  {
    RegBound(r);
  }

  lemma Small(x: i32)
    ensures Ref.Low32(x) == x
  {
    Arithmetic.Unsigned(x);
  }

  lemma LinkSame(m: Machine, size: Size)
    ensures Link(m, size) == Ref.Link(m, size.Bytes())
    ensures Advance(m, size) == Ref.Step(m, size.Bytes())
  {
  }

  lemma AddressSame(base: i32, imm: bv32)
    ensures Address(base, imm) == Ref.Target(base, Signed(imm))
  {
    hide Signed;
  }

  lemma NextSame(m: Machine, r: bv8, value: i32, size: Size)
    requires r < 32
    ensures Agrees(Next(PutUnlessZero(m, r, value), size), Ref.Done(Ref.SetX(m, Reg(r), value), size.Bytes()))
  {
    hide Reg;
    PutSame(m, r, value);
    LinkSame(PutUnlessZero(m, r, value), size);
  }

  /** The outcome is what `Departures` says of the instruction. */
  predicate Conforms(o: Outcome, r: R.Instr, size: Size, code: Memory, m: Machine) {
    Agrees(o, Actual(r, size.Bytes(), code, m))
  }

  // Register operations.  C.LI, C.ADDI and the like are immediate operations with a fixed source.

  lemma ImmediateAddActual(m: Machine, rd: bv8, rs1: bv8, imm: i32, size: Size, code: Memory)
    requires rd < 32 && rs1 < 32 && Fits(code, m.ram)
    ensures Conforms(Next(PutUnlessZero(m, rd, WrapI32(Get(m, rs1) + imm)), size),
                    R.OpImm(R.ADD, Reg(rd), Reg(rs1), imm), size, code, m)
  {
    hide Reg, WrapI32, Ref.Low32, ToU32;
    GetSame(m, rs1);
    Small(imm);
    Arithmetic.AddSame(Get(m, rs1), imm);
    NextSame(m, rd, WrapI32(Get(m, rs1) + imm), size);
  }

  lemma RegisterOpActual(m: Machine, rd: bv8, rs1: bv8, rs2: bv8, func: bv16, size: Size, code: Memory)
    requires rd < 32 && rs1 < 32 && rs2 < 32 && Fits(code, m.ram)
    requires AluOf(func).Some? && (size == HalfSize ==> !AluOf(func).value.ADD?)
    ensures Alu(func, Get(m, rs1), Get(m, rs2)).Some?
    ensures Conforms(Next(PutUnlessZero(m, rd, Alu(func, Get(m, rs1), Get(m, rs2)).value), size),
                    R.Op(AluOf(func).value, Reg(rd), Reg(rs1), Reg(rs2)), size, code, m)
  {
    hide Reg, Alu, AluOf, Ref.Alu;
    GetSame(m, rd);
    GetSame(m, rs1);
    GetSame(m, rs2);
    Arithmetic.AluSame(func, Get(m, rs1), Get(m, rs2));
    NextSame(m, rd, Alu(func, Get(m, rs1), Get(m, rs2)).value, size);
  }

  /** The operations that have a form with an immediate. */
  predicate ImmediateOp(op: R.AluOp) {
    op in {R.ADD, R.SLL, R.SLT, R.SLTU, R.AluOp.XOR, R.SRL, R.SRA, R.AluOp.OR, R.AluOp.AND}
  }

  /** The Embive numbers of the operations that take an immediate. */
  function ImmediateFunc(op: R.AluOp): bv16 {
    match op
    case ADD => 0
    case SLL => 2
    case SLT => 3
    case SLTU => 4
    case XOR => 5
    case SRL => 6
    case SRA => 7
    case OR => 8
    case _ => 9
  }

  lemma ImmediateFuncInverse(op: R.AluOp)
    requires ImmediateOp(op)
    ensures AluOf(ImmediateFunc(op)) == Some(op)
  {
  }

  lemma ImmediateOpActual(m: Machine, rd: bv8, rs1: bv8, op: R.AluOp, imm: i32, size: Size, code: Memory)
    requires rd < 32 && rs1 < 32 && Fits(code, m.ram)
    requires ImmediateOp(op)
    ensures Alu(ImmediateFunc(op), Get(m, rs1), imm).Some?
    ensures Conforms(Next(PutUnlessZero(m, rd, Alu(ImmediateFunc(op), Get(m, rs1), imm).value), size),
                    R.OpImm(op, Reg(rd), Reg(rs1), imm), size, code, m)
  {
    hide Reg, Alu, Ref.Alu, AluOf, ImmediateFunc;
    ImmediateFuncInverse(op);
    GetSame(m, rs1);
    Small(imm);
    Arithmetic.AluSame(ImmediateFunc(op), Get(m, rs1), imm);
    NextSame(m, rd, Alu(ImmediateFunc(op), Get(m, rs1), imm).value, size);
  }

  lemma RegLiterals()
    ensures Reg(RA) == 1 && Reg(SP) == 2
  {
    assert Nat(1) == 1;
  }

  lemma UpperActual(m: Machine, rd: bv8, imm: bv32, size: Size, code: Memory)
    requires rd < 32 && Fits(code, m.ram)
    ensures Conforms(Next(PutUnlessZero(m, rd, Signed(imm)), size), R.Lui(Reg(rd), Signed(imm)), size, code, m)
  {
    hide Reg, Signed;
    Small(Signed(imm));
    NextSame(m, rd, Signed(imm), size);
  }

  lemma AuipcActual(t: TypeU, code: Memory, m: Machine)
    requires t.Encodable() && Fits(code, m.ram)
    ensures Conforms(ExecAuipc(t, m), R.Auipc(Reg(t.rd), Signed(t.imm)), WordSize, code, m)
  {
    hide Reg, Signed;
    NextSame(m, t.rd, ToI32(WrapU32(m.pc + Signed(t.imm))), WordSize);
  }

  lemma CAddi4spnActual(t: TypeCIW, code: Memory, m: Machine)
    requires t.Encodable() && Fits(code, m.ram)
    ensures Conforms(ExecCAddi4spn(t, m), if t.imm == 0 then R.Illegal else R.OpImm(R.ADD, Reg(t.rd), 2, Signed(t.imm)),
                    HalfSize, code, m)
  {
    hide Reg, Signed, WrapI32;
    RegLiterals();
    PutSame(m, t.rd, WrapI32(Get(m, SP) + Signed(t.imm)));
    ImmediateAddActual(m, t.rd, SP, Signed(t.imm), HalfSize, code);
  }

  lemma CAddi16spActual(t: TypeCI2, code: Memory, m: Machine)
    requires t.Encodable() && Fits(code, m.ram)
    ensures Conforms(ExecCAddi16sp(t, m), R.OpImm(R.ADD, 2, 2, Signed(t.imm)), HalfSize, code, m)
  {
    hide Reg, Signed, WrapI32;
    RegLiterals();
    PutSame(m, SP, WrapI32(Get(m, SP) + Signed(t.imm)));
    ImmediateAddActual(m, SP, SP, Signed(t.imm), HalfSize, code);
  }

  lemma CLiActual(t: TypeCI1, code: Memory, m: Machine)
    requires t.Encodable() && Fits(code, m.ram)
    ensures Conforms(ExecCLi(t, m), R.OpImm(R.ADD, Reg(t.rdRs1), NO_REGISTER, Signed(t.imm)), HalfSize, code, m)
  {
    hide Reg, Signed, ToU32;
    ZeroPlus(Signed(t.imm));
    Small(Signed(t.imm));
    NextSame(m, t.rdRs1, Signed(t.imm), HalfSize);
  }

  lemma ZeroPlus(x: i32)
    ensures Ref.Low32(ToU32(0) + ToU32(x)) == x
    ensures WrapI32(0 + x) == x
  {
    Arithmetic.AddSame(0, x);
    Arithmetic.Unsigned(x);
  }

  // Shifts by a constant.

  lemma ShiftAmount(imm: bv32)
    ensures ToU32(Signed(imm)) == UInt(imm)
  {
    hide Nat;
  }

  lemma CSrliActual(t: TypeCB1, code: Memory, m: Machine)
    requires t.Encodable() && Fits(code, m.ram)
    ensures Conforms(ExecCSrli(t, m), R.OpImm(R.SRL, Reg(t.rdRs1), Reg(t.rdRs1), Signed(t.imm)), HalfSize, code, m)
  {
    hide Reg, Signed, UInt, ShiftRightLogical, Conforms, ToU32;
    ShiftAmount(t.imm);
    ImmediateOpActual(m, t.rdRs1, t.rdRs1, R.SRL, Signed(t.imm), HalfSize, code);
  }

  lemma CSraiActual(t: TypeCB1, code: Memory, m: Machine)
    requires t.Encodable() && Fits(code, m.ram)
    ensures Conforms(ExecCSrai(t, m), R.OpImm(R.SRA, Reg(t.rdRs1), Reg(t.rdRs1), Signed(t.imm)), HalfSize, code, m)
  {
    hide Reg, Signed, UInt, ShiftRightArithmetic, Conforms, ToU32;
    ShiftAmount(t.imm);
    ImmediateOpActual(m, t.rdRs1, t.rdRs1, R.SRA, Signed(t.imm), HalfSize, code);
  }

  lemma CSlliActual(t: TypeCI4, code: Memory, m: Machine)
    requires t.Encodable() && Fits(code, m.ram)
    ensures Conforms(ExecCSlli(t, m), R.OpImm(R.SLL, Reg(t.rdRs1), Reg(t.rdRs1), Signed(t.imm)), HalfSize, code, m)
  {
    hide Reg, Signed, UInt, WrapI32, Conforms, ToU32;
    ShiftAmount(t.imm);
    ImmediateOpActual(m, t.rdRs1, t.rdRs1, R.SLL, Signed(t.imm), HalfSize, code);
  }

  lemma CAndiActual(t: TypeCB2, code: Memory, m: Machine)
    requires t.Encodable() && Fits(code, m.ram)
    ensures Conforms(ExecCAndi(t, m), R.OpImm(R.AluOp.AND, Reg(t.rdRs1), Reg(t.rdRs1), Signed(t.imm)), HalfSize,
                     code, m)
  {
    hide Reg, Signed, And, Conforms;
    ImmediateOpActual(m, t.rdRs1, t.rdRs1, R.AluOp.AND, Signed(t.imm), HalfSize, code);
  }

  lemma ShiftImmediate(imm: bv32)
    ensures 0 <= Nat(imm & 0x1F) < 32 && UInt(imm & 0x1F) == Nat(imm & 0x1F)
  {
    assert imm & 0x1F < 32;
    SmallNat(imm & 0x1F);
  }

  /** `r` is an immediate operation that gives the value that the interpreter computes. */
  predicate GivesValue(r: R.Instr, t: TypeI, a: i32) {
    && r.OpImm? && ImmediateOp(r.op)
    && r.rd == Reg(t.rdRs2) && r.rs1 == Reg(t.rs1)
    && -0x8000_0000 <= r.imm < 0x8000_0000
    && Alu(ImmediateFunc(r.op), a, r.imm) == Some(OpImmResult(t, a))
  }

  lemma ShiftValue(t: TypeI, a: i32)
    requires t.func == 1 || t.func == 5
    ensures GivesValue(OpImmMeaning(t), t, a)
  {
    hide Reg, Signed, Nat, UInt, WrapI32, ShiftRightLogical, ShiftRightArithmetic, Pow2;
    ShiftImmediate(t.imm);
  }

  lemma CompareValue(t: TypeI, a: i32)
    requires t.func == 0 || t.func == 2 || t.func == 3
    ensures GivesValue(OpImmMeaning(t), t, a)
  {
    hide Reg, Signed, WrapI32;
  }

  lemma BitwiseValue(t: TypeI, a: i32)
    requires t.func == 4 || t.func >= 6
    ensures GivesValue(OpImmMeaning(t), t, a)
  {
    hide Reg, Signed, Xor, And, Or;
  }

  lemma OpImmValue(t: TypeI, a: i32)
    ensures GivesValue(OpImmMeaning(t), t, a)
  {
    hide OpImmMeaning, GivesValue;
    if t.func == 1 || t.func == 5 {
      ShiftValue(t, a);
    } else if t.func == 4 || t.func >= 6 {
      BitwiseValue(t, a);
    } else {
      CompareValue(t, a);
    }
  }

  lemma OpImmActual(t: TypeI, code: Memory, m: Machine)
    requires t.Encodable() && Fits(code, m.ram)
    ensures Conforms(ExecOpImm(t, m), OpImmMeaning(t), WordSize, code, m)
  {
    hide Reg, OpImmMeaning, OpImmResult, Alu, ImmediateFunc, Conforms;
    OpImmValue(t, Get(m, t.rs1));
    var r := OpImmMeaning(t);
    ImmediateOpActual(m, t.rdRs2, t.rs1, r.op, r.imm, WordSize, code);
  }

  // Control flow.

  lemma JumpSame(m: Machine, imm: bv32)
    ensures JumpBy(m, imm) == m.(pc := Ref.Target(m.pc, Signed(imm)))
  {
    hide Signed;
  }

  lemma CJumpActual(t: TypeCJ, code: Memory, m: Machine)
    requires t.Encodable() && Fits(code, m.ram)
    ensures Conforms(ExecCJal(t, m), R.Jal(1, Signed(t.imm)), HalfSize, code, m)
    ensures Conforms(ExecCJ(t, m), R.Jal(0, Signed(t.imm)), HalfSize, code, m)
  {
    hide Reg, Signed;
    RegLiterals();
    PutSame(m, RA, Link(m, HalfSize));
    LinkSame(m, HalfSize);
    JumpSame(m, t.imm);
  }

  lemma JalActual(t: TypeJ, code: Memory, m: Machine)
    requires t.Encodable() && Fits(code, m.ram)
    ensures Conforms(ExecJal(t, m), R.Jal(Reg(t.rd), Signed(t.imm)), WordSize, code, m)
  {
    hide Reg, Signed;
    PutSame(m, t.rd, Link(m, WordSize));
    LinkSame(m, WordSize);
  }

  /** Clearing bit 0 changes a target exactly when it is odd. */
  lemma JalrActual(t: TypeI, code: Memory, m: Machine)
    requires t.Encodable() && Fits(code, m.ram)
    ensures Conforms(ExecJalr(t, m), R.Jalr(Reg(t.rdRs2), Reg(t.rs1), Signed(t.imm)), WordSize, code, m)
  {
    hide Reg, Signed;
    GetSame(m, t.rs1);
    PutSame(m, t.rdRs2, Link(m, WordSize));
    LinkSame(m, WordSize);
    AddressSame(Get(m, t.rs1), t.imm);
  }

  lemma TargetOfRegister(a: i32)
    ensures Ref.Target(a, 0) == ToU32(a)
  {
  }

  /** C.MV names no register as its first source. */
  function NamedJrMv(t: TypeCR): R.Instr {
    if t.rs2 == 0 then R.Jalr(0, Reg(t.rdRs1), 0) else R.Op(R.ADD, Reg(t.rdRs1), NO_REGISTER, Reg(t.rs2))
  }

  lemma JrMvActual(t: TypeCR, code: Memory, m: Machine)
    requires t.Encodable()
    ensures Conforms(ExecJrMv(t, m), NamedJrMv(t), HalfSize, code, m)
  {
    hide Reg, ToU32, Ref.Target, Ref.Low32;
    GetSame(m, t.rdRs1);
    GetSame(m, t.rs2);
    TargetOfRegister(Get(m, t.rdRs1));
    ZeroPlus(Get(m, t.rs2));
    PutSame(m, t.rdRs1, Get(m, t.rs2));
  }

  lemma EbreakJalrAddActual(t: TypeCR, code: Memory, m: Machine)
    requires t.Encodable() && Fits(code, m.ram)
    ensures Conforms(ExecEbreakJalrAdd(t, m), EbreakJalrAddMeaning(t), HalfSize, code, m)
  {
    hide Reg, ToU32, Ref.Target, Ref.Low32, WrapI32;
    RegLiterals();
    GetSame(m, t.rdRs1);
    GetSame(m, t.rs2);
    TargetOfRegister(Get(m, t.rdRs1));
    Arithmetic.AddSame(Get(m, t.rdRs1), Get(m, t.rs2));
    ZeroPlus(Get(m, t.rs2));
    LinkSame(m, HalfSize);
    PutSame(m, RA, Link(m, HalfSize));
    PutSame(m, t.rdRs1, WrapI32(Get(m, t.rdRs1) + Get(m, t.rs2)));
  }

  lemma ZeroBranchActual(t: TypeCB4, code: Memory, m: Machine)
    requires t.Encodable() && Fits(code, m.ram)
    ensures Conforms(ExecCBeqz(t, m), R.Branch(R.EQ, Reg(t.rs1), NO_REGISTER, Signed(t.imm)), HalfSize, code, m)
    ensures Conforms(ExecCBnez(t, m), R.Branch(R.NE, Reg(t.rs1), NO_REGISTER, Signed(t.imm)), HalfSize, code, m)
  {
    hide Reg, Signed;
    GetSame(m, t.rs1);
    JumpSame(m, t.imm);
    LinkSame(m, HalfSize);
  }

  /** The condition of a branch, if the function names one. */
  lemma TakenSame(b: TypeB, x: i32, y: i32)
    ensures match BranchMeaning(b)
            case Branch(c, rs1, rs2, imm) =>
              && Taken(b.func, x, y) == Some(Ref.Holds(c, x, y))
              && rs1 == Reg(b.rs1) && rs2 == Reg(b.rs2) && imm == Signed(b.imm)
            case _ => BranchMeaning(b).Illegal? && Taken(b.func, x, y) == None
  {
    hide Reg, Signed, ToU32;
  }

  lemma BranchActual(t: TypeB, code: Memory, m: Machine)
    requires t.Encodable() && Fits(code, m.ram)
    ensures Conforms(ExecBranch(t, m), BranchMeaning(t), WordSize, code, m)
  {
    hide Reg, Signed, Taken, Ref.Holds, Actual, BranchMeaning, Get, Src;
    GetSame(m, t.rs1);
    GetSame(m, t.rs2);
    JumpSame(m, t.imm);
    LinkSame(m, WordSize);
    TakenSame(t, Get(m, t.rs1), Get(m, t.rs2));
    if BranchMeaning(t).Illegal? {
      PlainArms(4, code, m);
    } else {
      BranchArm(BranchMeaning(t), 4, code, m);
    }
  }

  // Loads and stores.

  function LoadFuncOf(k: R.LoadKind): bv8 {
    match k
    case LB => 0
    case LH => 1
    case LW => 2
    case LBU => 3
    case LHU => 4
  }

  lemma HalfFits(code: Memory, ram: Memory, a: u32)
    ensures LoadHalf(code, ram, a).Success? ==> LoadHalf(code, ram, a).value & 0xFFFF == LoadHalf(code, ram, a).value
  {
    hide LoadBytes;
  }

  lemma ByteOf(code: Memory, ram: Memory, a: u32)
    ensures LoadByte(code, ram, a).Success? ==>
              && LoadBytes(code, ram, a, 1).Success?
              && LoadByte(code, ram, a).value == LoadBytes(code, ram, a, 1).value[0] as bv32
  {
    hide LoadBytes;
  }

  lemma LoadedByteSame(code: Memory, ram: Memory, a: u32)
    requires LoadByte(code, ram, a).Success?
    ensures Ref.Loaded(R.LB, Nat(LoadByte(code, ram, a).value)) == Signed(AsI8(LoadByte(code, ram, a).value))
    ensures Ref.Loaded(R.LBU, Nat(LoadByte(code, ram, a).value)) == Signed(LoadByte(code, ram, a).value)
  {
    hide LoadBytes, LoadByte, Nat, Signed, AsI8, Ref.Loaded;
    ByteOf(code, ram, a);
    LoadedByte(LoadBytes(code, ram, a, 1).value[0]);
  }

  /** Every load function returns the extended value of the mapped bytes, or fails where one is unmapped. */
  lemma LoadValueSame(k: R.LoadKind, code: Memory, ram: Memory, a: u32)
    requires Fits(code, ram)
    ensures var read := Ref.Read(code, ram, a, Ref.LoadWidth(k));
            var value := LoadValue(LoadFuncOf(k), code, ram, a);
            if read.Some? then value == Success(Ref.Loaded(k, read.value))
            else value.Failure? && (value.error.InvalidMemoryAddress? || value.error.InvalidMemoryAccessLength?)
  {
    hide Nat, Signed, AsI8, AsI16, Ref.Loaded, Ref.Read, LoadByte, LoadHalf, LoadWord;
    LoadByteSame(code, ram, a);
    LoadHalfSame(code, ram, a);
    LoadWordSame(code, ram, a);
    LoadErrors(code, ram, a);
    if LoadByte(code, ram, a).Success? {
      LoadedByteSame(code, ram, a);
    }
    if LoadHalf(code, ram, a).Success? {
      HalfFits(code, ram, a);
      LoadedHalf(LoadHalf(code, ram, a).value);
    }
    if LoadWord(code, ram, a).Success? {
      LoadedWord(LoadWord(code, ram, a).value);
    }
  }

  predicate IsAccessError(e: Error) {
    e.InvalidMemoryAddress? || e.InvalidMemoryAccessLength?
  }

  lemma LoadErrors(code: Memory, ram: Memory, a: u32)
    ensures LoadByte(code, ram, a).Failure? ==> IsAccessError(LoadByte(code, ram, a).error)
    ensures LoadHalf(code, ram, a).Failure? ==> IsAccessError(LoadHalf(code, ram, a).error)
    ensures LoadWord(code, ram, a).Failure? ==> IsAccessError(LoadWord(code, ram, a).error)
  {
  }

  // The arm of `Actual` for one instruction.

  lemma LoadArm(r: R.Instr, n: nat, code: Memory, m: Machine)
    requires r.Load?
    ensures Actual(r, n, code, m)
         == (match Ref.Read(code, m.ram, Ref.Target(Src(m, r.rs1), r.imm), Ref.LoadWidth(r.load))
             case Some(v) => Ref.Done(SetAny(m, r.rd, Ref.Loaded(r.load, v)), n)
             case None => Ref.Effect(Ref.AccessFault, m))
  {
    hide Ref.Loaded, Ref.Read, Ref.Target, SetAny;
  }

  lemma AtomicArm(r: R.Instr, n: nat, code: Memory, m: Machine)
    requires r.LoadReserved? || r.StoreConditional? || r.Amo?
    ensures var a := ToU32(Src(m, r.rs1));
            var read := Ref.Read(code, m.ram, a, 4);
            && (r.LoadReserved? ==> Actual(r, n, code, m) == Ref.DoLoadReserved(r.rd, a, read, m))
            && (r.StoreConditional? ==>
                  Actual(r, n, code, m) == Ref.DoStoreConditional(r.rd, a, read, Src(m, r.rs2), m))
            && (r.Amo? ==> Actual(r, n, code, m) == Ref.DoAmo(r.amo, r.rd, a, read, Src(m, r.rs2), m))
  {
    hide Ref.DoLoadReserved, Ref.DoStoreConditional, Ref.DoAmo, Ref.Read;
  }

  lemma PlainArms(n: nat, code: Memory, m: Machine)
    ensures Actual(R.Ecall, n, code, m) == Ref.Effect(Ref.EnvironmentCall, Ref.Step(m, n))
    ensures Actual(R.Ebreak, n, code, m) == Ref.Effect(Ref.Breakpoint, Ref.Step(m, n))
    ensures Actual(R.Wfi, n, code, m) == Ref.Effect(Ref.WaitForInterrupt, Ref.Step(m, n))
    ensures Actual(R.Fence, n, code, m) == Ref.Effect(Ref.Continue, Ref.Step(m, n))
    ensures Actual(R.Illegal, n, code, m) == Ref.Effect(Ref.Report.IllegalInstruction, m)
    ensures Actual(R.Mret, n, code, m) == Ref.Effect(Ref.Continue, ActualReturn(m))
  {
    hide ActualReturn;
  }

  lemma BranchArm(r: R.Instr, n: nat, code: Memory, m: Machine)
    requires r.Branch?
    ensures Actual(r, n, code, m)
         == if Ref.Holds(r.cond, Src(m, r.rs1), Src(m, r.rs2))
            then Ref.Effect(Ref.Continue, m.(pc := Ref.Target(m.pc, r.imm)))
            else Ref.Done(m, n)
  {
    hide Ref.Holds, Src, Ref.Target;
  }

  lemma LoadActual(m: Machine, rd: bv8, rs1: bv8, imm: bv32, k: R.LoadKind, size: Size, code: Memory)
    requires rd < 32 && rs1 < 32 && Fits(code, m.ram)
    ensures Conforms(ExecLoad(m, rd, LoadValue(LoadFuncOf(k), code, m.ram, Address(Get(m, rs1), imm)), size),
                    R.Load(k, Reg(rd), Reg(rs1), Signed(imm)), size, code, m)
  {
    hide Reg, Signed, Ref.Target, Address, LoadValue, Ref.Read, Ref.Loaded, Actual;
    LoadArm(R.Load(k, Reg(rd), Reg(rs1), Signed(imm)), size.Bytes(), code, m);
    GetSame(m, rs1);
    AddressSame(Get(m, rs1), imm);
    var a := Address(Get(m, rs1), imm);
    LoadValueSame(k, code, m.ram, a);
    if LoadValue(LoadFuncOf(k), code, m.ram, a).Success? {
      var v := LoadValue(LoadFuncOf(k), code, m.ram, a).value;
      PutSame(m, rd, v);
      LinkSame(Put(m, rd, v), size);
    }
  }

  function StoreFuncOf(k: R.StoreKind): bv8 {
    match k
    case SB => 5
    case SH => 6
    case SW => 7
  }

  lemma StoreActual(m: Machine, rs1: bv8, rs2: bv8, imm: bv32, k: R.StoreKind, size: Size, code: Memory)
    requires rs1 < 32 && rs2 < 32 && Fits(code, m.ram)
    ensures Conforms(ExecStore(m, Address(Get(m, rs1), imm), StoreData(StoreFuncOf(k), Get(m, rs2)), size),
                    R.Store(k, Reg(rs1), Reg(rs2), Signed(imm)), size, code, m)
  {
    hide Reg, Signed, Ref.Target, Address, StoreBytes, StoreData, Ref.Write;
    GetSame(m, rs1);
    GetSame(m, rs2);
    AddressSame(Get(m, rs1), imm);
    var a := Address(Get(m, rs1), imm);
    StoreSame(m.ram, a, k, Get(m, rs2));
    var stored := StoreBytes(m.ram, a, StoreData(StoreFuncOf(k), Get(m, rs2)));
    if stored.Success? {
      LinkSame(m.(ram := stored.value), size);
    }
  }

  lemma LoadStoreActual(t: TypeI, code: Memory, m: Machine)
    requires t.Encodable() && Fits(code, m.ram)
    ensures Conforms(ExecLoadStore(t, code, m), LoadStoreMeaning(t), WordSize, code, m)
  {
    hide Reg, Signed, Address, LoadValue, StoreData, ExecLoad, ExecStore, Conforms;
    match t.func {
      case 0 => LoadActual(m, t.rdRs2, t.rs1, t.imm, R.LB, WordSize, code);
      case 1 => LoadActual(m, t.rdRs2, t.rs1, t.imm, R.LH, WordSize, code);
      case 2 => LoadActual(m, t.rdRs2, t.rs1, t.imm, R.LW, WordSize, code);
      case 3 => LoadActual(m, t.rdRs2, t.rs1, t.imm, R.LBU, WordSize, code);
      case 4 => LoadActual(m, t.rdRs2, t.rs1, t.imm, R.LHU, WordSize, code);
      case 5 => StoreActual(m, t.rs1, t.rdRs2, t.imm, R.SB, WordSize, code);
      case 6 => StoreActual(m, t.rs1, t.rdRs2, t.imm, R.SH, WordSize, code);
      case _ => StoreActual(m, t.rs1, t.rdRs2, t.imm, R.SW, WordSize, code);
    }
  }

  lemma CompressedLoadActual(rd: bv8, rs1: bv8, imm: bv32, code: Memory, m: Machine)
    requires rd < 32 && rs1 < 32 && Fits(code, m.ram)
    ensures Conforms(ExecLoad(m, rd, LoadValue(2, code, m.ram, Address(Get(m, rs1), imm)), HalfSize),
                    R.Load(R.LW, Reg(rd), Reg(rs1), Signed(imm)), HalfSize, code, m)
  {
    hide Reg, Signed, Address, LoadValue, ExecLoad, Conforms;
    LoadActual(m, rd, rs1, imm, R.LW, HalfSize, code);
  }

  lemma CompressedStoreActual(rs1: bv8, rs2: bv8, imm: bv32, code: Memory, m: Machine)
    requires rs1 < 32 && rs2 < 32 && Fits(code, m.ram)
    ensures Conforms(ExecStore(m, Address(Get(m, rs1), imm), StoreData(7, Get(m, rs2)), HalfSize),
                    R.Store(R.SW, Reg(rs1), Reg(rs2), Signed(imm)), HalfSize, code, m)
  {
    hide Reg, Signed, Address, StoreData, ExecStore, Conforms;
    StoreActual(m, rs1, rs2, imm, R.SW, HalfSize, code);
  }

  // Atomics.

  lemma AmoSame(func: bv16, old': i32, b: i32)
    requires AmoOf(func).Some?
    ensures AmoResult(func, old', b) == Some(Ref.AmoValue(AmoOf(func).value, old', b))
  {
    hide WrapI32, Ref.Low32, ToU32, Xor, And, Or, Ref.Digits;
    Arithmetic.AddSame(old', b);
    BinaryDigits.BitwiseSame(old', b);
    Compare(old', b);
  }

  lemma Compare(a: i32, b: i32)
    ensures ToU32(a) == ToU32(b) ==> a == b
  {
  }

  lemma WordSame(code: Memory, ram: Memory, a: u32)
    requires Fits(code, ram)
    ensures var read := Ref.Read(code, ram, a, 4);
            if read.Some? then
              LoadWord(code, ram, a).Success? && Ref.Low32(read.value) == Signed(LoadWord(code, ram, a).value)
            else LoadWord(code, ram, a).Failure? && IsAccessError(LoadWord(code, ram, a).error)
  {
    hide Nat, Signed, Ref.Loaded, Ref.Read, LoadWord, Ref.Low32;
    LoadWordSame(code, ram, a);
    LoadErrors(code, ram, a);
    if LoadWord(code, ram, a).Success? {
      LoadedWord(LoadWord(code, ram, a).value);
    }
  }

  lemma StoreWordSame(ram: Memory, a: u32, value: i32)
    requires |ram| <= RAM_OFFSET
    ensures var written := Ref.Write(ram, a, 4, ToU32(value));
            if written.Some? then StoreWord(ram, a, value) == Success(written.value)
            else StoreWord(ram, a, value).Failure? && IsAccessError(StoreWord(ram, a, value).error)
  {
    hide Ref.Write, StoreBytes, ToBytes4, Bits, ToU32;
    StoreSame(ram, a, R.SW, value);
  }

  lemma LoadReservedActual(t: TypeR, code: Memory, m: Machine)
    requires t.Encodable() && t.func == 18 && Fits(code, m.ram)
    ensures Conforms(ExecOpAmo(t, code, m), R.LoadReserved(Reg(t.rd), Reg(t.rs1)), WordSize, code, m)
  {
    hide Reg, Signed, ToU32, Ref.Read, Ref.Low32, LoadWord, Actual;
    var r := R.LoadReserved(Reg(t.rd), Reg(t.rs1));
    AtomicArm(r, 4, code, m);
    GetSame(m, t.rs1);
    var a := ToU32(Get(m, t.rs1));
    WordSame(code, m.ram, a);
    if LoadWord(code, m.ram, a).Success? {
      var v := Signed(LoadWord(code, m.ram, a).value);
      NextSame(m.(reservation := Some(Reservation(a, v))), t.rd, v, WordSize);
    }
  }

  lemma StoreConditionalActual(t: TypeR, code: Memory, m: Machine)
    requires t.Encodable() && t.func == 19 && Fits(code, m.ram)
    ensures Conforms(ExecOpAmo(t, code, m), R.StoreConditional(Reg(t.rd), Reg(t.rs1), Reg(t.rs2)), WordSize, code, m)
  {
    hide Reg, Signed, ToU32, Ref.Read, Ref.Write, Ref.Low32, LoadWord, StoreWord, Actual,
      ExecAtomic;
    var r := R.StoreConditional(Reg(t.rd), Reg(t.rs1), Reg(t.rs2));
    AtomicArm(r, 4, code, m);
    GetSame(m, t.rs1);
    GetSame(m, t.rs2);
    var a := ToU32(Get(m, t.rs1));
    WordSame(code, m.ram, a);
    if LoadWord(code, m.ram, a).Success? {
      StoreConditionalDone(t, a, Signed(LoadWord(code, m.ram, a).value), Get(m, t.rs2), code, m);
    }
  }

  /** A store-conditional whose load succeeded, at any alignment. */
  lemma StoreConditionalDone(t: TypeR, a: u32, v: i32, b: i32, code: Memory, m: Machine)
    requires t.Encodable() && t.func == 19 && Fits(code, m.ram)
    requires Ref.Read(code, m.ram, a, 4).Some? && Ref.Low32(Ref.Read(code, m.ram, a, 4).value) == v
    ensures Agrees(ExecAtomic(t, a, v, b, m), Ref.DoStoreConditional(Reg(t.rd), a, Ref.Read(code, m.ram, a, 4), b, m))
  {
    hide Reg, ToU32, Ref.Read, Ref.Write, Ref.Low32, StoreWord;
    StoreWordSame(m.ram, a, b);
    var taken := m.(reservation := None);
    NextSame(taken, t.rd, 1, WordSize);
    if StoreWord(m.ram, a, b).Success? {
      NextSame(taken.(ram := StoreWord(m.ram, a, b).value), t.rd, 0, WordSize);
    }
  }

  lemma AmoActual(t: TypeR, code: Memory, m: Machine)
    requires t.Encodable() && AmoOf(t.func).Some? && Fits(code, m.ram)
    ensures Conforms(ExecOpAmo(t, code, m), R.Amo(AmoOf(t.func).value, Reg(t.rd), Reg(t.rs1), Reg(t.rs2)), WordSize,
             code, m)
  {
    hide Reg, Signed, ToU32, Ref.Read, Ref.Write, Ref.Low32, Ref.Writable, LoadWord, StoreWord, AmoResult,
      Ref.AmoValue, AmoOf, Actual, ExecAtomic;
    var r := R.Amo(AmoOf(t.func).value, Reg(t.rd), Reg(t.rs1), Reg(t.rs2));
    AtomicArm(r, 4, code, m);
    AmoNumbers(t.func, Get(m, t.rs1), Get(m, t.rs2));
    GetSame(m, t.rs1);
    GetSame(m, t.rs2);
    var a := ToU32(Get(m, t.rs1));
    WordSame(code, m.ram, a);
    if LoadWord(code, m.ram, a).Success? {
      AmoDone(t, a, Signed(LoadWord(code, m.ram, a).value), Get(m, t.rs2), code, m);
    }
  }

  lemma AmoNumbers(func: bv16, a: i32, b: i32)
    requires AmoOf(func).Some?
    ensures func != 18 && func != 19 && Alu(func, a, b).None?
  {
  }

  /** An atomic operation whose load succeeded, at any alignment. */
  lemma AmoDone(t: TypeR, a: u32, v: i32, b: i32, code: Memory, m: Machine)
    requires t.Encodable() && AmoOf(t.func).Some? && t.func != 18 && t.func != 19 && Fits(code, m.ram)
    requires Ref.Read(code, m.ram, a, 4).Some? && Ref.Low32(Ref.Read(code, m.ram, a, 4).value) == v
    ensures Agrees(ExecAtomic(t, a, v, b, m),
                   Ref.DoAmo(AmoOf(t.func).value, Reg(t.rd), a, Ref.Read(code, m.ram, a, 4), b, m))
  {
    hide Reg, ToU32, Ref.Read, Ref.Low32, StoreWord, AmoResult, Ref.AmoValue, AmoOf, Ref.Written, Ref.Writable;
    AmoSame(t.func, v, b);
    var stored := AmoResult(t.func, v, b).value;
    StoreWordSame(m.ram, a, stored);
    if StoreWord(m.ram, a, stored).Success? {
      NextSame(m.(ram := StoreWord(m.ram, a, stored).value), t.rd, v, WordSize);
    }
  }

  lemma OpAmoActual(t: TypeR, code: Memory, m: Machine)
    requires t.Encodable() && Fits(code, m.ram) && !OpAmoMeaning(t).Illegal?
    ensures Conforms(ExecOpAmo(t, code, m), OpAmoMeaning(t), WordSize, code, m)
  {
    hide Reg, Conforms, AluOf, AmoOf, ExecAtomic, LoadWord, Alu;
    if AluOf(t.func).Some? {
      RegisterOpActual(m, t.rd, t.rs1, t.rs2, t.func, WordSize, code);
    } else if t.func == 18 {
      LoadReservedActual(t, code, m);
    } else if t.func == 19 {
      StoreConditionalActual(t, code, m);
    } else {
      AmoActual(t, code, m);
    }
  }

  /**
    The function constants of OP/AMO without a meaning: the interpreter loads the word at rs1 before it
    rejects them, so that it reports an illegal instruction exactly when that load succeeds.
   */
  lemma UndefinedOpAmoActual(t: TypeR, code: Memory, m: Machine)
    requires t.Encodable() && Fits(code, m.ram) && OpAmoMeaning(t).Illegal?
    ensures Agrees(ExecOpAmo(t, code, m),
                   Ref.Effect(if Ref.Read(code, m.ram, ToU32(Src(m, Reg(t.rs1))), 4).Some?
                              then Ref.Report.IllegalInstruction else Ref.AccessFault, m))
  {
    hide Get, LoadWord, Signed, AluOf, AmoOf, Alu, AmoResult, PutUnlessZero, Ref.Read, Reg, ToU32;
    UndefinedAlu(t.func, Get(m, t.rs1), Get(m, t.rs2));
    GetSame(m, t.rs1);
    WordSame(code, m.ram, ToU32(Get(m, t.rs1)));
    if LoadWord(code, m.ram, ToU32(Get(m, t.rs1))).Success? {
      UndefinedAmo(t.func, Signed(LoadWord(code, m.ram, ToU32(Get(m, t.rs1))).value), Get(m, t.rs2));
    }
  }

  lemma UndefinedAlu(func: bv16, a: i32, b: i32)
    ensures AluOf(func).Some? <==> Alu(func, a, b).Some?
  {
    hide Xor, Or, And, ShiftRightLogical, ShiftRightArithmetic, Pow2, WrapI32, WrapI64, WrapU64, WrapU32, ToI32,
      ToU32, TruncDiv;
  }

  lemma UndefinedAmo(func: bv16, a: i32, b: i32)
    ensures AmoOf(func).Some? <==> AmoResult(func, a, b).Some?
  {
    hide Xor, Or, And, WrapI32, ToU32;
  }

  // Control and status registers.

  /** MIE becomes MPIE and nothing else of the control registers changes. */
  lemma ReturnKeepsRest(c: CsrFile)
    requires WellFormedCsrs(c)
    ensures C.TrapReturn(c) == c.(mstatus := Ref.Status(Ref.Mpie(c), Ref.Mpie(c)))
  {
  }

  lemma PrivilegedActual(t: TypeI, code: Memory, m: Machine)
    requires t.Encodable() && t.func == 0 && WellFormedCsrs(m.csr)
    ensures Conforms(ExecSystem(t, m), SystemMeaning(t), WordSize, code, m)
  {
    hide C.TrapReturn, Ref.Mpie, Ref.Status, UInt, Actual;
    PlainArms(4, code, m);
    LinkSame(m, WordSize);
    ReturnKeepsRest(m.csr);
  }

  /** Addresses compare alike as 12-bit fields and as 32-bit patterns. */
  lemma AddressField(imm: bv32)
    ensures CsrAddress(imm) as bv32 == Low12(imm)
  {
  }

  function Counterpart(name: Ref.CsrName): C.Name {
    match name
    case Mstatus => C.Mstatus
    case Misa => C.Misa
    case MieBits => C.Mie
    case Mtvec => C.Mtvec
    case Mscratch => C.Mscratch
    case Mepc => C.Mepc
    case Mcause => C.Mcause
    case Mtval => C.Mtval
    case MipBits => C.Mip
    case Hardwired => C.Zero
  }

  /** The interpreter has the reference machine's registers, and answers zero at the ignored addresses. */
  lemma SameNames(addr: bv16, wide: bv32)
    requires wide == addr as bv32
    ensures C.NameOf(addr) == match Ref.CsrAt(wide)
                              case None => (if Ignored(wide) then Some(C.Zero) else None)
                              case Some(name) => Some(Counterpart(name))
  {
  }

  lemma StatusBitsSame(v: bv32, w: bv32)
    requires v & 0x88 == w & 0x88
    ensures C.StatusBits(v) == Ref.StatusOf(w)
  {
  }

  lemma StatusRead(c: CsrFile)
    requires WellFormedCsrs(c)
    ensures Ref.CsrRead(c, Ref.Mstatus) == c.mstatus as bv32 | 0x1800
    ensures Ref.CsrRead(c, Ref.Mstatus) != c.mstatus as bv32
    ensures Ref.CsrRead(c, Ref.Misa) != C.MISA
  {
  }

  /** Every register but `mstatus` and `misa` is read as the reference machine reads it. */
  lemma RegisterRead(c: CsrFile, name: Ref.CsrName)
    requires WellFormedCsrs(c)
    ensures C.Read(c, Counterpart(name)) == Ref.CsrRead(c, name) <==> !name.Mstatus? && !name.Misa?
  {
    hide WellFormedCsrs;
    StatusRead(c);
  }

  lemma ShownStatus(c: CsrFile)
    requires WellFormedCsrs(c)
    ensures (c.mstatus as bv32 | 0x1800) & !0x1800 == c.mstatus as bv32
    ensures Ref.MISA_ACIM & !0x4 == C.MISA
  {
  }

  /** The interpreter shows every register but MPP and the bit of extension C. */
  lemma ReadShown(c: CsrFile, name: Ref.CsrName)
    requires WellFormedCsrs(c)
    ensures C.Read(c, Counterpart(name)) == Shown(c, name)
  {
    hide WellFormedCsrs;
    StatusRead(c);
    ShownStatus(c);
    RegisterRead(c, name);
  }

  lemma StatusBitsKept(s: bv32, operand: bv32)
    ensures (s | operand) & 0x88 == ((s | 0x1800) | operand) & 0x88
    ensures (s & !operand) & 0x88 == ((s | 0x1800) & !operand) & 0x88
  {
  }

  lemma StatusResult(op: R.CsrOp, s: bv32, operand: bv32)
    ensures Ref.CsrResult(op, s, operand) & 0x88 == Ref.CsrResult(op, s | 0x1800, operand) & 0x88
  {
    StatusBitsKept(s, operand);
  }

  lemma StatusWrite(c: CsrFile, op: R.CsrOp, operand: bv32)
    requires WellFormedCsrs(c)
    ensures C.StatusBits(Ref.CsrResult(op, c.mstatus as bv32, operand))
         == Ref.StatusOf(Ref.CsrResult(op, Ref.CsrRead(c, Ref.Mstatus), operand))
  {
    hide Ref.CsrResult, Ref.CsrRead, WellFormedCsrs, C.StatusBits, Ref.StatusOf;
    StatusRead(c);
    var s := c.mstatus as bv32;
    StatusResult(op, s, operand);
    StatusBitsSame(Ref.CsrResult(op, s, operand), Ref.CsrResult(op, s | 0x1800, operand));
  }

  lemma VectorSame(v: bv32)
    ensures C.DirectVector(v) == Ref.VectorOf(v)
  {
  }

  lemma EvenSame(v: bv32)
    ensures C.EvenAddress(v) == Ref.EvenOf(v)
  {
  }

  lemma InterruptBitSame(v: bv32)
    ensures C.HasInterruptBit(v) == Ref.InterruptOf(v)
  {
  }

  lemma UpdateSame(c: CsrFile, name: Ref.CsrName, v: bv32)
    ensures C.Update(c, Counterpart(name), v) == Ref.CsrWrite(c, name, v)
  {
    hide C.StatusBits, C.DirectVector, C.EvenAddress, C.HasInterruptBit, Ref.StatusOf, Ref.VectorOf, Ref.EvenOf,
      Ref.InterruptOf;
    StatusBitsSame(v, v);
    VectorSame(v);
    EvenSame(v);
    InterruptBitSame(v);
  }

  /** An operation writes what the reference machine writes. */
  lemma WriteSame(c: CsrFile, op: R.CsrOp, operand: bv32, name: Ref.CsrName)
    requires WellFormedCsrs(c)
    ensures var n := Counterpart(name);
            C.Update(c, n, Ref.CsrResult(op, C.Read(c, n), operand))
            == Ref.CsrWrite(c, name, Ref.CsrResult(op, Ref.CsrRead(c, name), operand))
  {
    hide Ref.CsrResult, Ref.CsrRead, WellFormedCsrs, C.StatusBits, C.DirectVector, C.EvenAddress, C.HasInterruptBit,
      C.InterruptBit, Ref.StatusOf, Ref.VectorOf, Ref.EvenOf, Ref.InterruptOf;
    if name.Mstatus? {
      StatusWrite(c, op, operand);
    } else if !name.Misa? {
      hide C.Read, C.Update, Ref.CsrWrite;
      RegisterRead(c, name);
      UpdateSame(c, name, Ref.CsrResult(op, Ref.CsrRead(c, name), operand));
    }
  }

  lemma OwnMasks(c: CsrFile)
    requires WellFormedCsrs(c)
    ensures C.StatusBits(c.mstatus as bv32) == c.mstatus
    ensures C.DirectVector(c.mtvec) == c.mtvec
    ensures C.HasInterruptBit(C.InterruptBit(c.mieEmbive)) == c.mieEmbive
    ensures C.HasInterruptBit(C.InterruptBit(c.mipEmbive)) == c.mipEmbive
  {
  }

  lemma NoOperation(v: bv32)
    ensures C.ExecuteOperation(None, v) == v
  {
  }

  /** A register written back keeps its value, except for bit 0 of `mepc`. */
  lemma UpdateOwn(c: CsrFile, name: C.Name)
    requires WellFormedCsrs(c)
    ensures C.Update(c, name, C.Read(c, name)) == if name.Mepc? then c.(mepc := C.EvenAddress(c.mepc)) else c
  {
    hide WellFormedCsrs, C.StatusBits, C.DirectVector, C.EvenAddress, C.HasInterruptBit, C.InterruptBit;
    OwnMasks(c);
  }

  /** Reading without an operation writes every register back unchanged, if `mepc` is even. */
  lemma CsrReadKeeps(c: CsrFile, addr: bv16)
    requires WellFormedCsrs(c) && C.Operation(c, None, addr).Success? && c.mepc & 0x1 == 0
    ensures C.Operation(c, None, addr).value.1 == c
  {
    hide C.NameOf, C.Update, C.Read, C.ExecuteOperation, C.EvenAddress, WellFormedCsrs;
    var name := C.NameOf(addr).value;
    NoOperation(C.Read(c, name));
    UpdateOwn(c, name);
    EvenSame(c.mepc);
    EvenBit(c.mepc);
  }

  /** The operation as the standard describes it. */
  function CsrOpOf(op: R.CsrOp, operand: bv32): C.CSOperation {
    match op
    case RW => C.Write(operand)
    case RS => C.Set(operand)
    case RC => C.Clear(operand)
  }

  lemma Widen(r: bv8)
    ensures r as bv32 == 0 <==> r == 0
  {
  }

  lemma RegFits(t: TypeI)
    requires t.Encodable()
    ensures t.rdRs2 < 32 && t.rs1 < 32
  {
  }

  lemma CsrOperationSame(t: TypeI, m: Machine)
    requires t.Encodable() && SystemMeaning(t).Csr?
    ensures var r := SystemMeaning(t);
            var written := Ref.Writes(r.csr, r.source);
            CsrOperation(t, m) == Some(if written then Some(CsrOpOf(r.csr, Operand(m, r.source))) else None)
  {
    hide Reg, Bits, Get, TypeI.Encodable;
    RegFits(t);
    GetSame(m, t.rs1);
    Widen(t.rs1);
    match t.func {
      case 0 =>
      case 1 =>
      case 2 =>
      case 3 =>
      case 4 =>
      case 5 =>
      case 6 =>
      case _ =>
    }
  }

  lemma CsrFields(t: TypeI)
    requires SystemMeaning(t).Csr?
    ensures SystemMeaning(t).addr == Low12(t.imm) && SystemMeaning(t).rd == Reg(t.rdRs2)
  {
    hide Reg, Low12;
  }

  lemma CsrOperationResult(op: R.CsrOp, operand: bv32, value: bv32)
    ensures C.ExecuteOperation(Some(CsrOpOf(op, operand)), value) == Ref.CsrResult(op, value, operand)
  {
    match op {
      case RW =>
      case RS =>
      case RC =>
    }
  }

  /** The machine after a CSR instruction that is accepted. */
  lemma CsrSucceeds(t: TypeI, op: Option<C.CSOperation>, name: C.Name, m: Machine)
    requires t.Encodable() && CsrOperation(t, m) == Some(op) && C.NameOf(CsrAddress(t.imm)) == Some(name)
    ensures var v := C.Read(m.csr, name);
            ExecCsr(t, m)
            == Next(PutUnlessZero(m.(csr := C.Update(m.csr, name, C.ExecuteOperation(op, v))), t.rdRs2, Signed(v)),
                    WordSize)
  {
    hide CsrOperation, C.NameOf, C.Read, C.Update, C.ExecuteOperation, CsrAddress, Signed, TypeI.Encodable, Put;
    RegFits(t);
  }

  /** Without an operation, the register is written back. */
  lemma NoWrite(c: CsrFile, name: Ref.CsrName)
    requires WellFormedCsrs(c)
    ensures var n := Counterpart(name);
            C.Update(c, n, C.ExecuteOperation(None, C.Read(c, n)))
            == if name.Mepc? then c.(mepc := Ref.EvenOf(c.mepc)) else c
  {
    hide C.Update, C.Read, C.ExecuteOperation, C.EvenAddress, Ref.EvenOf, WellFormedCsrs;
    NoOperation(C.Read(c, Counterpart(name)));
    UpdateOwn(c, Counterpart(name));
    EvenSame(c.mepc);
  }

  /** What an accepted CSR instruction does. */
  lemma CsrAccepted(t: TypeI, k: R.CsrOp, src: R.CsrSource, name: Ref.CsrName, m: Machine)
    requires t.Encodable() && WellFormedCsrs(m.csr)
    requires CsrOperation(t, m) == Some(if Ref.Writes(k, src) then Some(CsrOpOf(k, Operand(m, src))) else None)
    requires Ref.CsrAt(Low12(t.imm)) == Some(name) && C.NameOf(CsrAddress(t.imm)) == Some(Counterpart(name))
    ensures Agrees(ExecCsr(t, m), ActualCsr(k, Reg(t.rdRs2), src, Low12(t.imm), m))
  {
    hide Reg, Signed, CsrOperation, C.NameOf, Ref.CsrAt, C.Read, Ref.CsrRead, C.Update, Ref.CsrWrite,
      C.ExecuteOperation, Ref.CsrResult, Ref.Writes, Operand, CsrAddress, Low12, WellFormedCsrs,
      TypeI.Encodable, Counterpart, CsrOpOf, ExecCsr, Ref.SetX, PutUnlessZero, Shown, Ref.EvenOf;
    var n := Counterpart(name);
    var v, w, x := C.Read(m.csr, n), Ref.CsrRead(m.csr, name), Operand(m, src);
    RegFits(t);
    ReadShown(m.csr, name);
    NextSame(m.(csr := CsrAfter(k, src, name, m)), t.rdRs2, Signed(v), WordSize);
    if Ref.Writes(k, src) {
      CsrSucceeds(t, Some(CsrOpOf(k, x)), n, m);
      CsrOperationResult(k, x, v);
      WriteSame(m.csr, k, x, name);
    } else {
      CsrSucceeds(t, None, n, m);
      NoWrite(m.csr, name);
    }
  }

  lemma SignedZero()
    ensures Signed(0) == 0
  {
  }

  /** Where there is no register, the interpreter answers zero or rejects the address. */
  lemma CsrMissing(t: TypeI, op: Option<C.CSOperation>, k: R.CsrOp, src: R.CsrSource, m: Machine)
    requires t.Encodable() && CsrOperation(t, m) == Some(op)
    requires Ref.CsrAt(Low12(t.imm)) == None
    requires C.NameOf(CsrAddress(t.imm)) == if Ignored(Low12(t.imm)) then Some(C.Zero) else None
    ensures Agrees(ExecCsr(t, m), ActualCsr(k, Reg(t.rdRs2), src, Low12(t.imm), m))
  {
    hide Reg, Signed, CsrOperation, C.NameOf, Ref.CsrAt, Ignored, CsrAddress, Low12, TypeI.Encodable, PutUnlessZero,
      Ref.SetX, C.ExecuteOperation;
    RegFits(t);
    SignedZero();
    NextSame(m, t.rdRs2, 0, WordSize);
  }

  /** What any CSR instruction does. */
  lemma CsrActual(t: TypeI, code: Memory, m: Machine)
    requires t.Encodable() && t.func != 0 && WellFormedCsrs(m.csr) && SystemMeaning(t).Csr?
    ensures Conforms(ExecCsr(t, m), SystemMeaning(t), WordSize, code, m)
  {
    hide Reg, CsrOperation, SystemMeaning, ExecCsr, Ref.CsrAt, C.NameOf, Operand, Ref.Writes, Ignored, CsrOpOf,
      WellFormedCsrs, TypeI.Encodable, Agrees, Actual, ActualCsr, Counterpart, CsrAddress, Low12;
    var r := SystemMeaning(t);
    CsrArm(r, 4, code, m);
    CsrOperationSame(t, m);
    CsrFields(t);
    AddressField(t.imm);
    SameNames(CsrAddress(t.imm), Low12(t.imm));
    match Ref.CsrAt(r.addr) {
      case None => CsrMissing(t, CsrOperation(t, m).value, r.csr, r.source, m);
      case Some(name) => CsrAccepted(t, r.csr, r.source, name, m);
    }
  }

  lemma SystemActual(t: TypeI, code: Memory, m: Machine)
    requires t.Encodable() && WellFormedCsrs(m.csr)
    ensures Conforms(ExecSystem(t, m), SystemMeaning(t), WordSize, code, m)
  {
    hide Conforms, Reg, ExecCsr, WellFormedCsrs;
    if t.func == 0 {
      PrivilegedActual(t, code, m);
    } else if SystemMeaning(t).Csr? {
      CsrActual(t, code, m);
    } else {
      NoOperationActual(t, code, m);
    }
  }

  lemma NoOperationActual(t: TypeI, code: Memory, m: Machine)
    requires t.Encodable() && t.func != 0 && !SystemMeaning(t).Csr?
    ensures Conforms(ExecSystem(t, m), SystemMeaning(t), WordSize, code, m)
  {
    hide Reg;
  }

  // All instructions.

  /** The meaning of an instruction, except that zeros for which it names no register are told from x0. */
  function Named(e: Instruction): R.Instr {
    match e
    case CLi(t) => R.OpImm(R.ADD, Reg(t.rdRs1), NO_REGISTER, Signed(t.imm))
    case CBeqz(t) => R.Branch(R.EQ, Reg(t.rs1), NO_REGISTER, Signed(t.imm))
    case CBnez(t) => R.Branch(R.NE, Reg(t.rs1), NO_REGISTER, Signed(t.imm))
    case CJrMv(t) => NamedJrMv(t)
    case _ => Mean(e)
  }

  lemma CompressedArithmeticActual(e: Instruction, code: Memory, m: Machine)
    requires e.Encodable() && Fits(code, m.ram)
    requires e.CAddi4spn? || e.CAddi? || e.CLi? || e.CAddi16sp? || e.CLui? || e.CSrli? || e.CSrai? || e.CAndi?
              || e.CSlli?
    ensures Conforms(Execute(e, code, m), Named(e), e.Size(), code, m)
  {
    hide Conforms, Reg, Signed, WrapI32, Get, Next, PutUnlessZero;
    match e {
      case CAddi4spn(t) => CAddi4spnActual(t, code, m);
      case CAddi(t) => ImmediateAddActual(m, t.rdRs1, t.rdRs1, Signed(t.imm), HalfSize, code);
      case CLi(t) => CLiActual(t, code, m);
      case CAddi16sp(t) => CAddi16spActual(t, code, m);
      case CLui(t) => UpperActual(m, t.rdRs1, t.imm, HalfSize, code);
      case CSrli(t) => CSrliActual(t, code, m);
      case CSrai(t) => CSraiActual(t, code, m);
      case CAndi(t) => CAndiActual(t, code, m);
      case CSlli(t) => CSlliActual(t, code, m);
    }
  }

  lemma CompressedRegisterActual(t: TypeCS, code: Memory, m: Machine)
    requires t.Encodable() && Fits(code, m.ram)
    ensures Conforms(ExecCSub(t, m), Mean(CSub(t)), HalfSize, code, m)
    ensures Conforms(ExecCXor(t, m), Mean(CXor(t)), HalfSize, code, m)
    ensures Conforms(ExecCOr(t, m), Mean(COr(t)), HalfSize, code, m)
    ensures Conforms(ExecCAnd(t, m), Mean(CAnd(t)), HalfSize, code, m)
  {
    hide Conforms, Reg, WrapI32, Get, Next, PutUnlessZero, Xor, Or, And;
    RegisterOpActual(m, t.rdRs1, t.rdRs1, t.rs2, 1, HalfSize, code);
    RegisterOpActual(m, t.rdRs1, t.rdRs1, t.rs2, 5, HalfSize, code);
    RegisterOpActual(m, t.rdRs1, t.rdRs1, t.rs2, 8, HalfSize, code);
    RegisterOpActual(m, t.rdRs1, t.rdRs1, t.rs2, 9, HalfSize, code);
  }

  lemma CompressedMemoryActual(e: Instruction, code: Memory, m: Machine)
    requires e.Encodable() && Fits(code, m.ram)
    requires e.CLw? || e.CSw? || e.CLwsp? || e.CSwsp?
    ensures Conforms(Execute(e, code, m), Named(e), e.Size(), code, m)
  {
    hide Conforms, Reg, Signed, Get, Address, LoadValue, StoreData, ExecLoad, ExecStore;
    RegLiterals();
    match e {
      case CLw(t) => CompressedLoadActual(t.rdRs2, t.rs1, t.imm, code, m);
      case CSw(t) => CompressedStoreActual(t.rs1, t.rdRs2, t.imm, code, m);
      case CLwsp(t) => CompressedLoadActual(t.rdRs1, SP, t.imm, code, m);
      case CSwsp(t) => CompressedStoreActual(SP, t.rs2, t.imm, code, m);
    }
  }

  lemma CompressedJumpActual(e: Instruction, code: Memory, m: Machine)
    requires e.Encodable() && Fits(code, m.ram)
    requires e.CJal? || e.CJ? || e.CBeqz? || e.CBnez? || e.CJrMv? || e.CEbreakJalrAdd?
    ensures Conforms(Execute(e, code, m), Named(e), e.Size(), code, m)
  {
    hide Conforms, Reg, Signed, ExecCJal, ExecCJ, ExecCBeqz, ExecCBnez, ExecJrMv, ExecEbreakJalrAdd, NamedJrMv,
      EbreakJalrAddMeaning;
    match e {
      case CJal(t) => CJumpActual(t, code, m);
      case CJ(t) => CJumpActual(t, code, m);
      case CBeqz(t) => ZeroBranchActual(t, code, m);
      case CBnez(t) => ZeroBranchActual(t, code, m);
      case CJrMv(t) => JrMvActual(t, code, m);
      case CEbreakJalrAdd(t) => EbreakJalrAddActual(t, code, m);
    }
  }

  lemma WordActual(e: Instruction, code: Memory, m: Machine)
    requires e.Encodable() && Fits(code, m.ram) && WellFormedCsrs(m.csr) && e.Size() == WordSize
    requires !(e.OpAmo? && OpAmoMeaning(e.r).Illegal?)
    ensures Conforms(Execute(e, code, m), Named(e), WordSize, code, m)
  {
    hide Conforms, Reg, Signed, Get, Next, PutUnlessZero, ExecAuipc, ExecBranch, ExecJal, ExecJalr,
      ExecLoadStore, ExecOpImm, ExecOpAmo, ExecSystem, BranchMeaning, LoadStoreMeaning, OpImmMeaning,
      OpAmoMeaning, SystemMeaning, WellFormedCsrs;
    match e {
      case Auipc(t) => AuipcActual(t, code, m);
      case Branch(t) => BranchActual(t, code, m);
      case Jal(t) => JalActual(t, code, m);
      case Jalr(t) => JalrActual(t, code, m);
      case LoadStore(t) => LoadStoreActual(t, code, m);
      case Lui(t) => UpperActual(m, t.rd, t.imm, WordSize, code);
      case OpImm(t) => OpImmActual(t, code, m);
      case OpAmo(t) => OpAmoActual(t, code, m);
      case SystemMiscMem(t) => SystemActual(t, code, m);
    }
  }

  /** Every instruction but the OP/AMO functions without a meaning, on every machine. */
  lemma ExecuteNamed(e: Instruction, code: Memory, m: Machine)
    requires e.Encodable() && Fits(code, m.ram) && WellFormedCsrs(m.csr) && !(e.OpAmo? && OpAmoMeaning(e.r).Illegal?)
    ensures Conforms(Execute(e, code, m), Named(e), e.Size(), code, m)
  {
    hide Conforms, Named, Mean, OpAmoMeaning, WellFormedCsrs;
    if e.Size() == WordSize {
      WordActual(e, code, m);
    } else if e.CLw? || e.CSw? || e.CLwsp? || e.CSwsp? {
      CompressedMemoryActual(e, code, m);
    } else if e.CJal? || e.CJ? || e.CBeqz? || e.CBnez? || e.CJrMv? || e.CEbreakJalrAdd? {
      CompressedJumpActual(e, code, m);
    } else if e.CSub? || e.CXor? || e.COr? || e.CAnd? {
      CompressedRegisterActual(e.cs, code, m);
      CompressedRegisterNamed(e);
    } else {
      CompressedArithmeticActual(e, code, m);
    }
  }

  lemma CompressedRegisterNamed(e: Instruction)
    requires e.CSub? || e.CXor? || e.COr? || e.CAnd?
    ensures Named(e) == Mean(e)
  {
    hide Mean;
  }

  /** What any decoded instruction does: OP/AMO functions without a meaning load a word first. */
  function ActualOf(e: Instruction, code: Memory, m: Machine): Ref.Effect {
    if e.OpAmo? && OpAmoMeaning(e.r).Illegal? then
      Ref.Effect(if Ref.Read(code, m.ram, ToU32(Src(m, Reg(e.r.rs1))), 4).Some? then Ref.Report.IllegalInstruction
                 else Ref.AccessFault, m)
    else
      Actual(Named(e), e.Size().Bytes(), code, m)
  }

  /** The interpreter executes every instruction as described, on every machine. */
  lemma ExecuteActual(e: Instruction, code: Memory, m: Machine)
    requires e.Encodable() && Fits(code, m.ram) && WellFormedCsrs(m.csr)
    ensures Agrees(Execute(e, code, m), ActualOf(e, code, m))
  {
    hide Agrees, Named, Execute, ExecOpAmo, Actual, OpAmoMeaning, Ref.Read, Reg, ToU32, WellFormedCsrs;
    if e.OpAmo? && OpAmoMeaning(e.r).Illegal? {
      UndefinedOpAmoActual(e.r, code, m);
      Effects.ExecuteOpAmo(e.r, code, m);
    } else {
      ExecuteNamed(e, code, m);
    }
  }

  // The standard: with zero in x0 the interpreter agrees with it unless `Diverges` holds.

  /** x0 holds zero, CSRs are well formed, and memory fits the address space. */
  predicate Sound(code: Memory, m: Machine) {
    m.regs[0] == 0 && WellFormedCsrs(m.csr) && Fits(code, m.ram)
  }

  /** The outcome is known in every case, and is the standard's exactly when the instruction does not diverge. */
  predicate Verdict(o: Outcome, r: R.Instr, size: Size, code: Memory, m: Machine) {
    && Conforms(o, r, size, code, m)
    && (Agrees(o, Ref.Perform(r, size.Bytes(), code, m)) <==> !Diverges(r, size.Bytes(), code, m))
  }

  lemma AgreesOnce(o: Outcome, e: Ref.Effect, f: Ref.Effect)
    requires Agrees(o, e)
    ensures Agrees(o, f) <==> e == f
  {
  }

  lemma Decide(o: Outcome, r: R.Instr, size: Size, code: Memory, m: Machine)
    requires Conforms(o, r, size, code, m) && m.regs[0] == 0 && (r.Csr? ==> r.rd < 32)
    ensures Verdict(o, r, size, code, m)
  {
    hide Agrees, Actual, Ref.Perform, Diverges;
    DivergesExactly(r, size.Bytes(), code, m);
    AgreesOnce(o, Actual(r, size.Bytes(), code, m), Ref.Perform(r, size.Bytes(), code, m));
  }

  lemma LoadStoreVerdict(t: TypeI, code: Memory, m: Machine)
    requires t.Encodable() && Sound(code, m)
    ensures Verdict(ExecLoadStore(t, code, m), LoadStoreMeaning(t), WordSize, code, m)
  {
    hide Conforms, Verdict, ExecLoadStore, Reg, Signed;
    LoadStoreActual(t, code, m);
    Decide(ExecLoadStore(t, code, m), LoadStoreMeaning(t), WordSize, code, m);
  }

  lemma OpAmoVerdict(t: TypeR, code: Memory, m: Machine)
    requires t.Encodable() && Sound(code, m) && !OpAmoMeaning(t).Illegal?
    ensures Verdict(ExecOpAmo(t, code, m), OpAmoMeaning(t), WordSize, code, m)
  {
    hide Conforms, Verdict, ExecOpAmo, Reg, AluOf, AmoOf;
    OpAmoActual(t, code, m);
    Decide(ExecOpAmo(t, code, m), OpAmoMeaning(t), WordSize, code, m);
  }

  lemma RdBound(t: TypeI)
    requires t.Encodable()
    ensures SystemMeaning(t).Csr? ==> SystemMeaning(t).rd < 32
  {
    hide Reg, Low12, SystemMeaning;
    RegBound(t.rdRs2);
    if SystemMeaning(t).Csr? {
      CsrFields(t);
    }
  }

  lemma SystemVerdict(t: TypeI, code: Memory, m: Machine)
    requires t.Encodable() && Sound(code, m)
    ensures Verdict(ExecSystem(t, m), SystemMeaning(t), WordSize, code, m)
  {
    hide Conforms, Verdict, ExecSystem, SystemMeaning;
    SystemActual(t, code, m);
    RdBound(t);
    Decide(ExecSystem(t, m), SystemMeaning(t), WordSize, code, m);
  }

  lemma CsrVerdict(t: TypeI, code: Memory, m: Machine)
    requires t.Encodable() && t.func != 0 && Sound(code, m) && SystemMeaning(t).Csr?
    ensures Verdict(ExecCsr(t, m), SystemMeaning(t), WordSize, code, m)
  {
    hide Conforms, Verdict, ExecCsr, SystemMeaning;
    CsrActual(t, code, m);
    RdBound(t);
    Decide(ExecCsr(t, m), SystemMeaning(t), WordSize, code, m);
  }

  lemma BranchVerdict(t: TypeB, code: Memory, m: Machine)
    requires t.Encodable() && Sound(code, m)
    ensures Verdict(ExecBranch(t, m), BranchMeaning(t), WordSize, code, m)
  {
    hide Conforms, Verdict, ExecBranch, Reg, Signed;
    BranchActual(t, code, m);
    Decide(ExecBranch(t, m), BranchMeaning(t), WordSize, code, m);
  }

  lemma JalVerdict(t: TypeJ, code: Memory, m: Machine)
    requires t.Encodable() && Sound(code, m)
    ensures Verdict(ExecJal(t, m), R.Jal(Reg(t.rd), Signed(t.imm)), WordSize, code, m)
  {
    hide Conforms, Verdict, ExecJal, Reg, Signed;
    JalActual(t, code, m);
    Decide(ExecJal(t, m), R.Jal(Reg(t.rd), Signed(t.imm)), WordSize, code, m);
  }

  /** Clearing bit 0 changes a target exactly when it is odd. */
  lemma JalrVerdict(t: TypeI, code: Memory, m: Machine)
    requires t.Encodable() && Sound(code, m)
    ensures Verdict(ExecJalr(t, m), R.Jalr(Reg(t.rdRs2), Reg(t.rs1), Signed(t.imm)), WordSize, code, m)
  {
    hide Conforms, Verdict, ExecJalr, Reg, Signed;
    JalrActual(t, code, m);
    Decide(ExecJalr(t, m), R.Jalr(Reg(t.rdRs2), Reg(t.rs1), Signed(t.imm)), WordSize, code, m);
  }

  lemma OpImmVerdict(t: TypeI, code: Memory, m: Machine)
    requires t.Encodable() && Sound(code, m)
    ensures Verdict(ExecOpImm(t, m), OpImmMeaning(t), WordSize, code, m)
  {
    hide Conforms, Verdict, ExecOpImm, Reg, Signed, Nat;
    OpImmActual(t, code, m);
    Decide(ExecOpImm(t, m), OpImmMeaning(t), WordSize, code, m);
  }

  /** With zero in x0 a register that is not named may as well be x0. */
  lemma NamedSame(e: Instruction, n: nat, code: Memory, m: Machine)
    requires m.regs[0] == 0
    ensures Actual(Named(e), n, code, m) == Actual(Mean(e), n, code, m)
  {
    hide Reg, Signed, Ref.Alu, Ref.SetX, SetAny, Ref.Holds, Ref.Target;
    if !e.CLi? && !e.CBeqz? && !e.CBnez? && !e.CJrMv? {
      hide Actual, Mean;
    }
  }

  lemma JrMvVerdict(t: TypeCR, code: Memory, m: Machine)
    requires t.Encodable() && Sound(code, m)
    ensures Verdict(ExecJrMv(t, m), JrMvMeaning(t), HalfSize, code, m)
  {
    hide Verdict, ExecJrMv, Reg, Actual, Agrees;
    JrMvActual(t, code, m);
    NamedSame(CJrMv(t), 2, code, m);
    Decide(ExecJrMv(t, m), JrMvMeaning(t), HalfSize, code, m);
  }

  lemma EbreakJalrAddVerdict(t: TypeCR, code: Memory, m: Machine)
    requires t.Encodable() && Sound(code, m)
    ensures Verdict(ExecEbreakJalrAdd(t, m), EbreakJalrAddMeaning(t), HalfSize, code, m)
  {
    hide Conforms, Verdict, ExecEbreakJalrAdd, Reg;
    EbreakJalrAddActual(t, code, m);
    Decide(ExecEbreakJalrAdd(t, m), EbreakJalrAddMeaning(t), HalfSize, code, m);
  }

  lemma MeanOpAmo(t: TypeR)
    ensures Mean(OpAmo(t)) == OpAmoMeaning(t)
  {
    hide OpAmoMeaning;
  }

  lemma MeanCsr(e: Instruction)
    requires Mean(e).Csr?
    ensures e.SystemMiscMem? && Mean(e) == SystemMeaning(e.i)
  {
    hide Reg, Signed, Nat, AluOf, AmoOf, SystemMeaning;
  }

  /**
    Executing an instruction agrees with performing what it means exactly when it does not diverge, for
    all 32 opcodes and every sound machine.
   */
  lemma ExecuteVerdict(e: Instruction, code: Memory, m: Machine)
    requires e.Encodable() && Sound(code, m) && !(e.OpAmo? && Mean(e).Illegal?)
    ensures Verdict(Execute(e, code, m), Mean(e), e.Size(), code, m)
  {
    hide Verdict, Mean, Named, Execute, Actual, Agrees, OpAmoMeaning, WellFormedCsrs, SystemMeaning;
    if e.OpAmo? {
      MeanOpAmo(e.r);
    }
    ExecuteNamed(e, code, m);
    NamedSame(e, e.Size().Bytes(), code, m);
    if Mean(e).Csr? {
      MeanCsr(e);
      RdBound(e.i);
    }
    Decide(Execute(e, code, m), Mean(e), e.Size(), code, m);
  }

  /** The values of `misa` and `mstatus` that the interpreter shows. */
  lemma ShownBits(c: CsrFile)
    requires WellFormedCsrs(c)
    ensures C.Read(c, C.Misa) == Shown(c, Ref.Misa) == 0x4000_0000 | 0x1000 | 0x100 | 0x1
    ensures C.Read(c, C.Mstatus) == Shown(c, Ref.Mstatus)
         == (if Ref.Mie(c) then 0x8 else 0) | (if Ref.Mpie(c) then 0x80 else 0)
  {
  }
}
