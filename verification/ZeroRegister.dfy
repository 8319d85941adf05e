/** Register x0 over whole executions (src/interpreter/registers/cpu.rs and the instructions that write it). */
module ZeroRegister {
  import opened Wrappers
  import opened Words
  import opened Formats
  import opened Embive
  import opened Machines
  import opened MemoryModel
  import opened Exec
  import opened Csr
  import opened Effects
  import opened Executions
  import S = Steps

  /** The instruction puts a value other than zero in x0: loads, C.LWSP, C.MV and C.ADD with rd = 0. */
  predicate Leaks(e: Instruction, code: Memory, m: Machine)
    requires e.Encodable()
  {
    match e
    case LoadStore(t) =>
      t.func < 5 && t.rdRs2 == 0 && Differs(LoadValue(t.func, code, m.ram, Address(Get(m, t.rs1), t.imm)))
    case CLwsp(t) => t.rdRs1 == 0 && Differs(LoadValue(2, code, m.ram, Address(Get(m, SP), t.imm)))
    case CJrMv(t) => t.rs2 != 0 && t.rdRs1 == 0 && Get(m, t.rs2) != 0
    case CEbreakJalrAdd(t) => t.rs2 != 0 && t.rdRs1 == 0 && WrapI32(Get(m, t.rdRs1) + Get(m, t.rs2)) != 0
    case _ => false
  }

  predicate Differs(value: Result<i32, Error>) {
    value.Success? && value.value != 0
  }

  lemma PutZero(m: Machine, r: bv8, value: i32)
    requires r < 32
    ensures r == 0 ==> Put(m, r, value).regs[0] == value
    ensures r != 0 ==> Put(m, r, value).regs[0] == m.regs[0]
    ensures PutUnlessZero(m, r, value).regs[0] == m.regs[0]
  {
    RegBound(r);
  }

  lemma NextZero(m: Machine, r: bv8, value: i32, size: Size)
    requires r < 32
    ensures Next(PutUnlessZero(m, r, value), size).machine.regs[0] == m.regs[0]
  {
    hide Put;
    PutZero(m, r, value);
  }

  lemma LoadZero(m: Machine, rd: bv8, value: Result<i32, Error>, size: Size)
    requires rd < 32 && m.regs[0] == 0
    ensures ExecLoad(m, rd, value, size).machine.regs[0] == 0 <==> !(rd == 0 && Differs(value))
  {
    hide Put;
    if value.Success? {
      PutZero(m, rd, value.value);
    }
  }

  lemma StoreZero(m: Machine, address: u32, data: Memory, size: Size)
    ensures ExecStore(m, address, data, size).machine.regs == m.regs
  {
  }

  lemma AtomicZero(t: TypeR, address: u32, value: i32, rs2: i32, m: Machine)
    requires t.Encodable()
    ensures ExecAtomic(t, address, value, rs2, m).machine.regs[0] == m.regs[0]
  {
    hide StoreWord, AmoResult, Put;
    forall n: Machine, v: i32 ensures PutUnlessZero(n, t.rd, v).regs[0] == n.regs[0] {
      PutZero(n, t.rd, v);
    }
  }

  lemma OpAmoZero(t: TypeR, code: Memory, m: Machine)
    requires t.Encodable()
    ensures ExecOpAmo(t, code, m).machine.regs[0] == m.regs[0]
  {
    hide Get, Signed, LoadWord, ExecAtomic, Alu, PutUnlessZero;
    var rs1, rs2 := Get(m, t.rs1), Get(m, t.rs2);
    if Alu(t.func, rs1, rs2).Some? {
      NextZero(m, t.rd, Alu(t.func, rs1, rs2).value, WordSize);
    } else if LoadWord(code, m.ram, ToU32(rs1)).Success? {
      AtomicZero(t, ToU32(rs1), Signed(LoadWord(code, m.ram, ToU32(rs1)).value), rs2, m);
    }
  }

  lemma SystemZero(t: TypeI, m: Machine)
    requires t.Encodable()
    ensures ExecSystem(t, m).machine.regs[0] == m.regs[0]
  {
    hide Signed, UInt, Operation, CsrOperation, TrapReturn, Get, PutUnlessZero, CsrAddress;
    if CsrOperation(t, m).Some? {
      var done := Operation(m.csr, CsrOperation(t, m).value, CsrAddress(t.imm));
      if done.Success? {
        NextZero(m.(csr := done.value.1), t.rdRs2, Signed(done.value.0), WordSize);
      }
    }
  }

  /** The instructions that are neither memory accesses nor in the last two groups. */
  lemma PlainZero(e: Instruction, code: Memory, m: Machine)
    requires e.Encodable() && m.regs[0] == 0
    requires !e.OpAmo? && !e.SystemMiscMem? && !e.LoadStore? && !e.CLw? && !e.CLwsp? && !e.CSw? && !e.CSwsp?
    ensures Execute(e, code, m).machine.regs[0] == 0 <==> !Leaks(e, code, m)
  {
    hide Signed, UInt, Get, WrapI32, Xor, Or, And, ShiftRightLogical, ShiftRightArithmetic, Pow2, Taken,
      OpImmResult, Link, Put, Address;
    forall n: Machine, r: bv8, v: i32 | r < 32
      ensures PutUnlessZero(n, r, v).regs[0] == n.regs[0]
      ensures r == 0 ==> Put(n, r, v).regs[0] == v
      ensures r != 0 ==> Put(n, r, v).regs[0] == n.regs[0]
    {
      PutZero(n, r, v);
    }
  }

  /** x0 is still zero after an instruction exactly when the instruction does not leak into it. */
  lemma ZeroExactly(e: Instruction, code: Memory, m: Machine)
    requires e.Encodable() && m.regs[0] == 0
    ensures Execute(e, code, m).machine.regs[0] == 0 <==> !Leaks(e, code, m)
  {
    hide Get, Address, LoadValue, StoreData, ExecLoad, ExecStore, ExecOpAmo, ExecSystem, Differs;
    match e {
      case OpAmo(t) => OpAmoZero(t, code, m);
      case SystemMiscMem(t) => SystemZero(t, m);
      case LoadStore(t) =>
        LoadZero(m, t.rdRs2, LoadValue(t.func, code, m.ram, Address(Get(m, t.rs1), t.imm)), WordSize);
        StoreZero(m, Address(Get(m, t.rs1), t.imm), StoreData(t.func, Get(m, t.rdRs2)), WordSize);
      case CLw(t) => LoadZero(m, t.rdRs2, LoadValue(2, code, m.ram, Address(Get(m, t.rs1), t.imm)), HalfSize);
      case CLwsp(t) => LoadZero(m, t.rdRs1, LoadValue(2, code, m.ram, Address(Get(m, SP), t.imm)), HalfSize);
      case CSw(t) => StoreZero(m, Address(Get(m, t.rs1), t.imm), StoreData(7, Get(m, t.rdRs2)), HalfSize);
      case CSwsp(t) => StoreZero(m, Address(Get(m, SP), t.imm), StoreData(7, Get(m, t.rs2)), HalfSize);
      case _ => PlainZero(e, code, m);
    }
  }

  predicate LeaksNow(code: Memory, m: Machine, e: Event) {
    e.Instruction? && Current(code, m).Some? && Leaks(Current(code, m).value, code, m)
  }

  lemma EventZero(code: Memory, m: Machine, e: Event)
    requires m.regs[0] == 0
    ensures Interpret(code, m, e).1.regs[0] == 0 <==> !LeaksNow(code, m, e)
  {
    hide S.Step, Current, Execute, Leaks, TrapEntry, UInt, Instruction.Encodable, S.Fetch;
    if e.Instruction? {
      StepIs(code, m);
      if Current(code, m).Some? {
        ZeroExactly(Current(code, m).value, code, m);
      }
    }
  }

  predicate NeverLeaks(code: Memory, m: Machine, es: seq<Event>)
    decreases |es|
  {
    es == [] || (!LeaksNow(code, m, es[0]) && NeverLeaks(code, Interpret(code, m, es[0]).1, es[1..]))
  }

  /** Over any execution, mixed with interrupts and system calls, x0 stays zero if no instruction leaks into it. */
  lemma {:induction false} ZeroStaysZero(code: Memory, m: Machine, es: seq<Event>)
    requires m.regs[0] == 0 && NeverLeaks(code, m, es)
    ensures InterpretAll(code, m, es).1.regs[0] == 0
    decreases |es|
  {
    hide Interpret, LeaksNow;
    if es != [] {
      EventZero(code, m, es[0]);
      ZeroStaysZero(code, Interpret(code, m, es[0]).1, es[1..]);
    }
  }
}
