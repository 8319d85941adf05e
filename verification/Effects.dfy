/**
  What one step can change: which instructions touch the control registers and the reservation, and what
  a step that fails leaves behind.
 */
module Effects {
  import opened Wrappers
  import opened Words
  import opened Formats
  import opened Embive
  import opened Machines
  import opened MemoryModel
  import opened Exec
  import opened Csr
  import S = Steps
  import Shapes

  /** The instruction that a step executes, if it can be fetched. */
  function Current(code: Memory, m: Machine): (e: Option<Instruction>)
    ensures e.Some? ==> e.value.Encodable()
  {
    match S.Fetch(code, m)
    case Failure(_) => None
    case Success(data) => Shapes.DecodeShaped(data); Decode(data)
  }

  lemma StepIs(code: Memory, m: Machine)
    ensures Current(code, m).Some? ==> S.Step(code, m) == Execute(Current(code, m).value, code, m)
    ensures Current(code, m).None? ==>
              S.Fetch(code, m).Failure? && S.Step(code, m) == Fault(m, S.Fetch(code, m).error)
  {
    hide S.Fetch, Decode, Execute, Instruction.Encodable;
    if S.Fetch(code, m).Success? {
      Shapes.DecodeShaped(S.Fetch(code, m).value);
    }
  }

  /** The instructions that reach neither the control registers nor the reservation. */
  predicate Ordinary(e: Instruction) {
    !e.OpAmo? && !e.SystemMiscMem?
  }

  /** Control registers, reservation and the size of RAM are kept, and everything is kept by a fault. */
  predicate Harmless(m: Machine, o: Outcome) {
    && o.machine.csr == m.csr
    && o.machine.reservation == m.reservation
    && |o.machine.ram| == |m.ram|
    && (o.result.Failure? ==> o.machine == m && !o.result.error.InvalidCPURegister?)
  }

  /** Only registers and the program counter change, and nothing does by a fault. */
  predicate Quiet(m: Machine, o: Outcome) {
    Harmless(m, o) && o.machine.ram == m.ram
  }

  predicate Stores(e: Instruction) {
    e.CSw? || e.CSwsp? || (e.LoadStore? && e.i.func >= 5)
  }

  lemma LoadQuiet(m: Machine, rd: bv8, func: bv8, code: Memory, address: u32, size: Size)
    requires rd < 32
    ensures Quiet(m, ExecLoad(m, rd, LoadValue(func, code, m.ram, address), size))
  {
    hide Signed, AsI8, AsI16, FromBytes2, FromBytes4;
  }

  lemma StoreHarmless(m: Machine, address: u32, data: Memory, size: Size)
    ensures Harmless(m, ExecStore(m, address, data, size))
  {
  }

  lemma LoadsQuiet(e: Instruction, code: Memory, m: Machine)
    requires e.Encodable() && !Stores(e) && (e.CLw? || e.CLwsp? || e.LoadStore?)
    ensures Quiet(m, Execute(e, code, m))
  {
    hide Get, Address, LoadValue, ExecLoad, Quiet;
    match e {
      case CLw(t) => LoadQuiet(m, t.rdRs2, 2, code, Address(Get(m, t.rs1), t.imm), HalfSize);
      case CLwsp(t) => LoadQuiet(m, t.rdRs1, 2, code, Address(Get(m, SP), t.imm), HalfSize);
      case LoadStore(t) => LoadQuiet(m, t.rdRs2, t.func, code, Address(Get(m, t.rs1), t.imm), WordSize);
    }
  }

  lemma StoresHarmless(e: Instruction, code: Memory, m: Machine)
    requires e.Encodable() && Stores(e)
    ensures Harmless(m, Execute(e, code, m))
  {
    hide Get, Address, StoreData, ExecStore, Harmless;
    match e {
      case CSw(t) => StoreHarmless(m, Address(Get(m, t.rs1), t.imm), StoreData(7, Get(m, t.rdRs2)), HalfSize);
      case CSwsp(t) => StoreHarmless(m, Address(Get(m, SP), t.imm), StoreData(7, Get(m, t.rs2)), HalfSize);
      case LoadStore(t) =>
        StoreHarmless(m, Address(Get(m, t.rs1), t.imm), StoreData(t.func, Get(m, t.rdRs2)), WordSize);
    }
  }

  lemma CompressedQuiet(e: Instruction, code: Memory, m: Machine)
    requires e.Encodable() && e.Size().HalfSize? && !e.CLw? && !e.CLwsp? && !Stores(e)
    ensures Quiet(m, Execute(e, code, m))
  {
    hide Signed, UInt, Get, WrapI32, Xor, Or, And, ShiftRightLogical, ShiftRightArithmetic, Pow2, Link;
  }

  lemma FullQuiet(e: Instruction, code: Memory, m: Machine)
    requires e.Encodable() && e.Size().WordSize? && Ordinary(e) && !e.LoadStore?
    ensures Quiet(m, Execute(e, code, m))
  {
    hide Signed, Get, Address, Taken, OpImmResult, Link;
  }

  lemma OrdinaryQuiet(e: Instruction, code: Memory, m: Machine)
    requires e.Encodable() && Ordinary(e) && !Stores(e)
    ensures Quiet(m, Execute(e, code, m))
  {
    hide Execute, Quiet, Instruction.Encodable;
    if e.CLw? || e.CLwsp? || e.LoadStore? {
      LoadsQuiet(e, code, m);
    } else if e.Size().HalfSize? {
      CompressedQuiet(e, code, m);
    } else {
      FullQuiet(e, code, m);
    }
  }

  lemma OrdinaryHarmless(e: Instruction, code: Memory, m: Machine)
    requires e.Encodable() && Ordinary(e)
    ensures Harmless(m, Execute(e, code, m))
  {
    hide Execute, Harmless, Instruction.Encodable;
    if Stores(e) {
      StoresHarmless(e, code, m);
    } else {
      OrdinaryQuiet(e, code, m);
    }
  }

  // Atomics.

  /** A load-reserved, or a store-conditional, that has loaded `value` from `address`. */
  datatype Reserving = Reserves(address: u32, value: i32) | Conditional(address: u32, value: i32, rs2: i32) | Neither

  function ReservingOf(e: Instruction, code: Memory, m: Machine): Reserving
    requires e.Encodable()
  {
    if !e.OpAmo? || (e.r.func != 18 && e.r.func != 19) then
      Neither
    else
      var address := ToU32(Get(m, e.r.rs1));
      match LoadWord(code, m.ram, address)
      case Failure(_) => Neither
      case Success(word) =>
        if e.r.func == 18 then Reserves(address, Signed(word)) else Conditional(address, Signed(word), Get(m, e.r.rs2))
  }

  /** What a step does to the reservation. */
  function ReservationAfter(r: Reserving, before: Option<Reservation>): Option<Reservation> {
    match r
    case Reserves(address, value) => Some(Reservation(address, value))
    case Conditional(_, _, _) => None
    case Neither => before
  }

  lemma FinishOpAmo(m: Machine, rd: bv8, value: i32)
    requires rd < 32
    ensures var o := Next(PutUnlessZero(m, rd, value), WordSize);
            && o.result == S.RUNNING
            && o.machine.csr == m.csr && o.machine.ram == m.ram && o.machine.reservation == m.reservation
  {
  }

  lemma StoreKeepsSize(ram: Memory, address: u32, value: i32)
    ensures StoreWord(ram, address, value).Success? ==> |StoreWord(ram, address, value).value| == |ram|
    ensures StoreWord(ram, address, value).Failure? ==> !StoreWord(ram, address, value).error.InvalidCPURegister?
  {
    hide ToBytes4, Bits;
  }

  lemma LoadErrors(code: Memory, ram: Memory, address: u32)
    ensures LoadWord(code, ram, address).Failure? ==> !LoadWord(code, ram, address).error.InvalidCPURegister?
  {
    hide FromBytes4;
  }

  /** A fault changes nothing, except that a store-conditional has given up a matching reservation. */
  predicate PreciseFault(m: Machine, o: Outcome, r: Reserving) {
    o.result.Failure? ==>
      && !o.result.error.InvalidCPURegister?
      && o.machine == m.(reservation := ReservationAfter(r, m.reservation))
      && (r.Neither? || (r.Conditional? && m.reservation == Some(Reservation(r.address, r.value))
                         && StoreWord(m.ram, r.address, r.rs2).Failure?))
  }

  lemma AtomicEffect(t: TypeR, code: Memory, m: Machine, word: bv32)
    requires t.Encodable() && LoadWord(code, m.ram, ToU32(Get(m, t.rs1))) == Success(word)
    ensures var o := ExecAtomic(t, ToU32(Get(m, t.rs1)), Signed(word), Get(m, t.rs2), m);
            var r := ReservingOf(OpAmo(t), code, m);
            && o.machine.csr == m.csr && |o.machine.ram| == |m.ram|
            && o.machine.reservation == ReservationAfter(r, m.reservation)
            && PreciseFault(m, o, r)
  {
    hide Get, Signed, LoadWord, StoreWord, AmoResult, PutUnlessZero, Advance;
    var address, value, rs2 := ToU32(Get(m, t.rs1)), Signed(word), Get(m, t.rs2);
    StoreKeepsSize(m.ram, address, rs2);
    FinishOpAmo(m.(reservation := Some(Reservation(address, value))), t.rd, value);
    FinishOpAmo(m.(reservation := None), t.rd, 1);
    if StoreWord(m.ram, address, rs2).Success? {
      FinishOpAmo(m.(reservation := None, ram := StoreWord(m.ram, address, rs2).value), t.rd, 0);
    }
    if AmoResult(t.func, value, rs2).Some? {
      var stored := AmoResult(t.func, value, rs2).value;
      StoreKeepsSize(m.ram, address, stored);
      if StoreWord(m.ram, address, stored).Success? {
        FinishOpAmo(m.(ram := StoreWord(m.ram, address, stored).value), t.rd, value);
      }
    }
  }

  lemma AluIsNotAtomic(func: bv16, rs1: i32, rs2: i32)
    ensures Alu(func, rs1, rs2).Some? <==> func <= 17
  {
    hide Xor, Or, And, ShiftRightLogical, ShiftRightArithmetic, Pow2, WrapI32, WrapI64, WrapU64, TruncDiv;
  }

  lemma OpAmoEffect(t: TypeR, code: Memory, m: Machine)
    requires t.Encodable()
    ensures var o := ExecOpAmo(t, code, m);
            var r := ReservingOf(OpAmo(t), code, m);
            && o.machine.csr == m.csr && |o.machine.ram| == |m.ram|
            && o.machine.reservation == ReservationAfter(r, m.reservation)
            && PreciseFault(m, o, r)
  {
    hide Get, Signed, LoadWord, ExecAtomic, Alu, PutUnlessZero, Advance;
    var rs1, rs2 := Get(m, t.rs1), Get(m, t.rs2);
    AluIsNotAtomic(t.func, rs1, rs2);
    LoadErrors(code, m.ram, ToU32(rs1));
    if Alu(t.func, rs1, rs2).Some? {
      FinishOpAmo(m, t.rd, Alu(t.func, rs1, rs2).value);
    } else if LoadWord(code, m.ram, ToU32(rs1)).Success? {
      AtomicEffect(t, code, m, LoadWord(code, m.ram, ToU32(rs1)).value);
    }
  }

  // System instructions.

  lemma OperationErrors(c: CsrFile, op: Option<CSOperation>, addr: bv16)
    ensures Operation(c, op, addr).Failure? ==> Operation(c, op, addr) == Failure(InvalidCSRegister(addr))
  {
    hide ExecuteOperation, StatusBits, HasInterruptBit, DirectVector, EvenAddress, InterruptBit;
  }

  lemma SystemEffect(t: TypeI, m: Machine)
    requires t.Encodable()
    ensures var o := ExecSystem(t, m);
            && o.machine.ram == m.ram && o.machine.reservation == m.reservation
            && (o.result.Failure? ==> o.machine == m && !o.result.error.InvalidCPURegister?)
  {
    hide Signed, UInt, Operation, CsrOperation, TrapReturn, Get, CsrAddress;
    if CsrOperation(t, m).Some? {
      var op := CsrOperation(t, m).value;
      OperationErrors(m.csr, op, CsrAddress(t.imm));
      if Operation(m.csr, op, CsrAddress(t.imm)).Success? {
        var done := Operation(m.csr, op, CsrAddress(t.imm)).value;
        FinishOpAmo(m.(csr := done.1), t.rdRs2, Signed(done.0));
      }
    }
  }

  // All instructions.

  function ReservingNow(code: Memory, m: Machine): Reserving {
    match Current(code, m)
    case None => Neither
    case Some(e) => ReservingOf(e, code, m)
  }

  lemma ExecuteOpAmo(t: TypeR, code: Memory, m: Machine)
    requires t.Encodable()
    ensures Execute(OpAmo(t), code, m) == ExecOpAmo(t, code, m)
  {
    hide ExecOpAmo;
  }

  lemma ExecuteSystem(t: TypeI, code: Memory, m: Machine)
    requires t.Encodable()
    ensures Execute(SystemMiscMem(t), code, m) == ExecSystem(t, m)
  {
    hide ExecSystem;
  }

  lemma ExecuteEffect(e: Instruction, code: Memory, m: Machine)
    requires e.Encodable()
    ensures var o := Execute(e, code, m); var r := ReservingOf(e, code, m);
            && |o.machine.ram| == |m.ram|
            && o.machine.reservation == ReservationAfter(r, m.reservation)
            && PreciseFault(m, o, r)
            && (!e.SystemMiscMem? ==> o.machine.csr == m.csr)
  {
    hide Execute, ExecOpAmo, ExecSystem;
    if e.OpAmo? {
      hide ReservingOf, PreciseFault;
      OpAmoEffect(e.r, code, m);
      ExecuteOpAmo(e.r, code, m);
    } else if e.SystemMiscMem? {
      SystemEffect(e.i, m);
      ExecuteSystem(e.i, code, m);
    } else {
      hide Instruction.Encodable;
      OrdinaryHarmless(e, code, m);
    }
  }

  lemma FetchErrors(code: Memory, m: Machine)
    ensures S.Fetch(code, m).Failure? ==> !S.Fetch(code, m).error.InvalidCPURegister?
  {
    hide LoadWord;
    LoadErrors(code, m.ram, m.pc);
  }

  /**
    Precise faults: a step that returns an error leaves the machine as it was, except for the reservation
    that a store-conditional held when its store failed; and no word makes a step use a bad register index.
   */
  lemma StepEffect(code: Memory, m: Machine)
    ensures var o := S.Step(code, m); var r := ReservingNow(code, m);
            && |o.machine.ram| == |m.ram|
            && o.machine.reservation == ReservationAfter(r, m.reservation)
            && PreciseFault(m, o, r)
  {
    hide Current, Execute, S.Step, S.Fetch, ReservingOf, ReservationAfter, PreciseFault, Instruction.Encodable;
    StepIs(code, m);
    FetchErrors(code, m);
    if Current(code, m).Some? {
      ExecuteEffect(Current(code, m).value, code, m);
    } else {
      FaultEffect(m, S.Fetch(code, m).error);
    }
  }

  lemma FaultEffect(m: Machine, error: Error)
    requires !error.InvalidCPURegister?
    ensures ReservationAfter(Neither, m.reservation) == m.reservation && PreciseFault(m, Fault(m, error), Neither)
  {
  }
}
