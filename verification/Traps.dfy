/**
  Interrupt handlers, control registers and x0 over whole executions
  (src/interpreter/registers/control_status.rs, src/interpreter/decode_execute/system_misc_mem.rs).
 */
module Traps {
  import opened Wrappers
  import opened Words
  import opened Formats
  import opened Embive
  import opened Machines
  import opened MemoryModel
  import opened Exec
  import opened Effects
  import opened Executions
  import opened Equivalence
  import opened Departures
  import C = Csr
  import S = Steps

  // Control registers over every execution.

  lemma MasksKeep(v: bv32)
    ensures C.StatusBits(v) & 0x77 == 0 && C.DirectVector(v) & 0x3 == 0 && C.EvenAddress(v) & 0x1 == 0
  {
  }

  /** Well formed, and `mepc` is even. */
  predicate Settled(c: CsrFile) { WellFormedCsrs(c) && c.mepc & 0x1 == 0 }

  /** A change from `c` to `d` keeps both. */
  predicate Keeps(c: CsrFile, d: CsrFile) {
    (WellFormedCsrs(c) ==> WellFormedCsrs(d)) && (Settled(c) ==> Settled(d))
  }

  lemma UpdateKeeps(c: CsrFile, name: C.Name, v: bv32)
    ensures Keeps(c, C.Update(c, name, v))
  {
    hide C.StatusBits, C.DirectVector, C.EvenAddress, C.HasInterruptBit;
    MasksKeep(v);
  }

  lemma OperationKeeps(c: CsrFile, op: Option<C.CSOperation>, addr: bv16)
    requires C.Operation(c, op, addr).Success?
    ensures Keeps(c, C.Operation(c, op, addr).value.1)
  {
    hide Keeps, C.NameOf, C.Read, C.Update, C.ExecuteOperation;
    var name := C.NameOf(addr).value;
    UpdateKeeps(c, name, C.ExecuteOperation(op, C.Read(c, name)));
  }

  lemma ReturnKeepsFields(c: CsrFile)
    ensures Keeps(c, C.TrapReturn(c))
  {
  }

  lemma EntryKeeps(c: CsrFile, pc: u32, value: i32)
    requires WellFormedCsrs(c)
    ensures WellFormedCsrs(C.TrapEntry(c, pc, value)) && (Settled(C.TrapEntry(c, pc, value)) <==> pc % 2 == 0)
  {
    hide Word, Bits;
    EntryStatus(c.mstatus);
    OddWord(pc);
  }

  lemma EntryStatus(s: bv8)
    requires s & 0x77 == 0
    ensures ((if s & C.MSTATUS_MIE != 0 then s | C.MSTATUS_MPIE else s & !C.MSTATUS_MPIE) & !C.MSTATUS_MIE) & 0x77 == 0
  {
  }

  lemma OddBit(w: bv32)
    ensures w & 0xFFFF_FFFE == w <==> w & 0x1 == 0
  {
  }

  lemma OddWord(u: u32)
    ensures Word(u) & 0x1 == 0 <==> u % 2 == 0
  {
    hide Word;
    EvenWord(u);
    OddBit(Word(u));
  }

  /** Taken at an odd address, which needs an odd program counter, an interrupt leaves an odd `mepc`. */
  predicate OddTrap(m: Machine, e: Event) {
    e.Interrupt? && C.InterruptEnabled(m.csr) && m.pc % 2 == 1
  }

  lemma SameKeeps(c: CsrFile)
    ensures Keeps(c, c)
  {
  }

  lemma StepKeepsCsrs(code: Memory, m: Machine)
    ensures Keeps(m.csr, S.Step(code, m).machine.csr)
  {
    hide S.Step, Current, Execute, Keeps, ReservingOf, ReservationAfter, PreciseFault, Instruction.Encodable, S.Fetch;
    StepIs(code, m);
    SameKeeps(m.csr);
    if Current(code, m).Some? {
      var e := Current(code, m).value;
      ExecuteEffect(e, code, m);
      if e.SystemMiscMem? {
        SystemFields(e);
        ExecuteSystem(e.i, code, m);
        SystemKeepsCsrs(e.i, m);
      }
    }
  }

  lemma SystemFields(e: Instruction)
    requires e.Encodable() && e.SystemMiscMem?
    ensures e.i.Encodable() && e == SystemMiscMem(e.i)
  {
    hide TypeI.Encodable;
  }

  lemma SystemKeepsCsrs(t: TypeI, m: Machine)
    requires t.Encodable()
    ensures Keeps(m.csr, ExecSystem(t, m).machine.csr)
  {
    hide Signed, UInt, C.Operation, CsrOperation, C.TrapReturn, Get, Put, CsrAddress, Keeps;
    ReturnKeepsFields(m.csr);
    SameKeeps(m.csr);
    if CsrOperation(t, m).Some? {
      var op := CsrOperation(t, m).value;
      if C.Operation(m.csr, op, CsrAddress(t.imm)).Success? {
        OperationKeeps(m.csr, op, CsrAddress(t.imm));
        FinishOpAmo(m.(csr := C.Operation(m.csr, op, CsrAddress(t.imm)).value.1), t.rdRs2,
                    Signed(C.Operation(m.csr, op, CsrAddress(t.imm)).value.0));
      }
    }
  }

  lemma ResetKeeps()
    ensures Settled(RESET_CSRS)
  {
  }

  lemma PendingKeeps(c: CsrFile)
    ensures Keeps(c, c.(mipEmbive := true))
  {
  }

  /**
    Every event keeps `mstatus` and `mtvec` well formed, and an even `mepc` exactly when it is not an interrupt
    at an odd address.
   */
  lemma EventKeepsCsrs(code: Memory, m: Machine, e: Event)
    requires WellFormedCsrs(m.csr)
    ensures WellFormedCsrs(Interpret(code, m, e).1.csr)
    ensures Settled(m.csr) ==> (Settled(Interpret(code, m, e).1.csr) <==> !OddTrap(m, e))
  {
    hide S.Step, WellFormedCsrs, C.TrapEntry, C.InterruptEnabled, UInt;
    match e {
      case Instruction => StepKeepsCsrs(code, m);
      case Interrupt(value) =>
        PendingKeeps(m.csr);
        EntryKeeps(m.csr.(mipEmbive := true), m.pc, value);
      case Reset => ResetKeeps();
      case _ =>
    }
  }

  predicate NoOddTraps(code: Memory, m: Machine, es: seq<Event>)
    decreases |es|
  {
    es == [] || (!OddTrap(m, es[0]) && NoOddTraps(code, Interpret(code, m, es[0]).1, es[1..]))
  }

  /**
    Over every execution without interrupts at odd addresses, `mstatus` holds no bit but MIE and MPIE, `mtvec`
    is aligned and `mepc` is even; reading a control register then changes none.
   */
  lemma {:induction false} CsrsStayWellFormed(code: Memory, m: Machine, es: seq<Event>)
    requires Settled(m.csr) && NoOddTraps(code, m, es)
    ensures Settled(InterpretAll(code, m, es).1.csr)
    ensures forall addr :: var c := InterpretAll(code, m, es).1.csr;
              C.Operation(c, None, addr).Success? ==> C.Operation(c, None, addr).value.1 == c
    decreases |es|
  {
    hide Interpret, WellFormedCsrs, OddTrap, C.Operation;
    if es != [] {
      EventKeepsCsrs(code, m, es[0]);
      CsrsStayWellFormed(code, Interpret(code, m, es[0]).1, es[1..]);
    } else {
      forall addr | C.Operation(m.csr, None, addr).Success? ensures C.Operation(m.csr, None, addr).value.1 == m.csr {
        CsrReadKeeps(m.csr, addr);
      }
    }
  }

  // The trap bracket.

  /** Interrupts are off, were on before the trap, and the trap was taken at `p`. */
  predicate InHandler(m: Machine, p: u32) {
    m.csr.mstatus & C.MSTATUS_MIE == 0 && m.csr.mstatus & C.MSTATUS_MPIE != 0 && m.csr.mepc == Word(p)
  }

  predicate IsReturn(e: Instruction) {
    e.SystemMiscMem? && e.i.func == 0 && e.i.imm == 4
  }

  /** A return from the trap, a CSR instruction on `mstatus` or `mepc`, or a reset. */
  predicate Disturbs(code: Memory, m: Machine, e: Event) {
    e.Reset? || (e.Instruction? && Current(code, m).Some? && DisturbsTrap(Current(code, m).value))
  }

  predicate DisturbsTrap(e: Instruction) {
    || IsReturn(e)
    || (e.SystemMiscMem? && e.i.func != 0
        && (CsrAddress(e.i.imm) == C.MSTATUS_ADDR || CsrAddress(e.i.imm) == C.MEPC_ADDR))
  }

  lemma EntryStatusBits(s: bv8)
    requires s & C.MSTATUS_MIE != 0
    ensures var t := (if s & C.MSTATUS_MIE != 0 then s | C.MSTATUS_MPIE else s & !C.MSTATUS_MPIE) & !C.MSTATUS_MIE;
            t & C.MSTATUS_MIE == 0 && t & C.MSTATUS_MPIE != 0
  {
  }

  lemma InterruptEnters(m: Machine, value: i32)
    requires S.Interrupt(m, value).0.Success?
    ensures InHandler(S.Interrupt(m, value).1, m.pc)
  {
    hide Word, Bits, UInt;
    EntryStatusBits(m.csr.mstatus);
  }

  lemma InterruptRefused(m: Machine, p: u32, value: i32)
    requires InHandler(m, p)
    ensures S.Interrupt(m, value) == (Failure(InterruptNotEnabled), m)
  {
    hide Word, C.TrapEntry, UInt;
  }

  lemma TrapNames(addr: bv16)
    ensures C.NameOf(addr) == Some(C.Mstatus) <==> addr == C.MSTATUS_ADDR
    ensures C.NameOf(addr) == Some(C.Mepc) <==> addr == C.MEPC_ADDR
  {
  }

  lemma UpdateOther(c: CsrFile, name: C.Name, v: bv32)
    requires !name.Mstatus? && !name.Mepc?
    ensures C.Update(c, name, v).mstatus == c.mstatus && C.Update(c, name, v).mepc == c.mepc
  {
    hide C.DirectVector, C.HasInterruptBit;
  }

  lemma OtherRegister(c: CsrFile, op: Option<C.CSOperation>, addr: bv16)
    requires C.Operation(c, op, addr).Success? && addr != C.MSTATUS_ADDR && addr != C.MEPC_ADDR
    ensures C.Operation(c, op, addr).value.1.mstatus == c.mstatus && C.Operation(c, op, addr).value.1.mepc == c.mepc
  {
    hide C.NameOf, C.Read, C.Update, C.ExecuteOperation;
    TrapNames(addr);
    var name := C.NameOf(addr).value;
    UpdateOther(c, name, C.ExecuteOperation(op, C.Read(c, name)));
  }

  lemma SystemKeepsTrap(e: Instruction, code: Memory, m: Machine)
    requires e.Encodable() && e.SystemMiscMem? && !DisturbsTrap(e)
    ensures Execute(e, code, m).machine.csr.mstatus == m.csr.mstatus && Execute(e, code, m).machine.csr.mepc
             == m.csr.mepc
  {
    hide Signed, UInt, C.Operation, CsrOperation, C.TrapReturn, Get, Put, CsrAddress;
    var t := e.i;
    if t.func != 0 && CsrOperation(t, m).Some? {
      var op := CsrOperation(t, m).value;
      if C.Operation(m.csr, op, CsrAddress(t.imm)).Success? {
        OtherRegister(m.csr, op, CsrAddress(t.imm));
        FinishOpAmo(m.(csr := C.Operation(m.csr, op, CsrAddress(t.imm)).value.1), t.rdRs2,
                    Signed(C.Operation(m.csr, op, CsrAddress(t.imm)).value.0));
      }
    }
  }

  lemma EventKeepsTrap(code: Memory, m: Machine, e: Event, p: u32)
    requires InHandler(m, p) && !Disturbs(code, m, e)
    ensures InHandler(Interpret(code, m, e).1, p)
  {
    hide S.Step, S.Interrupt, Current, Execute, DisturbsTrap, Word, ReservingOf, ReservationAfter, PreciseFault,
      Instruction.Encodable, S.Fetch;
    match e {
      case Instruction =>
        StepIs(code, m);
        if Current(code, m).Some? {
          ExecuteEffect(Current(code, m).value, code, m);
          if Current(code, m).value.SystemMiscMem? {
            SystemKeepsTrap(Current(code, m).value, code, m);
          }
        }
      case Interrupt(value) => InterruptRefused(m, p, value);
      case _ =>
    }
  }

  predicate Undisturbed(code: Memory, m: Machine, es: seq<Event>)
    decreases |es|
  {
    es == [] || (!Disturbs(code, m, es[0]) && Undisturbed(code, Interpret(code, m, es[0]).1, es[1..]))
  }

  lemma {:induction false} HandlerKeepsTrap(code: Memory, m: Machine, es: seq<Event>, p: u32)
    requires InHandler(m, p) && Undisturbed(code, m, es)
    ensures InHandler(InterpretAll(code, m, es).1, p)
    decreases |es|
  {
    hide Interpret, InHandler, Disturbs;
    if es != [] {
      EventKeepsTrap(code, m, es[0], p);
      HandlerKeepsTrap(code, Interpret(code, m, es[0]).1, es[1..], p);
    }
  }

  /** The machine after a return to `p`: MIE is set, and nothing else changes but the program counter. */
  function Returned(m: Machine, p: u32): Machine {
    m.(pc := p, csr := m.csr.(mstatus := m.csr.mstatus | 0x08))
  }

  lemma ReturnResumes(e: Instruction, code: Memory, m: Machine, p: u32)
    requires InHandler(m, p) && e.Encodable() && IsReturn(e)
    ensures Execute(e, code, m) == Outcome(S.RUNNING, Returned(m, p))
  {
    hide Word, Nat;
    NatWord(p);
  }

  /**
    The trap bracket: after an interrupt taken at `pc`, whatever the handler does short of returning or
    accessing `mstatus` and `mepc`, every further interrupt is refused and changes nothing, and the return
    that ends the handler resumes at `pc` with interrupts enabled and keeps everything else.
   */
  lemma TrapBracket(code: Memory, m: Machine, value: i32, es: seq<Event>)
    requires S.Interrupt(m, value).0.Success? && Undisturbed(code, S.Interrupt(m, value).1, es)
    ensures var h := InterpretAll(code, S.Interrupt(m, value).1, es).1;
            && InHandler(h, m.pc)
            && (forall v :: S.Interrupt(h, v) == (Failure(InterruptNotEnabled), h))
            && (Current(code, h).Some? && IsReturn(Current(code, h).value) ==>
                  S.Step(code, h) == Outcome(S.RUNNING, Returned(h, m.pc)))
  {
    hide S.Step, S.Interrupt, Current, Execute, InHandler, IsReturn, Interpret, Disturbs, Instruction.Encodable,
      S.Fetch;
    InterruptEnters(m, value);
    HandlerKeepsTrap(code, S.Interrupt(m, value).1, es, m.pc);
    var h := InterpretAll(code, S.Interrupt(m, value).1, es).1;
    forall v ensures S.Interrupt(h, v) == (Failure(InterruptNotEnabled), h) {
      InterruptRefused(h, m.pc, v);
    }
    StepIs(code, h);
    if Current(code, h).Some? && IsReturn(Current(code, h).value) {
      ReturnResumes(Current(code, h).value, code, h, m.pc);
    }
  }
}
