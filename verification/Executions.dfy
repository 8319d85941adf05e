/**
  Executions of any length, on the interpreter with transpiled code and on the reference machine with the
  original code: sequences of instructions, interrupts, answers to system calls, writes by the host and
  resets.  As long as the reference machine stays where its behaviour is defined and the interpreter does
  not depart from it, both go through the same states and report the same events.
 */
module Executions {
  import opened Wrappers
  import opened Words
  import opened Machines
  import opened MemoryProofs
  import opened Equivalence
  import opened Departures
  import opened Programs
  import opened Simulation
  import C = Csr
  import S = Steps
  import R = Riscv
  import Ref = Reference

  /**
    A step; a call of `interrupt`; an answered system call; any other write of the host to RAM, such as
    that of a system call that fails; a reset.
   */
  datatype Event =
    | Instruction
    | Interrupt(value: i32)
    | Reply(reply: Result<i32, S.NonZeroI32>, ram: Memory)
    | HostWrite(ram: Memory)
    | Reset

  /** What the host sees of an event. */
  datatype Observation = Executed(report: Ref.Report) | Interrupted(taken: bool) | Silent

  /** The interpreter, on the given code. */
  function Interpret(code: Memory, m: Machine, e: Event): (Observation, Machine) {
    match e
    case Instruction => var o := S.Step(code, m); (Executed(Observed(o.result)), o.machine)
    case Interrupt(value) => var i := S.Interrupt(m, value); (Interrupted(i.0.Success?), i.1)
    case Reply(reply, ram) => (Silent, S.SyscallResult(m.(ram := ram), reply))
    case HostWrite(ram) => (Silent, m.(ram := ram))
    case Reset => (Silent, S.Reset(m))
  }

  function InterpretAll(code: Memory, m: Machine, es: seq<Event>): (seq<Observation>, Machine)
    decreases |es|
  {
    if es == [] then
      ([], m)
    else
      var first := Interpret(code, m, es[0]);
      var rest := InterpretAll(code, first.1, es[1..]);
      ([first.0] + rest.0, rest.1)
  }

  /** The reference machine. */
  function Refer(code: Memory, m: Machine, e: Event): (Observation, Machine) {
    match e
    case Instruction => var f := Ref.Cycle(code, m); (Executed(f.report), f.machine)
    case Interrupt(value) => (Interrupted(Ref.Mie(m.csr) && m.csr.mieEmbive), Ref.TakeInterrupt(m, value))
    case Reply(reply, ram) =>
      (Silent, match reply case Success(v) => Ref.Answer(m, 0, v, ram) case Failure(e) => Ref.Answer(m, e, 0, ram))
    case HostWrite(ram) => (Silent, Ref.DeviceWrite(m, ram))
    case Reset => (Silent, Ref.PowerOn(m))
  }

  function ReferAll(code: Memory, m: Machine, es: seq<Event>): (seq<Observation>, Machine)
    decreases |es|
  {
    if es == [] then
      ([], m)
    else
      var first := Refer(code, m, es[0]);
      var rest := ReferAll(code, first.1, es[1..]);
      ([first.0] + rest.0, rest.1)
  }

  /**
    The reference machine is about to execute a defined instruction of an executable section that reads no
    byte of such a section, and from whose meaning the interpreter does not depart; or fetching faults.
   */
  predicate Defined(p: Program, m: Machine) {
    match Ref.Fetch(p.original, m.ram, m.pc)
    case None => Ref.Parcel(p.original, m.ram, m.pc).None?
    case Some(w) =>
      && p.AtBoundary(m.pc)
      && R.Decode(w).Some?
      && !ReadsText(p, R.Decode(w).value, m)
      && !Diverges(R.Decode(w).value, R.Length(w), p.original, m)
  }

  /** The host keeps the size of RAM and the bytes of a reserved word. */
  predicate KeepsReserved(m: Machine, ram: Memory) {
    |ram| == |m.ram| && !Ref.ReservationBroken(m, ram)
  }

  /** Interrupts are taken at even addresses only. */
  predicate Supported(p: Program, m: Machine, e: Event) {
    match e
    case Instruction => Defined(p, m)
    case Interrupt(_) => m.pc % 2 == 0 || !(Ref.Mie(m.csr) && m.csr.mieEmbive)
    case Reply(_, ram) => KeepsReserved(m, ram)
    case HostWrite(ram) => KeepsReserved(m, ram)
    case Reset => true
  }

  predicate AllSupported(p: Program, m: Machine, es: seq<Event>)
    decreases |es|
  {
    es == [] || (Supported(p, m, es[0]) && AllSupported(p, Refer(p.original, m, es[0]).1, es[1..]))
  }

  // The reference machine stays sound.

  lemma StatusKeeps(mie: bool, mpie: bool)
    ensures Ref.Status(mie, mpie) & 0x77 == 0
  {
  }

  lemma MasksKeep(v: bv32)
    ensures Ref.StatusOf(v) & 0x77 == 0 && Ref.VectorOf(v) & 0x3 == 0 && Ref.EvenOf(v) & 0x1 == 0
  {
    hide Ref.Status;
    StatusKeeps(v & 0x08 != 0, v & 0x80 != 0);
  }

  lemma CsrWriteKeeps(c: CsrFile, name: Ref.CsrName, v: bv32)
    requires WellFormedCsrs(c)
    ensures WellFormedCsrs(Ref.CsrWrite(c, name, v))
  {
    hide Ref.StatusOf, Ref.VectorOf, Ref.EvenOf, Ref.InterruptOf;
    MasksKeep(v);
  }

  lemma ReturnKeeps(c: CsrFile)
    requires WellFormedCsrs(c)
    ensures WellFormedCsrs(Ref.Return(c))
  {
    hide Ref.Status, Ref.Mpie;
    StatusKeeps(Ref.Mpie(c), true);
  }

  lemma TrapKeeps(c: CsrFile, pc: u32, value: i32)
    requires WellFormedCsrs(c)
    ensures WellFormedCsrs(Ref.Trap(c, pc, value))
  {
    hide Ref.Status, Ref.Mie, Word, Bits;
    StatusKeeps(false, Ref.Mie(c));
  }

  lemma DeliverKeeps(code: Memory, m: Machine)
    requires Sound(code, m)
    ensures Sound(code, Ref.Deliver(m))
  {
    hide Ref.Trap, Ref.Pending, UInt, WellFormedCsrs;
    TrapKeeps(m.csr, m.pc, 0);
  }

  lemma CsrKeeps(op: R.CsrOp, rd: nat, s: R.CsrSource, addr: bv32, code: Memory, m: Machine)
    requires Sound(code, m)
    ensures Sound(code, Ref.DoCsr(op, rd, s, addr, m).machine)
  {
    hide WellFormedCsrs, Ref.CsrAt, Ref.CsrRead, Ref.CsrWrite, Ref.CsrResult, Ref.Operand, Ref.Writes, Ref.ReadOnly,
      Signed, Ref.Deliver, Ref.DecidesInterrupts;
    if Ref.CsrAt(addr).Some? {
      var name := Ref.CsrAt(addr).value;
      CsrWriteKeeps(m.csr, name, Ref.CsrResult(op, Ref.CsrRead(m.csr, name), Ref.Operand(m, s)));
      DeliverKeeps(code, Ref.CsrWritten(op, rd, s, name, m));
    }
  }

  lemma PerformKeeps(r: R.Instr, n: nat, code: Memory, m: Machine)
    requires Sound(code, m)
    ensures Sound(code, Ref.Perform(r, n, code, m).machine)
  {
    hide WellFormedCsrs, Ref.Read, Ref.Loaded, Ref.AmoValue, Ref.Alu, Ref.DoCsr, Ref.Return, Ref.Deliver, UInt,
      Ref.Low32, Signed, Ref.Written, Ref.Holds;
    match r {
      case Mret =>
        ReturnKeeps(m.csr);
        DeliverKeeps(code, m.(csr := Ref.Return(m.csr), pc := UInt(m.csr.mepc)));
      case Csr(op, rd, s, addr) => CsrKeeps(op, rd, s, addr, code, m);
      case _ =>
    }
  }

  lemma CycleKeeps(code: Memory, m: Machine)
    requires Sound(code, m)
    ensures Sound(code, Ref.Cycle(code, m).machine)
  {
    hide Sound, Ref.Fetch, R.Decode, R.Length, Ref.Perform;
    if Ref.Fetch(code, m.ram, m.pc).Some? {
      var w := Ref.Fetch(code, m.ram, m.pc).value;
      if R.Decode(w).Some? {
        PerformKeeps(R.Decode(w).value, R.Length(w), code, m);
      }
    }
  }

  /** A reset machine, and so a new one, meets what the simulation asks of the first machine. */
  lemma ResetIsSound(code: Memory, m: Machine)
    requires Fits(code, m.ram)
    ensures Sound(code, S.Reset(m)) && S.Reset(m) == Ref.PowerOn(m)
    ensures !C.InterruptEnabled(S.Reset(m).csr)
  {
  }

  // Interrupts and answers.

  lemma EnabledSame(c: CsrFile)
    ensures C.InterruptEnabled(c) <==> Ref.Mie(c) && c.mieEmbive
  {
  }

  lemma TrapStatus(c: CsrFile)
    requires WellFormedCsrs(c)
    ensures var s := c.mstatus;
            var pushed := if s & C.MSTATUS_MIE != 0 then s | C.MSTATUS_MPIE else s & !C.MSTATUS_MPIE;
            pushed & !C.MSTATUS_MIE == Ref.Status(false, Ref.Mie(c))
    ensures c.mtvec & !C.MTVEC_MODE == c.mtvec
  {
  }

  lemma EvenWord(u: u32)
    ensures Word(u) & 0xFFFF_FFFE == Word(u) <==> u % 2 == 0
  {
    hide AppendBit;
    if u > 0 {
      LastBit(Word(u / 2), u % 2 == 1);
    }
  }

  lemma LastBit(h: bv32, odd: bool)
    ensures AppendBit(h, odd) & 0xFFFF_FFFE == AppendBit(h, odd) <==> !odd
  {
  }

  /** An interrupt has the standard's effect, unless it is taken at an odd address: `mepc` then keeps bit 0. */
  lemma InterruptSame(m: Machine, value: i32)
    requires WellFormedCsrs(m.csr)
    ensures S.Interrupt(m, value).1 == Ref.TakeInterrupt(m, value)
       <==> m.pc % 2 == 0 || !(Ref.Mie(m.csr) && m.csr.mieEmbive)
    ensures S.Interrupt(m, value).0.Success? <==> Ref.Mie(m.csr) && m.csr.mieEmbive
  {
    hide C.InterruptEnabled, Ref.Mie, Ref.Status, WellFormedCsrs, Word, Bits, UInt;
    EnabledSame(m.csr);
    TrapStatus(m.csr);
    EvenWord(m.pc);
  }

  /** What an interrupt does in any case. */
  lemma InterruptExactly(m: Machine, value: i32)
    requires WellFormedCsrs(m.csr)
    ensures S.Interrupt(m, value)
         == (if Ref.Mie(m.csr) && m.csr.mieEmbive then Success(()) else Failure(InterruptNotEnabled),
             ActualInterrupt(m, value))
  {
    hide C.InterruptEnabled, Ref.Mie, Ref.Status, WellFormedCsrs, Word, Bits, UInt;
    EnabledSame(m.csr);
    TrapStatus(m.csr);
  }

  lemma InterruptKeeps(code: Memory, m: Machine, value: i32)
    requires Sound(code, m)
    ensures Sound(code, Ref.TakeInterrupt(m, value))
  {
    hide Ref.Trap, UInt, Ref.Mie;
    TrapKeeps(m.csr, m.pc, value);
  }

  /** One event: the interpreter does what the reference machine does, and stays sound. */
  lemma EventSame(p: Program, m: Machine, e: Event)
    requires p.Loadable() && Sound(p.transpiled, m) && Supported(p, m, e)
    ensures Interpret(p.transpiled, m, e) == Refer(p.original, m, e)
    ensures Sound(p.transpiled, Refer(p.original, m, e).1)
  {
    hide S.Step, S.Interrupt, Ref.Cycle, Ref.Fetch, Ref.Parcel, Ref.Perform, R.Decode, R.Length, Diverges,
      ReadsText, Program.Loadable, Program.AtBoundary, Ref.ReservationBroken, Ref.Mie, WellFormedCsrs,
      Ref.TakeInterrupt;
    match e {
      case Instruction =>
        LoadedLengths(p);
        CycleKeeps(p.original, m);
        var fetched := Ref.Fetch(p.original, m.ram, m.pc);
        if fetched.Some? {
          StepVerdict(p, m, fetched.value, R.Decode(fetched.value).value);
        } else {
          FetchFaults(p, m);
        }
      case Interrupt(value) =>
        InterruptSame(m, value);
        InterruptKeeps(p.transpiled, m, value);
      case Reply(_, ram) => HostWriteSame(m, ram);
      case HostWrite(ram) => HostWriteSame(m, ram);
      case Reset => ResetIsSound(p.transpiled, m);
    }
  }

  lemma LoadedLengths(p: Program)
    requires p.Loadable()
    ensures |p.original| == |p.transpiled|
  {
    hide Program.Holds, Program.InText;
  }

  /** A write of the host has the standard's effect unless it changes a reserved word. */
  lemma HostWriteSame(m: Machine, ram: Memory)
    ensures m.(ram := ram) == Ref.DeviceWrite(m, ram) <==> !Ref.ReservationBroken(m, ram)
  {
  }

  /**
    Every execution that the reference machine can follow through defined behaviour is the interpreter's
    execution on the transpiled image: the same observations and the same final machine.
   */
  lemma {:induction false} ExecutionSame(p: Program, m: Machine, es: seq<Event>)
    requires p.Loadable() && Sound(p.transpiled, m) && AllSupported(p, m, es)
    ensures InterpretAll(p.transpiled, m, es) == ReferAll(p.original, m, es)
    ensures Sound(p.transpiled, ReferAll(p.original, m, es).1)
    decreases |es|
  {
    hide Interpret, Refer, Supported, Sound, Program.Loadable;
    if es != [] {
      EventSame(p, m, es[0]);
      ExecutionSame(p, Refer(p.original, m, es[0]).1, es[1..]);
    }
  }

  // Runs without the host.

  /** The reference machine, for at most `n` instructions, until it has something to report. */
  function ReferRun(code: Memory, m: Machine, n: nat): Ref.Effect
    decreases n
  {
    if n == 0 then
      Ref.Effect(Ref.Continue, m)
    else
      var f := Ref.Cycle(code, m);
      if f.report.Continue? then ReferRun(code, f.machine, n - 1) else f
  }

  predicate RunDefined(p: Program, m: Machine, n: nat)
    decreases n
  {
    n == 0
    || (Defined(p, m)
        && (Ref.Cycle(p.original, m).report.Continue? ==> RunDefined(p, Ref.Cycle(p.original, m).machine, n - 1)))
  }

  lemma RunningIsContinue(result: Result<State, Error>)
    ensures Observed(result) == Ref.Continue <==> result == S.RUNNING
  {
  }

  /** `run` with limit `n` on the transpiled image stops where, and as, the reference machine does on the original. */
  lemma {:induction false} RunSame(p: Program, m: Machine, n: nat)
    requires p.Loadable() && Sound(p.transpiled, m) && RunDefined(p, m, n)
    ensures Agrees(S.Run(p.transpiled, m, n), ReferRun(p.original, m, n))
    decreases n
  {
    hide S.Step, Ref.Cycle, Defined, Observed, Sound, Program.Loadable;
    RunningIsContinue(S.RUNNING);
    if n > 0 {
      EventSame(p, m, Instruction);
      StepOfEvent(p.transpiled, p.original, m);
      RunningIsContinue(S.Step(p.transpiled, m).result);
      if S.Step(p.transpiled, m).result == S.RUNNING {
        RunSame(p, Ref.Cycle(p.original, m).machine, n - 1);
      }
    }
  }

  lemma StepOfEvent(transpiled: Memory, original: Memory, m: Machine)
    requires Interpret(transpiled, m, Instruction) == Refer(original, m, Instruction)
    ensures Agrees(S.Step(transpiled, m), Ref.Cycle(original, m))
    ensures Refer(original, m, Instruction).1 == Ref.Cycle(original, m).machine
  {
    hide S.Step, Ref.Cycle, Observed;
  }
}
