/**
  Executions with departures: whatever the interpreter does on the transpiled image is known from the
  original image, tolerated words and departures from the standard included.
 */
module Following {
  import opened Wrappers
  import opened Words
  import opened Formats
  import opened Embive
  import opened Machines
  import opened MemoryModel
  import opened MemoryProofs
  import opened Converter
  import opened Transpiler
  import opened Boundaries
  import opened Programs
  import opened Meaning
  import opened Acceptance
  import opened Tolerance
  import opened Departures
  import opened Equivalence
  import opened Simulation
  import opened Executions
  import Exec
  import Traps
  import Effects
  import S = Steps
  import R = Riscv
  import Ref = Reference

  // One step.

  lemma ActualSame(p: Program, r: R.Instr, n: nat, m: Machine)
    requires p.Loadable() && !ReadsText(p, r, m) && m.regs[0] == 0
    ensures Actual(r, n, p.transpiled, m) == Actual(r, n, p.original, m)
  {
    hide Ref.Read, Ref.SetX, Ref.Loaded, Ref.Write, Ref.AmoValue, Ref.Alu, Ref.DoStore, Ref.DoLoadReserved,
      Ref.DoStoreConditional, Ref.DoAmo, ActualCsr, ActualReturn, SetAny, Src, Ref.X, Program.Loadable, Overlaps;
    match r {
      case Load(k, _, rs1, imm) =>
        SrcSame(m, rs1);
        ReadSame(p, m.ram, Ref.Target(Ref.X(m, rs1), imm), Ref.LoadWidth(k));
      case LoadReserved(_, rs1) => SrcSame(m, rs1); ReadSame(p, m.ram, ToU32(Ref.X(m, rs1)), 4);
      case StoreConditional(_, rs1, _) => SrcSame(m, rs1); ReadSame(p, m.ram, ToU32(Ref.X(m, rs1)), 4);
      case Amo(_, _, rs1, _) => SrcSame(m, rs1); ReadSame(p, m.ram, ToU32(Ref.X(m, rs1)), 4);
      case _ =>
    }
  }

  /** A converted word, tolerated ones included, does what `Departures` says of its meaning. */
  lemma ConvertedActual(w: bv32, r: R.Instr, code: Memory, m: Machine)
    requires Accepted(w) == Some(r) && Sound(code, m)
    ensures Convert(w).Success? && Decode(Convert(w).value.data).Some?
    ensures var e := Decode(Convert(w).value.data).value;
            e.Encodable() && Agrees(Exec.Execute(e, code, m), Actual(r, R.Length(w), code, m))
  {
    hide Actual, R.Decode, Convert, Decode, Mean, Exec.Execute, Agrees, Named, Instruction.Encodable, Instruction.Size,
      OpAmoMeaning, Tolerated, ToleratedMeaning, WellFormedCsrs;
    ConvertExactly(w);
    LengthOf(w);
    var e := Decode(Convert(w).value.data).value;
    if e.OpAmo? {
      MeanOpAmo(e.r);
      if r.Illegal? {
        IllegalIsNotAmo(w, e);
      }
    }
    ExecuteNamed(e, code, m);
    NamedSame(e, e.Size().Bytes(), code, m);
  }

  lemma LengthOf(w: bv32)
    ensures SizeOf(w).Bytes() == R.Length(w)
  {
  }

  /** No word is converted to an OP/AMO instruction without a meaning. */
  lemma IllegalIsNotAmo(w: bv32, e: Instruction)
    requires Accepted(w) == Some(R.Illegal) && e.Size() == SizeOf(w)
    requires Convert(w).Success? && Decode(Convert(w).value.data) == Some(e)
    ensures !e.OpAmo?
  {
    hide R.Decode, Convert, Decode, Tolerated, ToleratedMeaning;
    if R.Decode(w).Some? {
      IllegalIsShort(w);
    } else if SizeOf(w) == WordSize {
      WideIllegal(w);
    }
  }

  /** Fetch, decode and perform one instruction. */
  function ActualCycle(code: Memory, m: Machine): Ref.Effect {
    match Ref.Fetch(code, m.ram, m.pc)
    case None => Ref.Effect(Ref.AccessFault, m)
    case Some(w) =>
      match Accepted(w)
      case None => Ref.Effect(Ref.Report.IllegalInstruction, m)
      case Some(r) => Actual(r, R.Length(w), code, m)
  }

  lemma CycleActual(code: Memory, m: Machine, w: bv32, r: R.Instr)
    requires Ref.Fetch(code, m.ram, m.pc) == Some(w) && Accepted(w) == Some(r)
    ensures ActualCycle(code, m) == Actual(r, R.Length(w), code, m)
  {
    hide Ref.Fetch, Accepted, Actual, R.Length;
  }

  /** Every instruction at a boundary was converted, so that its word is accepted. */
  lemma StepActs(p: Program, m: Machine, w: bv32)
    requires p.Loadable() && Sound(p.transpiled, m) && p.AtBoundary(m.pc)
    requires Ref.Fetch(p.original, m.ram, m.pc) == Some(w)
    requires Accepted(w).Some? ==> !ReadsText(p, Accepted(w).value, m)
    ensures Accepted(w).Some? && Agrees(S.Step(p.transpiled, m), ActualCycle(p.original, m))
  {
    hide S.Step, ActualCycle, Actual, Ref.Fetch, R.Length, Convert, Decode, Exec.Execute, Accepted, Agrees, LoadWord,
      ReadsText, Instruction.Encodable, Instruction.Size, Program.Holds, Program.BoundaryIn, RawAt, WellFormedCsrs;
    var x :| x in p.sections && p.BoundaryIn(x, m.pc);
    InSection(p, x, m.ram, m.pc);
    FetchedOriginal(p, x, m.ram, m.pc);
    FetchedTranspiled(p, x, m.ram, m.pc);
    ConvertExactly(w);
    var r := Accepted(w).value;
    ConvertedActual(w, r, p.transpiled, m);
    var e := Decode(Convert(w).value.data).value;
    StepExecutes(p.transpiled, m, LoadWord(p.transpiled, m.ram, m.pc).value, e);
    CycleActual(p.original, m, w, r);
    ActualSame(p, r, R.Length(w), m);
  }

  lemma FetchFails(p: Program, m: Machine)
    requires p.Loadable() && Fits(p.transpiled, m.ram) && Ref.Parcel(p.original, m.ram, m.pc).None?
    ensures Agrees(S.Step(p.transpiled, m), ActualCycle(p.original, m))
  {
    hide S.Step, Program.Loadable, R.Decode, Accepted;
    FetchFaults(p, m);
  }

  // Executions.

  /** The machine that departs from the standard, on the original image. */
  function Follow(code: Memory, m: Machine, e: Event): (Observation, Machine) {
    match e
    case Instruction => var f := ActualCycle(code, m); (Executed(f.report), f.machine)
    case Interrupt(value) => (Interrupted(Ref.Mie(m.csr) && m.csr.mieEmbive), ActualInterrupt(m, value))
    case Reply(reply, ram) =>
      (Silent, match reply case Success(v) => ActualAnswer(m, 0, v, ram) case Failure(e) => ActualAnswer(m, e, 0, ram))
    case HostWrite(ram) => (Silent, m.(ram := ram))
    case Reset => (Silent, Ref.PowerOn(m))
  }

  function FollowAll(code: Memory, m: Machine, es: seq<Event>): (seq<Observation>, Machine)
    decreases |es|
  {
    if es == [] then
      ([], m)
    else
      var first := Follow(code, m, es[0]);
      var rest := FollowAll(code, first.1, es[1..]);
      ([first.0] + rest.0, rest.1)
  }

  /**
    An instruction is executed from a boundary of an executable section, reads no byte of such a section, and
    finds zero in x0; or fetching faults.  The host keeps the size of RAM.
   */
  predicate Known(p: Program, m: Machine, e: Event) {
    match e
    case Instruction =>
      (match Ref.Fetch(p.original, m.ram, m.pc)
       case None => Ref.Parcel(p.original, m.ram, m.pc).None?
       case Some(w) =>
         && p.AtBoundary(m.pc) && m.regs[0] == 0
         && (Accepted(w).Some? ==> !ReadsText(p, Accepted(w).value, m)))
    case Reply(_, ram) => |ram| == |m.ram|
    case HostWrite(ram) => |ram| == |m.ram|
    case _ => true
  }

  predicate AllKnown(p: Program, m: Machine, es: seq<Event>)
    decreases |es|
  {
    es == [] || (Known(p, m, es[0]) && AllKnown(p, Follow(p.original, m, es[0]).1, es[1..]))
  }

  lemma EventFollows(p: Program, m: Machine, e: Event)
    requires p.Loadable() && Fits(p.transpiled, m.ram) && WellFormedCsrs(m.csr) && Known(p, m, e)
    ensures Interpret(p.transpiled, m, e) == Follow(p.original, m, e)
  {
    hide S.Step, S.Interrupt, ActualCycle, ActualInterrupt, Ref.Fetch, Ref.Parcel, Accepted, ReadsText,
      Program.Loadable, Program.AtBoundary, Ref.Mie, WellFormedCsrs;
    match e {
      case Instruction =>
        if Ref.Fetch(p.original, m.ram, m.pc).Some? {
          StepActs(p, m, Ref.Fetch(p.original, m.ram, m.pc).value);
        } else {
          FetchFails(p, m);
        }
      case Interrupt(value) => InterruptExactly(m, value);
      case Reply(_, ram) =>
      case HostWrite(ram) =>
      case Reset => ResetIsSound(p.transpiled, m);
    }
  }

  /** The machine stays one that the step theorems cover. */
  lemma EventStays(p: Program, m: Machine, e: Event)
    requires Fits(p.transpiled, m.ram) && WellFormedCsrs(m.csr) && Known(p, m, e)
    ensures Fits(p.transpiled, Interpret(p.transpiled, m, e).1.ram)
    ensures WellFormedCsrs(Interpret(p.transpiled, m, e).1.csr)
  {
    hide S.Step, S.Interrupt, Ref.Fetch, Ref.Parcel, Accepted, ReadsText, Program.AtBoundary, WellFormedCsrs,
      Effects.ReservingNow, Effects.ReservationAfter, Effects.PreciseFault;
    Traps.EventKeepsCsrs(p.transpiled, m, e);
    match e {
      case Instruction => Effects.StepEffect(p.transpiled, m);
      case Interrupt(value) => InterruptExactly(m, value); InterruptRam(m, value);
      case _ =>
    }
  }

  lemma InterruptRam(m: Machine, value: i32)
    ensures ActualInterrupt(m, value).ram == m.ram
  {
    hide Ref.Trap, UInt, Word, Ref.Mie;
  }

  /**
    Every execution that stays in executable sections is known from the original image, with all departures
    from the standard, as long as instructions find zero in x0.
   */
  lemma {:induction false} ExecutionFollows(p: Program, m: Machine, es: seq<Event>)
    requires p.Loadable() && Fits(p.transpiled, m.ram) && WellFormedCsrs(m.csr) && AllKnown(p, m, es)
    ensures InterpretAll(p.transpiled, m, es) == FollowAll(p.original, m, es)
    decreases |es|
  {
    hide Interpret, Follow, Known, WellFormedCsrs, Fits, Program.Loadable;
    if es != [] {
      EventFollows(p, m, es[0]);
      EventStays(p, m, es[0]);
      ExecutionFollows(p, Follow(p.original, m, es[0]).1, es[1..]);
    }
  }
}
