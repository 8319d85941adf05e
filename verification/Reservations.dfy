/** Load-reserved and store-conditional over whole executions (src/interpreter/decode_execute/op_amo.rs). */
module Reservations {
  import opened Wrappers
  import opened Words
  import opened Formats
  import opened Embive
  import opened Machines
  import opened MemoryModel
  import opened Exec
  import opened Effects
  import opened Executions
  import S = Steps

  /**
    A store-conditional that loaded `value` from `address` stores and returns 0 exactly when the reservation
    is for that address and that value; otherwise it returns 1 and memory is unchanged.
   */
  lemma ConditionalOutcome(e: Instruction, code: Memory, m: Machine)
    requires e.Encodable() && ReservingOf(e, code, m).Conditional?
    requires Execute(e, code, m).result.Success?
    ensures var r := ReservingOf(e, code, m); var after := Execute(e, code, m).machine;
            var holds := m.reservation == Some(Reservation(r.address, r.value));
            && e.OpAmo?
            && (holds ==> StoreWord(m.ram, r.address, r.rs2) == Success(after.ram))
            && (!holds ==> after.ram == m.ram)
            && (e.r.rd != 0 ==> Get(after, e.r.rd) == if holds then 0 else 1)
            && after.reservation == None && after.pc == WrapU32(m.pc + 4)
  {
    hide Get, Signed, LoadWord, StoreWord, AmoResult, Alu, PutUnlessZero, Instruction.Encodable;
    EncodableR(e);
    var t := e.r;
    AluIsNotAtomic(t.func, Get(m, t.rs1), Get(m, t.rs2));
    var r := ReservingOf(e, code, m);
    var taken := m.(reservation := None);
    PutThenGet(taken, t.rd, 1);
    if StoreWord(m.ram, r.address, r.rs2).Success? {
      PutThenGet(taken.(ram := StoreWord(m.ram, r.address, r.rs2).value), t.rd, 0);
    }
  }

  lemma EncodableR(e: Instruction)
    requires e.Encodable() && e.OpAmo?
    ensures e.r.Encodable()
  {
  }

  lemma PutThenGet(m: Machine, rd: bv8, value: i32)
    requires rd < 32
    ensures var after := Advance(PutUnlessZero(m, rd, value), WordSize);
            && after.ram == m.ram && after.reservation == m.reservation && after.pc == WrapU32(m.pc + 4)
            && (rd != 0 ==> Get(after, rd) == value)
  {
    RegBound(rd);
  }

  /** The event is a step that executes a load-reserved that succeeds. */
  predicate Reserved(code: Memory, m: Machine, e: Event) {
    e.Instruction? && ReservingNow(code, m).Reserves?
  }

  /** The event is a step that executes a store-conditional that has got past its load. */
  predicate Released(code: Memory, m: Machine, e: Event) {
    e.Instruction? && ReservingNow(code, m).Conditional?
  }

  /** The store-conditional succeeds: it reports no error and the reservation matched. */
  predicate Stored(code: Memory, m: Machine, e: Event) {
    && Released(code, m, e)
    && m.reservation == Some(Reservation(ReservingNow(code, m).address, ReservingNow(code, m).value))
    && S.Step(code, m).result.Success?
  }

  function CountReserved(code: Memory, m: Machine, es: seq<Event>): nat
    decreases |es|
  {
    if es == [] then 0
    else (if Reserved(code, m, es[0]) then 1 else 0) + CountReserved(code, Interpret(code, m, es[0]).1, es[1..])
  }

  function CountStored(code: Memory, m: Machine, es: seq<Event>): nat
    decreases |es|
  {
    if es == [] then 0
    else (if Stored(code, m, es[0]) then 1 else 0) + CountStored(code, Interpret(code, m, es[0]).1, es[1..])
  }

  /** Only the two instructions and a reset touch the reservation; every other event keeps it. */
  lemma EventReservation(code: Memory, m: Machine, e: Event)
    ensures Interpret(code, m, e).1.reservation
         == match e
            case Instruction => ReservationAfter(ReservingNow(code, m), m.reservation)
            case Reset => None
            case _ => m.reservation
  {
    hide S.Step, ReservingNow, ReservationAfter, PreciseFault;
    if e.Instruction? {
      StepEffect(code, m);
    }
  }

  function Held(m: Machine): nat {
    if m.reservation.Some? then 1 else 0
  }

  /** Each store-conditional that succeeds uses up a load-reserved of its own. */
  lemma {:induction false} OneStorePerReservation(code: Memory, m: Machine, es: seq<Event>)
    ensures CountStored(code, m, es) + Held(InterpretAll(code, m, es).1) <= CountReserved(code, m, es) + Held(m)
    decreases |es|
  {
    hide Interpret, ReservingNow, S.Step;
    if es != [] {
      EventReservation(code, m, es[0]);
      OneStorePerReservation(code, Interpret(code, m, es[0]).1, es[1..]);
    }
  }

  /** The machine before event `i` of an execution. */
  function Before(code: Memory, m: Machine, es: seq<Event>, i: nat): Machine
    requires i <= |es|
    decreases i
  {
    if i == 0 then m else Before(code, Interpret(code, m, es[0]).1, es[1..], i - 1)
  }

  /**
    A reservation that is held at the end, and was not held at the start, was made by a load-reserved that
    loaded its value from its address, and since then there was no other load-reserved, no reset and no
    store-conditional that got past its load.
   */
  lemma {:induction false} HeldSince(code: Memory, m: Machine, es: seq<Event>) returns (i: nat)
    requires InterpretAll(code, m, es).1.reservation.Some? && m.reservation.None?
    ensures i < |es| && Reserved(code, Before(code, m, es, i), es[i])
    ensures var r := ReservingNow(code, Before(code, m, es, i));
            InterpretAll(code, m, es).1.reservation == Some(Reservation(r.address, r.value))
    ensures forall j | i < j < |es| ::
              && !Reserved(code, Before(code, m, es, j), es[j])
              && !Released(code, Before(code, m, es, j), es[j]) && !es[j].Reset?
    decreases |es|
  {
    hide Interpret, ReservingNow, S.Step;
    EventReservation(code, m, es[0]);
    var next := Interpret(code, m, es[0]).1;
    var rest := es[1..];
    if next.reservation.None? {
      var k := HeldSince(code, next, rest);
      i := k + 1;
    } else {
      var made := LastMade(code, next, rest);
      i := if made.Some? then made.value + 1 else 0;
    }
    forall j | i < j < |es|
      ensures !Reserved(code, Before(code, m, es, j), es[j])
      ensures !Released(code, Before(code, m, es, j), es[j]) && !es[j].Reset?
    {
      assert Before(code, m, es, j) == Before(code, next, rest, j - 1) && es[j] == rest[j - 1];
    }
  }

  /** The last load-reserved of an execution that starts and ends with a reservation, if there is any. */
  lemma {:induction false} LastMade(code: Memory, m: Machine, es: seq<Event>) returns (made: Option<nat>)
    requires InterpretAll(code, m, es).1.reservation.Some? && m.reservation.Some?
    ensures made.Some? ==>
              && made.value < |es|
              && Reserved(code, Before(code, m, es, made.value), es[made.value])
              && var r := ReservingNow(code, Before(code, m, es, made.value));
                 InterpretAll(code, m, es).1.reservation == Some(Reservation(r.address, r.value))
    ensures made.None? ==> InterpretAll(code, m, es).1.reservation == m.reservation
    ensures forall j | (if made.Some? then made.value + 1 else 0) <= j < |es| ::
              && !Reserved(code, Before(code, m, es, j), es[j])
              && !Released(code, Before(code, m, es, j), es[j]) && !es[j].Reset?
    decreases |es|
  {
    hide Interpret, ReservingNow, S.Step;
    if es == [] {
      return None;
    }
    EventReservation(code, m, es[0]);
    var next := Interpret(code, m, es[0]).1;
    var rest := es[1..];
    var start: nat;
    if next.reservation.None? {
      var k := HeldSince(code, next, rest);
      made, start := Some(k + 1), k + 2;
    } else {
      var later := LastMade(code, next, rest);
      if later.Some? {
        made, start := Some(later.value + 1), later.value + 2;
      } else if Reserved(code, m, es[0]) {
        made, start := Some(0), 1;
      } else {
        made, start := None, 0;
      }
    }
    forall j | start <= j < |es|
      ensures !Reserved(code, Before(code, m, es, j), es[j])
      ensures !Released(code, Before(code, m, es, j), es[j]) && !es[j].Reset?
    {
      if j > 0 {
        assert Before(code, m, es, j) == Before(code, next, rest, j - 1) && es[j] == rest[j - 1];
      }
    }
  }
}
