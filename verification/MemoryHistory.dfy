/**
  Memory over whole executions: each address holds the last byte that an event stored there, and code never
  changes.
 */
module MemoryHistory {
  import opened Wrappers
  import opened Words
  import opened Formats
  import opened Embive
  import opened Machines
  import opened MemoryModel
  import opened MemoryProofs
  import opened Exec
  import opened Effects
  import opened Executions
  import opened MemoryMap
  import Csr
  import S = Steps
  import Ref = Reference

  datatype StoreRequest = StoreRequest(address: u32, data: Memory)

  function WordRequest(address: u32, value: i32): StoreRequest {
    StoreRequest(address, ToBytes4(Bits(value)))
  }

  /** What an atomic stores: a store-conditional whose reservation matches, or an AMO. */
  function AtomicRequest(t: TypeR, code: Memory, m: Machine): Option<StoreRequest>
    requires t.Encodable()
  {
    var address := ToU32(Get(m, t.rs1));
    match LoadWord(code, m.ram, address)
    case Failure(_) => None
    case Success(word) =>
      if t.func == 18 then None
      else if t.func == 19 then
        if m.reservation == Some(Reservation(address, Signed(word))) then
          Some(WordRequest(address, Get(m, t.rs2)))
        else
          None
      else
        match AmoResult(t.func, Signed(word), Get(m, t.rs2))
        case None => None
        case Some(stored) => Some(WordRequest(address, stored))
  }

  /** The store that an instruction asks for, if any. */
  function Request(e: Instruction, code: Memory, m: Machine): Option<StoreRequest>
    requires e.Encodable()
  {
    match e
    case CSw(t) => Some(StoreRequest(Address(Get(m, t.rs1), t.imm), StoreData(7, Get(m, t.rdRs2))))
    case CSwsp(t) => Some(StoreRequest(Address(Get(m, SP), t.imm), StoreData(7, Get(m, t.rs2))))
    case LoadStore(t) =>
      if t.func < 5 then None
      else Some(StoreRequest(Address(Get(m, t.rs1), t.imm), StoreData(t.func, Get(m, t.rdRs2))))
    case OpAmo(t) => if Alu(t.func, Get(m, t.rs1), Get(m, t.rs2)).Some? then None else AtomicRequest(t, code, m)
    case _ => None
  }

  /** RAM after a request: a store that fails changes nothing. */
  function Served(ram: Memory, request: Option<StoreRequest>): Memory {
    match request
    case None => ram
    case Some(r) =>
      match StoreBytes(ram, r.address, r.data)
      case Success(stored) => stored
      case Failure(_) => ram
  }

  lemma StoresServed(e: Instruction, code: Memory, m: Machine)
    requires e.Encodable() && Stores(e)
    ensures Execute(e, code, m).machine.ram == Served(m.ram, Request(e, code, m))
  {
    hide Get, Address, StoreData, StoreBytes;
  }

  lemma OrdinaryServed(e: Instruction, code: Memory, m: Machine)
    requires e.Encodable() && Ordinary(e)
    ensures Execute(e, code, m).machine.ram == Served(m.ram, Request(e, code, m))
  {
    hide Execute;
    if Stores(e) {
      StoresServed(e, code, m);
    } else {
      OrdinaryQuiet(e, code, m);
    }
  }

  lemma AtomicServed(t: TypeR, code: Memory, m: Machine)
    requires t.Encodable()
    ensures ExecOpAmo(t, code, m).machine.ram == Served(m.ram, Request(OpAmo(t), code, m))
  {
    hide Signed, Get, Alu, AmoResult, LoadWord, StoreBytes, ToBytes4, Bits;
  }

  /** Every instruction changes RAM by the store it asks for and in no other way. */
  lemma ExecuteServed(e: Instruction, code: Memory, m: Machine)
    requires e.Encodable()
    ensures Execute(e, code, m).machine.ram == Served(m.ram, Request(e, code, m))
  {
    hide Execute, ExecOpAmo, ExecSystem, AtomicRequest, StoreBytes, Get, Address, StoreData;
    if e.OpAmo? {
      AtomicServed(e.r, code, m);
      ExecuteOpAmo(e.r, code, m);
    } else if e.SystemMiscMem? {
      SystemEffect(e.i, m);
      ExecuteSystem(e.i, code, m);
    } else {
      OrdinaryServed(e, code, m);
    }
  }

  lemma RequestSize(e: Instruction, code: Memory, m: Machine)
    requires e.Encodable()
    ensures Request(e, code, m).Some? ==> 0 < |Request(e, code, m).value.data| <= 4
  {
    hide Signed, Get, Alu, AmoResult, LoadWord, Bits, Address;
  }

  function CurrentRequest(code: Memory, m: Machine): Option<StoreRequest> {
    if Current(code, m).Some? then Request(Current(code, m).value, code, m) else None
  }

  /** The byte that an event stores at an address, if its store covers it. */
  function EventByte(code: Memory, m: Machine, e: Event, a: int): Option<bv8> {
    match e
    case Instruction => RequestByte(m.ram, CurrentRequest(code, m), a)
    case Reply(_, ram) => RamByte(ram, a)
    case HostWrite(ram) => RamByte(ram, a)
    case _ => None
  }

  function RequestByte(ram: Memory, request: Option<StoreRequest>, a: int): Option<bv8> {
    match request
    case None => None
    case Some(r) =>
      if StoreBytes(ram, r.address, r.data).Success? && r.address <= a < r.address + |r.data| then
        Some(r.data[a - r.address])
      else
        None
  }

  function RamByte(ram: Memory, a: int): Option<bv8> {
    if RAM_OFFSET <= a < RAM_OFFSET + |ram| then Some(ram[a - RAM_OFFSET]) else None
  }

  /** The byte of the last event whose store covers the address. */
  function LastByte(code: Memory, m: Machine, es: seq<Event>, a: int): Option<bv8>
    decreases |es|
  {
    if es == [] then
      None
    else
      var later := LastByte(code, Interpret(code, m, es[0]).1, es[1..], a);
      if later.Some? then later else EventByte(code, m, es[0], a)
  }

  function OrElse(first: Option<bv8>, second: Option<bv8>): Option<bv8> {
    if first.Some? then first else second
  }

  lemma ServedBytes(code: Memory, ram: Memory, request: Option<StoreRequest>, a: int)
    requires Fits(code, ram) && (request.Some? ==> 0 < |request.value.data| <= 4)
    ensures Fits(code, Served(ram, request))
    ensures |Served(ram, request)| == |ram|
    ensures Ref.ByteAt(code, Served(ram, request), a) == OrElse(RequestByte(ram, request, a), Ref.ByteAt(code, ram, a))
  {
    hide StoreBytes, Ref.ByteAt;
    if request.Some? {
      StoreUpdatesMap(code, ram, request.value.address, request.value.data);
    }
  }

  /** The host keeps the size of RAM. */
  predicate KeepsSize(size: nat, e: Event) {
    match e
    case Reply(_, ram) => |ram| == size
    case HostWrite(ram) => |ram| == size
    case _ => true
  }

  lemma EventBytes(code: Memory, m: Machine, e: Event, a: int)
    requires Fits(code, m.ram) && KeepsSize(|m.ram|, e)
    ensures var after := Interpret(code, m, e).1.ram;
            && Fits(code, after) && |after| == |m.ram|
            && Ref.ByteAt(code, after, a) == OrElse(EventByte(code, m, e, a), Ref.ByteAt(code, m.ram, a))
  {
    hide S.Step, Current, Execute, Request, Served, RequestByte, Instruction.Encodable, S.Fetch, Csr.TrapEntry, UInt;
    match e {
      case Instruction =>
        StepIs(code, m);
        var request := CurrentRequest(code, m);
        if Current(code, m).Some? {
          ExecuteServed(Current(code, m).value, code, m);
          RequestSize(Current(code, m).value, code, m);
        } else {
          NothingServed(m.ram);
        }
        ServedBytes(code, m.ram, request, a);
      case _ =>
    }
  }

  lemma NothingServed(ram: Memory)
    ensures Served(ram, None) == ram
  {
  }

  /**
    After any execution each address, in RAM or in code, holds the byte of the last event whose store covers
    it, or else the byte that it held at the start.
   */
  lemma {:induction false} HoldsLastByte(code: Memory, m: Machine, es: seq<Event>, a: int)
    requires Fits(code, m.ram) && forall e | e in es :: KeepsSize(|m.ram|, e)
    ensures Ref.ByteAt(code, InterpretAll(code, m, es).1.ram, a)
         == OrElse(LastByte(code, m, es, a), Ref.ByteAt(code, m.ram, a))
    decreases |es|
  {
    hide Interpret, EventByte, Ref.ByteAt;
    if es != [] {
      EventBytes(code, m, es[0], a);
      HoldsLastByte(code, Interpret(code, m, es[0]).1, es[1..], a);
    }
  }

  /** No event stores into code. */
  lemma CodeNeverStored(code: Memory, m: Machine, e: Event, a: int)
    requires Fits(code, m.ram) && a < RAM_OFFSET
    ensures EventByte(code, m, e, a) == None
  {
    hide Current, Request, StoreBytes, Instruction.Encodable;
    if e.Instruction? && Current(code, m).Some? {
      RequestSize(Current(code, m).value, code, m);
      var request := CurrentRequest(code, m);
      if request.Some? {
        StoreUpdatesMap(code, m.ram, request.value.address, request.value.data);
      }
    }
  }
}
