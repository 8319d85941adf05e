/** Control and status registers (src/interpreter/registers/control_status.rs). */
module Csr {
  import opened Wrappers
  import opened Words
  import opened Machines

  const MSTATUS_ADDR: bv16 := 0x300
  const MISA_ADDR: bv16 := 0x301
  const MIE_ADDR: bv16 := 0x304
  const MTVEC_ADDR: bv16 := 0x305
  const MSTATUSH_ADDR: bv16 := 0x310
  const MCOUNTINHIBIT_ADDR: bv16 := 0x320
  const MHPMEVENT31H_ADDR: bv16 := 0x33F
  const MSCRATCH_ADDR: bv16 := 0x340
  const MEPC_ADDR: bv16 := 0x341
  const MCAUSE_ADDR: bv16 := 0x342
  const MTVAL_ADDR: bv16 := 0x343
  const MIP_ADDR: bv16 := 0x344
  const MCYCLE_ADDR: bv16 := 0xB00
  const MHPMCOUNTER31H_ADDR: bv16 := 0xB9F
  const MVENDORID_ADDR: bv16 := 0xF11
  const MCONFIGPTR_ADDR: bv16 := 0xF15

  /** MXL = 1, extensions A, I and M. */
  const MISA: bv32 := 0x4000_1101

  const MTVEC_MODE: bv32 := 0x3
  const MEPC_BIT0: bv32 := 0x1
  const MSTATUS_MIE: bv8 := 0x08
  const MSTATUS_MPIE: bv8 := 0x80
  const MSTATUS_MASK: bv8 := 0x88

  /** Bit `EMBIVE_INTERRUPT_CODE` (16) of `mie` and `mip`. */
  const INTERRUPT_BIT: bv32 := 0x1_0000

  /** An interrupt with code `EMBIVE_INTERRUPT_CODE`. */
  const MCAUSE_EMBIVE: bv32 := 0x8000_0010

  datatype CSOperation = Write(value: bv32) | Set(mask: bv32) | Clear(mask: bv32)

  function ExecuteOperation(op: Option<CSOperation>, value: bv32): bv32 {
    match op
    case Some(Write(val)) => val
    case Some(Set(val)) => value | val
    case Some(Clear(val)) => value & !val
    case None => value
  }

  function InterruptBit(flag: bool): bv32 {
    if flag then INTERRUPT_BIT else 0
  }

  // What each register keeps of a value written to it.

  function StatusBits(v: bv32): bv8 { (v & 0xFF) as bv8 & MSTATUS_MASK }

  function HasInterruptBit(v: bv32): bool { v & INTERRUPT_BIT != 0 }

  function DirectVector(v: bv32): bv32 { v & !MTVEC_MODE }

  function EvenAddress(v: bv32): bv32 { v & !MEPC_BIT0 }

  /** The registers that hold something; `Zero` stands for those that read as zero and ignore writes. */
  datatype Name = Mstatus | Misa | Mie | Mtvec | Mscratch | Mepc | Mcause | Mtval | Mip | Zero

  function NameOf(addr: bv16): Option<Name> {
    if addr == MSTATUS_ADDR then Some(Mstatus)
    else if addr == MISA_ADDR then Some(Misa)
    else if addr == MIE_ADDR then Some(Mie)
    else if addr == MTVEC_ADDR then Some(Mtvec)
    else if addr == MSTATUSH_ADDR then Some(Zero)
    else if MCOUNTINHIBIT_ADDR <= addr <= MHPMEVENT31H_ADDR then Some(Zero)
    else if addr == MSCRATCH_ADDR then Some(Mscratch)
    else if addr == MEPC_ADDR then Some(Mepc)
    else if addr == MCAUSE_ADDR then Some(Mcause)
    else if addr == MTVAL_ADDR then Some(Mtval)
    else if addr == MIP_ADDR then Some(Mip)
    else if MCYCLE_ADDR <= addr <= MHPMCOUNTER31H_ADDR then Some(Zero)
    else if MVENDORID_ADDR <= addr <= MCONFIGPTR_ADDR then Some(Zero)
    else None
  }

  /** The value that a register reads as. */
  function Read(c: CsrFile, name: Name): bv32 {
    match name
    case Mstatus => c.mstatus as bv32
    case Misa => MISA
    case Mie => InterruptBit(c.mieEmbive)
    case Mtvec => c.mtvec
    case Mscratch => c.mscratch
    case Mepc => c.mepc
    case Mcause => c.mcause
    case Mtval => c.mtval
    case Mip => InterruptBit(c.mipEmbive)
    case Zero => 0
  }

  /** The registers after `v` is written to one of them. */
  function Update(c: CsrFile, name: Name, v: bv32): CsrFile {
    match name
    case Mstatus => c.(mstatus := StatusBits(v))
    case Mie => c.(mieEmbive := HasInterruptBit(v))
    case Mtvec => c.(mtvec := DirectVector(v))
    case Mscratch => c.(mscratch := v)
    case Mepc => c.(mepc := EvenAddress(v))
    case Mcause => c.(mcause := v)
    case Mtval => c.(mtval := v)
    case Mip => c.(mipEmbive := HasInterruptBit(v))
    case _ => c
  }

  /** The value before the operation, and the registers after it; the value is written back in any case. */
  function Operation(c: CsrFile, op: Option<CSOperation>, addr: bv16): Result<(bv32, CsrFile), Error> {
    match NameOf(addr)
    case None => Failure(InvalidCSRegister(addr))
    case Some(name) =>
      var ret := Read(c, name);
      Success((ret, Update(c, name, ExecuteOperation(op, ret))))
  }

  predicate InterruptEnabled(c: CsrFile) {
    c.mieEmbive && c.mstatus & MSTATUS_MIE != 0
  }

  /** Registers on entry to the interrupt handler; the program counter becomes `mtvec`. */
  function TrapEntry(c: CsrFile, pc: u32, value: i32): CsrFile {
    var pushed := if c.mstatus & MSTATUS_MIE != 0 then c.mstatus | MSTATUS_MPIE else c.mstatus & !MSTATUS_MPIE;
    c.(mstatus := pushed & !MSTATUS_MIE, mcause := MCAUSE_EMBIVE, mepc := Word(pc), mtval := Bits(value))
  }

  /** Registers after a return from the handler; the program counter becomes `mepc`. */
  function TrapReturn(c: CsrFile): CsrFile {
    c.(mstatus := if c.mstatus & MSTATUS_MPIE != 0 then c.mstatus | MSTATUS_MIE else c.mstatus & !MSTATUS_MIE)
  }
}
