/** The state that instructions act on, and what a step reports to the host. */
module Machines {
  import opened Wrappers
  import opened Words

  /** src/interpreter/state.rs */
  datatype State = Running | Called | Waiting | Halted

  /** src/interpreter/error.rs, for the errors that the interpreter can return. */
  datatype Error =
    | InvalidMemoryAddress(end: u32)
    | InvalidMemoryAccessLength(len: nat)
    | InvalidInstruction(pc: u32)
    | InvalidCSRegister(addr: bv16)
    | InvalidCPURegister(index: bv8)
    | IllegalInstruction(pc: u32)
    | InterruptNotEnabled

  /** src/interpreter/registers/control_status.rs: the values of the control and status registers. */
  datatype CsrFile = CsrFile(
    mtvec: bv32, mscratch: bv32, mepc: bv32, mcause: bv32, mtval: bv32,
    mieEmbive: bool, mipEmbive: bool, mstatus: bv8)

  const RESET_CSRS := CsrFile(0, 0, 0, 0, 0, false, false, 0)

  const REGISTERS: nat := 32

  type Registers = s: seq<i32> | |s| == REGISTERS witness seq(REGISTERS, _ => 0)

  const RESET_REGISTERS: Registers := [
    0, 0, 0, 0, 0, 0, 0, 0, 0, 0, 0, 0, 0, 0, 0, 0,
    0, 0, 0, 0, 0, 0, 0, 0, 0, 0, 0, 0, 0, 0, 0, 0]

  type Memory = seq<bv8>

  /** The word that was loaded by a load-reserved, and where. */
  datatype Reservation = Reservation(address: u32, value: i32)

  /** Everything that a step can read or change, except the read-only code. */
  datatype Machine = Machine(pc: u32, regs: Registers, csr: CsrFile, ram: Memory, reservation: Option<Reservation>)

  datatype Outcome = Outcome(result: Result<State, Error>, machine: Machine)
}
