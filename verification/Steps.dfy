/**
  The operations of the interpreter (src/interpreter.rs) as functions from a machine to a machine: a
  step, a run of at most `n` steps, an interrupt, the two halves of a system call, and a reset.
 */
module Steps {
  import opened Wrappers
  import opened Words
  import opened Embive
  import opened Machines
  import opened MemoryModel
  import opened Csr
  import opened Exec
  import Shapes

  /** Four bytes are fetched, whatever the instruction's size. */
  function Fetch(code: Memory, m: Machine): Result<bv32, Error> {
    LoadWord(code, m.ram, m.pc)
  }

  function DecodeExecute(data: bv32, code: Memory, m: Machine): Outcome {
    match Decode(data)
    case Some(e) => Shapes.DecodeShaped(data); Execute(e, code, m)
    case None => Fault(m, InvalidInstruction(m.pc))
  }

  function Step(code: Memory, m: Machine): Outcome {
    match Fetch(code, m)
    case Failure(e) => Fault(m, e)
    case Success(data) => DecodeExecute(data, code, m)
  }

  const RUNNING: Result<State, Error> := Success(Running)

  /** At most `n` steps: the run ends early when a step does not report `Running`. */
  function Run(code: Memory, m: Machine, n: nat): Outcome
    decreases n
  {
    if n == 0 then
      Outcome(RUNNING, m)
    else
      var o := Step(code, m);
      if o.result == RUNNING then Run(code, o.machine, n - 1) else o
  }

  /** The result of an interrupt, and the machine after it. */
  function Interrupt(m: Machine, value: i32): (Result<(), Error>, Machine) {
    if InterruptEnabled(m.csr) then
      (Success(()), m.(csr := TrapEntry(m.csr.(mipEmbive := true), m.pc, value), pc := UInt(m.csr.mtvec & !MTVEC_MODE)))
    else
      (Failure(InterruptNotEnabled), m)
  }

  const A0: nat := 10
  const A1: nat := 11
  const A7: nat := 17
  const SYSCALL_ARGS: nat := 7

  /** The system call number and its arguments. */
  function SyscallArguments(m: Machine): (i32, seq<i32>) {
    (m.regs[A7], m.regs[A0..A0 + SYSCALL_ARGS])
  }

  type NonZeroI32 = x: i32 | x != 0 witness 1

  /** The answer to a system call: a value in `a1`, or an error code in `a0`. */
  function SyscallResult(m: Machine, reply: Result<i32, NonZeroI32>): Machine {
    match reply
    case Success(value) => m.(regs := m.regs[A0 := 0][A1 := value])
    case Failure(error) => m.(regs := m.regs[A0 := error][A1 := 0])
  }

  /** A host function reads the number, the arguments and memory; it may change RAM. */
  datatype HostAnswer<E> = HostAnswer(answer: Result<Result<i32, NonZeroI32>, E>, ram: Memory)

  function Syscall<E>(m: Machine, host: HostAnswer<E>): (Result<(), E>, Machine) {
    match host.answer
    case Success(reply) => (Success(()), SyscallResult(m.(ram := host.ram), reply))
    case Failure(e) => (Failure(e), m.(ram := host.ram))
  }

  /** Memory is kept by a reset. */
  function Reset(m: Machine): Machine {
    Machine(0, RESET_REGISTERS, RESET_CSRS, m.ram, None)
  }
}
