/**
  The reference machine: one hart that executes RISC-V instructions as the Unprivileged ISA describes
  them, over mathematical integers, with the trap stack of the Privileged ISA (section 3.1.6.1).

  Choices that the standard leaves open follow the interpreter: faults and environment calls go to the
  host, which resumes after the instruction; the host raises an interrupt only if it can be taken at once;
  a reservation covers one word; misaligned loads and stores are supported; machine mode is the only mode.

  The counters mcycle and minstret are missing, and a write by the host that leaves the bytes of the
  reserved word as they were is not seen.
 */
module Reference {
  import opened Wrappers
  import opened Words
  import opened Machines
  import R = Riscv

  datatype Report =
    | Continue
    | EnvironmentCall
    | Breakpoint
    | WaitForInterrupt
    | AccessFault
    | IllegalInstruction

  datatype Effect = Effect(report: Report, machine: Machine)

  // Registers: x0 reads as zero and ignores writes (section 2.1).

  function X(m: Machine, r: nat): i32 {
    if 0 < r < REGISTERS then m.regs[r] else 0
  }

  function SetX(m: Machine, r: nat, value: i32): Machine {
    if 0 < r < REGISTERS then m.(regs := m.regs[r := value]) else m
  }

  function Low32(x: int): i32 {
    ToI32(x % 0x1_0000_0000)
  }

  // Arithmetic (sections 2.4, 7.1 and 7.2).

  function Magnitude(a: int): nat {
    if a < 0 then -a else a
  }

  /** Rounds towards zero. */
  function Quotient(a: int, b: int): int
    requires b != 0
  {
    if (a < 0) == (b < 0) then Magnitude(a) / Magnitude(b) else -(Magnitude(a) / Magnitude(b))
  }

  /** Has the sign of the dividend. */
  function Remainder(a: int, b: int): int
    requires b != 0
  {
    if a < 0 then -(Magnitude(a) % Magnitude(b)) else Magnitude(a) % Magnitude(b)
  }

  datatype BitOp = BitAnd | BitOr | BitXor {
    function On(x: bool, y: bool): bool {
      match this
      case BitAnd => x && y
      case BitOr => x || y
      case BitXor => x != y
    }
  }

  /** Combines the last `n` binary digits of two numbers. */
  function Digitwise(op: BitOp, a: nat, b: nat, n: nat): nat
    decreases n
  {
    if n == 0 then 0
    else 2 * Digitwise(op, a / 2, b / 2, n - 1) + if op.On(a % 2 == 1, b % 2 == 1) then 1 else 0
  }

  function Digits(op: BitOp, a: i32, b: i32): i32 {
    Low32(Digitwise(op, ToU32(a), ToU32(b), 32))
  }

  function Alu(op: R.AluOp, a: i32, b: i32): i32 {
    match op
    case ADD => Low32(ToU32(a) + ToU32(b))
    case SUB => Low32(ToU32(a) - ToU32(b))
    case SLL => Low32(ToU32(a) * Pow2(ToU32(b) % 32))
    case SLT => if a < b then 1 else 0
    case SLTU => if ToU32(a) < ToU32(b) then 1 else 0
    case XOR => Digits(BitXor, a, b)
    case SRL => Low32(ToU32(a) / Pow2(ToU32(b) % 32))
    case SRA => Low32(a / Pow2(ToU32(b) % 32))
    case OR => Digits(BitOr, a, b)
    case AND => Digits(BitAnd, a, b)
    case MUL => Low32(a * b)
    case MULH => Low32((a * b) / 0x1_0000_0000)
    case MULHSU => Low32((a * ToU32(b)) / 0x1_0000_0000)
    case MULHU => Low32((ToU32(a) * ToU32(b)) / 0x1_0000_0000)
    case DIV => if b == 0 then -1 else Low32(Quotient(a, b))
    case DIVU => if b == 0 then -1 else Low32(ToU32(a) / ToU32(b))
    case REM => if b == 0 then a else Low32(Remainder(a, b))
    case REMU => if b == 0 then a else Low32(ToU32(a) % ToU32(b))
  }

  function Holds(c: R.Condition, a: i32, b: i32): bool {
    match c
    case EQ => a == b
    case NE => a != b
    case LT => a < b
    case GE => !(a < b)
    case LTU => ToU32(a) < ToU32(b)
    case GEU => !(ToU32(a) < ToU32(b))
  }

  // Memory: a map from addresses to bytes, little-endian (section 2.6).

  const RAM_BASE: int := 0x8000_0000

  function ByteAt(code: Memory, ram: Memory, a: int): Option<bv8> {
    if 0 <= a < |code| && a < RAM_BASE then Some(code[a])
    else if RAM_BASE <= a < RAM_BASE + |ram| && a < 0x1_0000_0000 then Some(ram[a - RAM_BASE])
    else None
  }

  function ByteValue(b: bv8): nat {
    Nat(b as bv32)
  }

  /** The unsigned value of the `n` bytes from `a` on. */
  function Read(code: Memory, ram: Memory, a: int, n: nat): Option<nat>
    decreases n
  {
    if n == 0 then Some(0)
    else
      match (ByteAt(code, ram, a), Read(code, ram, a + 1, n - 1))
      case (Some(b), Some(v)) => Some(ByteValue(b) + 0x100 * v)
      case _ => None
  }

  function LowByte(v: nat): bv8 {
    (Word(v % 0x100) & 0xFF) as bv8
  }

  predicate Writable(ram: Memory, a: int, n: nat) {
    RAM_BASE <= a && a + n <= RAM_BASE + |ram| && a + n <= 0x1_0000_0000
  }

  /** RAM after its `n` bytes from `a` on are set to the low bytes of `v`. */
  function Written(ram: Memory, a: int, n: nat, v: nat): (written: Memory)
    requires Writable(ram, a, n)
    ensures |written| == |ram|
    decreases n
  {
    if n == 0 then ram else Written(ram, a + 1, n - 1, v / 0x100)[a - RAM_BASE := LowByte(v)]
  }

  function Write(ram: Memory, a: int, n: nat, v: nat): Option<Memory> {
    if Writable(ram, a, n) then Some(Written(ram, a, n, v)) else None
  }

  function SignExtended(v: nat, bits: nat): int {
    if bits > 0 && v >= Pow2(bits - 1) then v - Pow2(bits) else v
  }

  function LoadWidth(k: R.LoadKind): nat {
    match k
    case LB => 1
    case LBU => 1
    case LH => 2
    case LHU => 2
    case LW => 4
  }

  function StoreWidth(k: R.StoreKind): nat {
    match k
    case SB => 1
    case SH => 2
    case SW => 4
  }

  function Loaded(k: R.LoadKind, v: nat): i32 {
    if k == R.LBU || k == R.LHU then Low32(v) else Low32(SignExtended(v, 8 * LoadWidth(k)))
  }

  function Target(base: int, imm: int): u32 {
    WrapU32(base + imm)
  }

  // Atomics (chapter 8).

  function AmoValue(op: R.AmoOp, prior: i32, b: i32): i32 {
    match op
    case SWAP => b
    case PLUS => Low32(ToU32(prior) + ToU32(b))
    case XOR => Digits(BitXor, prior, b)
    case AND => Digits(BitAnd, prior, b)
    case OR => Digits(BitOr, prior, b)
    case MIN => if b < prior then b else prior
    case MAX => if b > prior then b else prior
    case MINU => if ToU32(b) < ToU32(prior) then b else prior
    case MAXU => if ToU32(b) > ToU32(prior) then b else prior
  }

  // Control and status registers (chapter 9; Privileged ISA chapters 2 and 3).

  predicate Mie(c: CsrFile) { c.mstatus & 0x08 != 0 }

  predicate Mpie(c: CsrFile) { c.mstatus & 0x80 != 0 }

  function Status(mie: bool, mpie: bool): bv8 {
    (if mie then 0x08 else 0) | (if mpie then 0x80 else 0)
  }

  /** Bits 11 and 10 of the address of a read-only register are set. */
  predicate ReadOnly(addr: bv32) { addr & 0xC00 == 0xC00 }

  /**
    The machine-mode registers of a hart without other modes; `Hardwired` are those that may be fixed at
    zero.  The counters mcycle and minstret are not provided.
   */
  datatype CsrName = Mstatus | Misa | MieBits | Mtvec | Mscratch | Mepc | Mcause | Mtval | MipBits | Hardwired

  function CsrAt(addr: bv32): Option<CsrName> {
    if addr == 0x300 then Some(Mstatus)
    else if addr == 0x301 then Some(Misa)
    else if addr == 0x304 then Some(MieBits)
    else if addr == 0x305 then Some(Mtvec)
    else if addr == 0x340 then Some(Mscratch)
    else if addr == 0x341 then Some(Mepc)
    else if addr == 0x342 then Some(Mcause)
    else if addr == 0x343 then Some(Mtval)
    else if addr == 0x344 then Some(MipBits)
    else if addr == 0x310 || addr == 0x320 || 0x323 <= addr <= 0x33F then Some(Hardwired)
    else if 0xB03 <= addr <= 0xB1F || 0xB83 <= addr <= 0xB9F || 0xF11 <= addr <= 0xF15 then Some(Hardwired)
    else None
  }

  /** MPP holds the one mode that there is; misa names XLEN = 32 and the extensions A, C, I and M. */
  const MPP_MACHINE: bv32 := 0x1800
  const MISA_ACIM: bv32 := 0x4000_1105

  function CsrRead(c: CsrFile, name: CsrName): bv32 {
    match name
    case Mstatus => MPP_MACHINE | Status(Mie(c), Mpie(c)) as bv32
    case Misa => MISA_ACIM
    case MieBits => if c.mieEmbive then 0x1_0000 else 0
    case Mtvec => c.mtvec
    case Mscratch => c.mscratch
    case Mepc => c.mepc
    case Mcause => c.mcause
    case Mtval => c.mtval
    case MipBits => if c.mipEmbive then 0x1_0000 else 0
    case Hardwired => 0
  }

  // What a register keeps of a value written to it: fields that are not supported keep their legal value.

  function StatusOf(v: bv32): bv8 { Status(v & 0x08 != 0, v & 0x80 != 0) }

  function InterruptOf(v: bv32): bool { v & 0x1_0000 != 0 }

  function VectorOf(v: bv32): bv32 { v & 0xFFFF_FFFC }

  function EvenOf(v: bv32): bv32 { v & 0xFFFF_FFFE }

  function CsrWrite(c: CsrFile, name: CsrName, v: bv32): CsrFile {
    match name
    case Mstatus => c.(mstatus := StatusOf(v))
    case MieBits => c.(mieEmbive := InterruptOf(v))
    case Mtvec => c.(mtvec := VectorOf(v))
    case Mscratch => c.(mscratch := v)
    case Mepc => c.(mepc := EvenOf(v))
    case Mcause => c.(mcause := v)
    case Mtval => c.(mtval := v)
    case MipBits => c.(mipEmbive := InterruptOf(v))
    case _ => c
  }

  function CsrResult(op: R.CsrOp, prior: bv32, operand: bv32): bv32 {
    match op
    case RW => operand
    case RS => prior | operand
    case RC => prior & !operand
  }

  function Operand(m: Machine, s: R.CsrSource): bv32 {
    match s
    case Register(r) => Bits(X(m, r))
    case Immediate(u) => u
  }

  /** Set and clear with source x0 or 0 do not write. */
  predicate Writes(op: R.CsrOp, s: R.CsrSource) {
    match s
    case Register(r) => op == R.RW || r != 0
    case Immediate(u) => op == R.RW || u != 0
  }

  function Trap(c: CsrFile, pc: u32, value: i32): CsrFile {
    c.(mstatus := Status(false, Mie(c)), mcause := 0x8000_0010, mepc := Word(pc) & 0xFFFF_FFFE, mtval := Bits(value))
  }

  function Return(c: CsrFile): CsrFile {
    c.(mstatus := Status(Mpie(c), true))
  }

  /** The interrupt is pending and enabled. */
  predicate Pending(c: CsrFile) { Mie(c) && c.mieEmbive && c.mipEmbive }

  /**
    After a return from a trap, and after a write to a register on which interrupts depend, a pending and
    enabled interrupt is taken before the next instruction (Privileged ISA, section 3.1.9).
   */
  function Deliver(m: Machine): Machine {
    if Pending(m.csr) then m.(csr := Trap(m.csr, m.pc, 0), pc := UInt(m.csr.mtvec)) else m
  }

  predicate DecidesInterrupts(name: CsrName) { name.Mstatus? || name.MieBits? || name.MipBits? }

  // Instructions.

  function Step(m: Machine, length: nat): Machine {
    m.(pc := WrapU32(m.pc + length))
  }

  function Done(m: Machine, length: nat): Effect {
    Effect(Continue, Step(m, length))
  }

  function Link(m: Machine, length: nat): i32 {
    Low32(m.pc + length)
  }

  function DoLoad(k: R.LoadKind, rd: nat, a: u32, length: nat, code: Memory, m: Machine): Effect {
    match Read(code, m.ram, a, LoadWidth(k))
    case Some(v) => Done(SetX(m, rd, Loaded(k, v)), length)
    case None => Effect(AccessFault, m)
  }

  function DoStore(k: R.StoreKind, a: u32, value: i32, length: nat, m: Machine): Effect {
    match Write(m.ram, a, StoreWidth(k), ToU32(value))
    case Some(ram) => Done(m.(ram := ram), length)
    case None => Effect(AccessFault, m)
  }

  /** Naturally aligned words only (section 8.2): anything else is an access fault. */
  function ReadAligned(code: Memory, ram: Memory, a: u32): Option<nat> {
    if a % 4 == 0 then Read(code, ram, a, 4) else None
  }

  function DoLoadReserved(rd: nat, a: u32, read: Option<nat>, m: Machine): Effect {
    match read
    case Some(v) => Done(SetX(m.(reservation := Some(Reservation(a, Low32(v)))), rd, Low32(v)), 4)
    case None => Effect(AccessFault, m)
  }

  /** Any store-conditional that reaches memory gives up the reservation. */
  function DoStoreConditional(rd: nat, a: u32, read: Option<nat>, value: i32, m: Machine): Effect {
    match read
    case None => Effect(AccessFault, m)
    case Some(v) =>
      var released := m.(reservation := None);
      if m.reservation == Some(Reservation(a, Low32(v))) then
        match Write(m.ram, a, 4, ToU32(value))
        case Some(ram) => Done(SetX(released.(ram := ram), rd, 0), 4)
        case None => Effect(AccessFault, released)
      else
        Done(SetX(released, rd, 1), 4)
  }

  function DoAmo(op: R.AmoOp, rd: nat, a: u32, read: Option<nat>, b: i32, m: Machine): Effect {
    match read
    case None => Effect(AccessFault, m)
    case Some(v) =>
      match Write(m.ram, a, 4, ToU32(AmoValue(op, Low32(v), b)))
      case Some(ram) => Done(SetX(m.(ram := ram), rd, Low32(v)), 4)
      case None => Effect(AccessFault, m)
  }

  /** The machine after a write by a CSR instruction, before any interrupt. */
  function CsrWritten(op: R.CsrOp, rd: nat, s: R.CsrSource, name: CsrName, m: Machine): Machine {
    var prior := CsrRead(m.csr, name);
    Step(SetX(m.(csr := CsrWrite(m.csr, name, CsrResult(op, prior, Operand(m, s)))), rd, Signed(prior)), 4)
  }

  function DoCsr(op: R.CsrOp, rd: nat, s: R.CsrSource, addr: bv32, m: Machine): Effect {
    match CsrAt(addr)
    case None => Effect(Report.IllegalInstruction, m)
    case Some(name) =>
      if !Writes(op, s) then
        Done(SetX(m, rd, Signed(CsrRead(m.csr, name))), 4)
      else if ReadOnly(addr) then
        Effect(Report.IllegalInstruction, m)
      else
        var done := CsrWritten(op, rd, s, name, m);
        Effect(Continue, if DecidesInterrupts(name) then Deliver(done) else done)
  }

  /** One instruction that is `length` bytes long. */
  function Perform(r: R.Instr, length: nat, code: Memory, m: Machine): Effect {
    match r
    case Lui(rd, imm) => Done(SetX(m, rd, Low32(imm)), length)
    case Auipc(rd, imm) => Done(SetX(m, rd, Low32(m.pc + imm)), length)
    case Jal(rd, imm) => Effect(Continue, SetX(m, rd, Link(m, length)).(pc := Target(m.pc, imm)))
    case Jalr(rd, rs1, imm) =>
      var target := Target(X(m, rs1), imm);
      Effect(Continue, SetX(m, rd, Link(m, length)).(pc := target - target % 2))
    case Branch(c, rs1, rs2, imm) =>
      if Holds(c, X(m, rs1), X(m, rs2)) then Effect(Continue, m.(pc := Target(m.pc, imm))) else Done(m, length)
    case Load(k, rd, rs1, imm) => DoLoad(k, rd, Target(X(m, rs1), imm), length, code, m)
    case Store(k, rs1, rs2, imm) => DoStore(k, Target(X(m, rs1), imm), X(m, rs2), length, m)
    case OpImm(op, rd, rs1, imm) => Done(SetX(m, rd, Alu(op, X(m, rs1), Low32(imm))), length)
    case Op(op, rd, rs1, rs2) => Done(SetX(m, rd, Alu(op, X(m, rs1), X(m, rs2))), length)
    case LoadReserved(rd, rs1) =>
      var a := ToU32(X(m, rs1));
      DoLoadReserved(rd, a, ReadAligned(code, m.ram, a), m)
    case StoreConditional(rd, rs1, rs2) =>
      var a := ToU32(X(m, rs1));
      DoStoreConditional(rd, a, ReadAligned(code, m.ram, a), X(m, rs2), m)
    case Amo(op, rd, rs1, rs2) =>
      var a := ToU32(X(m, rs1));
      DoAmo(op, rd, a, ReadAligned(code, m.ram, a), X(m, rs2), m)
    case Fence => Done(m, length)
    case Ecall => Effect(EnvironmentCall, Step(m, length))
    case Ebreak => Effect(Breakpoint, Step(m, length))
    case Wfi => Effect(WaitForInterrupt, Step(m, length))
    case Mret => Effect(Continue, Deliver(m.(csr := Return(m.csr), pc := UInt(m.csr.mepc))))
    case Csr(op, rd, s, addr) => DoCsr(op, rd, s, addr, m)
    case Illegal => Effect(Report.IllegalInstruction, m)
  }

  // Whole machine.

  /** The 16-bit parcel at `a`. */
  function Parcel(code: Memory, ram: Memory, a: int): Option<bv32> {
    match (ByteAt(code, ram, a), ByteAt(code, ram, a + 1))
    case (Some(b0), Some(b1)) => Some(b0 as bv32 | (b1 as bv32 << 8))
    case _ => None
  }

  /** The instruction at `pc`: one parcel, or two when its low bits ask for them (section 1.5). */
  function Fetch(code: Memory, ram: Memory, pc: int): Option<bv32> {
    match Parcel(code, ram, pc)
    case None => None
    case Some(low) =>
      if R.Length(low) == 2 then
        Some(low)
      else
        match Parcel(code, ram, pc + 2)
        case None => None
        case Some(high) => Some(low | (high << 16))
  }

  /** Fetch, decode and perform one instruction. */
  function Cycle(code: Memory, m: Machine): Effect {
    match Fetch(code, m.ram, m.pc)
    case None => Effect(AccessFault, m)
    case Some(w) =>
      match R.Decode(w)
      case None => Effect(Report.IllegalInstruction, m)
      case Some(r) => Perform(r, R.Length(w), code, m)
  }

  /** An interrupt is taken when it is enabled globally and individually; nothing happens otherwise. */
  function TakeInterrupt(m: Machine, value: i32): Machine {
    if Mie(m.csr) && m.csr.mieEmbive then
      m.(csr := Trap(m.csr, m.pc, value).(mipEmbive := true), pc := UInt(m.csr.mtvec))
    else
      m
  }

  /** A write by another device changes some byte of the reserved word (section 8.2). */
  predicate ReservationBroken(m: Machine, ram: Memory) {
    match m.reservation
    case None => false
    case Some(r) =>
      exists i: int :: r.address <= i < r.address + 4 && ByteAt([], m.ram, i) != ByteAt([], ram, i)
  }

  /** The host writes RAM; a store-conditional must then fail if the reserved word was written. */
  function DeviceWrite(m: Machine, ram: Memory): Machine {
    if ReservationBroken(m, ram) then m.(ram := ram, reservation := None) else m.(ram := ram)
  }

  /** The host's answer to an environment call: error code in x10, value in x11, and RAM as it leaves it. */
  function Answer(m: Machine, error: i32, value: i32, ram: Memory): Machine {
    SetX(SetX(DeviceWrite(m, ram), 10, error), 11, value)
  }

  /** Reset: all registers are zero, interrupts are off, and memory keeps its contents. */
  function PowerOn(m: Machine): Machine {
    Machine(0, seq(32, _ => 0), CsrFile(0, 0, 0, 0, 0, false, false, 0), m.ram, None)
  }
}
