# Embive: conversion and interpretation, verified

Embive turns RV32IMAC machine code into its own bytecode, in place, and interprets the result. This
project models both halves and proves that running the transpiled bytes does what the original
RISC-V bytes mean, for whole executions of any length.

`dafny verify dfyconfig.toml` checks everything.

## Layers

1. **Conversion.** `Formats` (bit layouts), `Embive` (opcode table and decoding), `Converter` (the
   decode trees), `Transpiler` (the sweep over the code buffer, a method on an array), `Sections` (the loop
   over the sections of an ELF file) and `Programs` (images with executable sections).
2. **Interpreter.** `RegisterFiles`, `Slices` and `Interpreters` hold the classes, updated in place.
   Each method is proved against a function on machine values: `Exec` for the 32 instructions, `Csr`
   and `MemoryModel` for the state they act on, `Steps` for fetch, run, interrupt, system call and reset.
3. **Reference machine.** `Riscv` decodes instructions from the format figures of the RISC-V
   Unprivileged ISA 20191213 (sections 2.2 to 2.6, 7.1, 7.2, 8.2, 8.4, 9.1 and 16.2 to 16.8), with
   immediates as sums of weighted bits; `Reference` executes them over mathematical integers and a map
   from addresses to bytes, with the machine-mode registers, the trap stack and the interrupt conditions of
   the Privileged ISA (sections 3.1.1, 3.1.6 and 3.1.9). Neither uses the formats or the instruction
   functions of the first two layers; bitwise operations are defined there on binary digits. Both share the
   record of machine state, and the casts and powers of two of `Words`, which `Arithmetic.WrapExactly`,
   `Arithmetic.Unsigned`, `Words.NatSum`, `Words.CastsInvert` and `AluDigits` pin down.

`Meaning` maps an Embive instruction to the RISC-V instruction it stands for. `Departures` says, in the terms
of the reference machine, what the interpreter does with every instruction, and `Diverges` there says when
that is not what the standard says. The proofs then go from words (`Immediates`, `Meaning`, `Tolerance`)
through single instructions (`BinaryDigits`, `Arithmetic`, `MemoryProofs`, `Equivalence`, `Faults`) and the
sweep (`Shapes`, `Halfwords`, `Boundaries`) to one step (`Simulation`), to executions (`Executions`,
`Following`) and to the output of `transpile_elf` (`Images`). `Deviations` has one input for each departure.
`Acceptance`, `ImmediateRanges`, `AluDigits`, `Effects`, `Reservations`, `Limits`, `Traps`, `ZeroRegister`,
`MemoryMap` and `MemoryHistory` prove properties of the converter and the interpreter alone.

## What is proved

- **Simulation.** `Executions.ExecutionSame` and `RunSame`, for images with any number of executable
  sections, and `Images.ElfExecution` from the sections of an ELF file. An execution is a sequence of
  instructions, interrupts, answers to system calls, other writes of the host to RAM, and resets. The
  hypotheses speak of the reference machine only (`Executions.Supported`): each instruction is fetched at a
  boundary of an executable section, or fetching faults; it is defined; it reads no byte of such a section;
  it is not one of the divergences below; and the host keeps the bytes of a reserved word.
- **What every instruction does.** `Equivalence.ExecuteActual` has the whole outcome of every instruction on every
  machine, whatever x0 holds, as `Departures.Actual`; `Faults.ErrorsExactly` has the errors with what they carry;
  `Simulation.StepActual` is one step on any code. `Following.ExecutionFollows` lifts this to executions of
  transpiled images in which instructions find zero in x0: they are known from the original image, with
  departures and tolerated words included.
- **Where that departs from the standard.** With zero in x0, `Departures.DivergesExactly` and
  `Equivalence.ExecuteVerdict` prove that it is what the standard says if and only if the instruction is not in
  `Departures.Diverges`:
  - loads with rd = 0, and C.MV and C.ADD with rd = 0, write x0 (they differ when the value is not zero);
  - JALR, C.JR and C.JALR keep bit 0 of the target;
  - LR, SC and the AMOs accept misaligned addresses;
  - MRET leaves MPIE as it was (the standard sets it), and takes no interrupt that is pending and becomes
    enabled; entering a handler leaves the pending bit set;
  - a CSR instruction that writes mstatus, mie or mip takes no interrupt that is pending and enabled then;
  - a CSR instruction that writes a read-only register (0xF11 to 0xF15) is ignored rather than illegal;
  - mstatus reads with MPP = 0, and misa without extension C, which differ when rd is not x0;
  - reading `mepc` clears bit 0 of it, which an interrupt at an odd address can leave set;
  - the addresses of `Departures.Ignored`, where the reference machine has no register, read as zero.

  `Executions.InterruptSame` and `HostWriteSame` add the two cases outside instructions: an interrupt taken at
  an odd address leaves bit 0 of `mepc` set, and a reservation survives a write of the host to its word.
- **Which words are accepted.** `Acceptance.AcceptedExactly`: the defined instructions and the reserved
  encodings in `Acceptance.Tolerated`, nothing else. `Tolerance.ConvertExactly` says what each is converted as,
  and how a refused word is reported.
- **The sweep.** `Transpiler.TranspileRaw` with the lemmas of `Boundaries`. The source panics when the
  last two or three bytes begin a 32-bit instruction whose low half alone converts, because it reads two
  bytes and writes four (`src/transpiler.rs:49-64`); the model has an outcome for it, `OutOfBounds`, and
  `TruncatedInstruction` is an instance.
- **The loop over sections.** The output is the linked image with its executable sections transpiled,
  whatever their order. A request for padding can be lost: a later executable section of one byte, or a
  section that is handled later and placed earlier, resets it (`src/transpiler.rs:139-151`).
  `Images.ElfLoadable` has the exact condition, `RegularPadded` the usual layout in which it holds, `LostRequests`
  two inputs for which it fails, and `LostPadding` what the interpreter then does. A growing vector ignores
  the offsets of sections (`src/transpiler.rs:206-213`): `Images.VectorExactly` and `VectorSame`.
- **The interpreter over whole executions.** Precise faults, load-reserved and store-conditional, trap
  bracket, well-formed control registers, x0, instruction limits, memory as a map with a history.

The reference machine makes these choices. Where the standard leaves the choice open, it follows the code:
faults and environment calls go to the host, which resumes after the instruction; the host raises an
interrupt only if it can be taken at once; a reservation covers one word and is compared by value; misaligned
loads and stores are supported; machine mode is the only mode. In two points it is less than the standard:
it has no counters mcycle and minstret, and it does not see a write of the host that ends with the bytes of
a reserved word as they were.

Where documentation and code disagree, the model follows the code:

- `src/interpreter.rs:144-146` says the handler is reached through `stvec`; the code uses `mtvec`.
- `src/interpreter/registers/control_status.rs:209` says a trap sets the code of `mcause` to 11; the code sets 16.
- `src/interpreter/registers/cpu.rs` names register 0 `Zero`, but nothing keeps it at zero: see
  `ZeroRegister.ZeroExactly` for the instructions that change it.

`usize` is 64 bits wide. Values that Rust keeps in `i32` or `u32` registers are integers in that range;
instruction words, control registers and bytes are bit-vectors; every cast and wrapping operation is
written out in `Words`.

## Model

| member | source | states |
|---|---|---|
| `Executions.ExecutionSame` | src/transpiler.rs:42-71 | Every sequence of instructions, interrupts, answers to system calls, host writes to RAM and resets that the reference machine can follow through defined behaviour on the original image gives the same observations and the same final machine on the transpiled image. |
| `Executions.RunSame` | src/interpreter.rs:86-114 | `run` with limit `n` on the transpiled image ends in the machine, and with the report, of at most `n` reference instructions on the original image. |
| `Simulation.StepVerdict` | src/interpreter.rs:122-138 | At a boundary of any executable section, fetching, decoding and executing the transpiled bytes agrees with the reference machine on the original bytes if and only if the instruction is not one of the listed divergences. |
| `Simulation.ConvertedVerdict` | src/transpiler/convert.rs:101-122 | For every defined RISC-V word and every sound machine, the converted word decodes to an instruction whose effect is the one the standard gives the original, if and only if it does not diverge. |
| `Simulation.FetchedOriginal` | src/transpiler.rs:49-56 | The word the sweep reads at a boundary, whatever follows a compressed instruction and however short the buffer, converts as the instruction that RISC-V fetches there. |
| `Simulation.FetchedTranspiled` | src/interpreter.rs:136-138 | A four-byte fetch at a boundary of any section of a loaded image is in range and decodes as the converted instruction. |
| `Simulation.PerformSame` | src/interpreter/memory.rs:115-125 | An instruction that reads no byte of an executable section has the same effect on the original and on the transpiled image. |
| `Simulation.FetchFaults` | src/interpreter.rs:136-138 | Where no parcel is mapped, both machines report the same fault and change nothing. |
| `Executions.EventSame` | src/interpreter.rs:122-208 | One instruction, interrupt, answer, host write or reset: same observation, same machine, and the invariant of the machine is kept. |
| `Executions.ResetIsSound` | src/interpreter.rs:60-79 | A reset machine is the one that powering on gives: program counter and all registers zero, interrupts off and none pending, no reservation, memory kept; it meets the conditions of the simulation. |
| `Following.ExecutionFollows` | src/interpreter.rs:122-208 | Every execution of the transpiled image that stays in executable sections, reads no byte of them and finds zero in x0 is known from the original image, with departures and tolerated words included. |
| `Following.StepActs` | src/interpreter.rs:122-138 | At a boundary of any section every word is one that conversion accepts, and the step does what the departing machine does with the original word. |
| `Following.ConvertedActual` | src/transpiler/convert.rs:101-122 | A converted word, defined or tolerated, has on every sound machine the effect that the departing machine gives its meaning. |
| `Simulation.StepActual` | src/interpreter.rs:122-138 | A step on any code decodes the four bytes at the program counter and does what the departing machine does, or reports an access fault. |
| `Executions.InterruptExactly` | src/interpreter.rs:156-172 | An interrupt is refused without change, or pushes MIE, records cause, address and value and jumps to the vector, for odd addresses too. |
| `Executions.HostWriteSame` | src/interpreter.rs:210-244 | A write of the host to RAM has the standard's effect if and only if it keeps the bytes of the reserved word. |
| `Executions.InterruptSame` | src/interpreter.rs:156-172 | An interrupt has the standard's effect if and only if it is refused or taken at an even address. |
| `Transpiler.TranspileRaw` | src/transpiler.rs:42-71 | The sweep that overwrites the buffer while reading it leaves the bytes, and returns the result, that are defined from the original bytes alone. |
| `Boundaries.ConvertedInPlace` | src/transpiler.rs:46-68 | After a successful sweep every boundary holds exactly the conversion of the original instruction there; the length and an odd last byte are unchanged. |
| `Boundaries.ConvertedBefore` | src/transpiler.rs:46-68 | Whether or not the sweep succeeds, every instruction before the first offender is converted in place. |
| `Boundaries.DoneExactly` | src/transpiler.rs:46-70 | The sweep succeeds if and only if the instruction at every boundary converts and fits in the buffer. |
| `Boundaries.ReportsFirst` | src/transpiler.rs:58-64 | It fails if and only if clean instructions lead to one that is not; it then reports that first one, and the bytes from there on are untouched. |
| `Boundaries.BlameNames` | src/transpiler.rs:58-64 | The reported word is the refused word at the offender, its low half if it is compressed; a word that is accepted does not fit. |
| `Boundaries.SameBoundaries` | src/transpiler.rs:58-67 | A walk over the original by RISC-V lengths and a walk over the output by Embive opcodes visit the same offsets. |
| `Boundaries.PaddingExactly` | src/transpiler.rs:49-52 | Padding is asked for if and only if a four-byte fetch at some boundary would pass the end. |
| `Boundaries.PaddingSuffices` | src/transpiler.rs:44-56 | Two more bytes when padding is asked for, or one after an odd length, bring the fetch at every boundary into range. |
| `Sections.TranspileElf` | src/transpiler.rs:100-171 | The loop over the sections returns the output and its size, or the failure, that the fold over the sections defines. |
| `Images.ElfSucceeds` | src/transpiler.rs:100-171 | It succeeds if and only if every section and the padding fit in the buffer and every executable section converts; the size is the end of the last section plus the padding. |
| `Images.ElfReportsFirst` | src/transpiler.rs:129-168 | A failure is that of the first section that does not fit or does not transpile, or of padding that does not fit. |
| `Images.PaddingIsZero` | src/transpiler.rs:165-169 | Padding is two zero bytes at the end of the binary. |
| `Images.ElfTranslated` | src/transpiler.rs:129-152 | The binary is the linked image with each executable section replaced by its conversion, for any order of the sections. |
| `Images.ElfLoadable` | src/transpiler.rs:142-168 | The binary is one that the simulation covers if and only if each section that asks for padding has room behind it or the last deciding section asks too. |
| `Images.RegularPadded` | src/transpiler.rs:142-168 | With sections by ascending address and executable sections of at least two bytes no request for padding is lost. |
| `Images.LostRequests` | src/transpiler.rs:142-152 | A one-byte code section after code, and data handled after code that is placed behind it, each lose the padding. |
| `Images.LostPadding` | src/transpiler.rs:49-52 | Where padding was lost, fetching some instruction of the section fails. |
| `Images.ElfExecution` | src/transpiler.rs:83-196 | Executions of the interpreter on the binary are those of the reference machine on the linked sections. |
| `Images.VectorExactly` | src/transpiler.rs:205-216 | With sections by ascending address a vector ends up with the reported size if and only if they leave no gap. |
| `Images.VectorOfData` | src/transpiler.rs:205-216 | A vector takes data sections one after the other whatever their offsets; code that comes after a gap is out of bounds. |
| `Images.VectorSame` | src/transpiler.rs:205-216 | Without gaps the vector is the binary of a large enough buffer, with the same failures. |
| `Boundaries.TruncatedInstruction` | src/transpiler.rs:60-64 | A buffer that ends in the first half of a 32-bit instruction can make the write back run out of bounds. |
| `Acceptance.AcceptedExactly` | src/transpiler/convert.rs:101-122 | A word is converted if and only if it is a defined instruction or one of a short list of reserved encodings, never both. |
| `Acceptance.ReservedSystemWord` | src/transpiler/convert/system.rs:25-31 | A reserved SYSTEM word is accepted unchanged and then decodes as MRET. |
| `Shapes.ConvertShaped` | src/transpiler/convert.rs:84-90 | A conversion keeps the length that the low two bits announce, its opcode announces the same length, and a half-size result fits in 16 bits. |
| `Shapes.DecodeShaped` | src/instruction/embive_macro.rs:63-76 | Every 32-bit word decodes, to fields that fit their formats, so register indices are below 32, and to a size that its opcode gives. |
| `Halfwords.ConvertHalf` | src/transpiler/convert.rs:101-105 | Converting a compressed word, errors included, depends on its low 16 bits only. |
| `Halfwords.DecodeHalf` | src/instruction/embive_macro.rs:63-76 | Decoding a half-size Embive word depends on its low 16 bits only. |
| `Tolerance.ConvertExactly` | src/transpiler/convert.rs:101-122 | Each word is converted with a known meaning if it is defined or tolerated, and refused with its own number otherwise. |
| `Tolerance.ToleratedMeans` | src/transpiler/convert.rs:101-122 | Each tolerated word is converted as the defined instruction with the same opcode and function; SYSTEM words by their immediate, where 2, 3 and 4 become FENCE, WFI and MRET. |
| `Tolerance.RefusedExactly` | src/transpiler/convert.rs:101-122 | A word that is neither defined nor tolerated is refused and reported, a compressed one by its low 16 bits. |
| `Acceptance.AcceptsAmo` | src/transpiler/convert/amo.rs:22-47 | The AMO opcode is accepted for words only, for the eleven defined functions, and for LR with any rs2. |
| `Meaning.ConvertMeans` | src/transpiler/convert.rs:101-122 | Every defined instruction converts to a word of the same length that decodes to an instruction with the same meaning. |
| `Meaning.C0Means` | src/transpiler/convert/c0.rs:12-29 | Quadrant 0 keeps the meaning that section 16.8 of the Unprivileged ISA gives each encoding, the illegal one included. |
| `Meaning.C1Means` | src/transpiler/convert/c1.rs:28-97 | Quadrant 1 keeps the meaning of each defined encoding. |
| `Meaning.C1AluMeans` | src/transpiler/convert/c1.rs:28-97 | The register and immediate operations of quadrant 1 keep their meaning. |
| `Meaning.C2Means` | src/transpiler/convert/c2.rs:15-42 | Quadrant 2 keeps the meaning of each defined encoding. |
| `Meaning.UncompressedMeans` | src/transpiler/convert.rs:106-120 | Every defined 32-bit encoding keeps its meaning. |
| `Meaning.LoadMeans` | src/transpiler/convert/load.rs:14-28 | Loads keep width, sign extension, registers and offset through the renumbering of funct3. |
| `Meaning.StoreMeans` | src/transpiler/convert/store.rs:12-32 | Stores keep width, registers and offset although they are written in the format of loads. |
| `Meaning.BranchMeans` | src/transpiler/convert/branch.rs:15-30 | Branches keep condition, registers and offset. |
| `Meaning.OpImmMeans` | src/transpiler/convert/op_imm.rs:17-34 | Immediate operations keep operation, registers and operand; SRAI stays apart from SRLI. |
| `Meaning.OpMeans` | src/transpiler/convert/op.rs:40-67 | All 18 register operations keep operation and registers through the renumbering of the merged funct10. |
| `Meaning.AmoMeans` | src/transpiler/convert/amo.rs:22-47 | LR, SC and the nine AMOs keep operation and registers through the renumbering of funct5. |
| `Meaning.FenceMeans` | src/transpiler/convert/misc_mem.rs:8-14 | FENCE and FENCE.I become the same instruction, which does nothing. |
| `Meaning.PrivilegedMeans` | src/transpiler/convert/system.rs:20-46 | ECALL, EBREAK, WFI and MRET keep their meaning through the renumbering of the immediate. |
| `Meaning.CsrMeans` | src/transpiler/convert/system.rs:20-46 | The six CSR instructions keep operation, operand, register and address. |
| `Formats.TypeR.RoundTrip` | src/format.rs:44-74 | Writing the fields with any opcode and reading them back gives the same fields if and only if they fit; the opcode keeps its five bits. |
| `Formats.TypeI.RoundTrip` | src/format.rs:89-119 | Writing the fields with any opcode and reading them back gives the same fields if and only if they fit; the opcode keeps its five bits. |
| `Formats.TypeS.RoundTrip` | src/format.rs:134-164 | Writing the fields with any opcode and reading them back gives the same fields if and only if they fit; the opcode keeps its five bits. |
| `Formats.TypeB.RoundTrip` | src/format.rs:179-213 | Writing the fields with any opcode and reading them back gives the same fields if and only if they fit; the opcode keeps its five bits. |
| `Formats.TypeU.RoundTrip` | src/format.rs:224-244 | Writing the fields with any opcode and reading them back gives the same fields if and only if they fit; the opcode keeps its five bits. |
| `Formats.TypeJ.RoundTrip` | src/format.rs:255-282 | Writing the fields with any opcode and reading them back gives the same fields if and only if they fit; the opcode keeps its five bits. |
| `Formats.TypeCIW.RoundTrip` | src/format.rs:293-320 | Writing the fields with any opcode and reading them back gives the same fields if and only if they fit; the opcode keeps its five bits. |
| `Formats.TypeCL.RoundTrip` | src/format.rs:333-362 | Writing the fields with any opcode and reading them back gives the same fields if and only if they fit; the opcode keeps its five bits. |
| `Formats.TypeCI1.RoundTrip` | src/format.rs:373-396 | Writing the fields with any opcode and reading them back gives the same fields if and only if they fit; the opcode keeps its five bits. |
| `Formats.TypeCI2.RoundTrip` | src/format.rs:407-435 | Writing the fields with any opcode and reading them back gives the same fields if and only if they fit; the opcode keeps its five bits. |
| `Formats.TypeCI3.RoundTrip` | src/format.rs:446-469 | Writing the fields with any opcode and reading them back gives the same fields if and only if they fit; the opcode keeps its five bits. |
| `Formats.TypeCI4.RoundTrip` | src/format.rs:480-503 | Writing the fields with any opcode and reading them back gives the same fields if and only if they fit; the opcode keeps its five bits. |
| `Formats.TypeCI5.RoundTrip` | src/format.rs:514-540 | Writing the fields with any opcode and reading them back gives the same fields if and only if they fit; the opcode keeps its five bits. |
| `Formats.TypeCB1.RoundTrip` | src/format.rs:551-574 | Writing the fields with any opcode and reading them back gives the same fields if and only if they fit; the opcode keeps its five bits. |
| `Formats.TypeCB2.RoundTrip` | src/format.rs:585-608 | Writing the fields with any opcode and reading them back gives the same fields if and only if they fit; the opcode keeps its five bits. |
| `Formats.TypeCB4.RoundTrip` | src/format.rs:619-648 | Writing the fields with any opcode and reading them back gives the same fields if and only if they fit; the opcode keeps its five bits. |
| `Formats.TypeCR.RoundTrip` | src/format.rs:659-682 | Writing the fields with any opcode and reading them back gives the same fields if and only if they fit; the opcode keeps its five bits. |
| `Formats.TypeCS.RoundTrip` | src/format.rs:693-716 | Writing the fields with any opcode and reading them back gives the same fields if and only if they fit; the opcode keeps its five bits. |
| `Formats.TypeCSS.RoundTrip` | src/format.rs:727-750 | Writing the fields with any opcode and reading them back gives the same fields if and only if they fit; the opcode keeps its five bits. |
| `Formats.TypeCJ.RoundTrip` | src/format.rs:759-788 | Writing the fields with any opcode and reading them back gives the same fields if and only if they fit; the opcode keeps its five bits. |
| `Formats.TypeS.SameLayout` | src/format.rs:147-164 | The Embive layouts of S-type and I-type put the same fields in the same bits. |
| `Immediates.IValue` | src/format.rs:93-100 | The permuted bits are the I-immediate of section 2.3, as a sum of weighted instruction bits with its sign. |
| `ImmediateRanges.IRange` | src/format.rs:93-100 | The immediate of every word is -2048 to 2047. |
| `Immediates.SValue` | src/format.rs:138-145 | The permuted bits are the S-immediate of section 2.3, as a sum of weighted instruction bits with its sign. |
| `ImmediateRanges.SRange` | src/format.rs:138-145 | The immediate of every word is -2048 to 2047. |
| `Immediates.BValue` | src/format.rs:183-194 | The permuted bits are the B-immediate of section 2.3, as a sum of weighted instruction bits with its sign. |
| `ImmediateRanges.BRange` | src/format.rs:183-194 | The immediate of every word is even, -4096 to 4094. |
| `Immediates.UValue` | src/format.rs:228-233 | The permuted bits are the U-immediate of section 2.3, as a sum of weighted instruction bits with its sign. |
| `ImmediateRanges.URange` | src/format.rs:228-233 | The immediate of every word is a multiple of 4096 over the signed 32-bit range. |
| `Immediates.JValue` | src/format.rs:259-268 | The permuted bits are the J-immediate of section 2.3, as a sum of weighted instruction bits with its sign. |
| `ImmediateRanges.JRange` | src/format.rs:259-268 | The immediate of every word is even, -1048576 to 1048574. |
| `Immediates.CIWValue` | src/format.rs:297-305 | The permuted bits are the scaled immediate of C.ADDI4SPN, as a sum of weighted instruction bits with its sign. |
| `ImmediateRanges.CIWRange` | src/format.rs:297-305 | The immediate of every word is a multiple of 4, 0 to 1020. |
| `Immediates.CLValue` | src/format.rs:337-345 | The permuted bits are the scaled offset of C.LW and C.SW, as a sum of weighted instruction bits with its sign. |
| `ImmediateRanges.CLRange` | src/format.rs:337-345 | The immediate of every word is a multiple of 4, 0 to 124. |
| `Immediates.CI1Value` | src/format.rs:377-382 | The permuted bits are the immediate of C.ADDI and C.LI, as a sum of weighted instruction bits with its sign. |
| `ImmediateRanges.CI1Range` | src/format.rs:377-382 | The immediate of every word is -32 to 31. |
| `Immediates.CI2Value` | src/format.rs:411-421 | The permuted bits are the scaled immediate of C.ADDI16SP, as a sum of weighted instruction bits with its sign. |
| `ImmediateRanges.CI2Range` | src/format.rs:411-421 | The immediate of every word is a multiple of 16, -512 to 496. |
| `Immediates.CI3Value` | src/format.rs:450-455 | The permuted bits are the immediate of C.LUI, times 4096, as a sum of weighted instruction bits with its sign. |
| `ImmediateRanges.CI3Range` | src/format.rs:450-455 | The immediate of every word is a multiple of 4096, -131072 to 126976. |
| `Immediates.CI4Value` | src/format.rs:484-489 | The permuted bits are the shift amount of C.SLLI, as a sum of weighted instruction bits with its sign. |
| `ImmediateRanges.CI4Range` | src/format.rs:484-489 | The immediate of every word is 0 to 63. |
| `Immediates.CI5Value` | src/format.rs:518-526 | The permuted bits are the scaled offset of C.LWSP, as a sum of weighted instruction bits with its sign. |
| `ImmediateRanges.CI5Range` | src/format.rs:518-526 | The immediate of every word is a multiple of 4, 0 to 252. |
| `Immediates.CB1Value` | src/format.rs:555-560 | The permuted bits are the shift amount of C.SRLI and C.SRAI, as a sum of weighted instruction bits with its sign. |
| `ImmediateRanges.CB1Range` | src/format.rs:555-560 | The immediate of every word is 0 to 63. |
| `Immediates.CB2Value` | src/format.rs:589-594 | The permuted bits are the immediate of C.ANDI, as a sum of weighted instruction bits with its sign. |
| `ImmediateRanges.CB2Range` | src/format.rs:589-594 | The immediate of every word is -32 to 31. |
| `Immediates.CB4Value` | src/format.rs:623-633 | The permuted bits are the offset of C.BEQZ and C.BNEZ, as a sum of weighted instruction bits with its sign. |
| `ImmediateRanges.CB4Range` | src/format.rs:623-633 | The immediate of every word is even, -256 to 254. |
| `Immediates.CSSValue` | src/format.rs:731-736 | The permuted bits are the scaled offset of C.SWSP, as a sum of weighted instruction bits with its sign. |
| `ImmediateRanges.CSSRange` | src/format.rs:731-736 | The immediate of every word is a multiple of 4, 0 to 252. |
| `Immediates.CJValue` | src/format.rs:763-775 | The permuted bits are the offset of C.J and C.JAL, as a sum of weighted instruction bits with its sign. |
| `ImmediateRanges.CJRange` | src/format.rs:763-775 | The immediate of every word is even, -2048 to 2046. |
| `Embive.RoundTrip` | src/instruction.rs:68-182 | For every instruction, decoding the encoded word gives it back if and only if its fields fit their formats: no opcode overlaps a field and no two instructions share a word. |
| `Embive.DecodeTotal` | src/instruction/embive_macro.rs:63-76 | The table has an entry for every value of the five opcode bits, so the no-opcode arm is never taken. |
| `Equivalence.ExecuteActual` | src/interpreter/decode_execute.rs:41-49 | For all 32 opcodes and every machine, whatever x0 holds, the whole outcome is the one that `Departures` gives in the terms of the reference machine. |
| `Departures.DivergesExactly` | src/interpreter/decode_execute.rs:41-49 | With zero in x0, what the interpreter does with an instruction is what the standard says if and only if `Diverges` does not hold. |
| `Faults.ErrorsExactly` | src/interpreter/error.rs:8-24 | An instruction that fails returns the one error named for it, with the program counter, the CSR address or the end of the access that it carries. |
| `Equivalence.ShownBits` | src/interpreter/registers/control_status.rs:135-140 | misa reads with bits 30, 12, 8 and 0 set and no other, mstatus with MIE and MPIE and no other. |
| `Equivalence.ExecuteVerdict` | src/interpreter/decode_execute.rs:41-49 | For all 32 opcodes and every sound machine, executing agrees with the RISC-V instruction it means if and only if it does not diverge. |
| `Equivalence.LoadStoreVerdict` | src/interpreter/decode_execute/load_store.rs:12-71 | Loads and stores move the standard's bytes and extend the standard's way, and fault exactly outside memory; a load into x0 differs exactly when its value is not zero. |
| `Equivalence.OpAmoVerdict` | src/interpreter/decode_execute/op_amo.rs:13-159 | Arithmetic, LR, SC and the AMOs agree with the standard, the atomics exactly at aligned addresses or where they fault. |
| `Equivalence.SystemVerdict` | src/interpreter/decode_execute/system_misc_mem.rs:10-89 | ECALL, EBREAK, WFI, MRET and the CSR instructions agree with the reference machine if and only if they do not diverge; MRET agrees exactly when MPIE is already set and no interrupt becomes deliverable. |
| `Equivalence.BranchVerdict` | src/interpreter/decode_execute/branch.rs:9-34 | All six conditions and both targets agree with the standard. |
| `Equivalence.JalVerdict` | src/interpreter/decode_execute/jal.rs:10-24 | Link and target agree with the standard. |
| `Equivalence.JalrVerdict` | src/interpreter/decode_execute/jalr.rs:10-27 | Link and target agree, with rd and rs1 the same register too, exactly when the target is even. |
| `Equivalence.OpImmVerdict` | src/interpreter/decode_execute/op_imm.rs:10-45 | Every immediate operation agrees with the standard. |
| `Equivalence.JrMvVerdict` | src/interpreter/decode_execute/compressed/jr_mv.rs:9-29 | C.JR agrees exactly for even targets and C.MV exactly when it does not put a value other than zero in x0. |
| `Equivalence.EbreakJalrAddVerdict` | src/interpreter/decode_execute/compressed/ebreak_jalr_add.rs:11-49 | The three instructions agree with the standard exactly for even targets and unless C.ADD changes x0. |
| `Equivalence.UndefinedOpAmoActual` | src/interpreter/decode_execute/op_amo.rs:62-151 | A function constant without a meaning is an illegal instruction if the word at rs1 can be loaded, and otherwise the load faults first; the machine is kept. |
| `Equivalence.CsrVerdict` | src/interpreter/decode_execute/system_misc_mem.rs:31-91 | A CSR instruction agrees with the reference machine, illegal addresses included, if and only if it is not one of those that `CsrDiverges` names. |
| `Arithmetic.AluSame` | src/interpreter/decode_execute/op_amo.rs:18-61 | Each of the 18 operations, with Rust's wrapping and 64-bit intermediates, is the operation over integers and their binary digits that the standard describes. |
| `AluDigits.BitwiseAluDigits` | src/interpreter/decode_execute/op_amo.rs:23-27 | A digit of AND, OR and XOR is set if and only if both operands have it, at least one has it, exactly one has it. |
| `AluDigits.LeftShiftDigits` | src/interpreter/decode_execute/op_amo.rs:20-20 | SLL moves every digit up by the low five bits of rs2 and fills with zeros. |
| `AluDigits.RightShiftDigits` | src/interpreter/decode_execute/op_amo.rs:24-25 | SRL and SRA move every digit down and fill with zeros or with copies of the sign. |
| `BinaryDigits.BitwiseSame` | src/interpreter/decode_execute/op_amo.rs:23-27 | The bitwise operations on patterns are the digit by digit operations of the reference machine. |
| `Arithmetic.WrapExactly` | src/interpreter/decode_execute/op_amo.rs:18-34 | Wrapping to 32 and to 64 bits keeps a number modulo 2^32 and 2^64. |
| `Arithmetic.MultiplyExact` | src/interpreter/decode_execute/op_amo.rs:28-34 | MULH, MULHU and MULHSU times 2^32 plus the unsigned MUL is the true product of the operands. |
| `Arithmetic.DivideExact` | src/interpreter/decode_execute/op_amo.rs:35-54 | Signed division and remainder satisfy the dividend equation modulo 2^32, with the standard's results for zero divisors and overflow. |
| `Arithmetic.DivideUnsignedExact` | src/interpreter/decode_execute/op_amo.rs:42-61 | Unsigned division and remainder satisfy the dividend equation, with the standard's results for a zero divisor. |
| `MemoryProofs.InsideMapped` | src/interpreter/memory.rs:29-41 | A range passes the bounds check of one slice if and only if every address in it is mapped. |
| `MemoryProofs.LoadBytesMapped` | src/interpreter/memory.rs:115-125 | A load succeeds exactly when every byte is mapped and returns the mapped bytes. |
| `MemoryProofs.StoreSame` | src/interpreter/memory/memory_type.rs:54-58 | A store of one, two or four bytes succeeds exactly inside RAM and writes the little-endian bytes of the value and no others. |
| `MemoryMap.StoreUpdatesMap` | src/interpreter/memory.rs:134-142 | A store succeeds if and only if it lies in RAM; afterwards the stored addresses hold its bytes and every other address what it held. |
| `MemoryHistory.HoldsLastByte` | src/interpreter/memory.rs:134-142 | After any execution each address holds the byte of the last event whose store covers it, or its first byte if there is none. |
| `MemoryHistory.ExecuteServed` | src/interpreter/decode_execute/load_store.rs:40-71 | Every instruction changes RAM by the one store it asks for and in no other way. |
| `MemoryHistory.CodeNeverStored` | src/interpreter/memory.rs:134-142 | No event stores to an address of code. |
| `MemoryMap.FaultReportsEnd` | src/interpreter/memory.rs:29-41 | A failing access reports the end of its range within the region, never a length error. |
| `MemoryMap.LowStoresFail` | src/interpreter/memory.rs:134-142 | Because of the wrapping subtraction, stores below the RAM region all fail if and only if RAM is shorter than 2^31 plus the length of the store. |
| `MemoryMap.LoadAfterStore` | src/interpreter/decode_execute/load_store.rs:12-71 | LB, LH, LBU, LHU and LW after SB, SH and SW of the same width give back the value with the proper extension. |
| `Effects.StepEffect` | src/interpreter.rs:122-128 | A step that fails leaves the machine as it was, except that a store-conditional whose store fails has given up its matching reservation; no step reports a bad register index. |
| `Effects.ExecuteEffect` | src/interpreter/decode_execute.rs:41-49 | Only LR and SC touch the reservation, only SYSTEM instructions touch the control registers, and faults are precise. |
| `Reservations.ConditionalOutcome` | src/interpreter/decode_execute/op_amo.rs:69-91 | A store-conditional stores and returns 0 if and only if the reserved address matches and the word there equals the reserved value; otherwise it returns 1 with memory unchanged. |
| `Reservations.OneStorePerReservation` | src/interpreter/decode_execute/op_amo.rs:62-91 | Over every execution, successful store-conditionals never outnumber the load-reserveds that can support them. |
| `Reservations.HeldSince` | src/interpreter/decode_execute/op_amo.rs:62-91 | A reservation that is held was made by an earlier load-reserved that loaded its value, and since then there was no other, no reset and no store-conditional that got past its load. |
| `Reservations.EventReservation` | src/interpreter.rs:122-208 | Interrupts, answers to system calls, host writes and all other instructions keep the reservation; a reset clears it. |
| `Limits.RunExactly` | src/interpreter.rs:86-114 | A run makes as many steps as its limit, or ends with the outcome of the first step that does not report `Running`. |
| `Limits.RunConcat` | src/interpreter.rs:86-102 | A run that is still going, followed by another run, is the run with the sum of the limits. |
| `Limits.RunStable` | src/interpreter.rs:86-102 | A larger limit does not change a run that has ended. |
| `Limits.CallsAreOneRun` | src/interpreter.rs:86-102 | Any number of calls with one limit, while the result is `Running`, are one run with the product as limit. |
| `Limits.CeilingCalls` | src/interpreter.rs:86-114 | If the unlimited run ends at step k, calls with limit L run on before call ceil(k / L), and that call ends in the same machine with the same result. |
| `Traps.EventKeepsCsrs` | src/interpreter/registers/control_status.rs:133-184 | Every event keeps mstatus within MIE and MPIE and mtvec aligned; it keeps mepc even if and only if it is not an interrupt taken at an odd address. |
| `Traps.CsrsStayWellFormed` | src/interpreter/registers/control_status.rs:133-238 | Over every execution without such interrupts the control registers stay well formed, and reading one then changes none. |
| `Traps.InterruptRefused` | src/interpreter.rs:156-161 | Inside a handler an interrupt is refused and changes nothing. |
| `Traps.HandlerKeepsTrap` | src/interpreter/registers/control_status.rs:200-238 | Whatever a handler runs, short of returning or accessing mstatus and mepc, keeps MIE clear, MPIE set and mepc at the interrupted address. |
| `Traps.TrapBracket` | src/interpreter/decode_execute/system_misc_mem.rs:21-26 | After an interrupt at pc, every further interrupt is refused until the return, which resumes at pc with interrupts enabled and keeps all else: x1 to x31, memory, reservation, the other control registers, MPIE and the pending bit. |
| `ZeroRegister.ZeroExactly` | src/interpreter/registers/cpu.rs:101-117 | After an instruction x0 is still zero if and only if it is not a load, C.LWSP, C.MV or C.ADD that puts another value in it. |
| `ZeroRegister.ZeroStaysZero` | src/interpreter.rs:191-208 | Over every execution mixed with interrupts, system calls, host writes and resets x0 stays zero if no instruction leaks into it. |
| `Deviations.JalrToOddAddress` | src/interpreter/decode_execute/jalr.rs:10-27 | JALR to address 1 departs. |
| `Deviations.JumpThroughOddRegister` | src/interpreter/decode_execute/compressed/jr_mv.rs:9-29 | C.JR and C.JALR through a register that holds 1 depart. |
| `Deviations.MoveAndAddToZero` | src/interpreter/decode_execute/compressed/ebreak_jalr_add.rs:11-49 | C.MV and C.ADD of 5 into x0 depart. |
| `Deviations.LoadToZero` | src/interpreter/decode_execute/load_store.rs:12-71 | LBU of 1 into x0 departs. |
| `Deviations.MisalignedAtomics` | src/interpreter/decode_execute/op_amo.rs:62-151 | LR, SC and AMOADD at a misaligned address depart. |
| `Deviations.MretDeparts` | src/interpreter/decode_execute/system_misc_mem.rs:21-26 | MRET with MPIE clear, and MRET that enables a pending interrupt, depart. |
| `Deviations.PendingInterruptWaits` | src/interpreter/decode_execute/system_misc_mem.rs:31-91 | A CSR write that enables a pending interrupt departs. |
| `Deviations.ReadOnlyWrite` | src/interpreter/registers/control_status.rs:181-181 | A write to mhartid departs. |
| `Deviations.StatusRead` | src/interpreter/registers/control_status.rs:135-139 | A read of mstatus into a register departs. |
| `Deviations.IsaRead` | src/interpreter/registers/control_status.rs:140-140 | A read of misa into a register departs. |
| `Deviations.OddReturnAddressRead` | src/interpreter/registers/control_status.rs:159-164 | A read of an odd mepc departs: it clears bit 0. |
| `Deviations.MissingRead` | src/interpreter/registers/control_status.rs:153-153 | A read at 0x321, where there is no register, departs. |
| `Deviations.InterruptAtOddAddress` | src/interpreter/registers/control_status.rs:216-238 | An interrupt taken at address 1 departs. |
| `Deviations.HostWriteToReservedWord` | src/interpreter/decode_execute/op_amo.rs:69-91 | A host write to a reserved word leaves a reservation that the standard drops. |
| `Interpreters.Interpreter.constructor` | src/interpreter.rs:60-69 | The machine starts at address 0 with every register and control register zero, interrupts off and none pending, no reservation, and the given memory. |
| `Interpreters.Interpreter.Run` | src/interpreter.rs:86-114 | The object ends in the machine, and returns the result, of the run function for its limit, or for as many steps as an unlimited run takes. |
| `Interpreters.Interpreter.Step` | src/interpreter.rs:122-128 | Updates the object as the step function of its previous machine says. |
| `Interpreters.Interpreter.Fetch` | src/interpreter.rs:136-138 | Reads four bytes at the program counter. |
| `Interpreters.Interpreter.Interrupt` | src/interpreter.rs:156-172 | Refused without any change, or enters the handler with the pending bit set. |
| `Interpreters.Interpreter.SyscallArguments` | src/interpreter.rs:176-187 | The number is register 17 and the arguments are registers 10 to 16 in order. |
| `Interpreters.Interpreter.SyscallResult` | src/interpreter.rs:191-208 | Sets a0 and a1 and nothing else. |
| `Interpreters.Interpreter.Syscall` | src/interpreter.rs:230-244 | For any host function, called with register 17, registers 10 to 16 and memory: a host error changes RAM only; an answer gives the answered machine of the reference on the host's RAM, with the reservation kept. |
| `Interpreters.Interpreter.Reset` | src/interpreter.rs:75-79 | Program counter, all registers and control registers become zero, interrupts off and none pending, no reservation; memory is kept. |
| `Interpreters.Interpreter.DecodeExecute` | src/interpreter/decode_execute.rs:41-49 | Updates the object as the decoded instruction says, for every 32-bit word. |
| `Interpreters.Interpreter.Dispatch` | src/interpreter/decode_execute.rs:41-49 | Selects the method of the instruction. |
| `Interpreters.Interpreter.ExecuteCAddi4spn` | src/interpreter/decode_execute/compressed/addi4spn.rs:11-28 | Updates registers, memory and program counter in place exactly as the specification of `CAddi4spn` says of the previous machine. |
| `Interpreters.Interpreter.ExecuteCLw` | src/interpreter/decode_execute/compressed/lw.rs:12-28 | Updates registers, memory and program counter in place exactly as the specification of `CLw` says of the previous machine. |
| `Interpreters.Interpreter.ExecuteCSw` | src/interpreter/decode_execute/compressed/sw.rs:12-26 | Updates registers, memory and program counter in place exactly as the specification of `CSw` says of the previous machine. |
| `Interpreters.Interpreter.ExecuteCAddi` | src/interpreter/decode_execute/compressed/addi.rs:10-23 | Updates registers, memory and program counter in place exactly as the specification of `CAddi` says of the previous machine. |
| `Interpreters.Interpreter.ExecuteCJal` | src/interpreter/decode_execute/compressed/jal.rs:10-21 | Updates registers, memory and program counter in place exactly as the specification of `CJal` says of the previous machine. |
| `Interpreters.Interpreter.ExecuteCLi` | src/interpreter/decode_execute/compressed/li.rs:10-23 | Updates registers, memory and program counter in place exactly as the specification of `CLi` says of the previous machine. |
| `Interpreters.Interpreter.ExecuteCAddi16sp` | src/interpreter/decode_execute/compressed/addi16sp.rs:10-21 | Updates registers, memory and program counter in place exactly as the specification of `CAddi16sp` says of the previous machine. |
| `Interpreters.Interpreter.ExecuteCLui` | src/interpreter/decode_execute/compressed/lui.rs:10-23 | Updates registers, memory and program counter in place exactly as the specification of `CLui` says of the previous machine. |
| `Interpreters.Interpreter.ExecuteCSrli` | src/interpreter/decode_execute/compressed/srli.rs:10-23 | Updates registers, memory and program counter in place exactly as the specification of `CSrli` says of the previous machine. |
| `Interpreters.Interpreter.ExecuteCSrai` | src/interpreter/decode_execute/compressed/srai.rs:10-23 | Updates registers, memory and program counter in place exactly as the specification of `CSrai` says of the previous machine. |
| `Interpreters.Interpreter.ExecuteCAndi` | src/interpreter/decode_execute/compressed/andi.rs:10-23 | Updates registers, memory and program counter in place exactly as the specification of `CAndi` says of the previous machine. |
| `Interpreters.Interpreter.ExecuteCSub` | src/interpreter/decode_execute/compressed/sub.rs:10-25 | Updates registers, memory and program counter in place exactly as the specification of `CSub` says of the previous machine. |
| `Interpreters.Interpreter.ExecuteCXor` | src/interpreter/decode_execute/compressed/xor.rs:9-24 | Updates registers, memory and program counter in place exactly as the specification of `CXor` says of the previous machine. |
| `Interpreters.Interpreter.ExecuteCOr` | src/interpreter/decode_execute/compressed/or.rs:10-25 | Updates registers, memory and program counter in place exactly as the specification of `COr` says of the previous machine. |
| `Interpreters.Interpreter.ExecuteCAnd` | src/interpreter/decode_execute/compressed/and.rs:10-25 | Updates registers, memory and program counter in place exactly as the specification of `CAnd` says of the previous machine. |
| `Interpreters.Interpreter.ExecuteCJ` | src/interpreter/decode_execute/compressed/j.rs:8-13 | Updates registers, memory and program counter in place exactly as the specification of `CJ` says of the previous machine. |
| `Interpreters.Interpreter.ExecuteCBeqz` | src/interpreter/decode_execute/compressed/beqz.rs:9-22 | Updates registers, memory and program counter in place exactly as the specification of `CBeqz` says of the previous machine. |
| `Interpreters.Interpreter.ExecuteCBnez` | src/interpreter/decode_execute/compressed/bnez.rs:9-22 | Updates registers, memory and program counter in place exactly as the specification of `CBnez` says of the previous machine. |
| `Interpreters.Interpreter.ExecuteCSlli` | src/interpreter/decode_execute/compressed/slli.rs:10-23 | Updates registers, memory and program counter in place exactly as the specification of `CSlli` says of the previous machine. |
| `Interpreters.Interpreter.ExecuteCLwsp` | src/interpreter/decode_execute/compressed/lwsp.rs:13-29 | Updates registers, memory and program counter in place exactly as the specification of `CLwsp` says of the previous machine. |
| `Interpreters.Interpreter.ExecuteCJrMv` | src/interpreter/decode_execute/compressed/jr_mv.rs:9-29 | Updates registers, memory and program counter in place exactly as the specification of `CJrMv` says of the previous machine. |
| `Interpreters.Interpreter.ExecuteCEbreakJalrAdd` | src/interpreter/decode_execute/compressed/ebreak_jalr_add.rs:11-49 | Updates registers, memory and program counter in place exactly as the specification of `CEbreakJalrAdd` says of the previous machine. |
| `Interpreters.Interpreter.ExecuteCSwsp` | src/interpreter/decode_execute/compressed/swsp.rs:13-27 | Updates registers, memory and program counter in place exactly as the specification of `CSwsp` says of the previous machine. |
| `Interpreters.Interpreter.ExecuteAuipc` | src/interpreter/decode_execute/auipc.rs:10-25 | Updates registers, memory and program counter in place exactly as the specification of `Auipc` says of the previous machine. |
| `Interpreters.Interpreter.ExecuteBranch` | src/interpreter/decode_execute/branch.rs:9-34 | Updates registers, memory and program counter in place exactly as the specification of `Branch` says of the previous machine. |
| `Interpreters.Interpreter.ExecuteJal` | src/interpreter/decode_execute/jal.rs:10-24 | Updates registers, memory and program counter in place exactly as the specification of `Jal` says of the previous machine. |
| `Interpreters.Interpreter.ExecuteJalr` | src/interpreter/decode_execute/jalr.rs:10-27 | Updates registers, memory and program counter in place exactly as the specification of `Jalr` says of the previous machine. |
| `Interpreters.Interpreter.ExecuteLoadStore` | src/interpreter/decode_execute/load_store.rs:12-71 | Updates registers, memory and program counter in place exactly as the specification of `LoadStore` says of the previous machine. |
| `Interpreters.Interpreter.ExecuteLui` | src/interpreter/decode_execute/lui.rs:10-25 | Updates registers, memory and program counter in place exactly as the specification of `Lui` says of the previous machine. |
| `Interpreters.Interpreter.ExecuteOpImm` | src/interpreter/decode_execute/op_imm.rs:10-45 | Updates registers, memory and program counter in place exactly as the specification of `OpImm` says of the previous machine. |
| `Interpreters.Interpreter.ExecuteOpAmo` | src/interpreter/decode_execute/op_amo.rs:13-159 | Updates registers, memory and program counter in place exactly as the specification of `OpAmo` says of the previous machine. |
| `Interpreters.Interpreter.ExecuteSystemMiscMem` | src/interpreter/decode_execute/system_misc_mem.rs:10-89 | Updates registers, memory and program counter in place exactly as the specification of `SystemMiscMem` says of the previous machine. |
| `Interpreters.Interpreter.ExecuteAtomic` | src/interpreter/decode_execute/op_amo.rs:62-151 | The atomic arms on the loaded value: reservation, memory, rd and program counter. |
| `Interpreters.Interpreter.StoreConditional` | src/interpreter/decode_execute/op_amo.rs:69-91 | Takes the reservation first; stores and yields 0 when address and value match, otherwise yields 1. |
| `Interpreters.Interpreter.ExecuteCsr` | src/interpreter/decode_execute/system_misc_mem.rs:31-91 | Operation, refusal of unknown registers and write to rd of the CSR instructions. |
| `RegisterFiles.CPURegisters.Get` | src/interpreter/registers/cpu.rs:93-99 | The register, or an error that names the index, for every index. |
| `RegisterFiles.CPURegisters.Set` | src/interpreter/registers/cpu.rs:111-117 | Changes that register only, or nothing with an error that names the index. |
| `RegisterFiles.CSRegisters.Access` | src/interpreter/registers/control_status.rs:133-184 | Returns the previous value and applies the operation with the register's mask, or refuses the address without any change. |
| `RegisterFiles.CSRegisters.EnterTrap` | src/interpreter/registers/control_status.rs:216-238 | Pushes MIE, records cause, address and value, and yields the trap vector. |
| `RegisterFiles.CSRegisters.LeaveTrap` | src/interpreter/registers/control_status.rs:248-258 | Restores MIE from MPIE and yields the saved address. |
| `RegisterFiles.CSRegisters.Enabled` | src/interpreter/registers/control_status.rs:200-202 | Both the global and the individual enable bit are set. |
| `RegisterFiles.CSRegisters.SetInterrupt` | src/interpreter/registers/control_status.rs:192-195 | Sets the pending bit and nothing else. |
| `Slices.SliceMemory.LoadBytes` | src/interpreter/memory.rs:115-125 | The bytes of the region that the address selects, or the error of its bounds check. |
| `Slices.SliceMemory.StoreBytes` | src/interpreter/memory.rs:134-142 | Copies the data into RAM in place, or leaves RAM alone and returns the error of the bounds check. |

## Left out

- ELF parsing: headers, segment lookup, the alignment of offsets and the rule for empty sections
  (`src/transpiler.rs:88-127`). The sections to load, with their offsets, are inputs of `Sections`.
- Sections.TranspileElf: the output is a value and a section is transpiled in a copy that is put back; what a
  failed call leaves in the caller's buffer is not stated.
- The GDB debugger, the examples, branch hints and the text of errors: they do not change what is computed.
- `syscall_async`: it does what `syscall` does.
- Loads and stores of 64-bit, 128-bit, floating-point and Boolean values: no instruction uses them.
- Other implementations of the `Memory` trait, and `mut_bytes`, which only hands RAM to the host: the memory
  is `SliceMemory`, and the host's changes to RAM are events.
- Code executed from RAM: the simulation covers instructions in executable sections.
- Reads of text bytes by a host function: an answer to a system call is the same on both images.
- The order in which Rust evaluates pure sub-expressions, and 32-bit `usize`.
- Interpreters.Interpreter.Run: an unlimited run of the source may never return; the method asks for a number
  of steps in which it does.
- Interpreters.Interpreter.Syscall: the host function is a mathematical function, so a closure's own state is
  not modelled; `Executions` allows any answers and, for a host that fails, any `HostWrite` instead.
- Interpreters.Interpreter.Dispatch: the methods of single instructions require fields that fit their format,
  which every decoded word has, so the error for a bad register index appears in `CPURegisters` only.
- Equivalence.ExecuteVerdict: leaves out the function constants 29 and above of the OP/AMO opcode, which
  conversion never emits and which have no RISC-V meaning; `Equivalence.ExecuteActual` has them.
- Following.ExecutionFollows: an instruction that finds a value other than zero in x0 ends the execution that it
  covers; `Equivalence.ExecuteActual` and `Simulation.StepActual` have such instructions one at a time.
- Slices.SliceMemory.LoadBytes: the result is a copy of the bytes, not a borrowed slice.
