/**
  The loop over the sections of an ELF file (src/transpiler.rs:83-170), after its headers were read: each
  section is copied to its place in the output, and transpiled there if it is executable.
 */
module Sections {
  import opened Wrappers
  import opened Machines
  import opened MemoryModel
  import opened Transpiler
  import opened Programs

  /** A section that is loaded: its place in the output, its bytes and its flag SHF_EXECINSTR. */
  datatype Part = Part(offset: nat, data: Memory, executable: bool) {
    function End(): nat { offset + |data| }

    function Place(): Section { Section(offset, |data|) }
  }

  /** `Refused` is the sweep that failed; a slice that ends after the output is out of bounds too. */
  datatype Refusal = BufferTooSmall | Refused(sweep: Sweep)

  /** The variables of the loop. */
  datatype Progress = Progress(output: Memory, size: nat, needsPadding: bool)

  function Splice(m: Memory, i: nat, bytes: Memory): (r: Memory)
    requires i + |bytes| <= |m|
    ensures |r| == |m|
  {
    m[..i] + bytes + m[i + |bytes|..]
  }

  /** `append_fn`: a vector grows at its end, whatever the offset; a buffer is overwritten. */
  function Append(growing: bool, output: Memory, offset: nat, data: Memory): Result<Memory, Refusal> {
    if growing then Success(output + data)
    else if offset + |data| <= |output| then Success(Splice(output, offset, data))
    else Failure(BufferTooSmall)
  }

  function Max(a: nat, b: nat): nat { if a < b then b else a }

  /** One turn of the loop. */
  function Add(growing: bool, p: Progress, x: Part): Result<Progress, Refusal> {
    var output :- Append(growing, p.output, x.offset, x.data);
    var size := Max(p.size, x.End());
    if !x.executable then
      Success(Progress(output, size, |x.data| < 2 && p.needsPadding))
    else if x.End() > |output| then
      Failure(Refused(OutOfBounds))
    else
      var text := output[x.offset..x.End()];
      match Finish(text, 0, false)
      case Done(needsPadding) => Success(Progress(Splice(output, x.offset, Output(text, 0)), size, needsPadding))
      case failed => Failure(Refused(failed))
  }

  function AddAll(growing: bool, p: Progress, parts: seq<Part>): Result<Progress, Refusal>
    decreases |parts|
  {
    if parts == [] then
      Success(p)
    else
      var next :- Add(growing, p, parts[0]);
      AddAll(growing, next, parts[1..])
  }

  const PADDING: Memory := [0, 0]

  /** The bytes of the output and the size of the binary in it. */
  function Pad(growing: bool, p: Progress): Result<(Memory, nat), Refusal> {
    if p.needsPadding then
      var output :- Append(growing, p.output, p.size, PADDING);
      Success((output, p.size + 2))
    else
      Success((p.output, p.size))
  }

  function Transpiled(growing: bool, output: Memory, parts: seq<Part>): Result<(Memory, nat), Refusal> {
    var p :- AddAll(growing, Progress(output, 0, false), parts);
    Pad(growing, p)
  }

  // The loop.

  /** `transpile_raw` on a slice of the output. */
  method TranspileSlice(output: Memory, start: nat, end: nat) returns (changed: Memory, sweep: Sweep)
    requires start <= end <= |output|
    ensures sweep == Finish(output[start..end], 0, false)
    ensures changed == Splice(output, start, Output(output[start..end], 0))
  {
    hide Finish, Output;
    var text := output[start..end];
    var slice := new bv8[|text|](i requires 0 <= i < |text| => text[i]);
    assert slice[..] == text;
    sweep := TranspileRaw(slice);
    changed := output[..start] + slice[..] + output[end..];
  }

  method TranspileElf(growing: bool, initial: Memory, parts: seq<Part>) returns (r: Result<(Memory, nat), Refusal>)
    ensures r == Transpiled(growing, initial, parts)
  {
    hide Finish, Output, Splice;
    var output, size: nat, needsPadding := initial, 0, false;
    for k := 0 to |parts|
      invariant AddAll(growing, Progress(output, size, needsPadding), parts[k..])
             == AddAll(growing, Progress(initial, 0, false), parts)
    {
      var x := parts[k];
      assert parts[k..][0] == x && parts[k..][1..] == parts[k + 1..];
      if size < x.End() {
        size := x.End();
      }
      if |x.data| >= 2 {
        needsPadding := false;
      }
      output :- Append(growing, output, x.offset, x.data);
      if x.executable {
        if x.End() > |output| {
          return Failure(Refused(OutOfBounds));
        }
        var sweep;
        output, sweep := TranspileSlice(output, x.offset, x.End());
        match sweep {
          case Done(padding) => needsPadding := padding;
          case failed => return Failure(Refused(failed));
        }
      }
    }
    if needsPadding {
      output :- Append(growing, output, size, PADDING);
      size := size + 2;
    }
    return Success((output, size));
  }
}
