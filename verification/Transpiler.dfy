/**
  The in-place sweep over a code buffer (src/transpiler.rs).

  `Output` and `Finish` say, from the bytes before the sweep only, what the buffer holds afterwards and
  what is returned; the method overwrites the buffer while it reads it and is proved to compute both.
 */
module Transpiler {
  import opened Wrappers
  import opened Words
  import opened Formats
  import opened Machines
  import opened MemoryModel
  import opened Converter

  /** `OutOfBounds` is the panic of a slice expression whose range ends after the buffer. */
  datatype Sweep = Done(needsPadding: bool) | Rejected(error: Converter.Error) | OutOfBounds

  /** The word read at `i`: four bytes, or the last two or three bytes' first two. */
  function RawAt(code: Memory, i: nat): bv32
    requires i + 2 <= |code|
  {
    if i + 4 > |code| then
      FromBytes2(code[i], code[i + 1])
    else
      FromBytes4(code[i], code[i + 1], code[i + 2], code[i + 3])
  }

  /** The bytes of a converted instruction. */
  function Encoded(raw: RawInstruction): (bytes: Memory)
    ensures |bytes| == raw.size.Bytes()
  {
    ToBytes4(raw.data)[..raw.size.Bytes()]
  }

  /** The buffer from `i` on after the sweep. */
  function Output(code: Memory, i: nat): (out: Memory)
    requires i <= |code|
    ensures |out| == |code| - i
    decreases |code| - i
  {
    if i + 2 > |code| then
      code[i..]
    else
      match Convert(RawAt(code, i))
      case Failure(_) => code[i..]
      case Success(raw) =>
        if i + raw.size.Bytes() > |code| then code[i..] else Encoded(raw) + Output(code, i + raw.size.Bytes())
  }

  /** The result of a sweep that has reached `i`. */
  function Finish(code: Memory, i: nat, needsPadding: bool): Sweep
    requires i <= |code|
    decreases |code| - i
  {
    if i + 2 > |code| then
      Done(needsPadding)
    else
      match Convert(RawAt(code, i))
      case Failure(e) => Rejected(e)
      case Success(raw) =>
        if i + raw.size.Bytes() > |code| then
          OutOfBounds
        else
          Finish(code, i + raw.size.Bytes(), needsPadding || i + 4 > |code|)
  }

  /** `copy_from_slice` into `code[i..i + |bytes|]`. */
  method CopyInto(code: array<bv8>, i: nat, bytes: Memory)
    requires i + |bytes| <= code.Length
    modifies code
    ensures code[..] == old(code[..i]) + bytes + old(code[i + |bytes|..])
  {
    for k := 0 to |bytes|
      invariant forall j | 0 <= j < code.Length :: code[j] == if i <= j < i + k then bytes[j - i] else old(code[j])
    {
      code[i + k] := bytes[k];
    }
  }

  /** `from_le_bytes` on four bytes, or on the last two. */
  method ReadRaw(code: array<bv8>, i: nat) returns (raw: bv32, needsPadding: bool)
    requires i + 2 <= code.Length
    ensures raw == RawAt(code[..], i) && needsPadding == (i + 4 > code.Length)
  {
    if i + 4 > code.Length {
      needsPadding := true;
      raw := FromBytes2(code[i], code[i + 1]);
    } else {
      needsPadding := false;
      raw := FromBytes4(code[i], code[i + 1], code[i + 2], code[i + 3]);
    }
  }

  method TranspileRaw(code: array<bv8>) returns (result: Sweep)
    modifies code
    ensures code[..] == Output(old(code[..]), 0)
    ensures result == Finish(old(code[..]), 0, false)
  {
    hide Convert, RawAt, Encoded;
    ghost var was := code[..];
    var codeSize := code.Length;
    var needsPadding := false;
    var i := 0;
    while i + 2 <= codeSize
      invariant 0 <= i <= codeSize
      invariant code[i..] == was[i..]
      invariant code[..i] + Output(was, i) == Output(was, 0)
      invariant Finish(was, i, needsPadding) == Finish(was, 0, false)
    {
      ghost var before := code[..];
      var raw, short := ReadRaw(code, i);
      NotYetRead(was, before, i);
      needsPadding := needsPadding || short;
      match Convert(raw) {
        case Failure(e) =>
          Stopped(was, before, i);
          return Rejected(e);
        case Success(instruction) =>
          var size := instruction.size.Bytes();
          if i + size > codeSize {
            Stopped(was, before, i);
            return OutOfBounds;
          }
          CopyInto(code, i, Encoded(instruction));
          Swept(was, before, code[..], i, Encoded(instruction), i + size);
          i := i + size;
      }
    }
    Stopped(was, code[..], i);
    return Done(needsPadding);
  }

  /** The sweep reads only what it has not yet written. */
  lemma NotYetRead(was: Memory, before: Memory, i: nat)
    requires |was| == |before| && i + 2 <= |was| && before[i..] == was[i..]
    ensures RawAt(before, i) == RawAt(was, i)
  {
    assert forall k | i <= k < |was| :: before[k] == before[i..][k - i] == was[i..][k - i] == was[k];
  }

  lemma Stopped(was: Memory, before: Memory, i: nat)
    requires |was| == |before| && i <= |was| && before[i..] == was[i..]
    requires before[..i] + Output(was, i) == Output(was, 0) && Output(was, i) == was[i..]
    ensures before == Output(was, 0)
  {
    hide Output;
    assert before == before[..i] + before[i..];
  }

  /** The step of the sweep: what has been written grows by one instruction. */
  lemma Swept(was: Memory, before: Memory, after: Memory, i: nat, bytes: Memory, next: nat)
    requires |was| == |before| && next == i + |bytes| <= |before|
    requires after == before[..i] + bytes + before[next..]
    requires before[i..] == was[i..]
    requires Output(was, i) == bytes + Output(was, next)
    requires before[..i] + Output(was, i) == Output(was, 0)
    ensures after[next..] == was[next..]
    ensures after[..next] + Output(was, next) == Output(was, 0)
  {
    hide Output;
    assert before[next..] == before[i..][|bytes|..];
    assert was[next..] == was[i..][|bytes|..];
    assert after[next..] == before[next..];
    assert after[..next] == before[..i] + bytes;
    assert (before[..i] + bytes) + Output(was, next) == before[..i] + (bytes + Output(was, next));
  }
}
