/**
  What the sweep guarantees.  A boundary is an offset that a walk from the start of the buffer visits,
  stepping over one instruction at a time.  When the sweep is done, every boundary holds the conversion of
  the original instruction there, and a walk over the output by Embive opcodes visits the same offsets.
 */
module Boundaries {
  import opened Wrappers
  import opened Words
  import opened Formats
  import opened Embive
  import opened Machines
  import opened MemoryModel
  import opened Converter
  import opened Transpiler
  import opened Shapes
  import Meaning
  import Acceptance
  import Tolerance
  import Halfwords
  import Riscv

  /** A walk over RISC-V code, from `start`, visits `i`: lengths come from the low two bits. */
  predicate Reaches(code: Memory, start: nat, i: nat)
    decreases i - start
  {
    start == i || (start + 2 <= |code| && start < i && Reaches(code, start + Riscv.Length(RawAt(code, start)), i))
  }

  predicate Boundary(code: Memory, i: nat) {
    i <= |code| && Reaches(code, 0, i)
  }

  /** The same over Embive code: lengths come from the opcode. */
  predicate EmbiveReaches(code: Memory, start: nat, i: nat)
    decreases i - start
  {
    start == i
    || (start + 2 <= |code| && start < i && EmbiveReaches(code, start + OpcodeSize(RawAt(code, start)).Bytes(), i))
  }

  /** The instruction at `i` converts, and it does not extend past the end of the buffer. */
  predicate Clean(code: Memory, i: nat)
    requires i + 2 <= |code|
  {
    Convert(RawAt(code, i)).Success? && i + Riscv.Length(RawAt(code, i)) <= |code|
  }

  /** Clean instructions lead from `start` to `i`. */
  predicate CleanPath(code: Memory, start: nat, i: nat)
    decreases i - start
  {
    start == i
    || (start + 2 <= |code| && start < i && Clean(code, start)
        && CleanPath(code, start + Riscv.Length(RawAt(code, start)), i))
  }

  /** What the sweep reports of an instruction that is not clean. */
  function Blame(code: Memory, i: nat): Sweep
    requires i + 2 <= |code| && !Clean(code, i)
  {
    match Convert(RawAt(code, i))
    case Failure(e) => Rejected(e)
    case Success(_) => OutOfBounds
  }

  lemma SizeKept(w: bv32)
    ensures Convert(w).Success? ==> Convert(w).value.size.Bytes() == Riscv.Length(w)
  {
    hide Convert;
    ConvertShaped(w);
  }

  /** One step of the sweep, in terms of boundaries. */
  lemma Unfold(code: Memory, i: nat, p: bool)
    requires i + 2 <= |code|
    ensures Clean(code, i) ==>
              && Convert(RawAt(code, i)).Success?
              && var next := i + Riscv.Length(RawAt(code, i));
                 && Finish(code, i, p) == Finish(code, next, p || i + 4 > |code|)
                 && Output(code, i) == Encoded(Convert(RawAt(code, i)).value) + Output(code, next)
    ensures !Clean(code, i) ==> Finish(code, i, p) == Blame(code, i) && Output(code, i) == code[i..]
  {
    hide Convert, RawAt, Encoded;
    SizeKept(RawAt(code, i));
  }

  // Success and failure.

  lemma ReachesTrans(code: Memory, start: nat, i: nat, j: nat)
    requires Reaches(code, start, i) && Reaches(code, i, j)
    ensures Reaches(code, start, j)
    decreases i - start
  {
    hide RawAt;
    if start != i {
      ReachesTrans(code, start + Riscv.Length(RawAt(code, start)), i, j);
    }
  }

  /** Whether the sweep finishes does not depend on the padding flag so far. */
  lemma FlagIrrelevant(code: Memory, i: nat, p: bool, q: bool)
    requires i <= |code|
    ensures Finish(code, i, p).Done? <==> Finish(code, i, q).Done?
    decreases |code| - i
  {
    hide Convert, RawAt, Clean;
    if i + 2 <= |code| {
      Unfold(code, i, p);
      Unfold(code, i, q);
      if Clean(code, i) {
        CleanFits(code, i);
        FlagIrrelevant(code, i + Riscv.Length(RawAt(code, i)), p || i + 4 > |code|, q || i + 4 > |code|);
      }
    }
  }

  lemma CleanFits(code: Memory, i: nat)
    requires i + 2 <= |code| && Clean(code, i)
    ensures Convert(RawAt(code, i)).Success?
    ensures i < i + Riscv.Length(RawAt(code, i)) <= |code|
  {
    hide Convert, RawAt;
  }

  /** The sweep succeeds from `i` on. */
  predicate Succeeds(code: Memory, i: nat)
    requires i <= |code|
  {
    Finish(code, i, false).Done?
  }

  /** A sweep that succeeds steps over a clean instruction, and what is left succeeds too. */
  lemma SucceedsStep(code: Memory, i: nat)
    requires i + 2 <= |code|
    ensures Succeeds(code, i) <==> Clean(code, i) && Succeeds(code, i + Riscv.Length(RawAt(code, i)))
  {
    hide Convert, RawAt, Clean, Finish;
    Unfold(code, i, false);
    if Clean(code, i) {
      CleanFits(code, i);
      FlagIrrelevant(code, i + Riscv.Length(RawAt(code, i)), i + 4 > |code|, false);
    }
  }

  /** After a successful sweep from `start`, every boundary that it walked over is clean and starts one too. */
  lemma {:induction false} SucceedsAt(code: Memory, start: nat, i: nat)
    requires start <= |code| && Succeeds(code, start) && Reaches(code, start, i) && i <= |code|
    ensures Succeeds(code, i) && (i + 2 <= |code| ==> Clean(code, i))
    decreases i - start
  {
    hide Convert, RawAt, Clean, Succeeds;
    if start != i {
      SucceedsStep(code, start);
      SucceedsAt(code, start + Riscv.Length(RawAt(code, start)), i);
    } else if i + 2 <= |code| {
      SucceedsStep(code, i);
    }
  }

  /** A sweep that does not succeed stops at an instruction that is not clean, with only clean ones before it. */
  lemma {:induction false} StopsFrom(code: Memory, start: nat, p: bool) returns (i: nat)
    requires start <= |code| && !Finish(code, start, p).Done?
    ensures CleanPath(code, start, i) && i + 2 <= |code| && !Clean(code, i) && Finish(code, start, p) == Blame(code, i)
    decreases |code| - start
  {
    hide Convert, RawAt, Clean, Blame;
    Unfold(code, start, p);
    if Clean(code, start) {
      CleanFits(code, start);
      i := StopsFrom(code, start + Riscv.Length(RawAt(code, start)), p || start + 4 > |code|);
    } else {
      i := start;
    }
  }

  lemma {:induction false} PathReaches(code: Memory, start: nat, i: nat)
    requires CleanPath(code, start, i)
    ensures Reaches(code, start, i)
    decreases i - start
  {
    hide RawAt, Clean;
    if start != i {
      PathReaches(code, start + Riscv.Length(RawAt(code, start)), i);
    }
  }

  /** The sweep is done exactly when the instruction at every boundary is clean. */
  lemma DoneExactly(code: Memory)
    ensures Finish(code, 0, false).Done? <==> forall i: nat | Boundary(code, i) && i + 2 <= |code| :: Clean(code, i)
  {
    hide Finish, Clean;
    if Finish(code, 0, false).Done? {
      forall i: nat | Boundary(code, i) && i + 2 <= |code| ensures Clean(code, i) {
        SucceedsAt(code, 0, i);
      }
    } else {
      var i := StopsFrom(code, 0, false);
      PathReaches(code, 0, i);
      assert Boundary(code, i);
    }
  }

  lemma {:induction false} ReportsFrom(code: Memory, start: nat, i: nat, p: bool)
    requires CleanPath(code, start, i) && i + 2 <= |code| && !Clean(code, i)
    ensures start <= i && Finish(code, start, p) == Blame(code, i)
    ensures Output(code, start)[i - start..] == code[i..]
    decreases i - start
  {
    hide Convert, RawAt, Clean, Encoded, Blame, Output;
    Unfold(code, start, p);
    if start != i {
      SizeKept(RawAt(code, start));
      var next := start + Riscv.Length(RawAt(code, start));
      ReportsFrom(code, next, i, p || start + 4 > |code|);
      assert Output(code, start)[i - start..] == Output(code, next)[i - next..];
    }
  }

  /**
    The sweep fails exactly when clean instructions lead to one that is not clean: it then reports that
    first offender, and the bytes from there on are as they were.
   */
  lemma ReportsFirst(code: Memory)
    ensures !Finish(code, 0, false).Done?
       <==> exists i: nat :: CleanPath(code, 0, i) && i + 2 <= |code| && !Clean(code, i)
    ensures forall i: nat | CleanPath(code, 0, i) && i + 2 <= |code| && !Clean(code, i) ::
              Finish(code, 0, false) == Blame(code, i) && Output(code, 0)[i..] == code[i..]
  {
    hide Finish, Clean, Blame, Output;
    forall i: nat | CleanPath(code, 0, i) && i + 2 <= |code| && !Clean(code, i)
      ensures Finish(code, 0, false) == Blame(code, i) && !Finish(code, 0, false).Done?
      ensures Output(code, 0)[i..] == code[i..]
    {
      ReportsFrom(code, 0, i, false);
      BlameFails(code, i);
    }
    if !Finish(code, 0, false).Done? {
      var i := StopsFrom(code, 0, false);
    }
  }

  /** The report names the refused word, or its low half; a defined or tolerated word is out of bounds. */
  lemma BlameNames(code: Memory, i: nat)
    requires i + 2 <= |code| && !Clean(code, i)
    ensures var w := RawAt(code, i);
            Blame(code, i) == if Riscv.Decode(w).Some? || Acceptance.Tolerated(w) then OutOfBounds
                              else Rejected(Converter.Error.InvalidInstruction(Tolerance.Reported(w)))
  {
    hide RawAt, Convert, Riscv.Decode, Acceptance.Tolerated, Tolerance.Reported, Clean;
    Tolerance.RefusedExactly(RawAt(code, i));
  }

  lemma BlameFails(code: Memory, i: nat)
    requires i + 2 <= |code| && !Clean(code, i)
    ensures !Blame(code, i).Done?
  {
    hide Convert;
  }

  // The output.

  /** The output from a boundary on is what a sweep that starts there gives. */
  lemma {:induction false} OutputSuffix(code: Memory, start: nat, i: nat)
    requires start <= |code| && Succeeds(code, start) && Reaches(code, start, i) && i <= |code|
    ensures start <= i && Output(code, start)[i - start..] == Output(code, i)
    decreases i - start
  {
    hide Convert, RawAt, Clean, Encoded, Output, Succeeds;
    if start != i {
      SucceedsStep(code, start);
      Unfold(code, start, false);
      SizeKept(RawAt(code, start));
      var next := start + Riscv.Length(RawAt(code, start));
      OutputSuffix(code, next, i);
      assert Output(code, start)[i - start..] == Output(code, next)[i - next..];
    }
  }

  /**
    When the sweep is done, the length is unchanged, every boundary holds the conversion of the original
    instruction there, and a byte left over at the end is unchanged.
   */
  lemma ConvertedInPlace(code: Memory, i: nat)
    requires Finish(code, 0, false).Done? && Boundary(code, i)
    ensures |Output(code, 0)| == |code|
    ensures i + 2 > |code| ==> Output(code, 0)[i..] == code[i..]
    ensures i + 2 <= |code| ==>
              && Convert(RawAt(code, i)).Success?
              && i + Riscv.Length(RawAt(code, i)) <= |code|
              && Output(code, 0)[i..i + Riscv.Length(RawAt(code, i))] == Encoded(Convert(RawAt(code, i)).value)
  {
    hide Convert, RawAt, Encoded, Finish, Output;
    OutputSuffix(code, 0, i);
    SucceedsAt(code, 0, i);
    if i + 2 <= |code| {
      Unfold(code, i, false);
      SizeKept(RawAt(code, i));
      var n := Riscv.Length(RawAt(code, i));
      assert Output(code, 0)[i..i + n] == Output(code, 0)[i..][..n];
    } else {
      OutputEnd(code, i);
    }
  }

  lemma {:induction false} OutputAlongPath(code: Memory, start: nat, i: nat)
    requires start <= |code| && CleanPath(code, start, i)
    ensures start <= i <= |code| && Output(code, start)[i - start..] == Output(code, i)
    decreases i - start
  {
    hide Convert, RawAt, Clean, Encoded, Output;
    if start != i {
      CleanFits(code, start);
      Unfold(code, start, false);
      SizeKept(RawAt(code, start));
      var next := start + Riscv.Length(RawAt(code, start));
      OutputAlongPath(code, next, i);
      assert Output(code, start)[i - start..] == Output(code, next)[i - next..];
    }
  }

  /** Whether or not the sweep is done in the end, clean instructions up to the first offender are converted. */
  lemma ConvertedBefore(code: Memory, i: nat)
    requires CleanPath(code, 0, i) && i + 2 <= |code| && Clean(code, i)
    ensures Convert(RawAt(code, i)).Success? && i + Riscv.Length(RawAt(code, i)) <= |code|
    ensures Output(code, 0)[i..i + Riscv.Length(RawAt(code, i))] == Encoded(Convert(RawAt(code, i)).value)
  {
    hide Convert, RawAt, Encoded, Output;
    OutputAlongPath(code, 0, i);
    CleanFits(code, i);
    Unfold(code, i, false);
    SizeKept(RawAt(code, i));
    var n := Riscv.Length(RawAt(code, i));
    assert Output(code, 0)[i..i + n] == Output(code, 0)[i..][..n];
  }

  lemma OutputEnd(code: Memory, i: nat)
    requires i <= |code| < i + 2
    ensures Output(code, i) == code[i..]
  {
  }

  // Walking over the output.

  lemma WordBytes(w: bv32, b: Memory)
    requires b == ToBytes4(w)
    ensures FromBytes4(b[0], b[1], b[2], b[3]) == w
  {
  }

  lemma HalfBytes(w: bv32, b0: bv8, b1: bv8)
    requires Low16(w) == w
    requires b0 == (w & 0xFF) as bv8 && b1 == ((w >> 8) & 0xFF) as bv8
    ensures FromBytes2(b0, b1) == w
  {
    assert b0 as bv32 == w & 0xFF;
    assert b1 as bv32 == (w >> 8) & 0xFF;
  }

  lemma LowHalf2(b0: bv8, b1: bv8)
    ensures Low16(FromBytes2(b0, b1)) == FromBytes2(b0, b1)
  {
  }

  lemma LowHalf4(b0: bv8, b1: bv8, b2: bv8, b3: bv8)
    ensures Low16(FromBytes4(b0, b1, b2, b3)) == FromBytes2(b0, b1)
  {
    LowHalfBits(b0 as bv32, b1 as bv32, b2 as bv32, b3 as bv32);
  }

  lemma LowHalfBits(w0: bv32, w1: bv32, w2: bv32, w3: bv32)
    requires w0 < 0x100 && w1 < 0x100
    ensures (w0 | (w1 << 8) | (w2 << 16) | (w3 << 24)) & 0xFFFF == w0 | (w1 << 8)
  {
  }

  lemma FirstBytes(raw: RawInstruction, out: Memory, i: nat)
    requires i + raw.size.Bytes() <= |out| && out[i..i + raw.size.Bytes()] == Encoded(raw)
    ensures out[i] == ToBytes4(raw.data)[0] && out[i + 1] == ToBytes4(raw.data)[1]
    ensures raw.size.WordSize? ==> out[i + 2] == ToBytes4(raw.data)[2] && out[i + 3] == ToBytes4(raw.data)[3]
  {
    hide ToBytes4;
    var n := raw.size.Bytes();
    assert forall k | 0 <= k < n :: out[i + k] == out[i..i + n][k] == ToBytes4(raw.data)[k];
  }

  lemma HalfByteValues(w: bv32)
    ensures ToBytes4(w)[0] == (w & 0xFF) as bv8 && ToBytes4(w)[1] == ((w >> 8) & 0xFF) as bv8
  {
  }

  /** The bytes of a converted instruction, followed by anything, are read back as that instruction. */
  lemma ReadBack(raw: RawInstruction, out: Memory, i: nat)
    requires i + raw.size.Bytes() <= |out| && out[i..i + raw.size.Bytes()] == Encoded(raw)
    requires raw.size.HalfSize? ==> Low16(raw.data) == raw.data
    ensures raw.size.WordSize? ==> RawAt(out, i) == raw.data
    ensures raw.size.HalfSize? ==> Low16(RawAt(out, i)) == raw.data
  {
    hide FromBytes2, FromBytes4, ToBytes4, Encoded, Low16;
    FirstBytes(raw, out, i);
    if raw.size.WordSize? {
      WordBytes(raw.data, ToBytes4(raw.data));
    } else {
      HalfByteValues(raw.data);
      HalfBytes(raw.data, out[i], out[i + 1]);
      if i + 4 > |out| {
        LowHalf2(out[i], out[i + 1]);
      } else {
        LowHalf4(out[i], out[i + 1], out[i + 2], out[i + 3]);
      }
    }
  }

  lemma OpcodeLow(w: bv32)
    ensures OpcodeSize(w) == OpcodeSize(Low16(w))
  {
  }

  /** At a boundary of the input, the output's opcode announces the length that the input's low bits did. */
  lemma SameLength(code: Memory, i: nat)
    requires Finish(code, 0, false).Done? && Boundary(code, i) && i + 2 <= |code|
    ensures OpcodeSize(RawAt(Output(code, 0), i)).Bytes() == Riscv.Length(RawAt(code, i))
  {
    hide Convert, RawAt, Encoded, Finish, Output, OpcodeSize, Low16, WellShaped;
    ConvertedInPlace(code, i);
    ConvertShaped(RawAt(code, i));
    ShapedData(Convert(RawAt(code, i)), Meaning.SizeOf(RawAt(code, i)));
    SizeKept(RawAt(code, i));
    var raw := Convert(RawAt(code, i)).value;
    ReadBack(raw, Output(code, 0), i);
    OpcodeLow(RawAt(Output(code, 0), i));
  }

  lemma {:induction false} SameWalk(code: Memory, start: nat, i: nat)
    requires Finish(code, 0, false).Done? && Boundary(code, start) && i <= |code|
    ensures Reaches(code, start, i) <==> EmbiveReaches(Output(code, 0), start, i)
    decreases i - start
  {
    hide RawAt, Finish, Output, OpcodeSize;
    if start < i && start + 2 <= |code| {
      SameLength(code, start);
      SucceedsAt(code, 0, start);
      CleanFits(code, start);
      var next := start + Riscv.Length(RawAt(code, start));
      assert Reaches(code, start, next);
      ReachesTrans(code, 0, start, next);
      SameWalk(code, next, i);
    }
  }

  /**
    Walking the original by RISC-V lengths and the output by Embive opcodes visits the same offsets, so
    relative jumps and return addresses need no relocation.
   */
  lemma SameBoundaries(code: Memory, i: nat)
    requires Finish(code, 0, false).Done? && i <= |code|
    ensures Boundary(code, i) <==> EmbiveReaches(Output(code, 0), 0, i)
  {
    hide RawAt, Finish, Output, OpcodeSize;
    SameWalk(code, 0, i);
  }

  // Padding.

  lemma ReachesForward(code: Memory, start: nat, i: nat)
    requires Reaches(code, start, i)
    ensures start <= i
  {
  }

  lemma ReachesNext(code: Memory, start: nat, i: nat)
    requires start + 2 <= |code|
    ensures Reaches(code, start, i) <==> start == i || Reaches(code, start + Riscv.Length(RawAt(code, start)), i)
  {
    hide RawAt;
  }

  /** Where the last instruction starts, if a fetch of four bytes from there would pass the end. */
  lemma {:induction false} PaddingFrom(code: Memory, start: nat, p: bool)
    requires start <= |code| && Finish(code, start, p).Done? && !p
    ensures Finish(code, start, p).needsPadding ==>
              exists i: nat :: Reaches(code, start, i) && i + 2 <= |code| < i + 4
    decreases |code| - start
  {
    hide Convert, RawAt, Clean;
    if start + 2 <= |code| {
      Unfold(code, start, p);
      CleanFits(code, start);
      if start + 4 > |code| {
        assert Reaches(code, start, start);
      } else {
        var next := start + Riscv.Length(RawAt(code, start));
        PaddingFrom(code, next, p);
        if Finish(code, next, p).needsPadding {
          var i: nat :| Reaches(code, next, i) && i + 2 <= |code| < i + 4;
          ReachesNext(code, start, i);
          assert Reaches(code, start, i);
        }
      }
    }
  }

  lemma {:induction false} PaddingAt(code: Memory, start: nat, i: nat, p: bool)
    requires start <= |code| && Finish(code, start, p).Done? && Reaches(code, start, i)
    requires p || i + 2 <= |code| < i + 4
    ensures Finish(code, start, p).needsPadding
    decreases |code| - start
  {
    hide Convert, RawAt, Clean;
    if start + 2 <= |code| {
      Unfold(code, start, p);
      CleanFits(code, start);
      var next := start + Riscv.Length(RawAt(code, start));
      if start == i {
        PaddingAt(code, next, next, true);
      } else {
        PaddingAt(code, next, i, p || start + 4 > |code|);
      }
    } else {
      ReachesForward(code, start, i);
    }
  }

  /** Padding is asked for exactly when some fetch of four bytes at a boundary would pass the end. */
  lemma PaddingExactly(code: Memory)
    requires Finish(code, 0, false).Done?
    ensures Finish(code, 0, false).needsPadding <==> exists i: nat :: Boundary(code, i) && i + 2 <= |code| < i + 4
  {
    hide Finish, RawAt;
    if Finish(code, 0, false).needsPadding {
      PaddingFrom(code, 0, false);
      var i: nat :| Reaches(code, 0, i) && i + 2 <= |code| < i + 4;
      assert Boundary(code, i);
    } else {
      forall i: nat | Boundary(code, i) ensures !(i + 2 <= |code| < i + 4) {
        if i + 2 <= |code| < i + 4 {
          PaddingAt(code, 0, i, false);
        }
      }
    }
  }

  lemma {:induction false} EvenBoundary(code: Memory, start: nat, i: nat)
    requires Reaches(code, start, i)
    ensures (i - start) % 2 == 0
    decreases i - start
  {
    hide RawAt;
    if start != i {
      EvenBoundary(code, start + Riscv.Length(RawAt(code, start)), i);
    }
  }

  /** Padding where it is asked for, of two bytes or of one after an odd length, brings each such fetch into range. */
  lemma PaddingSuffices(code: Memory, i: nat)
    requires Finish(code, 0, false).Done? && Boundary(code, i) && i + 2 <= |code|
    ensures i + 4 <= |code| + (if Finish(code, 0, false).needsPadding then 2 - |code| % 2 else 0)
  {
    hide Finish, RawAt;
    PaddingExactly(code);
    EvenBoundary(code, 0, i);
  }

  /** LUI with only its low half in the buffer: the write back runs past the end. */
  lemma TruncatedInstruction()
    ensures Finish([0x37, 0x00], 0, false) == OutOfBounds
  {
    var code: Memory := [0x37, 0x00];
    assert RawAt(code, 0) == 0x37;
    assert Convert(0x37) == Full(TypeU.FromRiscv(0x37).ToEmbive(), LUI);
  }
}
