/**
  What the loop over the sections leaves in the output: when it succeeds, when the result is an image that
  the simulation covers, and when a growing vector holds what a buffer would.
 */
module Images {
  import opened Wrappers
  import opened Words
  import opened Machines
  import opened Transpiler
  import opened Programs
  import opened Boundaries
  import opened Sections
  import opened Converter
  import opened Embive
  import opened Formats
  import opened MemoryModel
  import Equivalence
  import Executions

  const ZEROS: Memory := [0, 0]

  /** Transpiling these bytes asks for padding. */
  predicate Needs(text: Memory) {
    Finish(text, 0, false).Done? && Finish(text, 0, false).needsPadding
  }

  /** A section after which the flag for padding is what it was before. */
  predicate Quiet(x: Part) { !x.executable && |x.data| < 2 }

  predicate AllQuiet(parts: seq<Part>) {
    forall x | x in parts :: Quiet(x)
  }

  /** The last section that is not quiet asks for padding. */
  predicate AsksLast(parts: seq<Part>) {
    exists k | 0 <= k < |parts| :: parts[k].executable && Needs(parts[k].data) && AllQuiet(parts[k + 1..])
  }

  function MaxEnd(parts: seq<Part>): nat
    decreases |parts|
  {
    if parts == [] then 0 else Max(parts[0].End(), MaxEnd(parts[1..]))
  }

  /** The size of the binary. */
  function Size(parts: seq<Part>): nat {
    MaxEnd(parts) + if AsksLast(parts) then 2 else 0
  }

  predicate Fit(m: Memory, parts: seq<Part>) {
    forall x | x in parts :: x.End() <= |m|
  }

  predicate AllTranspile(parts: seq<Part>) {
    forall x | x in parts && x.executable :: Finish(x.data, 0, false).Done?
  }

  predicate Apart(parts: seq<Part>) {
    forall i, j | 0 <= i < j < |parts| :: Disjoint(parts[i].Place(), parts[j].Place())
  }

  function TextOf(x: Part): seq<Section> { if x.executable then [x.Place()] else [] }

  /** The executable sections. */
  function Texts(parts: seq<Part>): seq<Section>
    decreases |parts|
  {
    if parts == [] then [] else TextOf(parts[0]) + Texts(parts[1..])
  }

  /** The image that is not transpiled. */
  function Linked(m: Memory, parts: seq<Part>): (image: Memory)
    requires Fit(m, parts)
    ensures |image| == |m|
    decreases |parts|
  {
    if parts == [] then m
    else assert parts[0] in parts; Linked(Splice(m, parts[0].offset, parts[0].data), parts[1..])
  }

  // Copies.

  lemma Spliced(m: Memory, i: nat, bytes: Memory)
    requires i + |bytes| <= |m|
    ensures Splice(m, i, bytes)[i..i + |bytes|] == bytes
    ensures forall k | 0 <= k < |m| && !(i <= k < i + |bytes|) :: Splice(m, i, bytes)[k] == m[k]
  {
  }

  lemma SplicedEnd(m: Memory, i: nat, bytes: Memory)
    requires i + |bytes| <= |m|
    ensures Splice(m, i, bytes)[..i + |bytes|] == m[..i] + bytes
  {
  }

  lemma SplicedTail(m: Memory, first: Memory, second: Memory)
    requires |first| == |second|
    ensures Splice(m + first, |m|, second) == m + second
  {
  }

  lemma SplicedTwice(m: Memory, i: nat, first: Memory, second: Memory)
    requires i + |first| <= |m| && |first| == |second|
    ensures Splice(Splice(m, i, first), i, second) == Splice(m, i, second)
  {
  }

  // One section.

  /** What a buffer holds after one section. */
  function Written(m: Memory, x: Part): Memory
    requires x.End() <= |m|
  {
    Splice(m, x.offset, if x.executable then Output(x.data, 0) else x.data)
  }

  lemma AddIs(p: Progress, x: Part)
    ensures Add(false, p, x).Success?
       <==> x.End() <= |p.output| && (x.executable ==> Finish(x.data, 0, false).Done?)
    ensures Add(false, p, x).Success? ==>
              Add(false, p, x).value == Progress(Written(p.output, x), Max(p.size, x.End()),
                                                 if x.executable then Needs(x.data) else Quiet(x) && p.needsPadding)
  {
    hide Finish, Output, Splice;
    if x.End() <= |p.output| {
      Spliced(p.output, x.offset, x.data);
      if x.executable {
        SplicedTwice(p.output, x.offset, x.data, Output(x.data, 0));
      }
    }
  }

  /** One more section, in the original image and in the other. */
  function AddPart(p: Program, x: Part): Program
    requires x.End() <= |p.original| == |p.transpiled|
  {
    Program(Splice(p.original, x.offset, x.data), Written(p.transpiled, x),
            p.sections + TextOf(x))
  }

  lemma SplicedApart(m: Memory, i: nat, bytes: Memory, s: Section)
    requires i + |bytes| <= |m| && s.End() <= |m| && Disjoint(s, Section(i, |bytes|))
    ensures Splice(m, i, bytes)[s.start..s.End()] == m[s.start..s.End()]
  {
    hide Splice;
    Spliced(m, i, bytes);
  }

  lemma KeepsSection(p: Program, x: Part, s: Section)
    requires x.End() <= |p.original| == |p.transpiled| && p.Converted(s) && Disjoint(s, x.Place())
    ensures AddPart(p, x).Converted(s)
  {
    hide Finish, Output, Splice, Disjoint;
    SplicedApart(p.original, x.offset, x.data, s);
    SplicedApart(p.transpiled, x.offset, if x.executable then Output(x.data, 0) else x.data, s);
  }

  lemma ConvertsSection(p: Program, x: Part)
    requires x.End() <= |p.original| == |p.transpiled| && x.executable && Finish(x.data, 0, false).Done?
    ensures AddPart(p, x).Converted(x.Place()) && AddPart(p, x).Text(x.Place()) == x.data
  {
    hide Finish, Output, Splice;
    Spliced(p.original, x.offset, x.data);
    Spliced(p.transpiled, x.offset, Output(x.data, 0));
  }

  lemma AddPartTranslated(p: Program, x: Part)
    requires p.Translated() && x.End() <= |p.original|
    requires forall s | s in p.sections :: Disjoint(s, x.Place())
    requires x.executable ==> Finish(x.data, 0, false).Done?
    ensures AddPart(p, x).Translated()
  {
    hide Finish, Output, Splice, Program.Converted;
    var q := AddPart(p, x);
    forall s | s in q.sections ensures q.Converted(s) {
      if s in p.sections {
        KeepsSection(p, x, s);
      } else {
        ConvertsSection(p, x);
      }
    }
    forall a | 0 <= a < |q.original| && !q.InText(a) ensures q.transpiled[a] == q.original[a] {
      OutsideText(p, x, a);
    }
  }

  lemma OutsideText(p: Program, x: Part, a: nat)
    requires p.Translated() && x.End() <= |p.original| && a < |p.original| && !AddPart(p, x).InText(a)
    ensures AddPart(p, x).transpiled[a] == AddPart(p, x).original[a]
  {
    hide Finish, Output, Program.Converted;
    var q := AddPart(p, x);
    assert forall s | s in p.sections :: s in q.sections;
    if x.executable {
      assert x.Place() in q.sections;
      assert !x.Place().Covers(a);
    }
    assert !p.InText(a);
  }

  // All sections.

  lemma AsksFirst(x: Part, rest: seq<Part>)
    ensures AsksLast([x] + rest) <==> AsksLast(rest) || (x.executable && Needs(x.data) && AllQuiet(rest))
    ensures AllQuiet([x] + rest) <==> Quiet(x) && AllQuiet(rest)
  {
    hide Needs;
    var parts := [x] + rest;
    assert forall k | 0 <= k < |rest| :: parts[k + 1] == rest[k] && parts[k + 2..] == rest[k + 1..];
    assert parts[0] == x && parts[1..] == rest;
    if AsksLast(rest) {
      var k :| 0 <= k < |rest| && rest[k].executable && Needs(rest[k].data) && AllQuiet(rest[k + 1..]);
      assert AllQuiet(parts[k + 2..]);
    }
  }

  /** When the sections go through, and the size and the flag that they leave. */
  lemma {:induction false} AddAllIs(p: Progress, parts: seq<Part>)
    ensures AddAll(false, p, parts).Success? <==> Fit(p.output, parts) && AllTranspile(parts)
    ensures AddAll(false, p, parts).Success? ==>
              var q := AddAll(false, p, parts).value;
              && |q.output| == |p.output| && q.size == Max(p.size, MaxEnd(parts))
              && q.needsPadding == (AsksLast(parts) || (p.needsPadding && AllQuiet(parts)))
    decreases |parts|
  {
    hide Add, Finish, Needs, AsksLast, AllQuiet;
    if parts == [] {
      assert !AsksLast(parts) && AllQuiet(parts) by { NothingAsks(); }
    } else {
      var x, rest := parts[0], parts[1..];
      assert parts == [x] + rest;
      AddIs(p, x);
      AsksFirst(x, rest);
      assert Fit(p.output, parts) <==> x.End() <= |p.output| && Fit(p.output, rest);
      assert AllTranspile(parts) <==> (x.executable ==> Finish(x.data, 0, false).Done?) && AllTranspile(rest);
      if Add(false, p, x).Success? {
        AddAllIs(Add(false, p, x).value, rest);
      }
    }
  }

  lemma NothingAsks()
    ensures !AsksLast([]) && AllQuiet([])
  {
  }

  /** The sections lie apart from `s`. */
  predicate Clear(s: Section, parts: seq<Part>) {
    forall x | x in parts :: Disjoint(s, x.Place())
  }

  lemma Rest(m: Memory, parts: seq<Part>)
    requires parts != [] && Fit(m, parts) && AllTranspile(parts) && Apart(parts)
    ensures Fit(m, parts[1..]) && AllTranspile(parts[1..]) && Apart(parts[1..])
    ensures parts[0].End() <= |m| && (parts[0].executable ==> Finish(parts[0].data, 0, false).Done?)
    ensures Clear(parts[0].Place(), parts[1..])
  {
    hide Finish, Disjoint;
    assert parts[0] in parts;
  }

  lemma RestClear(s: Section, parts: seq<Part>)
    requires parts != [] && Clear(s, parts)
    ensures Disjoint(s, parts[0].Place()) && Clear(s, parts[1..])
  {
    hide Disjoint;
    assert parts[0] in parts;
  }

  lemma SameFit(m: Memory, n: Memory, parts: seq<Part>)
    requires Fit(m, parts) && |m| == |n|
    ensures Fit(n, parts)
  {
  }

  /** What all sections make of an image. */
  function AddAllTo(p: Program, q: Progress, parts: seq<Part>): Program
    requires Fit(p.original, parts) && AddAll(false, q, parts).Success?
  {
    Program(Linked(p.original, parts), AddAll(false, q, parts).value.output, p.sections + Texts(parts))
  }

  lemma LinkedFirst(m: Memory, parts: seq<Part>)
    requires parts != [] && Fit(m, parts)
    ensures parts[0].End() <= |m| && Fit(Splice(m, parts[0].offset, parts[0].data), parts[1..])
    ensures Linked(m, parts) == Linked(Splice(m, parts[0].offset, parts[0].data), parts[1..])
  {
    hide Splice, Fit;
    FitFirst(m, parts);
    SameFit(m, Splice(m, parts[0].offset, parts[0].data), parts[1..]);
  }

  lemma Concat<T>(a: seq<T>, b: seq<T>, c: seq<T>)
    ensures (a + b) + c == a + (b + c)
  {
  }

  lemma TextsFirst(sections: seq<Section>, parts: seq<Part>)
    requires parts != []
    ensures (sections + TextOf(parts[0])) + Texts(parts[1..]) == sections + Texts(parts)
  {
    hide TextOf;
    Concat(sections, TextOf(parts[0]), Texts(parts[1..]));
  }

  lemma AddAllFirst(q: Progress, parts: seq<Part>)
    requires parts != [] && AddAll(false, q, parts).Success?
    ensures Add(false, q, parts[0]).Success?
    ensures AddAll(false, q, parts) == AddAll(false, Add(false, q, parts[0]).value, parts[1..])
  {
    hide Add;
  }

  lemma AddFirst(p: Program, q: Progress, parts: seq<Part>)
    requires parts != [] && |p.original| == |p.transpiled| && q.output == p.transpiled
    requires Fit(p.original, parts) && AddAll(false, q, parts).Success?
    ensures parts[0].End() <= |p.original|
    ensures var next := AddPart(p, parts[0]); var done := Add(false, q, parts[0]);
            && done.Success? && done.value.output == next.transpiled
            && Fit(next.original, parts[1..]) && AddAll(false, done.value, parts[1..]).Success?
            && AddAllTo(p, q, parts) == AddAllTo(next, done.value, parts[1..])
  {
    hide Add, AddAll, Finish, Output, Splice, Written, Fit, Needs, Quiet, Linked, TextOf,
      Texts;
    LinkedFirst(p.original, parts);
    TextsFirst(p.sections, parts);
    AddAllFirst(q, parts);
    AddIs(q, parts[0]);
  }

  /** The sections that go through leave an image that is translated. */
  lemma {:induction false} AddAllTranslated(p: Program, q: Progress, parts: seq<Part>)
    requires p.Translated() && q.output == p.transpiled
    requires Fit(p.original, parts) && AllTranspile(parts) && Apart(parts)
    requires forall s | s in p.sections :: Clear(s, parts)
    requires AddAll(false, q, parts).Success?
    ensures AddAllTo(p, q, parts).Translated()
    decreases |parts|
  {
    hide Add, Finish, Splice, Disjoint, Fit, AllTranspile, Apart, Clear, Program.Translated;
    TranslatedLengths(p);
    if parts == [] {
      assert p.sections + [] == p.sections;
    } else {
      hide AddAll, AddAllTo, Written;
      var x, rest := parts[0], parts[1..];
      Rest(p.original, parts);
      AddFirst(p, q, parts);
      forall s | s in p.sections ensures Disjoint(s, x.Place()) && Clear(s, rest) {
        RestClear(s, parts);
      }
      AddPartTranslated(p, x);
      AddAllTranslated(AddPart(p, x), Add(false, q, x).value, rest);
    }
  }

  lemma TranslatedLengths(p: Program)
    requires p.Translated()
    ensures |p.original| == |p.transpiled|
  {
  }

  // The binary.

  lemma {:induction false} MaxEndBounds(parts: seq<Part>, x: Part)
    requires x in parts
    ensures x.End() <= MaxEnd(parts)
    decreases |parts|
  {
    if x != parts[0] {
      MaxEndBounds(parts[1..], x);
    }
  }

  lemma {:induction false} TextsAre(parts: seq<Part>, s: Section)
    ensures s in Texts(parts) <==> exists x | x in parts :: x.executable && x.Place() == s
    decreases |parts|
  {
    if parts != [] {
      TextsAre(parts[1..], s);
      assert parts == [parts[0]] + parts[1..];
    }
  }

  lemma {:induction false} LinkedKeeps(m: Memory, parts: seq<Part>, s: Section)
    requires Fit(m, parts) && Clear(s, parts) && s.End() <= |m|
    ensures Linked(m, parts)[s.start..s.End()] == m[s.start..s.End()]
    decreases |parts|
  {
    hide Splice;
    if parts != [] {
      var x, rest := parts[0], parts[1..];
      RestClear(s, parts);
      assert x in parts;
      var next := Splice(m, x.offset, x.data);
      SplicedApart(m, x.offset, x.data, s);
      LinkedKeeps(next, rest, s);
    }
  }

  /** Each section is where its offset says. */
  lemma {:induction false} LinkedHolds(m: Memory, parts: seq<Part>, x: Part)
    requires Fit(m, parts) && AllTranspile(parts) && Apart(parts) && x in parts
    ensures x.End() <= |m| && Linked(m, parts)[x.offset..x.End()] == x.data
    decreases |parts|
  {
    hide Splice, Finish, Disjoint, Fit, AllTranspile, Apart, Clear;
    Rest(m, parts);
    var first, rest := parts[0], parts[1..];
    var next := Splice(m, first.offset, first.data);
    SameFit(m, next, rest);
    if x == first {
      Spliced(m, first.offset, first.data);
      LinkedKeeps(next, rest, x.Place());
    } else {
      LinkedHolds(next, rest, x);
    }
  }

  /** The first `n` bytes of both images. */
  function Cut(p: Program, n: nat): Program
    requires n <= |p.original| == |p.transpiled|
  {
    Program(p.original[..n], p.transpiled[..n], p.sections)
  }

  lemma CutTranslated(p: Program, n: nat)
    requires p.Translated() && n <= |p.original| && forall s | s in p.sections :: s.End() <= n
    ensures Cut(p, n).Translated()
    ensures forall s | s in p.sections :: Cut(p, n).Text(s) == p.original[s.start..s.End()]
  {
    hide Finish, Output;
    var q := Cut(p, n);
    forall s | s in p.sections
      ensures q.original[s.start..s.End()] == p.original[s.start..s.End()]
      ensures q.transpiled[s.start..s.End()] == p.transpiled[s.start..s.End()]
    {
    }
    assert forall a | 0 <= a < n && !q.InText(a) :: !p.InText(a);
  }

  /** Two bytes of padding after all sections. */
  function Padding(parts: seq<Part>): Part { Part(MaxEnd(parts), ZEROS, false) }

  function PaddedImage(m: Memory, parts: seq<Part>): Memory
    requires Fit(m, parts) && Size(parts) <= |m|
  {
    var image := Linked(m, parts);
    (if AsksLast(parts) then Splice(image, MaxEnd(parts), ZEROS) else image)[..Size(parts)]
  }

  /** The binary before and after it was transpiled. */
  function Image(initial: Memory, parts: seq<Part>, output: Memory): Program
    requires Fit(initial, parts) && Size(parts) <= |initial|
    requires |output| == |initial|
  {
    Program(PaddedImage(initial, parts), output[..Size(parts)], Texts(parts))
  }

  /** `transpile_elf` succeeds if and only if everything fits in the buffer and every executable section converts. */
  lemma ElfSucceeds(initial: Memory, parts: seq<Part>)
    ensures Transpiled(false, initial, parts).Success?
       <==> Fit(initial, parts) && AllTranspile(parts) && (AsksLast(parts) ==> Size(parts) <= |initial|)
    ensures Transpiled(false, initial, parts).Success? ==>
              Transpiled(false, initial, parts).value.1 == Size(parts)
              && |Transpiled(false, initial, parts).value.0| == |initial|
  {
    hide AddAll, AsksLast, AllTranspile, Fit, Splice;
    AddAllIs(Progress(initial, 0, false), parts);
  }

  lemma {:induction false} AddAllPrefix(p: Progress, parts: seq<Part>, k: nat)
    requires k < |parts| && Fit(p.output, parts[..k]) && AllTranspile(parts[..k])
    ensures AddAll(false, p, parts[..k]).Success?
    ensures AddAll(false, p, parts) == AddAll(false, AddAll(false, p, parts[..k]).value, parts[k..])
    decreases k
  {
    hide Add, Finish, Needs;
    AddAllIs(p, parts[..k]);
    if k > 0 {
      var x := parts[0];
      assert parts[..k][0] == x && parts[..k][1..] == parts[1..][..k - 1] && parts[1..][k - 1..] == parts[k..];
      FitFirst(p.output, parts[..k]);
      assert x in parts[..k];
      AddIs(p, x);
      var next := Add(false, p, x).value;
      SameFit(p.output, next.output, parts[1..][..k - 1]);
      AddAllPrefix(next, parts[1..], k - 1);
    }
  }

  lemma AddFails(p: Progress, x: Part)
    ensures x.End() > |p.output| ==> Add(false, p, x) == Failure(BufferTooSmall)
    ensures x.End() <= |p.output| && x.executable && !Finish(x.data, 0, false).Done? ==>
              Add(false, p, x) == Failure(Refused(Finish(x.data, 0, false)))
  {
    hide Finish, Output, Splice;
    if x.End() <= |p.output| {
      Spliced(p.output, x.offset, x.data);
    }
  }

  /** A failure is that of the first section that does not go through, or of padding that does not fit. */
  lemma ElfReportsFirst(initial: Memory, parts: seq<Part>, k: nat)
    requires k <= |parts| && Fit(initial, parts[..k]) && AllTranspile(parts[..k])
    ensures k < |parts| && parts[k].End() > |initial| ==> Transpiled(false, initial, parts) == Failure(BufferTooSmall)
    ensures k < |parts| && parts[k].End() <= |initial| && parts[k].executable
              && !Finish(parts[k].data, 0, false).Done? ==>
              Transpiled(false, initial, parts) == Failure(Refused(Finish(parts[k].data, 0, false)))
    ensures k == |parts| && AsksLast(parts) && Size(parts) > |initial| ==>
              Transpiled(false, initial, parts) == Failure(BufferTooSmall)
  {
    hide Finish, AddAll, Fit, AllTranspile, AsksLast, Add;
    var start := Progress(initial, 0, false);
    if k < |parts| {
      AddAllPrefix(start, parts, k);
      var p := AddAll(false, start, parts[..k]).value;
      AddAllIs(start, parts[..k]);
      AddFails(p, parts[k]);
      if Add(false, p, parts[k]).Failure? {
        AddAllFails(p, parts[k..]);
      }
    } else {
      assert parts[..k] == parts;
      AddAllIs(start, parts);
    }
  }

  lemma AddAllFails(p: Progress, parts: seq<Part>)
    requires parts != [] && Add(false, p, parts[0]).Failure?
    ensures AddAll(false, p, parts) == Failure(Add(false, p, parts[0]).error)
  {
    hide Add;
  }

  lemma SizeFits(m: Memory, parts: seq<Part>)
    requires Fit(m, parts)
    ensures MaxEnd(parts) <= |m|
    decreases |parts|
  {
    if parts != [] {
      assert parts[0] in parts;
      SizeFits(m, parts[1..]);
    }
  }

  lemma PaddedHolds(m: Memory, parts: seq<Part>, x: Part)
    requires Fit(m, parts) && AllTranspile(parts) && Apart(parts) && Size(parts) <= |m| && x in parts
    ensures x.End() <= Size(parts) && PaddedImage(m, parts)[x.offset..x.End()] == x.data
  {
    hide Fit, AllTranspile, Apart, AsksLast, Splice, Linked;
    LinkedHolds(m, parts, x);
    MaxEndBounds(parts, x);
    var image := Linked(m, parts);
    if AsksLast(parts) {
      Spliced(image, MaxEnd(parts), ZEROS);
      assert Splice(image, MaxEnd(parts), ZEROS)[x.offset..x.End()] == image[x.offset..x.End()];
    }
  }

  /** The binary is the image with its executable sections transpiled, whatever the order of the sections. */
  lemma ElfTranslated(initial: Memory, parts: seq<Part>, output: Memory, size: nat)
    requires Apart(parts) && Transpiled(false, initial, parts) == Success((output, size))
    ensures Fit(initial, parts) && size == Size(parts) <= |initial| == |output|
    ensures Image(initial, parts, output).Translated()
    ensures forall x | x in parts && x.executable ::
              x.End() <= size && Image(initial, parts, output).Text(x.Place()) == x.data
  {
    hide Finish, Splice, Disjoint, Fit, AllTranspile, Apart, Clear, Program.Translated, AsksLast;
    ElfSucceeds(initial, parts);
    SizeFits(initial, parts);
    Unlinked(initial);
    var start := Progress(initial, 0, false);
    AddAllIs(start, parts);
    AddAllTranslated(Program(initial, initial, []), start, parts);
    var p := Program(Linked(initial, parts), AddAll(false, start, parts).value.output, Texts(parts));
    assert [] + Texts(parts) == Texts(parts);
    forall s | s in p.sections ensures s.End() <= MaxEnd(parts) && Disjoint(s, Padding(parts).Place()) {
      TextsAre(parts, s);
      var x :| x in parts && x.executable && x.Place() == s;
      MaxEndBounds(parts, x);
      Before(s, Padding(parts).Place());
    }
    var q := p;
    if AsksLast(parts) {
      AddPartTranslated(p, Padding(parts));
      q := AddPart(p, Padding(parts));
      assert q.sections == p.sections;
    }
    CutTranslated(q, size);
    assert Cut(q, size) == Image(initial, parts, output);
    forall x | x in parts
      ensures x.End() <= size && PaddedImage(initial, parts)[x.offset..x.End()] == x.data
    {
      PaddedHolds(initial, parts, x);
    }
  }

  /** The padding is two zero bytes. */
  lemma PaddingIsZero(initial: Memory, parts: seq<Part>, output: Memory, size: nat)
    requires Transpiled(false, initial, parts) == Success((output, size)) && AsksLast(parts)
    ensures 2 <= size <= |output| && output[size - 2] == 0 && output[size - 1] == 0
  {
    hide AsksLast, Splice, AddAll, Finish;
    ElfSucceeds(initial, parts);
    AddAllIs(Progress(initial, 0, false), parts);
    var p := AddAll(false, Progress(initial, 0, false), parts).value;
    Spliced(p.output, p.size, ZEROS);
    assert output[p.size..p.size + 2] == ZEROS;
  }

  lemma Before(s: Section, t: Section)
    requires s.End() <= t.start
    ensures Disjoint(s, t)
  {
  }

  lemma Unlinked(m: Memory)
    ensures Program(m, m, []).Translated()
  {
  }

  // Padding.

  /** There is room behind every executable section that asks for padding. */
  predicate Padded(parts: seq<Part>) {
    forall x | x in parts && x.executable && Needs(x.data) :: x.Place().Room() <= MaxEnd(parts) || AsksLast(parts)
  }

  /**
    The binary is one that the simulation covers exactly when no request for padding was lost: each
    executable section that asks for it has other sections that leave room behind it, or the last section that
    decides on padding asks for it too.
   */
  lemma ElfLoadable(initial: Memory, parts: seq<Part>, output: Memory, size: nat)
    requires Apart(parts) && Transpiled(false, initial, parts) == Success((output, size))
    ensures Fit(initial, parts) && size == Size(parts) <= |initial| == |output|
    ensures Image(initial, parts, output).Loadable() <==> Padded(parts)
  {
    hide Apart, Transpiled, Fit, AsksLast, Finish, Output, PaddedImage, Program.InText;
    ElfTranslated(initial, parts, output, size);
    var p := Image(initial, parts, output);
    forall x | x in parts && x.executable
      ensures p.Holds(x.Place()) <==> (Needs(x.data) ==> x.Place().Room() <= size)
    {
      TextsAre(parts, x.Place());
    }
    forall s | s in p.sections ensures exists x | x in parts :: x.executable && x.Place() == s {
      TextsAre(parts, s);
    }
    forall x | x in parts && x.executable ensures x.Place() in p.sections {
      TextsAre(parts, x.Place());
    }
    forall x | x in parts ensures x.End() <= MaxEnd(parts) {
      MaxEndBounds(parts, x);
    }
  }

  predicate Ascending(parts: seq<Part>) {
    forall i, j | 0 <= i < j < |parts| :: parts[i].End() <= parts[j].offset
  }

  /** Sections by ascending address, and no executable section of one byte or none. */
  predicate Regular(parts: seq<Part>) {
    Ascending(parts) && forall x | x in parts && x.executable :: |x.data| >= 2
  }

  lemma AscendingApart(parts: seq<Part>)
    requires Ascending(parts)
    ensures Apart(parts)
  {
  }

  /** In the usual layout no request for padding is lost. */
  lemma RegularPadded(parts: seq<Part>)
    requires Regular(parts)
    ensures Apart(parts) && Padded(parts)
  {
    hide Needs;
    AscendingApart(parts);
    forall x | x in parts && x.executable && Needs(x.data)
      ensures x.Place().Room() <= MaxEnd(parts) || AsksLast(parts)
    {
      var k :| 0 <= k < |parts| && parts[k] == x;
      if y :| y in parts[k + 1..] && !Quiet(y) {
        assert |y.data| >= 2 && x.End() <= y.offset;
        MaxEndBounds(parts, y);
      }
    }
  }

  /** `transpile_elf` succeeds, and `p` is the binary before and after. */
  predicate Binary(initial: Memory, parts: seq<Part>, p: Program) {
    match Transpiled(false, initial, parts)
    case Success((output, size)) =>
      && Fit(initial, parts) && Size(parts) <= |initial| == |output|
      && p == Image(initial, parts, output)
    case Failure(_) => false
  }

  /**
    From the sections of an ELF file to executions: the interpreter on the binary does what the reference
    machine does on the sections as they were linked.
   */
  lemma ElfExecution(initial: Memory, parts: seq<Part>, p: Program, m: Machine, es: seq<Executions.Event>)
    requires Apart(parts) && Padded(parts) && Binary(initial, parts, p)
    requires Equivalence.Sound(p.transpiled, m) && Executions.AllSupported(p, m, es)
    ensures Executions.InterpretAll(p.transpiled, m, es) == Executions.ReferAll(p.original, m, es)
  {
    hide Apart, Padded, Transpiled, Fit, AsksLast, Image, Program.Loadable, Equivalence.Sound,
      Executions.AllSupported, Executions.InterpretAll, Executions.ReferAll;
    var done := Transpiled(false, initial, parts).value;
    ElfLoadable(initial, parts, done.0, done.1);
    Executions.ExecutionSame(p, m, es);
  }

  lemma FetchPastEnd(code: Memory, ram: Memory, pc: u32)
    requires pc < RAM_OFFSET && |code| < pc + 4
    ensures LoadWord(code, ram, pc).Failure?
  {
  }

  /** Where padding was lost, the interpreter cannot fetch an instruction of the section. */
  lemma LostPadding(initial: Memory, parts: seq<Part>, output: Memory, size: nat, x: Part, ram: Memory)
    requires Apart(parts) && Transpiled(false, initial, parts) == Success((output, size)) && size <= RAM_OFFSET
    requires x in parts && x.executable && Needs(x.data) && size < x.Place().Room()
    ensures size <= |output|
    ensures exists pc: u32 | x.offset <= pc && pc + 2 <= x.End() ::
              Boundary(x.data, pc - x.offset) && LoadWord(output[..size], ram, pc).Failure?
  {
    hide Apart, Transpiled, Fit, AsksLast, Finish, PaddedImage, Image, LoadWord;
    ElfTranslated(initial, parts, output, size);
    PaddingExactly(x.data);
    forall i: nat | Boundary(x.data, i) ensures i % 2 == 0 {
      EvenBoundary(x.data, 0, i);
    }
    var i: nat :| Boundary(x.data, i) && i + 2 <= |x.data| < i + 4;
    var pc: u32 := x.offset + i;
    FetchPastEnd(output[..size], ram, pc);
    assert Boundary(x.data, pc - x.offset);
  }

  const NOP: Memory := [0x01, 0x00]

  lemma NopNeeds()
    ensures Finish(NOP, 0, false) == Done(true)
  {
    assert RawAt(NOP, 0) == 0x1;
    assert Convert(0x1) == Half(TypeCI1.FromRiscv(0x1).ToEmbive(), C_ADDI);
    assert Finish(NOP, 2, true) == Done(true);
  }

  lemma TwoParts(x: Part, y: Part)
    ensures MaxEnd([x, y]) == Max(x.End(), y.End())
    ensures AsksLast([x, y])
       <==> (y.executable && Needs(y.data)) || (x.executable && Needs(x.data) && Quiet(y))
  {
    hide Needs, AsksLast;
    assert MaxEnd([y]) == y.End();
    AsksFirst(x, [y]);
    AsksFirst(y, []);
    NothingAsks();
    assert [x] + [y] == [x, y] && [y] + [] == [y];
  }

  /** The request of `x` is lost when another section is handled after it that settles padding otherwise. */
  lemma Loses(x: Part, y: Part)
    requires x.executable && Needs(x.data) && y.End() < x.Place().Room()
    requires !Quiet(y) && !(y.executable && Needs(y.data))
    ensures !Padded([x, y])
  {
    hide Needs, AsksLast;
    TwoParts(x, y);
    assert x in [x, y];
  }

  /** A code section of one byte after one that asks for padding; and data placed before the code, handled last. */
  lemma LostRequests()
    ensures var short := [Part(0, NOP, true), Part(2, [0], true)];
            Ascending(short) && Transpiled(false, [0, 0, 0, 0], short).Success? && !Padded(short)
    ensures var swapped := [Part(2, NOP, true), Part(0, [7, 7], false)];
            Apart(swapped) && Transpiled(false, [0, 0, 0, 0], swapped).Success? && !Padded(swapped)
  {
    hide Finish, AsksLast, Padded, Transpiled;
    var buffer: Memory := [0, 0, 0, 0];
    var x, y, z, w := Part(0, NOP, true), Part(2, [0], true), Part(2, NOP, true), Part(0, [7, 7], false);
    NopNeeds();
    OneByte();
    Loses(x, y);
    Loses(z, w);
    TwoParts(x, y);
    TwoParts(z, w);
    ElfSucceeds(buffer, [x, y]);
    ElfSucceeds(buffer, [z, w]);
  }

  lemma OneByte()
    ensures Finish([0], 0, false) == Done(false)
  {
  }

  // Growing vectors.

  /** Every section starts where the bytes before it end. */
  predicate Contiguous(parts: seq<Part>, n: nat)
    decreases |parts|
  {
    parts == [] || (parts[0].offset == n && Contiguous(parts[1..], parts[0].End()))
  }

  lemma GrowIs(p: Progress, x: Part)
    requires Add(true, p, x).Success?
    ensures var q := Add(true, p, x).value;
            |q.output| == |p.output| + |x.data| && q.size == Max(p.size, x.End())
  {
    hide Finish, Output;
  }

  lemma {:induction false} GrowthExactly(p: Progress, parts: seq<Part>)
    requires Ascending(parts) && forall x | x in parts :: p.size <= x.offset
    requires |p.output| <= p.size && AddAll(true, p, parts).Success?
    ensures var q := AddAll(true, p, parts).value;
            |q.output| == q.size <==> |p.output| == p.size && Contiguous(parts, p.size)
    decreases |parts|
  {
    hide Add;
    if parts != [] {
      var x, rest := parts[0], parts[1..];
      GrowIs(p, x);
      assert x in parts;
      forall y | y in rest ensures x.End() <= y.offset {
        var k :| 0 <= k < |rest| && rest[k] == y;
        assert parts[k + 1] == y;
      }
      GrowthExactly(Add(true, p, x).value, rest);
    }
  }

  /** A vector ends up with the reported size exactly when the sections leave no gap. */
  lemma VectorExactly(parts: seq<Part>, output: Memory, size: nat)
    requires Ascending(parts) && Transpiled(true, [], parts) == Success((output, size))
    ensures |output| == size <==> Contiguous(parts, 0)
  {
    hide AddAll, Ascending, Contiguous;
    GrowthExactly(Progress([], 0, false), parts);
  }

  /** The sections one after the other. */
  function Concatenated(parts: seq<Part>): Memory
    decreases |parts|
  {
    if parts == [] then [] else parts[0].data + Concatenated(parts[1..])
  }

  lemma {:induction false} GrowthOfData(p: Progress, parts: seq<Part>)
    requires forall x | x in parts :: !x.executable
    ensures AddAll(true, p, parts).Success? && AddAll(true, p, parts).value.output == p.output + Concatenated(parts)
    decreases |parts|
  {
    if parts != [] {
      var x, rest := parts[0], parts[1..];
      assert x in parts;
      var next := Add(true, p, x).value;
      GrowthOfData(next, rest);
      Concat(p.output, x.data, Concatenated(rest));
    } else {
      assert p.output + [] == p.output;
    }
  }

  /** Data sections are appended whatever their offsets are; code that comes after a gap is out of bounds. */
  lemma VectorOfData(data: seq<Part>, x: Part, rest: seq<Part>)
    requires forall y | y in data :: !y.executable
    ensures AddAll(true, Progress([], 0, false), data).Success?
    ensures AddAll(true, Progress([], 0, false), data).value.output == Concatenated(data)
    ensures x.executable && x.offset > |Concatenated(data)| ==>
              Transpiled(true, [], data + [x] + rest) == Failure(Refused(OutOfBounds))
  {
    hide AddAll, Add;
    var start := Progress([], 0, false);
    GrowthOfData(start, data);
    assert [] + Concatenated(data) == Concatenated(data);
    var p := AddAll(true, start, data).value;
    GrowthPrefix(start, data, [x] + rest);
    assert data + [x] + rest == data + ([x] + rest);
    if x.executable && x.offset > |Concatenated(data)| {
      GapRefused(p, x);
      FirstFails(p, x, rest);
    }
  }

  lemma FirstFails(p: Progress, x: Part, rest: seq<Part>)
    requires Add(true, p, x).Failure?
    ensures AddAll(true, p, [x] + rest) == Failure(Add(true, p, x).error)
  {
    hide Add;
  }

  lemma {:induction false} GrowthPrefix(p: Progress, first: seq<Part>, second: seq<Part>)
    requires AddAll(true, p, first).Success?
    ensures AddAll(true, p, first + second) == AddAll(true, AddAll(true, p, first).value, second)
    decreases |first|
  {
    hide Add;
    if first == [] {
      assert first + second == second;
    } else {
      assert (first + second)[0] == first[0] && (first + second)[1..] == first[1..] + second;
      GrowthPrefix(Add(true, p, first[0]).value, first[1..], second);
    }
  }

  lemma GapRefused(p: Progress, x: Part)
    requires x.executable && x.offset > |p.output|
    ensures Add(true, p, x) == Failure(Refused(OutOfBounds))
  {
  }

  /** The vector holds what the buffer holds up to the size of the binary. */
  predicate Agree(v: Progress, b: Progress) {
    && v.size == b.size == |v.output| <= |b.output|
    && v.needsPadding == b.needsPadding
    && b.output[..v.size] == v.output
  }

  predicate AgreeOrFail(v: Result<Progress, Refusal>, b: Result<Progress, Refusal>) {
    match (v, b)
    case (Success(p), Success(q)) => Agree(p, q)
    case (Failure(e), Failure(f)) => e == f
    case _ => false
  }

  lemma AddSame(v: Progress, b: Progress, x: Part)
    requires Agree(v, b) && x.offset == v.size && x.End() <= |b.output|
    ensures AgreeOrFail(Add(true, v, x), Add(false, b, x))
    ensures Add(false, b, x).Success? ==>
              Add(false, b, x).value.size == x.End() && |Add(false, b, x).value.output| == |b.output|
  {
    hide Finish, Output, Splice;
    assert (v.output + x.data)[x.offset..x.End()] == x.data;
    Spliced(b.output, x.offset, x.data);
    SplicedEnd(b.output, x.offset, x.data);
    if x.executable {
      SplicedTwice(b.output, x.offset, x.data, Output(x.data, 0));
      SplicedEnd(b.output, x.offset, Output(x.data, 0));
      SplicedTail(v.output, x.data, Output(x.data, 0));
    }
  }

  lemma {:induction false} AddAllSame(v: Progress, b: Progress, parts: seq<Part>)
    requires Agree(v, b) && Contiguous(parts, v.size) && Fit(b.output, parts)
    ensures AgreeOrFail(AddAll(true, v, parts), AddAll(false, b, parts))
    decreases |parts|
  {
    hide Add, Agree, Fit;
    if parts != [] {
      var x, rest := parts[0], parts[1..];
      FitFirst(b.output, parts);
      SizesAgree(v, b);
      AddSame(v, b, x);
      if Add(false, b, x).Success? {
        var next := Add(false, b, x).value;
        SizesAgree(Add(true, v, x).value, next);
        SameFit(b.output, next.output, rest);
        AddAllSame(Add(true, v, x).value, next, rest);
      }
    }
  }

  lemma SizesAgree(v: Progress, b: Progress)
    requires Agree(v, b)
    ensures v.size == b.size
  {
  }

  lemma FitFirst(m: Memory, parts: seq<Part>)
    requires parts != [] && Fit(m, parts)
    ensures parts[0].End() <= |m| && Fit(m, parts[1..])
  {
    assert parts[0] in parts;
  }

  lemma PadSame(v: Progress, b: Progress)
    requires Agree(v, b) && v.size + 2 <= |b.output|
    ensures match Pad(false, b)
            case Failure(_) => false
            case Success((output, size)) => size <= |output| && Pad(true, v) == Success((output[..size], size))
  {
    hide Splice;
    if b.needsPadding {
      SplicedEnd(b.output, b.size, ZEROS);
    }
  }

  /** Without gaps the vector is the binary that a large enough buffer gets, and failures are the same. */
  lemma VectorSame(initial: Memory, parts: seq<Part>)
    requires Contiguous(parts, 0) && Fit(initial, parts) && MaxEnd(parts) + 2 <= |initial|
    ensures var r := Transpiled(false, initial, parts);
            match r
            case Failure(_) => Transpiled(true, [], parts) == r
            case Success((output, size)) =>
              size <= |output| && Transpiled(true, [], parts) == Success((output[..size], size))
  {
    hide AddAll, Contiguous, Fit, Pad, AsksLast, AllQuiet;
    var v, b := Progress([], 0, false), Progress(initial, 0, false);
    AddAllSame(v, b, parts);
    AddAllIs(b, parts);
    if AddAll(false, b, parts).Success? {
      PadSame(AddAll(true, v, parts).value, AddAll(false, b, parts).value);
    }
  }
}
