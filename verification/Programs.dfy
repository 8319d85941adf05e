/**
  Images with executable sections (src/transpiler.rs): the original bytes, the bytes after each section
  was transpiled in place, and where the sections are.
 */
module Programs {
  import opened Wrappers
  import opened Words
  import opened Machines
  import opened Transpiler
  import opened Boundaries

  datatype Section = Section(start: nat, length: nat) {
    function End(): nat { start + length }

    /** The end of a fetch of four bytes where a last instruction of two bytes starts. */
    function Room(): nat { End() + 2 - length % 2 }

    predicate Covers(a: int) { start <= a < End() }
  }

  datatype Program = Program(original: Memory, transpiled: Memory, sections: seq<Section>) {
    function Text(s: Section): (text: Memory)
      requires s.End() <= |original|
      ensures |text| == s.length
    {
      original[s.start..s.End()]
    }

    /** The section transpiles and the image holds the result. */
    predicate Converted(s: Section) {
      && s.End() <= |original| == |transpiled|
      && Finish(Text(s), 0, false).Done?
      && transpiled[s.start..s.End()] == Output(Text(s), 0)
    }

    /** A section that is converted, with room for the padding that it asks for. */
    predicate Holds(s: Section) {
      Converted(s) && (Finish(Text(s), 0, false).needsPadding ==> s.Room() <= |original|)
    }

    predicate InText(a: int) {
      exists s :: s in sections && s.Covers(a)
    }

    predicate Loadable() {
      && |original| == |transpiled|
      && (forall s | s in sections :: Holds(s))
      && (forall a | 0 <= a < |original| && !InText(a) :: transpiled[a] == original[a])
    }

    /** Loadable but for padding. */
    predicate Translated() {
      && |original| == |transpiled|
      && (forall s | s in sections :: Converted(s))
      && (forall a | 0 <= a < |original| && !InText(a) :: transpiled[a] == original[a])
    }

    /** `pc` is the address of an instruction of `s`. */
    predicate BoundaryIn(s: Section, pc: u32) {
      s.End() <= |original| && s.start <= pc && pc + 2 <= s.End() && Boundary(Text(s), pc - s.start)
    }

    predicate AtBoundary(pc: u32) {
      exists s :: s in sections && BoundaryIn(s, pc)
    }
  }

  predicate Disjoint(s: Section, t: Section) {
    s.End() <= t.start || t.End() <= s.start
  }
}
