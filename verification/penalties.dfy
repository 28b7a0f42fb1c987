/** Penalty configuration of the sequence-alignment widget: the three scores
    used by the edit-distance table, the "custom" check box that guards each
    of them, and the reset performed when the parameters are re-applied. */
module Penalties {

  /** The three scores read by the dynamic program. */
  datatype Scores = Scores(align: int, misalign: int, indel: int)

  /** One check box per score: when it is off the score is not user-set. */
  datatype Custom = Custom(align: bool, misalign: bool, indel: bool)

  const DefaultAlign: int := 0
  const DefaultMisalign: int := 1
  const DefaultIndel: int := 1

  /** The class-level defaults of the widget. */
  function Defaults(): Scores {
    Scores(DefaultAlign, DefaultMisalign, DefaultIndel)
  }

  /** The ranges of the three spin boxes: the user can only pick values
      inside them. */
  predicate InSpinRange(p: Scores) {
    && -100 <= p.align <= 0
    && 0 <= p.misalign <= 100
    && 0 <= p.indel <= 100
  }

  /** "Update parameters": every score whose check box is off is reset to its
      default; a checked score keeps the value the user entered. */
  function Invalidate(p: Scores, c: Custom): (r: Scores)
    ensures !c.misalign ==> r.misalign == DefaultMisalign
    ensures c.misalign ==> r.misalign == p.misalign
    ensures !c.align ==> r.align == DefaultAlign
    ensures c.align ==> r.align == p.align
    ensures !c.indel ==> r.indel == DefaultIndel
    ensures c.indel ==> r.indel == p.indel
  {
    var misalign := if !c.misalign then DefaultMisalign else p.misalign;
    var align := if !c.align then DefaultAlign else p.align;
    var indel := if !c.indel then DefaultIndel else p.indel;
    Scores(align, misalign, indel)
  }

  /** Pressing the button twice changes nothing more than pressing it once. */
  lemma InvalidateIdempotent(p: Scores, c: Custom)
    ensures Invalidate(Invalidate(p, c), c) == Invalidate(p, c)
  {
  }

  /** With every check box off the configuration is exactly the defaults,
      whatever was entered before. */
  lemma InvalidateAllUnchecked(p: Scores)
    ensures Invalidate(p, Custom(false, false, false)) == Defaults()
  {
  }

  /** With every check box on nothing is reset. */
  lemma InvalidateAllChecked(p: Scores)
    ensures Invalidate(p, Custom(true, true, true)) == p
  {
  }

  /** The defaults lie inside the spin-box ranges, so a reset never leaves
      the ranges the user interface enforces. */
  lemma InvalidateKeepsSpinRange(p: Scores, c: Custom)
    requires InSpinRange(p)
    ensures InSpinRange(Invalidate(p, c))
  {
  }
}
