/** The two depth-test rules of the renderer's history, applied to one
    pixel: the current renderer keeps the nearer fragment and treats a stored
    depth <= 0 as "unwritten"; the earlier renderer keeps the equal-or-farther
    fragment. */
module DepthTest {
  import opened Machine
  import opened Screen

  /** Rule of the current renderer: write when the slot is unwritten (<= 0)
      or the new depth is strictly nearer. */
  predicate NearerPasses(stored: int, depth: int) {
    stored <= 0 || depth < stored
  }

  /** Rule of the earlier renderer: write when the stored depth is <= the new
      one. */
  predicate FartherPasses(stored: int, depth: int) {
    stored <= depth
  }

  /** One pixel of colour and depth. */
  datatype Sample = Sample(color: Color, depth: int)

  /** The depth-tested write of the current renderer: on a pass both the
      colour and the depth are replaced, on a reject neither changes. */
  function WriteNearer(s: Sample, frag: Sample): (r: Sample)
    ensures r == s || r == frag
    ensures NearerPasses(s.depth, frag.depth) ==> r == frag
    ensures !NearerPasses(s.depth, frag.depth) ==> r == s
  {
    if NearerPasses(s.depth, frag.depth) then frag else s
  }

  /** The depth-tested write of the earlier renderer. */
  function WriteFarther(s: Sample, frag: Sample): (r: Sample)
    ensures r == s || r == frag
    ensures FartherPasses(s.depth, frag.depth) ==> r == frag
    ensures !FartherPasses(s.depth, frag.depth) ==> r == s
  {
    if FartherPasses(s.depth, frag.depth) then frag else s
  }

  /** On a written slot (stored > 0) the two rules are exact opposites: the
      earlier renderer writes precisely the fragments the current one rejects. */
  lemma RulesAreOpposite(stored: int, depth: int)
    requires stored > 0
    ensures FartherPasses(stored, depth) <==> !NearerPasses(stored, depth)
  {
  }

  /** After the clear, depth 0 marks a slot as unwritten: both rules accept
      the first non-negative fragment. */
  lemma ClearedSlotAcceptsAnything(depth: int)
    requires depth >= 0
    ensures NearerPasses(0, depth) && FartherPasses(0, depth)
  {
  }

  /** Depth resolution of the current renderer is order-independent: two
      fragments with distinct positive depths written over a cleared slot,
      in either order, leave the nearer one. */
  lemma NearerWinsEitherOrder(bg: Color, f1: Sample, f2: Sample)
    requires f1.depth > 0 && f2.depth > 0 && f1.depth != f2.depth
    ensures var cleared := Sample(bg, 0);
            var nearer := if f1.depth < f2.depth then f1 else f2;
            && WriteNearer(WriteNearer(cleared, f1), f2) == nearer
            && WriteNearer(WriteNearer(cleared, f2), f1) == nearer
  {
  }

  /** The earlier renderer resolves the same two fragments to the farther one,
      also in either order. */
  lemma FartherWinsEitherOrder(bg: Color, f1: Sample, f2: Sample)
    requires f1.depth >= 0 && f2.depth >= 0 && f1.depth != f2.depth
    ensures var cleared := Sample(bg, 0);
            var farther := if f1.depth > f2.depth then f1 else f2;
            && WriteFarther(WriteFarther(cleared, f1), f2) == farther
            && WriteFarther(WriteFarther(cleared, f2), f1) == farther
  {
  }

  /** A fragment at depth 0 never marks its slot as written under the
      current rule: any later fragment replaces it. */
  lemma ZeroDepthIsOverwritten(bg: Color, f1: Sample, f2: Sample)
    requires f1.depth == 0
    ensures WriteNearer(WriteNearer(Sample(bg, 0), f1), f2) == f2
  {
  }
}
