/**
 * The edge cycle of each move in rubik_cube.cpp is not done at once but by
 * five copy loops through a three-cell temporary: save strip s0, copy s1
 * into s0, s2 into s1, s3 into s2, and the saved cells into s3. This module
 * gives each loop's effect as a function on states and proves that the five
 * steps together are the simultaneous cycle CycleStrips.
 */
module StripCopies {
  import opened CubeSpec

  /** The three values along a strip, in the strip's loop order (the temp buffer). */
  function StripValues(s: Facelets, st: Strip): (v: seq<int>)
    requires st.Valid()
    ensures |v| == 3
  {
    [At(s, st.Cell(0)), At(s, st.Cell(1)), At(s, st.Cell(2))]
  }

  /** Entry i of the temp buffer is cell i of the saved strip. */
  lemma StripValuesAt(s: Facelets, st: Strip, i: int)
    requires st.Valid() && 0 <= i < 3
    ensures StripValues(s, st)[i] == At(s, st.Cell(i))
  {
  }

  /** The state after one loop `dst[i] = src[i]` over the three loop indices. */
  function CopiedStrip(s: Facelets, dst: Strip, src: Strip): Facelets
    requires dst.Valid() && src.Valid()
  {
    seq(54, k requires 0 <= k < 54 =>
      var p := PosAt(k);
      if dst.Contains(p) then At(s, src.Cell(dst.IndexOf(p))) else s[k])
  }

  /** The state after the final loop `st[i] = v[i]` from the temp buffer. */
  function WrittenStrip(s: Facelets, st: Strip, v: seq<int>): Facelets
    requires st.Valid() && |v| == 3
  {
    seq(54, k requires 0 <= k < 54 =>
      var p := PosAt(k);
      if st.Contains(p) then v[st.IndexOf(p)] else s[k])
  }

  /** Copying writes cell i of dst from cell i of src and leaves every other cell alone. */
  lemma CopiedStripAt(s: Facelets, dst: Strip, src: Strip, p: Pos)
    requires dst.Valid() && src.Valid() && p.Valid()
    ensures At(CopiedStrip(s, dst, src), p)
         == if dst.Contains(p) then At(s, src.Cell(dst.IndexOf(p))) else At(s, p)
  {
    PosAtOffset(p);
  }

  /** Writing stores v[i] in cell i of the strip and leaves every other cell alone. */
  lemma WrittenStripAt(s: Facelets, st: Strip, v: seq<int>, p: Pos)
    requires st.Valid() && |v| == 3 && p.Valid()
    ensures At(WrittenStrip(s, st, v), p) == if st.Contains(p) then v[st.IndexOf(p)] else At(s, p)
  {
    PosAtOffset(p);
  }

  /** The state after the five copy loops of a move's edge cycle. */
  function FiveLoops(c: Cycle, s: Facelets): Facelets
    requires c.Valid()
  {
    var temp := StripValues(s, c.s0);
    var t1 := CopiedStrip(s, c.s0, c.s1);
    var t2 := CopiedStrip(t1, c.s1, c.s2);
    var t3 := CopiedStrip(t2, c.s2, c.s3);
    WrittenStrip(t3, c.s3, temp)
  }

  /** The copies only ever read a strip before it has been overwritten, one position at a time. */
  lemma FiveLoopsAt(c: Cycle, s: Facelets, p: Pos)
    requires c.Valid() && p.Valid()
    ensures At(FiveLoops(c, s), p) == At(s, c.From(p))
  {
    var temp := StripValues(s, c.s0);
    var t1 := CopiedStrip(s, c.s0, c.s1);
    var t2 := CopiedStrip(t1, c.s1, c.s2);
    var t3 := CopiedStrip(t2, c.s2, c.s3);
    WrittenStripAt(t3, c.s3, temp, p);
    if c.s3.Contains(p) {
      StripIndexRoundTrip(c.s3, p, 0);
    } else {
      CopiedStripAt(t2, c.s2, c.s3, p);
      if c.s2.Contains(p) {
        var q := c.s3.Cell(c.s2.IndexOf(p));
        CopiedStripAt(t1, c.s1, c.s2, q);
        CopiedStripAt(s, c.s0, c.s1, q);
      } else {
        CopiedStripAt(t1, c.s1, c.s2, p);
        if c.s1.Contains(p) {
          var q := c.s2.Cell(c.s1.IndexOf(p));
          CopiedStripAt(s, c.s0, c.s1, q);
        } else {
          CopiedStripAt(s, c.s0, c.s1, p);
        }
      }
    }
  }

  /** The five sequential copies through the temp buffer are exactly the simultaneous 4-cycle. */
  lemma FiveLoopsCycle(c: Cycle, s: Facelets)
    requires c.Valid()
    ensures FiveLoops(c, s) == CycleStrips(c, s)
  {
    forall p: Pos | p.Valid()
      ensures At(FiveLoops(c, s), p) == At(CycleStrips(c, s), p)
    {
      FiveLoopsAt(c, s, p);
      CycleStripsAt(c, s, p);
    }
    FaceletsExt(FiveLoops(c, s), CycleStrips(c, s));
  }
}
