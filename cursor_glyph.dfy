/// Where the editor example draws its cursor (examples/editor.rs,
/// `cursor_glyph_opt` and `cursor_position`): which glyph of a layout run the
/// cursor's byte offset falls in, how far into that glyph it lies, and which
/// edge of the glyph the cursor is drawn at.
///
/// Grapheme segmentation is not modelled: each glyph carries the start
/// offsets, relative to its cluster, of the graphemes of its cluster.
module CursorGlyph {
  import opened Host
  import opened EditorBuffer

  /// A shaped glyph: the bytes `start..end` of the line it covers, the
  /// grapheme starts of that cluster, its x position and width, and whether it
  /// was laid out right to left.
  datatype Glyph = Glyph(start: nat, end: nat, graphemes: seq<nat>, x: real, w: real, rtl: bool)

  /// One visual line of a buffer line: the buffer line it belongs to, its
  /// glyphs in visual order, and its top.
  datatype LayoutRun = LayoutRun(lineI: nat, glyphs: seq<Glyph>, lineTop: real)

  /// How far into its glyph a cursor lies: at the glyph's start, or
  /// `before` of the cluster's `total` graphemes in (an x offset of
  /// `w * before / total`).
  datatype GlyphOffset = Start | Fraction(before: nat, total: nat)

  /// The glyph a cursor is at (the glyph count for the end of the run) and
  /// its offset into that glyph.
  datatype Location = Location(glyph: nat, offset: GlyphOffset)

  /// The grapheme segmentation of a non-empty cluster: its first grapheme
  /// starts the cluster, and every grapheme starts inside it.
  predicate Segmented(g: Glyph) {
    g.start < g.end ==>
      && |g.graphemes| > 0
      && g.graphemes[0] == 0
      && (forall k :: 0 <= k < |g.graphemes| ==> g.graphemes[k] < g.end - g.start)
  }

  /// The cursor byte offset `index` is at glyph `g`: at its start, or strictly inside it.
  predicate Hits(g: Glyph, index: nat) {
    index == g.start || g.start < index < g.end
  }

  /// The first glyph the index hits, or the glyph count when none does.
  function FirstHit(glyphs: seq<Glyph>, index: nat): (i: nat)
    ensures i <= |glyphs|
    ensures forall j :: 0 <= j < i ==> !Hits(glyphs[j], index)
    ensures i < |glyphs| ==> Hits(glyphs[i], index)
  {
    if glyphs == [] then 0
    else if Hits(glyphs[0], index) then 0
    else 1 + FirstHit(glyphs[1..], index)
  }

  /// How many of the grapheme starts `offsets` of a cluster starting at
  /// `start` lie before the cursor byte offset `index`.
  function GraphemesBefore(offsets: seq<nat>, start: nat, index: nat): nat {
    if offsets == [] then 0
    else
      GraphemesBefore(offsets[..|offsets| - 1], start, index)
        + (if start + offsets[|offsets| - 1] < index then 1 else 0)
  }

  /// Where a cursor lies in a run: nowhere when it is on another line; at the
  /// first glyph it hits (at its start, or a fraction of its graphemes in);
  /// at the start of an empty run; at the end of the run when it is at the
  /// last glyph's end; and nowhere otherwise.
  function Locate(cursor: Cursor, run: LayoutRun): Option<Location> {
    if cursor.line != run.lineI then None
    else
      var i := FirstHit(run.glyphs, cursor.index);
      if i < |run.glyphs| then
        var g := run.glyphs[i];
        if cursor.index == g.start then Some(Location(i, Start))
        else Some(Location(i, Fraction(GraphemesBefore(g.graphemes, g.start, cursor.index), |g.graphemes|)))
      else if run.glyphs == [] then Some(Location(0, Start))
      else if cursor.index == run.glyphs[|run.glyphs| - 1].end then Some(Location(|run.glyphs|, Start))
      else None
  }

  /// Counts the graphemes of glyph `g`'s cluster, and those that start before `index`.
  method CountGraphemes(g: Glyph, index: nat) returns (before: nat, total: nat)
    ensures before == GraphemesBefore(g.graphemes, g.start, index)
    ensures total == |g.graphemes|
  {
    before, total := 0, 0;
    for k := 0 to |g.graphemes|
      invariant before == GraphemesBefore(g.graphemes[..k], g.start, index)
      invariant total == k
    {
      assert g.graphemes[..k + 1][..k] == g.graphemes[..k];
      if g.start + g.graphemes[k] < index {
        before := before + 1;
      }
      total := total + 1;
    }
    assert g.graphemes[..|g.graphemes|] == g.graphemes;
  }

  /// Scans the run's glyphs in order for the cursor, then falls back to the
  /// empty run and the end of the run.
  method CursorGlyphOpt(cursor: Cursor, run: LayoutRun) returns (r: Option<Location>)
    ensures r == Locate(cursor, run)
  {
    if cursor.line == run.lineI {
      for i := 0 to |run.glyphs|
        invariant forall j :: 0 <= j < i ==> !Hits(run.glyphs[j], cursor.index)
      {
        var g := run.glyphs[i];
        if cursor.index == g.start {
          return Some(Location(i, Start));
        } else if g.start < cursor.index < g.end {
          var before, total := CountGraphemes(g, cursor.index);
          return Some(Location(i, Fraction(before, total)));
        }
      }
      if |run.glyphs| == 0 {
        return Some(Location(0, Start));
      } else if cursor.index == run.glyphs[|run.glyphs| - 1].end {
        return Some(Location(|run.glyphs|, Start));
      }
    }
    return None;
  }

  /// Every case of `Locate`: a cursor on another line is nowhere; a glyph
  /// location is the first glyph hit, at its start exactly when the index is
  /// its start, and otherwise strictly inside it with at least one and at
  /// most all of its graphemes before the cursor; an end-of-run location
  /// means no glyph was hit and the index is the last glyph's end (or the run
  /// is empty, at glyph 0); and the cursor is nowhere on its own line only
  /// when the run has glyphs, none is hit, and the last one does not end at
  /// the index.
  lemma LocateCases(cursor: Cursor, run: LayoutRun)
    requires forall k :: 0 <= k < |run.glyphs| ==> Segmented(run.glyphs[k])
    ensures cursor.line != run.lineI ==> Locate(cursor, run).None?
    ensures Locate(cursor, run).Some? && Locate(cursor, run).value.glyph < |run.glyphs| ==>
      var Location(i, off) := Locate(cursor, run).value;
      var g := run.glyphs[i];
      && Hits(g, cursor.index)
      && (forall j :: 0 <= j < i ==> !Hits(run.glyphs[j], cursor.index))
      && (off.Start? <==> cursor.index == g.start)
      && (off.Fraction? ==> g.start < cursor.index < g.end && 1 <= off.before <= off.total == |g.graphemes|)
    ensures Locate(cursor, run).Some? && Locate(cursor, run).value.glyph >= |run.glyphs| ==>
      && Locate(cursor, run).value == Location(|run.glyphs|, Start)
      && (forall j :: 0 <= j < |run.glyphs| ==> !Hits(run.glyphs[j], cursor.index))
      && (run.glyphs == [] || cursor.index == run.glyphs[|run.glyphs| - 1].end)
    ensures cursor.line == run.lineI && Locate(cursor, run).None? <==>
      && cursor.line == run.lineI
      && run.glyphs != []
      && (forall j :: 0 <= j < |run.glyphs| ==> !Hits(run.glyphs[j], cursor.index))
      && cursor.index != run.glyphs[|run.glyphs| - 1].end
  {
    if cursor.line == run.lineI {
      var i := FirstHit(run.glyphs, cursor.index);
      if i < |run.glyphs| {
        var g := run.glyphs[i];
        if cursor.index != g.start {
          FractionBounds(g, cursor.index);
        }
      }
    }
  }

  /// The grapheme starts before the cursor are at most all of them.
  lemma {:induction false} GraphemesBeforeAtMostAll(offsets: seq<nat>, start: nat, index: nat)
    ensures GraphemesBefore(offsets, start, index) <= |offsets|
  {
    if offsets != [] {
      GraphemesBeforeAtMostAll(offsets[..|offsets| - 1], start, index);
    }
  }

  /// When the first grapheme start is before the cursor, it is counted.
  lemma {:induction false} GraphemesBeforeCountsFirst(offsets: seq<nat>, start: nat, index: nat)
    requires |offsets| > 0 && start + offsets[0] < index
    ensures GraphemesBefore(offsets, start, index) >= 1
  {
    if |offsets| > 1 {
      GraphemesBeforeCountsFirst(offsets[..|offsets| - 1], start, index);
    }
  }

  /// A cursor strictly inside a segmented glyph has at least one and at most
  /// all of the cluster's graphemes before it.
  lemma FractionBounds(g: Glyph, index: nat)
    requires Segmented(g) && g.start < index < g.end
    ensures 1 <= GraphemesBefore(g.graphemes, g.start, index) <= |g.graphemes|
  {
    GraphemesBeforeAtMostAll(g.graphemes, g.start, index);
    GraphemesBeforeCountsFirst(g.graphemes, g.start, index);
  }

  /// The x offset into glyph `g` of a location's offset: `w * before / total`.
  /// A cluster without graphemes divides zero by zero, and the resulting NaN
  /// makes the drawn x 0 (see `CursorX`).
  function OffsetValue(g: Glyph, off: GlyphOffset): real {
    match off
    case Start => 0.0
    case Fraction(before, total) => if total == 0 then 0.0 else g.w * (before as real) / (total as real)
  }

  /// The x at which the cursor is drawn, before truncation to an integer:
  /// inside a glyph, its left edge plus the offset for left-to-right text and
  /// its right edge minus the offset for right-to-left text; past the last
  /// glyph, that glyph's far edge in its direction; on an empty line, 0.
  function CursorX(cursor: Cursor, run: LayoutRun): Option<real> {
    match Locate(cursor, run)
    case None => None
    case Some(Location(i, off)) =>
      if i < |run.glyphs| then
        var g := run.glyphs[i];
        if off.Fraction? && off.total == 0 then Some(0.0)
        else if g.rtl then Some(g.x + g.w - OffsetValue(g, off))
        else Some(g.x + OffsetValue(g, off))
      else if run.glyphs != [] then
        var last := run.glyphs[|run.glyphs| - 1];
        Some(if last.rtl then last.x else last.x + last.w)
      else Some(0.0)
  }

  /// The cursor's drawn position: its x and the run's top, when it lies in the run.
  function CursorPosition(cursor: Cursor, run: LayoutRun): (r: Option<(real, real)>)
    ensures r.Some? <==> Locate(cursor, run).Some?
    ensures r.Some? ==> r.value == (CursorX(cursor, run).value, run.lineTop)
  {
    match CursorX(cursor, run)
    case None => None
    case Some(x) => Some((x, run.lineTop))
  }

  /// A fraction of a glyph's graphemes, taken of a non-negative width, lies
  /// between 0 and that width.
  lemma OffsetWithinWidth(g: Glyph, before: nat, total: nat)
    requires g.w >= 0.0 && 0 < total && before <= total
    ensures 0.0 <= OffsetValue(g, Fraction(before, total)) <= g.w
  {
    FractionOfWidth(g.w, before as real, total as real);
  }

  lemma FractionOfWidth(w: real, b: real, t: real)
    requires w >= 0.0 && 0.0 <= b <= t && t > 0.0
    ensures 0.0 <= w * b / t <= w
  {
    NonNegativeProduct(w, b);
    NonNegativeQuotient(w * b, t);
    NonNegativeProduct(w, t - b);
    assert w * t - w * b == w * (t - b);
    QuotientMonotone(w * b, w * t, t);
    TimesThenDivide(w, t);
  }

  // Proof plumbing: facts of real arithmetic that the solver's non-linear
  // reasoning does not find unaided, used by `FractionOfWidth`.
  lemma NonNegativeProduct(a: real, b: real)
    requires a >= 0.0 && b >= 0.0
    ensures a * b >= 0.0
  {
  }

  lemma NonNegativeQuotient(a: real, t: real)
    requires a >= 0.0 && t > 0.0
    ensures a / t >= 0.0
  {
  }

  lemma QuotientMonotone(x: real, y: real, t: real)
    requires x <= y && t > 0.0
    ensures x / t <= y / t
  {
    assert y / t - x / t == (y - x) / t;
    NonNegativeQuotient(y - x, t);
  }

  lemma TimesThenDivide(w: real, t: real)
    requires t > 0.0
    ensures w * t / t == w
  {
  }

  /// A cursor inside a glyph of non-negative width is drawn within the
  /// glyph's extent, at its leading edge when at the glyph's start; a cursor
  /// at the end of the run is drawn at the last glyph's trailing edge.
  lemma CursorWithinGlyph(cursor: Cursor, run: LayoutRun)
    requires forall k :: 0 <= k < |run.glyphs| ==> Segmented(run.glyphs[k]) && run.glyphs[k].w >= 0.0
    requires Locate(cursor, run).Some?
    ensures var Location(i, off) := Locate(cursor, run).value;
      var x := CursorX(cursor, run).value;
      && (i < |run.glyphs| ==> run.glyphs[i].x <= x <= run.glyphs[i].x + run.glyphs[i].w)
      && (i < |run.glyphs| && off.Start? ==> x == if run.glyphs[i].rtl then run.glyphs[i].x + run.glyphs[i].w else run.glyphs[i].x)
      && (i == |run.glyphs| > 0 ==>
            var last := run.glyphs[i - 1];
            x == if last.rtl then last.x else last.x + last.w)
  {
    LocateCases(cursor, run);
    var Location(i, off) := Locate(cursor, run).value;
    if i < |run.glyphs| && off.Fraction? {
      OffsetWithinWidth(run.glyphs[i], off.before, off.total);
    }
  }
}
