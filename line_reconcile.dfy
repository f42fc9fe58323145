/// The reconciler of the editor example (examples/editor.rs,
/// `listen_keyboard_input_events`): after an edit, every buffer line is cut
/// into pieces by its attribute ranges, each piece is appended to the text
/// of the section its range is tagged with, and the accumulated texts are
/// written back over the sections; sections that received nothing are
/// removed, except that the last remaining one is kept with empty text.
module LineReconcile {
  import opened Host
  import opened EditorBuffer

  /// A piece of a line's text bound for the section at `index`.
  datatype Piece = Piece(index: nat, text: string)

  // ---------------------------------------------------------------------
  // Cutting a line into pieces
  // ---------------------------------------------------------------------

  /// The position in the line text after the first `j` ranges.
  function PosAfter(line: Line, j: nat): nat
    requires j <= |line.attrs|
  {
    if j == 0 then 0 else line.attrs[j - 1].end
  }

  /// The section index after the first `j` ranges (0 before any range).
  function IndexAfter(line: Line, j: nat): nat
    requires j <= |line.attrs|
  {
    if j == 0 then 0 else line.attrs[j - 1].metadata
  }

  /// What range `j` appends to its section: the unstyled gap before it (styled
  /// like this range), the range's own text, and the line ending when the range
  /// reaches the end of the line.
  function RangePiece(line: Line, j: nat): Piece
    requires RangesInBounds(line) && j < |line.attrs|
  {
    var r := line.attrs[j];
    var pos := PosAfter(line, j);
    var gap := if pos < r.start then line.text[pos..r.start] else [];
    var ending := if r.end == |line.text| then line.ending else [];
    Piece(r.metadata, gap + line.text[r.start..r.end] + ending)
  }

  /// The pieces of the first `j` ranges, in order.
  function RangePieces(line: Line, j: nat): seq<Piece>
    requires RangesInBounds(line) && j <= |line.attrs|
  {
    if j == 0 then [] else RangePieces(line, j - 1) + [RangePiece(line, j - 1)]
  }

  /// The unstyled rest of the line after the last range (styled like the last
  /// range, or like section 0 when the line has no range), with the line ending.
  function TailPieces(line: Line): seq<Piece>
    requires RangesInBounds(line)
  {
    var n := |line.attrs|;
    var pos := PosAfter(line, n);
    if pos < |line.text| then [Piece(IndexAfter(line, n), line.text[pos..] + line.ending)] else []
  }

  /// All the pieces of one line, in the order they are appended.
  function LinePieces(line: Line): seq<Piece>
    requires RangesInBounds(line)
  {
    RangePieces(line, |line.attrs|) + TailPieces(line)
  }

  /// The pieces of each of the first `i` lines of a buffer.
  function LinesPieces(lines: BufferLines, i: nat): seq<seq<Piece>>
    requires i <= |lines|
  {
    if i == 0 then [] else LinesPieces(lines, i - 1) + [LinePieces(lines[i - 1])]
  }

  /// Several runs of pieces, one after the other.
  function Flatten(pss: seq<seq<Piece>>): seq<Piece> {
    if pss == [] then [] else Flatten(pss[..|pss| - 1]) + pss[|pss| - 1]
  }

  /// All the pieces of the first `i` lines of a buffer, in order.
  function BufferPieces(lines: BufferLines, i: nat): seq<Piece>
    requires i <= |lines|
  {
    Flatten(LinesPieces(lines, i))
  }

  /// The concatenated text of some pieces.
  function Concat(ps: seq<Piece>): string {
    if ps == [] then [] else Concat(ps[..|ps| - 1]) + ps[|ps| - 1].text
  }

  /// The concatenated text of the pieces bound for section `k`.
  function TextFor(ps: seq<Piece>, k: nat): string {
    if ps == [] then []
    else TextFor(ps[..|ps| - 1], k) + (if ps[|ps| - 1].index == k then ps[|ps| - 1].text else [])
  }

  // ---------------------------------------------------------------------
  // Accumulating pieces per section index
  // ---------------------------------------------------------------------

  /// The text of entry `k`, empty when there is none.
  function Lookup(acc: map<nat, string>, k: nat): string {
    if k in acc then acc[k] else []
  }

  /// `entry(index).or_default().push_str(text)`.
  function Push(acc: map<nat, string>, p: Piece): map<nat, string> {
    acc[p.index := (if p.index in acc then acc[p.index] else []) + p.text]
  }

  /// The scratch map after appending the pieces `ps` in order.
  function Accumulate(acc: map<nat, string>, ps: seq<Piece>): map<nat, string> {
    if ps == [] then acc else Push(Accumulate(acc, ps[..|ps| - 1]), ps[|ps| - 1])
  }

  // Proof plumbing: regrouping of string concatenation, used by the piece lemmas.
  lemma ConcatAssoc(a: string, b: string, c: string, d: string)
    ensures a + b + c + d == a + (b + c + d)
  {
  }

  /// The text the range loop builds for range `j`, step by step, is what
  /// pushing its piece appends.
  lemma PushRangePiece(line: Line, j: nat, prev: map<nat, string>, s1: string, s2: string, s: string)
    requires RangesInBounds(line) && j < |line.attrs|
    requires var r := line.attrs[j]; var pos := PosAfter(line, j);
      s1 == Lookup(prev, r.metadata) + (if pos < r.start then line.text[pos..r.start] else [])
    requires s2 == s1 + line.text[line.attrs[j].start..line.attrs[j].end]
    requires s == s2 + (if line.attrs[j].end == |line.text| then line.ending else [])
    ensures prev[line.attrs[j].metadata := s] == Push(prev, RangePiece(line, j))
  {
    var r := line.attrs[j];
    var pos := PosAfter(line, j);
    var gap := if pos < r.start then line.text[pos..r.start] else [];
    var ending := if r.end == |line.text| then line.ending else [];
    ConcatAssoc(Lookup(prev, r.metadata), gap, line.text[r.start..r.end], ending);
  }

  /// The text the tail step builds is what pushing the tail piece appends.
  lemma PushTailPiece(line: Line, prev: map<nat, string>, s: string)
    requires RangesInBounds(line)
    requires PosAfter(line, |line.attrs|) < |line.text|
    requires var pos := PosAfter(line, |line.attrs|);
      s == Lookup(prev, IndexAfter(line, |line.attrs|)) + line.text[pos..|line.text|] + line.ending
    ensures |TailPieces(line)| == 1
    ensures prev[IndexAfter(line, |line.attrs|) := s] == Push(prev, TailPieces(line)[0])
    ensures LinePieces(line) == RangePieces(line, |line.attrs|) + [TailPieces(line)[0]]
  {
    var pos := PosAfter(line, |line.attrs|);
    assert line.text[pos..|line.text|] == line.text[pos..];
    SeqAssoc(Lookup(prev, IndexAfter(line, |line.attrs|)), line.text[pos..], line.ending);
  }

  /// Appending one more piece is one more `Push`.
  lemma AccumulateSnoc(acc: map<nat, string>, ps: seq<Piece>, p: Piece)
    ensures Accumulate(acc, ps + [p]) == Push(Accumulate(acc, ps), p)
  {
    assert (ps + [p])[..|ps|] == ps;
  }

  /// Appending two runs of pieces is appending one after the other.
  lemma {:induction false} AccumulateAppend(acc: map<nat, string>, a: seq<Piece>, b: seq<Piece>)
    ensures Accumulate(acc, a + b) == Accumulate(Accumulate(acc, a), b)
  {
    if b == [] {
      assert a + b == a;
    } else {
      var n := |b| - 1;
      AccumulateAppend(acc, a, b[..n]);
      assert (a + b)[..|a + b| - 1] == a + b[..n];
    }
  }

  /// The scratch map gains exactly the indices of the pieces, and each entry is
  /// its old text followed by the texts of its pieces, in order.
  lemma {:induction false} AccumulateCollects(acc: map<nat, string>, ps: seq<Piece>)
    ensures Accumulate(acc, ps).Keys == acc.Keys + (set i | 0 <= i < |ps| :: ps[i].index)
    ensures forall k :: Lookup(Accumulate(acc, ps), k) == Lookup(acc, k) + TextFor(ps, k)
  {
    if ps != [] {
      var n := |ps| - 1;
      var init := ps[..n];
      AccumulateCollects(acc, init);
      var p := ps[n];
      forall k
        ensures Lookup(Accumulate(acc, ps), k) == Lookup(acc, k) + TextFor(ps, k)
      {
        assert TextFor(ps, k) == TextFor(init, k) + (if p.index == k then p.text else []);
        if p.index == k {
          SeqAssoc(Lookup(acc, k), TextFor(init, k), p.text);
        } else {
          assert TextFor(init, k) + [] == TextFor(init, k);
        }
      }
      assert (set i | 0 <= i < |ps| :: ps[i].index)
          == (set i | 0 <= i < |init| :: init[i].index) + {ps[n].index} by {
        forall i | 0 <= i < n ensures ps[i].index == init[i].index { }
      }
    }
  }

  // ---------------------------------------------------------------------
  // What the pieces of a line add up to
  // ---------------------------------------------------------------------

  /// Before range `j` of a well-formed line, the pieces so far are the line
  /// text up to the end of range `j - 1`, plus the line ending once that
  /// range reaches the end of the line.
  lemma {:induction false} RangePiecesConcat(line: Line, j: nat)
    requires WellFormedLine(line) && j <= |line.attrs|
    ensures PosAfter(line, j) <= |line.text|
    ensures Concat(RangePieces(line, j)) ==
      line.text[..PosAfter(line, j)] + (if j > 0 && PosAfter(line, j) == |line.text| then line.ending else [])
  {
    if j > 0 {
      var k := j - 1;
      RangePiecesConcat(line, k);
      var r := line.attrs[k];
      var pos := PosAfter(line, k);
      assert pos <= r.start < |line.text|;
      var a, g, m := line.text[..pos], line.text[pos..r.start], line.text[r.start..r.end];
      var ending := if r.end == |line.text| then line.ending else [];
      assert Concat(RangePieces(line, k)) == a by {
        assert a + [] == a;
      }
      var p := RangePiece(line, k);
      assert p.text == g + m + ending by {
        if pos == r.start {
          assert g == [];
          assert g + m == m;
        }
      }
      var ps := RangePieces(line, j);
      assert ps[..|ps| - 1] == RangePieces(line, k);
      assert Concat(ps) == a + p.text;
      ConcatAssoc(a, g, m, ending);
      SliceJoin(line.text, pos, r.start, r.end);
    }
  }

  /// A well-formed line with some text hands out exactly its text followed by
  /// its line ending, cut at range boundaries.
  lemma LinePiecesConcat(line: Line)
    requires WellFormedLine(line) && |line.text| > 0
    ensures Concat(LinePieces(line)) == line.text + line.ending
  {
    var n := |line.attrs|;
    RangePiecesConcat(line, n);
    var pos := PosAfter(line, n);
    var rs := RangePieces(line, n);
    if pos < |line.text| {
      var ps := rs + TailPieces(line);
      assert ps[..|ps| - 1] == rs;
      assert line.text[..pos] + line.text[pos..] == line.text;
    } else {
      assert rs + [] == rs;
      assert line.text[..pos] == line.text;
    }
  }

  /// A well-formed line with empty text hands out nothing, not even its line
  /// ending.
  lemma EmptyLineContributesNothing(line: Line)
    requires WellFormedLine(line)
    ensures line.text == [] ==> LinePieces(line) == []
  {
    if |line.attrs| > 0 {
      assert line.attrs[0].start < line.attrs[0].end;
    }
  }

  /// A line with text and no ranges goes, whole and with its ending, to section 0.
  lemma UntaggedLineGoesToSectionZero(line: Line)
    requires line.attrs == [] && |line.text| > 0
    ensures LinePieces(line) == [Piece(0, line.text + line.ending)]
  {
    assert line.text[0..] == line.text;
  }

  /// Every piece of a line is bound for the section of one of its ranges, or
  /// for section 0 when the line has no range.
  lemma LinePieceIndices(line: Line)
    requires RangesInBounds(line)
    ensures forall i :: 0 <= i < |LinePieces(line)| ==>
      (line.attrs == [] && LinePieces(line)[i].index == 0) ||
      (exists k :: 0 <= k < |line.attrs| && LinePieces(line)[i].index == line.attrs[k].metadata)
  {
    RangePieceIndices(line, |line.attrs|);
  }

  lemma {:induction false} RangePieceIndices(line: Line, j: nat)
    requires RangesInBounds(line) && j <= |line.attrs|
    ensures |RangePieces(line, j)| == j
    ensures forall i :: 0 <= i < |RangePieces(line, j)| ==> RangePieces(line, j)[i].index == line.attrs[i].metadata
  {
    if j > 0 {
      RangePieceIndices(line, j - 1);
    }
  }

  // ---------------------------------------------------------------------
  // Writing the accumulated texts back
  // ---------------------------------------------------------------------

  /// The scratch entries at indices `n` and above.
  function Leftover(acc: map<nat, string>, n: nat): map<nat, string> {
    map k | k in acc && k >= n :: acc[k]
  }

  /// The sections with every index that received text given that text.
  function Updated(sections: seq<Section>, acc: map<nat, string>): seq<Section> {
    seq(|sections|, i requires 0 <= i < |sections| =>
      if i in acc then sections[i].(value := acc[i]) else sections[i])
  }

  /// The indices below `n` that received no text, ascending.
  function MissingAsc(acc: map<nat, string>, n: nat): seq<nat> {
    if n == 0 then [] else MissingAsc(acc, n - 1) + (if n - 1 in acc then [] else [n - 1])
  }

  /// The indices below `n` that received no text, descending.
  function MissingDesc(acc: map<nat, string>, n: nat): seq<nat> {
    if n == 0 then [] else (if n - 1 in acc then [] else [n - 1]) + MissingDesc(acc, n - 1)
  }

  /// `Vec::reverse`.
  function Reversed<T>(s: seq<T>): seq<T> {
    if s == [] then [] else [s[|s| - 1]] + Reversed(s[..|s| - 1])
  }

  /// Reversing the ascending list of missing indices gives the descending one.
  lemma {:induction false} ReversedMissing(acc: map<nat, string>, n: nat)
    ensures Reversed(MissingAsc(acc, n)) == MissingDesc(acc, n)
  {
    if n > 0 {
      ReversedMissing(acc, n - 1);
      var a := MissingAsc(acc, n - 1);
      if n - 1 !in acc {
        assert (a + [n - 1])[..|a|] == a;
      } else {
        assert a + [] == a;
      }
    }
  }

  /// The first missing index below `lo` is the largest one: everything between
  /// it and `lo` received text, and the rest of the list is the missing
  /// indices below it.
  lemma {:induction false} MissingDescHead(acc: map<nat, string>, lo: nat)
    requires MissingDesc(acc, lo) != []
    ensures var h := MissingDesc(acc, lo)[0];
      && h < lo && h !in acc
      && (forall k :: h < k < lo ==> k in acc)
      && MissingDesc(acc, lo)[1..] == MissingDesc(acc, h)
  {
    if lo - 1 in acc {
      MissingDescHead(acc, lo - 1);
    }
  }

  /// No missing index below `lo` means every index below `lo` received text.
  lemma {:induction false} MissingDescEmpty(acc: map<nat, string>, lo: nat)
    requires MissingDesc(acc, lo) == []
    ensures forall k :: 0 <= k < lo ==> k in acc
  {
    if lo > 0 {
      MissingDescEmpty(acc, lo - 1);
    }
  }

  /// The updated sections at indices `lo` and above that received text, in order.
  function Surviving(u: seq<Section>, acc: map<nat, string>, lo: nat): seq<Section>
    requires lo <= |u|
    decreases |u| - lo
  {
    if lo == |u| then [] else (if lo in acc then [u[lo]] else []) + Surviving(u, acc, lo + 1)
  }

  /// Over a run of indices that all received text, nothing is dropped.
  lemma {:induction false} SurvivingRun(u: seq<Section>, acc: map<nat, string>, a: nat, b: nat)
    requires a <= b <= |u|
    requires forall k :: a <= k < b ==> k in acc
    ensures Surviving(u, acc, a) == u[a..b] + Surviving(u, acc, b)
    decreases b - a
  {
    if a < b {
      SurvivingRun(u, acc, a + 1, b);
      SurvivingKeep(u, acc, a);
      ConsSlice(u, a, b, Surviving(u, acc, b));
    }
  }

  lemma SurvivingKeep(u: seq<Section>, acc: map<nat, string>, a: nat)
    requires a < |u| && a in acc
    ensures Surviving(u, acc, a) == [u[a]] + Surviving(u, acc, a + 1)
  {
  }

  lemma ConsSlice<T>(u: seq<T>, a: nat, b: nat, rest: seq<T>)
    requires a < b <= |u|
    ensures [u[a]] + (u[a + 1..b] + rest) == u[a..b] + rest
  {
    assert u[a..b] == [u[a]] + u[a + 1..b];
  }

  /// Over a run of indices none of which received text, everything is dropped.
  lemma {:induction false} SurvivingNone(u: seq<Section>, acc: map<nat, string>, lo: nat)
    requires lo <= |u|
    requires forall k :: lo <= k < |u| ==> k !in acc
    ensures Surviving(u, acc, lo) == []
    decreases |u| - lo
  {
    if lo < |u| {
      SurvivingNone(u, acc, lo + 1);
    }
  }

  /// One step of the deletion pass, from the highest missing index `i` below
  /// `lo`: while more than one section is left, removing position `i` drops
  /// exactly the section at index `i`; otherwise `i` is 0, the one section
  /// left is the first one, and no section received text.
  lemma DeletionStep(u: seq<Section>, acc: map<nat, string>, lo: nat, secs: seq<Section>)
    requires lo <= |u| && MissingDesc(acc, lo) != []
    requires secs == u[..lo] + Surviving(u, acc, lo)
    ensures var i := MissingDesc(acc, lo)[0];
      && i < lo && i < |secs|
      && MissingDesc(acc, lo)[1..] == MissingDesc(acc, i)
      && (|secs| > 1 ==> secs[..i] + secs[i + 1..] == u[..i] + Surviving(u, acc, i))
      && (|secs| <= 1 ==> i == 0 && secs == [u[0]] && Surviving(u, acc, 0) == [])
  {
    var i := MissingDesc(acc, lo)[0];
    MissingDescHead(acc, lo);
    var tail := Surviving(u, acc, i + 1);
    DeletionShape(u, acc, lo, i);
    SurvivingSkip(u, acc, i);
    SplitAround(u[..i], u[i], tail);
    if |secs| <= 1 {
      SingleLeft(u[..i], u[i], tail);
    }
  }

  /// Around the highest missing index `i` below `lo`, the sections kept so far
  /// are those before `i`, the one at `i`, and the survivors above it.
  lemma DeletionShape(u: seq<Section>, acc: map<nat, string>, lo: nat, i: nat)
    requires i < lo <= |u|
    requires forall k :: i < k < lo ==> k in acc
    ensures u[..lo] + Surviving(u, acc, lo) == u[..i] + [u[i]] + Surviving(u, acc, i + 1)
  {
    SurvivingRun(u, acc, i + 1, lo);
    SliceAround(u, i, lo);
    SeqAssoc(u[..i] + [u[i]], u[i + 1..lo], Surviving(u, acc, lo));
  }

  lemma SurvivingSkip(u: seq<Section>, acc: map<nat, string>, i: nat)
    requires i < |u| && i !in acc
    ensures Surviving(u, acc, i) == Surviving(u, acc, i + 1)
  {
    assert Surviving(u, acc, i) == [] + Surviving(u, acc, i + 1);
  }

  // Proof plumbing: generic sequence facts used by the deletion-pass lemmas.
  lemma SingleLeft<T>(a: seq<T>, x: T, b: seq<T>)
    requires |a + [x] + b| <= 1
    ensures a == [] && b == [] && a + [x] + b == [x]
  {
  }

  lemma SliceJoin<T>(s: seq<T>, a: nat, b: nat, c: nat)
    requires a <= b <= c <= |s|
    ensures s[..a] + s[a..b] + s[b..c] == s[..c]
  {
  }

  /// Once no missing index is left below `lo`, the deletion pass has
  /// produced the written-back sections.
  lemma DeletionDone(sections: seq<Section>, acc: map<nat, string>, lo: nat, secs: seq<Section>)
    requires lo <= |sections| && MissingDesc(acc, lo) == []
    requires secs == Updated(sections, acc)[..lo] + Surviving(Updated(sections, acc), acc, lo)
    requires |sections| > 0 ==> |secs| > 0
    ensures secs == WrittenBack(sections, acc)
  {
    var u := Updated(sections, acc);
    MissingDescEmpty(acc, lo);
    SurvivingRun(u, acc, 0, lo);
    assert u[..lo] == u[0..lo];
  }

  /// When no section survives, the first one is the one left, emptied.
  lemma NothingSurvived(sections: seq<Section>, acc: map<nat, string>)
    requires |sections| > 0 && Surviving(Updated(sections, acc), acc, 0) == []
    ensures WrittenBack(sections, acc) == [Updated(sections, acc)[0].(value := [])]
  {
  }

  // Proof plumbing: generic sequence facts used by the deletion-pass and piece lemmas.
  lemma SeqAssoc<T>(a: seq<T>, b: seq<T>, c: seq<T>)
    ensures a + b + c == a + (b + c)
  {
  }

  lemma SliceAround<T>(u: seq<T>, i: nat, lo: nat)
    requires i < lo <= |u|
    ensures u[..lo] == u[..i] + [u[i]] + u[i + 1..lo]
  {
  }

  lemma SplitAround<T>(a: seq<T>, x: T, b: seq<T>)
    ensures |a + [x] + b| == |a| + 1 + |b|
    ensures (a + [x] + b)[..|a|] == a && (a + [x] + b)[|a| + 1..] == b
  {
    assert (a + [x] + b)[|a| + 1..] == b;
  }

  /// Every surviving section is a section at an index that received text,
  /// carrying that text and its own style.
  lemma {:induction false} SurvivingFrom(sections: seq<Section>, acc: map<nat, string>, lo: nat)
    requires lo <= |sections|
    ensures forall x :: x in Surviving(Updated(sections, acc), acc, lo) ==>
      exists i :: lo <= i < |sections| && i in acc && x == Section(acc[i], sections[i].style)
    decreases |sections| - lo
  {
    if lo < |sections| {
      SurvivingFrom(sections, acc, lo + 1);
    }
  }

  /// The sections after the write-back: the sections that received text, with
  /// that text, in order; or, when none did, the first section alone with
  /// empty text.
  function WrittenBack(sections: seq<Section>, acc: map<nat, string>): (r: seq<Section>)
    ensures |sections| > 0 ==> |r| >= 1
    ensures |sections| == 0 ==> r == []
  {
    var kept := Surviving(Updated(sections, acc), acc, 0);
    if kept == [] && |sections| > 0 then [sections[0].(value := [])] else kept
  }

  /// When every section received text, every section keeps its style and takes
  /// its new text.
  lemma WriteBackAllPresent(sections: seq<Section>, acc: map<nat, string>)
    requires forall i :: 0 <= i < |sections| ==> i in acc
    ensures |WrittenBack(sections, acc)| == |sections|
    ensures forall i :: 0 <= i < |sections| ==>
      WrittenBack(sections, acc)[i] == Section(acc[i], sections[i].style)
  {
    var u := Updated(sections, acc);
    SurvivingRun(u, acc, 0, |u|);
    assert u[0..|u|] + [] == u;
  }

  /// When no section received text, only the first one is left, emptied.
  lemma WriteBackNonePresent(sections: seq<Section>, acc: map<nat, string>)
    requires |sections| > 0
    requires forall i :: 0 <= i < |sections| ==> i !in acc
    ensures WrittenBack(sections, acc) == [Section([], sections[0].style)]
  {
    SurvivingNone(Updated(sections, acc), acc, 0);
  }

  /// Every section after the write-back comes from an original section and
  /// keeps its style; its text is what that section received, or empty.
  lemma WrittenBackFrom(sections: seq<Section>, acc: map<nat, string>)
    ensures forall x :: x in WrittenBack(sections, acc) ==>
      (exists i :: 0 <= i < |sections| && x.style == sections[i].style && x.value == Lookup(acc, i))
  {
    SurvivingFrom(sections, acc, 0);
    var kept := Surviving(Updated(sections, acc), acc, 0);
    forall x | x in WrittenBack(sections, acc)
      ensures exists i :: 0 <= i < |sections| && x.style == sections[i].style && x.value == Lookup(acc, i)
    {
      if kept == [] && |sections| > 0 {
        assert x == Section([], sections[0].style) && 0 !in acc;
        assert x.value == Lookup(acc, 0);
      } else {
        assert x in kept;
        var i :| 0 <= i < |sections| && i in acc && x == Section(acc[i], sections[i].style);
        assert x.style == sections[i].style;
      }
    }
  }

  // ---------------------------------------------------------------------
  // The system's two persistent scratch buffers
  // ---------------------------------------------------------------------

  /// The scratch map after appending several runs of pieces, run by run.
  function AccumulateRuns(acc: map<nat, string>, pss: seq<seq<Piece>>): map<nat, string> {
    if pss == [] then acc else Accumulate(AccumulateRuns(acc, pss[..|pss| - 1]), pss[|pss| - 1])
  }

  lemma AccumulateRunsSnoc(acc: map<nat, string>, pss: seq<seq<Piece>>, ps: seq<Piece>)
    ensures AccumulateRuns(acc, pss + [ps]) == Accumulate(AccumulateRuns(acc, pss), ps)
  {
    assert (pss + [ps])[..|pss|] == pss;
  }

  /// One line of the rebuild extends the run-by-run accumulation by that line.
  lemma RebuildStep(a0: map<nat, string>, lines: BufferLines, li: nat, before: map<nat, string>, after: map<nat, string>)
    requires li < |lines|
    requires before == AccumulateRuns(a0, LinesPieces(lines, li))
    requires after == Accumulate(before, LinePieces(lines[li]))
    ensures after == AccumulateRuns(a0, LinesPieces(lines, li + 1))
  {
    AccumulateRunsSnoc(a0, LinesPieces(lines, li), LinePieces(lines[li]));
  }

  /// Appending run by run is appending all the runs' pieces.
  lemma {:induction false} AccumulateRunsFlatten(acc: map<nat, string>, pss: seq<seq<Piece>>)
    ensures AccumulateRuns(acc, pss) == Accumulate(acc, Flatten(pss))
  {
    if pss != [] {
      var n := |pss| - 1;
      AccumulateRunsFlatten(acc, pss[..n]);
      AccumulateAppend(acc, Flatten(pss[..n]), pss[n]);
    }
  }

  /// The system's `Local` scratch state: indices of sections to delete, and the
  /// accumulated text per section index. Both persist between runs; the
  /// deletion list is always drained, the map keeps entries at indices the
  /// text had no section for.
  class KeyboardScratch {
    var deletion: seq<nat>
    var updates: map<nat, string>

    predicate Valid()
      reads this
    {
      deletion == []
    }

    constructor()
      ensures Valid() && updates == map[]
    {
      deletion := [];
      updates := map[];
    }

    /// Rebuilds the text from the lines: every piece of every line is appended,
    /// in order, to the scratch entry of its section index.
    method Rebuild(lines: BufferLines)
      modifies this`updates
      ensures updates == Accumulate(old(updates), BufferPieces(lines, |lines|))
    {
      var acc := AppendLines(updates, lines);
      AccumulateRunsFlatten(updates, LinesPieces(lines, |lines|));
      updates := acc;
    }

    /// The line loop of the rebuild, line by line.
    static method AppendLines(a0: map<nat, string>, lines: BufferLines) returns (acc: map<nat, string>)
      ensures acc == AccumulateRuns(a0, LinesPieces(lines, |lines|))
    {
      acc := a0;
      for li := 0 to |lines|
        invariant acc == AccumulateRuns(a0, LinesPieces(lines, li))
      {
        acc := AppendNextLine(a0, lines, li, acc);
      }
    }

    /// The body of the line loop: appends line `li` to the scratch map built
    /// from the lines before it.
    static method AppendNextLine(ghost a0: map<nat, string>, lines: BufferLines, li: nat, acc: map<nat, string>)
      returns (r: map<nat, string>)
      requires li < |lines| && acc == AccumulateRuns(a0, LinesPieces(lines, li))
      ensures r == AccumulateRuns(a0, LinesPieces(lines, li + 1))
    {
      r := AppendLine(acc, lines[li]);
      RebuildStep(a0, lines, li, acc, r);
    }

    /// One line of the rebuild: each range appends the gap before it, its
    /// text, and the line ending if it reaches the end of the line; the rest
    /// of the line after the last range goes with the ending to the last
    /// range's section (section 0 when there is none).
    static method AppendLine(acc: map<nat, string>, line: Line) returns (r: map<nat, string>)
      requires RangesInBounds(line)
      ensures r == Accumulate(acc, LinePieces(line))
    {
      var text := line.text;
      var len := |text|;
      var pos, index;
      r, pos, index := AppendRanges(acc, line);
      if pos < len {
        ghost var prev := r;
        var s := if index in r then r[index] else [];
        s := s + text[pos..len];
        s := s + line.ending;
        r := r[index := s];
        PushTailPiece(line, prev, s);
        AccumulateSnoc(acc, RangePieces(line, |line.attrs|), TailPieces(line)[0]);
      } else {
        assert TailPieces(line) == [];
        assert LinePieces(line) == RangePieces(line, |line.attrs|);
      }
    }

    /// The range loop of one line: returns the position after the last range
    /// and the section index of the last range (0 when there is none).
    static method AppendRanges(acc: map<nat, string>, line: Line) returns (r: map<nat, string>, pos: nat, index: nat)
      requires RangesInBounds(line)
      ensures pos == PosAfter(line, |line.attrs|) && index == IndexAfter(line, |line.attrs|)
      ensures r == Accumulate(acc, RangePieces(line, |line.attrs|))
    {
      r, pos, index := acc, 0, 0;
      for j := 0 to |line.attrs|
        invariant pos == PosAfter(line, j) && index == IndexAfter(line, j)
        invariant r == Accumulate(acc, RangePieces(line, j))
      {
        r, pos, index := AppendNextRange(acc, line, j, r, pos);
      }
    }

    /// The body of the range loop: appends range `j` to the scratch map
    /// built from the ranges before it.
    static method AppendNextRange(ghost a0: map<nat, string>, line: Line, j: nat, acc: map<nat, string>, pos: nat)
      returns (r: map<nat, string>, next: nat, index: nat)
      requires RangesInBounds(line) && j < |line.attrs| && pos == PosAfter(line, j)
      requires acc == Accumulate(a0, RangePieces(line, j))
      ensures next == PosAfter(line, j + 1) && index == IndexAfter(line, j + 1)
      ensures r == Accumulate(a0, RangePieces(line, j + 1))
    {
      r, next, index := AppendRange(acc, line, j, pos);
      AccumulateSnoc(a0, RangePieces(line, j), RangePiece(line, j));
    }

    /// One range of a line, reached at position `pos`: the gap before it
    /// and its text go to its section, followed by the line ending if the
    /// range reaches the end of the line.
    static method AppendRange(acc: map<nat, string>, line: Line, j: nat, pos: nat)
      returns (r: map<nat, string>, next: nat, index: nat)
      requires RangesInBounds(line) && j < |line.attrs| && pos == PosAfter(line, j)
      ensures next == PosAfter(line, j + 1) && index == IndexAfter(line, j + 1)
      ensures r == Push(acc, RangePiece(line, j))
    {
      var text := line.text;
      var range := line.attrs[j];
      index := range.metadata;
      var s := if index in acc then acc[index] else [];
      if pos < range.start {
        s := s + text[pos..range.start];
      } else {
        assert s + [] == s;
      }
      ghost var s1 := s;
      s := s + text[range.start..range.end];
      next := range.end;
      ghost var s2 := s;
      if next == |text| {
        s := s + line.ending;
      } else {
        assert s2 + [] == s2;
      }
      PushRangePiece(line, j, acc, s1, s2, s);
      r := acc[index := s];
    }

    /// Writes the accumulated texts back over `sections`: each section whose
    /// index has an entry takes it (the entry is removed); the others are
    /// removed from the highest index down, but the last remaining section
    /// is emptied instead of removed. Entries at indices past the sections stay.
    method WriteBack(sections: seq<Section>) returns (r: seq<Section>)
      requires Valid()
      modifies this
      ensures Valid()
      ensures updates == Leftover(old(updates), |sections|)
      ensures r == WrittenBack(sections, old(updates))
    {
      ghost var a0 := updates;
      var secs := TakeUpdates(sections);
      ReversedMissing(a0, |sections|);
      deletion := Reversed(deletion);
      r := DrainDeletions(sections, a0, secs);
    }

    /// The first pass: every section whose index has an entry takes its text
    /// and the entry is removed; the other indices are listed, ascending.
    method TakeUpdates(sections: seq<Section>) returns (secs: seq<Section>)
      requires Valid()
      modifies this
      ensures updates == Leftover(old(updates), |sections|)
      ensures deletion == MissingAsc(old(updates), |sections|)
      ensures secs == Updated(sections, old(updates))
    {
      var rest, missing;
      secs, rest, missing := TakeAll(sections, updates);
      updates, deletion := rest, missing;
    }

    /// The loop of the first pass, on the scratch map `a0`: returns the
    /// updated sections, the entries left over and the missing indices.
    static method TakeAll(sections: seq<Section>, a0: map<nat, string>)
      returns (secs: seq<Section>, rest: map<nat, string>, missing: seq<nat>)
      ensures rest == Leftover(a0, |sections|)
      ensures missing == MissingAsc(a0, |sections|)
      ensures secs == Updated(sections, a0)
    {
      secs, rest, missing := sections, a0, [];
      for i := 0 to |sections|
        invariant TakenUpTo(sections, a0, i, secs, rest, missing)
      {
        secs, rest, missing := TakeOne(sections, a0, i, secs, rest, missing);
      }
    }

    /// The state of the first pass after the indices below `i`.
    static ghost predicate TakenUpTo(sections: seq<Section>, a0: map<nat, string>, i: nat,
                                     secs: seq<Section>, rest: map<nat, string>, missing: seq<nat>)
    {
      && |secs| == |sections|
      && (forall k :: 0 <= k < i && k < |sections| ==> secs[k] == Updated(sections, a0)[k])
      && (forall k :: i <= k < |sections| ==> secs[k] == sections[k])
      && rest == Leftover(a0, i)
      && missing == MissingAsc(a0, i)
    }

    /// The body of the first pass, at index `i`.
    static method TakeOne(ghost sections: seq<Section>, ghost a0: map<nat, string>, i: nat,
                          secs0: seq<Section>, rest0: map<nat, string>, missing0: seq<nat>)
      returns (secs: seq<Section>, rest: map<nat, string>, missing: seq<nat>)
      requires i < |sections| && TakenUpTo(sections, a0, i, secs0, rest0, missing0)
      ensures TakenUpTo(sections, a0, i + 1, secs, rest, missing)
    {
      secs, rest, missing := secs0, rest0, missing0;
      if i in rest {
        secs := secs[i := secs[i].(value := rest[i])];
      } else {
        missing := missing + [i];
      }
      rest := rest - {i};
      assert rest == Leftover(a0, i + 1);
    }

    /// The state of the second pass after `t` of the missing indices `ds`:
    /// either the sections below `lo` and the survivors above it are left,
    /// or every index is done and the first section alone is left, emptied.
    static ghost predicate Draining(u: seq<Section>, a0: map<nat, string>, ds: seq<nat>, t: nat,
                                    lo: nat, cleared: bool, secs: seq<Section>)
    {
      && t <= |ds| && lo <= |u|
      && (|u| > 0 ==> |secs| > 0)
      && (!cleared ==> ds[t..] == MissingDesc(a0, lo) && secs == u[..lo] + Surviving(u, a0, lo))
      && (cleared ==> t == |ds| && |u| > 0 && Surviving(u, a0, 0) == [] && secs == [u[0].(value := [])])
    }

    /// The body of the second pass, at the `t`-th missing index.
    static method DeleteOne(ghost u: seq<Section>, ghost a0: map<nat, string>, ds: seq<nat>, t: nat,
                            ghost lo0: nat, secs0: seq<Section>)
      returns (secs: seq<Section>, ghost lo: nat, ghost cleared: bool)
      requires t < |ds| && Draining(u, a0, ds, t, lo0, false, secs0)
      ensures Draining(u, a0, ds, t + 1, lo, cleared, secs)
    {
      var i := ds[t];
      DeletionStep(u, a0, lo0, secs0);
      assert ds[t + 1..] == MissingDesc(a0, i);
      secs, cleared := secs0, false;
      if |secs| > 1 {
        secs := secs[..i] + secs[i + 1..];
      } else {
        secs := secs[0 := secs[0].(value := [])];
        cleared := true;
      }
      lo := i;
    }

    /// The second pass, over the missing indices from the highest down: each
    /// is removed while more than one section is left; the last one left is
    /// emptied instead. The list is drained.
    method DrainDeletions(ghost sections: seq<Section>, ghost a0: map<nat, string>, secs0: seq<Section>)
      returns (secs: seq<Section>)
      requires deletion == MissingDesc(a0, |sections|)
      requires secs0 == Updated(sections, a0)
      modifies this`deletion
      ensures deletion == []
      ensures secs == WrittenBack(sections, a0)
    {
      ghost var u := secs0;
      secs := secs0;
      var ds := deletion;
      ghost var lo: nat := |u|;
      ghost var cleared := false;
      assert secs == u[..lo] + Surviving(u, a0, lo);
      for t := 0 to |ds|
        invariant Draining(u, a0, ds, t, lo, cleared, secs)
      {
        secs, lo, cleared := DeleteOne(u, a0, ds, t, lo, secs);
      }
      deletion := [];
      if cleared {
        NothingSurvived(sections, a0);
      } else {
        DeletionDone(sections, a0, lo, secs);
      }
    }
  }
}
