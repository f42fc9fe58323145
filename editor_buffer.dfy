/// What the editor example sees of the shaping engine's buffer: lines of
/// text, each with its ending and its attribute ranges, every range tagged
/// with the index of the text section it came from; and the cursor.
module EditorBuffer {

  /// A cursor: a line and a byte offset within it.
  datatype Cursor = Cursor(line: nat, index: nat)

  /// The cursor an editor starts from when none was stored.
  const DefaultCursor: Cursor := Cursor(0, 0)

  /// An attribute range `start..end` of a line; `metadata` is the index of the
  /// text section the range's style came from.
  datatype AttrRange = AttrRange(start: nat, end: nat, metadata: nat)

  /// One buffer line: its text, its line ending, and its attribute ranges in order.
  datatype Line = Line(text: string, ending: string, attrs: seq<AttrRange>)

  /// Every range can be sliced out of the line text: `start <= end <= len`.
  predicate RangesInBounds(line: Line) {
    forall k :: 0 <= k < |line.attrs| ==> line.attrs[k].start <= line.attrs[k].end <= |line.text|
  }

  /// A buffer's lines, every one of whose attribute ranges lies within its line.
  type BufferLines = lines: seq<Line> | forall i :: 0 <= i < |lines| ==> RangesInBounds(lines[i])
    witness []

  /// The shape the shaping engine gives a line's ranges: in bounds, non-empty,
  /// sorted and non-overlapping.
  predicate WellFormedLine(line: Line) {
    && RangesInBounds(line)
    && (forall k :: 0 <= k < |line.attrs| ==> line.attrs[k].start < line.attrs[k].end)
    && (forall k :: 0 <= k < |line.attrs| - 1 ==> line.attrs[k].end <= line.attrs[k + 1].start)
  }
}
