/// Key dispatch of the editor example: which editor actions a keyboard event
/// asks for (examples/editor.rs, `listen_keyboard_input_events`).
module EditorKeys {
  import opened Host

  /// The logical keys the dispatch distinguishes; every other key is `Unmapped`.
  datatype Key =
    | Character(chars: string)
    | Enter | Space | Backspace | Delete
    | Control | Shift | Tab
    | ArrowDown | ArrowLeft | ArrowRight | ArrowUp
    | End | Home | PageDown | PageUp
    | Unmapped(code: nat)

  datatype ButtonState = Pressed | Released

  datatype KeyboardInput = KeyboardInput(key: Key, state: ButtonState)

  /// Cursor motions of the shaping engine's editor.
  datatype Motion = Down | Left | Right | Up | End | Home | PageDown | PageUp

  /// Edit actions of the shaping engine's editor.
  datatype Action = Insert(c: char) | Enter | Backspace | Delete | Motion(motion: Motion)

  /// One `Insert` per character of `s`, in order.
  function Inserts(s: string): seq<Action> {
    if s == [] then [] else Inserts(s[..|s| - 1]) + [Insert(s[|s| - 1])]
  }

  /// The characters a sequence of actions inserts, in order.
  function InsertedText(actions: seq<Action>): string {
    if actions == [] then []
    else
      var a := actions[|actions| - 1];
      InsertedText(actions[..|actions| - 1]) + (if a.Insert? then [a.c] else [])
  }

  /// The keys the dispatch ignores (it logs them and moves on).
  predicate Ignored(key: Key) {
    key.Control? || key.Shift? || key.Tab? || key.Unmapped?
  }

  /// The actions a key event asks for, or `None` when the event is skipped:
  /// a release, or a key the dispatch ignores. A skipped event applies no
  /// action, rebuilds no text and stores no editor state.
  function Dispatch(event: KeyboardInput): (r: Option<seq<Action>>)
    ensures r.None? <==> event.state == Released || Ignored(event.key)
    ensures r.Some? && event.key.Character? ==> InsertedText(r.value) == event.key.chars
    ensures r.Some? && event.key.Character? ==> |r.value| == |event.key.chars|
    ensures r.Some? && !event.key.Character? ==> |r.value| == 1
    ensures r.Some? && event.key.Space? ==> r.value == [Insert(' ')]
    ensures r.Some? && event.key.Enter? ==> r.value == [Action.Enter]
    ensures r.Some? && event.key.Backspace? ==> r.value == [Action.Backspace]
    ensures r.Some? && event.key.Delete? ==> r.value == [Action.Delete]
    ensures r.Some? && event.key.ArrowDown? ==> r.value == [Motion(Down)]
    ensures r.Some? && event.key.ArrowLeft? ==> r.value == [Motion(Left)]
    ensures r.Some? && event.key.ArrowRight? ==> r.value == [Motion(Right)]
    ensures r.Some? && event.key.ArrowUp? ==> r.value == [Motion(Up)]
    ensures r.Some? && event.key.End? ==> r.value == [Motion(Motion.End)]
    ensures r.Some? && event.key.Home? ==> r.value == [Motion(Motion.Home)]
    ensures r.Some? && event.key.PageDown? ==> r.value == [Motion(Motion.PageDown)]
    ensures r.Some? && event.key.PageUp? ==> r.value == [Motion(Motion.PageUp)]
  {
    if event.state == Released then None
    else match event.key
      case Character(s) => InsertsRoundTrip(s); Some(Inserts(s))
      case Enter => Some([Action.Enter])
      case Space => Some([Insert(' ')])
      case Backspace => Some([Action.Backspace])
      case Delete => Some([Action.Delete])
      case Control => None
      case Shift => None
      case Tab => None
      case ArrowDown => Some([Motion(Down)])
      case ArrowLeft => Some([Motion(Left)])
      case ArrowRight => Some([Motion(Right)])
      case ArrowUp => Some([Motion(Up)])
      case End => Some([Motion(Motion.End)])
      case Home => Some([Motion(Motion.Home)])
      case PageDown => Some([Motion(Motion.PageDown)])
      case PageUp => Some([Motion(Motion.PageUp)])
      case Unmapped(_) => None
  }

  /// A `Character` key inserts exactly its characters, one action each, in order.
  lemma InsertsRoundTrip(s: string)
    ensures |Inserts(s)| == |s|
    ensures forall i :: 0 <= i < |s| ==> Inserts(s)[i] == Insert(s[i])
    ensures InsertedText(Inserts(s)) == s
  {
    InsertsAt(s);
    InsertedTextOfInserts(s);
  }

  lemma {:induction false} InsertsAt(s: string)
    ensures |Inserts(s)| == |s|
    ensures forall i :: 0 <= i < |s| ==> Inserts(s)[i] == Insert(s[i])
  {
    if s != [] {
      InsertsAt(s[..|s| - 1]);
    }
  }

  lemma {:induction false} InsertedTextOfInserts(s: string)
    ensures InsertedText(Inserts(s)) == s
  {
    if s != [] {
      var n := |s| - 1;
      InsertedTextOfInserts(s[..n]);
      var a := Inserts(s[..n]) + [Insert(s[n])];
      assert a[..|a| - 1] == Inserts(s[..n]);
      assert s[..n] + [s[n]] == s;
    }
  }
}
