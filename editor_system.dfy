/// The keyboard system of the editor example (examples/editor.rs,
/// `listen_keyboard_input_events`): for every pressed key, every editor entity
/// applies the key's actions to its shaping buffer, rebuilds its text
/// sections from the edited buffer, and stores its new cursor.
///
/// The shaping engine's edit (`Editor::action`) is not modelled: it is the
/// parameter `edit`, any function from a buffer, a cursor and an action to
/// the edited buffer and the moved cursor.
module EditorSystem {
  import opened Host
  import opened EditorBuffer
  import opened EditorKeys
  import opened LineReconcile

  /// The editor state component: the cursor to restore, once there is one.
  datatype EditorState = EditorState(cursor: Option<Cursor>)

  /// One editor entity: its shaping buffer's lines, its text sections and its state.
  datatype EditorEntity = EditorEntity(lines: BufferLines, sections: seq<Section>, state: EditorState)

  /// The shaping engine's edit action.
  type EditFn = (BufferLines, Cursor, Action) -> (BufferLines, Cursor)

  /// The buffer and cursor after applying `actions` in order.
  function ApplyActions(edit: EditFn, lines: BufferLines, cursor: Cursor, actions: seq<Action>): (BufferLines, Cursor) {
    if actions == [] then (lines, cursor)
    else
      var (l, c) := ApplyActions(edit, lines, cursor, actions[..|actions| - 1]);
      edit(l, c, actions[|actions| - 1])
  }

  /// One entity's response to a dispatched key, together with the scratch map
  /// the next entity starts from: the edited buffer, the sections rebuilt from
  /// it and written back, and the moved cursor stored as its state.
  function StepEntity(edit: EditFn, acc: map<nat, string>, e: EditorEntity, actions: seq<Action>)
    : (EditorEntity, map<nat, string>)
  {
    var (lines, cursor) := ApplyActions(edit, e.lines, e.state.cursor.GetOr(DefaultCursor), actions);
    var collected := Accumulate(acc, BufferPieces(lines, |lines|));
    (EditorEntity(lines, WrittenBack(e.sections, collected), EditorState(Some(cursor))),
     Leftover(collected, |e.sections|))
  }

  /// One entity's response to a pressed key: nothing at all when the key
  /// dispatches to nothing, otherwise `StepEntity`.
  function Respond(edit: EditFn, acc: map<nat, string>, e: EditorEntity, event: KeyboardInput)
    : (EditorEntity, map<nat, string>)
  {
    match Dispatch(event)
    case None => (e, acc)
    case Some(actions) => StepEntity(edit, acc, e, actions)
  }

  /// How one entity responds: from the scratch map and the entity to the
  /// updated entity and the scratch map the next entity starts from.
  type Responder = (map<nat, string>, EditorEntity) -> (EditorEntity, map<nat, string>)

  /// The entities updated one after the other, in query order, threading the
  /// scratch map from entity to entity.
  function Fold(f: Responder, acc: map<nat, string>, es: seq<EditorEntity>): (seq<EditorEntity>, map<nat, string>) {
    if es == [] then ([], acc)
    else
      var (front, acc1) := Fold(f, acc, es[..|es| - 1]);
      var (last, acc2) := f(acc1, es[|es| - 1]);
      (front + [last], acc2)
  }

  /// Every entity's response to one pressed key, in query order.
  function RespondAll(edit: EditFn, acc: map<nat, string>, es: seq<EditorEntity>, event: KeyboardInput)
    : (seq<EditorEntity>, map<nat, string>)
  {
    Fold((a, e) => Respond(edit, a, e, event), acc, es)
  }

  /// The entities and scratch map after a run of keyboard events; releases
  /// are skipped.
  function HandleEvents(edit: EditFn, acc: map<nat, string>, es: seq<EditorEntity>, events: seq<KeyboardInput>)
    : (seq<EditorEntity>, map<nat, string>)
  {
    if events == [] then (es, acc)
    else
      var (es1, acc1) := HandleEvents(edit, acc, es, events[..|events| - 1]);
      var event := events[|events| - 1];
      if event.state == Released then (es1, acc1) else RespondAll(edit, acc1, es1, event)
  }

  /// The editor entities of the world, in query order.
  class EditorWorld {
    var entities: seq<EditorEntity>

    constructor(entities: seq<EditorEntity>)
      ensures this.entities == entities
    {
      this.entities := entities;
    }
  }

  /// Applies `actions` in order to the buffer and cursor.
  method ApplyEdits(edit: EditFn, lines0: BufferLines, cursor0: Cursor, actions: seq<Action>)
    returns (lines: BufferLines, cursor: Cursor)
    ensures (lines, cursor) == ApplyActions(edit, lines0, cursor0, actions)
  {
    lines, cursor := lines0, cursor0;
    for i := 0 to |actions|
      invariant (lines, cursor) == ApplyActions(edit, lines0, cursor0, actions[..i])
    {
      assert actions[..i + 1][..i] == actions[..i];
      var next := edit(lines, cursor, actions[i]);
      lines, cursor := next.0, next.1;
    }
    assert actions[..|actions|] == actions;
  }

  /// One entity's response to a dispatched key: restore the stored cursor
  /// (the engine's default cursor when there is none), apply the actions,
  /// rebuild the sections from the edited lines, and store the new cursor.
  method UpdateEntity(scratch: KeyboardScratch, edit: EditFn, e: EditorEntity, actions: seq<Action>)
    returns (r: EditorEntity)
    requires scratch.Valid()
    modifies scratch
    ensures scratch.Valid()
    ensures (r, scratch.updates) == StepEntity(edit, old(scratch.updates), e, actions)
  {
    var cursor := DefaultCursor;
    if e.state.cursor.Some? {
      cursor := e.state.cursor.value;
    }
    var lines;
    lines, cursor := ApplyEdits(edit, e.lines, cursor, actions);
    var newState := EditorState(Some(cursor));
    scratch.Rebuild(lines);
    var sections := scratch.WriteBack(e.sections);
    r := EditorEntity(lines, sections, newState);
  }

  /// Reads the keyboard events in order; a release is skipped, and for a
  /// press every entity, in query order, skips the key if it dispatches to
  /// nothing and otherwise responds to it.
  method ListenKeyboardInputEvents(world: EditorWorld, scratch: KeyboardScratch, edit: EditFn,
                                   events: seq<KeyboardInput>)
    requires scratch.Valid()
    modifies world, scratch
    ensures scratch.Valid()
    ensures (world.entities, scratch.updates) == HandleEvents(edit, old(scratch.updates), old(world.entities), events)
  {
    for n := 0 to |events|
      invariant scratch.Valid()
      invariant (world.entities, scratch.updates) ==
        HandleEvents(edit, old(scratch.updates), old(world.entities), events[..n])
    {
      assert events[..n + 1][..n] == events[..n];
      var event := events[n];
      if event.state == Released {
        continue;
      }
      HandleKey(world, scratch, edit, event);
    }
    assert events[..|events|] == events;
  }

  /// One pressed key, entity by entity, in query order.
  method HandleKey(world: EditorWorld, scratch: KeyboardScratch, edit: EditFn, event: KeyboardInput)
    requires scratch.Valid()
    modifies world, scratch
    ensures scratch.Valid()
    ensures (world.entities, scratch.updates) == RespondAll(edit, old(scratch.updates), old(world.entities), event)
  {
    ghost var es := world.entities;
    ghost var acc := scratch.updates;
    ghost var f: Responder := (a, e) => Respond(edit, a, e, event);
    var entities := world.entities;
    for k := 0 to |entities|
      invariant scratch.Valid()
      invariant |entities| == |es|
      invariant entities == Fold(f, acc, es[..k]).0 + es[k..]
      invariant scratch.updates == Fold(f, acc, es[..k]).1
    {
      FoldStep(f, acc, es, k);
      var e := RespondToKey(scratch, edit, entities[k], event);
      entities := entities[k := e];
    }
    FoldDone(f, acc, es);
    world.entities := entities;
  }

  /// One entity and one pressed key: skipped when the key dispatches to
  /// nothing, otherwise the entity responds.
  method RespondToKey(scratch: KeyboardScratch, edit: EditFn, e: EditorEntity, event: KeyboardInput)
    returns (r: EditorEntity)
    requires scratch.Valid()
    modifies scratch
    ensures scratch.Valid()
    ensures (r, scratch.updates) == Respond(edit, old(scratch.updates), e, event)
  {
    var actions := Dispatch(event);
    if actions.None? {
      return e;
    }
    r := UpdateEntity(scratch, edit, e, actions.value);
  }

  // ---------------------------------------------------------------------
  // Properties
  // ---------------------------------------------------------------------

  /// No entity is added or lost.
  lemma {:induction false} FoldLength(f: Responder, acc: map<nat, string>, es: seq<EditorEntity>)
    ensures |Fold(f, acc, es).0| == |es|
  {
    if es != [] {
      FoldLength(f, acc, es[..|es| - 1]);
    }
  }

  /// Entity `k` is the next one reached: the first `k + 1` results are the
  /// first `k` and entity `k`'s response, and replacing entity `k` in the
  /// partly updated list extends the prefix by one.
  lemma FoldStep(f: Responder, acc: map<nat, string>, es: seq<EditorEntity>, k: nat)
    requires k < |es|
    ensures |Fold(f, acc, es[..k]).0| == k
    ensures var (front, acc1) := Fold(f, acc, es[..k]);
      var (e, acc2) := f(acc1, es[k]);
      && (front + es[k..])[k] == es[k]
      && Fold(f, acc, es[..k + 1]) == (front + [e], acc2)
      && (front + es[k..])[k := e] == front + [e] + es[k + 1..]
  {
    FoldLength(f, acc, es[..k]);
    assert es[..k + 1][..k] == es[..k];
    var front := Fold(f, acc, es[..k]).0;
    var e := f(Fold(f, acc, es[..k]).1, es[k]).0;
    assert (front + es[k..])[k := e] == front + [e] + es[k + 1..];
  }

  /// Once every entity was reached, the list is the results.
  lemma FoldDone(f: Responder, acc: map<nat, string>, es: seq<EditorEntity>)
    ensures Fold(f, acc, es[..|es|]).0 + es[|es|..] == Fold(f, acc, es).0
    ensures Fold(f, acc, es[..|es|]).1 == Fold(f, acc, es).1
  {
    assert es[..|es|] == es;
    assert Fold(f, acc, es).0 + [] == Fold(f, acc, es).0;
  }

  /// Result `k` is entity `k`'s response to the scratch map the entities
  /// before it left.
  lemma {:induction false} FoldAt(f: Responder, acc: map<nat, string>, es: seq<EditorEntity>, k: nat)
    requires k < |es|
    ensures |Fold(f, acc, es).0| == |es|
    ensures Fold(f, acc, es).0[k] == f(Fold(f, acc, es[..k]).1, es[k]).0
  {
    FoldLength(f, acc, es);
    var n := |es| - 1;
    if k < n {
      FoldAt(f, acc, es[..n], k);
      FoldLength(f, acc, es[..n]);
      assert es[..n][..k] == es[..k];
    }
  }

  /// A response that changes nothing leaves every entity and the map alone.
  lemma {:induction false} FoldUnchanged(f: Responder, acc: map<nat, string>, es: seq<EditorEntity>)
    requires forall a, e :: f(a, e) == (e, a)
    ensures Fold(f, acc, es) == (es, acc)
  {
    if es != [] {
      FoldUnchanged(f, acc, es[..|es| - 1]);
      assert es[..|es| - 1] + [es[|es| - 1]] == es;
    }
  }

  /// A key that dispatches to nothing leaves every entity and the scratch map alone.
  lemma IgnoredKeyChangesNothing(edit: EditFn, acc: map<nat, string>, es: seq<EditorEntity>, event: KeyboardInput)
    requires Dispatch(event).None?
    ensures RespondAll(edit, acc, es, event) == (es, acc)
  {
    FoldUnchanged((a, e) => Respond(edit, a, e, event), acc, es);
  }

  /// A key that dispatches to actions reaches every entity: each keeps the
  /// buffer and cursor the actions produced from its stored cursor (the
  /// default one when none was stored), stores that cursor, and keeps at
  /// least one section if it had one.
  lemma DispatchedKeyReachesAll(edit: EditFn, acc: map<nat, string>, es: seq<EditorEntity>, event: KeyboardInput)
    requires Dispatch(event).Some?
    ensures |RespondAll(edit, acc, es, event).0| == |es|
    ensures forall k :: 0 <= k < |es| ==> Responded(edit, es[k], RespondAll(edit, acc, es, event).0[k], Dispatch(event).value)
  {
    var f: Responder := (a, e) => Respond(edit, a, e, event);
    FoldLength(f, acc, es);
    forall k | 0 <= k < |es|
      ensures Responded(edit, es[k], Fold(f, acc, es).0[k], Dispatch(event).value)
    {
      FoldAt(f, acc, es, k);
      StepEntityResponds(edit, Fold(f, acc, es[..k]).1, es[k], Dispatch(event).value);
    }
  }

  /// An entity that responds to actions is left `Responded`.
  lemma StepEntityResponds(edit: EditFn, acc: map<nat, string>, e: EditorEntity, actions: seq<Action>)
    ensures Responded(edit, e, StepEntity(edit, acc, e, actions).0, actions)
  {
  }

  /// `r` is how entity `e` stands after responding to `actions`.
  predicate Responded(edit: EditFn, e: EditorEntity, r: EditorEntity, actions: seq<Action>) {
    && r.state.cursor.Some?
    && (r.lines, r.state.cursor.value) == ApplyActions(edit, e.lines, e.state.cursor.GetOr(DefaultCursor), actions)
    && (|e.sections| > 0 ==> |r.sections| > 0)
  }

  /// A run of events never adds or loses an editor entity.
  lemma {:induction false} HandleEventsKeepsEntities(edit: EditFn, acc: map<nat, string>, es: seq<EditorEntity>,
                                                     events: seq<KeyboardInput>)
    ensures |HandleEvents(edit, acc, es, events).0| == |es|
  {
    if events != [] {
      HandleEventsKeepsEntities(edit, acc, es, events[..|events| - 1]);
      var (es1, acc1) := HandleEvents(edit, acc, es, events[..|events| - 1]);
      FoldLength((a, e) => Respond(edit, a, e, events[|events| - 1]), acc1, es1);
    }
  }

  /// Released keys, modifier keys, tab and unmapped keys change nothing.
  lemma SkippedEventChangesNothing(edit: EditFn, acc: map<nat, string>, es: seq<EditorEntity>,
                                   events: seq<KeyboardInput>, event: KeyboardInput)
    requires event.state == Released || Ignored(event.key)
    ensures HandleEvents(edit, acc, es, events + [event]) == HandleEvents(edit, acc, es, events)
  {
    assert (events + [event])[..|events|] == events;
    var (es1, acc1) := HandleEvents(edit, acc, es, events);
    if event.state != Released {
      IgnoredKeyChangesNothing(edit, acc1, es1, event);
    }
  }

  /// After a key press that dispatches to actions, every entity has a cursor
  /// stored, the one the actions moved it to.
  lemma DispatchedEventStoresCursors(edit: EditFn, acc: map<nat, string>, es: seq<EditorEntity>,
                                     events: seq<KeyboardInput>, event: KeyboardInput)
    requires Dispatch(event).Some?
    ensures var (es1, _) := HandleEvents(edit, acc, es, events);
      var (es2, _) := HandleEvents(edit, acc, es, events + [event]);
      |es2| == |es1| &&
      forall k :: 0 <= k < |es1| ==> Responded(edit, es1[k], es2[k], Dispatch(event).value)
  {
    assert (events + [event])[..|events|] == events;
    var (es1, acc1) := HandleEvents(edit, acc, es, events);
    DispatchedKeyReachesAll(edit, acc1, es1, event);
  }
}
