/// The span aggregation synchroniser (`update_parent` in src/lib.rs).
///
/// An aggregate ("text parent") is rendered from the span entities below it.
/// Each pass collects the aggregates that became dirty: the parent of every
/// changed span, and every aggregate whose set of children changed. It clears
/// each dirty aggregate's flat text and refills it from its descendants in the
/// host's traversal order. A descendant without span data and a dirty entity
/// that is not a text parent are reported, and the pass carries on.
module SpanSync {
  import opened Host

  /// An integrity error that the pass logs and then carries on from.
  datatype Report = MissingSpan(child: Entity, parent: Entity) | MissingText(parent: Entity)

  /// The flat text that a traversal `desc` of descendants yields: one section
  /// per descendant with span data, in traversal order; nothing for the others.
  function Collect(desc: seq<Entity>, spans: map<Entity, Section>): seq<Section>
  {
    if desc == [] then []
    else
      var last := desc[|desc| - 1];
      Collect(desc[..|desc| - 1], spans) + (if last in spans then [spans[last]] else [])
  }

  /// Collecting two traversals one after the other is collecting their concatenation.
  lemma {:induction false} CollectAppend(a: seq<Entity>, b: seq<Entity>, spans: map<Entity, Section>)
    ensures Collect(a + b, spans) == Collect(a, spans) + Collect(b, spans)
  {
    if b != [] {
      var n := |b| - 1;
      assert (a + b)[..|a + b| - 1] == a + b[..n];
      CollectAppend(a, b[..n], spans);
    } else {
      assert a + b == a;
    }
  }

  /// When every descendant has span data, the flat text is exactly their
  /// sections, one for one and in order.
  lemma {:induction false} CollectAllSpans(desc: seq<Entity>, spans: map<Entity, Section>)
    requires forall i :: 0 <= i < |desc| ==> desc[i] in spans
    ensures |Collect(desc, spans)| == |desc|
    ensures forall i :: 0 <= i < |desc| ==> Collect(desc, spans)[i] == spans[desc[i]]
  {
    if desc != [] {
      CollectAllSpans(desc[..|desc| - 1], spans);
    }
  }

  /// A descendant without span data contributes nothing and does not disturb
  /// the contributions of the descendants around it.
  lemma CollectSkipsMissing(a: seq<Entity>, c: Entity, b: seq<Entity>, spans: map<Entity, Section>)
    requires c !in spans
    ensures Collect(a + [c] + b, spans) == Collect(a + b, spans)
  {
    CollectAppend(a + [c], b, spans);
    CollectAppend(a, b, spans);
    assert (a + [c])[..|a + [c]| - 1] == a;
  }

  /// The flat text never has more sections than there are descendants.
  lemma {:induction false} CollectLength(desc: seq<Entity>, spans: map<Entity, Section>)
    ensures |Collect(desc, spans)| <= |desc|
  {
    if desc != [] {
      CollectLength(desc[..|desc| - 1], spans);
    }
  }

  /// The components the synchroniser reads and never writes.
  datatype Scene = Scene(
    /// `TextSpan` components: the span data of each span entity.
    spans: map<Entity, Section>,
    /// `Parent` components.
    parentOf: map<Entity, Entity>,
    /// Entities with the `TextSpans` marker.
    aggregates: set<Entity>,
    /// Entities with `Children`, each with its descendants in the host's traversal order.
    descendants: map<Entity, seq<Entity>>)
  {
    /// The `parents` query: `Text`, `TextSpans` and `Children`, and no `TextSpan`;
    /// `t` holds the `Text` components.
    predicate IsTextParent(p: Entity, t: map<Entity, seq<Section>>) {
      p in aggregates && p in t && p in descendants && p !in spans
    }

    /// The `all_children` query: span data of entities that have a parent.
    function ChildSpans(): map<Entity, Section> {
      map c | c in spans && c in parentOf :: spans[c]
    }

    /// The aggregates a pass must rebuild: the parent of every changed span
    /// that has a `Parent`, and every aggregate whose children changed.
    function Dirty(changedSpans: set<Entity>, changedChildren: set<Entity>): set<Entity> {
      SpanParents(changedSpans) + RebuiltAggregates(changedChildren)
    }

    /// The parents of the changed spans that have one.
    function SpanParents(changedSpans: set<Entity>): set<Entity> {
      set s | s in changedSpans && s in spans && s in parentOf :: parentOf[s]
    }

    /// The aggregates among the entities whose children changed.
    function RebuiltAggregates(changedChildren: set<Entity>): set<Entity> {
      set p | p in changedChildren && p in aggregates && p in descendants && p !in spans
    }

    /// The `Text` components `t` after the aggregates in `done` are rebuilt.
    function Synced(t: map<Entity, seq<Section>>, done: set<Entity>): (r: map<Entity, seq<Section>>)
      ensures r.Keys == t.Keys
      ensures forall p :: p in done && IsTextParent(p, t) ==> r[p] == Collect(descendants[p], ChildSpans())
      ensures forall p :: p in t && !(p in done && IsTextParent(p, t)) ==> r[p] == t[p]
    {
      map p | p in t :: if p in done && IsTextParent(p, t) then Collect(descendants[p], ChildSpans()) else t[p]
    }

    /// The reports that a pass over the dirty set `d` makes.
    predicate Reported(r: Report, t: map<Entity, seq<Section>>, d: set<Entity>) {
      match r
      case MissingText(p) => p in d && !IsTextParent(p, t)
      case MissingSpan(c, p) =>
        p in d && IsTextParent(p, t) && c in descendants[p] && c !in ChildSpans()
    }
  }

  /// The host world as the synchroniser sees it: `scene` is only read; the
  /// flat text (`Text::sections`) of each entity with a `Text` is rewritten.
  class World {
    var scene: Scene
    var texts: map<Entity, seq<Section>>
  }

  /// A second pass over the same dirty set rebuilds the same flat text: the
  /// rebuild clears before it refills, so it never depends on what was there.
  lemma SyncedIdempotent(sc: Scene, t: map<Entity, seq<Section>>, d: set<Entity>)
    ensures sc.Synced(sc.Synced(t, d), d) == sc.Synced(t, d)
  {
    var once := sc.Synced(t, d);
    forall p | p in once
      ensures sc.Synced(once, d)[p] == once[p]
    {
      assert sc.IsTextParent(p, once) == sc.IsTextParent(p, t);
    }
  }

  /// Rebuilding one more aggregate `p` changes the flat text of `p` alone.
  lemma SyncedStep(sc: Scene, t: map<Entity, seq<Section>>, d: set<Entity>, p: Entity)
    requires p !in d
    ensures sc.IsTextParent(p, t) ==>
      sc.Synced(t, d + {p}) == sc.Synced(t, d)[p := Collect(sc.descendants[p], sc.ChildSpans())]
    ensures !sc.IsTextParent(p, t) ==> sc.Synced(t, d + {p}) == sc.Synced(t, d)
  {
  }

  /// Passing over one more dirty entity `p` adds exactly the reports about `p`.
  lemma ReportedStep(sc: Scene, t: map<Entity, seq<Section>>, d: set<Entity>, p: Entity,
                     reports: seq<Report>, extra: seq<Report>)
    requires p !in d
    requires forall r :: r in reports <==> sc.Reported(r, t, d)
    requires forall r :: r in extra <==>
      if sc.IsTextParent(p, t) then
        r.MissingSpan? && r.parent == p && r.child in sc.descendants[p] && r.child !in sc.ChildSpans()
      else r == MissingText(p)
    ensures forall r :: r in reports + extra <==> sc.Reported(r, t, d + {p})
  {
    forall r
      ensures r in reports + extra <==> sc.Reported(r, t, d + {p})
    {
      assert r in reports + extra <==> r in reports || r in extra;
    }
  }

  /// The system `update_parent` with its persistent scratch set.
  class UpdateParentSystem {
    /// The `Local<HashSet<Entity>>`: the dirty set, kept between passes.
    var changed: set<Entity>

    constructor ()
      ensures changed == {}
    {
      changed := {};
    }

    /// One pass. `changedSpans` are the entities whose `TextSpan` changed since
    /// the last pass and `changedChildren` those whose `Children` changed;
    /// both come from the host's change detection.
    method UpdateParent(w: World, changedSpans: set<Entity>, changedChildren: set<Entity>)
      returns (reports: seq<Report>)
      modifies this, w`texts
      ensures changed == {}
      ensures w.texts == w.scene.Synced(old(w.texts), old(changed) + w.scene.Dirty(changedSpans, changedChildren))
      ensures forall r :: r in reports <==>
        w.scene.Reported(r, old(w.texts), old(changed) + w.scene.Dirty(changedSpans, changedChildren))
    {
      Gather(w.scene, changedSpans, changedChildren);
      reports := Drain(w);
    }

    /// Inserts into the scratch set the parent of every changed span and
    /// every aggregate whose children changed (the two insertion loops).
    method Gather(sc: Scene, changedSpans: set<Entity>, changedChildren: set<Entity>)
      modifies this
      ensures changed == old(changed) + sc.Dirty(changedSpans, changedChildren)
    {
      var acc := AddSpanParents(sc, changedSpans, changed);
      acc := AddAggregates(sc, changedChildren, acc);
      changed := acc;
    }

    /// The first insertion loop: the parent of every changed span that has one.
    static method AddSpanParents(sc: Scene, changedSpans: set<Entity>, acc0: set<Entity>) returns (acc: set<Entity>)
      ensures acc == acc0 + sc.SpanParents(changedSpans)
    {
      acc := acc0;
      var todo := changedSpans;
      while todo != {}
        invariant todo <= changedSpans
        invariant acc == acc0 + sc.SpanParents(changedSpans - todo)
        decreases todo
      {
        var s :| s in todo;
        if s in sc.spans && s in sc.parentOf {
          acc := acc + {sc.parentOf[s]};
        }
        assert changedSpans - (todo - {s}) == (changedSpans - todo) + {s};
        todo := todo - {s};
      }
    }

    /// The second insertion loop: every aggregate whose children changed.
    static method AddAggregates(sc: Scene, changedChildren: set<Entity>, acc0: set<Entity>) returns (acc: set<Entity>)
      ensures acc == acc0 + sc.RebuiltAggregates(changedChildren)
    {
      acc := acc0;
      var todo := changedChildren;
      while todo != {}
        invariant todo <= changedChildren
        invariant acc == acc0 + sc.RebuiltAggregates(changedChildren - todo)
        decreases todo
      {
        var p :| p in todo;
        if p in sc.aggregates && p in sc.descendants && p !in sc.spans {
          acc := acc + {p};
        }
        assert changedChildren - (todo - {p}) == (changedChildren - todo) + {p};
        todo := todo - {p};
      }
    }

    /// Drains the scratch set, rebuilding each text parent in it and
    /// reporting every other entity in it.
    method Drain(w: World) returns (reports: seq<Report>)
      modifies this, w`texts
      ensures changed == {}
      ensures w.texts == w.scene.Synced(old(w.texts), old(changed))
      ensures forall r :: r in reports <==> w.scene.Reported(r, old(w.texts), old(changed))
    {
      var sc := w.scene;
      ghost var dirty := changed;
      ghost var t0 := w.texts;
      reports := [];
      while changed != {}
        invariant changed <= dirty
        invariant w.texts == sc.Synced(t0, dirty - changed)
        invariant forall r :: r in reports <==> sc.Reported(r, t0, dirty - changed)
        decreases changed
      {
        var p :| p in changed;
        ghost var prev := dirty - changed;
        changed := changed - {p};
        assert dirty - changed == prev + {p};
        SyncedStep(sc, t0, prev, p);
        if p in sc.aggregates && p in w.texts && p in sc.descendants && p !in sc.spans {
          assert sc.IsTextParent(p, t0);
          var missing := Rebuild(w, p);
          ReportedStep(sc, t0, prev, p, reports, missing);
          reports := reports + missing;
        } else {
          assert !sc.IsTextParent(p, t0);
          ReportedStep(sc, t0, prev, p, reports, [MissingText(p)]);
          reports := reports + [MissingText(p)];
        }
      }
      assert dirty - changed == dirty;
    }
  }

  /// Clears the flat text of the text parent `p` and refills it from the
  /// descendants of `p`, in traversal order; returns a report for each
  /// descendant that has no span data.
  method Rebuild(w: World, p: Entity) returns (reports: seq<Report>)
    requires w.scene.IsTextParent(p, w.texts)
    modifies w`texts
    ensures w.texts == old(w.texts)[p := Collect(w.scene.descendants[p], w.scene.ChildSpans())]
    ensures forall r :: r in reports <==>
      r.MissingSpan? && r.parent == p && r.child in w.scene.descendants[p] && r.child !in w.scene.ChildSpans()
  {
    var sc := w.scene;
    var desc := sc.descendants[p];
    var childSpans := sc.ChildSpans();
    w.texts := w.texts[p := []];
    reports := [];
    for i := 0 to |desc|
      invariant w.texts == old(w.texts)[p := Collect(desc[..i], childSpans)]
      invariant forall r :: r in reports <==>
        r.MissingSpan? && r.parent == p && r.child in desc[..i] && r.child !in childSpans
    {
      var child := desc[i];
      assert desc[..i + 1][..i] == desc[..i];
      assert desc[..i + 1][i] == child;
      if child in sc.spans && child in sc.parentOf {
        assert Collect(desc[..i + 1], childSpans) == Collect(desc[..i], childSpans) + [sc.spans[child]];
        w.texts := w.texts[p := w.texts[p] + [sc.spans[child]]];
      } else {
        assert Collect(desc[..i + 1], childSpans) == Collect(desc[..i], childSpans);
        reports := reports + [MissingSpan(child, p)];
      }
    }
    assert desc[..|desc|] == desc;
  }
}
