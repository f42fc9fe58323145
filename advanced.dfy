/// The interactive spans of the advanced example (examples/advanced.rs): a
/// span lights up in its hover colour while hovered and falls back to its
/// base colour afterwards, and clicking a link span bumps every counter span.
///
/// Hit testing is not modelled: the hit entity is a parameter. Change
/// detection is not modelled either: the entities whose notifier changed, in
/// query order, are a parameter of each effect system.
module Advanced {
  import opened Host

  /// The two colours of a hoverable span.
  datatype HoverConfig = HoverConfig(baseColor: Color, hoverColor: Color)

  /// A span section with its colour replaced.
  function Recolored(s: Section, c: Color): Section {
    s.(style := s.style.(color := c))
  }

  /// The components of the example's entities: the span data of every span,
  /// which entities have a parent, the hover configuration and hover flag of
  /// hoverable spans, the URL and click flag of link spans, and the counter
  /// of counter spans.
  class AdvancedWorld {
    var spans: map<Entity, Section>
    var parented: set<Entity>
    var hoverConfigs: map<Entity, HoverConfig>
    var hoverNotifiers: map<Entity, bool>
    var links: map<Entity, string>
    var linkNotifiers: map<Entity, bool>
    var counters: map<Entity, nat>

    constructor(spans: map<Entity, Section>, parented: set<Entity>, hoverConfigs: map<Entity, HoverConfig>,
                hoverNotifiers: map<Entity, bool>, links: map<Entity, string>, linkNotifiers: map<Entity, bool>,
                counters: map<Entity, nat>)
      ensures this.spans == spans && this.parented == parented && this.hoverConfigs == hoverConfigs
      ensures this.hoverNotifiers == hoverNotifiers && this.links == links
      ensures this.linkNotifiers == linkNotifiers && this.counters == counters
    {
      this.spans := spans;
      this.parented := parented;
      this.hoverConfigs := hoverConfigs;
      this.hoverNotifiers := hoverNotifiers;
      this.links := links;
      this.linkNotifiers := linkNotifiers;
      this.counters := counters;
    }
  }

  /// `Notifier::notify` on the notifier of `e`: its flag is set, and only it.
  function Notify(flags: map<Entity, bool>, e: Entity): (r: map<Entity, bool>)
    requires e in flags
    ensures r.Keys == flags.Keys && r[e]
    ensures forall x :: x in flags && x != e ==> r[x] == flags[x]
  {
    flags[e := true]
  }

  /// Notifying sets flags and never clears one, and notifying twice is
  /// notifying once.
  lemma NotifyNeverClears(flags: map<Entity, bool>, e: Entity)
    requires e in flags
    ensures forall x :: x in flags && flags[x] ==> Notify(flags, e)[x]
    ensures Notify(Notify(flags, e), e) == Notify(flags, e)
  {
  }

  /// Every span whose hover configuration was just added, in query order,
  /// takes its base colour.
  method InitialiseHover(w: AdvancedWorld, added: seq<Entity>)
    modifies w`spans
    ensures w.spans.Keys == old(w.spans).Keys
    ensures forall e :: e in w.spans ==>
      w.spans[e] == if e in added && e in w.hoverConfigs
                    then Recolored(old(w.spans)[e], w.hoverConfigs[e].baseColor)
                    else old(w.spans)[e]
  {
    ghost var s0 := w.spans;
    var spans := w.spans;
    for i := 0 to |added|
      invariant spans.Keys == s0.Keys
      invariant forall e :: e in spans ==>
        spans[e] == if e in added[..i] && e in w.hoverConfigs then Recolored(s0[e], w.hoverConfigs[e].baseColor) else s0[e]
    {
      var e := added[i];
      if e in spans && e in w.hoverConfigs {
        spans := spans[e := Recolored(spans[e], w.hoverConfigs[e].baseColor)];
      }
    }
    w.spans := spans;
  }

  /// A hit on a hoverable span with a parent sets its hover flag; no hit, or
  /// a hit on anything else, changes nothing.
  method NotifyHovered(w: AdvancedWorld, hit: Option<Entity>)
    modifies w`hoverNotifiers
    ensures w.hoverNotifiers ==
      if hit.Some? && hit.value in old(w.hoverNotifiers) && hit.value in w.parented && hit.value in w.hoverConfigs
      then Notify(old(w.hoverNotifiers), hit.value)
      else old(w.hoverNotifiers)
  {
    if hit.None? {
      return;
    }
    var e := hit.value;
    if e in w.hoverNotifiers && e in w.parented && e in w.hoverConfigs {
      w.hoverNotifiers := Notify(w.hoverNotifiers, e);
    }
  }

  /// A left-button press that hits a link span with a parent sets its click
  /// flag; without the press, without a hit, or on anything else, nothing changes.
  method NotifyNavigate(w: AdvancedWorld, leftJustPressed: bool, hit: Option<Entity>)
    modifies w`linkNotifiers
    ensures w.linkNotifiers ==
      if leftJustPressed && hit.Some? && hit.value in old(w.linkNotifiers) && hit.value in w.parented
      then Notify(old(w.linkNotifiers), hit.value)
      else old(w.linkNotifiers)
  {
    if !leftJustPressed {
      return;
    }
    if hit.None? {
      return;
    }
    var e := hit.value;
    if e in w.linkNotifiers && e in w.parented {
      w.linkNotifiers := Notify(w.linkNotifiers, e);
    }
  }

  /// `e` is a hoverable span: span data, hover configuration and hover flag.
  predicate Hoverable(spans: map<Entity, Section>, configs: map<Entity, HoverConfig>, flags: map<Entity, bool>, e: Entity) {
    e in spans && e in configs && e in flags
  }

  /// `e` is a hoverable span whose hover flag is set.
  predicate Lit(spans: map<Entity, Section>, configs: map<Entity, HoverConfig>, flags: map<Entity, bool>, e: Entity) {
    Hoverable(spans, configs, flags, e) && flags[e]
  }

  /// The remembered span that the hover effect restores first: the last
  /// hovered span, if it is still a hoverable span.
  function Restored(spans: map<Entity, Section>, configs: map<Entity, HoverConfig>, flags: map<Entity, bool>,
                    last: Option<Entity>): Option<Entity>
  {
    if last.Some? && Hoverable(spans, configs, flags, last.value) then last else None
  }

  /// The spans after the remembered span, if it is still hoverable, is
  /// restored to its base colour.
  function RestoredSpans(spans: map<Entity, Section>, configs: map<Entity, HoverConfig>, flags: map<Entity, bool>,
                         last: Option<Entity>): map<Entity, Section>
  {
    match Restored(spans, configs, flags, last)
    case Some(l) => spans[l := Recolored(spans[l], configs[l].baseColor)]
    case None => spans
  }

  /// The spans with every lit span among `changed` in its hover colour.
  function LitSpans(spans: map<Entity, Section>, configs: map<Entity, HoverConfig>, flags: map<Entity, bool>,
                    changed: seq<Entity>): map<Entity, Section>
  {
    map e | e in spans :: if e in changed && Lit(spans, configs, flags, e) then Recolored(spans[e], configs[e].hoverColor) else spans[e]
  }

  /// The last lit span among `changed`, or `last` when none is lit.
  function LastLit(spans: map<Entity, Section>, configs: map<Entity, HoverConfig>, flags: map<Entity, bool>,
                   changed: seq<Entity>, last: Option<Entity>): Option<Entity>
  {
    if changed == [] then last
    else if Lit(spans, configs, flags, changed[|changed| - 1]) then Some(changed[|changed| - 1])
    else LastLit(spans, configs, flags, changed[..|changed| - 1], last)
  }

  /// The spans after the hover effect: the remembered span restored, then
  /// every lit changed span lit.
  function HoverSpans(spans: map<Entity, Section>, configs: map<Entity, HoverConfig>, flags: map<Entity, bool>,
                      last: Option<Entity>, changed: seq<Entity>): map<Entity, Section>
  {
    LitSpans(RestoredSpans(spans, configs, flags, last), configs, flags, changed)
  }

  /// The span remembered after the hover effect: the last lit span among the
  /// changed ones; when none is lit, nothing if the remembered span was
  /// restored, and the remembered span itself if it could not be found.
  function HoverLast(spans: map<Entity, Section>, configs: map<Entity, HoverConfig>, flags: map<Entity, bool>,
                     last: Option<Entity>, changed: seq<Entity>): Option<Entity>
  {
    LastLit(RestoredSpans(spans, configs, flags, last), configs, flags, changed,
            if Restored(spans, configs, flags, last).Some? then None else last)
  }

  /// Gives every changed span whose hover flag is set its hover colour, in
  /// query order, remembering the last of them.
  method LightUp(spans0: map<Entity, Section>, configs: map<Entity, HoverConfig>, flags: map<Entity, bool>,
                 changed: seq<Entity>, last0: Option<Entity>)
    returns (spans: map<Entity, Section>, last: Option<Entity>)
    ensures spans == LitSpans(spans0, configs, flags, changed)
    ensures last == LastLit(spans0, configs, flags, changed, last0)
  {
    spans, last := spans0, last0;
    for i := 0 to |changed|
      invariant spans == LitSpans(spans0, configs, flags, changed[..i])
      invariant last == LastLit(spans0, configs, flags, changed[..i], last0)
    {
      spans, last := LightOne(spans0, configs, flags, changed, i, last0, spans, last);
    }
    assert changed[..|changed|] == changed;
  }

  /// The body of the loop of `LightUp`, at the `i`-th changed span.
  method LightOne(ghost spans0: map<Entity, Section>, configs: map<Entity, HoverConfig>, flags: map<Entity, bool>,
                  changed: seq<Entity>, i: nat, ghost last0: Option<Entity>,
                  spans1: map<Entity, Section>, last1: Option<Entity>)
    returns (spans: map<Entity, Section>, last: Option<Entity>)
    requires i < |changed|
    requires spans1 == LitSpans(spans0, configs, flags, changed[..i])
    requires last1 == LastLit(spans0, configs, flags, changed[..i], last0)
    ensures spans == LitSpans(spans0, configs, flags, changed[..i + 1])
    ensures last == LastLit(spans0, configs, flags, changed[..i + 1], last0)
  {
    LitStep(spans0, configs, flags, changed, i);
    LastLitStep(spans0, configs, flags, changed, i, last0);
    spans, last := spans1, last1;
    var e := changed[i];
    if e in spans && e in configs && e in flags && flags[e] {
      spans := spans[e := Recolored(spans[e], configs[e].hoverColor)];
      last := Some(e);
    }
  }

  /// Lighting one more changed span recolours it when it is lit, and nothing else.
  lemma LitStep(spans: map<Entity, Section>, configs: map<Entity, HoverConfig>, flags: map<Entity, bool>,
                changed: seq<Entity>, i: nat)
    requires i < |changed|
    ensures var e := changed[i];
      var s := LitSpans(spans, configs, flags, changed[..i]);
      && s.Keys == spans.Keys
      && (e in s && e in configs && e in flags && flags[e] <==> Lit(spans, configs, flags, e))
      && LitSpans(spans, configs, flags, changed[..i + 1]) ==
           (if Lit(spans, configs, flags, e) then s[e := Recolored(s[e], configs[e].hoverColor)] else s)
  {
    assert changed[..i + 1] == changed[..i] + [changed[i]];
  }

  /// Lighting one more changed span remembers it when it is lit.
  lemma LastLitStep(spans: map<Entity, Section>, configs: map<Entity, HoverConfig>, flags: map<Entity, bool>,
                    changed: seq<Entity>, i: nat, last: Option<Entity>)
    requires i < |changed|
    ensures LastLit(spans, configs, flags, changed[..i + 1], last) ==
      (if Lit(spans, configs, flags, changed[i]) then Some(changed[i]) else LastLit(spans, configs, flags, changed[..i], last))
  {
    assert changed[..i + 1][..i] == changed[..i];
  }

  /// `hover_effect` with its remembered last hovered span.
  class HoverEffect {
    var last: Option<Entity>

    constructor()
      ensures last == None
    {
      last := None;
    }

    /// Restores the remembered span to its base colour and forgets it, then
    /// gives every changed span whose hover flag is set its hover colour,
    /// remembering the last of them.
    method Run(w: AdvancedWorld, changed: seq<Entity>)
      modifies this, w`spans
      ensures w.spans == HoverSpans(old(w.spans), w.hoverConfigs, w.hoverNotifiers, old(last), changed)
      ensures last == HoverLast(old(w.spans), w.hoverConfigs, w.hoverNotifiers, old(last), changed)
    {
      var spans := w.spans;
      if last.Some? {
        var l := last.value;
        if l in spans && l in w.hoverConfigs && l in w.hoverNotifiers {
          spans := spans[l := Recolored(spans[l], w.hoverConfigs[l].baseColor)];
          last := None;
        }
      }
      spans, last := LightUp(spans, w.hoverConfigs, w.hoverNotifiers, changed, last);
      w.spans := spans;
    }
  }

  /// The span remembered after the hover effect is the last lit span among
  /// the changed ones; when none is lit it is the one remembered before.
  lemma {:induction false} LastLitIsLast(spans: map<Entity, Section>, configs: map<Entity, HoverConfig>,
                                         flags: map<Entity, bool>, changed: seq<Entity>, last: Option<Entity>)
    ensures (forall k :: 0 <= k < |changed| ==> !Lit(spans, configs, flags, changed[k])) ==>
      LastLit(spans, configs, flags, changed, last) == last
    ensures (exists k :: 0 <= k < |changed| && Lit(spans, configs, flags, changed[k])) ==>
      exists k :: 0 <= k < |changed| && Lit(spans, configs, flags, changed[k])
        && LastLit(spans, configs, flags, changed, last) == Some(changed[k])
        && forall j :: k < j < |changed| ==> !Lit(spans, configs, flags, changed[j])
  {
    if changed != [] {
      var n := |changed| - 1;
      LastLitIsLast(spans, configs, flags, changed[..n], last);
      if !Lit(spans, configs, flags, changed[n]) {
        assert forall k :: 0 <= k < n ==> changed[..n][k] == changed[k];
      }
    }
  }

  /// The hover effect, span by span: a lit changed span shows its hover
  /// colour, the remembered span otherwise its base colour, and every span
  /// keeps its text. When the remembered span can no longer be found and no
  /// changed span is lit, it stays remembered.
  lemma HoverEffectOutcome(spans: map<Entity, Section>, configs: map<Entity, HoverConfig>, flags: map<Entity, bool>,
                           last: Option<Entity>, changed: seq<Entity>)
    ensures HoverSpans(spans, configs, flags, last, changed).Keys == spans.Keys
    ensures forall e :: e in spans ==>
      && HoverSpans(spans, configs, flags, last, changed)[e].value == spans[e].value
      && HoverSpans(spans, configs, flags, last, changed)[e].style.color ==
           if e in changed && Lit(spans, configs, flags, e) then configs[e].hoverColor
           else if last == Some(e) && e in configs && e in flags then configs[e].baseColor
           else spans[e].style.color
    ensures (last.Some? && !Hoverable(spans, configs, flags, last.value)
             && forall k :: 0 <= k < |changed| ==> !Lit(spans, configs, flags, changed[k])) ==>
      HoverLast(spans, configs, flags, last, changed) == last
  {
    LastLitIsLast(spans, configs, flags, changed, if Restored(spans, configs, flags, last).Some? then None else last);
  }

  /// A hit hoverable span, once notified, lights up in its hover colour when
  /// the hover effect sees its notifier changed, and is remembered when it is
  /// the last changed one.
  lemma NotifiedSpanLightsUp(spans: map<Entity, Section>, configs: map<Entity, HoverConfig>, flags: map<Entity, bool>,
                             last: Option<Entity>, changed: seq<Entity>, e: Entity)
    requires e in spans && e in configs && e in flags
    requires |changed| > 0 && changed[|changed| - 1] == e
    ensures HoverSpans(spans, configs, Notify(flags, e), last, changed)[e].style.color == configs[e].hoverColor
    ensures HoverLast(spans, configs, Notify(flags, e), last, changed) == Some(e)
  {
  }

  /// How many of the changed link notifiers, in query order, have their
  /// click flag set.
  function Clicks(links: map<Entity, string>, flags: map<Entity, bool>, changed: seq<Entity>): nat {
    if changed == [] then 0
    else
      var e := changed[|changed| - 1];
      Clicks(links, flags, changed[..|changed| - 1]) + (if e in links && e in flags && flags[e] then 1 else 0)
  }

  /// Every counter of a span raised by `n`.
  function Raised(counters: map<Entity, nat>, spans: map<Entity, Section>, n: nat): map<Entity, nat> {
    map e | e in counters :: if e in spans then counters[e] + n else counters[e]
  }

  /// Every counter span showing its counter in decimal.
  function Displayed(spans: map<Entity, Section>, counters: map<Entity, nat>): map<Entity, Section> {
    map e | e in spans :: if e in counters then spans[e].(value := Decimal(counters[e])) else spans[e]
  }

  /// One click: every counter span's counter goes up by one and the span
  /// shows it; the counter spans are visited in any order.
  method Bump(counters0: map<Entity, nat>, spans0: map<Entity, Section>)
    returns (counters: map<Entity, nat>, spans: map<Entity, Section>)
    ensures counters == Raised(counters0, spans0, 1)
    ensures spans == Displayed(spans0, counters)
  {
    counters, spans := counters0, spans0;
    var todo := counters.Keys * spans.Keys;
    while todo != {}
      invariant BumpedBut(counters0, spans0, counters, spans, todo)
      decreases |todo|
    {
      var e :| e in todo;
      BumpStep(counters0, spans0, counters, spans, todo, e);
      counters := counters[e := counters[e] + 1];
      spans := spans[e := spans[e].(value := Decimal(counters[e]))];
      todo := todo - {e};
    }
    BumpDone(counters0, spans0, counters, spans);
  }

  /// Every counter span not in `todo` was bumped and shows its counter; the
  /// rest is as it was.
  predicate BumpedBut(counters0: map<Entity, nat>, spans0: map<Entity, Section>,
                      counters: map<Entity, nat>, spans: map<Entity, Section>, todo: set<Entity>)
  {
    && todo <= counters0.Keys * spans0.Keys
    && counters.Keys == counters0.Keys && spans.Keys == spans0.Keys
    && (forall e :: e in counters ==>
          counters[e] == if e in spans0 && e !in todo then counters0[e] + 1 else counters0[e])
    && (forall e :: e in spans ==>
          spans[e] == if e in counters0 && e !in todo then spans0[e].(value := Decimal(counters0[e] + 1)) else spans0[e])
  }

  lemma BumpStep(counters0: map<Entity, nat>, spans0: map<Entity, Section>,
                 counters: map<Entity, nat>, spans: map<Entity, Section>, todo: set<Entity>, e: Entity)
    requires BumpedBut(counters0, spans0, counters, spans, todo) && e in todo
    ensures e in counters && e in spans
    ensures BumpedBut(counters0, spans0, counters[e := counters[e] + 1],
                      spans[e := spans[e].(value := Decimal(counters[e] + 1))], todo - {e})
  {
  }

  lemma BumpDone(counters0: map<Entity, nat>, spans0: map<Entity, Section>,
                 counters: map<Entity, nat>, spans: map<Entity, Section>)
    requires BumpedBut(counters0, spans0, counters, spans, {})
    ensures counters == Raised(counters0, spans0, 1)
    ensures spans == Displayed(spans0, counters)
  {
  }

  /// The counters and spans after `n` clicks: every counter span's counter
  /// raised by `n`, and, after at least one click, every counter span
  /// showing its counter.
  function AfterClicks(counters: map<Entity, nat>, spans: map<Entity, Section>, n: nat)
    : (map<Entity, nat>, map<Entity, Section>)
  {
    var c := Raised(counters, spans, n);
    (c, if n == 0 then spans else Displayed(spans, c))
  }

  /// For every changed link span whose click flag is set, every counter
  /// span's counter goes up by one and the span shows it; with no click,
  /// nothing changes.
  method NavigateEffect(w: AdvancedWorld, changed: seq<Entity>)
    modifies w`counters, w`spans
    ensures (w.counters, w.spans) == AfterClicks(old(w.counters), old(w.spans), Clicks(w.links, w.linkNotifiers, changed))
  {
    w.counters, w.spans := FollowLinks(w.counters, w.spans, w.links, w.linkNotifiers, changed);
  }

  /// The loop of `NavigateEffect` over the changed link notifiers.
  method FollowLinks(counters0: map<Entity, nat>, spans0: map<Entity, Section>, links: map<Entity, string>,
                     flags: map<Entity, bool>, changed: seq<Entity>)
    returns (counters: map<Entity, nat>, spans: map<Entity, Section>)
    ensures (counters, spans) == AfterClicks(counters0, spans0, Clicks(links, flags, changed))
  {
    counters, spans := counters0, spans0;
    assert Raised(counters0, spans0, 0) == counters0;
    for i := 0 to |changed|
      invariant (counters, spans) == AfterClicks(counters0, spans0, Clicks(links, flags, changed[..i]))
    {
      counters, spans := FollowLink(counters0, spans0, links, flags, changed, i, counters, spans);
    }
    assert changed[..|changed|] == changed;
  }

  /// The body of the loop of `FollowLinks`, at the `i`-th changed notifier.
  method FollowLink(ghost counters0: map<Entity, nat>, ghost spans0: map<Entity, Section>, links: map<Entity, string>,
                    flags: map<Entity, bool>, changed: seq<Entity>, i: nat,
                    counters1: map<Entity, nat>, spans1: map<Entity, Section>)
    returns (counters: map<Entity, nat>, spans: map<Entity, Section>)
    requires i < |changed|
    requires (counters1, spans1) == AfterClicks(counters0, spans0, Clicks(links, flags, changed[..i]))
    ensures (counters, spans) == AfterClicks(counters0, spans0, Clicks(links, flags, changed[..i + 1]))
  {
    assert changed[..i + 1][..i] == changed[..i];
    counters, spans := counters1, spans1;
    var e := changed[i];
    if e in links && e in flags && flags[e] {
      ClickAgain(counters0, spans0, Clicks(links, flags, changed[..i]));
      counters, spans := Bump(counters, spans);
    }
  }

  /// One more click after `n` is `n + 1` clicks.
  lemma ClickAgain(counters: map<Entity, nat>, spans: map<Entity, Section>, n: nat)
    ensures var (c, s) := AfterClicks(counters, spans, n);
      var c1 := Raised(c, s, 1);
      (c1, Displayed(s, c1)) == AfterClicks(counters, spans, n + 1)
  {
    var (c, s) := AfterClicks(counters, spans, n);
    var c1 := Raised(counters, spans, n + 1);
    assert s.Keys == spans.Keys;
    assert Raised(c, s, 1) == c1;
    assert c1.Keys == c.Keys;
    assert Displayed(s, c1) == Displayed(spans, c1);
  }

  /// After clicks, every counter span reads back, in decimal, its counter,
  /// which went up by exactly the number of clicks; counters without a span
  /// and spans without a counter are untouched.
  lemma CounterSpansShowCounters(counters: map<Entity, nat>, spans: map<Entity, Section>, n: nat)
    requires n > 0
    ensures var c := Raised(counters, spans, n);
      var s := Displayed(spans, c);
      && c.Keys == counters.Keys && s.Keys == spans.Keys
      && (forall e :: e in counters && e in spans ==>
            c[e] == counters[e] + n && IsDigits(s[e].value) && DecimalValue(s[e].value) == c[e])
      && (forall e :: e in counters && e !in spans ==> c[e] == counters[e])
      && (forall e :: e in spans && e !in counters ==> s[e] == spans[e])
  {
    var c := Raised(counters, spans, n);
    forall e | e in counters && e in spans
      ensures DecimalValue(Displayed(spans, c)[e].value) == c[e]
    {
      DecimalRoundTrip(c[e]);
    }
  }

  /// A link span that was hit and clicked is counted once when its notifier
  /// is the only changed one.
  lemma ClickedLinkCountsOnce(links: map<Entity, string>, flags: map<Entity, bool>, e: Entity)
    requires e in links && e in flags
    ensures Clicks(links, Notify(flags, e), [e]) == 1
  {
  }
}
