/// The `text!` and `text2d!` macros of src/lib.rs, as a builder: from a list
/// of (text, optional style, optional components) tuples to one aggregate
/// entity with one span child per tuple, in the written order.
module TextMacro {
  import opened Host
  import SpanSync

  /// The style position of a tuple.
  datatype StyleArg =
    | Omitted
      /// `{ k: v, ... }`: only the listed fields, the rest from the default style.
    | Fields(font: Option<FontHandle>, fontSize: Option<real>, color: Option<Color>)
      /// Any style expression.
    | Given(style: Style)

  /// One tuple of the macro: the text, its style, and its extra components
  /// (`()` when omitted, a tuple of components as a list).
  datatype SpanArg<C> = SpanArg(text: string, style: StyleArg, components: seq<C>)

  /// The bundle of the aggregate: `TextBundle` for `text!`, `Text2dBundle` for `text2d!`.
  datatype BundleKind = UiText | Text2d

  /// A spawned span child: its `TextSpan` and its extra components.
  datatype SpawnedSpan<C> = SpawnedSpan(span: Section, components: seq<C>)

  /// A spawned aggregate: its bundle (with a default, empty `Text`), the
  /// `TextSpans` marker, and its span children in spawn order.
  datatype SpawnedText<C> = SpawnedText(bundle: BundleKind, children: seq<SpawnedSpan<C>>)

  /// `@expand_styles`: the default style with the listed fields overridden.
  function ExpandStyles(font: Option<FontHandle>, fontSize: Option<real>, color: Option<Color>): (s: Style)
    ensures s.font == font.GetOr(DefaultStyle.font)
    ensures s.fontSize == fontSize.GetOr(DefaultStyle.fontSize)
    ensures s.color == color.GetOr(DefaultStyle.color)
  {
    var s := DefaultStyle;
    var s := if font.Some? then s.(font := font.value) else s;
    var s := if fontSize.Some? then s.(fontSize := fontSize.value) else s;
    if color.Some? then s.(color := color.value) else s
  }

  /// The style a tuple's style position stands for.
  function StyleOf(arg: StyleArg): Style {
    match arg
    case Omitted => DefaultStyle
    case Fields(f, z, c) => ExpandStyles(f, z, c)
    case Given(s) => s
  }

  /// `@spawn_span`: the child one tuple spawns.
  function SpanOf<C>(arg: SpanArg<C>): SpawnedSpan<C> {
    SpawnedSpan(Section(arg.text, StyleOf(arg.style)), arg.components)
  }

  /// `@process`: the children the tuples spawn, one per tuple.
  function SpawnChildren<C>(args: seq<SpanArg<C>>): (r: seq<SpawnedSpan<C>>)
    ensures |r| == |args|
    ensures forall i :: 0 <= i < |args| ==> r[i] == SpanOf(args[i])
  {
    if args == [] then [] else SpawnChildren(args[..|args| - 1]) + [SpanOf(args[|args| - 1])]
  }

  /// The whole expansion as intended: the aggregate carries the bundle its
  /// macro names (`UiText` for `text!`, `Text2d` for `text2d!`).
  function Spawn<C>(bundle: BundleKind, args: seq<SpanArg<C>>): SpawnedText<C> {
    SpawnedText(bundle, SpawnChildren(args))
  }

  /// The whole expansion as written: `@process` receives the bundle but
  /// always spawns a default `TextBundle`, so `text2d!` builds a UI text.
  function SpawnAsWritten<C>(bundle: BundleKind, args: seq<SpanArg<C>>): SpawnedText<C> {
    SpawnedText(UiText, SpawnChildren(args))
  }

  /// `text2d!` as written spawns the same children as intended, under a UI
  /// text bundle instead of a 2D one.
  lemma Text2dSpawnsUiText<C>(args: seq<SpanArg<C>>)
    ensures SpawnAsWritten(Text2d, args).children == Spawn(Text2d, args).children
    ensures SpawnAsWritten(Text2d, args).bundle == UiText
    ensures Spawn(Text2d, args).bundle == Text2d
    ensures SpawnAsWritten(Text2d, args) != Spawn(Text2d, args)
  {
  }

  /// Each tuple spawns exactly one child, in the written order, holding the
  /// tuple's text and components; an omitted style is the default style, a
  /// `{k: v}` style overrides only the listed fields, and `[]` spawns no spans.
  lemma SpawnShape<C>(bundle: BundleKind, args: seq<SpanArg<C>>)
    ensures var r := Spawn(bundle, args);
      && r.bundle == bundle
      && |r.children| == |args|
      && (args == [] ==> r.children == [])
      && forall i :: 0 <= i < |args| ==>
           && r.children[i].span.value == args[i].text
           && r.children[i].components == args[i].components
           && (args[i].style.Omitted? ==> r.children[i].span.style == DefaultStyle)
           && (args[i].style.Given? ==> r.children[i].span.style == args[i].style.style)
           && (args[i].style.Fields? && args[i].style.font.None? && args[i].style.fontSize.None? ==>
                 r.children[i].span.style == DefaultStyle.(color := args[i].style.color.GetOr(White)))
  {
  }

  /// `{}` is the default style: no field is overridden.
  lemma EmptyFieldsIsDefault()
    ensures StyleOf(Fields(None, None, None)) == DefaultStyle
  {
  }

  /// Once the spawned children are attached under their aggregate (the host
  /// gives them the entity handles `ids`, in spawn order) and the synchroniser
  /// has run, the aggregate's flat text is the tuples' sections, in order.
  lemma {:induction false} SpawnThenSync<C>(args: seq<SpanArg<C>>, ids: seq<Entity>, spans: map<Entity, Section>)
    requires |ids| == |args|
    requires forall i :: 0 <= i < |ids| ==> ids[i] in spans && spans[ids[i]] == SpawnChildren(args)[i].span
    ensures |SpanSync.Collect(ids, spans)| == |args|
    ensures forall i :: 0 <= i < |args| ==>
      SpanSync.Collect(ids, spans)[i] == Section(args[i].text, StyleOf(args[i].style))
  {
    SpanSync.CollectAllSpans(ids, spans);
  }
}
