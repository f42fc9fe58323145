# bevy_spans_ent, modelled in Dafny

bevy_spans_ent lets a Bevy application build a rich text out of separate
entities. An *aggregate* entity carries a `Text` and the `TextSpans` marker.
Each of its *span* children carries a `TextSpan` (one text section: a string
and a style). The plugin's system `update_parent` keeps the aggregate's
flat list of sections equal to its span descendants, in hierarchy order.
The `text!` and `text2d!` macros spawn an aggregate with one span child per
tuple.

The repository's examples use this in three ways, and the model covers each:

- a text editor (`examples/editor.rs`). Key presses become cosmic-text
  editor actions. After each edit the buffer's lines and attribute ranges are
  re-assembled into the `Text`'s sections. The cursor glyph and its x position
  are found inside a layout run;
- hoverable and clickable spans (`examples/advanced.rs`). A notifier flag
  marks a span, a hover effect recolours it, and a link click bumps counters;
- monsters with health displays (`examples/monster.rs`). A click damages a
  monster. The current-health and max-health spans are kept in sync, the
  current one in a colour chosen by the health share.

The modules follow the program's structure:

| module (file) | what it models |
|---|---|
| `Host` (host.dfy) | entities, colours, styles, text sections, `u32::to_string` as `Decimal` |
| `SpanSync` (span_sync.dfy) | `update_parent`: the persistent dirty set and the section rebuild |
| `TextMacro` (text_macro.dfy) | the `text!`/`text2d!` expansion as a builder of span children |
| `EditorBuffer` (editor_buffer.dfy) | cursor, buffer lines with their endings and attribute ranges |
| `EditorKeys` (editor_keys.dfy) | the key to editor-action dispatch |
| `LineReconcile` (line_reconcile.dfy) | the two scratch buffers, the per-line rebuild and the write-back into sections |
| `EditorSystem` (editor_system.dfy) | `listen_keyboard_input_events` over all events and all editor entities |
| `CursorGlyph` (cursor_glyph.dfy) | `cursor_glyph_opt` and the edge choice of `cursor_position` |
| `Advanced` (advanced.dfy) | hover and navigation systems, `Notifier::notify` |
| `Monster` (monster.dfy) | `damage` (health logic), `sync_current_health`, `sync_max_health` |

Systems that change components are methods on classes whose fields are
those components, keyed by entity (`map<Entity, …>`). A system's `Local`
state is a field of its own class: `UpdateParentSystem.changed`, the
editor's `KeyboardScratch` and `HoverEffect.last`. Each loop is a method
proved against a specification function. The loop body is a method of its
own whose precondition and postcondition are the loop invariant before and
after one step. Properties of the specification functions are lemmas.

Behaviour of the code that the model keeps as written:

- `update_parent` rebuilds an aggregate from *all* its descendants in
  hierarchy order. A descendant without a `TextSpan` is skipped and
  reported. A dirty entity without a `Text` is reported and changes nothing.
- The editor's update map is never cleared between frames. Entries for
  section indices at or beyond the section count survive to the next frame
  (`Leftover`).
- A buffer line with empty text contributes nothing, not even its line
  ending, when its attribute ranges are non-empty, as cosmic-text stores them
  (`LineReconcile.EmptyLineContributesNothing`). Text before the first
  attribute range, or between ranges, goes to the next range's section. Text
  after the last range goes to the last range's section, or to section 0
  when the line has no ranges.
- Sections that receive no text are removed from the highest index down.
  The last remaining section is emptied instead of removed.

## Model

| member | source | states |
|---|---|---|
| Host.Decimal | examples/advanced.rs:211 | `to_string` of an unsigned integer is a non-empty digit string without a leading zero |
| Host.DecimalRoundTrip | examples/advanced.rs:211 | reading back the decimal text of `n` gives `n` |
| Host.DecimalInjective | examples/monster.rs:154 | different health values are displayed as different strings |
| SpanSync.CollectAppend | src/lib.rs:54-60 | the sections gathered from two runs of descendants are the two runs' sections concatenated |
| SpanSync.CollectAllSpans | src/lib.rs:54-60 | when every descendant has a `TextSpan`, section i is descendant i's span, and there are as many sections as descendants |
| SpanSync.CollectSkipsMissing | src/lib.rs:55-59 | a descendant without a `TextSpan` leaves no trace in the sections |
| SpanSync.CollectLength | src/lib.rs:54-60 | an aggregate never has more sections than descendants |
| SpanSync.Scene.Synced | src/lib.rs:51-64 | after draining the dirty set, every dirty aggregate with a `Text` holds its descendants' spans in order; every other `Text` is unchanged; no `Text` is created or removed |
| SpanSync.SyncedIdempotent | src/lib.rs:51-64 | running the rebuild again over the same dirty set changes nothing |
| SpanSync.SyncedStep | src/lib.rs:51-63 | draining one more dirty entity rebuilds exactly that aggregate, or changes nothing when it has no `Text` |
| SpanSync.ReportedStep | src/lib.rs:51-63 | the errors logged so far plus one entity's errors are exactly the errors for the larger dirty set |
| SpanSync.UpdateParentSystem.constructor | src/lib.rs:37 | the persistent dirty set starts empty |
| SpanSync.UpdateParentSystem.UpdateParent | src/lib.rs:36-65 | the dirty set ends empty; the `Text`s are the rebuild over the old dirty set plus the parents of changed spans plus the changed aggregates; an error is logged exactly for each missing span and each dirty entity without `Text` |
| SpanSync.UpdateParentSystem.Gather | src/lib.rs:44-49 | the dirty set grows by exactly the parents of changed spans and the aggregates whose children changed |
| SpanSync.UpdateParentSystem.AddSpanParents | src/lib.rs:44-46 | the parent of every changed span is added, and nothing else |
| SpanSync.UpdateParentSystem.AddAggregates | src/lib.rs:47-49 | every changed aggregate that is not itself a span is added, and nothing else |
| SpanSync.UpdateParentSystem.Drain | src/lib.rs:51-64 | draining leaves the set empty, rebuilds every dirty aggregate, and logs exactly the missing-span and missing-`Text` errors |
| SpanSync.Rebuild | src/lib.rs:52-60 | one aggregate's sections become its descendants' spans in order; only that `Text` changes; every descendant without a span is reported |
| TextMacro.ExpandStyles | src/lib.rs:189-194 | each listed style field takes its given value; every other field keeps the default style's value |
| TextMacro.SpawnChildren | src/lib.rs:170-186 | one child per tuple, in written order, each spawned from its own tuple |
| TextMacro.SpawnShape | src/lib.rs:164-232 | as intended, the aggregate has the bundle its macro names; child i holds tuple i's text and components; an omitted style is the default; a given style is kept; `{color: c}` changes only the colour |
| TextMacro.EmptyFieldsIsDefault | src/lib.rs:189-194 | `{}` expands to the default style |
| TextMacro.SpawnThenSync | src/lib.rs:178-183 | after the spawned children are synchronised, the aggregate's sections are the tuples' text and style, in order |
| TextMacro.Text2dSpawnsUiText | src/lib.rs:170-186 | as written, `text2d!` spawns the intended children, but under a UI `TextBundle` rather than a `Text2dBundle` |
| EditorKeys.Dispatch | examples/editor.rs:120-162 | a released key, or a key the editor ignores, yields no actions; a character key yields one insert per character, spelling the key's text; every other handled key yields exactly its own action: Space inserts `' '`; Enter, Backspace and Delete their actions; the four arrows, End, Home, PageDown and PageUp the matching motion |
| EditorKeys.InsertsRoundTrip | examples/editor.rs:132-136 | the inserts of a string are one `Insert` per character, in order, and they spell the string back |
| EditorKeys.InsertsAt | examples/editor.rs:132-136 | the i-th insert inserts the i-th character |
| EditorKeys.InsertedTextOfInserts | examples/editor.rs:132-136 | the characters the inserts carry are the string itself |
| EditorSystem.EditorWorld.constructor | examples/editor.rs:115 | the world holds the given editor entities |
| EditorSystem.ApplyEdits | examples/editor.rs:131-162 | the buffer and cursor after applying the actions in order, one call to the editor per action |
| EditorSystem.UpdateEntity | examples/editor.rs:126-229 | one entity's edit, section rebuild and stored editor state, with the scratch map carried across |
| EditorSystem.ListenKeyboardInputEvents | examples/editor.rs:113-231 | every event is handled against every editor entity, in order, with the scratch map persisting across events and entities |
| EditorSystem.HandleKey | examples/editor.rs:126-229 | one event reaches every editor entity in query order |
| EditorSystem.RespondToKey | examples/editor.rs:127-229 | an ignored key skips the entity entirely; a dispatched key edits it, rebuilds its sections and stores the new state |
| EditorSystem.FoldAt | examples/editor.rs:126 | the entity at position k after the query loop is the response of entity k to the scratch state left by entities before it |
| EditorSystem.IgnoredKeyChangesNothing | examples/editor.rs:141-161 | a modifier, Tab or unknown key changes no entity and no scratch state |
| EditorSystem.DispatchedKeyReachesAll | examples/editor.rs:126-228 | a handled key edits every entity and stores each one's new state; no entity is added or lost |
| EditorSystem.StepEntityResponds | examples/editor.rs:127-228 | an entity's stored state is the one the editor reached after the actions |
| EditorSystem.HandleEventsKeepsEntities | examples/editor.rs:120-230 | the system never adds or drops editor entities |
| EditorSystem.SkippedEventChangesNothing | examples/editor.rs:122-124 | a released key, or an ignored key, at the end of the event stream has no effect |
| EditorSystem.DispatchedEventStoresCursors | examples/editor.rs:164-228 | a handled event leaves every entity in the state the editor produced from its previous state |
| LineReconcile.PushRangePiece | examples/editor.rs:187-198 | appending an attribute range's gap, its text and, at the line end, the line ending, adds one piece to the range's section |
| LineReconcile.PushTailPiece | examples/editor.rs:201-207 | the text after the last range, plus the line ending, goes to the last range's section as one piece |
| LineReconcile.AccumulateCollects | examples/editor.rs:168-208 | after the rebuild, each section index holds its old text followed by all its pieces in order, and exactly the indices that received a piece gain an entry |
| LineReconcile.RangePiecesConcat | examples/editor.rs:183-199 | the first j ranges' pieces spell the line's text up to the end of range j, with the ending once the line is exhausted |
| LineReconcile.LinePiecesConcat | examples/editor.rs:168-208 | a non-empty line's pieces spell its text followed by its ending: no character is lost or duplicated |
| LineReconcile.EmptyLineContributesNothing | examples/editor.rs:201-207 | a line with empty text contributes nothing, not even its ending |
| LineReconcile.UntaggedLineGoesToSectionZero | examples/editor.rs:183-207 | a line without attribute ranges goes, with its ending, to section 0 |
| LineReconcile.LinePieceIndices | examples/editor.rs:184-202 | every piece of a line goes to the section named by one of its ranges' metadata, or to section 0 when it has none |
| LineReconcile.RangePieceIndices | examples/editor.rs:185-186 | range i's piece goes to the section its metadata names |
| LineReconcile.ReversedMissing | examples/editor.rs:216-219 | after the reverse, the deletion list is the missing indices in descending order |
| LineReconcile.MissingDescHead | examples/editor.rs:219-220 | the next index to delete is the highest missing index below the last one deleted |
| LineReconcile.DeletionStep | examples/editor.rs:220-225 | one deletion removes the highest remaining missing section, or empties the only section left |
| LineReconcile.NothingSurvived | examples/editor.rs:223-224 | when no section received text, one section remains, and its text is empty |
| LineReconcile.DeletionDone | examples/editor.rs:219-226 | once the deletion list is drained, the sections are the write-back result |
| LineReconcile.WrittenBack | examples/editor.rs:211-226 | a text with sections keeps at least one section; a text without sections stays without |
| LineReconcile.WriteBackAllPresent | examples/editor.rs:211-218 | when every section received text, each keeps its style and takes its new text |
| LineReconcile.WriteBackNonePresent | examples/editor.rs:219-226 | when no section received text, only the first section's style survives, with empty text |
| LineReconcile.WrittenBackFrom | examples/editor.rs:211-226 | every resulting section has an original section's style and that index's rebuilt text |
| LineReconcile.KeyboardScratch.constructor | examples/editor.rs:117-118 | both scratch buffers start empty |
| LineReconcile.KeyboardScratch.Rebuild | examples/editor.rs:168-208 | the update map becomes the old map with every line's pieces appended, in buffer order |
| LineReconcile.KeyboardScratch.AppendLines | examples/editor.rs:168-208 | the map after all lines is the old map with each line's pieces appended, line by line |
| LineReconcile.KeyboardScratch.AppendNextLine | examples/editor.rs:168-207 | one more line's pieces are appended |
| LineReconcile.KeyboardScratch.AppendLine | examples/editor.rs:169-207 | one line's ranges and its tail are appended to the sections they belong to |
| LineReconcile.KeyboardScratch.AppendRanges | examples/editor.rs:183-199 | all of a line's ranges are appended; the position and section index where the tail begins are returned |
| LineReconcile.KeyboardScratch.AppendNextRange | examples/editor.rs:185-199 | one more range is appended and the position moves to its end |
| LineReconcile.KeyboardScratch.AppendRange | examples/editor.rs:186-198 | one range's gap, text and possible ending are appended to its section |
| LineReconcile.KeyboardScratch.WriteBack | examples/editor.rs:211-226 | the sections become the write-back result; only entries at or beyond the section count stay in the map; the deletion list ends empty |
| LineReconcile.KeyboardScratch.TakeUpdates | examples/editor.rs:211-218 | each section with an entry takes its text and the entry is removed; the indices without an entry are listed in ascending order |
| LineReconcile.KeyboardScratch.TakeAll | examples/editor.rs:211-218 | the same, over values: updated sections, leftover map, missing indices |
| LineReconcile.KeyboardScratch.TakeOne | examples/editor.rs:212-216 | one more index is taken or listed as missing |
| LineReconcile.KeyboardScratch.DeleteOne | examples/editor.rs:220-225 | one deletion keeps the draining invariant |
| LineReconcile.KeyboardScratch.DrainDeletions | examples/editor.rs:219-226 | the deletion list ends empty and the sections are the write-back result |
| CursorGlyph.FirstHit | examples/editor.rs:381-384 | the first glyph that the cursor index starts or falls strictly inside; no glyph before it does |
| CursorGlyph.CountGraphemes | examples/editor.rs:386-395 | `before` counts the graphemes of the cluster that start before the cursor; `total` counts them all |
| CursorGlyph.CursorGlyphOpt | examples/editor.rs:379-413 | the loop finds the same glyph and offset as the specification `Locate` |
| CursorGlyph.LocateCases | examples/editor.rs:379-413 | another line gives nothing; otherwise the first glyph the index starts or falls inside, with a zero offset exactly at its start; or one past the last glyph at the end of the run, or 0 on an empty run; nothing exactly when no glyph matches and the index is not the run's end |
| CursorGlyph.GraphemesBeforeAtMostAll | examples/editor.rs:390-394 | `before` never exceeds `total` |
| CursorGlyph.GraphemesBeforeCountsFirst | examples/editor.rs:390-394 | a cursor past the first grapheme counts at least one grapheme before it |
| CursorGlyph.FractionBounds | examples/editor.rs:384-398 | inside a glyph, between 1 and all of its graphemes lie before the cursor |
| CursorGlyph.CursorPosition | examples/editor.rs:348-376 | a position exists exactly when a cursor glyph exists; it is the chosen edge's x and the run's top |
| CursorGlyph.OffsetWithinWidth | examples/editor.rs:397 | the proportional offset lies between 0 and the glyph's width |
| CursorGlyph.CursorWithinGlyph | examples/editor.rs:350-373 | the x lies within the cursor glyph; at a glyph start it is the glyph's leading edge (the right edge for right-to-left); past the last glyph it is that glyph's trailing edge |
| Advanced.AdvancedWorld.constructor | examples/advanced.rs:216-232 | the world holds the given components |
| Advanced.Notify | examples/advanced.rs:234-237 | the notified flag becomes true; every other flag is unchanged |
| Advanced.NotifyNeverClears | examples/advanced.rs:234-237 | notifying never clears a flag, and notifying twice equals notifying once |
| Advanced.InitialiseHover | examples/advanced.rs:137-141 | every newly added hoverable span takes its base colour; no other span changes |
| Advanced.NotifyHovered | examples/advanced.rs:145-155 | the hovered entity's flag is set if it is a parented, hover-configured span; otherwise nothing changes |
| Advanced.NotifyNavigate | examples/advanced.rs:182-196 | on a fresh left click, the clicked parented link's flag is set; otherwise nothing changes |
| Advanced.LightUp | examples/advanced.rs:171-177 | every changed, set-flag span takes its hover colour; the remembered entity is the last one lit |
| Advanced.LightOne | examples/advanced.rs:171-177 | one more changed span is considered |
| Advanced.LitStep | examples/advanced.rs:171-177 | a span is lit exactly when it has a config and a set flag; lighting it changes only its colour |
| Advanced.LastLitStep | examples/advanced.rs:171-177 | the remembered entity becomes the span just lit, or stays as it was |
| Advanced.HoverEffect.constructor | examples/advanced.rs:159 | nothing is remembered at first |
| Advanced.HoverEffect.Run | examples/advanced.rs:158-178 | the previous span is restored, then changed spans are lit, and the last lit span is remembered |
| Advanced.LastLitIsLast | examples/advanced.rs:171-177 | the remembered entity is the last changed span that lit up, or the previous one when none did |
| Advanced.HoverEffectOutcome | examples/advanced.rs:158-178 | texts never change; a lit span has its hover colour; the previously remembered span has its base colour unless lit again; every other colour is kept |
| Advanced.NotifiedSpanLightsUp | examples/advanced.rs:171-177 | a span that was just notified, and changed last, ends in its hover colour and is remembered |
| Advanced.Bump | examples/advanced.rs:209-212 | every counter span's counter rises by one and its text shows the new counter |
| Advanced.BumpStep | examples/advanced.rs:209-212 | bumping one more counter span keeps the bump invariant |
| Advanced.BumpDone | examples/advanced.rs:209-212 | once all counter spans are bumped, the counters and texts are the bumped state |
| Advanced.NavigateEffect | examples/advanced.rs:199-214 | every counter rises once per changed link whose flag is set, and its span shows it |
| Advanced.FollowLinks | examples/advanced.rs:204-213 | the loop over changed links gives the same counters and texts |
| Advanced.FollowLink | examples/advanced.rs:204-213 | one more changed link is followed |
| Advanced.ClickAgain | examples/advanced.rs:204-213 | one more set link bumps once more on top of the previous state |
| Advanced.CounterSpansShowCounters | examples/advanced.rs:209-212 | after n bumps, each counter span's counter is n higher and its text reads back as the counter; nothing else changes |
| Advanced.ClickedLinkCountsOnce | examples/advanced.rs:204-207 | a link just notified counts as exactly one click |
| Monster.MonsterWorld.constructor | examples/monster.rs:100-107 | the world holds the given components and no despawn is queued |
| Monster.Damage | examples/monster.rs:109-144 | without a fresh left click nothing changes; otherwise each hit monster loses one health, not going below 0, and each hit monster at 0 is queued for despawn |
| Monster.HitMonsters | examples/monster.rs:126-141 | the loop gives the damaged healths and the dying monsters in query order |
| Monster.HitMonster | examples/monster.rs:132-139 | one more monster of the query is processed |
| Monster.DamageStep | examples/monster.rs:133-139 | processing monster i decrements only its health, and queues it exactly when it is hit and its health ends at 0 |
| Monster.DamagedStep | examples/monster.rs:133-135 | the health decrement for monster i, guarded against going below zero |
| Monster.DamageOutcome | examples/monster.rs:132-139 | every health drops by at most one, only for hit monsters with health; a monster is queued exactly when it is hit and ends at 0 |
| Monster.DyingMembers | examples/monster.rs:136-139 | a monster is queued exactly when it is hit and at 0 |
| Monster.HealthColor | examples/monster.rs:155-162 | red when under half health, yellow from half up to below full, green at full or above, or when the maximum is 0 |
| Monster.HealthShare | examples/monster.rs:155-159 | the ratio test `< 0.5` is `2·health < max` and `< 1.0` is `health < max` |
| Monster.SyncCurrentHealth | examples/monster.rs:147-165 | each current-health display of a changed monster shows its health in decimal and in its health colour; every other span is unchanged |
| Monster.SyncMaxHealth | examples/monster.rs:167-177 | each max-health display of a monster whose maximum changed shows it in decimal; every other span is unchanged |
| Monster.ClickedMonsterDisplay | examples/monster.rs:133-162 | after a click damages a monster, its current-health display reads one less, in the matching colour; an undamaged monster's display is unchanged |

## Findings

| source | as written | input that shows it | evidently intended | confidence | as-written member | corrected member |
|---|---|---|---|---|---|---|
| src/lib.rs:178 | `@process` receives the bundle but always spawns `TextBundle::default()` | `text2d!(commands, [("a")])` | `text2d!` spawns a `Text2dBundle` (its doc comment says so, and it passes `Text2dBundle` to `@process`) | high, not executed | TextMacro.SpawnAsWritten, TextMacro.Text2dSpawnsUiText | TextMacro.Spawn, TextMacro.SpawnShape |

## Left out

- Hit testing (`hit`, hitboxes, the window and camera) is outside the model. Its result is an input: the hovered or clicked entity, or the set of hit monsters.
- cosmic-text's `Editor::action` is the parameter `edit` of the editor model. The font system, shaping and layout are not modelled.
- Bevy change detection (`Changed`, `Added`) is not computed. The changed entities are inputs. ECS query order is an input sequence, or any order where the result does not depend on it.
- Grapheme segmentation is an input. Each glyph carries its graphemes' start offsets. Byte offsets in UTF-8 text are modelled as character indices.
- The editor example's rendering, `extract_cursor`, cursor animation and `examples/animated.rs` are not modelled. Nor are the setup systems, `main`, plugin registration, `handle_click` and logging (`info!`, `error!`, `dbg!`). The logged errors of `update_parent` are modelled as a returned list of reports.
- The macros' token syntax is not modelled. Nor are the trailing-comma arm, the unreachable `@unhandled` arm or the `@trace` arm. A tuple is modelled by its text, its style form and its components.
- Monster.Damage: `despawn_recursive` is modelled as a queue of entities. The recursive removal of descendants and the deferred command execution are not modelled.
- Monster.Damage assumes the query yields each monster once (`Distinct`), as a Bevy query does.
- Monster.HealthColor: computes the share with exact rationals, not `f32`. Rounding of `u32` to `f32` above 2^24 can change the colour at a boundary.
- CursorGlyph.CursorPosition: uses reals, without the `as i32` truncation and saturation. A cluster with no graphemes, where the source divides 0 by 0, is drawn at x = 0, because the NaN is truncated to 0 by `as i32`. This cannot happen for a `Segmented` glyph.
- Advanced.Bump: does not model `usize` overflow of the `Mutate` counter.
- Advanced.NavigateEffect: does not model `usize` overflow of the `Mutate` counter.
- Health values are natural numbers rather than `u32`. The only decrement is guarded against 0, so no wrap-around occurs.
