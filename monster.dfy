/// The monster example (examples/monster.rs): clicking a monster takes one
/// point of health, a monster whose health reaches zero is despawned, and
/// two text spans above it show its current health, coloured by how hurt it
/// is, and its maximum health.
///
/// Hit testing is not modelled: the monsters whose hitbox contains the
/// cursor are a parameter. Change detection is not modelled either: the
/// monsters whose health changed are a parameter of the display systems.
module Monster {
  import opened Host

  const Red: Color := Srgb(1.0, 0.0, 0.0)
  const Yellow: Color := Srgb(1.0, 1.0, 0.0)
  const Green: Color := Srgb(0.0, 1.0, 0.0)

  /// The components of the example's entities: which entities are monsters,
  /// their current and maximum health, the despawn commands queued so far,
  /// the span data of every span, and which monster each health display
  /// shows.
  class MonsterWorld {
    var monsters: set<Entity>
    var health: map<Entity, nat>
    var maxHealth: map<Entity, nat>
    var despawns: seq<Entity>
    var spans: map<Entity, Section>
    var currentDisplays: map<Entity, Entity>
    var maxDisplays: map<Entity, Entity>

    constructor(monsters: set<Entity>, health: map<Entity, nat>, maxHealth: map<Entity, nat>,
                spans: map<Entity, Section>, currentDisplays: map<Entity, Entity>, maxDisplays: map<Entity, Entity>)
      ensures this.monsters == monsters && this.health == health && this.maxHealth == maxHealth
      ensures this.despawns == [] && this.spans == spans
      ensures this.currentDisplays == currentDisplays && this.maxDisplays == maxDisplays
    {
      this.monsters := monsters;
      this.health := health;
      this.maxHealth := maxHealth;
      this.despawns := [];
      this.spans := spans;
      this.currentDisplays := currentDisplays;
      this.maxDisplays := maxDisplays;
    }
  }

  /// No entity occurs twice in `s`.
  predicate Distinct(s: seq<Entity>) {
    forall i, j :: 0 <= i < j < |s| ==> s[i] != s[j]
  }

  /// The health after a click: every hit monster of the query with health
  /// left loses one point.
  function Damaged(health: map<Entity, nat>, hits: set<Entity>, query: seq<Entity>): map<Entity, nat> {
    map e | e in health :: if e in query && e in hits && health[e] > 0 then health[e] - 1 else health[e]
  }

  /// The hit monsters of the query, in query order, whose health is zero.
  function Dying(health: map<Entity, nat>, hits: set<Entity>, query: seq<Entity>): seq<Entity>
    requires forall k :: 0 <= k < |query| ==> query[k] in health
  {
    if query == [] then []
    else
      var e := query[|query| - 1];
      Dying(health, hits, query[..|query| - 1]) + (if e in hits && health[e] == 0 then [e] else [])
  }

  /// The monsters a click takes a point of health from: the hit monsters of
  /// the query with health left. Only their health component is written, so
  /// they are the monsters whose health the host sees changed.
  function Hurt(health: map<Entity, nat>, hits: set<Entity>, query: seq<Entity>): set<Entity> {
    set e | e in health && e in query && e in hits && health[e] > 0
  }

  /// `damage`: on a left-button press, every monster of the query whose
  /// hitbox contains the cursor loses a point of health if it has any, and
  /// is queued for despawning if its health is then zero.
  method Damage(w: MonsterWorld, leftJustPressed: bool, hits: set<Entity>, query: seq<Entity>)
    requires Distinct(query)
    requires forall k :: 0 <= k < |query| ==> query[k] in w.health
    modifies w`health, w`despawns
    ensures w.health == if leftJustPressed then Damaged(old(w.health), hits, query) else old(w.health)
    ensures w.despawns == old(w.despawns) + if leftJustPressed then Dying(w.health, hits, query) else []
  {
    if !leftJustPressed {
      return;
    }
    w.health, w.despawns := HitMonsters(w.health, w.despawns, hits, query);
  }

  /// The loop of `Damage` over the query, once the button was pressed.
  method HitMonsters(h0: map<Entity, nat>, d0: seq<Entity>, hits: set<Entity>, query: seq<Entity>)
    returns (health: map<Entity, nat>, despawns: seq<Entity>)
    requires Distinct(query)
    requires forall k :: 0 <= k < |query| ==> query[k] in h0
    ensures health == Damaged(h0, hits, query)
    ensures despawns == d0 + Dying(health, hits, query)
  {
    health, despawns := h0, d0;
    for i := 0 to |query|
      invariant health == Damaged(h0, hits, query[..i])
      invariant despawns == d0 + Dying(Damaged(h0, hits, query), hits, query[..i])
    {
      health, despawns := HitMonster(h0, d0, hits, query, i, health, despawns);
    }
    assert query[..|query|] == query;
  }

  /// The body of the loop of `Damage`: the `i`-th monster of the query loses
  /// one point of health if it was hit and has any left, and is queued for
  /// despawning if it was hit and has none left.
  method HitMonster(ghost h0: map<Entity, nat>, ghost d0: seq<Entity>, hits: set<Entity>, query: seq<Entity>, i: nat,
                    health0: map<Entity, nat>, despawns0: seq<Entity>)
    returns (health: map<Entity, nat>, despawns: seq<Entity>)
    requires Distinct(query) && i < |query|
    requires forall k :: 0 <= k < |query| ==> query[k] in h0
    requires health0 == Damaged(h0, hits, query[..i])
    requires despawns0 == d0 + Dying(Damaged(h0, hits, query), hits, query[..i])
    ensures health == Damaged(h0, hits, query[..i + 1])
    ensures despawns == d0 + Dying(Damaged(h0, hits, query), hits, query[..i + 1])
  {
    ghost var after := Damaged(h0, hits, query);
    DamageStep(h0, hits, query, i);
    ghost var dying := Dying(after, hits, query[..i]);
    health, despawns := health0, despawns0;
    var e := query[i];
    if e in hits {
      if health[e] > 0 {
        health := health[e := health[e] - 1];
      }
      assert health[e] == after[e];
      if health[e] == 0 {
        despawns := despawns + [e];
        AppendAssoc(d0, dying, e);
      } else {
        assert dying + [] == dying;
      }
    } else {
      assert dying + [] == dying;
    }
  }

  // Proof plumbing: regrouping of the despawn queue, used by `HitMonster`.
  lemma AppendAssoc(a: seq<Entity>, b: seq<Entity>, x: Entity)
    ensures (a + b) + [x] == a + (b + [x])
  {
  }

  /// Handling one more monster of the query: its health is still the
  /// original one, and the health and the despawn queue each take its own
  /// contribution.
  lemma DamageStep(health: map<Entity, nat>, hits: set<Entity>, query: seq<Entity>, i: nat)
    requires Distinct(query) && i < |query|
    requires forall k :: 0 <= k < |query| ==> query[k] in health
    ensures var e := query[i];
      var before := Damaged(health, hits, query[..i]);
      && e in before && before[e] == health[e]
      && Damaged(health, hits, query[..i + 1]) ==
           (if e in hits && health[e] > 0 then before[e := health[e] - 1] else before)
    ensures var e := query[i];
      var after := Damaged(health, hits, query);
      && after[e] == (if e in hits && health[e] > 0 then health[e] - 1 else health[e])
      && Dying(after, hits, query[..i + 1]) ==
           Dying(after, hits, query[..i]) + (if e in hits && after[e] == 0 then [e] else [])
  {
    var e := query[i];
    assert query[..i + 1] == query[..i] + [e];
    DamagedStep(health, hits, query, i);
    assert query[..i + 1][..i] == query[..i];
  }

  lemma DamagedStep(health: map<Entity, nat>, hits: set<Entity>, query: seq<Entity>, i: nat)
    requires Distinct(query) && i < |query|
    requires forall k :: 0 <= k < |query| ==> query[k] in health
    requires query[..i + 1] == query[..i] + [query[i]]
    ensures var e := query[i];
      var before := Damaged(health, hits, query[..i]);
      && e in before && before[e] == health[e]
      && Damaged(health, hits, query[..i + 1]) ==
           (if e in hits && health[e] > 0 then before[e := health[e] - 1] else before)
  {
    assert query[i] !in query[..i];
  }

  /// Damage never takes more than one point, only from a hit monster that
  /// had health left, never goes below zero, and a monster is queued for
  /// despawning exactly when it was hit and has no health left.
  lemma DamageOutcome(health: map<Entity, nat>, hits: set<Entity>, query: seq<Entity>)
    requires forall k :: 0 <= k < |query| ==> query[k] in health
    ensures var after := Damaged(health, hits, query);
      && after.Keys == health.Keys
      && (forall e :: e in health ==>
            after[e] == (if e in query && e in hits && health[e] > 0 then health[e] - 1 else health[e]))
      && (forall e :: e in health ==> after[e] <= health[e] && health[e] - after[e] <= 1)
      && (forall e :: e in Dying(after, hits, query) <==> e in query && e in hits && after[e] == 0)
  {
    DyingMembers(Damaged(health, hits, query), hits, query);
  }

  /// The monsters queued for despawning are exactly the hit monsters of the
  /// query with no health.
  lemma {:induction false} DyingMembers(health: map<Entity, nat>, hits: set<Entity>, query: seq<Entity>)
    requires forall k :: 0 <= k < |query| ==> query[k] in health
    ensures forall e :: e in Dying(health, hits, query) <==> e in query && e in hits && health[e] == 0
  {
    if query != [] {
      var n := |query| - 1;
      DyingMembers(health, hits, query[..n]);
      assert query == query[..n] + [query[n]];
    }
  }

  /// The colour of the current-health display: the share of health left,
  /// `health / max` as a float, red below one half, yellow below one, green
  /// otherwise. A zero maximum divides by zero, giving infinity or NaN,
  /// neither of which is below one half or one.
  function HealthColor(health: nat, max: nat): (c: Color)
    ensures c == Red <==> max > 0 && 2 * health < max
    ensures c == Yellow <==> max > 0 && max <= 2 * health && health < max
    ensures c == Green <==> max == 0 || max <= health
  {
    if max == 0 then Green
    else
      var cmp := health as real / max as real;
      HealthShare(health, max);
      if cmp < 0.5 then Red else if cmp < 1.0 then Yellow else Green
  }

  /// The float comparisons of the share of health left, in whole numbers.
  lemma HealthShare(health: nat, max: nat)
    requires max > 0
    ensures health as real / max as real < 0.5 <==> 2 * health < max
    ensures health as real / max as real < 1.0 <==> health < max
  {
    ShareBelow(health, max, 1, 2);
    ShareBelow(health, max, 1, 1);
  }

  /// The share `health / max` is below `p / q` exactly when `q * health < p * max`.
  lemma ShareBelow(health: nat, max: nat, p: nat, q: nat)
    requires max > 0 && q > 0
    ensures health as real / max as real < p as real / q as real <==> q * health < p * max
  {
    var h, m := health as real, max as real;
    QuotientTimes(h, m);
    BelowIffScaled(h / m, p as real / q as real, m);
    QuotientTimes(p as real, q as real);
    BelowIffScaled(h, p as real / q as real * m, q as real);
    assert (q * health) as real == q as real * h;
    assert (p * max) as real == p as real / q as real * m * q as real;
  }

  /// Dividing by a positive number and multiplying back gives the dividend.
  lemma QuotientTimes(h: real, m: real)
    requires m > 0.0
    ensures h / m * m == h
  {
  }

  /// For a positive `m`, `q < t` exactly when `q * m < t * m`.
  lemma BelowIffScaled(q: real, t: real, m: real)
    requires m > 0.0
    ensures q < t <==> q * m < t * m
  {
    assert t * m - q * m == (t - q) * m;
    if q < t {
      PositiveProduct(t - q, m);
    } else {
      assert (q - t) * m >= 0.0 by {
        if q > t {
          PositiveProduct(q - t, m);
        }
      }
    }
  }

  // Proof plumbing: a non-linear fact used by `BelowIffScaled`.
  lemma PositiveProduct(a: real, b: real)
    requires a > 0.0 && b > 0.0
    ensures a * b > 0.0
  {
  }

  /// The spans after `sync_current_health`: every current-health display of
  /// a changed monster shows its health in decimal, in its health colour.
  function CurrentSynced(spans: map<Entity, Section>, displays: map<Entity, Entity>, maxDisplays: map<Entity, Entity>,
                         monsters: set<Entity>, health: map<Entity, nat>, maxHealth: map<Entity, nat>,
                         changed: set<Entity>): map<Entity, Section>
  {
    map d | d in spans ::
      if d in displays && d !in maxDisplays && displays[d] in monsters && displays[d] in changed
         && displays[d] in health && displays[d] in maxHealth
      then
        var m := displays[d];
        Section(Decimal(health[m]), spans[d].style.(color := HealthColor(health[m], maxHealth[m])))
      else spans[d]
  }

  /// The spans after `sync_max_health`: every max-health display of a
  /// monster whose maximum changed shows it in decimal.
  function MaxSynced(spans: map<Entity, Section>, displays: map<Entity, Entity>, currentDisplays: map<Entity, Entity>,
                     monsters: set<Entity>, maxHealth: map<Entity, nat>, changed: set<Entity>): map<Entity, Section>
  {
    map d | d in spans ::
      if d in displays && d !in currentDisplays && displays[d] in monsters && displays[d] in changed
         && displays[d] in maxHealth
      then spans[d].(value := Decimal(maxHealth[displays[d]]))
      else spans[d]
  }

  /// `sync_current_health`: every current-health display, in any order,
  /// of a monster whose health changed, shows that health and its colour.
  method SyncCurrentHealth(w: MonsterWorld, changed: set<Entity>)
    modifies w`spans
    ensures w.spans == CurrentSynced(old(w.spans), w.currentDisplays, w.maxDisplays, w.monsters, w.health,
                                     w.maxHealth, changed)
  {
    ghost var s0 := w.spans;
    var spans := w.spans;
    var todo := spans.Keys;
    while todo != {}
      invariant todo <= s0.Keys && spans.Keys == s0.Keys
      invariant forall d :: d in spans ==>
        spans[d] == if d in todo then s0[d]
                    else CurrentSynced(s0, w.currentDisplays, w.maxDisplays, w.monsters, w.health, w.maxHealth, changed)[d]
      decreases |todo|
    {
      var d :| d in todo;
      if d in w.currentDisplays && d !in w.maxDisplays {
        var m := w.currentDisplays[d];
        if m in w.monsters && m in changed && m in w.health && m in w.maxHealth {
          var h := w.health[m];
          spans := spans[d := Section(Decimal(h), spans[d].style.(color := HealthColor(h, w.maxHealth[m])))];
        }
      }
      todo := todo - {d};
    }
    w.spans := spans;
  }

  /// `sync_max_health`: every max-health display, in any order, of a monster
  /// whose maximum changed, shows that maximum.
  method SyncMaxHealth(w: MonsterWorld, changed: set<Entity>)
    modifies w`spans
    ensures w.spans == MaxSynced(old(w.spans), w.maxDisplays, w.currentDisplays, w.monsters, w.maxHealth, changed)
  {
    ghost var s0 := w.spans;
    var spans := w.spans;
    var todo := spans.Keys;
    while todo != {}
      invariant todo <= s0.Keys && spans.Keys == s0.Keys
      invariant forall d :: d in spans ==>
        spans[d] == if d in todo then s0[d]
                    else MaxSynced(s0, w.maxDisplays, w.currentDisplays, w.monsters, w.maxHealth, changed)[d]
      decreases |todo|
    {
      var d :| d in todo;
      if d in w.maxDisplays && d !in w.currentDisplays {
        var m := w.maxDisplays[d];
        if m in w.monsters && m in changed && m in w.maxHealth {
          spans := spans[d := spans[d].(value := Decimal(w.maxHealth[m]))];
        }
      }
      todo := todo - {d};
    }
    w.spans := spans;
  }

  /// After a click and the display sync, the display of a monster that lost
  /// a point reads back, in decimal, its new health, one less than before,
  /// in the colour for that health; a display of an unchanged monster is
  /// left as it was.
  lemma ClickedMonsterDisplay(spans: map<Entity, Section>, displays: map<Entity, Entity>,
                              maxDisplays: map<Entity, Entity>, monsters: set<Entity>, health: map<Entity, nat>,
                              maxHealth: map<Entity, nat>, hits: set<Entity>, query: seq<Entity>, d: Entity)
    requires d in spans && d in displays && d !in maxDisplays
    requires displays[d] in monsters && displays[d] in health && displays[d] in maxHealth
    ensures var m := displays[d];
      var after := Damaged(health, hits, query);
      var changed := Hurt(health, hits, query);
      var shown := CurrentSynced(spans, displays, maxDisplays, monsters, after, maxHealth, changed)[d];
      && (m in changed ==>
            && IsDigits(shown.value)
            && DecimalValue(shown.value) == health[m] - 1
            && shown.style.color == HealthColor(health[m] - 1, maxHealth[m]))
      && (m !in changed ==> shown == spans[d])
  {
    var m := displays[d];
    DecimalRoundTrip(Damaged(health, hits, query)[m]);
  }
}
