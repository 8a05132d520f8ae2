/** The integer health rule of the `Health` component: damage is subtracted
    with unchecked `int` arithmetic, and reaching zero or below pins health
    at zero and kills the entity the component sits on, if any. */
module Health {
  import opened Types

  /** A `Health` component: the configured `maxHealth`, the current health,
      whether `Start` found an `Entity` beside it, and how many times that
      entity's `Kill` has been invoked. */
  datatype Health = Health(maxHealth: Int32, health: Int32, hasEntity: bool, kills: nat)

  /** `Start`: health is set to `maxHealth`; `hasEntity` is what
      `TryGetComponent` found. */
  function Start(h: Health, hasEntity: bool): (r: Health)
    ensures r.health == h.maxHealth && r.maxHealth == h.maxHealth
    ensures r.hasEntity == hasEntity && r.kills == h.kills
  {
    h.(health := h.maxHealth, hasEntity := hasEntity)
  }

  /** `OnDamageEvent`: `health -= damageAmount` in unchecked `int`
      arithmetic; a result at or below zero becomes zero and invokes `Kill`
      once when an entity is present. Health is never negative afterwards. */
  function OnDamageEvent(h: Health, damage: Int32): (r: Health)
    ensures r.health >= 0
    ensures r.maxHealth == h.maxHealth && r.hasEntity == h.hasEntity
    ensures r.kills == h.kills || (r.kills == h.kills + 1 && h.hasEntity && r.health == 0)
  {
    var health := Wrap32(h.health - damage);
    if health <= 0 then
      h.(health := 0, kills := if h.hasEntity then h.kills + 1 else h.kills)
    else
      h.(health := health)
  }

  /** When the subtraction does not overflow, a positive result is kept
      exactly and kills nobody, and a result at or below zero leaves zero and
      kills exactly when an entity is present. */
  lemma DamageWithoutOverflow(h: Health, damage: Int32)
    requires -0x8000_0000 <= h.health - damage < 0x8000_0000
    ensures h.health - damage > 0 ==>
              OnDamageEvent(h, damage).health == h.health - damage && OnDamageEvent(h, damage).kills == h.kills
    ensures h.health - damage <= 0 ==>
              && OnDamageEvent(h, damage).health == 0
              && OnDamageEvent(h, damage).kills == (if h.hasEntity then h.kills + 1 else h.kills)
  {
  }

  /** Damage is not capped at `maxHealth`: a negative amount heals, past
      `maxHealth` if need be, as long as the sum stays an `int`. */
  lemma NegativeDamageHeals(h: Health, damage: Int32)
    requires h.health > 0 && damage < 0
    requires h.health - damage < 0x8000_0000
    ensures OnDamageEvent(h, damage).health == h.health - damage > h.health
  {
  }

  /** A component already at zero health is killed again by every further
      non-negative damage, zero included. */
  lemma DeadIsKilledAgain(h: Health, damage: Int32)
    requires h.health == 0 && damage >= 0 && h.hasEntity
    ensures OnDamageEvent(h, damage).health == 0
    ensures OnDamageEvent(h, damage).kills == h.kills + 1
  {
  }

  /** The unchecked arithmetic: healing one point at `int.MaxValue` wraps to
      `int.MinValue`, which the rule treats as death; damaging a negative
      `maxHealth` by `int.MaxValue` wraps to a large positive health. */
  lemma DamageWraps(h: Health)
    ensures h.health == 0x7FFF_FFFF ==>
              OnDamageEvent(h, -1).health == 0 && OnDamageEvent(h, -1).kills == (if h.hasEntity then h.kills + 1 else h.kills)
    ensures h.health == -2 ==> OnDamageEvent(h, 0x7FFF_FFFF).health == 0x7FFF_FFFF
  {
  }

  /** A run of damage events delivered in order. */
  function DamageAll(h: Health, damages: seq<Int32>): (r: Health)
    ensures r.maxHealth == h.maxHealth && r.hasEntity == h.hasEntity
    ensures r.kills >= h.kills
    ensures |damages| > 0 ==> r.health >= 0
    decreases |damages|
  {
    if |damages| == 0 then h else OnDamageEvent(DamageAll(h, damages[..|damages| - 1]), damages[|damages| - 1])
  }

  /** The total of a run of damage amounts. */
  function Sum(xs: seq<Int32>): (s: int)
    ensures (forall k :: 0 <= k < |xs| ==> xs[k] >= 0) ==> s >= 0
  {
    if |xs| == 0 then 0 else Sum(xs[..|xs| - 1]) + xs[|xs| - 1]
  }

  /** Non-negative damage never overflows from a non-negative health, so a
      run of such events leaves `max(0, health - total damage)`, and kills
      at least once if the total reaches the starting health. */
  lemma {:induction false} DamageAccumulates(h: Health, damages: seq<Int32>)
    requires h.health >= 0
    requires forall k :: 0 <= k < |damages| ==> damages[k] >= 0
    ensures DamageAll(h, damages).health == if h.health - Sum(damages) > 0 then h.health - Sum(damages) else 0
    ensures |damages| > 0 && h.hasEntity && Sum(damages) >= h.health ==> DamageAll(h, damages).kills > h.kills
    decreases |damages|
  {
    if |damages| > 0 {
      var init := damages[..|damages| - 1];
      var d := damages[|damages| - 1];
      assert forall k :: 0 <= k < |init| ==> init[k] >= 0 by {
        forall k | 0 <= k < |init| ensures init[k] >= 0 {
          assert init[k] == damages[k];
        }
      }
      DamageAccumulates(h, init);
      var mid := DamageAll(h, init);
      DamageWithoutOverflow(mid, d);
      if |init| > 0 && h.hasEntity && Sum(init) >= h.health {
        assert mid.kills > h.kills;
      }
    }
  }
}
