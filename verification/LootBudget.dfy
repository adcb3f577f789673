/** The budget rules around the allocation: extra rolls, the dungeon plan and the trim rule. */
module LootBudget {

  const EXTRA_CHANCE: real := 0.33

  import opened Sums

  /** roll(k) is the value of the k-th call of the roll function. */
  type Rolls = nat -> real

  /** Successful ones among the first n rolls. */
  ghost function Successes(roll: Rolls, chance: real, n: nat): (s: nat)
    ensures s <= n
  {
    if n == 0 then 0 else Successes(roll, chance, n - 1) + if roll(n - 1) < chance then 1 else 0
  }

  ghost function Below(roll: Rolls, chance: real, n: nat): set<nat> { set k: nat | k < n && roll(k) < chance }

  /** That is the number of rolls below the chance. */
  lemma {:induction false} SuccessesCount(roll: Rolls, chance: real, n: nat)
    ensures Successes(roll, chance, n) == |Below(roll, chance, n)|
  {
    if n > 0 {
      SuccessesCount(roll, chance, n - 1);
      var before := Below(roll, chance, n - 1);
      assert Below(roll, chance, n) == if roll(n - 1) < chance then before + {n - 1} else before;
    }
  }

  /** Rolls that succeed wherever others do never yield fewer successes, also over more slots. */
  lemma {:induction false} SuccessesMonotone(a: Rolls, b: Rolls, chance: real, m: nat, n: nat)
    requires m <= n && forall k: nat :: k < m && a(k) < chance ==> b(k) < chance
    ensures Successes(a, chance, m) <= Successes(b, chance, n)
    decreases n
  {
    if m < n {
      SuccessesMonotone(a, b, chance, m, n - 1);
    } else if n > 0 {
      SuccessesMonotone(a, b, chance, m - 1, n - 1);
    }
  }

  method RollCount(min: nat, max: nat, chance: real, roll: Rolls) returns (count: nat)
    ensures count == Min(min, max) + Successes(roll, chance, max - Min(min, max))
    ensures Min(min, max) <= count <= max
  {
    count := Min(min, max);
    var first := count;
    for slot := first to max
      invariant count == first + Successes(roll, chance, slot - first)
    {
      if roll(slot - first) < chance {
        count := count + 1;
      }
    }
  }

  // ---------------------------------------------------------------- dungeon plan

  datatype DungeonBand = DungeonBand(min: nat, max: nat, boeMax: nat)
  datatype DungeonPlan = DungeonPlan(own: nat, boe: nat) {
    function Total(): nat { own + boe }
  }

  /** The sure part of the plan: the minimum, from the own table first. */
  function SureItems(band: DungeonBand, ownDistinct: nat): nat {
    Min(band.min, ownDistinct + band.boeMax)
  }

  function ExtraSlots(band: DungeonBand, ownDistinct: nat): nat {
    if band.max > SureItems(band, ownDistinct) then band.max - SureItems(band, ownDistinct) else 0
  }

  /** A plan that gives `wanted` items as far as there are any, the own table first. */
  ghost predicate Gives(plan: DungeonPlan, wanted: nat, band: DungeonBand, ownDistinct: nat) {
    && plan.own <= ownDistinct && plan.boe <= band.boeMax
    && plan.Total() == Min(wanted, ownDistinct + band.boeMax)
    && (plan.boe > 0 ==> plan.own == ownDistinct)
  }

  method PlanDungeon(band: DungeonBand, ownDistinct: nat, roll: Rolls) returns (plan: DungeonPlan)
    ensures Gives(plan,
                  SureItems(band, ownDistinct) + Successes(roll, EXTRA_CHANCE, ExtraSlots(band, ownDistinct)),
                  band, ownDistinct)
    ensures var sure := Min(band.min, ownDistinct + band.boeMax);
            var slots := if band.max > sure then band.max - sure else 0;
            var wanted := sure + Successes(roll, 0.33, slots);
            && plan.own == Min(wanted, ownDistinct)
            && plan.boe == Min(wanted - plan.own, band.boeMax)
  {
    var own: nat := Min(band.min, ownDistinct);
    var boe: nat := Min(band.min - own, band.boeMax);
    var sure := own + boe;
    var slot := sure;
    while slot < band.max
      invariant sure == SureItems(band, ownDistinct)
      invariant sure <= slot && (slot == sure || slot <= band.max)
      invariant own <= ownDistinct && boe <= band.boeMax && (boe > 0 ==> own == ownDistinct)
      invariant own + boe == sure + Successes(roll, EXTRA_CHANCE, slot - sure)
    {
      var value := roll(slot - sure);
      slot := slot + 1;
      if !(value < EXTRA_CHANCE) { continue; }
      if own < ownDistinct {
        own := own + 1;
      } else if boe < band.boeMax {
        boe := boe + 1;
      } else {
        SuccessesMonotone(roll, roll, EXTRA_CHANCE, slot - sure, band.max - sure);
        break;
      }
    }
    plan := DungeonPlan(own, boe);
    PlanInFigures(plan, roll, band, ownDistinct);
  }

  /** The plan written out: each source gives what the one before it leaves to be wanted. */
  lemma {:induction false} PlanInFigures(plan: DungeonPlan, roll: Rolls, band: DungeonBand, ownDistinct: nat)
    requires Gives(plan,
                   SureItems(band, ownDistinct) + Successes(roll, EXTRA_CHANCE, ExtraSlots(band, ownDistinct)),
                   band, ownDistinct)
    ensures var sure := Min(band.min, ownDistinct + band.boeMax);
            var slots := if band.max > sure then band.max - sure else 0;
            var wanted := sure + Successes(roll, 0.33, slots);
            && plan.own == Min(wanted, ownDistinct)
            && plan.boe == Min(wanted - plan.own, band.boeMax)
  {
  }

  /** The plan is determined by the number of successes. */
  lemma {:induction false} PlanUnique(p: DungeonPlan, q: DungeonPlan, wanted: nat, band: DungeonBand, ownDistinct: nat)
    requires Gives(p, wanted, band, ownDistinct) && Gives(q, wanted, band, ownDistinct)
    ensures p == q
  {
    assert p.Total() == q.Total();
    assert (p.own < ownDistinct ==> p.boe == 0) && (q.own < ownDistinct ==> q.boe == 0);
  }

  /** Bounds of every plan: the minimum as far as possible, and the maximum whenever min <= max. */
  lemma {:induction false} PlanBounds(plan: DungeonPlan, roll: Rolls, band: DungeonBand, ownDistinct: nat)
    requires Gives(plan,
                   SureItems(band, ownDistinct) + Successes(roll, EXTRA_CHANCE, ExtraSlots(band, ownDistinct)),
                   band, ownDistinct)
    ensures Min(band.min, ownDistinct + band.boeMax) <= plan.Total() <= Max(band.max, SureItems(band, ownDistinct))
    ensures band.min <= band.max ==> plan.Total() <= band.max
  {
    assert Successes(roll, EXTRA_CHANCE, ExtraSlots(band, ownDistinct)) <= ExtraSlots(band, ownDistinct);
  }

  /** More successful rolls never give less: neither in total nor from either source. */
  lemma {:induction false} PlanMonotone(p: DungeonPlan, a: Rolls, q: DungeonPlan, b: Rolls, band: DungeonBand,
                                        ownDistinct: nat)
    requires forall k: nat :: a(k) < EXTRA_CHANCE ==> b(k) < EXTRA_CHANCE
    requires Gives(p, SureItems(band, ownDistinct) + Successes(a, EXTRA_CHANCE, ExtraSlots(band, ownDistinct)), band,
                   ownDistinct)
    requires Gives(q, SureItems(band, ownDistinct) + Successes(b, EXTRA_CHANCE, ExtraSlots(band, ownDistinct)), band,
                   ownDistinct)
    ensures p.own <= q.own && p.boe <= q.boe
  {
    SuccessesMonotone(a, b, EXTRA_CHANCE, ExtraSlots(band, ownDistinct), ExtraSlots(band, ownDistinct));
    assert p.Total() <= q.Total();
  }

  // ---------------------------------------------------------------- trim rule

  datatype LootCounts = LootCounts(mandatory: nat, fixedSet: nat, ownMin: nat, set_: nat, ownExtra: nat, normal: nat) {
    function Total(): nat { mandatory + fixedSet + ownMin + set_ + ownExtra + normal }
  }

  /** What no trim may cut. */
  function Protected(c: LootCounts, setNeed: nat): nat {
    c.mandatory + c.fixedSet + c.ownMin + Min(setNeed, c.set_)
  }

  /**
    `out` is the trim of `c`: only the three cuttable parts shrink, the total ends at the limit or
    at the protected floor (untouched if already within the limit), and a later part is cut only
    after the earlier ones reached their floors.
    */
  ghost predicate IsTrim(c: LootCounts, limit: nat, setNeed: nat, out: LootCounts) {
    && out.mandatory == c.mandatory && out.fixedSet == c.fixedSet && out.ownMin == c.ownMin
    && out.normal <= c.normal && Min(setNeed, c.set_) <= out.set_ <= c.set_ && out.ownExtra <= c.ownExtra
    && out.Total() == (if c.Total() <= limit then c.Total() else Max(limit, Protected(c, setNeed)))
    && (out.set_ < c.set_ ==> out.normal == 0)
    && (out.ownExtra < c.ownExtra ==> out.normal == 0 && out.set_ == Min(setNeed, c.set_))
  }

  method Cut(total: nat, limit: nat, part: nat, floor: nat) returns (left: nat)
    requires part <= total
    ensures left <= part && (floor <= part ==> floor <= left)
    ensures left < part ==> total - part + left >= limit
    ensures total - part + left > limit ==> left <= floor
  {
    left := part;
    if total <= limit || part <= floor { return; }
    var over := total - limit;
    left := part - Min(over, part - floor);
  }

  method Trim(c: LootCounts, limit: nat, setNeed: nat) returns (out: LootCounts)
    ensures IsTrim(c, limit, setNeed, out)
    ensures var total := c.mandatory + c.fixedSet + c.ownMin + c.set_ + c.ownExtra + c.normal;
            var over := if total > limit then total - limit else 0;
            var normalCut := Min(over, c.normal);
            var setCut := Min(over - normalCut, if c.set_ > setNeed then c.set_ - setNeed else 0);
            var ownCut := Min(over - normalCut - setCut, c.ownExtra);
            out == c.(normal := c.normal - normalCut, set_ := c.set_ - setCut, ownExtra := c.ownExtra - ownCut)
  {
    out := c;
    var n := Cut(out.Total(), limit, out.normal, 0);
    out := out.(normal := n);
    var s := Cut(out.Total(), limit, out.set_, Min(setNeed, out.set_));
    out := out.(set_ := s);
    var e := Cut(out.Total(), limit, out.ownExtra, 0);
    out := out.(ownExtra := e);
  }

  lemma {:induction false} TrimUnique(c: LootCounts, limit: nat, setNeed: nat, a: LootCounts, b: LootCounts)
    requires IsTrim(c, limit, setNeed, a) && IsTrim(c, limit, setNeed, b)
    ensures a == b
  {
    assert a.normal + a.set_ + a.ownExtra == b.normal + b.set_ + b.ownExtra;
  }

  /** Trimming a trimmed loot changes nothing. */
  lemma {:induction false} TrimIdempotent(c: LootCounts, limit: nat, setNeed: nat, once: LootCounts, twice: LootCounts)
    requires IsTrim(c, limit, setNeed, once) && IsTrim(once, limit, setNeed, twice)
    ensures twice == once
  {
    assert Protected(once, setNeed) == Protected(c, setNeed);
    assert IsTrim(once, limit, setNeed, once);
    TrimUnique(once, limit, setNeed, once, twice);
  }
}
