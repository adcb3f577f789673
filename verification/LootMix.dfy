/**
  The set-piece allocation of the loot rules: capped largest-remainder (Hamilton) apportionment,
  played in rounds. A round is specified declaratively (`HamiltonStep`); the specification has
  exactly one solution (`HamiltonStepUnique`) and the nested loops compute it.
  */
module LootMix {
  import opened Sums

  datatype ClassNeed = ClassNeed(classId: nat, members: nat, upgraders: nat, fixedDrops: nat)

  /** The field comments: the upgraders are counted among the members of the class. */
  ghost predicate WellFormed(classes: seq<ClassNeed>) {
    forall i :: 0 <= i < |classes| ==> classes[i].upgraders <= classes[i].members
  }

  /** Pieces a class can still take after `got` extra ones. */
  function Cap(c: ClassNeed, got: nat): nat {
    if c.upgraders > c.fixedDrops + got then c.upgraders - c.fixedDrops - got else 0
  }

  function Caps(classes: seq<ClassNeed>, extra: seq<nat>): (r: seq<nat>)
    requires |extra| == |classes|
  {
    seq(|classes|, i requires 0 <= i < |classes| => Cap(classes[i], extra[i]))
  }

  /** The members that count in a round: those of classes that can still take a piece. */
  function Weights(classes: seq<ClassNeed>, extra: seq<nat>): (r: seq<nat>)
    requires |extra| == |classes|
  {
    seq(|classes|, i requires 0 <= i < |classes| => if Cap(classes[i], extra[i]) > 0 then classes[i].members else 0)
  }

  function FixedDrops(classes: seq<ClassNeed>): (r: seq<nat>) {
    seq(|classes|, i requires 0 <= i < |classes| => classes[i].fixedDrops)
  }

  function Zeros(n: nat): (r: seq<nat>) { seq(n, i => 0) }

  /** What Mix mode may add: the setMax budget left by the fixed drops, but no more than the total room. */
  function Budget(classes: seq<ClassNeed>, setMax: nat): nat {
    var fixedTotal := Sum(FixedDrops(classes));
    if setMax > fixedTotal then Min(setMax - fixedTotal, Sum(Caps(classes, Zeros(|classes|)))) else 0
  }

  // ---------------------------------------------------------------- one round, declaratively

  /** `pieces` to share out by `weights` (their sum is `total`), at most `caps[i]` to class i. */
  datatype Round = Round(weights: seq<nat>, caps: seq<nat>, total: nat, pieces: nat) {

    ghost predicate Valid() {
      && |weights| == |caps|
      && total == Sum(weights) > 0
      && forall i :: 0 <= i < |caps| && caps[i] == 0 ==> weights[i] == 0
    }

    function Whole(i: nat): nat
      requires i < |weights| == |caps| && total > 0
    {
      Min(pieces * weights[i] / total, caps[i])
    }

    function Remainder(i: nat): nat
      requires i < |weights| && total > 0
    {
      pieces * weights[i] % total
    }

    /** Class i takes part in the remainder deal: its whole share did not fill it up. */
    predicate Open(i: nat)
      requires i < |weights| == |caps| && total > 0
    {
      Whole(i) < caps[i]
    }

    predicate Before(i: nat, j: nat)
      requires i < |weights| && j < |weights| && total > 0
    {
      Remainder(i) > Remainder(j) || (Remainder(i) == Remainder(j) && i < j)
    }
  }

  /** Class i got its whole share and one piece for its remainder. */
  ghost predicate Raised(r: Round, gain: seq<nat>, i: nat)
    requires r.Valid() && |gain| == |r.caps| && i < |gain|
  {
    gain[i] == r.Whole(i) + 1
  }

  /**
    The largest-remainder rule: everyone gets the whole share (capped); open classes get at most one
    more; never more than the round's pieces, and less only if no open class was passed over; and a
    class that was passed over comes after every raised one in (remainder, position) order.
    */
  ghost predicate HamiltonStep(r: Round, gain: seq<nat>)
    requires r.Valid()
  {
    && |gain| == |r.caps|
    && (forall i :: 0 <= i < |gain| ==> gain[i] == r.Whole(i) || (Raised(r, gain, i) && r.Open(i)))
    && Sum(gain) <= r.pieces
    && (Sum(gain) < r.pieces ==> forall i :: 0 <= i < |gain| && r.Open(i) ==> Raised(r, gain, i))
    && (forall i, j :: 0 <= i < |gain| && 0 <= j < |gain| && Raised(r, gain, i) && r.Open(j) && !Raised(r, gain, j)
                       ==> r.Before(i, j))
  }

  /** If `b` gives out more than `a`, `a` fell short of the round and so raised every open class. */
  lemma {:induction false} LargerDealIsNotLarger(r: Round, a: seq<nat>, b: seq<nat>)
    requires r.Valid() && HamiltonStep(r, a) && HamiltonStep(r, b)
    ensures Sum(b) <= Sum(a)
  {
    if forall i :: 0 <= i < |a| && r.Open(i) ==> Raised(r, a, i) {
      forall i | 0 <= i < |a| ensures b[i] <= a[i] {
        assert r.Open(i) ==> Raised(r, a, i);
      }
      SumMonotone(b, a);
    }
  }

  /** The rule leaves no choice. */
  lemma {:induction false} HamiltonStepUnique(r: Round, a: seq<nat>, b: seq<nat>)
    requires r.Valid() && HamiltonStep(r, a) && HamiltonStep(r, b)
    ensures a == b
  {
    LargerDealIsNotLarger(r, a, b);
    LargerDealIsNotLarger(r, b, a);
    if j :| 0 <= j < |a| && a[j] > b[j] {
      assert Raised(r, a, j) && r.Open(j) && !Raised(r, b, j);
      forall k | 0 <= k < |a| ensures b[k] <= a[k] {
        assert b[k] > a[k] ==> Raised(r, b, k) && r.Open(k) && !Raised(r, a, k);
        assert b[k] > a[k] ==> r.Before(j, k) && r.Before(k, j);
      }
      SumStrictlyMonotone(b, a, j);
    } else if k :| 0 <= k < |a| && b[k] > a[k] {
      SumStrictlyMonotone(a, b, k);
    }
  }

  /** Every round of at least one piece gives at least one. */
  lemma {:induction false} RoundProgress(r: Round, gain: seq<nat>)
    requires r.Valid() && HamiltonStep(r, gain) && r.pieces > 0
    ensures 1 <= Sum(gain) <= r.pieces
  {
    if forall i :: 0 <= i < |r.weights| ==> r.weights[i] == 0 {
      SumZero(r.weights);
    } else {
      var i :| 0 <= i < |r.weights| && r.weights[i] > 0;
      SumElement(gain, i);
      assert gain[i] == 0 ==> r.Open(i) && !Raised(r, gain, i);
    }
  }

  /** No class takes more than its cap. */
  lemma {:induction false} RoundWithinCaps(r: Round, gain: seq<nat>, i: nat)
    requires r.Valid() && HamiltonStep(r, gain) && i < |gain|
    ensures gain[i] <= r.caps[i]
  {
    assert gain[i] == r.Whole(i) || (Raised(r, gain, i) && r.Open(i));
  }

  // ---------------------------------------------------------------- the quota rule

  /** No cap binds: each eligible class has room for its share rounded up. */
  ghost predicate NoCapBinds(r: Round) {
    |r.weights| == |r.caps| && forall i :: 0 <= i < |r.caps| ==> r.pieces * r.weights[i] <= r.caps[i] * r.total
  }

  lemma {:induction false} MulMonotone(e: nat, a: nat, b: nat)
    requires a <= b
    ensures e * a <= e * b && a * e <= b * e && e * a == a * e
  {
  }

  lemma {:induction false} CancelLe(e: nat, a: nat, b: nat)
    requires e > 0 && e * a <= e * b
    ensures a <= b
  {
    if a > b { MulMonotone(e, b + 1, a); }
  }

  lemma {:induction false} CancelLt(e: nat, a: nat, b: nat)
    requires e * a < e * b
    ensures a < b
  {
    if a >= b { MulMonotone(e, b, a); }
  }

  /** Rounding down n/d against a cap with room for n: the floor fits, strictly if anything is cut off. */
  lemma {:induction false} FloorFits(n: nat, d: nat, cap: nat)
    requires d > 0
    ensures n == d * (n / d) + n % d && n % d < d
    ensures n <= cap * d ==> n / d <= cap && (n % d > 0 ==> n / d < cap)
  {
    var q := n / d;
    if n <= cap * d {
      CancelLe(d, q, cap);
      if n % d > 0 { CancelLt(d, q, cap); }
    }
  }

  /** Under `NoCapBinds` whole shares are floors, and a class with a remainder is open. */
  lemma {:induction false} WholeIsFloor(r: Round, i: nat)
    requires r.Valid() && NoCapBinds(r) && i < |r.caps|
    ensures r.total * r.Whole(i) + r.Remainder(i) == r.pieces * r.weights[i]
    ensures r.Remainder(i) < r.total
    ensures r.Remainder(i) > 0 ==> r.Open(i)
  {
    FloorFits(r.pieces * r.weights[i], r.total, r.caps[i]);
  }

  ghost function Shares(r: Round): seq<nat> {
    seq(|r.weights|, i requires 0 <= i < |r.weights| => r.pieces * r.weights[i])
  }

  ghost function Scaled(gain: seq<nat>, e: nat): seq<nat> {
    seq(|gain|, i requires 0 <= i < |gain| => e * gain[i])
  }

  /** The shares sum to pieces * total, the scaled gains to total * given. */
  lemma {:induction false} ScaledSums(r: Round, gain: seq<nat>)
    requires r.Valid() && |gain| == |r.caps|
    ensures Sum(Shares(r)) == r.total * r.pieces
    ensures Sum(Scaled(gain, r.total)) == r.total * Sum(gain)
  {
    hide Sum;
    SumScale(r.weights, r.pieces, Shares(r));
    SumScale(gain, r.total, Scaled(gain, r.total));
  }

  /** Where a class stands against its exact share, by whether it was raised. */
  lemma {:induction false} GainAgainstShare(r: Round, gain: seq<nat>, i: nat)
    requires r.Valid() && NoCapBinds(r) && HamiltonStep(r, gain) && i < |gain|
    ensures Raised(r, gain, i) ==> r.total * gain[i] + r.Remainder(i) == r.pieces * r.weights[i] + r.total
    ensures !Raised(r, gain, i) ==> r.total * gain[i] + r.Remainder(i) == r.pieces * r.weights[i]
  {
    WholeIsFloor(r, i);
    assert gain[i] == r.Whole(i) || Raised(r, gain, i);
    assert r.total * (r.Whole(i) + 1) == r.total * r.Whole(i) + r.total;
  }

  /** If every class with a remainder was raised, the shares are covered. */
  lemma {:induction false} RaisedCover(r: Round, gain: seq<nat>)
    requires r.Valid() && NoCapBinds(r) && HamiltonStep(r, gain)
    requires forall i :: 0 <= i < |gain| && r.Remainder(i) > 0 ==> Raised(r, gain, i)
    ensures r.pieces <= Sum(gain)
    ensures (exists i :: 0 <= i < |gain| && r.Remainder(i) == 0 && Raised(r, gain, i)) ==> r.pieces < Sum(gain)
  {
    ScaledSums(r, gain);
    forall i | 0 <= i < |gain|
      ensures Shares(r)[i] <= Scaled(gain, r.total)[i]
      ensures r.Remainder(i) == 0 && Raised(r, gain, i) ==> Shares(r)[i] < Scaled(gain, r.total)[i]
    {
      WholeIsFloor(r, i);
      GainAgainstShare(r, gain, i);
    }
    SumMonotone(Shares(r), Scaled(gain, r.total));
    CancelLe(r.total, r.pieces, Sum(gain));
    if i :| 0 <= i < |gain| && r.Remainder(i) == 0 && Raised(r, gain, i) {
      SumStrictlyMonotone(Shares(r), Scaled(gain, r.total), i);
      CancelLt(r.total, r.pieces, Sum(gain));
    }
  }

  /** When no cap binds, one round gives out every piece. */
  lemma {:induction false} QuotaExhausts(r: Round, gain: seq<nat>)
    requires r.Valid() && NoCapBinds(r) && HamiltonStep(r, gain)
    ensures Sum(gain) == r.pieces
  {
    if forall i :: 0 <= i < |gain| && r.Open(i) ==> Raised(r, gain, i) {
      forall i | 0 <= i < |gain| && r.Remainder(i) > 0 ensures Raised(r, gain, i) {
        WholeIsFloor(r, i);
      }
      RaisedCover(r, gain);
    }
  }

  /** Only classes with a remainder are rounded up. */
  lemma {:induction false} RaisedHasRemainder(r: Round, gain: seq<nat>, i: nat)
    requires r.Valid() && NoCapBinds(r) && HamiltonStep(r, gain) && i < |gain|
    requires Raised(r, gain, i)
    ensures r.Remainder(i) > 0
  {
    if forall j :: 0 <= j < |gain| && r.Remainder(j) > 0 ==> Raised(r, gain, j) {
      RaisedCover(r, gain);
    } else {
      var j :| 0 <= j < |gain| && r.Remainder(j) > 0 && !Raised(r, gain, j);
      WholeIsFloor(r, j);
      assert r.Before(i, j);
    }
  }

  /**
    The quota rule. When no cap binds, every class gets its exact share
    pieces * weight / total rounded down or up: the two differ by less than one piece.
    */
  lemma {:induction false} QuotaRule(r: Round, gain: seq<nat>, i: nat)
    requires r.Valid() && NoCapBinds(r) && HamiltonStep(r, gain) && i < |gain|
    ensures r.pieces * r.weights[i] < r.total * gain[i] + r.total
    ensures r.total * gain[i] < r.pieces * r.weights[i] + r.total
  {
    WholeIsFloor(r, i);
    GainAgainstShare(r, gain, i);
    if Raised(r, gain, i) { RaisedHasRemainder(r, gain, i); }
  }

  // ---------------------------------------------------------------- stable sort

  type Claim = (nat, nat)   // (remainder, class index)

  predicate Ahead(a: Claim, b: Claim) {
    a.0 > b.0 || (a.0 == b.0 && a.1 < b.1)
  }

  ghost predicate Ordered(s: seq<Claim>) {
    forall i, j :: 0 <= i < j < |s| ==> Ahead(s[i], s[j])
  }

  function Insert(x: Claim, s: seq<Claim>): (r: seq<Claim>)
    ensures |r| == |s| + 1
    ensures forall c :: c in r <==> c == x || c in s
  {
    if s == [] then [x]
    else if s[0].0 > x.0 then [s[0]] + Insert(x, s[1..])
    else [x] + s
  }

  /** std::stable_sort by descending remainder, as insertion from the right. */
  function StableSort(s: seq<Claim>): (r: seq<Claim>)
    ensures |r| == |s|
    ensures forall c :: c in r <==> c in s
  {
    if s == [] then [] else Insert(s[0], StableSort(s[1..]))
  }

  lemma {:induction false} InsertOrdered(x: Claim, s: seq<Claim>)
    requires Ordered(s) && forall c :: c in s ==> x.1 < c.1
    ensures Ordered(Insert(x, s))
    decreases |s|
  {
    if s != [] && s[0].0 > x.0 {
      InsertOrdered(x, s[1..]);
      var t := Insert(x, s[1..]);
      forall j | 0 <= j < |t| ensures Ahead(s[0], t[j]) {
        assert t[j] in t;
      }
    } else if s != [] {
      forall j | 0 <= j < |s| ensures Ahead(x, s[j]) {
        assert s[j] in s;
        if j > 0 { assert Ahead(s[0], s[j]); }
      }
    }
  }

  /** Claims stand in the order of the classes, as they were noted. */
  ghost predicate InClassOrder(claims: seq<Claim>) {
    forall i, j :: 0 <= i < j < |claims| ==> claims[i].1 < claims[j].1
  }

  lemma {:induction false} StableSortOrdered(s: seq<Claim>)
    requires InClassOrder(s)
    ensures Ordered(StableSort(s))
    decreases |s|
  {
    if s != [] {
      StableSortOrdered(s[1..]);
      InsertOrdered(s[0], StableSort(s[1..]));
    }
  }

  // ---------------------------------------------------------------- the loops

  function RoundOf(classes: seq<ClassNeed>, extra: seq<nat>, pieces: nat): (r: Round)
    requires |extra| == |classes|
  {
    Round(Weights(classes, extra), Caps(classes, extra), Sum(Weights(classes, extra)), pieces)
  }

  method EligibleMembers(classes: seq<ClassNeed>, extra: seq<nat>) returns (total: nat)
    requires |extra| == |classes|
    ensures total == Sum(Weights(classes, extra))
  {
    total := 0;
    ghost var w := Weights(classes, extra);
    for i := 0 to |classes|
      invariant total == Sum(w[..i])
    {
      SumPrefix(w, i);
      if classes[i].upgraders > classes[i].fixedDrops + extra[i] {
        total := total + classes[i].members;
      }
    }
    assert w[..|classes|] == w;
  }

  /** `claims` lists, with their remainders, exactly the open classes below `upto`. */
  ghost predicate ClaimsOf(r: Round, upto: nat, claims: seq<Claim>)
    requires r.Valid() && upto <= |r.caps|
  {
    && (forall c :: c in claims ==> c.1 < upto && r.Open(c.1) && c.0 == r.Remainder(c.1))
    && (forall i :: 0 <= i < upto && r.Open(i) ==> (r.Remainder(i), i) in claims)
  }

  /** `extra` is `base` plus `gain`. */
  ghost predicate Adds(base: seq<nat>, gain: seq<nat>, extra: seq<nat>) {
    |base| == |gain| == |extra| && forall i :: 0 <= i < |base| ==> extra[i] == base[i] + gain[i]
  }

  lemma {:induction false} ClaimsExtend(r: Round, i: nat, claims: seq<Claim>)
    requires r.Valid() && i < |r.caps| && ClaimsOf(r, i, claims)
    ensures var next := if r.Open(i) then claims + [(r.Remainder(i), i)] else claims;
            ClaimsOf(r, i + 1, next) && (InClassOrder(claims) ==> InClassOrder(next))
  {
    var next := if r.Open(i) then claims + [(r.Remainder(i), i)] else claims;
    forall k | 0 <= k < i + 1 && r.Open(k) ensures (r.Remainder(k), k) in next {
      if k < i { assert (r.Remainder(k), k) in claims; }
    }
    forall k | 0 <= k < |claims| ensures claims[k].1 < i { assert claims[k] in claims; }
  }

  /** The round's figures for class i are what the loop computes. */
  lemma {:induction false} RoundFigures(classes: seq<ClassNeed>, base: seq<nat>, round: nat, i: nat)
    requires |base| == |classes| && i < |classes| && Sum(Weights(classes, base)) > 0
    ensures var r, cap, share := RoundOf(classes, base, round), Cap(classes[i], base[i]), round * classes[i].members;
            && r.caps[i] == cap
            && r.Whole(i) == (if cap == 0 then 0 else WholePart(share, r.total, cap))
            && (cap > 0 ==> r.Remainder(i) == Leftover(share, r.total))
            && (r.Open(i) <==> r.Whole(i) < cap)
  {
    var r := RoundOf(classes, base, round);
    assert r.weights[i] == if Cap(classes[i], base[i]) > 0 then classes[i].members else 0;
  }

  /** After the first i classes: their whole shares are dealt and their claims noted. */
  ghost predicate Dealt(r: Round, base: seq<nat>, i: nat, extra: seq<nat>, claims: seq<Claim>, gain: seq<nat>)
    requires r.Valid() && |base| == |r.caps|
  {
    && |gain| == i <= |base| == |extra|
    && (forall k :: 0 <= k < i ==> gain[k] == r.Whole(k) && extra[k] == base[k] + gain[k])
    && (forall k :: i <= k < |base| ==> extra[k] == base[k])
    && ClaimsOf(r, i, claims) && InClassOrder(claims)
  }

  lemma {:induction false} DealtStart(classes: seq<ClassNeed>, base: seq<nat>, round: nat)
    requires |base| == |classes| && Sum(Weights(classes, base)) > 0
    ensures var r := RoundOf(classes, base, round);
            && r.Valid() && r.total == Sum(Weights(classes, base)) && |r.caps| == |base|
            && Dealt(r, base, 0, base, [], []) && Sum([]) == 0
  {
  }

  lemma {:induction false} DealtEnd(r: Round, base: seq<nat>, extra: seq<nat>, claims: seq<Claim>, gain: seq<nat>)
    requires r.Valid() && |base| == |r.caps| && Dealt(r, base, |base|, extra, claims, gain)
    ensures Adds(base, gain, extra) && ClaimsOf(r, |base|, claims) && InClassOrder(claims)
    ensures forall i :: 0 <= i < |gain| ==> gain[i] == r.Whole(i)
  {
  }

  lemma {:induction false} DealtStep(r: Round, base: seq<nat>, i: nat, extra: seq<nat>, claims: seq<Claim>,
                                     gain: seq<nat>)
    requires r.Valid() && |base| == |r.caps| && i < |base| && Dealt(r, base, i, extra, claims, gain)
    ensures |extra| == |base| && extra[i] == base[i]
    ensures Dealt(r, base, i + 1, extra[i := extra[i] + r.Whole(i)],
                  if r.Open(i) then claims + [(r.Remainder(i), i)] else claims, gain + [r.Whole(i)])
  {
    ClaimsExtend(r, i, claims);
    hide Round.Whole, Round.Remainder, Round.Open, ClaimsOf, InClassOrder;
  }

  /** The whole part of a share, cut at the room left, and what the division leaves over. */
  function WholePart(share: nat, total: nat, cap: nat): nat
    requires total > 0
  {
    Min(share / total, cap)
  }

  function Leftover(share: nat, total: nat): nat
    requires total > 0
  {
    share % total
  }

  /** The first inner loop: whole shares, and the claims of the classes that stay open. */
  method DealWholeShares(classes: seq<ClassNeed>, base: seq<nat>, eligibleMembers: nat, round: nat)
    returns (extra: seq<nat>, claims: seq<Claim>, given: nat, ghost gain: seq<nat>)
    requires |base| == |classes|
    requires eligibleMembers == Sum(Weights(classes, base)) > 0
    ensures Adds(base, gain, extra) && given == Sum(gain)
    ensures forall i :: 0 <= i < |gain| ==> gain[i] == RoundOf(classes, base, round).Whole(i)
    ensures ClaimsOf(RoundOf(classes, base, round), |classes|, claims)
    ensures InClassOrder(claims)
  {
    hide Dealt, Sum, RoundOf, WholePart, Leftover, ClaimsOf, InClassOrder;
    hide Round.Whole, Round.Remainder, Round.Open, Round.Valid;
    ghost var r := RoundOf(classes, base, round);
    DealtStart(classes, base, round);
    extra, claims, given, gain := base, [], 0, [];
    for i := 0 to |classes|
      invariant given == Sum(gain) && |extra| == |base|
      invariant Dealt(r, base, i, extra, claims, gain)
    {
      DealtStep(r, base, i, extra, claims, gain);
      RoundFigures(classes, base, round, i);
      var cap := Cap(classes[i], extra[i]);
      var share := round * classes[i].members;
      var whole := WholePart(share, eligibleMembers, cap);
      var remainder := Leftover(share, eligibleMembers);
      if cap == 0 {
        assert extra[i := extra[i] + 0] == extra;
        SumAppend(gain, 0);
        gain := gain + [0];
        continue;
      }
      extra := extra[i := extra[i] + whole];
      given := given + whole;
      SumAppend(gain, whole);
      gain := gain + [whole];
      if whole < cap {
        claims := claims + [(remainder, i)];
      }
    }
    DealtEnd(r, base, extra, claims, gain);
  }

  /** Shares rounded down never exceed the pieces. */
  lemma {:induction false} WholeSharesFit(r: Round, whole: seq<nat>)
    requires r.Valid() && |whole| == |r.caps|
    requires forall i :: 0 <= i < |whole| ==> whole[i] == r.Whole(i)
    ensures Sum(whole) <= r.pieces
  {
    ScaledSums(r, whole);
    forall i | 0 <= i < |whole|
      ensures Scaled(whole, r.total)[i] <= Shares(r)[i]
    {
      var share := r.pieces * r.weights[i];
      FloorFits(share, r.total, 0);
      MulMonotone(r.total, whole[i], share / r.total);
    }
    SumMonotone(Scaled(whole, r.total), Shares(r));
    CancelLe(r.total, Sum(whole), r.pieces);
  }

  /** Class i holds one of the first n claims. */
  ghost predicate Among(claims: seq<Claim>, n: nat, i: nat) {
    exists k :: 0 <= k < n <= |claims| && claims[k].1 == i
  }

  /** The second inner loop: one piece each in claim order while the round has pieces left. */
  method DealRemainders(ghost r: Round, ghost base: seq<nat>, ghost whole: seq<nat>, extra0: seq<nat>,
                        claims: seq<Claim>,
                        given0: nat, round: nat)
    returns (extra: seq<nat>, given: nat, ghost gain: seq<nat>)
    requires r.Valid() && r.pieces == round && |whole| == |r.caps|
    requires forall i :: 0 <= i < |whole| ==> whole[i] == r.Whole(i)
    requires Adds(base, whole, extra0) && given0 == Sum(whole)
    requires ClaimsOf(r, |r.caps|, claims) && Ordered(claims)
    ensures Adds(base, gain, extra) && given == Sum(gain)
    ensures HamiltonStep(r, gain)
  {
    WholeSharesFit(r, whole);
    extra, given, gain := extra0, given0, whole;
    var k := 0;
    while k < |claims| && given < round
      invariant k <= |claims| && given <= round
      invariant Adds(base, gain, extra) && given == Sum(gain) && |gain| == |whole|
      invariant forall i :: 0 <= i < |gain| ==> gain[i] == whole[i] + if Among(claims, k, i) then 1 else 0
    {
      var i := claims[k].1;
      ghost var before := gain;
      assert claims[k] in claims;
      NotAmongEarlier(r, claims, k);
      extra := extra[i := extra[i] + 1];
      given := given + 1;
      SumUpdate(gain, i, gain[i] + 1);
      gain := gain[i := gain[i] + 1];
      k := k + 1;
      forall j | 0 <= j < |gain|
        ensures gain[j] == whole[j] + if Among(claims, k, j) then 1 else 0
      {
        AmongStep(claims, k - 1, j);
      }
    }
    ClaimOrderIsHamilton(r, whole, claims, k, gain);
  }

  lemma {:induction false} AmongStep(claims: seq<Claim>, k: nat, i: nat)
    requires k < |claims|
    ensures Among(claims, k + 1, i) <==> Among(claims, k, i) || claims[k].1 == i
  {
    if Among(claims, k, i) {
      var j :| 0 <= j < k && claims[j].1 == i;
      assert claims[j].1 == i && j < k + 1;
    }
  }

  lemma {:induction false} NotAmongEarlier(r: Round, claims: seq<Claim>, k: nat)
    requires r.Valid() && ClaimsOf(r, |r.caps|, claims) && Ordered(claims) && k < |claims|
    ensures !Among(claims, k, claims[k].1)
  {
    forall j | 0 <= j < k ensures claims[j].1 != claims[k].1 {
      assert Ahead(claims[j], claims[k]) && claims[j] in claims && claims[k] in claims;
    }
  }

  /** Raising the first k claims, where k stops only at the round's end or the claims' end, is a Hamilton step. */
  lemma {:induction false} ClaimOrderIsHamilton(r: Round, whole: seq<nat>, claims: seq<Claim>, k: nat, gain: seq<nat>)
    requires r.Valid() && |whole| == |r.caps| == |gain| && k <= |claims|
    requires forall i :: 0 <= i < |whole| ==> whole[i] == r.Whole(i)
    requires ClaimsOf(r, |r.caps|, claims) && Ordered(claims)
    requires forall i :: 0 <= i < |gain| ==> gain[i] == whole[i] + if Among(claims, k, i) then 1 else 0
    requires Sum(gain) <= r.pieces && (Sum(gain) < r.pieces ==> k == |claims|)
    ensures HamiltonStep(r, gain)
  {
    hide Sum, Round.Whole, Round.Remainder;
    forall i | 0 <= i < |gain|
      ensures gain[i] == r.Whole(i) || (Raised(r, gain, i) && r.Open(i))
      ensures Sum(gain) < r.pieces && r.Open(i) ==> Raised(r, gain, i)
    {
      if Among(claims, k, i) {
        var a :| 0 <= a < k && claims[a].1 == i;
        assert claims[a] in claims;
      }
      if r.Open(i) { assert (r.Remainder(i), i) in claims; }
    }
    forall i, j | 0 <= i < |gain| && 0 <= j < |gain| && Raised(r, gain, i) && r.Open(j) && !Raised(r, gain, j)
      ensures r.Before(i, j)
    {
      var a :| 0 <= a < k && claims[a].1 == i;
      assert claims[a] in claims && (r.Remainder(j), j) in claims;
      var b :| 0 <= b < |claims| && claims[b] == (r.Remainder(j), j);
      assert b >= k && Ahead(claims[a], claims[b]);
    }
  }

  // ---------------------------------------------------------------- whole runs

  ghost function Difference(a: seq<nat>, b: seq<nat>): (r: seq<nat>)
    requires |a| == |b| && forall i :: 0 <= i < |a| ==> a[i] <= b[i]
  {
    seq(|a|, i requires 0 <= i < |a| => b[i] - a[i])
  }

  /** One round takes the allocation from `a` to `b`, with `pieces` still to give at `a`. */
  ghost predicate StepTo(classes: seq<ClassNeed>, a: seq<nat>, pieces: nat, b: seq<nat>) {
    && |a| == |b| == |classes| && pieces > 0
    && (forall i :: 0 <= i < |a| ==> a[i] <= b[i])
    && RoundOf(classes, a, pieces).Valid()
    && HamiltonStep(RoundOf(classes, a, pieces), Difference(a, b))
  }

  /** The state after a round: nothing left to give, or nobody left to take it. */
  ghost predicate Finished(classes: seq<ClassNeed>, extra: seq<nat>, pieces: nat)
    requires |extra| == |classes|
  {
    Sum(extra) == pieces || Sum(Weights(classes, extra)) == 0
  }

  /** A play of the rounds: the allocation before the first one, and the one each round leaves. */
  datatype Play = Start(state: seq<nat>) | Turn(before: Play, state: seq<nat>) {
    function Rounds(): nat {
      match this case Start(_) => 0 case Turn(b, _) => b.Rounds() + 1
    }
  }

  /** Hamilton rounds from nothing. */
  ghost predicate Legal(classes: seq<ClassNeed>, pieces: nat, p: Play) {
    match p
    case Start(z) => z == Zeros(|classes|)
    case Turn(b, next) =>
      Legal(classes, pieces, b) && Sum(b.state) <= pieces && StepTo(classes, b.state, pieces - Sum(b.state), next)
  }

  /** A complete play. */
  ghost predicate IsRun(classes: seq<ClassNeed>, pieces: nat, p: Play) {
    Legal(classes, pieces, p) && |p.state| == |classes| && Finished(classes, p.state, pieces)
  }

  lemma {:induction false} StepToUnique(classes: seq<ClassNeed>, a: seq<nat>, pieces: nat, b: seq<nat>, c: seq<nat>)
    requires StepTo(classes, a, pieces, b) && StepTo(classes, a, pieces, c)
    ensures b == c
  {
    HamiltonStepUnique(RoundOf(classes, a, pieces), Difference(a, b), Difference(a, c));
    forall i | 0 <= i < |a| ensures b[i] == c[i] {
      assert Difference(a, b)[i] == Difference(a, c)[i];
    }
  }

  lemma {:induction false} EqualRoundsEqualPlay(classes: seq<ClassNeed>, pieces: nat, p: Play, q: Play)
    requires Legal(classes, pieces, p) && Legal(classes, pieces, q) && p.Rounds() == q.Rounds()
    ensures p == q
  {
    hide StepTo, Sum;
    if p.Turn? {
      EqualRoundsEqualPlay(classes, pieces, p.before, q.before);
      StepToUnique(classes, p.before.state, pieces - Sum(p.before.state), p.state, q.state);
    }
  }

  /** No legal play is longer than a complete one. */
  lemma {:induction false} NoLongerThanRun(classes: seq<ClassNeed>, pieces: nat, run: Play, q: Play)
    requires IsRun(classes, pieces, run) && Legal(classes, pieces, q)
    ensures q.Rounds() <= run.Rounds()
  {
    if q.Turn? {
      NoLongerThanRun(classes, pieces, run, q.before);
      if q.before.Rounds() == run.Rounds() { EqualRoundsEqualPlay(classes, pieces, run, q.before); }
    }
  }

  /** The rules fix the outcome: two complete plays are the same play. */
  lemma {:induction false} RunUnique(classes: seq<ClassNeed>, pieces: nat, p: Play, q: Play)
    requires IsRun(classes, pieces, p) && IsRun(classes, pieces, q)
    ensures p == q
  {
    NoLongerThanRun(classes, pieces, p, q);
    NoLongerThanRun(classes, pieces, q, p);
    EqualRoundsEqualPlay(classes, pieces, p, q);
  }

  lemma {:induction false} StepAdds(classes: seq<ClassNeed>, a: seq<nat>, pieces: nat, b: seq<nat>)
    requires StepTo(classes, a, pieces, b)
    ensures Sum(a) + 1 <= Sum(b) <= Sum(a) + pieces
    ensures forall i :: 0 <= i < |a| ==> b[i] - a[i] <= Cap(classes[i], a[i])
  {
    var r, gain := RoundOf(classes, a, pieces), Difference(a, b);
    SumAdd(a, gain, b);
    RoundProgress(r, gain);
    forall i | 0 <= i < |a| ensures b[i] - a[i] <= Cap(classes[i], a[i]) {
      RoundWithinCaps(r, gain, i);
      assert gain[i] == b[i] - a[i] && r.caps[i] == Cap(classes[i], a[i]);
    }
  }

  /** If the first round has room everywhere, it gives out everything. */
  lemma {:induction false} FirstRoundExhausts(classes: seq<ClassNeed>, pieces: nat, next: seq<nat>)
    requires StepTo(classes, Zeros(|classes|), pieces, next)
    requires NoCapBinds(RoundOf(classes, Zeros(|classes|), pieces))
    ensures Sum(next) == pieces
    ensures HamiltonStep(RoundOf(classes, Zeros(|classes|), pieces), next)
  {
    assert Difference(Zeros(|classes|), next) == next;
    QuotaExhausts(RoundOf(classes, Zeros(|classes|), pieces), next);
  }

  /** ... and so it is the only one. */
  lemma {:induction false} OneRound(classes: seq<ClassNeed>, pieces: nat, p: Play)
    requires Legal(classes, pieces, p) && p.Turn?
    requires NoCapBinds(RoundOf(classes, Zeros(|classes|), pieces))
    ensures p.before == Start(Zeros(|classes|)) && StepTo(classes, Zeros(|classes|), pieces, p.state)
  {
    if p.before.Turn? {
      OneRound(classes, pieces, p.before);
      FirstRoundExhausts(classes, pieces, p.before.state);
    } else {
      SumZero(Zeros(|classes|));
    }
  }

  /**
    The quota rule for a whole play: if the first round has room everywhere, it is the only round,
    all pieces go out, and every class ends within one piece of pieces * members / eligible members.
    */
  lemma {:induction false} QuotaOfRun(classes: seq<ClassNeed>, pieces: nat, p: Play, i: nat)
    requires IsRun(classes, pieces, p) && i < |classes|
    requires pieces > 0 && Sum(Weights(classes, Zeros(|classes|))) > 0
    requires NoCapBinds(RoundOf(classes, Zeros(|classes|), pieces))
    ensures p.Rounds() == 1 && Sum(p.state) == pieces
    ensures var r := RoundOf(classes, Zeros(|classes|), pieces);
            && r.pieces * r.weights[i] < r.total * p.state[i] + r.total
            && r.total * p.state[i] < r.pieces * r.weights[i] + r.total
  {
    SumZero(Zeros(|classes|));
    assert p.Turn?;
    OneRound(classes, pieces, p);
    FirstRoundExhausts(classes, pieces, p.state);
    QuotaRule(RoundOf(classes, Zeros(|classes|), pieces), p.state, i);
  }

  /** With `upgraders <= members`, nobody left to take a piece means every class is full. */
  lemma {:induction false} FinishedIsFull(classes: seq<ClassNeed>, extra: seq<nat>, pieces: nat)
    requires WellFormed(classes) && |extra| == |classes|
    requires forall i :: 0 <= i < |extra| ==> extra[i] <= Cap(classes[i], 0)
    requires Sum(extra) <= pieces <= Sum(Caps(classes, Zeros(|classes|)))
    requires Finished(classes, extra, pieces)
    ensures Sum(extra) == pieces
  {
    var w := Weights(classes, extra);
    if Sum(w) == 0 {
      forall i | 0 <= i < |classes| ensures Cap(classes[i], 0) <= extra[i] {
        SumElement(w, i);
        assert w[i] == 0;
      }
      SumMonotone(Caps(classes, Zeros(|classes|)), extra);
    }
  }

  /** The room of the classes that have members at all. */
  function MembersRoom(classes: seq<ClassNeed>): (r: seq<nat>)
    ensures |r| == |classes|
  {
    seq(|classes|, i requires 0 <= i < |classes| => if classes[i].members > 0 then Cap(classes[i], 0) else 0)
  }

  /**
    Whatever the figures are: an allocation that can go no further has filled every class with members
    or given everything, and if it falls short only classes without members have room left.
    */
  lemma {:induction false} FinishedReaches(classes: seq<ClassNeed>, extra: seq<nat>, pieces: nat)
    requires |extra| == |classes| && Finished(classes, extra, pieces)
    ensures Sum(extra) >= Min(pieces, Sum(MembersRoom(classes)))
    ensures Sum(extra) != pieces ==>
              forall i :: 0 <= i < |classes| && Cap(classes[i], extra[i]) > 0 ==> classes[i].members == 0
  {
    var w := Weights(classes, extra);
    if Sum(w) == 0 {
      forall i | 0 <= i < |classes| ensures w[i] == 0 && MembersRoom(classes)[i] <= extra[i] {
        SumElement(w, i);
        assert w[i] == if Cap(classes[i], extra[i]) > 0 then classes[i].members else 0;
      }
      SumMonotone(MembersRoom(classes), extra);
    }
  }

  /** The shortest such allocation: one upgrader is counted, but no member. */
  lemma {:induction false} ShortWithoutMembers(id: nat)
    ensures var classes := [ClassNeed(id, 0, 1, 0)];
            Budget(classes, 1) == 1 && IsRun(classes, 1, Start([0])) && Sum([0]) == 0
  {
    var classes := [ClassNeed(id, 0, 1, 0)];
    assert Zeros(1) == [0] && Caps(classes, [0]) == [1] && FixedDrops(classes) == [0] && Weights(classes, [0]) == [0];
    assert [0][..0] == [] && [1][..0] == [];
    assert Sum([1]) == 1 && Sum([0]) == 0;
  }

  /** The counting loop before the rounds. */
  method Tally(classes: seq<ClassNeed>) returns (fixedTotal: nat, room: nat, members: nat)
    ensures fixedTotal == Sum(FixedDrops(classes))
    ensures room == Sum(Caps(classes, Zeros(|classes|)))
    ensures members == Sum(Weights(classes, Zeros(|classes|)))
  {
    ghost var zeros := Zeros(|classes|);
    ghost var caps, weights, fixedDrops := Caps(classes, zeros), Weights(classes, zeros), FixedDrops(classes);
    fixedTotal, room, members := 0, 0, 0;
    for i := 0 to |classes|
      invariant fixedTotal == Sum(fixedDrops[..i]) && room == Sum(caps[..i]) && members == Sum(weights[..i])
    {
      var c := classes[i];
      SumPrefix(fixedDrops, i);
      SumPrefix(caps, i);
      SumPrefix(weights, i);
      fixedTotal := fixedTotal + c.fixedDrops;
      if c.upgraders > c.fixedDrops {
        room := room + (c.upgraders - c.fixedDrops);
        members := members + c.members;
      }
    }
    assert fixedDrops[..|classes|] == fixedDrops && caps[..|classes|] == caps && weights[..|classes|] == weights;
  }

  /** What every round keeps: the play so far, its last state `extra`, and the caps. */
  ghost predicate Playing(classes: seq<ClassNeed>, pieces: nat, p: Play) {
    && Legal(classes, pieces, p)
    && |p.state| == |classes| && (forall i :: 0 <= i < |p.state| ==> p.state[i] <= Cap(classes[i], 0))
    && p.Rounds() <= Sum(p.state) <= pieces
  }

  lemma {:induction false} PlayingStarts(classes: seq<ClassNeed>, pieces: nat)
    ensures Playing(classes, pieces, Start(Zeros(|classes|))) && Sum(Zeros(|classes|)) == 0
  {
    SumZero(Zeros(|classes|));
  }

  lemma {:induction false} PlayingGoesOn(classes: seq<ClassNeed>, pieces: nat, p: Play, next: seq<nat>)
    requires Playing(classes, pieces, p) && StepTo(classes, p.state, pieces - Sum(p.state), next)
    ensures Playing(classes, pieces, Turn(p, next)) && Sum(next) > Sum(p.state)
  {
    StepAdds(classes, p.state, pieces - Sum(p.state), next);
    hide StepTo, Sum;
    forall i | 0 <= i < |next| ensures next[i] <= Cap(classes[i], 0) {
      assert next[i] - p.state[i] <= Cap(classes[i], p.state[i]);
    }
  }

  method AllocateMix(classes: seq<ClassNeed>, setMax: nat) returns (extra: seq<nat>, ghost play: Play)
    ensures |extra| == |classes|
    ensures Sum(extra) <= Budget(classes, setMax)
    ensures WellFormed(classes) ==> Sum(extra) == Budget(classes, setMax)
    ensures Sum(extra) >= Min(Budget(classes, setMax), Sum(MembersRoom(classes)))
    ensures Sum(extra) < Budget(classes, setMax) ==>
              forall i :: 0 <= i < |extra| && Cap(classes[i], extra[i]) > 0 ==> classes[i].members == 0
    ensures forall i :: 0 <= i < |extra| ==> extra[i] <= Cap(classes[i], 0)
    ensures forall i :: 0 <= i < |extra| && extra[i] > 0 ==>
                          classes[i].fixedDrops + extra[i] <= classes[i].upgraders
    ensures Sum(extra) > 0 ==> Sum(FixedDrops(classes)) + Sum(extra) <= setMax
    ensures IsRun(classes, Budget(classes, setMax), play) && extra == play.state
    ensures play.Rounds() <= Budget(classes, setMax)
  {
    hide StepTo, Legal, WellFormed;
    extra := Zeros(|classes|);
    var fixedTotal, room, members := Tally(classes);
    var remaining: nat := if setMax > fixedTotal then Min(setMax - fixedTotal, room) else 0;
    PlayingStarts(classes, remaining);
    play := Start(extra);
    if remaining > 0 && members > 0 {
      extra, play := PlayRounds(classes, remaining);
    }
    FinishedReaches(classes, extra, remaining);
    if WellFormed(classes) { FinishedIsFull(classes, extra, remaining); }
  }

  /** The while loop. */
  method PlayRounds(classes: seq<ClassNeed>, pieces: nat) returns (extra: seq<nat>, ghost play: Play)
    ensures Playing(classes, pieces, play) && extra == play.state
    ensures Finished(classes, extra, pieces)
  {
    hide Legal, StepTo, Sum;
    extra := Zeros(|classes|);
    var remaining := pieces;
    PlayingStarts(classes, pieces);
    play := Start(extra);
    while remaining > 0
      invariant Playing(classes, pieces, play) && extra == play.state
      invariant remaining + Sum(extra) == pieces
    {
      var eligibleMembers := EligibleMembers(classes, extra);
      if eligibleMembers == 0 { break; }
      var given;
      extra, given := PlayRound(classes, extra, eligibleMembers, remaining);
      PlayingGoesOn(classes, pieces, play, extra);
      play := Turn(play, extra);
      if given == 0 { break; }
      remaining := remaining - Min(given, remaining);
    }
  }

  /** The body of the while loop after the eligibility count. */
  method PlayRound(classes: seq<ClassNeed>, base: seq<nat>, eligibleMembers: nat, round: nat)
    returns (extra: seq<nat>, given: nat)
    requires |base| == |classes| && round > 0
    requires eligibleMembers == Sum(Weights(classes, base)) > 0
    ensures StepTo(classes, base, round, extra)
    ensures Sum(extra) == Sum(base) + given
  {
    var claims;
    ghost var whole, gain;
    ghost var r := RoundOf(classes, base, round);
    extra, claims, given, whole := DealWholeShares(classes, base, eligibleMembers, round);
    StableSortOrdered(claims);
    extra, given, gain := DealRemainders(r, base, whole, extra, StableSort(claims), given, round);
    assert Difference(base, extra) == gain;
    SumAdd(base, gain, extra);
  }

  // ---------------------------------------------------------------- machine widths

  function Upgraders(classes: seq<ClassNeed>): (r: seq<nat>) {
    seq(|classes|, i requires 0 <= i < |classes| => classes[i].upgraders)
  }

  function Members(classes: seq<ClassNeed>): (r: seq<nat>) {
    seq(|classes|, i requires 0 <= i < |classes| => classes[i].members)
  }

  const TWO_32: nat := 0x1_0000_0000

  /**
    If the three column totals fit uint32_t, so does every intermediate value of every round,
    and the share fits uint64_t: the unbounded arithmetic above is what the machine computes.
    */
  lemma {:induction false} NoWrapAround(classes: seq<ClassNeed>, extra: seq<nat>, pieces: nat, i: nat)
    requires |extra| == |classes| && i < |classes|
    requires forall k :: 0 <= k < |extra| ==> extra[k] <= Cap(classes[k], 0)
    requires Sum(FixedDrops(classes)) < TWO_32 && Sum(Upgraders(classes)) < TWO_32 && Sum(Members(classes)) < TWO_32
    requires pieces <= Sum(Caps(classes, Zeros(|classes|)))
    ensures Sum(Caps(classes, extra)) < TWO_32 && pieces < TWO_32
    ensures Sum(Weights(classes, extra)) < TWO_32
    ensures classes[i].fixedDrops + extra[i] < TWO_32
    ensures pieces * classes[i].members < TWO_32 * TWO_32
  {
    SumMonotone(Weights(classes, extra), Members(classes));
    SumMonotone(Caps(classes, extra), Upgraders(classes));
    SumMonotone(Caps(classes, Zeros(|classes|)), Upgraders(classes));
    SumElement(FixedDrops(classes), i);
    SumElement(Upgraders(classes), i);
    SumElement(Members(classes), i);
    assert FixedDrops(classes)[i] == classes[i].fixedDrops && Upgraders(classes)[i] == classes[i].upgraders;
    assert Members(classes)[i] == classes[i].members;
    MulMonotone(pieces, classes[i].members, TWO_32);
    MulMonotone(TWO_32, pieces, TWO_32);
  }

  // ---------------------------------------------------------------- the figures, written out

  /** min(max(0, setMax - fixed drops), room), by the fields of the classes. */
  lemma {:induction false} BudgetIs(classes: seq<ClassNeed>, setMax: nat, fixed: seq<nat>, room: seq<nat>)
    requires |fixed| == |room| == |classes|
    requires forall i :: 0 <= i < |classes| ==>
               var c := classes[i];
               && fixed[i] == c.fixedDrops
               && room[i] == if c.upgraders > c.fixedDrops then c.upgraders - c.fixedDrops else 0
    ensures Budget(classes, setMax) == if setMax <= Sum(fixed) then 0 else Min(setMax - Sum(fixed), Sum(room))
  {
    assert fixed == FixedDrops(classes) && room == Caps(classes, Zeros(|classes|));
  }

  /** Room, weight and rounded-down share of class i when a round of `pieces` starts from `a`. */
  function RoomLeft(c: ClassNeed, got: nat): nat {
    if c.upgraders > c.fixedDrops + got then c.upgraders - c.fixedDrops - got else 0
  }

  function Weight(c: ClassNeed, got: nat): nat { if RoomLeft(c, got) > 0 then c.members else 0 }

  /**
    One round from allocation `a` to `b`, in figures: every class gets its share rounded down, as far as it
    has room, and at most one piece more; who gets one more has the larger remainder, or an equal one and the
    earlier place, than any class with room left that does not; and either all pieces are given or every
    class with room left over its share got one more.
    */
  lemma {:induction false} RoundInFigures(classes: seq<ClassNeed>, a: seq<nat>, pieces: nat, b: seq<nat>,
                                          weights: seq<nat>, i: nat, j: nat, x: Quotient, y: Quotient)
    requires StepTo(classes, a, pieces, b) && |a| == |b| == |weights| == |classes| && i < |classes| && j < |classes|
    requires forall k :: 0 <= k < |classes| ==> weights[k] == Weight(classes[k], a[k])
    requires IsQuotient(x, pieces * weights[i], Sum(weights)) && IsQuotient(y, pieces * weights[j], Sum(weights))
    ensures Sum(b) <= Sum(a) + pieces
    ensures var roomI, roomJ := RoomLeft(classes[i], a[i]), RoomLeft(classes[j], a[j]);
            var wholeI, wholeJ := a[i] + Min(x.whole, roomI), a[j] + Min(y.whole, roomJ);
            && (b[i] == wholeI || b[i] == wholeI + 1)
            && b[i] <= a[i] + roomI
            && (b[i] == wholeI + 1 && b[j] == wholeJ && y.whole < roomJ ==>
                  x.rest > y.rest || (x.rest == y.rest && i < j))
            && (Sum(b) < Sum(a) + pieces && x.whole < roomI ==> b[i] == wholeI + 1)
  {
    hide Sum, HamiltonStep, RoundOf, Round.Whole, Round.Remainder, Round.Open, Round.Valid, Weights, Min;
    WeightsAre(classes, a, weights);
    var r := RoundOf(classes, a, pieces);
    var gain := Difference(a, b);
    SumAdd(a, gain, b);
    FiguresOf(classes, a, pieces, i, x);
    FiguresOf(classes, a, pieces, j, y);
    hide IsQuotient;
    RuleOf(r, gain, i, j);
    RoundWithinCaps(r, gain, i);
  }

  datatype Quotient = Quotient(whole: nat, rest: nat)

  predicate IsQuotient(q: Quotient, n: nat, d: nat) { n == q.whole * d + q.rest && q.rest < d }

  lemma {:induction false} QuotientIs(q: Quotient, n: nat, d: nat)
    requires IsQuotient(q, n, d)
    ensures n / d == q.whole && n % d == q.rest
  {
    var less := q.whole - n / d;
    assert less * d == n % d - q.rest;
  }

  lemma {:induction false} WeightsAre(classes: seq<ClassNeed>, a: seq<nat>, weights: seq<nat>)
    requires |a| == |weights| == |classes|
    requires forall k :: 0 <= k < |classes| ==> weights[k] == Weight(classes[k], a[k])
    ensures weights == Weights(classes, a)
  {
  }

  lemma {:induction false} FiguresOf(classes: seq<ClassNeed>, a: seq<nat>, pieces: nat, i: nat, q: Quotient)
    requires |a| == |classes| && i < |classes|
    requires IsQuotient(q, pieces * Weights(classes, a)[i], Sum(Weights(classes, a)))
    ensures var r := RoundOf(classes, a, pieces);
            && r.Valid() && |r.caps| == |classes| && r.pieces == pieces
            && r.caps[i] == RoomLeft(classes[i], a[i])
            && r.Whole(i) == Min(q.whole, RoomLeft(classes[i], a[i]))
            && r.Remainder(i) == q.rest
            && (r.Open(i) <==> q.whole < RoomLeft(classes[i], a[i]))
  {
    QuotientIs(q, pieces * Weights(classes, a)[i], Sum(Weights(classes, a)));
  }

  lemma {:induction false} RuleOf(r: Round, gain: seq<nat>, i: nat, j: nat)
    requires r.Valid() && HamiltonStep(r, gain) && i < |gain| && j < |gain|
    ensures |gain| == |r.caps| && Sum(gain) <= r.pieces
    ensures gain[i] == r.Whole(i) || gain[i] == r.Whole(i) + 1
    ensures Sum(gain) < r.pieces && r.Open(i) ==> gain[i] == r.Whole(i) + 1
    ensures gain[i] == r.Whole(i) + 1 && gain[j] == r.Whole(j) && r.Open(j) ==>
              r.Remainder(i) > r.Remainder(j) || (r.Remainder(i) == r.Remainder(j) && i < j)
  {
    hide Sum, Round.Whole, Round.Remainder;
    if gain[i] == r.Whole(i) + 1 && gain[j] == r.Whole(j) && r.Open(j) {
      assert Raised(r, gain, i) && !Raised(r, gain, j);
    }
  }
}
