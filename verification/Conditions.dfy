/**
  The condition system: entries that combine other entries by id, with two flags that reverse the
  result and swap the roles of target and source. Leaf conditions are an uninterpreted predicate.
  */
module Conditions {
  import opened Bytes

  const NOT: int := -3
  const OR: int := -2
  const AND: int := -1
  const NONE: int := 0
  const LAST_TYPE: int := 61

  /** A row of the conditions table. */
  datatype Entry = Entry(condition: int, v1: int, v2: int, v3: int, v4: int, reverse: bool, swap: bool) {
    /** The row without its flags. */
    function Test(): (int, int, int, int, int) { (condition, v1, v2, v3, v4) }
  }

  type Storage = map<nat, Entry>

  /** What the parameter checks ask about an object. */
  datatype Obj = Obj(id: nat, gameObject: bool, unit: bool, creature: bool, player: bool)

  datatype Args = Args(target: Option<Obj>, hasMap: bool, source: Option<Obj>) {
    function Oriented(swapped: bool): Args { if swapped then Args(source, hasMap, target) else this }
  }

  /** The evaluation of a leaf condition, by type and values, once its parameters passed the check. */
  type Leaves = ((int, int, int, int, int), Args) -> bool

  datatype Requirement =
    | ReqNone | TargetWorldObject | TargetGameObject | TargetUnit | TargetPlayer
    | SourceWorldObject | SourceUnit | SourceCreature | AnyWorldObject | MapOrWorldObject | BothWorldObjects

  /** ConditionTargets, for types -3 to 61, in tens from type 1 on. */
  const REQ_FIRST: seq<Requirement> := [ReqNone, ReqNone, ReqNone, ReqNone]
  const REQ_TENS_0: seq<Requirement> := [
    TargetUnit, TargetPlayer, TargetPlayer, AnyWorldObject, TargetPlayer,
    TargetUnit, TargetPlayer, TargetPlayer, TargetPlayer, TargetPlayer]
  const REQ_TENS_1: seq<Requirement> := [
    ReqNone, ReqNone, SourceUnit, TargetPlayer, TargetUnit,
    SourceWorldObject, TargetPlayer, MapOrWorldObject, TargetPlayer, TargetWorldObject]
  const REQ_TENS_2: seq<Requirement> := [
    TargetWorldObject, TargetPlayer, TargetPlayer, ReqNone, ReqNone,
    ReqNone, TargetWorldObject, TargetWorldObject, TargetPlayer, TargetPlayer]
  const REQ_TENS_3: seq<Requirement> := [
    SourceWorldObject, SourceUnit, MapOrWorldObject, MapOrWorldObject, MapOrWorldObject,
    MapOrWorldObject, BothWorldObjects, BothWorldObjects, TargetWorldObject, TargetUnit]
  const REQ_TENS_4: seq<Requirement> := [
    TargetUnit, TargetUnit, TargetUnit, BothWorldObjects, TargetPlayer,
    TargetUnit, MapOrWorldObject, TargetGameObject, TargetGameObject, MapOrWorldObject]
  const REQ_TENS_5: seq<Requirement> := [
    TargetPlayer, SourceWorldObject, ReqNone, TargetWorldObject, TargetGameObject,
    TargetWorldObject, SourceCreature, SourceCreature, MapOrWorldObject, TargetUnit]
  const REQ_TENS_6: seq<Requirement> := [TargetPlayer]

  const REQUIREMENTS: seq<Requirement> :=
    REQ_FIRST + REQ_TENS_0 + REQ_TENS_1 + REQ_TENS_2 + REQ_TENS_3 + REQ_TENS_4 + REQ_TENS_5 + REQ_TENS_6

  predicate IsConnective(e: Entry) { e.condition == NOT || e.condition == OR || e.condition == AND }

  function RequirementOf(e: Entry): (r: Requirement)
    requires NOT <= e.condition <= LAST_TYPE
    ensures IsConnective(e) || e.condition == NONE ==> r == ReqNone
  {
    REQUIREMENTS[e.condition + 3]
  }

  /** `CheckParamRequirements` */
  predicate Checks(e: Entry, a: Args)
    requires NOT <= e.condition <= LAST_TYPE
  {
    match RequirementOf(e)
    case ReqNone => true
    case TargetWorldObject => a.target.Some?
    case TargetGameObject => a.target.Some? && a.target.value.gameObject
    case TargetUnit => a.target.Some? && a.target.value.unit
    case TargetPlayer => a.target.Some? && a.target.value.player
    case SourceWorldObject => a.source.Some?
    case SourceUnit => a.source.Some? && a.source.value.unit
    case SourceCreature => a.source.Some? && a.source.value.creature
    case AnyWorldObject => a.source.Some? || a.target.Some?
    case MapOrWorldObject => a.hasMap || a.source.Some? || a.target.Some?
    case BothWorldObjects => a.source.Some? && a.target.Some?
  }

  // ---------------------------------------------------------------- well-founded storage

  /** A value used as a reference: an existing entry with a lower id. */
  predicate Refers(storage: Storage, v: int, id: nat) { 0 <= v < id && v in storage }

  predicate RefersIfUsed(storage: Storage, v: int, id: nat) { v == 0 || Refers(storage, v, id) }

  /** Every reference `Evaluate` can follow goes to a lower entry. */
  predicate EntryOk(storage: Storage, e: Entry, id: nat) {
    && NOT <= e.condition <= LAST_TYPE
    && (IsConnective(e) ==>
        Refers(storage, e.v1, id) && RefersIfUsed(storage, e.v3, id) && RefersIfUsed(storage, e.v4, id))
    && (e.condition == OR || e.condition == AND ==> Refers(storage, e.v2, id))
  }

  ghost predicate WellFounded(storage: Storage) {
    forall id :: id in storage ==> EntryOk(storage, storage[id], id)
  }

  /** The connective cases of `IsValid`; leaf checks are `leafValid`. */
  predicate IsValid(storage: Storage, e: Entry, id: nat, leafValid: bool) {
    if e.condition == NOT then Refers(storage, e.v1, id)
    else if e.condition == OR || e.condition == AND then
      && Refers(storage, e.v1, id) && Refers(storage, e.v2, id)
      && RefersIfUsed(storage, e.v3, id) && RefersIfUsed(storage, e.v4, id)
    else leafValid && NONE <= e.condition <= LAST_TYPE
  }

  /** `IsValid` guarantees well-founded references exactly but for the third and fourth value of NOT. */
  lemma {:induction false} ValidIsWellFoundedIff(storage: Storage, e: Entry, id: nat)
    requires IsValid(storage, e, id, true)
    ensures EntryOk(storage, e, id) <==>
            (e.condition == NOT ==> RefersIfUsed(storage, e.v3, id) && RefersIfUsed(storage, e.v4, id))
  {
  }

  /**
    A NOT entry whose third value is the entry itself passes `IsValid` (and never comes to an end, see
    `SelfReferenceDiverges`).
    */
  lemma {:induction false} SelfReferenceIsAccepted(storage: Storage, id: nat)
    requires id > 1 && 1 in storage
    ensures var e := SelfReference(id);
            IsValid(storage[id := e], e, id, true) && !EntryOk(storage[id := e], e, id)
  {
  }

  function SelfReference(id: nat): Entry { Entry(NOT, 1, 0, id, 0, false, false) }

  // ---------------------------------------------------------------- evaluation

  /** `Meets` of a row that stands, or could stand, at `id`; the recursion goes to lower ids. */
  predicate MeetsRow(leaf: Leaves, storage: Storage, e: Entry, id: nat, a: Args)
    requires WellFounded(storage) && EntryOk(storage, e, id)
    decreases id, 1
  {
    var b := a.Oriented(e.swap);
    Checks(e, b) && (Evaluate(leaf, storage, e, id, b) != e.reverse)
  }

  /** An optional reference that is used and met. */
  predicate MetIfUsed(leaf: Leaves, storage: Storage, v: int, id: nat, a: Args)
    requires WellFounded(storage) && RefersIfUsed(storage, v, id)
    decreases id, 0, 0
  {
    v != 0 && MeetsRow(leaf, storage, storage[v], v, a)
  }

  predicate Evaluate(leaf: Leaves, storage: Storage, e: Entry, id: nat, a: Args)
    requires WellFounded(storage) && EntryOk(storage, e, id)
    decreases id, 0, 1
  {
    if e.condition == NOT then
      || MetIfUsed(leaf, storage, e.v3, id, a)
      || MetIfUsed(leaf, storage, e.v4, id, a)
      || !MeetsRow(leaf, storage, storage[e.v1], e.v1, a)
    else if e.condition == OR then
      || MetIfUsed(leaf, storage, e.v3, id, a)
      || MetIfUsed(leaf, storage, e.v4, id, a)
      || MeetsRow(leaf, storage, storage[e.v1], e.v1, a)
      || MeetsRow(leaf, storage, storage[e.v2], e.v2, a)
    else if e.condition == AND then
      && (e.v3 == 0 || MeetsRow(leaf, storage, storage[e.v3], e.v3, a))
      && (e.v4 == 0 || MeetsRow(leaf, storage, storage[e.v4], e.v4, a))
      && MeetsRow(leaf, storage, storage[e.v1], e.v1, a)
      && MeetsRow(leaf, storage, storage[e.v2], e.v2, a)
    else if e.condition == NONE then true
    else leaf(e.Test(), a)
  }

  predicate Meets(leaf: Leaves, storage: Storage, id: nat, a: Args)
    requires WellFounded(storage) && id in storage
  {
    MeetsRow(leaf, storage, storage[id], id, a)
  }

  // ---------------------------------------------------------------- what a leaf needs

  /** The objects a leaf condition of type t is evaluated with; types 11, 12, 24, 25, 26 and 53 need none. */
  predicate Given(t: int, a: Args) {
    && (t in {2, 3, 5, 7, 8, 9, 10, 14, 17, 19, 22, 23, 29, 30, 45, 51, 61}
        ==> a.target.Some? && a.target.value.player)
    && (t in {1, 6, 15, 40, 41, 42, 43, 46, 60}
        ==> a.target.Some? && a.target.value.unit)
    && (t in {20, 21, 27, 28, 39, 54, 56}
        ==> a.target.Some?)
    && (t in {48, 49, 55}
        ==> a.target.Some? && a.target.value.gameObject)
    && (t in {13, 32}
        ==> a.source.Some? && a.source.value.unit)
    && (t in {57, 58}
        ==> a.source.Some? && a.source.value.creature)
    && (t in {16, 31, 52}
        ==> a.source.Some?)
    && (t in {4}
        ==> (a.source.Some? || a.target.Some?))
    && (t in {18, 33, 34, 35, 36, 47, 50, 59}
        ==> (a.hasMap || a.source.Some? || a.target.Some?))
    && (t in {37, 38, 44}
        ==> a.source.Some? && a.target.Some?)
  }

  /**
    A leaf row without the objects its type needs is not met, whatever the leaf predicate and the reverse
    flag are; with them it is what the predicate says, reversed as flagged. The swap flag exchanges target
    and source for both.
    */
  lemma {:induction false} LeafMeets(leaf: Leaves, storage: Storage, id: nat, a: Args)
    requires WellFounded(storage) && id in storage && storage[id].condition >= 1
    ensures var e := storage[id];
            var b := if e.swap then Args(a.source, a.hasMap, a.target) else a;
            && (!Given(e.condition, b) ==> !Meets(leaf, storage, id, a))
            && (Given(e.condition, b) ==>
                  Meets(leaf, storage, id, a) == (leaf((e.condition, e.v1, e.v2, e.v3, e.v4), b) != e.reverse))
  {
    var e := storage[id];
    assert EntryOk(storage, e, id);
    var b := if e.swap then Args(a.source, a.hasMap, a.target) else a;
    GivenIsChecks(e, b);
    RowUnfolds(leaf, storage, e, id, a);
    assert a.Oriented(e.swap) == b;
    assert Evaluate(leaf, storage, e, id, b) == leaf(e.Test(), b);
    hide Given, Checks;
  }

  /** The empty condition is met, unless reversed. */
  lemma {:induction false} NoneMeets(leaf: Leaves, storage: Storage, id: nat, a: Args)
    requires WellFounded(storage) && id in storage && storage[id].condition == 0
    ensures Meets(leaf, storage, id, a) == !storage[id].reverse
  {
    var e := storage[id];
    assert EntryOk(storage, e, id);
    RowUnfolds(leaf, storage, e, id, a);
    assert Evaluate(leaf, storage, e, id, a.Oriented(e.swap));
    assert RequirementOf(e) == ReqNone;
  }

  /**
    A connective of any storage, by the results of the entries it refers to, which see the arguments with
    target and source exchanged if the connective's swap flag says so.
    */
  lemma {:induction false} ConnectiveMeets(leaf: Leaves, storage: Storage, id: nat, a: Args)
    requires WellFounded(storage) && id in storage && storage[id].condition in {-3, -2, -1}
    ensures var e := storage[id];
            && 0 <= e.v1 < id && e.v1 in storage
            && (e.v3 != 0 ==> 0 <= e.v3 < id && e.v3 in storage) && (e.v4 != 0 ==> 0 <= e.v4 < id && e.v4 in storage)
            && (e.condition != -3 ==> 0 <= e.v2 < id && e.v2 in storage)
    ensures var e := storage[id];
            var b := if e.swap then Args(a.source, a.hasMap, a.target) else a;
            var some := (e.v3 != 0 && Meets(leaf, storage, e.v3, b)) || (e.v4 != 0 && Meets(leaf, storage, e.v4, b));
            var all := (e.v3 != 0 ==> Meets(leaf, storage, e.v3, b)) && (e.v4 != 0 ==> Meets(leaf, storage, e.v4, b));
            Meets(leaf, storage, id, a) ==
            ((if e.condition == -3 then some || !Meets(leaf, storage, e.v1, b)
              else if e.condition == -2 then some || Meets(leaf, storage, e.v1, b) || Meets(leaf, storage, e.v2, b)
              else all && Meets(leaf, storage, e.v1, b) && Meets(leaf, storage, e.v2, b)) != e.reverse)
  {
    var e := storage[id];
    assert EntryOk(storage, e, id);
    RowUnfolds(leaf, storage, e, id, a);
    assert RequirementOf(e) == ReqNone;
    hide MeetsRow;
  }

  /** What `IsValid` asks of a connective's references. */
  lemma {:induction false} ValidConnectiveIff(storage: Storage, e: Entry, id: nat, leafValid: bool)
    ensures e.condition == -3 ==> (IsValid(storage, e, id, leafValid) <==> 0 <= e.v1 < id && e.v1 in storage)
    ensures e.condition == -2 || e.condition == -1 ==>
              (IsValid(storage, e, id, leafValid) <==>
               && 0 <= e.v1 < id && e.v1 in storage && 0 <= e.v2 < id && e.v2 in storage
               && (e.v3 == 0 || (0 <= e.v3 < id && e.v3 in storage))
               && (e.v4 == 0 || (0 <= e.v4 < id && e.v4 in storage)))
  {
  }

  lemma {:induction false} GivenIsChecks(e: Entry, a: Args)
    requires 1 <= e.condition <= LAST_TYPE
    ensures Checks(e, a) <==> Given(e.condition, a)
  {
    RowsByType(e.condition);
  }

  /** The requirement table by type number. */
  lemma {:induction false} RowsByType(t: int)
    requires 1 <= t <= 61
    ensures match REQUIREMENTS[t + 3]
            case TargetPlayer => t in {2, 3, 5, 7, 8, 9, 10, 14, 17, 19, 22, 23, 29, 30, 45, 51, 61}
            case TargetUnit => t in {1, 6, 15, 40, 41, 42, 43, 46, 60}
            case TargetWorldObject => t in {20, 21, 27, 28, 39, 54, 56}
            case TargetGameObject => t in {48, 49, 55}
            case SourceUnit => t in {13, 32}
            case SourceCreature => t in {57, 58}
            case SourceWorldObject => t in {16, 31, 52}
            case AnyWorldObject => t in {4}
            case MapOrWorldObject => t in {18, 33, 34, 35, 36, 47, 50, 59}
            case BothWorldObjects => t in {37, 38, 44}
            case ReqNone => t in {11, 12, 24, 25, 26, 53}
  {
    var k := (t - 1) / 10;
    RowOfType(t);
    if k == 0 { assert REQUIREMENTS[t + 3] == REQ_TENS_0[t - 1]; }
    else if k == 1 { assert REQUIREMENTS[t + 3] == REQ_TENS_1[t - 11]; }
    else if k == 2 { assert REQUIREMENTS[t + 3] == REQ_TENS_2[t - 21]; }
    else if k == 3 { assert REQUIREMENTS[t + 3] == REQ_TENS_3[t - 31]; }
    else if k == 4 { assert REQUIREMENTS[t + 3] == REQ_TENS_4[t - 41]; }
    else if k == 5 { assert REQUIREMENTS[t + 3] == REQ_TENS_5[t - 51]; }
    hide REQUIREMENTS;
  }

  lemma {:induction false} RowOfType(t: int)
    requires 1 <= t <= 61
    ensures |REQUIREMENTS| == 65
    ensures REQUIREMENTS[t + 3] ==
            if t <= 10 then REQ_TENS_0[t - 1] else if t <= 20 then REQ_TENS_1[t - 11]
            else if t <= 30 then REQ_TENS_2[t - 21] else if t <= 40 then REQ_TENS_3[t - 31]
            else if t <= 50 then REQ_TENS_4[t - 41] else if t <= 60 then REQ_TENS_5[t - 51]
            else REQ_TENS_6[t - 61]
  {
  }

  // ---------------------------------------------------------------- evaluation of any storage

  /** The result of a run with a bounded depth: a null pointer is followed where an entry is missing. */
  datatype Run = Ended(met: bool) | NullPointer | TooDeep

  /** Every row has a type for which the requirements are known. */
  ghost predicate Typed(storage: Storage) {
    forall id :: id in storage ==> NOT <= storage[id].condition <= LAST_TYPE
  }

  /** `Meets`, as the code runs on whatever the storage refers to. */
  function RunMeets(leaf: Leaves, storage: Storage, v: int, a: Args, depth: nat): Run
    requires Typed(storage)
    decreases depth, 0, 0
  {
    if v < 0 || v !in storage then NullPointer
    else if depth == 0 then TooDeep
    else
      var e := storage[v];
      var b := a.Oriented(e.swap);
      if !Checks(e, b) then Ended(false) else
      var r := RunEvaluate(leaf, storage, e, b, depth - 1);
      if r.Ended? then Ended(r.met != e.reverse) else r
  }

  /** The references in the order in which they are followed, until one is met (or, for AND, is not). */
  function RunUntil(leaf: Leaves, storage: Storage, vs: seq<int>, stop: bool, a: Args, depth: nat): Run
    requires Typed(storage)
    decreases depth, 1, |vs|
  {
    if vs == [] then Ended(!stop) else
    var r := RunMeets(leaf, storage, vs[0], a, depth);
    if r.Ended? && r.met != stop then RunUntil(leaf, storage, vs[1..], stop, a, depth) else r
  }

  function Optionals(e: Entry): seq<int> {
    (if e.v3 != 0 then [e.v3] else []) + (if e.v4 != 0 then [e.v4] else [])
  }

  function RunEvaluate(leaf: Leaves, storage: Storage, e: Entry, a: Args, depth: nat): Run
    requires Typed(storage)
    decreases depth, 2, 0
  {
    if e.condition == NOT then
      var r := RunUntil(leaf, storage, Optionals(e), true, a, depth);
      if r != Ended(false) then r else
      var c := RunMeets(leaf, storage, e.v1, a, depth);
      if c.Ended? then Ended(!c.met) else c
    else if e.condition == OR || e.condition == AND then
      RunUntil(leaf, storage, Optionals(e) + [e.v1, e.v2], e.condition == OR, a, depth)
    else if e.condition == NONE then Ended(true)
    else Ended(leaf(e.Test(), a))
  }

  /** What a row refers to, used or not evaluated in the end. */
  function References(e: Entry): seq<int> {
    if e.condition == NOT then Optionals(e) + [e.v1]
    else if e.condition == OR || e.condition == AND then Optionals(e) + [e.v1, e.v2]
    else []
  }

  /** References lead to entries of lower rank; the entry ids are one such ranking of a well-founded storage. */
  ghost predicate Ranked(storage: Storage, rank: map<nat, nat>) {
    forall id :: id in storage ==> id in rank && RefersBelow(storage, rank, id)
  }

  ghost predicate RefersBelow(storage: Storage, rank: map<nat, nat>, id: nat)
    requires id in storage && id in rank
  {
    forall v :: v in References(storage[id]) ==> 0 <= v && v in storage && v in rank && rank[v] < rank[id]
  }

  /** Then every run comes to an end, within the rank. */
  lemma {:induction false} RankedEnds(leaf: Leaves, storage: Storage, rank: map<nat, nat>, id: nat, a: Args, depth: nat)
    requires Typed(storage) && Ranked(storage, rank) && id in storage && depth > rank[id]
    ensures RunMeets(leaf, storage, id, a, depth).Ended?
    decreases depth, 0, 1
  {
    var e := storage[id];
    RankedEvaluates(leaf, storage, rank, id, a.Oriented(e.swap), depth - 1);
    hide RunEvaluate, Checks;
  }

  lemma {:induction false} RankedEvaluates(leaf: Leaves, storage: Storage, rank: map<nat, nat>, id: nat, a: Args,
                                           depth: nat)
    requires Typed(storage) && Ranked(storage, rank) && id in storage && depth >= rank[id]
    ensures RunEvaluate(leaf, storage, storage[id], a, depth).Ended?
    decreases depth, 2, 0
  {
    var e := storage[id];
    assert RefersBelow(storage, rank, id);
    if e.condition == NOT {
      assert References(e) == Optionals(e) + [e.v1] && e.v1 in References(e);
      forall v | v in Optionals(e)
        ensures 0 <= v && v in storage && v in rank && rank[v] < depth
      {
        assert v in References(e);
      }
      RankedUntil(leaf, storage, rank, Optionals(e), true, a, depth);
      RankedEnds(leaf, storage, rank, e.v1, a, depth);
    } else if IsConnective(e) {
      RankedUntil(leaf, storage, rank, References(e), e.condition == OR, a, depth);
    }
    hide RunMeets, RunUntil, Ranked;
  }

  lemma {:induction false} RankedUntil(leaf: Leaves, storage: Storage, rank: map<nat, nat>, vs: seq<int>, stop: bool,
                                       a: Args, depth: nat)
    requires Typed(storage) && Ranked(storage, rank)
    requires forall v :: v in vs ==> 0 <= v && v in storage && v in rank && rank[v] < depth
    ensures RunUntil(leaf, storage, vs, stop, a, depth).Ended?
    decreases depth, 1, |vs|
  {
    if vs != [] {
      assert vs[0] in vs && forall v :: v in vs[1..] ==> v in vs;
      RankedEnds(leaf, storage, rank, vs[0], a, depth);
      RankedUntil(leaf, storage, rank, vs[1..], stop, a, depth);
    }
  }

  /** On a well-founded storage the run is the evaluation. */
  lemma {:induction false} RunIsMeets(leaf: Leaves, storage: Storage, id: nat, a: Args, depth: nat)
    requires WellFounded(storage) && id in storage && depth > id
    ensures Typed(storage) && RunMeets(leaf, storage, id, a, depth) == Ended(Meets(leaf, storage, id, a))
    decreases id, 1
  {
    WellFoundedIsTyped(storage);
    var e := storage[id];
    var b := a.Oriented(e.swap);
    assert EntryOk(storage, e, id);
    if IsConnective(e) { RunIsEvaluate(leaf, storage, id, b, depth - 1); }
    assert RunEvaluate(leaf, storage, e, b, depth - 1) == Ended(Evaluate(leaf, storage, e, id, b));
  }

  lemma {:induction false} WellFoundedIsTyped(storage: Storage)
    requires WellFounded(storage)
    ensures Typed(storage)
  {
    forall id | id in storage
      ensures NOT <= storage[id].condition <= LAST_TYPE
    {
      assert EntryOk(storage, storage[id], id);
    }
  }

  lemma {:induction false} RunIsEvaluate(leaf: Leaves, storage: Storage, id: nat, a: Args, depth: nat)
    requires WellFounded(storage) && id in storage && IsConnective(storage[id]) && depth >= id
    ensures Typed(storage) && EntryOk(storage, storage[id], id)
    ensures RunEvaluate(leaf, storage, storage[id], a, depth) == Ended(Evaluate(leaf, storage, storage[id], id, a))
    decreases id, 0
  {
    WellFoundedIsTyped(storage);
    RefersInStorage(storage, id);
    var e := storage[id];
    assert EntryOk(storage, e, id);
    if e.v3 != 0 { RunIsMeets(leaf, storage, e.v3, a, depth); }
    if e.v4 != 0 { RunIsMeets(leaf, storage, e.v4, a, depth); }
    RunIsMeets(leaf, storage, e.v1, a, depth);
    if e.condition != NOT { RunIsMeets(leaf, storage, e.v2, a, depth); }
    OptionalsUnfold(leaf, storage, e, e.condition != AND, a, depth);
    if e.condition != NOT { ReferencesUnfold(leaf, storage, e, e.condition != AND, a, depth); }
    hide RunMeets, Checks, RunUntil;
  }

  /** Following up to two optional references whose runs end. */
  lemma {:induction false} OptionalsUnfold(leaf: Leaves, storage: Storage, e: Entry, stop: bool, a: Args, depth: nat)
    requires Typed(storage)
    requires e.v3 != 0 ==> RunMeets(leaf, storage, e.v3, a, depth).Ended?
    requires e.v4 != 0 ==> RunMeets(leaf, storage, e.v4, a, depth).Ended?
    ensures RunUntil(leaf, storage, Optionals(e), stop, a, depth) ==
            Ended(((e.v3 != 0 && RunMeets(leaf, storage, e.v3, a, depth) == Ended(stop))
                   || (e.v4 != 0 && RunMeets(leaf, storage, e.v4, a, depth) == Ended(stop))) == stop)
  {
    hide RunMeets, RunUntil;
    UntilSmall(leaf, storage, e.v3, stop, a, depth);
    UntilSmall(leaf, storage, e.v4, stop, a, depth);
    UntilAppend(leaf, storage, if e.v3 != 0 then [e.v3] else [], if e.v4 != 0 then [e.v4] else [], stop, a, depth);
  }

  /** And after them two mandatory ones. */
  lemma {:induction false} ReferencesUnfold(leaf: Leaves, storage: Storage, e: Entry, stop: bool, a: Args, depth: nat)
    requires Typed(storage)
    requires e.v3 != 0 ==> RunMeets(leaf, storage, e.v3, a, depth).Ended?
    requires e.v4 != 0 ==> RunMeets(leaf, storage, e.v4, a, depth).Ended?
    requires RunMeets(leaf, storage, e.v1, a, depth).Ended? && RunMeets(leaf, storage, e.v2, a, depth).Ended?
    ensures RunUntil(leaf, storage, Optionals(e) + [e.v1, e.v2], stop, a, depth) ==
            Ended(((e.v3 != 0 && RunMeets(leaf, storage, e.v3, a, depth) == Ended(stop))
                   || (e.v4 != 0 && RunMeets(leaf, storage, e.v4, a, depth) == Ended(stop))
                   || RunMeets(leaf, storage, e.v1, a, depth) == Ended(stop)
                   || RunMeets(leaf, storage, e.v2, a, depth) == Ended(stop)) == stop)
  {
    hide RunMeets, RunUntil;
    OptionalsUnfold(leaf, storage, e, stop, a, depth);
    UntilSmall(leaf, storage, e.v1, stop, a, depth);
    UntilSmall(leaf, storage, e.v2, stop, a, depth);
    UntilAppend(leaf, storage, Optionals(e), [e.v1, e.v2], stop, a, depth);
    UntilAppend(leaf, storage, [e.v1], [e.v2], stop, a, depth);
    assert [e.v1] + [e.v2] == [e.v1, e.v2];
  }

  lemma {:induction false} UntilSmall(leaf: Leaves, storage: Storage, v: int, stop: bool, a: Args, depth: nat)
    requires Typed(storage)
    ensures RunUntil(leaf, storage, [], stop, a, depth) == Ended(!stop)
    ensures RunMeets(leaf, storage, v, a, depth).Ended? ==>
              RunUntil(leaf, storage, [v], stop, a, depth) == RunMeets(leaf, storage, v, a, depth)
  {
    hide RunMeets;
    assert [v][1..] == [];
  }

  lemma {:induction false} UntilAppend(leaf: Leaves, storage: Storage, vs: seq<int>, ws: seq<int>, stop: bool, a: Args,
                                       depth: nat)
    requires Typed(storage)
    ensures var r := RunUntil(leaf, storage, vs, stop, a, depth);
            RunUntil(leaf, storage, vs + ws, stop, a, depth) ==
            if r == Ended(!stop) then RunUntil(leaf, storage, ws, stop, a, depth) else r
    decreases |vs|
  {
    hide RunMeets;
    if vs == [] {
      assert vs + ws == ws;
    } else {
      assert (vs + ws)[0] == vs[0] && (vs + ws)[1..] == vs[1..] + ws;
      UntilAppend(leaf, storage, vs[1..], ws, stop, a, depth);
    }
  }

  /** The reference of a connective that is followed in any case. */
  function FirstReference(e: Entry): int { if e.v3 != 0 then e.v3 else if e.v4 != 0 then e.v4 else e.v1 }

  /**
    Connectives whose first references stay among them never come to an end, whatever the leaves and
    the arguments are: no depth suffices.
    */
  lemma {:induction false} CycleDiverges(leaf: Leaves, storage: Storage, cycle: set<nat>, id: nat, a: Args, depth: nat)
    requires Typed(storage) && id in cycle
    requires forall k :: k in cycle ==> k in storage && IsConnective(storage[k])
    requires forall k :: k in cycle ==> 0 <= FirstReference(storage[k]) && FirstReference(storage[k]) in cycle
    ensures RunMeets(leaf, storage, id, a, depth) == TooDeep
    decreases depth
  {
    if depth > 0 {
      var e := storage[id];
      var b := a.Oriented(e.swap);
      assert Checks(e, b);
      CycleDiverges(leaf, storage, cycle, FirstReference(e), b, depth - 1);
      FollowsFirst(leaf, storage, e, b, depth - 1);
    }
  }

  lemma {:induction false} FollowsFirst(leaf: Leaves, storage: Storage, e: Entry, a: Args, depth: nat)
    requires Typed(storage) && IsConnective(e)
    requires RunMeets(leaf, storage, FirstReference(e), a, depth) == TooDeep
    ensures RunEvaluate(leaf, storage, e, a, depth) == TooDeep
  {
    hide RunMeets;
    var all := Optionals(e) + [e.v1, e.v2];
    assert all[0] == FirstReference(e);
    if e.v3 != 0 || e.v4 != 0 { assert Optionals(e)[0] == FirstReference(e); }
  }

  /** In particular the row that `IsValid` lets pass. */
  lemma {:induction false} SelfReferenceDiverges(leaf: Leaves, storage: Storage, id: nat, a: Args, depth: nat)
    requires Typed(storage) && id > 0
    ensures Typed(storage[id := SelfReference(id)])
    ensures RunMeets(leaf, storage[id := SelfReference(id)], id, a, depth) == TooDeep
  {
    CycleDiverges(leaf, storage[id := SelfReference(id)], {id}, id, a, depth);
  }

  // ---------------------------------------------------------------- negation normal form

  /** A formula over leaf rows; a literal says how the path to it turned the arguments and the result. */
  datatype Formula =
    | Lit(id: nat, swapped: bool, negated: bool)
    | And(parts: seq<Formula>)
    | Or(parts: seq<Formula>)

  /** All flags and NOTs pushed down: `swapped`, `negated` are the parities collected above row `id`. */
  ghost function Compile(storage: Storage, id: nat, swapped: bool, negated: bool): Formula
    requires WellFounded(storage) && id in storage
    decreases id, 2
  {
    var e := storage[id];
    if !IsConnective(e) then Lit(id, swapped, negated) else
    var n := negated != e.reverse;
    Junction(if e.condition == NOT then n else (e.condition == AND) != n, Parts(storage, id, swapped != e.swap, n))
  }

  ghost function Parts(storage: Storage, id: nat, s: bool, n: bool): (parts: seq<Formula>)
    requires WellFounded(storage) && id in storage && IsConnective(storage[id])
    ensures 1 <= |parts| <= 4
    decreases id, 1
  {
    var e := storage[id];
    Optional(storage, e.v3, id, s, n) + Optional(storage, e.v4, id, s, n) + Mandatory(storage, id, s, n)
  }

  ghost function Mandatory(storage: Storage, id: nat, s: bool, n: bool): (parts: seq<Formula>)
    requires WellFounded(storage) && id in storage && IsConnective(storage[id])
    ensures 1 <= |parts| <= 2
    decreases id, 0
  {
    var e := storage[id];
    if e.condition == NOT then [Compile(storage, e.v1, s, !n)]
    else [Compile(storage, e.v1, s, n), Compile(storage, e.v2, s, n)]
  }

  ghost function Optional(storage: Storage, v: int, id: nat, swapped: bool, negated: bool): seq<Formula>
    requires WellFounded(storage) && RefersIfUsed(storage, v, id)
    ensures |Optional(storage, v, id, swapped, negated)| <= 1
    decreases id, 0
  {
    if v == 0 then [] else [Compile(storage, v, swapped, negated)]
  }

  function Junction(conjunction: bool, parts: seq<Formula>): Formula {
    if conjunction then And(parts) else Or(parts)
  }

  /** A leaf row's `Meets`, turned and negated as the literal says. */
  ghost predicate Value(leaf: Leaves, storage: Storage, f: Formula, a: Args)
    requires WellFounded(storage) && FormulaOk(storage, f)
    decreases f
  {
    match f
    case Lit(id, swapped, negated) => Meets(leaf, storage, id, a.Oriented(swapped)) != negated
    case And(parts) => forall i :: 0 <= i < |parts| ==> Value(leaf, storage, parts[i], a)
    case Or(parts) => exists i :: 0 <= i < |parts| && Value(leaf, storage, parts[i], a)
  }

  ghost predicate FormulaOk(storage: Storage, f: Formula) {
    match f
    case Lit(id, _, _) => id in storage && !IsConnective(storage[id])
    case And(parts) => forall i :: 0 <= i < |parts| ==> FormulaOk(storage, parts[i])
    case Or(parts) => forall i :: 0 <= i < |parts| ==> FormulaOk(storage, parts[i])
  }

  lemma {:induction false} PartsOk(storage: Storage, id: nat, s: bool, n: bool)
    requires WellFounded(storage) && id in storage && IsConnective(storage[id])
    ensures forall i :: 0 <= i < |Parts(storage, id, s, n)| ==> FormulaOk(storage, Parts(storage, id, s, n)[i])
    decreases id, 1
  {
    RefersInStorage(storage, id);
    hide FormulaOk, Optional, Mandatory, WellFounded, EntryOk;
    var e := storage[id];
    OptionalOk(storage, e.v3, id, s, n);
    OptionalOk(storage, e.v4, id, s, n);
    MandatoryOk(storage, id, s, n);
  }

  lemma {:induction false} RefersInStorage(storage: Storage, id: nat)
    requires WellFounded(storage) && id in storage && IsConnective(storage[id])
    ensures var e := storage[id];
            && RefersIfUsed(storage, e.v3, id) && RefersIfUsed(storage, e.v4, id)
            && 0 <= e.v1 < id && e.v1 in storage
            && (e.condition != NOT ==> 0 <= e.v2 < id && e.v2 in storage)
  {
    assert EntryOk(storage, storage[id], id);
  }

  lemma {:induction false} OptionalOk(storage: Storage, v: int, id: nat, s: bool, n: bool)
    requires WellFounded(storage) && RefersIfUsed(storage, v, id)
    ensures forall i :: 0 <= i < |Optional(storage, v, id, s, n)| ==>
        FormulaOk(storage, Optional(storage, v, id, s, n)[i])
    decreases id, 0
  {
    hide FormulaOk, WellFounded, Compile;
    if v != 0 { CompileOk(storage, v, s, n); }
  }

  lemma {:induction false} MandatoryOk(storage: Storage, id: nat, s: bool, n: bool)
    requires WellFounded(storage) && id in storage && IsConnective(storage[id])
    ensures forall i :: 0 <= i < |Mandatory(storage, id, s, n)| ==> FormulaOk(storage, Mandatory(storage, id, s, n)[i])
    decreases id, 0
  {
    RefersInStorage(storage, id);
    hide FormulaOk, WellFounded, Compile;
    var e := storage[id];
    if e.condition == NOT {
      CompileOk(storage, e.v1, s, !n);
    } else {
      CompileOk(storage, e.v1, s, n);
      CompileOk(storage, e.v2, s, n);
    }
  }

  lemma {:induction false} CompileOk(storage: Storage, id: nat, swapped: bool, negated: bool)
    requires WellFounded(storage) && id in storage
    ensures FormulaOk(storage, Compile(storage, id, swapped, negated))
    decreases id, 2
  {
    hide Parts;
    var e := storage[id];
    if IsConnective(e) { PartsOk(storage, id, swapped != e.swap, negated != e.reverse); }
  }

  lemma {:induction false} OrientedTwice(a: Args, x: bool, y: bool)
    ensures a.Oriented(x).Oriented(y) == a.Oriented(x != y)
  {
  }

  /** Conjunction or disjunction of one to four values. */
  predicate Joined(conjunction: bool, v: seq<bool>) {
    if conjunction then forall i :: 0 <= i < |v| ==> v[i] else exists i :: 0 <= i < |v| && v[i]
  }

  ghost function Values(leaf: Leaves, storage: Storage, parts: seq<Formula>, a: Args): (r: seq<bool>)
    requires WellFounded(storage) && forall i :: 0 <= i < |parts| ==> FormulaOk(storage, parts[i])
  {
    seq(|parts|, i requires 0 <= i < |parts| => Value(leaf, storage, parts[i], a))
  }

  lemma {:induction false} JunctionValue(leaf: Leaves, storage: Storage, conjunction: bool, parts: seq<Formula>,
                                         a: Args)
    requires WellFounded(storage) && forall i :: 0 <= i < |parts| ==> FormulaOk(storage, parts[i])
    ensures FormulaOk(storage, Junction(conjunction, parts))
    ensures Value(leaf, storage, Junction(conjunction, parts), a) <==>
        Joined(conjunction, Values(leaf, storage, parts, a))
  {
    hide MeetsRow;
    var v := Values(leaf, storage, parts, a);
    assert forall i :: 0 <= i < |parts| ==> v[i] == Value(leaf, storage, parts[i], a);
    if !conjunction {
      if i :| 0 <= i < |parts| && Value(leaf, storage, parts[i], a) { assert v[i]; }
    }
  }

  /** What `Evaluate` computes, as the values of its parts; `n` negates parts and result. */
  function PartValues(leaf: Leaves, storage: Storage, e: Entry, id: nat, a: Args, n: bool): seq<bool>
    requires WellFounded(storage) && EntryOk(storage, e, id) && IsConnective(e)
  {
    (if e.v3 == 0 then [] else [Meets(leaf, storage, e.v3, a) != n]) +
    (if e.v4 == 0 then [] else [Meets(leaf, storage, e.v4, a) != n]) +
    if e.condition == NOT then [Meets(leaf, storage, e.v1, a) == n]
    else [Meets(leaf, storage, e.v1, a) != n, Meets(leaf, storage, e.v2, a) != n]
  }

  lemma {:induction false} JoinedAppend(conjunction: bool, v: seq<bool>, w: seq<bool>)
    ensures Joined(conjunction, v + w) <==>
        if conjunction then Joined(true, v) && Joined(true, w) else Joined(false, v) || Joined(false, w)
  {
    var s := v + w;
    if conjunction {
      if Joined(true, s) {
        forall i | 0 <= i < |v| ensures v[i] { assert s[i]; }
        forall i | 0 <= i < |w| ensures w[i] { assert s[|v| + i]; }
      }
    } else {
      if i :| 0 <= i < |v| && v[i] { assert s[i]; }
      if i :| 0 <= i < |w| && w[i] { assert s[|v| + i]; }
    }
  }

  lemma {:induction false} JoinedSmall(conjunction: bool, x: bool, y: bool)
    ensures Joined(conjunction, [x]) == x
    ensures Joined(conjunction, [x, y]) == if conjunction then x && y else x || y
    ensures Joined(conjunction, []) == conjunction
  {
    assert [x][0] == x && [x, y][0] == x && [x, y][1] == y;
  }

  /** De Morgan for one row. */
  lemma {:induction false} EvaluateIsJoined(leaf: Leaves, storage: Storage, e: Entry, id: nat, a: Args, n: bool)
    requires WellFounded(storage) && EntryOk(storage, e, id) && IsConnective(e)
    ensures Evaluate(leaf, storage, e, id, a) != n <==>
            Joined(if e.condition == NOT then n else (e.condition == AND) != n, PartValues(leaf, storage, e, id, a, n))
  {
    hide MeetsRow, Joined;
    var c := if e.condition == NOT then n else (e.condition == AND) != n;
    var p3 := if e.v3 == 0 then [] else [Meets(leaf, storage, e.v3, a) != n];
    var p4 := if e.v4 == 0 then [] else [Meets(leaf, storage, e.v4, a) != n];
    var m1 := Meets(leaf, storage, e.v1, a);
    var m2 := e.condition != NOT && Meets(leaf, storage, e.v2, a);
    var p := if e.condition == NOT then [m1 == n] else [m1 != n, m2 != n];
    JoinedAppend(c, p3 + p4, p);
    JoinedAppend(c, p3, p4);
    JoinedSmall(c, m1 == n, true);
    JoinedSmall(c, m1 != n, m2 != n);
    JoinedSmall(true, true, true);
    JoinedSmall(false, true, true);
    if e.v3 != 0 { JoinedSmall(c, Meets(leaf, storage, e.v3, a) != n, true); }
    if e.v4 != 0 { JoinedSmall(c, Meets(leaf, storage, e.v4, a) != n, true); }
  }

  lemma {:induction false} PartsPreserve(leaf: Leaves, storage: Storage, id: nat, s: bool, n: bool, a: Args)
    requires WellFounded(storage) && id in storage && IsConnective(storage[id])
    ensures forall i :: 0 <= i < |Parts(storage, id, s, n)| ==> FormulaOk(storage, Parts(storage, id, s, n)[i])
    ensures Values(leaf, storage, Parts(storage, id, s, n), a)
         == PartValues(leaf, storage, storage[id], id, a.Oriented(s), n)
    decreases id, 0, 1
  {
    RefersInStorage(storage, id);
    PartsOk(storage, id, s, n);
    assert EntryOk(storage, storage[id], id);
    hide MeetsRow, Meets, Compile, FormulaOk, Value, Optional, Mandatory, Values, WellFounded, EntryOk;
    var e := storage[id];
    OptionalPreserves(leaf, storage, e.v3, id, s, n, a);
    OptionalPreserves(leaf, storage, e.v4, id, s, n, a);
    MandatoryPreserves(leaf, storage, id, s, n, a);
    var o3, o4 := Optional(storage, e.v3, id, s, n), Optional(storage, e.v4, id, s, n);
    ValuesAppend(leaf, storage, o3, o4, a);
    ValuesAppend(leaf, storage, o3 + o4, Mandatory(storage, id, s, n), a);
  }

  lemma {:induction false} MandatoryPreserves(leaf: Leaves, storage: Storage, id: nat, s: bool, n: bool, a: Args)
    requires WellFounded(storage) && id in storage && IsConnective(storage[id])
    ensures forall i :: 0 <= i < |Mandatory(storage, id, s, n)| ==> FormulaOk(storage, Mandatory(storage, id, s, n)[i])
    ensures var e, b := storage[id], a.Oriented(s);
            && 0 <= e.v1 < id && e.v1 in storage
            && (e.condition != NOT ==> 0 <= e.v2 < id && e.v2 in storage)
            && Values(leaf, storage, Mandatory(storage, id, s, n), a) ==
               if e.condition == NOT then [Meets(leaf, storage, e.v1, b) == n]
               else [Meets(leaf, storage, e.v1, b) != n, Meets(leaf, storage, e.v2, b) != n]
    decreases id, 0, 0
  {
    RefersInStorage(storage, id);
    MandatoryOk(storage, id, s, n);
    hide MeetsRow, Meets, Compile, FormulaOk, Value, Values, WellFounded;
    var e := storage[id];
    SmallValues(leaf, storage, Mandatory(storage, id, s, n), a);
    CompilePreserves(leaf, storage, e.v1, s, (e.condition == NOT) != n, a);
    if e.condition != NOT { CompilePreserves(leaf, storage, e.v2, s, n, a); }
  }

  lemma {:induction false} OptionalPreserves(leaf: Leaves, storage: Storage, v: int, id: nat, s: bool, n: bool, a: Args)
    requires WellFounded(storage) && RefersIfUsed(storage, v, id)
    ensures forall i :: 0 <= i < |Optional(storage, v, id, s, n)| ==>
        FormulaOk(storage, Optional(storage, v, id, s, n)[i])
    ensures Values(leaf, storage, Optional(storage, v, id, s, n), a) ==
            if v == 0 then [] else [Meets(leaf, storage, v, a.Oriented(s)) != n]
    decreases id, 0, 0
  {
    hide MeetsRow, Compile, FormulaOk, Value;
    if v != 0 { CompilePreserves(leaf, storage, v, s, n, a); }
  }

  lemma {:induction false} ValuesAppend(leaf: Leaves, storage: Storage, p: seq<Formula>, q: seq<Formula>, a: Args)
    requires WellFounded(storage)
    requires forall i :: 0 <= i < |p| ==> FormulaOk(storage, p[i])
    requires forall i :: 0 <= i < |q| ==> FormulaOk(storage, q[i])
    ensures forall i :: 0 <= i < |p + q| ==> FormulaOk(storage, (p + q)[i])
    ensures Values(leaf, storage, p + q, a) == Values(leaf, storage, p, a) + Values(leaf, storage, q, a)
  {
    hide Value, FormulaOk;
  }

  lemma {:induction false} SmallValues(leaf: Leaves, storage: Storage, p: seq<Formula>, a: Args)
    requires WellFounded(storage) && forall i :: 0 <= i < |p| ==> FormulaOk(storage, p[i])
    ensures |p| == 1 ==> Values(leaf, storage, p, a) == [Value(leaf, storage, p[0], a)]
    ensures |p| == 2 ==> Values(leaf, storage, p, a) == [Value(leaf, storage, p[0], a), Value(leaf, storage, p[1], a)]
  {
    hide Value, FormulaOk;
  }

  /**
    Evaluation is negation normal form: pushing every reverse flag, every NOT and every swap flag
    down to the leaves preserves the result, for every storage, every entry and all arguments.
    */
  lemma {:induction false} CompilePreserves(leaf: Leaves, storage: Storage, id: nat, swapped: bool, negated: bool,
                                            a: Args)
    requires WellFounded(storage) && id in storage
    ensures FormulaOk(storage, Compile(storage, id, swapped, negated))
    ensures Value(leaf, storage, Compile(storage, id, swapped, negated), a) <==>
            Meets(leaf, storage, id, a.Oriented(swapped)) != negated
    decreases id, 1
  {
    hide Parts, Evaluate, Values, PartValues, Joined;
    var e := storage[id];
    CompileOk(storage, id, swapped, negated);
    if IsConnective(e) {
      var s, n := swapped != e.swap, negated != e.reverse;
      OrientedTwice(a, swapped, e.swap);
      PartsPreserve(leaf, storage, id, s, n, a);
      JunctionValue(leaf, storage, if e.condition == NOT then n else (e.condition == AND) != n,
                    Parts(storage, id, s, n), a);
      EvaluateIsJoined(leaf, storage, e, id, a.Oriented(s), n);
    }
  }

  // ---------------------------------------------------------------- which way round a leaf sees its arguments

  predicate ChildOf(e: Entry, child: nat) {
    IsConnective(e)
    && (child == e.v1 || (e.condition != NOT && child == e.v2) || (child != 0 && (child == e.v3 || child == e.v4)))
  }

  /** A way from a row down to a leaf row. */
  ghost predicate IsPath(storage: Storage, path: seq<nat>)
    requires WellFounded(storage)
  {
    && path != [] && path[0] in storage
    && if |path| == 1 then !IsConnective(storage[path[0]])
       else ChildOf(storage[path[0]], path[1]) && IsPath(storage, path[1..])
  }

  /** Whether an odd number of the connectives on the path carry the swap flag. */
  ghost predicate OddSwaps(storage: Storage, path: seq<nat>)
    requires forall i :: 0 <= i < |path| ==> path[i] in storage
  {
    |path| > 1 && (storage[path[0]].swap != OddSwaps(storage, path[1..]))
  }

  /** A literal of the formula for row `leafId` with the given orientation. */
  ghost predicate HasLit(f: Formula, leafId: nat, swapped: bool) {
    match f
    case Lit(id, s, _) => id == leafId && s == swapped
    case And(parts) => exists i :: 0 <= i < |parts| && HasLit(parts[i], leafId, swapped)
    case Or(parts) => exists i :: 0 <= i < |parts| && HasLit(parts[i], leafId, swapped)
  }

  lemma {:induction false} PathInStorage(storage: Storage, path: seq<nat>)
    requires WellFounded(storage) && IsPath(storage, path)
    ensures forall i :: 0 <= i < |path| ==> path[i] in storage
    decreases |path|
  {
    if |path| > 1 {
      PathInStorage(storage, path[1..]);
      forall i | 0 <= i < |path| ensures path[i] in storage {
        if i > 0 { assert path[i] == path[1..][i - 1]; }
      }
    }
  }

  /** Every child of a connective is compiled among its parts, for some negation. */
  lemma {:induction false} ChildPart(storage: Storage, id: nat, child: nat, s: bool, n: bool) returns (i: nat, m: bool)
    requires WellFounded(storage) && id in storage && ChildOf(storage[id], child)
    ensures child in storage && child < id
    ensures i < |Parts(storage, id, s, n)| && Parts(storage, id, s, n)[i] == Compile(storage, child, s, m)
  {
    hide Compile;
    var e := storage[id];
    assert EntryOk(storage, e, id);
    var o3, o4 := Optional(storage, e.v3, id, s, n), Optional(storage, e.v4, id, s, n);
    if child == e.v3 && child != 0 {
      i, m := 0, n;
    } else if child == e.v4 && child != 0 {
      i, m := |o3|, n;
    } else if child == e.v1 {
      i, m := |o3| + |o4|, (e.condition == NOT) != n;
    } else {
      i, m := |o3| + |o4| + 1, n;
    }
  }

  /** Along every path the leaf is evaluated, with the arguments swapped iff the swap count above it is odd. */
  lemma {:induction false} PathReachesLit(storage: Storage, path: seq<nat>, swapped: bool, negated: bool)
    requires WellFounded(storage) && IsPath(storage, path)
    ensures forall i :: 0 <= i < |path| ==> path[i] in storage
    ensures HasLit(Compile(storage, path[0], swapped, negated), path[|path| - 1], swapped != OddSwaps(storage, path))
    decreases |path|
  {
    hide Parts;
    PathInStorage(storage, path);
    if |path| > 1 {
      var e := storage[path[0]];
      var s, n := swapped != e.swap, negated != e.reverse;
      var i, m := ChildPart(storage, path[0], path[1], s, n);
      PathReachesLit(storage, path[1..], s, m);
      assert path[1..][0] == path[1] && path[1..][|path| - 2] == path[|path| - 1];
    }
  }

  /** Which child a part was compiled from. */
  lemma {:induction false} PartChild(storage: Storage, id: nat, s: bool, n: bool, i: nat) returns (child: nat, m: bool)
    requires WellFounded(storage) && id in storage && IsConnective(storage[id]) && i < |Parts(storage, id, s, n)|
    ensures ChildOf(storage[id], child) && child in storage && child < id
    ensures Parts(storage, id, s, n)[i] == Compile(storage, child, s, m)
  {
    hide Compile;
    var e := storage[id];
    assert EntryOk(storage, e, id);
    var o3, o4 := Optional(storage, e.v3, id, s, n), Optional(storage, e.v4, id, s, n);
    if i < |o3| {
      child, m := e.v3, n;
    } else if i < |o3| + |o4| {
      child, m := e.v4, n;
    } else if i == |o3| + |o4| {
      child, m := e.v1, (e.condition == NOT) != n;
    } else {
      child, m := e.v2, n;
    }
  }

  /** And nothing else: every literal lies at the end of a path with that swap count. */
  lemma {:induction false} LitHasPath(storage: Storage, id: nat, swapped: bool, negated: bool, leafId: nat, t: bool)
    returns (path: seq<nat>)
    requires WellFounded(storage) && id in storage
    requires HasLit(Compile(storage, id, swapped, negated), leafId, t)
    ensures IsPath(storage, path) && path[0] == id && path[|path| - 1] == leafId
    ensures forall i :: 0 <= i < |path| ==> path[i] in storage
    ensures t == (swapped != OddSwaps(storage, path))
    decreases id
  {
    hide Parts;
    var e := storage[id];
    if !IsConnective(e) {
      path := [id];
    } else {
      var s, n := swapped != e.swap, negated != e.reverse;
      var parts := Parts(storage, id, s, n);
      var i :| 0 <= i < |parts| && HasLit(parts[i], leafId, t);
      var child, m := PartChild(storage, id, s, n, i);
      var below := LitHasPath(storage, child, s, m, leafId, t);
      path := [id] + below;
      assert path[1..] == below;
    }
  }

  // ---------------------------------------------------------------- NOT is deprecated: use the reverse flag

  /** The row that should do what a NOT row without optional values does: its child with combined flags. */
  function WithoutNot(storage: Storage, e: Entry): Entry
    requires e.v1 >= 0 && e.v1 in storage
  {
    var child := storage[e.v1];
    child.(reverse := child.reverse == e.reverse, swap := child.swap != e.swap)
  }

  /**
    Replacing a NOT row by its child with the flags combined keeps the result exactly when the
    child's parameter check passes, or the NOT row itself carries the reverse flag.
    */
  lemma {:induction false} WithoutNotIff(leaf: Leaves, storage: Storage, id: nat, a: Args)
    requires WellFounded(storage) && id in storage
    requires var e := storage[id]; e.condition == NOT && e.v3 == 0 && e.v4 == 0
    ensures EntryOk(storage, storage[id], id) && EntryOk(storage, WithoutNot(storage, storage[id]), id)
    ensures MeetsRow(leaf, storage, WithoutNot(storage, storage[id]), id, a) == Meets(leaf, storage, id, a) <==>
            var e := storage[id];
            var child := storage[e.v1];
            e.reverse || Checks(child, a.Oriented(e.swap).Oriented(child.swap))
  {
    MergedRow(storage, id);
    NotUnfolds(leaf, storage, id, a);
    var e := storage[id];
    var child, merged := storage[e.v1], WithoutNot(storage, e);
    var b := a.Oriented(merged.swap);
    OrientedTwice(a, e.swap, child.swap);
    EvaluateIgnoresPlace(leaf, storage, child, merged, e.v1, id, b);
    RowUnfolds(leaf, storage, child, e.v1, a.Oriented(e.swap));
    RowUnfolds(leaf, storage, merged, id, a);
    ChecksIgnoreFlags(child, merged, b);
    hide MeetsRow, Evaluate, Checks, WellFounded, EntryOk;
  }

  /** The row that takes the place of a NOT: the child's, with the flags combined. */
  lemma {:induction false} MergedRow(storage: Storage, id: nat)
    requires WellFounded(storage) && id in storage
    requires var e := storage[id]; e.condition == NOT && e.v3 == 0 && e.v4 == 0
    ensures var e := storage[id];
            && EntryOk(storage, e, id) && 0 <= e.v1 < id && e.v1 in storage && EntryOk(storage, storage[e.v1], e.v1)
            && EntryOk(storage, WithoutNot(storage, e), id)
            && var child, merged := storage[e.v1], WithoutNot(storage, e);
            && merged == child.(reverse := merged.reverse, swap := merged.swap)
            && merged.swap == (e.swap != child.swap) && merged.reverse == ((child.reverse != e.reverse) != true)
  {
    var e := storage[id];
    assert EntryOk(storage, e, id);
    assert EntryOk(storage, storage[e.v1], e.v1);
  }

  lemma {:induction false} RowUnfolds(leaf: Leaves, storage: Storage, e: Entry, id: nat, a: Args)
    requires WellFounded(storage) && EntryOk(storage, e, id)
    ensures MeetsRow(leaf, storage, e, id, a) <==>
            Checks(e, a.Oriented(e.swap)) && Evaluate(leaf, storage, e, id, a.Oriented(e.swap)) != e.reverse
  {
    hide Evaluate, Checks;
  }

  lemma {:induction false} ChecksIgnoreFlags(e: Entry, f: Entry, a: Args)
    requires NOT <= e.condition <= LAST_TYPE && f == e.(reverse := f.reverse, swap := f.swap)
    ensures Checks(e, a) == Checks(f, a)
  {
  }

  lemma {:induction false} NotUnfolds(leaf: Leaves, storage: Storage, id: nat, a: Args)
    requires WellFounded(storage) && id in storage
    requires var e := storage[id]; e.condition == NOT && e.v3 == 0 && e.v4 == 0
    ensures EntryOk(storage, storage[id], id)
    ensures Meets(leaf, storage, id, a)
         == (Meets(leaf, storage, storage[id].v1, a.Oriented(storage[id].swap)) == storage[id].reverse)
  {
    var e, b := storage[id], a.Oriented(storage[id].swap);
    assert EntryOk(storage, e, id);
    assert !MetIfUsed(leaf, storage, e.v3, id, b) && !MetIfUsed(leaf, storage, e.v4, id, b);
    assert Evaluate(leaf, storage, e, id, b) == !Meets(leaf, storage, e.v1, b);
  }

  /** `Evaluate` looks neither at the flags of the row nor at where it stands. */
  lemma {:induction false} EvaluateIgnoresPlace(leaf: Leaves, storage: Storage, e: Entry, f: Entry, id: nat,
                                                other: nat, a: Args)
    requires WellFounded(storage) && EntryOk(storage, e, id) && EntryOk(storage, f, other)
    requires f == e.(reverse := f.reverse, swap := f.swap)
    ensures Evaluate(leaf, storage, e, id, a) == Evaluate(leaf, storage, f, other, a)
  {
    hide MeetsRow;
    if IsConnective(e) {
      assert MetIfUsed(leaf, storage, e.v3, id, a) == MetIfUsed(leaf, storage, f.v3, other, a);
      assert MetIfUsed(leaf, storage, e.v4, id, a) == MetIfUsed(leaf, storage, f.v4, other, a);
    }
  }

  /** Rows that agree for all arguments can be exchanged: every condition of the storage keeps its meaning. */
  lemma {:induction false} ReplaceRow(leaf: Leaves, storage: Storage, at: nat, row: Entry, id: nat, a: Args)
    requires WellFounded(storage) && at in storage && EntryOk(storage, row, at) && id in storage
    requires forall b :: MeetsRow(leaf, storage, row, at, b) == Meets(leaf, storage, at, b)
    ensures WellFounded(storage[at := row])
    ensures Meets(leaf, storage[at := row], id, a) == Meets(leaf, storage, id, a)
    decreases id
  {
    hide MeetsRow;
    var replaced := storage[at := row];
    assert forall k :: k in replaced ==> EntryOk(storage, replaced[k], k);
    assert EntryOk(storage, replaced[id], id) && EntryOk(storage, storage[id], id);
    forall k: nat, b | k in storage && k < id ensures Meets(leaf, replaced, k, b) == Meets(leaf, storage, k, b) {
      ReplaceRow(leaf, storage, at, row, k, b);
    }
    SameBelow(leaf, storage, replaced, replaced[id], id, a);
  }

  lemma {:induction false} SameBelow(leaf: Leaves, s: Storage, t: Storage, e: Entry, id: nat, a: Args)
    requires WellFounded(s) && WellFounded(t) && EntryOk(s, e, id) && EntryOk(t, e, id)
    requires forall k: nat, b :: k in s && k in t && k < id ==> Meets(leaf, t, k, b) == Meets(leaf, s, k, b)
    ensures MeetsRow(leaf, t, e, id, a) == MeetsRow(leaf, s, e, id, a)
  {
    var b := a.Oriented(e.swap);
    if IsConnective(e) {
      assert Meets(leaf, t, e.v1, b) == Meets(leaf, s, e.v1, b);
      assert e.condition != NOT ==> Meets(leaf, t, e.v2, b) == Meets(leaf, s, e.v2, b);
      assert e.v3 != 0 ==> Meets(leaf, t, e.v3, b) == Meets(leaf, s, e.v3, b);
      assert e.v4 != 0 ==> Meets(leaf, t, e.v4, b) == Meets(leaf, s, e.v4, b);
      assert MetIfUsed(leaf, t, e.v3, id, b) == MetIfUsed(leaf, s, e.v3, id, b);
      assert MetIfUsed(leaf, t, e.v4, id, b) == MetIfUsed(leaf, s, e.v4, id, b);
    }
    assert Evaluate(leaf, t, e, id, b) == Evaluate(leaf, s, e, id, b);
  }

  /** Hence a NOT row over a connective, or one that is reversed, can be rewritten wherever it is used. */
  lemma {:induction false} RewriteNot(leaf: Leaves, storage: Storage, at: nat, id: nat, a: Args)
    requires WellFounded(storage) && at in storage && id in storage
    requires var e := storage[at];
             e.condition == NOT && e.v3 == 0 && e.v4 == 0 && (e.reverse || IsConnective(storage[e.v1]))
    ensures EntryOk(storage, storage[at], at) && WellFounded(storage[at := WithoutNot(storage, storage[at])])
    ensures Meets(leaf, storage[at := WithoutNot(storage, storage[at])], id, a) == Meets(leaf, storage, id, a)
  {
    hide MeetsRow;
    var e := storage[at];
    assert EntryOk(storage, e, at) && EntryOk(storage, storage[e.v1], e.v1);
    forall b ensures MeetsRow(leaf, storage, WithoutNot(storage, e), at, b) == Meets(leaf, storage, at, b) {
      WithoutNotIff(leaf, storage, at, b);
    }
    WithoutNotIff(leaf, storage, at, a);
    ReplaceRow(leaf, storage, at, WithoutNot(storage, e), id, a);
  }

  // ---------------------------------------------------------------- disabling a broken condition

  /** `DisableCondition` */
  function Disabled(e: Entry): Entry { e.(condition := NONE, reverse := !e.reverse) }

  /** A disabled row behaves as if its condition were never fulfilled. */
  lemma {:induction false} DisabledIsNeverFulfilled(leaf: Leaves, storage: Storage, e: Entry, id: nat, a: Args)
    requires WellFounded(storage) && EntryOk(storage, e, id)
    ensures EntryOk(storage, Disabled(e), id)
    ensures MeetsRow(leaf, storage, Disabled(e), id, a) == e.reverse
  {
  }
}
