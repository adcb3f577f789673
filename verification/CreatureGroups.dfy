/**
  Creature groups: a leader that may be replaced while it is dead, and events that call back into
  the group while one of its own loops is running. What a creature's Respawn() and its AI's
  AttackedBy() do is an arbitrary finite list of further group events and of changes to the world.
  */
module CreatureGroups {
  import opened Bytes
  import opened Sequences

  type Guid = nat
  /** The bits of the option mask; a mask is the set of its bits. */
  datatype GroupOption =
    | FormationMove | AggroTogether | EvadeTogether | RespawnTogether
    | RespawnAllOnMasterEvade | RespawnAllOnAnyEvade | InformLeaderOnMemberDied | InformMembersOnAnyDied
  type Flags = set<GroupOption>

  datatype Member = Member(guid: Guid, followDistance: real, followAngle: real, flags: Flags)

  /** What the group asks a creature of the map, and who is alive. */
  datatype Creature = Creature(inWorld: bool, inCombat: bool, patrols: bool, hasAI: bool, spawnable: bool,
                               takesTarget: bool)

  datatype World = World(creatures: map<Guid, Creature>, alive: set<Guid>)

  /**
    What a callback does: group events, and whatever else happens to the creatures, who waits to
    respawn, who fights. `told` lists what each creature that is told of the death does in turn.
    */
  datatype Callback =
    | Respawned(guid: Guid) | LeftCombat(guid: Guid) | Died(guid: Guid, told: seq<Reaction>) | Attacked(guid: Guid)
    | Changed(world: World, due: set<Guid>, victims: set<Guid>)

  datatype Reaction = Reaction(raises: seq<Callback>)

  /** Sizes of what is raised, for termination: nothing but the tree itself ends a chain of deaths. */
  function Size(c: Callback): nat
    decreases c
  {
    if c.Died? then 1 + ListsSize(c.told) else 1
  }

  function ListSize(cs: seq<Callback>): nat
    decreases cs
  {
    if cs == [] then 0 else Size(cs[0]) + ListSize(cs[1..])
  }

  function ReactionSize(r: Reaction): nat
    decreases r
  {
    ListSize(r.raises)
  }

  function ListsSize(lists: seq<Reaction>): nat
    decreases lists
  {
    if lists == [] then 0 else 1 + ReactionSize(lists[0]) + ListsSize(lists[1..])
  }

  function Nth(lists: seq<Reaction>, k: nat): seq<Callback> { if k < |lists| then lists[k].raises else [] }

  lemma {:induction false} NthSize(lists: seq<Reaction>)
    ensures forall k: nat :: ListSize(Nth(lists, k)) <= ListsSize(lists)
  {
    forall k: nat ensures ListSize(Nth(lists, k)) <= ListsSize(lists) {
      if k < |lists| { SizeInLists(lists, k); }
    }
  }

  lemma {:induction false} SizeInList(cs: seq<Callback>, i: nat)
    requires i < |cs|
    ensures Size(cs[i]) <= ListSize(cs)
    decreases |cs|
  {
    if i > 0 { SizeInList(cs[1..], i - 1); }
  }

  lemma {:induction false} SizeInLists(lists: seq<Reaction>, i: nat)
    requires i < |lists|
    ensures ListSize(lists[i].raises) < ListsSize(lists)
    decreases |lists|
  {
    if i > 0 { SizeInLists(lists[1..], i - 1); }
  }

  /** One creature that a loop over the group has turned to, and whether that did anything. */
  datatype Attempt = Attempt(guid: Guid, done: bool)

  // ---------------------------------------------------------------- the member map, in guid order

  ghost predicate Ascending(ms: seq<Member>) {
    forall i, j :: 0 <= i < j < |ms| ==> ms[i].guid < ms[j].guid
  }

  function Guids(ms: seq<Member>): (r: seq<Guid>) {
    seq(|ms|, i requires 0 <= i < |ms| => ms[i].guid)
  }

  /** m_members[guid] = ... */
  function Put(ms: seq<Member>, m: Member): (r: seq<Member>) {
    if ms == [] || m.guid < ms[0].guid then [m] + ms
    else if m.guid == ms[0].guid then [m] + ms[1..]
    else [ms[0]] + Put(ms[1..], m)
  }

  function Drop(ms: seq<Member>, guid: Guid): (r: seq<Member>) {
    if ms == [] then [] else if ms[0].guid == guid then ms[1..] else [ms[0]] + Drop(ms[1..], guid)
  }

  lemma {:induction false} PutIsUpdate(ms: seq<Member>, m: Member)
    requires Ascending(ms)
    ensures Ascending(Put(ms, m))
    ensures forall x :: x in Put(ms, m) <==> x == m || (x in ms && x.guid != m.guid)
    decreases |ms|
  {
    if ms != [] && m.guid > ms[0].guid {
      PutIsUpdate(ms[1..], m);
      var tail := Put(ms[1..], m);
      forall j | 0 <= j < |tail| ensures ms[0].guid < tail[j].guid { assert tail[j] in tail; }
    }
  }

  lemma {:induction false} DropIsErase(ms: seq<Member>, guid: Guid)
    requires Ascending(ms)
    ensures Ascending(Drop(ms, guid))
    ensures forall x :: x in Drop(ms, guid) <==> x in ms && x.guid != guid
    decreases |ms|
  {
    if ms != [] && ms[0].guid != guid {
      DropIsErase(ms[1..], guid);
      var tail := Drop(ms[1..], guid);
      forall j | 0 <= j < |tail| ensures ms[0].guid < tail[j].guid { assert tail[j] in tail; }
    }
  }

  predicate Living(world: World, guid: Guid) {
    guid in world.creatures && world.creatures[guid].inWorld && guid in world.alive
  }

  /** The first living other member in guid order. */
  function FirstLiving(ms: seq<Member>, world: World, except: Guid): Option<Guid> {
    if ms == [] then None
    else if ms[0].guid != except && Living(world, ms[0].guid) then Some(ms[0].guid)
    else FirstLiving(ms[1..], world, except)
  }

  lemma {:induction false} FirstLivingIsLeast(ms: seq<Member>, world: World, except: Guid)
    requires Ascending(ms)
    ensures match FirstLiving(ms, world, except)
            case Some(g) =>
              && g in Guids(ms) && g != except && Living(world, g)
              && forall m :: m in ms && m.guid != except && Living(world, m.guid) ==> g <= m.guid
            case None => forall m :: m in ms && m.guid != except ==> !Living(world, m.guid)
    decreases |ms|
  {
    hide Guids;
    if ms != [] {
      FirstLivingIsLeast(ms[1..], world, except);
      GuidsCons(ms);
      assert ms == [ms[0]] + ms[1..];
    }
  }

  lemma {:induction false} GuidsCons(ms: seq<Member>)
    requires ms != []
    ensures forall g :: g in Guids(ms) <==> g == ms[0].guid || g in Guids(ms[1..])
  {
    assert Guids(ms) == [ms[0].guid] + Guids(ms[1..]);
  }

  // ---------------------------------------------------------------- who is respawned by one RespawnAll

  /** The creatures RespawnAll tries, in order: the members, then the original leader. */
  function Candidates(ms: seq<Member>, except: Guid, original: Guid): (r: seq<Guid>) {
    Others(ms, except) + if except != original then [original] else []
  }

  function Others(ms: seq<Member>, except: Guid): (r: seq<Guid>) {
    if ms == [] then [] else
    var front, last := ms[..|ms| - 1], ms[|ms| - 1].guid;
    if last != except then Others(front, except) + [last] else Others(front, except)
  }

  predicate CanRespawn(creatures: map<Guid, Creature>, due: set<Guid>, g: Guid) {
    g in creatures && creatures[g].inWorld && g in due && creatures[g].spawnable
  }

  /** The candidates that are respawned when each is tried once; a respawned creature is no longer due. */
  function Due(creatures: map<Guid, Creature>, due: set<Guid>, cs: seq<Guid>): (r: seq<Guid>) {
    if cs == [] then [] else
    var front, last := cs[..|cs| - 1], cs[|cs| - 1];
    var before := Due(creatures, due, front);
    if CanRespawn(creatures, due, last) && last !in before then before + [last] else before
  }

  predicate CanAssist(world: World, victims: set<Guid>, g: Guid) {
    Living(world, g) && g !in victims && world.creatures[g].hasAI
  }

  /** The candidates that assist when each is asked once: those that take the target have a victim from then on. */
  function Helpers(world: World, victims: set<Guid>, cs: seq<Guid>): (r: seq<Guid>) {
    if cs == [] then [] else
    var front, last := cs[..|cs| - 1], cs[|cs| - 1];
    var before := Helpers(world, victims, front);
    if CanAssist(world, victims + Fighting(world.creatures, before), last) then before + [last] else before
  }

  function Fighting(creatures: map<Guid, Creature>, helpers: seq<Guid>): set<Guid> {
    set g | g in helpers && g in creatures && creatures[g].takesTarget
  }

  /** Exactly the candidates that can assist do, and one that takes the target does so once. */
  lemma {:induction false} HelpersOnce(world: World, victims: set<Guid>, cs: seq<Guid>)
    ensures var hs := Helpers(world, victims, cs);
            && (forall g :: g in hs <==> g in cs && CanAssist(world, victims, g))
            && (forall g :: g in hs <==>
                            g in cs && g in world.creatures && world.creatures[g].inWorld && g in world.alive
                            && g !in victims && world.creatures[g].hasAI)
            && (forall i, j :: 0 <= i < j < |hs| && hs[i] == hs[j] ==> hs[i] !in Fighting(world.creatures, hs))
    decreases |cs|
  {
    if cs != [] {
      HelpersOnce(world, victims, cs[..|cs| - 1]);
      var before, hs := Helpers(world, victims, cs[..|cs| - 1]), Helpers(world, victims, cs);
      var last := cs[|cs| - 1];
      assert cs == cs[..|cs| - 1] + [last];
      assert CanAssist(world, victims, last) ==> last in hs;
      assert forall g :: g in Fighting(world.creatures, before) ==> g in before;
      assert forall g :: g in Fighting(world.creatures, hs) && g in before ==> g in Fighting(world.creatures, before);
      if hs != before {
        assert hs == before + [last] && (last in before ==> last !in Fighting(world.creatures, before));
        forall i, j | 0 <= i < j < |hs| && hs[i] == hs[j] ensures hs[i] !in Fighting(world.creatures, hs) {
          assert hs[i] in before;
        }
      }
    }
  }

  /** The creatures of a list of attempts, and those with which something was done. */
  function Tried(attempts: seq<Attempt>): (r: seq<Guid>) {
    if attempts == [] then [] else Tried(attempts[..|attempts| - 1]) + [attempts[|attempts| - 1].guid]
  }

  function Done(attempts: seq<Attempt>): (r: seq<Guid>) {
    if attempts == [] then [] else
    var last := attempts[|attempts| - 1];
    Done(attempts[..|attempts| - 1]) + if last.done then [last.guid] else []
  }

  lemma {:induction false} AttemptStep(attempts: seq<Attempt>, a: Attempt)
    ensures Tried(attempts + [a]) == Tried(attempts) + [a.guid]
    ensures Done(attempts + [a]) == Done(attempts) + if a.done then [a.guid] else []
  {
    assert (attempts + [a])[..|attempts|] == attempts;
  }

  /** Nobody is respawned twice, and exactly the candidates that can be are. */
  lemma {:induction false} DueOnce(creatures: map<Guid, Creature>, due: set<Guid>, cs: seq<Guid>)
    ensures forall i, j :: 0 <= i < j < |Due(creatures, due, cs)| ==>
        Due(creatures, due, cs)[i] != Due(creatures, due, cs)[j]
    ensures forall g :: g in Due(creatures, due, cs) <==>
                        g in cs && g in creatures && creatures[g].inWorld && g in due && creatures[g].spawnable
    decreases |cs|
  {
    if cs != [] { DueOnce(creatures, due, cs[..|cs| - 1]); }
  }

  /** The candidates: every member but the excepted one, in guid order, then the original leader. */
  lemma {:induction false} CandidatesAre(ms: seq<Member>, except: Guid, original: Guid)
    requires Ascending(ms)
    ensures var cs := Candidates(ms, except, original);
            var last := if except != original then [original] else [];
            var front := cs[..|cs| - |last|];
            && cs == front + last
            && (forall i, j :: 0 <= i < j < |front| ==> front[i] < front[j])
            && (forall g :: g in front <==> g != except && Listed(ms, g))
  {
    OthersAre(ms, except);
    var last := if except != original then [original] else [];
    assert Candidates(ms, except, original) == Others(ms, except) + last;
  }

  ghost predicate Listed(ms: seq<Member>, g: Guid) { exists m :: m in ms && m.guid == g }

  lemma {:induction false} OthersAre(ms: seq<Member>, except: Guid)
    requires Ascending(ms)
    ensures forall i, j :: 0 <= i < j < |Others(ms, except)| ==> Others(ms, except)[i] < Others(ms, except)[j]
    ensures forall g :: g in Others(ms, except) <==> g != except && Listed(ms, g)
    decreases |ms|
  {
    if ms != [] {
      var front, last := ms[..|ms| - 1], ms[|ms| - 1];
      OthersAre(front, except);
      ListedStep(ms);
      var os := Others(front, except);
      assert Others(ms, except) == if last.guid != except then os + [last.guid] else os;
      forall i | 0 <= i < |os| ensures os[i] < last.guid {
        assert os[i] in os && Listed(front, os[i]);
        var m :| m in front && m.guid == os[i];
      }
      hide Listed, Others;
    }
  }

  lemma {:induction false} ListedStep(ms: seq<Member>)
    requires ms != []
    ensures forall g :: Listed(ms, g) <==> g == ms[|ms| - 1].guid || Listed(ms[..|ms| - 1], g)
  {
    assert ms == ms[..|ms| - 1] + [ms[|ms| - 1]];
  }

  /** Whom a death is told: the original leader, then the other members in guid order, each as its option says. */
  lemma {:induction false} InformedAre(options: Flags, ms: seq<Member>, dead: Guid, original: Guid)
    requires Ascending(ms)
    ensures var told := Informed(options, ms, dead, original);
            var first := if InformLeaderOnMemberDied in options && dead != original then [original] else [];
            && first <= told
            && var rest := told[|first|..];
            && (forall g :: g in rest <==> InformMembersOnAnyDied in options && g != dead && Listed(ms, g))
            && (forall i, j :: 0 <= i < j < |rest| ==> rest[i] < rest[j])
  {
    OthersAre(ms, dead);
    var first := if InformLeaderOnMemberDied in options && dead != original then [original] else [];
    var rest := if InformMembersOnAnyDied in options then Others(ms, dead) else [];
    assert Informed(options, ms, dead, original) == first + rest;
    assert (first + rest)[|first|..] == rest;
  }

  // ---------------------------------------------------------------- the group

  /** Members in guid order; the leader is the original one or a member; the options include every member's flags. */
  ghost predicate Sound(ms: seq<Member>, options: Flags, leader: Guid, original: Guid) {
    && Ascending(ms)
    && (leader == original || leader in Guids(ms))
    && forall m :: m in ms ==> m.flags <= options
  }

  /** What `Valid` promises: the leader is the original or a member, and the options hold every member's flags. */
  lemma {:induction false} SoundMeans(ms: seq<Member>, options: Flags, leader: Guid, original: Guid)
    requires Sound(ms, options, leader, original)
    ensures leader == original || exists m :: m in ms && m.guid == leader
    ensures forall m, flag :: m in ms && flag in m.flags ==> flag in options
    ensures forall i, j :: 0 <= i < j < |ms| ==> ms[i].guid < ms[j].guid
  {
    if leader != original {
      var i :| 0 <= i < |Guids(ms)| && Guids(ms)[i] == leader;
      assert ms[i] in ms && ms[i].guid == leader;
    }
  }

  lemma {:induction false} PutSound(ms: seq<Member>, options: Flags, leader: Guid, original: Guid, m: Member)
    requires Sound(ms, options, leader, original) && m.guid != leader
    ensures Sound(Put(ms, m), options + m.flags, leader, original)
  {
    hide Put, Ascending;
    PutIsUpdate(ms, m);
    KeepsGuid(ms, Put(ms, m), leader);
  }

  lemma {:induction false} DropSound(ms: seq<Member>, options: Flags, leader: Guid, original: Guid, guid: Guid)
    requires Sound(ms, options, leader, original)
    ensures Sound(Drop(ms, guid), options, leader, original) <==> guid != leader || leader == original
  {
    hide Drop, Ascending;
    DropIsErase(ms, guid);
    if guid != leader {
      KeepsGuid(ms, Drop(ms, guid), leader);
    } else {
      forall i | 0 <= i < |Drop(ms, guid)|
        ensures Guids(Drop(ms, guid))[i] != guid
      {
        assert Drop(ms, guid)[i] in Drop(ms, guid);
      }
    }
  }

  lemma {:induction false} LeadsAgain(ms: seq<Member>, options: Flags, leader: Guid, original: Guid)
    requires Sound(ms, options, leader, original)
    ensures Sound(ms, options, original, original)
  {
  }

  /** The state of a group and of what it looks at; the logs and counts are histories. */
  datatype Snapshot = Snapshot(
    leader: Guid, options: Flags, members: seq<Member>, assistGuard: bool, respawnGuard: bool,
    world: World, due: set<Guid>, victims: set<Guid>,
    respawned: seq<Guid>, assisted: seq<Guid>, fell: nat, deaths: nat, changes: nat)

  /**
    How a state may evolve during any event. The guards come back as they were, and a guard that is
    up keeps its log. The original leader keeps the lead until the group hears of its death, and a
    temporary leader until it hears of a death or the original leader takes over again. While nothing
    else changes the world, only respawning and assisting do.
    */
  ghost predicate Evolves(original: Guid, a: Snapshot, b: Snapshot) {
    && b.options == a.options && b.members == a.members
    && b.assistGuard == a.assistGuard && b.respawnGuard == a.respawnGuard
    && a.respawned <= b.respawned && (a.respawnGuard ==> b.respawned == a.respawned)
    && a.assisted <= b.assisted && (a.assistGuard ==> b.assisted == a.assisted)
    && b.fell >= a.fell && b.deaths >= a.deaths && b.changes >= a.changes
    && (b.fell == a.fell && a.leader == original ==> b.leader == original)
    && (b.deaths == a.deaths ==> b.leader == a.leader || b.leader == original)
    && (b.changes == a.changes ==>
          && b.world.creatures == a.world.creatures
          && (b.respawned == a.respawned ==> b.world == a.world)
          && (a.respawnGuard ==> b.due == a.due)
          && (a.assistGuard ==> b.victims == a.victims))
  }

  lemma {:induction false} EvolvesFurther(original: Guid, a: Snapshot, b: Snapshot, c: Snapshot)
    requires Evolves(original, a, b) && Evolves(original, b, c)
    ensures Evolves(original, a, c)
    ensures c.changes == a.changes ==> b.changes == a.changes
    ensures c.respawned == a.respawned ==> b.respawned == a.respawned && c.respawned == b.respawned
  {
  }

  class CreatureGroup {
    const originalLeader: Guid
    const onRespawn: (Guid, nat) -> seq<Callback>    // what Respawn() of a creature raises, the n-th time
    const onAttacked: (Guid, nat) -> seq<Callback>   // what its AI raises when told of an attack, likewise
    var leader: Guid
    var options: Flags
    var members: seq<Member>
    var assistGuard: bool
    var respawnGuard: bool
    var world: World                            // the map's creatures
    var due: set<Guid>                          // respawn time in the future
    var victims: set<Guid>                      // creatures that have a victim
    var raised: nat                             // how often callbacks were raised
    ghost var respawned: seq<Guid>              // every Respawn() so far
    ghost var assisted: seq<Guid>               // every AttackedBy() so far
    ghost var fell: nat                         // how often the group heard of the original leader's death,
    ghost var deaths: nat                       // and of any death
    ghost var changes: nat                      // how often a callback changed the world

    ghost predicate Valid()
      reads this`leader, this`options, this`members
    {
      Sound(members, options, leader, originalLeader)
    }

    ghost function Now(): Snapshot
      reads this
    {
      Snapshot(leader, options, members, assistGuard, respawnGuard, world, due, victims, respawned, assisted, fell,
               deaths, changes)
    }

    constructor (leader: Guid, onRespawn: (Guid, nat) -> seq<Callback>, onAttacked: (Guid, nat) -> seq<Callback>)
      ensures Valid() && !assistGuard && !respawnGuard && originalLeader == this.leader == leader
      ensures members == [] && options == {}
    {
      this.leader, originalLeader, this.onRespawn, this.onAttacked := leader, leader, onRespawn, onAttacked;
      options, members, assistGuard, respawnGuard := {}, [], false, false;
      world, due, victims, raised := World(map[], {}), {}, {}, 0;
      respawned, assisted, fell, deaths, changes := [], [], 0, 0, 0;
    }

    predicate IsFormation()
      reads this`options
    {
      FormationMove in options
    }

    method AddMember(guid: Guid, dist: real, angle: real, flags: Flags) returns (added: bool)
      requires Valid()
      modifies this`members, this`options
      ensures Valid()
      ensures added <==> guid != leader
      ensures added ==>
          members == Put(old(members), Member(guid, dist, angle, flags)) && options == old(options) + flags
      ensures !added ==> members == old(members) && options == old(options)
    {
      hide Sound, Put;
      if guid == leader { return false; }
      var m := Member(guid, dist, angle, flags);
      PutSound(members, options, leader, originalLeader, m);
      members := Put(members, m);
      options := options + flags;
      return true;
    }

    method RemoveMember(guid: Guid)
      requires Valid()
      modifies this`members
      ensures members == Drop(old(members), guid)
      ensures Valid() <==> guid != leader || leader == originalLeader
    {
      DropSound(members, options, leader, originalLeader, guid);
      members := Drop(members, guid);
    }

    method RemoveTemporaryLeader(guid: Guid)
      requires Valid()
      modifies this`leader, this`members
      ensures Valid() && leader == originalLeader && members == Drop(old(members), guid)
    {
      leader := originalLeader;
      RemoveMember(guid);
    }

    /** How a creature other than the original leader leaves: the temporary leader hands back first. */
    method Leave(guid: Guid)
      requires Valid() && guid != originalLeader
      modifies this`leader, this`members
      ensures Valid() && members == Drop(old(members), guid)
      ensures leader == if old(leader) == guid then originalLeader else old(leader)
    {
      if leader == guid {
        RemoveTemporaryLeader(guid);
      } else {
        RemoveMember(guid);
      }
    }

    // -------------------------------------------------------------- events that call back

    /** How many of the two guarded sections could still be entered: bounds the recursion. */
    function Open(): nat
      reads this`assistGuard, this`respawnGuard
    {
      (if assistGuard then 0 else 1) + (if respawnGuard then 0 else 1)
    }

    /**
      First the leader and the members are told, as far as the options say so; each is turned to once,
      in order. Then the lead is settled by what the group looks like after all they did: `heard`.
      */
    method OnMemberDied(dead: Guid, told: seq<Reaction>) returns (ghost heard: Snapshot, ghost attempts: seq<Attempt>)
      requires Valid()
      modifies this
      ensures Valid() && Evolves(originalLeader, old(Now()), Now())
      ensures Now() == heard.(leader := LeadAfter(originalLeader, heard, dead))
      ensures Evolves(originalLeader, Counted(originalLeader, old(Now()), dead), heard)
      ensures Tried(attempts) == Informed(options, members, dead, originalLeader)
      ensures Done(attempts) == [] ==> heard == Counted(originalLeader, old(Now()), dead)
      ensures Succeeds(originalLeader, heard, dead, leader)
      decreases Open(), ListsSize(told), 10
    {
      hide Sound, Evolves, LeadAfter, Tried, Done, Informed, Succeeds;
      ghost var before := Now();
      deaths := deaths + 1;
      if dead == originalLeader { fell := fell + 1; }
      attempts := TellAll(dead, told);
      heard := Now();
      SettleLead(dead);
      LeadMoves(originalLeader, heard, dead);
      DeathHeard(originalLeader, before, heard, Now(), dead);
    }

    /** The choice of a new leader. */
    method SettleLead(dead: Guid)
      requires Valid()
      modifies this`leader
      ensures Valid() && Now() == old(Now()).(leader := LeadAfter(originalLeader, old(Now()), dead))
      ensures Succeeds(originalLeader, old(Now()), dead, leader)
    {
      SuccessionIs(originalLeader, Now(), dead);
      hide Sound, FirstLiving, Living, Succeeds;
      MayLead(members, options, leader, originalLeader, world, dead);
      if dead == leader && IsFormation() {
        if OriginalPatrols() {
          var successor := FindSuccessor(members, world, dead);
          leader := if successor.Some? then successor.value else originalLeader;
        }
      }
    }

    /** The notifications of a death. */
    method TellAll(dead: Guid, told: seq<Reaction>) returns (ghost attempts: seq<Attempt>)
      requires Valid()
      modifies this
      ensures Valid() && Evolves(originalLeader, old(Now()), Now())
      ensures options == old(options) && members == old(members)
      ensures Tried(attempts) == Informed(options, members, dead, originalLeader)
      ensures Done(attempts) == [] ==> Now() == old(Now())
      decreases Open(), ListsSize(told), 9
    {
      hide Sound, Evolves, Living, Tried, Done, Listens, Nth, ListSize, ListsSize;
      ghost var start := Now();
      Unchanged(originalLeader, start);
      TellingStarts();
      attempts := [];
      var turn := 0;
      NthSize(told);
      if InformLeaderOnMemberDied in options && dead != originalLeader {
        attempts := TellNext(originalLeader, Nth(told, 0), start, attempts);
        turn := 1;
      }
      assert members[..0] == [];
      ghost var first := Tried(attempts);
      assert first + [] == first;
      if InformMembersOnAnyDied in options {
        for i := 0 to |members|
          invariant Valid() && Evolves(originalLeader, start, Now())
          invariant options == old(options) && members == old(members)
          invariant assistGuard == old(assistGuard) && respawnGuard == old(respawnGuard)
          invariant Tried(attempts) == first + Others(members[..i], dead)
          invariant Done(attempts) == [] ==> Now() == start
        {
          assert members[..i + 1][..i] == members[..i];
          var g := members[i].guid;
          if g != dead {
            assert first + (Others(members[..i], dead) + [g]) == (first + Others(members[..i], dead)) + [g];
            attempts := TellNext(g, Nth(told, turn), start, attempts);
            turn := turn + 1;
          }
        }
        assert members[..|members|] == members;
      }
    }

    /** The original leader is on the map and moves along waypoints. */
    predicate OriginalPatrols()
      reads this`world
    {
      originalLeader in world.creatures && world.creatures[originalLeader].patrols
    }

    /** One notification: the creature is looked up and its AI, if there is one, is told. */
    method TellNext(g: Guid, raises: seq<Callback>, ghost start: Snapshot, ghost before: seq<Attempt>)
      returns (ghost attempts: seq<Attempt>)
      requires Valid() && Evolves(originalLeader, start, Now())
      requires Done(before) == [] ==> Now() == start
      modifies this
      ensures Valid() && Evolves(originalLeader, start, Now())
      ensures options == old(options) && members == old(members)
      ensures assistGuard == old(assistGuard) && respawnGuard == old(respawnGuard)
      ensures var w := old(world);
              attempts == before + [Attempt(g, g in w.creatures && w.creatures[g].inWorld && g in w.alive
                                               && w.creatures[g].hasAI)]
      ensures Tried(attempts) == Tried(before) + [g]
      ensures Done(attempts) == [] ==> Now() == start
      decreases Open(), ListSize(raises), 8
    {
      hide Sound, Evolves, Tried, Done;
      ghost var middle := Now();
      attempts := before + [Attempt(g, Listens(world, g))];
      AttemptStep(before, Attempt(g, Listens(world, g)));
      if Listens(world, g) {
        RunCallbacks(raises);
        SameFrame(originalLeader, middle, Now());
        EvolvesFurther(originalLeader, start, middle, Now());
      }
    }

    /** A respawn of the original leader gives it the lead back. */
    method OnRespawn(guid: Guid) returns (ghost attempts: seq<Attempt>)
      requires Valid()
      modifies this
      ensures Valid() && Evolves(originalLeader, old(Now()), Now())
      ensures guid == originalLeader && fell == old(fell) ==> leader == originalLeader
      ensures RespawnTogether !in options || old(respawnGuard) ==>
                Now() == old(Now()).(leader := if guid == originalLeader then originalLeader else old(leader))
      ensures RespawnTogether in options && !old(respawnGuard) ==> Swept(old(Now()), attempts, guid)
      decreases Open(), 0, 5
    {
      hide Sound, Due, Evolves, Swept;
      LeadsAgain(members, options, leader, originalLeader);
      ghost var start := Now();
      if leader != originalLeader && guid == originalLeader {
        leader := originalLeader;
      }
      LeadTaken(originalLeader, start, Now());
      attempts := [];
      if RespawnTogether !in options { return; }
      ghost var middle := Now();
      attempts := RespawnAll(guid);
      EvolvesFurther(originalLeader, start, middle, Now());
      SweptFrom(start, middle, attempts, guid);
      LeadKept(originalLeader, middle, Now());
    }

    /** What a sweep over the group has done since a state: every candidate was tried once, in order. */
    ghost predicate Swept(start: Snapshot, attempts: seq<Attempt>, except: Guid)
      reads this
    {
      && Tried(attempts) == Candidates(members, except, originalLeader)
      && respawned == start.respawned + Done(attempts)
      && (changes == start.changes ==>
            && Done(attempts) == Due(start.world.creatures, start.due, Candidates(members, except, originalLeader))
            && due == start.due - Elements(Done(attempts)))
    }

    lemma SweptFrom(start: Snapshot, middle: Snapshot, attempts: seq<Attempt>, except: Guid)
      requires start == middle.(leader := start.leader)
      ensures Swept(start, attempts, except) <==> Swept(middle, attempts, except)
    {
      hide Due, Tried, Done;
    }

    method OnLeaveCombat(guid: Guid) returns (ghost attempts: seq<Attempt>)
      requires Valid()
      modifies this
      ensures Valid() && Evolves(originalLeader, old(Now()), Now())
      ensures var w := old(world).creatures;
              var leaderFights := originalLeader in w && w[originalLeader].inWorld && w[originalLeader].inCombat
                                  && w[originalLeader].hasAI;
              var masterEvades := guid == originalLeader || (EvadeTogether in options && leaderFights);
              if !old(respawnGuard)
                 && (RespawnAllOnAnyEvade in options || (RespawnAllOnMasterEvade in options && masterEvades))
              then Swept(old(Now()), attempts, guid)
              else Now() == old(Now())
      decreases Open(), 0, 5
    {
      hide Sound, Swept;
      attempts := [];
      var masterEvade := guid == originalLeader;
      if EvadeTogether in options && !masterEvade && originalLeader in world.creatures {
        var c := world.creatures[originalLeader];
        if c.inWorld && c.inCombat && c.hasAI { masterEvade := true; }
      }
      if RespawnAllOnAnyEvade in options || (RespawnAllOnMasterEvade in options && masterEvade) {
        attempts := RespawnAll(guid);
      }
    }

    /**
      Each candidate is tried once, in order, and nothing is respawned from inside another respawn,
      whatever the callbacks do. If they leave the world alone, exactly those due are respawned.
      */
    method RespawnAll(except: Guid) returns (ghost attempts: seq<Attempt>)
      requires Valid()
      modifies this
      ensures Valid() && Evolves(originalLeader, old(Now()), Now())
      ensures old(respawnGuard) ==> Now() == old(Now())
      ensures !old(respawnGuard) ==> Swept(old(Now()), attempts, except)
      decreases Open(), 0, 4
    {
      hide Sound, Due, Tried, Done, Evolves, CanRespawn, Elements;
      attempts := [];
      ghost var start := Now();
      SweepStarts(originalLeader, start);
      for i := 0 to |members|
        invariant Valid() && Evolves(originalLeader, start, Now())
        invariant members == old(members) && assistGuard == old(assistGuard) && respawnGuard == old(respawnGuard)
        invariant old(respawnGuard) ==> Now() == start
        invariant !old(respawnGuard) ==> SweptSoFar(start, Now(), attempts, Others(members[..i], except))
      {
        assert members[..i + 1][..i] == members[..i];
        var g := members[i].guid;
        if g != except { attempts := RespawnNext(g, start, attempts, Others(members[..i], except)); }
      }
      assert members[..|members|] == members;
      if except != originalLeader {
        attempts := RespawnNext(originalLeader, start, attempts, Others(members, except));
      } else {
        assert Others(members, except) + [] == Others(members, except);
      }
    }

    /** One turn of the loop: the creature is looked up and, if it is there, respawned. */
    method RespawnNext(g: Guid, ghost start: Snapshot, ghost before: seq<Attempt>, ghost done: seq<Guid>)
      returns (ghost attempts: seq<Attempt>)
      requires Valid() && Evolves(originalLeader, start, Now())
      requires start.respawnGuard ==> Now() == start
      requires !respawnGuard ==> SweptSoFar(start, Now(), before, done)
      modifies this
      ensures Valid() && Evolves(originalLeader, start, Now())
      ensures members == old(members) && assistGuard == old(assistGuard) && respawnGuard == old(respawnGuard)
      ensures start.respawnGuard ==> Now() == start
      ensures !respawnGuard ==> SweptSoFar(start, Now(), attempts, done + [g])
      decreases Open(), 0, 3
    {
      ghost var middle := Now();
      ghost var ok := false;
      assert middle.respawnGuard == start.respawnGuard && assistGuard == start.assistGuard;
      hide Sound, Due, Tried, Done, Evolves, CanRespawn, SweptSoFar, Elements;
      if g in world.creatures {
        ok := Respawn(g);
      } else {
        Unchanged(originalLeader, Now());
        NobodyThere(middle, g);
      }
      attempts := before + [Attempt(g, ok)];
      EvolvesFurther(originalLeader, start, middle, Now());
      SameFrame(originalLeader, middle, Now());
      if !respawnGuard { SweepStep(originalLeader, start, middle, Now(), before, done, Attempt(g, ok)); }
    }

    method Respawn(g: Guid) returns (ghost done: bool)
      requires Valid() && g in world.creatures
      modifies this
      ensures Valid() && Evolves(originalLeader, old(Now()), Now())
      ensures old(respawnGuard) ==> Now() == old(Now())
      ensures !old(respawnGuard) ==> RespawnDone(old(Now()), Now(), g, done)
      ensures !old(respawnGuard) ==>
                var c := old(world).creatures[g];
                && done == (c.inWorld && g in old(due) && c.spawnable)
                && respawned == old(respawned) + if done then [g] else []
      decreases Open(), 0, 2
    {
      hide Sound, Evolves, RespawnDone;
      done := false;
      ghost var start := Now();
      RespawnMeans(start, g);
      Unchanged(originalLeader, start);
      NotRespawned(start, g);
      if respawnGuard { return; }
      respawnGuard := true;
      if world.creatures[g].inWorld && g in due {
        if world.creatures[g].spawnable {
          done := true;
          respawned := respawned + [g];
          due := due - {g};
          world := world.(alive := world.alive + {g});
          raised := raised + 1;
          ghost var inside := Now();
          RunCallbacks(onRespawn(g, raised));
          RespawnEvolves(originalLeader, start, inside, Now(), g);
        }
      }
      respawnGuard := false;
    }

    /** Each candidate is asked once, in order, and nobody from inside another's assist, whatever the callbacks do. */
    method OnMemberAttackStart(guid: Guid) returns (ghost attempts: seq<Attempt>)
      requires Valid()
      modifies this
      ensures Valid() && Evolves(originalLeader, old(Now()), Now())
      ensures AggroTogether !in options || old(assistGuard) ==> Now() == old(Now())
      ensures AggroTogether in options && !old(assistGuard) ==>
                AskedAll(old(Now()), Now(), attempts, Candidates(members, guid, originalLeader))
      decreases Open(), 0, 4
    {
      hide Sound, Helpers, Fighting, CanAssist, Tried, Done, Evolves;
      attempts := [];
      ghost var start := Now();
      AskingStarts(originalLeader, start);
      if AggroTogether !in options { return; }
      for i := 0 to |members|
        invariant Valid() && Evolves(originalLeader, start, Now())
        invariant options == old(options) && members == old(members)
        invariant assistGuard == old(assistGuard) && respawnGuard == old(respawnGuard)
        invariant old(assistGuard) ==> Now() == start
        invariant !old(assistGuard) ==> AskedAll(start, Now(), attempts, Others(members[..i], guid))
      {
        assert members[..i + 1][..i] == members[..i];
        if members[i].guid != guid {
          attempts := AskNext(members[i].guid, start, attempts, Others(members[..i], guid));
        }
      }
      assert members[..|members|] == members;
      if guid != originalLeader {
        attempts := AskNext(originalLeader, start, attempts, Others(members, guid));
      } else {
        assert Others(members, guid) + [] == Others(members, guid);
      }
    }

    /** One turn of the loop. */
    method AskNext(g: Guid, ghost start: Snapshot, ghost before: seq<Attempt>, ghost done: seq<Guid>)
      returns (ghost attempts: seq<Attempt>)
      requires Valid() && Evolves(originalLeader, start, Now())
      requires start.assistGuard ==> Now() == start
      requires !assistGuard ==> AskedAll(start, Now(), before, done)
      modifies this
      ensures Valid() && Evolves(originalLeader, start, Now())
      ensures options == old(options) && members == old(members)
      ensures assistGuard == old(assistGuard) && respawnGuard == old(respawnGuard)
      ensures start.assistGuard ==> Now() == start
      ensures !assistGuard ==> AskedAll(start, Now(), attempts, done + [g])
      decreases Open(), 0, 3
    {
      ghost var middle := Now();
      assert middle.assistGuard == start.assistGuard;
      hide Sound, Helpers, Fighting, Tried, Done, Evolves, CanAssist, AskedAll, AssistDone;
      ghost var ok := MemberAssist(g);
      attempts := before + [Attempt(g, ok)];
      EvolvesFurther(originalLeader, start, middle, Now());
      SameFrame(originalLeader, middle, Now());
      if !assistGuard { AskStep(originalLeader, start, middle, Now(), before, done, Attempt(g, ok)); }
    }

    /** At most one assist is under way: one started inside another does nothing. */
    method MemberAssist(g: Guid) returns (ghost done: bool)
      requires Valid()
      modifies this
      ensures Valid() && Evolves(originalLeader, old(Now()), Now())
      ensures old(assistGuard) ==> Now() == old(Now())
      ensures !old(assistGuard) ==> AssistDone(old(Now()), Now(), g, done)
      ensures !old(assistGuard) ==>
                var w := old(world);
                && done == (g in w.creatures && w.creatures[g].inWorld && g in w.alive && g !in old(victims)
                            && w.creatures[g].hasAI)
                && assisted == old(assisted) + if done then [g] else []
      decreases Open(), 0, 2
    {
      hide Sound, Evolves, AssistDone;
      done := false;
      ghost var start := Now();
      AssistMeans(start, g);
      Unchanged(originalLeader, start);
      NotAssisting(start, g);
      if assistGuard { return; }
      if !(g in world.creatures && world.creatures[g].inWorld) { return; }
      if g !in world.alive { return; }
      if g in victims { return; }
      if world.creatures[g].hasAI {
        done := true;
        assistGuard := true;
        assisted := assisted + [g];
        if world.creatures[g].takesTarget { victims := victims + {g}; }
        raised := raised + 1;
        ghost var inside := Now();
        RunCallbacks(onAttacked(g, raised));
        AssistEvolves(originalLeader, start, inside, Now(), g);
        assistGuard := false;
      }
    }

    /** What happens while a guarded section is running. */
    method RunCallbacks(callbacks: seq<Callback>)
      requires Valid()
      modifies this
      ensures Valid() && Evolves(originalLeader, old(Now()), Now())
      decreases Open(), ListSize(callbacks), 7
    {
      hide Sound, Evolves;
      ghost var start := Now();
      Unchanged(originalLeader, start);
      for i := 0 to |callbacks|
        invariant Valid() && Evolves(originalLeader, start, Now())
        invariant assistGuard == old(assistGuard) && respawnGuard == old(respawnGuard)
      {
        ghost var middle := Now();
        SizeInList(callbacks, i);
        RunCallback(callbacks[i]);
        SameFrame(originalLeader, middle, Now());
        EvolvesFurther(originalLeader, start, middle, Now());
      }
    }

    method RunCallback(callback: Callback)
      requires Valid()
      modifies this
      ensures Valid() && Evolves(originalLeader, old(Now()), Now())
      decreases Open(), Size(callback), 6
    {
      hide Sound, Evolves, Swept, AskedAll;
      ghost var attempts, start := [], Now();
      match callback {
        case Respawned(g) => attempts := OnRespawn(g);
        case LeftCombat(g) => attempts := OnLeaveCombat(g);
        case Died(g, told) =>
          ghost var heard;
          heard, attempts := OnMemberDied(g, told);
        case Attacked(g) => attempts := OnMemberAttackStart(g);
        case Changed(w, d, v) =>
          world, due, victims := w, d, v;
          changes := changes + 1;
          WorldChanged(originalLeader, start, Now());
      }
    }
  }

  /** Erasing a temporary leader without handing back first leaves a group led by somebody who is not in it. */
  method StrangerLeads() returns (group: CreatureGroup)
    ensures group.originalLeader == 1 && group.leader == 2 && group.members == [] && !group.Valid()
  {
    hide Sound, Evolves, LeadAfter, Informed, Tried, Done, Put, Drop;
    group := new CreatureGroup(1, (g, n) => [], (g, n) => []);
    var added := group.AddMember(2, 0.0, 0.0, {FormationMove});
    var patrol := Creature(true, false, true, true, true, true);
    group.world := World(map[1 := patrol, 2 := patrol], {2});
    ghost var start := group.Now();
    OneMember(start, patrol);
    ghost var heard, attempts := group.OnMemberDied(1, []);
    SameFrame(1, start, group.Now());
    NobodyTold(attempts);
    group.RemoveMember(2);
  }

  lemma {:induction false} OneMember(s: Snapshot, patrol: Creature)
    requires patrol.inWorld && patrol.patrols && s.world == World(map[1 := patrol, 2 := patrol], {2})
    requires s.leader == 1 && s.options == {} + {FormationMove}
    requires s.members == Put([], Member(2, 0.0, 0.0, {FormationMove}))
    ensures Informed(s.options, s.members, 1, 1) == []
    ensures LeadAfter(1, Counted(1, s, 1), 1) == 2
    ensures Drop(s.members, 2) == []
  {
    assert s.members[0] == Member(2, 0.0, 0.0, {FormationMove}) && s.members[1..] == [];
  }

  // ---------------------------------------------------------------- at most once

  /**
    However the world changes under a sweep, no creature is respawned or asked twice in it, except
    that the original leader is when it is listed among the members as well.
    */
  lemma {:induction false} AtMostOnce(ms: seq<Member>, except: Guid, original: Guid, attempts: seq<Attempt>, g: Guid)
    requires Ascending(ms) && Tried(attempts) == Candidates(ms, except, original)
    ensures multiset(Done(attempts))[g] <= 1 || (g == original && original in Guids(ms))
  {
    DoneWithinTried(attempts, g);
    OthersOnce(ms, except, g);
    var last := if except != original then [original] else [];
    assert multiset(Candidates(ms, except, original)) == multiset(Others(ms, except)) + multiset(last);
  }

  lemma {:induction false} DoneWithinTried(attempts: seq<Attempt>, g: Guid)
    ensures multiset(Done(attempts))[g] <= multiset(Tried(attempts))[g]
    decreases |attempts|
  {
    if attempts != [] { DoneWithinTried(attempts[..|attempts| - 1], g); }
  }

  lemma {:induction false} OthersOnce(ms: seq<Member>, except: Guid, g: Guid)
    requires Ascending(ms)
    ensures multiset(Others(ms, except))[g] <= 1
    ensures g in Others(ms, except) ==> g in Guids(ms)
    ensures multiset(Others(ms, except))[g] > 0 ==> g in Others(ms, except)
    decreases |ms|
  {
    if ms != [] {
      var front, last := ms[..|ms| - 1], ms[|ms| - 1].guid;
      OthersOnce(front, except, g);
      assert Guids(ms) == Guids(front) + [last];
      assert g == last ==> g !in Guids(front);
    }
  }

  // ---------------------------------------------------------------- succession

  /** The search for the first living other member. */
  method FindSuccessor(ms: seq<Member>, world: World, dead: Guid) returns (found: Option<Guid>)
    ensures found == FirstLiving(ms, world, dead)
  {
    assert ms[0..] == ms;
    for i := 0 to |ms|
      invariant FirstLiving(ms, world, dead) == FirstLiving(ms[i..], world, dead)
    {
      assert ms[i..][0] == ms[i] && ms[i..][1..] == ms[i + 1..];
      if ms[i].guid != dead && Living(world, ms[i].guid) { return Some(ms[i].guid); }
    }
    return None;
  }

  /** Who leads after a death, by the state in which the group settles it. */
  function LeadAfter(original: Guid, s: Snapshot, dead: Guid): Guid {
    if dead == s.leader && FormationMove in s.options
       && original in s.world.creatures && s.world.creatures[original].patrols
    then match FirstLiving(s.members, s.world, dead) case Some(g) => g case None => original
    else s.leader
  }

  /** A member other than the dead one that lives and is in the world. */
  predicate CanLead(s: Snapshot, dead: Guid, m: Member) {
    m in s.members && m.guid != dead
    && m.guid in s.world.creatures && s.world.creatures[m.guid].inWorld && m.guid in s.world.alive
  }

  /**
    Who leads after a death. If the dead one led a formation whose original leader is there and patrols,
    it is the member with the least guid that can lead, or else the original; if not, nothing changes.
    */
  ghost predicate Succeeds(original: Guid, s: Snapshot, dead: Guid, leader: Guid) {
    if dead == s.leader && FormationMove in s.options
       && original in s.world.creatures && s.world.creatures[original].patrols
    then
      && (forall m :: CanLead(s, dead, m) ==> leader <= m.guid)
      && ((exists m :: CanLead(s, dead, m)) ==> exists m :: CanLead(s, dead, m) && leader == m.guid)
      && ((forall m :: !CanLead(s, dead, m)) ==> leader == original)
    else leader == s.leader
  }

  lemma {:induction false} SuccessionIs(original: Guid, s: Snapshot, dead: Guid)
    requires Sound(s.members, s.options, s.leader, original)
    ensures Succeeds(original, s, dead, LeadAfter(original, s, dead))
  {
    FirstLivingIsLeast(s.members, s.world, dead);
    var first := FirstLiving(s.members, s.world, dead);
    if first.Some? {
      var i :| 0 <= i < |Guids(s.members)| && Guids(s.members)[i] == first.value;
      assert CanLead(s, dead, s.members[i]);
    }
    hide FirstLiving, Guids, Ascending;
  }

  predicate Listens(world: World, g: Guid) { Living(world, g) && world.creatures[g].hasAI }

  /** Whom a death is told. */
  function Informed(options: Flags, ms: seq<Member>, dead: Guid, original: Guid): seq<Guid> {
    (if InformLeaderOnMemberDied in options && dead != original then [original] else [])
    + if InformMembersOnAnyDied in options then Others(ms, dead) else []
  }

  function Counted(original: Guid, s: Snapshot, dead: Guid): Snapshot {
    s.(deaths := s.deaths + 1, fell := s.fell + if dead == original then 1 else 0)
  }

  lemma {:induction false} NobodyTold(attempts: seq<Attempt>)
    requires Tried(attempts) == []
    ensures attempts == [] && Done(attempts) == []
  {
  }

  lemma {:induction false} TellingStarts()
    ensures Tried([]) == [] && Done([]) == []
  {
  }

  lemma {:induction false} MayLead(ms: seq<Member>, options: Flags, leader: Guid, original: Guid, world: World,
                                   dead: Guid)
    requires Sound(ms, options, leader, original)
    ensures match FirstLiving(ms, world, dead)
            case Some(g) => Sound(ms, options, g, original) && g != dead
            case None => Sound(ms, options, original, original)
  {
    FirstLivingIsLeast(ms, world, dead);
  }

  lemma {:induction false} LeadMoves(original: Guid, s: Snapshot, dead: Guid)
    ensures LeadAfter(original, s, dead) != s.leader ==> dead == s.leader
  {
    hide FirstLiving;
  }

  lemma {:induction false} DeathHeard(original: Guid, a: Snapshot, heard: Snapshot, b: Snapshot, dead: Guid)
    requires Evolves(original, Counted(original, a, dead), heard)
    requires b == heard.(leader := b.leader) && (b.leader != heard.leader ==> dead == heard.leader)
    ensures Evolves(original, a, b)
  {
  }

  // ---------------------------------------------------------------- one turn of a loop

  /** What a respawn outside of any other has done to its creature. */
  ghost predicate RespawnDone(a: Snapshot, b: Snapshot, g: Guid, done: bool) {
    && done == CanRespawn(a.world.creatures, a.due, g)
    && b.respawned == a.respawned + (if done then [g] else [])
    && (b.changes == a.changes ==> b.due == a.due - if done then {g} else {})
  }

  ghost predicate SweptSoFar(start: Snapshot, s: Snapshot, attempts: seq<Attempt>, done: seq<Guid>) {
    && Tried(attempts) == done
    && s.respawned == start.respawned + Done(attempts)
    && (s.changes == start.changes ==>
          && Done(attempts) == Due(start.world.creatures, start.due, done)
          && s.due == start.due - Elements(Done(attempts)))
  }

  /** And an assist outside of any other. */
  ghost predicate AssistDone(a: Snapshot, b: Snapshot, g: Guid, done: bool) {
    && done == CanAssist(a.world, a.victims, g)
    && b.assisted == a.assisted + (if done then [g] else [])
    && (b.changes == a.changes ==> b.victims == a.victims + Fighting(a.world.creatures, if done then [g] else []))
  }

  /**
    What asking a list of creatures has done since a state. Who assists is determined as long as the
    callbacks leave the world alone and respawn nobody.
    */
  ghost predicate AskedAll(start: Snapshot, s: Snapshot, attempts: seq<Attempt>, done: seq<Guid>) {
    && Tried(attempts) == done
    && s.assisted == start.assisted + Done(attempts)
    && (s.changes == start.changes && s.respawned == start.respawned ==>
          && Done(attempts) == Helpers(start.world, start.victims, done)
          && s.victims == start.victims + Fighting(start.world.creatures, Done(attempts)))
  }

  lemma {:induction false} Unchanged(original: Guid, a: Snapshot)
    ensures Evolves(original, a, a)
  {
  }

  lemma {:induction false} LeadTaken(original: Guid, a: Snapshot, b: Snapshot)
    requires b == a.(leader := b.leader) && (b.leader == a.leader || b.leader == original)
    ensures Evolves(original, a, b)
  {
  }

  lemma {:induction false} LeadKept(original: Guid, a: Snapshot, b: Snapshot)
    requires Evolves(original, a, b)
    ensures b.fell >= a.fell && (b.fell == a.fell && a.leader == original ==> b.leader == original)
  {
  }

  lemma {:induction false} WorldChanged(original: Guid, a: Snapshot, b: Snapshot)
    requires b == a.(world := b.world, due := b.due, victims := b.victims, changes := a.changes + 1)
    ensures Evolves(original, a, b)
  {
  }

  lemma {:induction false} SameFrame(original: Guid, a: Snapshot, b: Snapshot)
    requires Evolves(original, a, b)
    ensures b.options == a.options && b.members == a.members
    ensures b.assistGuard == a.assistGuard && b.respawnGuard == a.respawnGuard
  {
  }

  lemma {:induction false} SweepStarts(original: Guid, a: Snapshot)
    ensures Evolves(original, a, a) && SweptSoFar(a, a, [], [])
  {
  }

  lemma {:induction false} AskingStarts(original: Guid, a: Snapshot)
    ensures Evolves(original, a, a) && AskedAll(a, a, [], [])
  {
  }

  lemma {:induction false} NotRespawned(a: Snapshot, g: Guid)
    ensures !CanRespawn(a.world.creatures, a.due, g) ==> RespawnDone(a, a, g, false)
  {
  }

  lemma {:induction false} RespawnEvolves(original: Guid, a: Snapshot, inside: Snapshot, b: Snapshot, g: Guid)
    requires !a.respawnGuard && CanRespawn(a.world.creatures, a.due, g)
    requires inside == a.(respawnGuard := true, respawned := a.respawned + [g], due := a.due - {g},
                          world := a.world.(alive := a.world.alive + {g}))
    requires Evolves(original, inside, b)
    ensures var c := b.(respawnGuard := false); Evolves(original, a, c) && RespawnDone(a, c, g, true)
  {
  }

  lemma {:induction false} RespawnMeans(a: Snapshot, g: Guid)
    ensures forall b: Snapshot, done: bool :: RespawnDone(a, b, g, done) ==>
        && done == (g in a.world.creatures && a.world.creatures[g].inWorld && g in a.due
                    && a.world.creatures[g].spawnable)
        && b.respawned == a.respawned + if done then [g] else []
  {
  }

  lemma {:induction false} AssistMeans(a: Snapshot, g: Guid)
    ensures forall b: Snapshot, done: bool :: AssistDone(a, b, g, done) ==>
        && done == (g in a.world.creatures && a.world.creatures[g].inWorld && g in a.world.alive && g !in a.victims
                    && a.world.creatures[g].hasAI)
        && b.assisted == a.assisted + if done then [g] else []
  {
  }

  lemma {:induction false} NotAssisting(a: Snapshot, g: Guid)
    ensures !CanAssist(a.world, a.victims, g) ==> AssistDone(a, a, g, false)
  {
  }

  lemma {:induction false} AssistEvolves(original: Guid, a: Snapshot, inside: Snapshot, b: Snapshot, g: Guid)
    requires !a.assistGuard && CanAssist(a.world, a.victims, g)
    requires inside == a.(assistGuard := true, assisted := a.assisted + [g],
                          victims := if a.world.creatures[g].takesTarget then a.victims + {g} else a.victims)
    requires Evolves(original, inside, b)
    ensures var c := b.(assistGuard := false); Evolves(original, a, c) && AssistDone(a, c, g, true)
  {
    assert Fighting(a.world.creatures, [g]) == if a.world.creatures[g].takesTarget then {g} else {};
  }

  /** Nothing is done with a creature that is not on the map. */
  lemma {:induction false} NobodyThere(a: Snapshot, g: Guid)
    requires g !in a.world.creatures
    ensures RespawnDone(a, a, g, false)
  {
  }

  lemma {:induction false} SweepStep(original: Guid, start: Snapshot, middle: Snapshot, s: Snapshot,
                                     before: seq<Attempt>, done: seq<Guid>, a: Attempt)
    requires Evolves(original, start, middle) && Evolves(original, middle, s)
    requires SweptSoFar(start, middle, before, done) && RespawnDone(middle, s, a.guid, a.done)
    ensures SweptSoFar(start, s, before + [a], done + [a.guid])
  {
    hide Due, Tried, Done, CanRespawn;
    AttemptStep(before, a);
    DueStep(start.world.creatures, start.due, done, a.guid);
    assert start.respawned + (Done(before) + if a.done then [a.guid] else []) == s.respawned;
  }

  lemma {:induction false} AskStep(original: Guid, start: Snapshot, middle: Snapshot, s: Snapshot,
                                   before: seq<Attempt>, done: seq<Guid>, a: Attempt)
    requires Evolves(original, start, middle) && Evolves(original, middle, s)
    requires AskedAll(start, middle, before, done) && AssistDone(middle, s, a.guid, a.done)
    ensures AskedAll(start, s, before + [a], done + [a.guid])
  {
    hide Helpers, Tried, Done, CanAssist, Fighting;
    AttemptStep(before, a);
    HelpersStep(start.world, start.victims, done, a.guid);
    EvolvesFurther(original, start, middle, s);
    NoneFight(start.world.creatures);
    assert start.assisted + (Done(before) + if a.done then [a.guid] else []) == s.assisted;
  }

  lemma {:induction false} NoneFight(creatures: map<Guid, Creature>)
    ensures Fighting(creatures, []) == {}
  {
  }

  /** A guid stays listed when its member stays, with whatever data. */
  lemma {:induction false} KeepsGuid(ms: seq<Member>, ns: seq<Member>, g: Guid)
    requires forall m :: m in ms && m.guid == g ==> m in ns
    ensures g in Guids(ms) ==> g in Guids(ns)
  {
    if g in Guids(ms) {
      var i :| 0 <= i < |ms| && Guids(ms)[i] == g;
      assert ms[i] in ms;
      var j :| 0 <= j < |ns| && ns[j] == ms[i];
      assert Guids(ns)[j] == g;
    }
  }

  lemma {:induction false} HelpersStep(world: World, victims: set<Guid>, done: seq<Guid>, g: Guid)
    ensures var before, next := Helpers(world, victims, done), Helpers(world, victims, done + [g]);
            if CanAssist(world, victims + Fighting(world.creatures, before), g)
            then
              && next == before + [g]
              && Fighting(world.creatures, next) == Fighting(world.creatures, before) + Fighting(world.creatures, [g])
            else next == before
  {
    assert (done + [g])[..|done|] == done;
  }

  lemma {:induction false} DueStep(creatures: map<Guid, Creature>, due: set<Guid>, done: seq<Guid>, g: Guid)
    ensures (done + [g])[..|done|] == done
    ensures Due(creatures, due, done + [g]) ==
            var before := Due(creatures, due, done);
            if CanRespawn(creatures, due - Elements(before), g) then before + [g] else before
  {
    assert (done + [g])[..|done|] == done;
  }
}
