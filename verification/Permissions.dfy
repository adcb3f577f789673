/**
  Discord permissions: what a member may do in a guild, and in one of its channels after the
  channel's overwrites. A mask of 64 bits is the set of its one bits, so that `|` is union
  and `& ~` is difference.
  */
module Permissions {
  import opened Bytes
  import opened Sequences

  type Bit = b: nat | b < 64
  type Mask = set<Bit>

  const ALL_BITS: Mask := set b: Bit | 0 <= b < 64
  const ADMINISTRATOR: Bit := 3

  datatype Kind = RoleOverwrite | MemberOverwrite
  datatype Overwrite = Overwrite(id: nat, allow: Mask, deny: Mask, kind: Kind)
  datatype Channel = Channel(guildId: nat, overwrites: seq<Overwrite>)
  datatype Member = Member(userId: nat, roles: seq<nat>)
  datatype Guild = Guild(id: nat, ownerId: nat, members: map<nat, Member>)

  /** The caches of guilds and of roles (a role's permissions by its id). */
  datatype Cache = Cache(guilds: map<nat, Guild>, roles: map<nat, Mask>)

  // ---------------------------------------------------------------- what a permission means, bit by bit

  predicate Concerns(o: Overwrite, id: nat, kind: Kind)
  {
    o.id == id && o.kind == kind
  }

  /** The first overwrite for an id is the one that counts. */
  ghost predicate IsFirst(overwrites: seq<Overwrite>, id: nat, kind: Kind, o: Overwrite)
  {
    exists k: nat :: k < |overwrites| && overwrites[k] == o && Concerns(o, id, kind)
      && forall j: nat :: j < k ==> !Concerns(overwrites[j], id, kind)
  }

  ghost predicate Allows(overwrites: seq<Overwrite>, id: nat, kind: Kind, bit: Bit)
  {
    exists o :: IsFirst(overwrites, id, kind, o) && bit in o.allow
  }

  ghost predicate Denies(overwrites: seq<Overwrite>, id: nat, kind: Kind, bit: Bit)
  {
    exists o :: IsFirst(overwrites, id, kind, o) && bit in o.deny
  }

  /** Some role of the member, the one shared by everyone aside, allows or denies the bit. */
  ghost predicate RolesAllow(overwrites: seq<Overwrite>, everyone: nat, roles: set<nat>, bit: Bit)
  {
    exists rid :: rid in roles && rid != everyone && Allows(overwrites, rid, RoleOverwrite, bit)
  }

  ghost predicate RolesDeny(overwrites: seq<Overwrite>, everyone: nat, roles: set<nat>, bit: Bit)
  {
    exists rid :: rid in roles && rid != everyone && Denies(overwrites, rid, RoleOverwrite, bit)
  }

  /**
    The most specific level that mentions the bit has the last word: the member, then the
    roles, then everyone. Within a level an allowance beats a denial.
    */
  ghost predicate Decided(overwrites: seq<Overwrite>, everyone: nat, userId: nat, roles: set<nat>,
                          bit: Bit, before: bool)
  {
    if Allows(overwrites, userId, MemberOverwrite, bit) then true
    else if Denies(overwrites, userId, MemberOverwrite, bit) then false
    else if RolesAllow(overwrites, everyone, roles, bit) then true
    else if RolesDeny(overwrites, everyone, roles, bit) then false
    else if Allows(overwrites, everyone, RoleOverwrite, bit) then true
    else if Denies(overwrites, everyone, RoleOverwrite, bit) then false
    else before
  }

  ghost predicate RolesGrant(cache: Cache, roles: set<nat>, bit: Bit)
  {
    exists rid :: rid in roles && rid in cache.roles && bit in cache.roles[rid]
  }

  /** A member's permissions in a guild. */
  ghost function BaseMask(cache: Cache, guild: Guild, userId: nat, roles: set<nat>): Mask
  {
    var all := roles + {guild.id};
    if guild.ownerId == userId then ALL_BITS
    else if guild.id !in cache.roles then {}
    else if RolesGrant(cache, all, ADMINISTRATOR) then ALL_BITS
    else set bit: Bit | bit in ALL_BITS && RolesGrant(cache, all, bit)
  }

  /** A member's permissions in a channel, from those in the guild. */
  ghost function Overwritten(base: Mask, guild: Guild, userId: nat, roles: set<nat>,
                             overwrites: seq<Overwrite>): Mask
  {
    if ADMINISTRATOR in base then ALL_BITS
    else set bit: Bit | bit in ALL_BITS && Decided(overwrites, guild.id, userId, roles, bit, bit in base)
  }

  ghost function ChannelMask(cache: Cache, channel: Channel, userId: nat, roles: set<nat>): Mask
  {
    if channel.guildId !in cache.guilds then {} else
      var guild := cache.guilds[channel.guildId];
      Overwritten(BaseMask(cache, guild, userId, roles), guild, userId, roles, channel.overwrites)
  }

  // ---------------------------------------------------------------- what callers may rely on

  /** What a bit needs in a guild: the owner and administrators have all, others what some role grants. */
  ghost predicate GuildRules(p: Mask, cache: Cache, guild: Guild, userId: nat, roles: seq<nat>)
  {
    && (guild.ownerId == userId ==> forall bit: Bit :: bit in p)
    && (guild.ownerId != userId && guild.id !in cache.roles ==> p == {})
    && (guild.ownerId != userId && guild.id in cache.roles ==>
          && (RoleHas(cache, guild, roles, 3) ==> forall bit: Bit :: bit in p)
          && (!RoleHas(cache, guild, roles, 3) ==> forall bit: Bit :: bit in p <==> RoleHas(cache, guild, roles, bit)))
  }

  /** The role of everyone or one of the member's that is known has the bit. */
  ghost predicate RoleHas(cache: Cache, guild: Guild, roles: seq<nat>, bit: Bit)
    requires guild.id in cache.roles
  {
    bit in cache.roles[guild.id] || exists rid :: rid in roles && rid in cache.roles && bit in cache.roles[rid]
  }

  /** A bit that the member's own overwrite mentions is settled by it. */
  ghost predicate MemberSettles(p: Mask, overwrites: seq<Overwrite>, userId: nat)
  {
    forall bit: Bit ::
      && (Allows(overwrites, userId, MemberOverwrite, bit) ==> bit in p)
      && (Denies(overwrites, userId, MemberOverwrite, bit) && !Allows(overwrites, userId, MemberOverwrite, bit)
          ==> bit !in p)
  }

  ghost predicate MemberSilent(overwrites: seq<Overwrite>, userId: nat, bit: Bit)
  {
    !Allows(overwrites, userId, MemberOverwrite, bit) && !Denies(overwrites, userId, MemberOverwrite, bit)
  }

  ghost predicate SomeRole(overwrites: seq<Overwrite>, everyone: nat, roles: seq<nat>, bit: Bit, allow: bool)
  {
    exists rid :: rid in roles && rid != everyone
                  && if allow then Allows(overwrites, rid, RoleOverwrite, bit)
                     else Denies(overwrites, rid, RoleOverwrite, bit)
  }

  /** If it does not mention the bit, the overwrites of the member's roles settle it. */
  ghost predicate RolesSettle(p: Mask, overwrites: seq<Overwrite>, everyone: nat, userId: nat, roles: seq<nat>)
  {
    forall bit: Bit :: MemberSilent(overwrites, userId, bit) ==>
      && (SomeRole(overwrites, everyone, roles, bit, true) ==> bit in p)
      && (SomeRole(overwrites, everyone, roles, bit, false) && !SomeRole(overwrites, everyone, roles, bit, true)
          ==> bit !in p)
  }

  ghost predicate RolesSilent(overwrites: seq<Overwrite>, everyone: nat, roles: seq<nat>, bit: Bit)
  {
    !SomeRole(overwrites, everyone, roles, bit, true) && !SomeRole(overwrites, everyone, roles, bit, false)
  }

  /** If neither mentions it, the overwrite for everyone does, or what the guild gives remains. */
  ghost predicate EveryoneSettles(p: Mask, base: Mask, overwrites: seq<Overwrite>, everyone: nat, userId: nat,
                                  roles: seq<nat>)
  {
    forall bit: Bit :: MemberSilent(overwrites, userId, bit) && RolesSilent(overwrites, everyone, roles, bit) ==>
      && (Allows(overwrites, everyone, RoleOverwrite, bit) ==> bit in p)
      && (Denies(overwrites, everyone, RoleOverwrite, bit) && !Allows(overwrites, everyone, RoleOverwrite, bit)
          ==> bit !in p)
      && (!Allows(overwrites, everyone, RoleOverwrite, bit) && !Denies(overwrites, everyone, RoleOverwrite, bit)
          ==> (bit in p <==> bit in base))
  }

  /** The rules of a channel: administrators have every bit, for others the three levels settle it in turn. */
  ghost predicate ChannelRules(p: Mask, base: Mask, overwrites: seq<Overwrite>, everyone: nat, userId: nat,
                               roles: seq<nat>)
  {
    && (3 in base ==> forall bit: Bit :: bit in p)
    && (3 !in base ==>
          && MemberSettles(p, overwrites, userId)
          && RolesSettle(p, overwrites, everyone, userId, roles)
          && EveryoneSettles(p, base, overwrites, everyone, userId, roles))
  }

  lemma BaseFollowsRules(cache: Cache, guild: Guild, userId: nat, roles: seq<nat>)
    ensures GuildRules(BaseMask(cache, guild, userId, Elements(roles)), cache, guild, userId, roles)
  {
    var all := Elements(roles) + {guild.id};
    if guild.id in cache.roles {
      forall bit: Bit
        ensures RolesGrant(cache, all, bit) <==> RoleHas(cache, guild, roles, bit)
      {
        if bit in cache.roles[guild.id] { assert guild.id in all; }
      }
    }
  }

  lemma OverwrittenFollowsRules(base: Mask, guild: Guild, userId: nat, roles: seq<nat>, overwrites: seq<Overwrite>)
    ensures ChannelRules(Overwritten(base, guild, userId, Elements(roles), overwrites), base, overwrites,
                         guild.id, userId, roles)
  {
    hide Allows, Denies;
    var p := Overwritten(base, guild, userId, Elements(roles), overwrites);
    if ADMINISTRATOR !in base {
      forall bit: Bit
        ensures bit in p <==> Decided(overwrites, guild.id, userId, Elements(roles), bit, bit in base)
        ensures RolesAllow(overwrites, guild.id, Elements(roles), bit)
           <==> SomeRole(overwrites, guild.id, roles, bit, true)
        ensures RolesDeny(overwrites, guild.id, Elements(roles), bit)
           <==> SomeRole(overwrites, guild.id, roles, bit, false)
      {
      }
      hide RolesAllow, RolesDeny, SomeRole, Overwritten;
    }
  }

  // ---------------------------------------------------------------- the two implementations

  method BasePermissions(cache: Cache, guild: Guild, member: Member) returns (p: Mask)
    ensures p == BaseMask(cache, guild, member.userId, Elements(member.roles))
    ensures GuildRules(p, cache, guild, member.userId, member.roles)
  {
    BaseFollowsRules(cache, guild, member.userId, member.roles);
    hide GuildRules;
    if guild.ownerId == member.userId { return ALL_BITS; }
    if guild.id !in cache.roles { return {}; }
    p := cache.roles[guild.id];
    ghost var seen := {guild.id};
    for i := 0 to |member.roles|
      invariant seen == Elements(member.roles[..i]) + {guild.id}
      invariant forall bit: Bit :: bit in p <==> RolesGrant(cache, seen, bit)
    {
      var rid := member.roles[i];
      if rid in cache.roles {
        p := p + cache.roles[rid];
      }
      seen := seen + {rid};
    }
    assert member.roles[..|member.roles|] == member.roles;
    if ADMINISTRATOR in p { return ALL_BITS; }
  }

  method BasePermissionsOfUser(cache: Cache, guild: Guild, user: Option<nat>) returns (p: Mask)
    ensures user.Some? && user.value in guild.members ==>
              var member := guild.members[user.value];
              p == BaseMask(cache, guild, member.userId, Elements(member.roles))
              && GuildRules(p, cache, guild, member.userId, member.roles)
    ensures user.None? || user.value !in guild.members ==> p == {}
  {
    if user.None? { return {}; }
    if user.value !in guild.members { return {}; }
    p := BasePermissions(cache, guild, guild.members[user.value]);
  }

  /** The search with an early break that both implementations write out for every level. */
  method FindOverwrite(overwrites: seq<Overwrite>, id: nat, kind: Kind) returns (found: Option<Overwrite>)
    ensures found.Some? ==> IsFirst(overwrites, id, kind, found.value)
    ensures found.None? ==> forall o :: !IsFirst(overwrites, id, kind, o)
  {
    for k := 0 to |overwrites|
      invariant forall j: nat :: j < k ==> !Concerns(overwrites[j], id, kind)
    {
      if Concerns(overwrites[k], id, kind) {
        return Some(overwrites[k]);
      }
    }
    return None;
  }

  lemma FirstUnique(overwrites: seq<Overwrite>, id: nat, kind: Kind, one: Overwrite, two: Overwrite)
    requires IsFirst(overwrites, id, kind, one) && IsFirst(overwrites, id, kind, two)
    ensures one == two
  {
  }

  /** The overwrite that counts is the first in the list with that id and of that kind. */
  lemma FirstByIndex(overwrites: seq<Overwrite>, id: nat, kind: Kind, k: nat, bit: Bit)
    requires k < |overwrites| && overwrites[k].id == id && overwrites[k].kind == kind
    requires forall j: nat :: j < k ==> overwrites[j].id != id || overwrites[j].kind != kind
    ensures Allows(overwrites, id, kind, bit) <==> bit in overwrites[k].allow
    ensures Denies(overwrites, id, kind, bit) <==> bit in overwrites[k].deny
  {
    assert IsFirst(overwrites, id, kind, overwrites[k]);
    FoundDecides(overwrites, id, kind, Some(overwrites[k]), bit);
  }

  /** Without one no bit is mentioned. */
  lemma NoneMentions(overwrites: seq<Overwrite>, id: nat, kind: Kind, bit: Bit)
    requires forall j: nat :: j < |overwrites| ==> overwrites[j].id != id || overwrites[j].kind != kind
    ensures !Allows(overwrites, id, kind, bit) && !Denies(overwrites, id, kind, bit)
  {
  }

  /** What one level's overwrite, if there is one, does to a bit. */
  lemma FoundDecides(overwrites: seq<Overwrite>, id: nat, kind: Kind, found: Option<Overwrite>, bit: Bit)
    requires found.Some? ==> IsFirst(overwrites, id, kind, found.value)
    requires found.None? ==> forall o :: !IsFirst(overwrites, id, kind, o)
    ensures Allows(overwrites, id, kind, bit) <==> found.Some? && bit in found.value.allow
    ensures Denies(overwrites, id, kind, bit) <==> found.Some? && bit in found.value.deny
  {
    forall o | IsFirst(overwrites, id, kind, o)
      ensures found == Some(o)
    {
      FirstUnique(overwrites, id, kind, o, found.value);
    }
  }

  method ApplyOverwrite(p: Mask, overwrites: seq<Overwrite>, id: nat, kind: Kind) returns (q: Mask)
    ensures forall bit: Bit :: bit in q <==>
      Allows(overwrites, id, kind, bit) || (bit in p && !Denies(overwrites, id, kind, bit))
  {
    var found := FindOverwrite(overwrites, id, kind);
    forall bit: Bit
      ensures Allows(overwrites, id, kind, bit) <==> found.Some? && bit in found.value.allow
      ensures Denies(overwrites, id, kind, bit) <==> found.Some? && bit in found.value.deny
    {
      FoundDecides(overwrites, id, kind, found, bit);
    }
    q := p;
    if found.Some? {
      q := q - found.value.deny;
      q := q + found.value.allow;
    }
  }

  method RoleOverwrites(overwrites: seq<Overwrite>, everyone: nat, roles: seq<nat>)
    returns (allow: Mask, deny: Mask)
    ensures forall bit: Bit :: bit in allow <==> RolesAllow(overwrites, everyone, Elements(roles), bit)
    ensures forall bit: Bit :: bit in deny <==> RolesDeny(overwrites, everyone, Elements(roles), bit)
  {
    allow, deny := {}, {};
    ghost var seen: set<nat> := {};
    for i := 0 to |roles|
      invariant seen == Elements(roles[..i])
      invariant forall bit: Bit :: bit in allow <==> RolesAllow(overwrites, everyone, seen, bit)
      invariant forall bit: Bit :: bit in deny <==> RolesDeny(overwrites, everyone, seen, bit)
    {
      var rid := roles[i];
      seen := seen + {rid};
      if rid == everyone { continue; }
      var found := FindOverwrite(overwrites, rid, RoleOverwrite);
      forall bit: Bit
        ensures Allows(overwrites, rid, RoleOverwrite, bit) <==> found.Some? && bit in found.value.allow
        ensures Denies(overwrites, rid, RoleOverwrite, bit) <==> found.Some? && bit in found.value.deny
      {
        FoundDecides(overwrites, rid, RoleOverwrite, found, bit);
      }
      if found.Some? {
        deny := deny + found.value.deny;
        allow := allow + found.value.allow;
      }
    }
    assert roles[..|roles|] == roles;
  }

  method PermissionOverwrites(cache: Cache, guild: Guild, member: Member, channel: Channel)
    returns (p: Mask)
    ensures var roles := Elements(member.roles);
            var base := BaseMask(cache, guild, member.userId, roles);
            && p == Overwritten(base, guild, member.userId, roles, channel.overwrites)
            && GuildRules(base, cache, guild, member.userId, member.roles)
            && ChannelRules(p, base, channel.overwrites, guild.id, member.userId, member.roles)
  {
    var base := BasePermissions(cache, guild, member);
    OverwrittenFollowsRules(base, guild, member.userId, member.roles, channel.overwrites);
    hide GuildRules, ChannelRules;
    if ADMINISTRATOR in base { return ALL_BITS; }
    p := ApplyOverwrite(base, channel.overwrites, guild.id, RoleOverwrite);
    var allow, deny := RoleOverwrites(channel.overwrites, guild.id, member.roles);
    p := p - deny;
    p := p + allow;
    p := ApplyOverwrite(p, channel.overwrites, member.userId, MemberOverwrite);
  }

  /** The overload for a user takes the permissions in the guild from its caller. */
  method PermissionOverwritesOfUser(base: Mask, guild: Guild, user: Option<nat>, channel: Option<Channel>)
    returns (p: Mask)
    ensures user.None? || channel.None? ==> p == {}
    ensures user.Some? && channel.Some? && ADMINISTRATOR in base ==> p == ALL_BITS
    ensures user.Some? && channel.Some? && ADMINISTRATOR !in base ==>
              if user.value !in guild.members then p == {} else
                var member := guild.members[user.value];
                && p == Overwritten(base, guild, member.userId, Elements(member.roles), channel.value.overwrites)
                && ChannelRules(p, base, channel.value.overwrites, guild.id, member.userId, member.roles)
  {
    hide ChannelRules;
    if user.None? || channel.None? { return {}; }
    if ADMINISTRATOR in base { return ALL_BITS; }
    var overwrites := channel.value.overwrites;
    p := ApplyOverwrite(base, overwrites, guild.id, RoleOverwrite);
    if user.value !in guild.members { return {}; }
    var member := guild.members[user.value];
    OverwrittenFollowsRules(base, guild, member.userId, member.roles, overwrites);
    var allow, deny := RoleOverwrites(overwrites, guild.id, member.roles);
    p := p - deny;
    p := p + allow;
    p := ApplyOverwrite(p, overwrites, member.userId, MemberOverwrite);
  }

  /** The rules of the guild, and those of the channel on top of them; nothing in an unknown guild. */
  ghost predicate FollowsRules(p: Mask, cache: Cache, channel: Channel, member: Member)
  {
    if channel.guildId !in cache.guilds then p == {} else
      var guild := cache.guilds[channel.guildId];
      exists base: Mask ::
        GuildRules(base, cache, guild, member.userId, member.roles)
        && ChannelRules(p, base, channel.overwrites, guild.id, member.userId, member.roles)
  }

  method GetMemberPermissions(cache: Cache, channel: Channel, member: Member) returns (p: Mask)
    ensures p == ChannelMask(cache, channel, member.userId, Elements(member.roles))
    ensures FollowsRules(p, cache, channel, member)
  {
    hide GuildRules, ChannelRules;
    if channel.guildId !in cache.guilds { return {}; }
    p := PermissionOverwrites(cache, cache.guilds[channel.guildId], member, channel);
  }

  /**
    The two implementations agree for every user the guild knows: the result is the one for
    the stored member, and a user it does not know may do nothing.
    */
  method GetUserPermissions(cache: Cache, channel: Channel, user: Option<nat>) returns (p: Mask)
    ensures (user.Some? && channel.guildId in cache.guilds
             && user.value in cache.guilds[channel.guildId].members) ==>
              var member := cache.guilds[channel.guildId].members[user.value];
              p == ChannelMask(cache, channel, member.userId, Elements(member.roles))
              && FollowsRules(p, cache, channel, member)
    ensures (user.None? || channel.guildId !in cache.guilds
             || user.value !in cache.guilds[channel.guildId].members) ==> p == {}
  {
    hide GuildRules, ChannelRules;
    if user.None? { return {}; }
    if channel.guildId !in cache.guilds { return {}; }
    var guild := cache.guilds[channel.guildId];
    var base := BasePermissionsOfUser(cache, guild, user);
    p := PermissionOverwritesOfUser(base, guild, user, Some(channel));
    if user.value in guild.members && ADMINISTRATOR in base {
      AllBitsFollow(base, channel.overwrites, guild.id, guild.members[user.value]);
    }
  }

  lemma AllBitsFollow(base: Mask, overwrites: seq<Overwrite>, everyone: nat, member: Member)
    requires ADMINISTRATOR in base
    ensures ChannelRules(ALL_BITS, base, overwrites, everyone, member.userId, member.roles)
  {
  }

  // ---------------------------------------------------------------- what the order does and does not matter for

  /** Neither the order of a member's roles nor naming one twice changes the result. */
  lemma RoleOrderIrrelevant(cache: Cache, channel: Channel, one: Member, two: Member)
    requires one.userId == two.userId
    requires forall rid :: rid in one.roles <==> rid in two.roles
    ensures ChannelMask(cache, channel, one.userId, Elements(one.roles))
         == ChannelMask(cache, channel, two.userId, Elements(two.roles))
  {
    assert Elements(one.roles) == Elements(two.roles) by {
      forall rid
        ensures rid in Elements(one.roles) <==> rid in one.roles
        ensures rid in Elements(two.roles) <==> rid in two.roles
      {
      }
    }
  }

  ghost predicate OneEach(overwrites: seq<Overwrite>)
  {
    forall i, j :: 0 <= i < |overwrites| && 0 <= j < |overwrites|
                   && Concerns(overwrites[i], overwrites[j].id, overwrites[j].kind) ==>
                     overwrites[i] == overwrites[j]
  }

  /** With at most one overwrite for each role and member, their order is irrelevant too. */
  lemma OverwriteOrderIrrelevant(cache: Cache, one: Channel, two: Channel, userId: nat, roles: set<nat>)
    requires one.guildId == two.guildId
    requires OneEach(one.overwrites) && OneEach(two.overwrites)
    requires forall o :: o in one.overwrites <==> o in two.overwrites
    ensures ChannelMask(cache, one, userId, roles) == ChannelMask(cache, two, userId, roles)
  {
    forall id: nat, kind, o
      ensures IsFirst(one.overwrites, id, kind, o) <==> IsFirst(two.overwrites, id, kind, o)
    {
      FirstIsMember(one.overwrites, id, kind, o);
      FirstIsMember(two.overwrites, id, kind, o);
    }
    SameFirstSameMask(cache, one, two, userId, roles);
  }

  lemma {:induction false} FirstIsMember(overwrites: seq<Overwrite>, id: nat, kind: Kind, o: Overwrite)
    requires OneEach(overwrites)
    ensures IsFirst(overwrites, id, kind, o) <==> o in overwrites && Concerns(o, id, kind)
  {
    if o in overwrites && Concerns(o, id, kind) {
      var k: nat :| k < |overwrites| && overwrites[k] == o;
      FirstExists(overwrites, id, kind, k);
    }
  }

  lemma {:induction false} FirstExists(overwrites: seq<Overwrite>, id: nat, kind: Kind, k: nat)
    requires k < |overwrites| && Concerns(overwrites[k], id, kind)
    ensures exists j: nat :: j < |overwrites| && IsFirst(overwrites, id, kind, overwrites[j])
  {
    if j: nat :| j < k && Concerns(overwrites[j], id, kind) {
      FirstExists(overwrites, id, kind, j);
    } else {
      assert IsFirst(overwrites, id, kind, overwrites[k]);
    }
  }

  lemma SameFirstSameMask(cache: Cache, one: Channel, two: Channel, userId: nat, roles: set<nat>)
    requires one.guildId == two.guildId
    requires forall id: nat, kind, o ::
      IsFirst(one.overwrites, id, kind, o) <==> IsFirst(two.overwrites, id, kind, o)
    ensures ChannelMask(cache, one, userId, roles) == ChannelMask(cache, two, userId, roles)
  {
    hide IsFirst;
    forall id: nat, kind, bit: Bit
      ensures Allows(one.overwrites, id, kind, bit) == Allows(two.overwrites, id, kind, bit)
      ensures Denies(one.overwrites, id, kind, bit) == Denies(two.overwrites, id, kind, bit)
    {
    }
    forall everyone: nat, bit: Bit, before: bool
      ensures Decided(one.overwrites, everyone, userId, roles, bit, before)
           == Decided(two.overwrites, everyone, userId, roles, bit, before)
    {
      hide Allows, Denies;
    }
  }

  /** Two overwrites treat a bit alike; what one also allows, it need not deny. */
  predicate SameEffect(a: Overwrite, b: Overwrite, bit: Bit)
  {
    (bit in a.allow <==> bit in b.allow)
    && (bit !in a.allow ==> (bit in a.deny <==> bit in b.deny))
  }

  predicate EffectOnce(overwrites: seq<Overwrite>, bit: Bit)
  {
    forall i, j :: 0 <= i < |overwrites| && 0 <= j < |overwrites|
                   && Concerns(overwrites[i], overwrites[j].id, overwrites[j].kind) ==>
                     SameEffect(overwrites[i], overwrites[j], bit)
  }

  /** Whoever the member is, whatever the guild gave before: the bit comes out the same. */
  ghost predicate SameDecisions(one: seq<Overwrite>, two: seq<Overwrite>, bit: Bit)
  {
    forall everyone: nat, userId: nat, roles: set<nat>, before: bool ::
      Decided(one, everyone, userId, roles, bit, before) == Decided(two, everyone, userId, roles, bit, before)
  }

  /**
    The order of a list of overwrites is irrelevant for a bit if and only if no two overwrites
    for the same role or member treat that bit differently.
    */
  lemma {:induction false} OrderIrrelevantIff(overwrites: seq<Overwrite>, bit: Bit)
    ensures (forall other :: multiset(other) == multiset(overwrites) ==> SameDecisions(overwrites, other, bit))
       <==> EffectOnce(overwrites, bit)
  {
    if EffectOnce(overwrites, bit) {
      forall other | multiset(other) == multiset(overwrites)
        ensures SameDecisions(overwrites, other, bit)
      {
        SameEffectsSameDecisions(overwrites, other, bit);
      }
    } else {
      var i, j :| 0 <= i < |overwrites| && 0 <= j < |overwrites|
        && Concerns(overwrites[i], overwrites[j].id, overwrites[j].kind)
        && !SameEffect(overwrites[i], overwrites[j], bit);
      var id, kind := overwrites[j].id, overwrites[j].kind;
      FirstExists(overwrites, id, kind, i);
      var k: nat :| k < |overwrites| && IsFirst(overwrites, id, kind, overwrites[k]);
      var m := if SameEffect(overwrites[k], overwrites[i], bit) then j else i;
      var other := InFront(overwrites, m);
      InFrontIsFirst(overwrites, m);
      DifferentFirst(overwrites, other, id, kind, overwrites[k], overwrites[m], bit);
    }
  }

  function InFront(overwrites: seq<Overwrite>, m: nat): seq<Overwrite>
    requires m < |overwrites|
  {
    [overwrites[m]] + (overwrites[..m] + overwrites[m + 1..])
  }

  lemma InFrontIsFirst(overwrites: seq<Overwrite>, m: nat)
    requires m < |overwrites|
    ensures multiset(InFront(overwrites, m)) == multiset(overwrites)
    ensures IsFirst(InFront(overwrites, m), overwrites[m].id, overwrites[m].kind, overwrites[m])
  {
    assert overwrites == overwrites[..m] + [overwrites[m]] + overwrites[m + 1..];
    assert InFront(overwrites, m)[0] == overwrites[m];
  }

  /** With only one kind of effect in the list, each level reads it off any of its overwrites. */
  lemma {:induction false} LevelByMembership(overwrites: seq<Overwrite>, id: nat, kind: Kind, bit: Bit)
    requires EffectOnce(overwrites, bit)
    ensures Allows(overwrites, id, kind, bit)
       <==> exists o :: o in overwrites && Concerns(o, id, kind) && bit in o.allow
    ensures !Allows(overwrites, id, kind, bit) ==>
              (Denies(overwrites, id, kind, bit)
               <==> exists o :: o in overwrites && Concerns(o, id, kind) && bit in o.deny)
  {
    if o :| o in overwrites && Concerns(o, id, kind) {
      var i: nat :| i < |overwrites| && overwrites[i] == o;
      FirstExists(overwrites, id, kind, i);
      var k: nat :| k < |overwrites| && IsFirst(overwrites, id, kind, overwrites[k]);
      FoundDecides(overwrites, id, kind, Some(overwrites[k]), bit);
      forall p | p in overwrites && Concerns(p, id, kind)
        ensures SameEffect(p, overwrites[k], bit)
      {
        var j: nat :| j < |overwrites| && overwrites[j] == p;
      }
    }
  }

  lemma SameEffectsSameDecisions(one: seq<Overwrite>, two: seq<Overwrite>, bit: Bit)
    requires EffectOnce(one, bit) && multiset(one) == multiset(two)
    ensures SameDecisions(one, two, bit)
  {
    forall o ensures o in one <==> o in two {
      assert o in one <==> o in multiset(one);
      assert o in two <==> o in multiset(two);
    }
    assert EffectOnce(two, bit) by {
      forall i, j | 0 <= i < |two| && 0 <= j < |two| && Concerns(two[i], two[j].id, two[j].kind)
        ensures SameEffect(two[i], two[j], bit)
      {
        assert two[i] in one && two[j] in one;
      }
    }
    forall id: nat, kind
      ensures Allows(one, id, kind, bit) == Allows(two, id, kind, bit)
      ensures !Allows(one, id, kind, bit) ==> Denies(one, id, kind, bit) == Denies(two, id, kind, bit)
    {
      LevelByMembership(one, id, kind, bit);
      LevelByMembership(two, id, kind, bit);
    }
    SameLevelsSameDecisions(one, two, bit);
  }

  lemma SameLevelsSameDecisions(one: seq<Overwrite>, two: seq<Overwrite>, bit: Bit)
    requires forall id: nat, kind :: Allows(one, id, kind, bit) == Allows(two, id, kind, bit)
    requires forall id: nat, kind ::
      !Allows(one, id, kind, bit) ==> Denies(one, id, kind, bit) == Denies(two, id, kind, bit)
    ensures SameDecisions(one, two, bit)
  {
    hide Allows, Denies;
    forall everyone: nat, roles: set<nat>
      ensures RolesAllow(one, everyone, roles, bit) == RolesAllow(two, everyone, roles, bit)
      ensures !RolesAllow(one, everyone, roles, bit) ==>
                RolesDeny(one, everyone, roles, bit) == RolesDeny(two, everyone, roles, bit)
    {
    }
    hide RolesAllow, RolesDeny;
  }

  /** Above every id in the list. */
  function Fresh(overwrites: seq<Overwrite>): (id: nat)
    ensures forall o :: o in overwrites ==> o.id < id
  {
    if overwrites == [] then 0 else
      var rest := Fresh(overwrites[1..]);
      if overwrites[0].id < rest then rest else overwrites[0].id + 1
  }

  /**
    Two lists whose first overwrites for an id treat the bit differently are told apart by a
    member with that id, or with only that role, in a guild without an overwrite for everyone.
    */
  lemma DifferentFirst(one: seq<Overwrite>, two: seq<Overwrite>, id: nat, kind: Kind,
                       first: Overwrite, second: Overwrite, bit: Bit)
    requires multiset(one) == multiset(two)
    requires IsFirst(one, id, kind, first) && IsFirst(two, id, kind, second) && !SameEffect(first, second, bit)
    ensures !SameDecisions(one, two, bit)
  {
    forall o ensures o in one <==> o in two {
      assert o in one <==> o in multiset(one);
      assert o in two <==> o in multiset(two);
    }
    var nobody := Fresh(one);
    assert first in one && id < nobody;
    var userId := if kind == MemberOverwrite then id else nobody;
    var roles: set<nat> := if kind == MemberOverwrite then {} else {id};
    var before := !(bit in first.allow || bit in second.allow);
    OnlyLevel(one, id, kind, first, nobody, bit, before);
    OnlyLevel(two, id, kind, second, nobody, bit, before);
    assert Decided(one, nobody, userId, roles, bit, before) != Decided(two, nobody, userId, roles, bit, before);
  }

  /** A member whom only one overwrite of the list concerns. */
  lemma OnlyLevel(overwrites: seq<Overwrite>, id: nat, kind: Kind, first: Overwrite, nobody: nat, bit: Bit,
                  before: bool)
    requires IsFirst(overwrites, id, kind, first) && id != nobody
    requires forall o :: o in overwrites ==> o.id != nobody
    ensures var userId := if kind == MemberOverwrite then id else nobody;
            var roles: set<nat> := if kind == MemberOverwrite then {} else {id};
            (Decided(overwrites, nobody, userId, roles, bit, before)
             <==> bit in first.allow || (before && bit !in first.deny))
  {
    FoundDecides(overwrites, id, kind, Some(first), bit);
    forall k | k in {MemberOverwrite, RoleOverwrite}
      ensures !Allows(overwrites, nobody, k, bit) && !Denies(overwrites, nobody, k, bit)
    {
    }
  }

  /** With two overwrites for the same role the order decides. */
  lemma OverwriteOrderMatters(guildId: nat, userId: nat, bit: Bit)
    ensures var allow := Overwrite(userId, {bit}, {}, MemberOverwrite);
            var deny := Overwrite(userId, {}, {bit}, MemberOverwrite);
            Decided([allow, deny], guildId, userId, {}, bit, false)
            && !Decided([deny, allow], guildId, userId, {}, bit, true)
  {
    var allow := Overwrite(userId, {bit}, {}, MemberOverwrite);
    var deny := Overwrite(userId, {}, {bit}, MemberOverwrite);
    assert [allow, deny][0] == allow && [deny, allow][0] == deny;
    FoundDecides([allow, deny], userId, MemberOverwrite, Some(allow), bit);
    FoundDecides([deny, allow], userId, MemberOverwrite, Some(deny), bit);
  }
}
