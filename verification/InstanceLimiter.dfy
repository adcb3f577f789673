/**
  The limiter of instance entries per account: a table of entry times that drops at most
  one outdated entry per check, against the sliding window of one hour it stands for.
  */
module InstanceLimiter {
  const HOUR: int := 3600

  /** Instance id to the time of the last entry, and account id to such a map. */
  type Times = map<nat, int>
  type Table = map<nat, Times>

  function TimesOf(table: Table, account: nat): Times
  {
    if account in table then table[account] else map[]
  }

  predicate Stale(times: Times, instance: nat, now: int)
  {
    instance in times && times[instance] + HOUR < now
  }

  /** The first outdated entry in key order, the order in which the map is iterated. */
  ghost predicate FirstStale(times: Times, now: int, instance: nat)
  {
    Stale(times, instance, now) && forall k: nat :: Stale(times, k, now) ==> instance <= k
  }

  /** The entry times after the search for an outdated entry: the first one found is erased. */
  ghost function Pruned(times: Times, now: int): (kept: Times)
    ensures forall k: nat :: FirstStale(times, now, k) ==> kept == times - {k}
  {
    if exists k: nat :: FirstStale(times, now, k) then
      var k :| FirstStale(times, now, k);
      times - {k}
    else times
  }

  predicate MustSearch(table: Table, account: nat, instance: nat, maxCount: nat)
  {
    account in table && instance !in table[account] && |table[account]| >= maxCount
  }

  ghost predicate Accepts(table: Table, account: nat, instance: nat, maxCount: nat, now: int)
  {
    MustSearch(table, account, instance, maxCount) ==> exists k: nat :: Stale(table[account], k, now)
  }

  /** The table that a check leaves behind. */
  ghost function Checked(table: Table, account: nat, instance: nat, maxCount: nat, now: int): Table
  {
    if MustSearch(table, account, instance, maxCount)
    then table[account := Pruned(table[account], now)]
    else table
  }

  function Entered(table: Table, account: nat, instance: nat, time: int): Table
  {
    table[account := TimesOf(table, account)[instance := time]]
  }

  /** The key at which an iteration over the remaining keys stands. */
  predicate IsLeast(keys: set<nat>, k: nat)
  {
    k in keys && forall other :: other in keys ==> k <= other
  }

  lemma {:induction false} LeastKey(keys: set<nat>)
    requires keys != {}
    ensures exists k: nat :: IsLeast(keys, k)
  {
    var k :| k in keys;
    var rest := keys - {k};
    if rest == {} {
      assert keys == {k};
      assert IsLeast(keys, k);
    } else {
      LeastKey(rest);
      var least: nat :| IsLeast(rest, least);
      assert keys == rest + {k};
      assert IsLeast(keys, if k < least then k else least);
    }
  }

  ghost predicate StaleOnlyIn(times: Times, rest: set<nat>, now: int)
  {
    rest <= times.Keys && forall k: nat :: Stale(times, k, now) ==> k in rest
  }

  lemma PrunedIs(times: Times, rest: set<nat>, now: int, k: nat, kept: Times)
    requires StaleOnlyIn(times, rest, now)
    requires IsLeast(rest, k) && Stale(times, k, now)
    requires kept == map other | other in times && other != k :: times[other]
    ensures Pruned(times, now) == kept && exists j: nat :: Stale(times, j, now)
  {
    assert FirstStale(times, now, k);
    assert kept == times - {k};
  }

  lemma FreshStep(times: Times, rest: set<nat>, now: int, k: nat)
    requires StaleOnlyIn(times, rest, now) && k in rest && !(times[k] + HOUR < now)
    ensures StaleOnlyIn(times, rest - {k}, now)
  {
  }

  lemma AllToSearch(times: Times, now: int)
    ensures StaleOnlyIn(times, times.Keys, now)
  {
  }

  lemma NoneStale(times: Times, now: int)
    requires StaleOnlyIn(times, {}, now)
    ensures Pruned(times, now) == times && !exists k: nat :: Stale(times, k, now)
  {
  }

  class AccountMgr {
    var instanceEnterTimes: Table

    constructor ()
      ensures instanceEnterTimes == map[]
    {
      instanceEnterTimes := map[];
    }

    method CheckInstanceCount(account: nat, instance: nat, maxCount: nat, now: int) returns (ok: bool)
      modifies this
      ensures ok == Accepts(old(instanceEnterTimes), account, instance, maxCount, now)
      ensures instanceEnterTimes == Checked(old(instanceEnterTimes), account, instance, maxCount, now)
    {
      hide Stale, FirstStale, Pruned, StaleOnlyIn;
      if account !in instanceEnterTimes { return true; }
      var times := instanceEnterTimes[account];
      if instance in times { return true; }
      if |times| < maxCount { return true; }
      var rest := times.Keys;
      AllToSearch(times, now);
      while rest != {}
        invariant rest <= times.Keys
        invariant instanceEnterTimes == old(instanceEnterTimes)
        invariant StaleOnlyIn(times, rest, now)
        decreases |rest|
      {
        LeastKey(rest);
        var k: nat :| IsLeast(rest, k);
        if times[k] + HOUR < now {
          var kept: Times := map other | other in times && other != k :: times[other];
          PrunedIs(times, rest, now, k, kept);
          instanceEnterTimes := instanceEnterTimes[account := kept];
          return true;
        }
        FreshStep(times, rest, now, k);
        rest := rest - {k};
      }
      NoneStale(times, now);
      return false;
    }

    method AddInstanceEnterTime(account: nat, instance: nat, time: int)
      modifies this
      ensures instanceEnterTimes == Entered(old(instanceEnterTimes), account, instance, time)
    {
      if account !in instanceEnterTimes {
        var resetTimes: Times := map[];
        resetTimes := resetTimes[instance := time];
        instanceEnterTimes := instanceEnterTimes[account := resetTimes];
        return;
      }
      instanceEnterTimes :=
        instanceEnterTimes[account := TimesOf(instanceEnterTimes, account)[instance := time]];
    }
  }

  lemma {:induction false} SomeFirstStale(times: Times, now: int, stale: nat)
    requires Stale(times, stale, now)
    ensures exists k: nat :: FirstStale(times, now, k)
  {
    var all := set k | k in times && Stale(times, k, now);
    assert stale in all;
    LeastKey(all);
    var k: nat :| IsLeast(all, k);
    assert Stale(times, k, now);
    forall other: nat | Stale(times, other, now)
      ensures k <= other
    {
      assert other in all;
    }
    assert FirstStale(times, now, k);
  }

  /** Pruning keeps every current entry, and makes room when any entry is outdated. */
  lemma PrunedSize(times: Times, now: int)
    ensures |Pruned(times, now)| == |times| - if exists k: nat :: Stale(times, k, now) then 1 else 0
    ensures Pruned(times, now).Keys <= times.Keys
    ensures forall k :: k in Pruned(times, now) ==> Pruned(times, now)[k] == times[k]
    ensures forall k :: k in times && !Stale(times, k, now) ==> k in Pruned(times, now)
  {
    if stale :| Stale(times, stale, now) {
      SomeFirstStale(times, now, stale);
      var k :| FirstStale(times, now, k);
      assert Pruned(times, now).Keys == times.Keys - {k};
      assert |Pruned(times, now)| == |Pruned(times, now).Keys| && |times| == |times.Keys|;
    }
  }

  lemma PrunedKeepsCurrent(times: Times, earlier: int, now: int)
    requires earlier <= now
    ensures Current(Pruned(times, earlier), now) == Current(times, now)
  {
    PrunedSize(times, earlier);
  }

  // ---------------------------------------------------------------- runs

  /** A check of an account for an instance, or the entry itself, with the clock's value. */
  datatype Event =
    | Check(account: nat, instance: nat, time: int)
    | Enter(account: nat, instance: nat, time: int)

  ghost function Init(run: seq<Event>): seq<Event>
    requires run != []
  {
    run[..|run| - 1]
  }

  ghost function Last(run: seq<Event>): Event
    requires run != []
  {
    run[|run| - 1]
  }

  ghost function After(run: seq<Event>, maxCount: nat): Table
  {
    if run == [] then map[] else
      var before := After(Init(run), maxCount);
      match Last(run)
      case Check(account, instance, time) => Checked(before, account, instance, maxCount, time)
      case Enter(account, instance, time) => Entered(before, account, instance, time)
  }

  /**
    A successful check of this instance, with no entry of the account into another one since.
    An instance that does not exist yet is checked as number 0; its number comes with the entry.
    */
  ghost predicate Granted(run: seq<Event>, maxCount: nat, account: nat, instance: nat)
  {
    run != []
    && match Last(run)
       case Check(a, i, time) =>
         (a == account && (i == instance || i == 0)
          && Accepts(After(Init(run), maxCount), account, i, maxCount, time))
         || Granted(Init(run), maxCount, account, instance)
       case Enter(a, i, _) =>
         (a == account ==> i == instance) && Granted(Init(run), maxCount, account, instance)
  }

  ghost predicate NotBefore(run: seq<Event>, now: int)
  {
    run != [] ==> Last(run).time <= now
  }

  ghost predicate Legal(run: seq<Event>, maxCount: nat)
  {
    run != [] ==>
      Legal(Init(run), maxCount)
      && NotBefore(Init(run), Last(run).time)
      && (Last(run).Enter? ==>
            Last(run).instance > 0
            && Granted(Init(run), maxCount, Last(run).account, Last(run).instance))
  }

  /** The instances the account entered at a time from `first` to `last`. */
  ghost function EnteredBetween(run: seq<Event>, account: nat, first: int, last: int): set<nat>
  {
    if run == [] then {} else
      EnteredBetween(Init(run), account, first, last)
      + match Last(run)
        case Check(_, _, _) => {}
        case Enter(a, i, time) => if a == account && first <= time <= last then {i} else {}
  }

  /** Stated of the run itself. */
  lemma {:induction false} EnteredBetweenIs(run: seq<Event>, account: nat, first: int, last: int, instance: nat)
    ensures instance in EnteredBetween(run, account, first, last) <==>
            exists k :: 0 <= k < |run| && run[k].Enter? && run[k].account == account && run[k].instance == instance
                        && first <= run[k].time <= last
  {
    if run != [] {
      EnteredBetweenIs(Init(run), account, first, last, instance);
      assert forall k :: 0 <= k < |run| - 1 ==> Init(run)[k] == run[k];
    }
  }

  /** The entries of the table that are not outdated. */
  ghost function Current(times: Times, now: int): set<nat>
  {
    set k | k in times && times[k] + HOUR >= now
  }

  /** Number 0 is only ever asked for. */
  lemma {:induction false} ZeroIsNeverEntered(run: seq<Event>, maxCount: nat, account: nat)
    requires Legal(run, maxCount)
    ensures 0 !in TimesOf(After(run, maxCount), account)
  {
    hide Granted, Pruned, Accepts;
    if run != [] {
      ZeroIsNeverEntered(Init(run), maxCount, account);
      if Last(run).Check? {
        PrunedSize(TimesOf(After(Init(run), maxCount), account), Last(run).time);
      }
    }
  }

  /** The table never outgrows the limit, and whoever holds a grant still has a place in it. */
  lemma {:induction false} TableWithinLimit(run: seq<Event>, maxCount: nat, account: nat)
    requires Legal(run, maxCount) && maxCount >= 1
    ensures |TimesOf(After(run, maxCount), account)| <= maxCount
    ensures forall i :: Granted(run, maxCount, account, i) ==>
                          i in TimesOf(After(run, maxCount), account)
                          || |TimesOf(After(run, maxCount), account)| < maxCount
  {
    if run != [] {
      TableWithinLimit(Init(run), maxCount, account);
      ZeroIsNeverEntered(Init(run), maxCount, account);
      var before := TimesOf(After(Init(run), maxCount), account);
      var after := TimesOf(After(run, maxCount), account);
      match Last(run)
      case Check(a, i, time) =>
        if a == account && MustSearch(After(Init(run), maxCount), a, i, maxCount) {
          PrunedSize(before, time);
        }
      case Enter(a, i, time) =>
        if a == account {
          assert after.Keys == before.Keys + {i};
          assert |after| == |after.Keys| && |before| == |before.Keys|;
        }
    }
  }

  lemma CheckedKeepsCurrent(table: Table, account: nat, instance: nat, maxCount: nat, earlier: int,
                            other: nat, now: int)
    requires earlier <= now
    ensures Current(TimesOf(Checked(table, account, instance, maxCount, earlier), other), now)
         == Current(TimesOf(table, other), now)
  {
    PrunedKeepsCurrent(TimesOf(table, account), earlier, now);
  }

  lemma EnteredIsCurrent(times: Times, instance: nat, time: int, now: int)
    requires time <= now && forall k :: k in times ==> times[k] <= time
    ensures Current(times[instance := time], now)
         == Current(times, now) + if now - HOUR <= time then {instance} else {}
  {
  }

  /** What is current in the table is exactly what was entered within the last hour. */
  lemma {:induction false} CurrentIsWindow(run: seq<Event>, maxCount: nat, account: nat, now: int)
    requires Legal(run, maxCount) && NotBefore(run, now)
    ensures Current(TimesOf(After(run, maxCount), account), now)
            == EnteredBetween(run, account, now - 3600, now)
  {
    hide Current, Checked, Granted, Accepts;
    if run != [] {
      CurrentIsWindow(Init(run), maxCount, account, now);
      var before := After(Init(run), maxCount);
      match Last(run)
      case Check(a, i, time) =>
        CheckedKeepsCurrent(before, a, i, maxCount, time, account, now);
      case Enter(a, i, time) =>
        NoLaterEntry(Init(run), maxCount, account, time);
        EnteredIsCurrent(TimesOf(before, account), i, time, now);
    } else {
      NothingCurrent(now);
    }
  }

  lemma NothingCurrent(now: int)
    ensures Current(map[], now) == {}
  {
  }

  /** Every recorded time is at most the clock's. */
  lemma {:induction false} NoLaterEntry(run: seq<Event>, maxCount: nat, account: nat, now: int)
    requires Legal(run, maxCount) && NotBefore(run, now)
    ensures forall k :: k in TimesOf(After(run, maxCount), account) ==>
                          TimesOf(After(run, maxCount), account)[k] <= now
  {
    if run != [] {
      NoLaterEntry(Init(run), maxCount, account, now);
      var before := TimesOf(After(Init(run), maxCount), account);
      var after := TimesOf(After(run, maxCount), account);
      match Last(run)
      case Check(_, _, time) =>
        PrunedSize(before, time);
        assert forall k :: k in after ==> k in before && after[k] == before[k];
      case Enter(a, i, time) =>
        assert forall k :: k in after ==> (k in before && after[k] == before[k]) || after[k] == time;
    }
  }

  /** The limit: whatever hour is looked at, at most maxCount instances were entered in it. */
  lemma {:induction false} NeverMoreThanMax(run: seq<Event>, maxCount: nat, account: nat, first: int)
    requires Legal(run, maxCount) && maxCount >= 1
    ensures |EnteredBetween(run, account, first, first + 3600)| <= maxCount
  {
    if run != [] {
      if Last(run).time <= first + HOUR {
        CurrentIsWindow(run, maxCount, account, first + HOUR);
        TableWithinLimit(run, maxCount, account);
        CurrentFits(TimesOf(After(run, maxCount), account), first + HOUR);
      } else {
        NeverMoreThanMax(Init(run), maxCount, account, first);
      }
    }
  }

  lemma SubsetSize(a: set<nat>, b: set<nat>)
    requires a <= b
    ensures |a| <= |b|
    ensures |a| == |b| ==> a == b
  {
    assert b == a + (b - a);
  }

  lemma CurrentFits(times: Times, now: int)
    ensures |Current(times, now)| <= |times|
    ensures |Current(times, now)| == |times| ==> Current(times, now) == times.Keys
  {
    SubsetSize(Current(times, now), times.Keys);
  }

  /**
    A check succeeds exactly when fewer than maxCount other instances were entered within
    the last hour: the table decides as the full history would.
    */
  lemma AcceptsIffRoom(run: seq<Event>, maxCount: nat, account: nat, instance: nat, now: int)
    requires Legal(run, maxCount) && NotBefore(run, now) && maxCount >= 1
    ensures Accepts(After(run, maxCount), account, instance, maxCount, now)
       <==> |EnteredBetween(run, account, now - 3600, now) - {instance}| < maxCount
  {
    var times := TimesOf(After(run, maxCount), account);
    CurrentIsWindow(run, maxCount, account, now);
    TableWithinLimit(run, maxCount, account);
    CurrentFits(times, now);
    var others := Current(times, now) - {instance};
    SubsetSize(others, Current(times, now));
    assert |times| == |times.Keys|;
    if Current(times, now) != times.Keys {
      var k :| k in times && k !in Current(times, now);
      assert Stale(times, k, now);
    } else if instance in times {
      assert instance in Current(times, now) && instance !in others;
    } else {
      assert others == times.Keys;
    }
  }

  lemma Unfold(run: seq<Event>, e: Event, maxCount: nat, account: nat, first: int, last: int)
    ensures Init(run + [e]) == run && Last(run + [e]) == e
    ensures EnteredBetween(run + [e], account, first, last)
         == EnteredBetween(run, account, first, last)
            + if e.Enter? && e.account == account && first <= e.time <= last then {e.instance} else {}
    ensures e.Check? && Granted(run, maxCount, account, e.instance)
            ==> Granted(run + [e], maxCount, account, e.instance)
  {
    assert Init(run + [e]) == run && Last(run + [e]) == e;
  }

  /** A limit of zero is not kept: an account without an entry in the table is let in. */
  lemma ZeroLimitIsNotKept(account: nat, instance: nat, now: int)
    requires instance > 0
    ensures var run := [Check(account, 0, now)] + [Enter(account, instance, now)];
            Legal(run, 0) && |EnteredBetween(run, account, now - HOUR, now)| == 1
  {
    var check := [] + [Check(account, 0, now)];
    Unfold([], Check(account, 0, now), 0, account, now - HOUR, now);
    Unfold(check, Enter(account, instance, now), 0, account, now - HOUR, now);
    assert Granted(check, 0, account, instance);
    assert EnteredBetween(check + [Enter(account, instance, now)], account, now - HOUR, now) == {instance};
  }

  /**
    The exact condition, for an entry with or without a check before it: the limit is kept if
    and only if it is at least 1 and a check at that moment would succeed.
    */
  lemma LimitKeptIff(run: seq<Event>, maxCount: nat, account: nat, instance: nat, now: int)
    requires Legal(run, maxCount) && NotBefore(run, now)
    ensures |EnteredBetween(run + [Enter(account, instance, now)], account, now - 3600, now)| <= maxCount
       <==> maxCount >= 1 && Accepts(After(run, maxCount), account, instance, maxCount, now)
  {
    var window := EnteredBetween(run, account, now - HOUR, now);
    Unfold(run, Enter(account, instance, now), maxCount, account, now - HOUR, now);
    assert window + {instance} == (window - {instance}) + {instance};
    if maxCount >= 1 {
      AcceptsIffRoom(run, maxCount, account, instance, now);
    }
  }

  /**
    A grant does not survive another entry: two checks for new instances followed by two entries
    break a limit of one. At the second entry a check would fail, as LimitKeptIff says it must.
    */
  lemma GrantsDoNotAddUp(account: nat, one: nat, two: nat, now: int)
    requires one != two && one > 0 && two > 0
    ensures var checks := [Check(account, 0, now)] + [Check(account, 0, now)];
            var run := checks + [Enter(account, one, now)];
            Granted(checks, 1, account, one) && Granted(checks, 1, account, two)
            && Legal(run, 1) && !Accepts(After(run, 1), account, two, 1, now)
            && EnteredBetween(run + [Enter(account, two, now)], account, now - HOUR, now) == {one, two}
  {
    hide EnteredBetween, Entered, Checked, Accepts;
    var check := [] + [Check(account, 0, now)];
    var checks := check + [Check(account, 0, now)];
    var entered := checks + [Enter(account, one, now)];
    Unfold([], Check(account, 0, now), 1, account, now - HOUR, now);
    Unfold(check, Check(account, 0, now), 1, account, now - HOUR, now);
    Unfold(checks, Enter(account, one, now), 1, account, now - HOUR, now);
    Unfold(entered, Enter(account, two, now), 1, account, now - HOUR, now);
    NothingEntered(account, now - HOUR, now);
    UnknownStays(account, 0, now);
    assert After(check, 1) == Checked(map[], account, 0, 1, now) == map[];
    assert Granted(check, 1, account, one) && Granted(check, 1, account, two);
    assert Legal(check, 1) && Legal(checks, 1);
    assert Granted(checks, 1, account, one);
    assert Legal(entered, 1);
    LimitKeptIff(entered, 1, account, two, now);
  }

  lemma NothingEntered(account: nat, first: int, last: int)
    ensures EnteredBetween([], account, first, last) == {}
  {
  }

  lemma UnknownStays(account: nat, instance: nat, now: int)
    ensures Checked(map[], account, instance, 1, now) == map[]
    ensures Accepts(map[], account, instance, 1, now)
  {
  }
}
