/** A request thread's own sections, as the loops run them; each is the thread-local function of a queue step. */
module RequestThread {
  import opened Bytes
  import opened Sequences
  import opened RequestQueue

  method Hash(s: Endpoint) returns (hashval: nat)
    ensures hashval == HashFrom(s, 17)
  {
    hashval := 17;
    var i := 0;
    while i < |s| && s[i] != 0
      invariant i <= |s| && hashval < TWO_32
      invariant HashFrom(s, 17) == HashFrom(s[i..], hashval)
    {
      var octet: int := s[i];
      var c := if octet >= 128 then octet - 256 else octet;
      assert s[i..][1..] == s[i + 1..];
      hashval := (c + 31 * hashval) % TWO_32;
      i := i + 1;
    }
  }

  /** How many requests are listed under the keys in `order`, completed or not. */
  function Total(pending: map<Endpoint, seq<Request>>, order: seq<Endpoint>): nat {
    if order == [] then 0 else |Lookup(pending, order[0])| + Total(pending, order[1..])
  }

  lemma {:induction false} TotalSmaller(pending: map<Endpoint, seq<Request>>, order: seq<Endpoint>, ep: Endpoint,
                                        rs: seq<Request>)
    requires Distinct(order) && |rs| < |Lookup(pending, ep)|
    ensures ep in order ==> Total(pending[ep := rs], order) < Total(pending, order)
    ensures ep !in order ==> Total(pending[ep := rs], order) == Total(pending, order)
    decreases |order|
  {
    if order != [] {
      assert order == [order[0]] + order[1..];
      DistinctParts([order[0]], order[1..]);
      TotalSmaller(pending, order[1..], ep, rs);
    }
  }

  lemma {:induction false} FilterErase(rs: seq<Request>, c: set<Request>, i: nat)
    requires i < |rs| && rs[i] in c
    ensures Filter(rs[..i] + rs[i + 1..], c) == Filter(rs, c)
  {
    FilterAppend(rs[..i], rs[i + 1..], c);
    FilterAppend(rs[..i], rs[i..], c);
    assert rs[i..][0] == rs[i] && rs[i..][1..] == rs[i + 1..] && rs == rs[..i] + rs[i..];
  }

  lemma {:induction false} NothingToFilter(rs: seq<Request>, c: set<Request>)
    requires forall r :: r in rs ==> r !in c
    ensures Filter(rs, c) == rs
    decreases |rs|
  {
    if rs != [] { NothingToFilter(rs[1..], c); }
  }

  /** The iteration order of the map. */
  method Keys(m: map<Endpoint, seq<Request>>) returns (order: seq<Endpoint>)
    ensures Distinct(order) && forall ep :: ep in order <==> ep in m
  {
    order := [];
    var left := m.Keys;
    while left != {}
      invariant Distinct(order) && left <= m.Keys
      invariant forall ep :: ep in order <==> ep in m && ep !in left
    {
      var ep :| ep in left;
      order := order + [ep];
      left := left - {ep};
    }
  }

  class InThread {
    var pending: map<Endpoint, seq<Request>>
    var buckets: map<Endpoint, Bucket>

    constructor ()
      ensures pending == map[] && buckets == map[]
    {
      pending, buckets := map[], map[];
    }

    /** `post_request`, under the thread's mutex. */
    method PostRequest(r: Request)
      modifies this`pending
      ensures Thread(pending, buckets, Idle) == PostedTo(Thread(old(pending), buckets, Idle), r)
      ensures pending.Keys == old(pending).Keys + {r.endpoint}
      ensures pending[r.endpoint] == (if r.endpoint in old(pending) then old(pending)[r.endpoint] else []) + [r]
      ensures forall ep :: ep in old(pending) && ep != r.endpoint ==> pending[ep] == old(pending)[ep]
    {
      if r.endpoint !in pending {
        pending := pending[r.endpoint := []];
      }
      pending := pending[r.endpoint := pending[r.endpoint] + [r]];
    }

    /** The bucket decision before a request is run. */
    method Decide(ep: Endpoint, now: nat) returns (run: bool)
      ensures run <==> MayRun(buckets, ep, now)
      ensures run <==>
              || ep !in buckets
              || buckets[ep].remaining >= 1
              || now > (buckets[ep].timestamp + (if buckets[ep].retryAfter != 0 then buckets[ep].retryAfter
                                                 else buckets[ep].resetAfter)) % 0x1_0000_0000_0000_0000
    {
      if ep in buckets {
        var b := buckets[ep];
        if b.remaining < 1 {
          var wait := if b.retryAfter != 0 then b.retryAfter else b.resetAfter;
          run := now > (b.timestamp + wait) % TWO_64;
        } else {
          run := true;
        }
      } else {
        run := true;
      }
    }

    method FindCompleted(order: seq<Endpoint>, completed: set<Request>) returns (found: bool, ep: Endpoint, at: nat)
      requires forall e :: e in order <==> e in pending
      ensures found ==> ep in pending && at < |pending[ep]| && pending[ep][at] in completed
      ensures !found ==> forall e, r :: e in pending && r in pending[e] ==> r !in completed
    {
      found, ep, at := false, [], 0;
      for k := 0 to |order|
        invariant forall j :: 0 <= j < k ==> forall r :: r in pending[order[j]] ==> r !in completed
      {
        ep, at := order[k], 0;
        assert ep in order;
        while at < |pending[ep]|
          invariant at <= |pending[ep]| && forall i :: 0 <= i < at ==> pending[ep][i] !in completed
        {
          if pending[ep][at] in completed { return true, ep, at; }
          at := at + 1;
        }
      }
    }

    /** The do-while loop that erases completed requests one at a time. */
    method RemoveCompleted(completed: set<Request>)
      modifies this`pending
      ensures pending == Cleaned(old(pending), completed)
      ensures pending.Keys == old(pending).Keys
      ensures forall ep, r :: ep in pending ==> (r in pending[ep] <==> r in old(pending)[ep] && r !in completed)
    {
      var order := Keys(pending);
      var again := true;
      while again
        invariant pending.Keys == old(pending).Keys
        invariant forall ep :: ep in pending ==> Filter(pending[ep], completed) == Filter(old(pending)[ep], completed)
        invariant !again ==> forall ep, r :: ep in pending && r in pending[ep] ==> r !in completed
        decreases again, Total(pending, order)
      {
        var found, ep, at := FindCompleted(order, completed);
        again := found;
        if found {
          var rs := pending[ep];
          FilterErase(rs, completed, at);
          TotalSmaller(pending, order, ep, rs[..at] + rs[at + 1..]);
          pending := pending[ep := rs[..at] + rs[at + 1..]];
        }
      }
      forall ep | ep in pending ensures Filter(pending[ep], completed) == pending[ep] {
        NothingToFilter(pending[ep], completed);
      }
    }
  }
}
