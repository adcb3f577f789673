/**
  The request queue as a state machine: poster threads, a fixed pool of request threads, the
  response queue and the callback thread, interleaved step by step in any order. One step is one
  section the code runs under a mutex, or one decision of a request thread on its own data.
  */
module RequestQueue {
  import opened Bytes
  import opened Sequences

  type Endpoint = seq<byte>

  /** A posted request; every http_request object is posted once. */
  datatype Request = Request(id: nat, endpoint: Endpoint)

  datatype Response = Response(remaining: nat, resetAfter: nat, retryAfter: nat)
  datatype Bucket = Bucket(remaining: nat, resetAfter: nat, retryAfter: nat, timestamp: nat)

  /** One execution of a request: when it was started, when its response was booked, and the response. */
  datatype Run = Run(request: Request, start: nat, end: nat, response: Response)

  type Todo = seq<(Endpoint, seq<Request>)>

  /** Where a request thread is in its loop: `todo` is what is left of the copy it iterates. */
  datatype Phase = Idle | Scanning(todo: Todo) | InFlight(request: Request, start: nat, todo: Todo)

  datatype Thread = Thread(pending: map<Endpoint, seq<Request>>, buckets: map<Endpoint, Bucket>, phase: Phase)

  /** `posted`, `finished` and `delivered` are histories; `responses` is the response queue. */
  datatype State = State(
    now: nat, threads: seq<Thread>, completed: set<Request>,
    posted: seq<Request>, finished: seq<Run>, responses: seq<Request>, delivered: seq<Request>)

  const TWO_32: nat := 0x1_0000_0000
  const TWO_64: nat := 0x1_0000_0000_0000_0000

  // ---------------------------------------------------------------- endpoint to thread

  /** The hash loop: uint32_t arithmetic on signed chars, up to the first NUL. */
  function HashFrom(s: Endpoint, acc: nat): (h: nat)
    requires acc < TWO_32
    ensures h < TWO_32
  {
    if s == [] || s[0] == 0 then acc else
    var octet: int := s[0];
    var c := if octet >= 128 then octet - 256 else octet;
    HashFrom(s[1..], (c + 31 * acc) % TWO_32)
  }

  function ThreadOf(ep: Endpoint, pool: nat): (t: nat)
    requires pool > 0
    ensures t < pool
  {
    HashFrom(ep, 17) % pool
  }

  lemma {:induction false} HashAppend(s: Endpoint, b: byte, t: Endpoint, acc: nat)
    requires 0 !in s && acc < TWO_32
    ensures b != 0 ==>
              HashFrom(s + [b], acc) == (31 * HashFrom(s, acc) + if b < 128 then b else b - 256) % TWO_32
    ensures HashFrom(s + [0] + t, acc) == HashFrom(s, acc)
    decreases s
  {
    if s == [] {
      assert s + [b] == [b] && [b][1..] == [] && s + [0] + t == [0] + t;
    } else {
      assert s[0] in s && forall c :: c in s[1..] ==> c in s;
      assert (s + [b])[0] == s[0] && (s + [b])[1..] == s[1..] + [b];
      assert (s + [0] + t)[0] == s[0] && (s + [0] + t)[1..] == s[1..] + [0] + t;
      var octet: int := s[0];
      HashAppend(s[1..], b, t, ((if octet >= 128 then octet - 256 else octet) + 31 * acc) % TWO_32);
    }
  }

  /**
    The thread of an endpoint is a hash modulo the size of the pool. In a pool of 2^32 it is the hash: 17 at
    first, then 31 times what it was plus the next signed char, modulo 2^32, and nothing after a NUL counts.
    */
  lemma {:induction false} ThreadIsHash(s: Endpoint, b: byte, t: Endpoint, pool: nat)
    requires 0 !in s && pool > 0
    ensures ThreadOf([], 0x1_0000_0000) == 17
    ensures b != 0 ==>
              ThreadOf(s + [b], 0x1_0000_0000) ==
              (31 * ThreadOf(s, 0x1_0000_0000) + if b < 128 then b else b - 256) % 0x1_0000_0000
    ensures ThreadOf(s + [0] + t, 0x1_0000_0000) == ThreadOf(s, 0x1_0000_0000)
    ensures ThreadOf(t, pool) == ThreadOf(t, 0x1_0000_0000) % pool
  {
    HashAppend(s, b, t, 17);
    HashInFullPool(s);
    HashInFullPool(s + [b]);
    HashInFullPool(s + [0] + t);
    HashInFullPool(t);
    hide ThreadOf, HashFrom;
  }

  lemma {:induction false} HashInFullPool(s: Endpoint)
    ensures ThreadOf(s, 0x1_0000_0000) == HashFrom(s, 17)
    ensures forall pool: nat :: pool > 0 ==> ThreadOf(s, pool) == HashFrom(s, 17) % pool
    ensures ThreadOf([], 0x1_0000_0000) == 17
  {
  }

  // ---------------------------------------------------------------- thread-local functions

  function Lookup(pending: map<Endpoint, seq<Request>>, ep: Endpoint): seq<Request> {
    if ep in pending then pending[ep] else []
  }

  function Filter(rs: seq<Request>, completed: set<Request>): (r: seq<Request>)
    ensures forall q :: q in r <==> q in rs && q !in completed
  {
    if rs == [] then []
    else if rs[0] in completed then Filter(rs[1..], completed)
    else [rs[0]] + Filter(rs[1..], completed)
  }

  function Cleaned(pending: map<Endpoint, seq<Request>>, completed: set<Request>): map<Endpoint, seq<Request>> {
    map ep | ep in pending :: Filter(pending[ep], completed)
  }

  /** When a bucket that is used up may be tried again: uint64_t arithmetic. */
  function Deadline(b: Bucket): nat {
    (b.timestamp + if b.retryAfter != 0 then b.retryAfter else b.resetAfter) % TWO_64
  }

  predicate MayRun(buckets: map<Endpoint, Bucket>, ep: Endpoint, now: nat) {
    ep in buckets && buckets[ep].remaining < 1 ==> now > Deadline(buckets[ep])
  }

  function BucketOf(run: Run): Bucket {
    Bucket(run.response.remaining, run.response.resetAfter, run.response.retryAfter, run.end)
  }

  // ---------------------------------------------------------------- steps

  datatype Step =
    | Tick(now: nat)
    | Post(request: Request)
    | Begin(t: nat, todo: Todo)         // copy of the pending map, in its iteration order
    | Start(t: nat)                     // run the next request of the first bucket
    | LeaveBucket(t: nat)               // it is exhausted, or its limit says wait
    | Finish(t: nat, response: Response)
    | CleanUp(t: nat)                   // erase the completed requests
    | Deliver                           // pop a response, call its handler

  /** `todo` lists the pending map: each key once, with its requests. */
  ghost predicate IsCopy(todo: Todo, pending: map<Endpoint, seq<Request>>) {
    && (forall i :: 0 <= i < |todo| ==> todo[i].0 in pending && todo[i].1 == pending[todo[i].0])
    && (forall i, j :: 0 <= i < j < |todo| ==> todo[i].0 != todo[j].0)
    && |todo| == |pending|
  }

  ghost predicate Enabled(s: State, step: Step) {
    match step
    case Tick(now) => now >= s.now
    case Post(r) => r !in s.posted && |s.threads| > 0
    case Begin(t, todo) =>
      t < |s.threads| && s.threads[t].phase.Idle? && s.threads[t].pending != map[] && IsCopy(todo, s.threads[t].pending)
    case Start(t) =>
      && t < |s.threads| && s.threads[t].phase.Scanning?
      && var todo := s.threads[t].phase.todo;
      && todo != [] && todo[0].1 != [] && MayRun(s.threads[t].buckets, todo[0].0, s.now)
    case LeaveBucket(t) =>
      && t < |s.threads| && s.threads[t].phase.Scanning?
      && var todo := s.threads[t].phase.todo;
      && todo != [] && (todo[0].1 == [] || !MayRun(s.threads[t].buckets, todo[0].0, s.now))
    case Finish(t, _) => t < |s.threads| && s.threads[t].phase.InFlight?
    case CleanUp(t) => t < |s.threads| && s.threads[t].phase == Scanning([])
    case Deliver => s.responses != []
  }

  function WithThread(s: State, t: nat, th: Thread): State
    requires t < |s.threads|
  {
    s.(threads := s.threads[t := th])
  }

  function PostedTo(th: Thread, r: Request): Thread {
    th.(pending := th.pending[r.endpoint := Lookup(th.pending, r.endpoint) + [r]])
  }

  ghost function Apply(s: State, step: Step): (s': State)
    requires Enabled(s, step)
  {
    match step
    case Tick(now) => s.(now := now)
    case Post(r) =>
      var t := ThreadOf(r.endpoint, |s.threads|);
      WithThread(s, t, PostedTo(s.threads[t], r)).(posted := s.posted + [r])
    case Begin(t, todo) => WithThread(s, t, s.threads[t].(phase := Scanning(todo)))
    case Start(t) =>
      var todo := s.threads[t].phase.todo;
      var (key, rs) := todo[0];
      WithThread(s, t, s.threads[t].(phase := InFlight(rs[0], s.now, [(key, rs[1..])] + todo[1..])))
    case LeaveBucket(t) => WithThread(s, t, s.threads[t].(phase := Scanning(s.threads[t].phase.todo[1..])))
    case Finish(t, response) =>
      var th := s.threads[t];
      var run := Run(th.phase.request, th.phase.start, s.now, response);
      WithThread(s, t, Thread(th.pending, th.buckets[run.request.endpoint := BucketOf(run)], Scanning(th.phase.todo)))
      .(completed := s.completed + {run.request}, finished := s.finished + [run],
        responses := s.responses + [run.request])
    case CleanUp(t) =>
      WithThread(s, t, s.threads[t].(pending := Cleaned(s.threads[t].pending, s.completed), phase := Idle))
    case Deliver => s.(responses := s.responses[1..], delivered := s.delivered + [s.responses[0]])
  }

  ghost predicate Initial(s: State) {
    && |s.threads| > 0 && s.completed == {}
    && s.posted == [] && s.finished == [] && s.responses == [] && s.delivered == []
    && forall t :: 0 <= t < |s.threads| ==> s.threads[t] == Thread(map[], map[], Idle)
  }

  // ---------------------------------------------------------------- the invariant

  /** The requests of one endpoint, in order. */
  function On(rs: seq<Request>, ep: Endpoint): (r: seq<Request>)
    ensures forall q :: q in r <==> q in rs && q.endpoint == ep
  {
    if rs == [] then [] else
    var front, last := rs[..|rs| - 1], rs[|rs| - 1];
    if last.endpoint == ep then On(front, ep) + [last] else On(front, ep)
  }

  function Requests(runs: seq<Run>): (r: seq<Request>) {
    seq(|runs|, i requires 0 <= i < |runs| => runs[i].request)
  }

  function PendingOn(s: State, ep: Endpoint): seq<Request>
    requires |s.threads| > 0
  {
    Lookup(s.threads[ThreadOf(ep, |s.threads|)].pending, ep)
  }

  /** Posted for the endpoint and not yet run, in order; a request in flight is the first. */
  function Waiting(s: State, ep: Endpoint): (r: seq<Request>)
    requires |s.threads| > 0
    ensures forall q :: q in r ==> q !in s.completed
  {
    Filter(PendingOn(s, ep), s.completed)
  }

  /** Last run on the endpoint. */
  ghost function LastRun(runs: seq<Run>, ep: Endpoint): Option<Run> {
    if runs == [] then None
    else if runs[|runs| - 1].request.endpoint == ep then Some(runs[|runs| - 1])
    else LastRun(runs[..|runs| - 1], ep)
  }

  /** A run started at `start` respects the response of the run before it on its endpoint. */
  ghost predicate Respects(last: Option<Run>, start: nat) {
    last.Some? && last.value.response.remaining < 1 ==> start > Deadline(BucketOf(last.value))
  }

  ghost predicate RateLimited(runs: seq<Run>) {
    forall k :: 0 <= k < |runs| ==> Respects(LastRun(runs[..k], runs[k].request.endpoint), runs[k].start)
  }

  /** Everything posted for the endpoint was run or waits, in posting order. */
  ghost predicate Fifo(s: State, ep: Endpoint)
    requires |s.threads| > 0
  {
    On(s.posted, ep) == On(Requests(s.finished), ep) + Waiting(s, ep)
  }

  ghost predicate PendingPlaced(s: State)
    requires |s.threads| > 0
  {
    forall t, ep :: 0 <= t < |s.threads| && ep in s.threads[t].pending ==>
      ThreadOf(ep, |s.threads|) == t && forall r :: r in s.threads[t].pending[ep] ==> r.endpoint == ep
  }

  /** The rest of a pass: each bucket's remaining requests are the first ones waiting for it. */
  ghost predicate TodoOk(s: State, t: nat, todo: Todo, inFlight: seq<Request>)
    requires |s.threads| > 0
  {
    && (forall i, j :: 0 <= i < j < |todo| ==> todo[i].0 != todo[j].0)
    && (forall i :: 0 <= i < |todo| ==>
          ThreadOf(todo[i].0, |s.threads|) == t
          && (if i == 0 then inFlight else []) + todo[i].1 <= Waiting(s, todo[i].0))
    && (inFlight != [] ==> todo != [])
  }

  ghost predicate PhaseOk(s: State, t: nat)
    requires t < |s.threads|
  {
    match s.threads[t].phase
    case Idle => forall ep :: ep in s.threads[t].pending ==>
        Filter(s.threads[t].pending[ep], s.completed) == s.threads[t].pending[ep]
    case Scanning(todo) => TodoOk(s, t, todo, [])
    case InFlight(r, start, todo) => TodoOk(s, t, todo, [r]) && Respects(LastRun(s.finished, r.endpoint), start)
  }

  ghost predicate BucketsOk(s: State, ep: Endpoint)
    requires |s.threads| > 0
  {
    var buckets := s.threads[ThreadOf(ep, |s.threads|)].buckets;
    var last := LastRun(s.finished, ep);
    if last.None? then ep !in buckets else ep in buckets && buckets[ep] == BucketOf(last.value)
  }

  ghost predicate Inv(s: State) {
    && |s.threads| > 0
    && Distinct(s.posted)
    && PendingPlaced(s)
    && (forall r :: r in s.completed <==> r in Requests(s.finished))
    && (forall ep :: Fifo(s, ep))
    && Requests(s.finished) == s.delivered + s.responses
    && (forall t :: 0 <= t < |s.threads| ==> PhaseOk(s, t))
    && (forall ep :: BucketsOk(s, ep))
    && RateLimited(s.finished)
  }

  // ---------------------------------------------------------------- what the invariant says

  lemma {:induction false} DistinctParts<T>(a: seq<T>, b: seq<T>)
    requires Distinct(a + b)
    ensures Distinct(a) && Distinct(b)
    ensures forall x :: x in a ==> x !in b
  {
    var s := a + b;
    forall i, j | 0 <= i < |a| && 0 <= j < |b| ensures a[i] != b[j] { assert s[i] != s[|a| + j]; }
    forall i, j | 0 <= i < j < |a| ensures a[i] != a[j] { assert s[i] != s[j]; }
    forall i, j | 0 <= i < j < |b| ensures b[i] != b[j] { assert s[|a| + i] != s[|a| + j]; }
  }

  lemma {:induction false} OnDistinct(rs: seq<Request>, ep: Endpoint)
    requires Distinct(rs)
    ensures Distinct(On(rs, ep))
    decreases |rs|
  {
    if rs != [] {
      var front, last := rs[..|rs| - 1], rs[|rs| - 1];
      OnDistinct(front, ep);
      assert last !in front;
    }
  }

  /** The runs of an endpoint, followed by what waits for it, are distinct. */
  lemma {:induction false} EndpointDistinct(s: State, ep: Endpoint)
    requires |s.threads| > 0 && Distinct(s.posted) && Fifo(s, ep)
    ensures Distinct(On(Requests(s.finished), ep)) && Distinct(Waiting(s, ep))
    ensures forall r :: r in Waiting(s, ep) ==> r !in On(Requests(s.finished), ep)
  {
    OnDistinct(s.posted, ep);
    DistinctParts(On(Requests(s.finished), ep), Waiting(s, ep));
  }

  /** Distinct on every endpoint, distinct altogether. */
  lemma {:induction false} DistinctFromEndpoints(rs: seq<Request>)
    requires forall r :: r in rs ==> Distinct(On(rs, r.endpoint))
    ensures Distinct(rs)
    decreases |rs|
  {
    if rs != [] {
      var front, last := rs[..|rs| - 1], rs[|rs| - 1];
      assert last in rs;
      DistinctParts(On(front, last.endpoint), [last]);
      forall r | r in front ensures Distinct(On(front, r.endpoint)) {
        assert r in rs;
        OnPrefix(front, rs, r.endpoint);
      }
      DistinctFromEndpoints(front);
      assert rs == front + [last];
    }
  }

  /** No request is run twice. */
  lemma {:induction false} RunsAreDistinct(s: State)
    requires Inv(s)
    ensures Distinct(Requests(s.finished))
  {
    forall r | r in Requests(s.finished) ensures Distinct(On(Requests(s.finished), r.endpoint)) {
      EndpointDistinct(s, r.endpoint);
    }
    DistinctFromEndpoints(Requests(s.finished));
  }

  lemma {:induction false} OnPrefix(a: seq<Request>, b: seq<Request>, ep: Endpoint)
    requires a <= b
    ensures On(a, ep) <= On(b, ep)
    decreases |b|
  {
    if |a| < |b| {
      OnPrefix(a, b[..|b| - 1], ep);
    } else {
      assert a == b;
    }
  }

  /** No handler is called twice, and handlers are called in the order the runs finished. */
  lemma {:induction false} CallbacksOnceInOrder(s: State)
    requires Inv(s)
    ensures Distinct(s.delivered) && s.delivered <= Requests(s.finished)
  {
    RunsAreDistinct(s);
    forall i, j | 0 <= i < j < |s.delivered| ensures s.delivered[i] != s.delivered[j] {
      assert s.delivered[i] == Requests(s.finished)[i] && s.delivered[j] == Requests(s.finished)[j];
    }
  }

  /** Posted exactly if waiting, in the response queue or delivered; and never two of these. */
  ghost predicate InOnePlace(s: State, r: Request)
    requires |s.threads| > 0
  {
    var waits := r in Waiting(s, r.endpoint);
    && (r in s.posted <==> waits || r in s.responses || r in s.delivered)
    && !(waits && r in s.responses) && !(waits && r in s.delivered) && !(r in s.responses && r in s.delivered)
  }

  /** Every posted request is in exactly one place: waiting, in the response queue, or delivered. */
  lemma {:induction false} ExactlyOnePlace(s: State, r: Request)
    requires Inv(s)
    ensures |s.threads| > 0 && InOnePlace(s, r)
  {
    EndpointDistinct(s, r.endpoint);
    RunsAreDistinct(s);
    DistinctParts(s.delivered, s.responses);
    assert r in On(s.posted, r.endpoint) <==> r in On(Requests(s.finished), r.endpoint) || r in Waiting(s, r.endpoint);
    assert r in Requests(s.finished) <==> r in s.delivered || r in s.responses;
  }

  /** Requests of one endpoint are run in posting order. */
  lemma {:induction false} RunsInPostOrder(s: State, ep: Endpoint)
    requires Inv(s)
    ensures On(Requests(s.finished), ep) <= On(s.posted, ep)
  {
    assert Fifo(s, ep);
  }

  /**
    Rate limiting over the whole history: after a response with nothing remaining, the next run of
    the endpoint started strictly after the response's time plus its retry or reset time.
    */
  lemma {:induction false} WaitsForTheLimit(s: State, j: nat, k: nat)
    requires Inv(s) && IsNextRun(s.finished, j, k) && s.finished[j].response.remaining < 1
    ensures Waited(s.finished[j], s.finished[k])
  {
    LastRunIs(s.finished[..k], j, s.finished[k].request.endpoint);
    assert Respects(LastRun(s.finished[..k], s.finished[k].request.endpoint), s.finished[k].start);
  }

  /** Run k is the first one after run j on the same endpoint. */
  ghost predicate IsNextRun(runs: seq<Run>, j: nat, k: nat) {
    && j < k < |runs| && runs[j].request.endpoint == runs[k].request.endpoint
    && forall i :: j < i < k ==> runs[i].request.endpoint != runs[k].request.endpoint
  }

  /** The second run started only after the first one's response allowed it; the sum is a uint64_t. */
  predicate Waited(first: Run, second: Run) {
    var r := first.response;
    var wait := if r.retryAfter != 0 then r.retryAfter else r.resetAfter;
    && second.start > (first.end + wait) % TWO_64
    && (first.end + wait < TWO_64 ==> second.start > first.end + wait)
  }

  /** Whenever a run's response left nothing, the endpoint's next run waited. */
  ghost predicate LimitsKept(runs: seq<Run>) {
    forall j: nat, k: nat :: IsNextRun(runs, j, k) && runs[j].response.remaining < 1 ==> Waited(runs[j], runs[k])
  }

  lemma {:induction false} EveryLimitKept(s: State)
    requires Inv(s)
    ensures LimitsKept(s.finished)
  {
    hide Inv, Waited;
    forall j: nat, k: nat | IsNextRun(s.finished, j, k) && s.finished[j].response.remaining < 1
      ensures Waited(s.finished[j], s.finished[k])
    {
      WaitsForTheLimit(s, j, k);
    }
  }

  lemma {:induction false} LastRunIs(runs: seq<Run>, j: nat, ep: Endpoint)
    requires j < |runs| && runs[j].request.endpoint == ep
    requires forall i :: j < i < |runs| ==> runs[i].request.endpoint != ep
    ensures LastRun(runs, ep) == Some(runs[j])
    decreases |runs|
  {
    if j < |runs| - 1 { LastRunIs(runs[..|runs| - 1], j, ep); }
  }

  // ---------------------------------------------------------------- every step keeps it

  lemma {:induction false} FilterAppend(a: seq<Request>, b: seq<Request>, c: set<Request>)
    ensures Filter(a + b, c) == Filter(a, c) + Filter(b, c)
    decreases |a|
  {
    if a == [] {
      assert a + b == b;
    } else {
      FilterAppend(a[1..], b, c);
      assert (a + b)[1..] == a[1..] + b;
      assert [a[0]] + (Filter(a[1..], c) + Filter(b, c)) == ([a[0]] + Filter(a[1..], c)) + Filter(b, c);
    }
  }

  lemma {:induction false} FilterTwice(rs: seq<Request>, c: set<Request>)
    ensures Filter(Filter(rs, c), c) == Filter(rs, c)
    decreases |rs|
  {
    if rs != [] {
      var tail := Filter(rs[1..], c);
      FilterTwice(rs[1..], c);
      assert ([rs[0]] + tail)[1..] == tail;
    }
  }

  /** A request that is not there changes nothing when it completes. */
  lemma {:induction false} FilterOther(rs: seq<Request>, c: set<Request>, x: Request)
    requires x !in rs
    ensures Filter(rs, c + {x}) == Filter(rs, c)
    decreases |rs|
  {
    if rs != [] { FilterOther(rs[1..], c, x); }
  }

  /** When the first waiting request completes, the rest wait. */
  lemma {:induction false} FilterHead(rs: seq<Request>, c: set<Request>, x: Request, rest: seq<Request>)
    requires Filter(rs, c) == [x] + rest && x !in rest
    ensures Filter(rs, c + {x}) == rest
    decreases |rs|
  {
    var tail := rs[1..];
    if rs[0] in c {
      FilterHead(tail, c, x, rest);
    } else {
      assert ([x] + rest)[1..] == rest;
      assert rs[0] == x && Filter(tail, c) == rest;
      FilterGone(tail, c, x);
    }
  }

  lemma {:induction false} FilterGone(rs: seq<Request>, c: set<Request>, x: Request)
    requires x !in Filter(rs, c)
    ensures Filter(rs, c + {x}) == Filter(rs, c)
    decreases |rs|
  {
    if rs != [] { FilterGone(rs[1..], c, x); }
  }

  /** Replacing one thread by one whose requests stand in the right place. */
  lemma {:induction false} PlacedFrame(s: State, s': State, t: nat)
    requires |s.threads| > 0 && t < |s.threads| == |s'.threads| && PendingPlaced(s)
    requires forall u :: 0 <= u < |s.threads| && u != t ==> s'.threads[u].pending == s.threads[u].pending
    requires forall ep :: ep in s'.threads[t].pending ==>
               ThreadOf(ep, |s.threads|) == t && forall r :: r in s'.threads[t].pending[ep] ==> r.endpoint == ep
    ensures PendingPlaced(s')
  {
    hide HashFrom, ThreadOf;
    forall u, ep | 0 <= u < |s.threads| && ep in s'.threads[u].pending
      ensures ThreadOf(ep, |s.threads|) == u && forall r :: r in s'.threads[u].pending[ep] ==> r.endpoint == ep
    {
      if u != t { assert ep in s.threads[u].pending; }
    }
  }

  /** A thread whose own queues did not shrink and whose last runs did not change stays in order. */
  lemma {:induction false} PhaseFrame(s: State, s': State, t: nat)
    requires |s.threads| == |s'.threads| && t < |s.threads| && PhaseOk(s, t)
    requires s'.threads[t].phase == s.threads[t].phase
    requires s.threads[t].phase.Idle? ==>
               forall ep :: ep in s'.threads[t].pending ==>
                   Filter(s'.threads[t].pending[ep], s'.completed) == s'.threads[t].pending[ep]
    requires forall ep :: ThreadOf(ep, |s.threads|) == t ==> Waiting(s, ep) <= Waiting(s', ep)
    requires forall r: Request :: ThreadOf(r.endpoint, |s.threads|) == t ==>
        LastRun(s'.finished, r.endpoint) == LastRun(s.finished, r.endpoint)
    requires forall r, start, todo :: s.threads[t].phase == InFlight(r, start, todo) ==>
        ThreadOf(r.endpoint, |s.threads|) == t
    ensures PhaseOk(s', t)
  {
    hide Filter, LastRun, Waiting, HashFrom;
  }

  /** A request in flight belongs to its thread and to the bucket it was taken from. */
  lemma {:induction false} InFlightPlaced(s: State, t: nat)
    requires Inv(s) && t < |s.threads| && s.threads[t].phase.InFlight?
    ensures var r, todo := s.threads[t].phase.request, s.threads[t].phase.todo;
            && todo != [] && r.endpoint == todo[0].0 && ThreadOf(r.endpoint, |s.threads|) == t
            && Waiting(s, r.endpoint) != [] && Waiting(s, r.endpoint)[0] == r
  {
    hide HashFrom, LastRun;
    assert PhaseOk(s, t);
    var r, todo := s.threads[t].phase.request, s.threads[t].phase.todo;
    assert ([r] + todo[0].1)[0] == r;
    assert Waiting(s, todo[0].0)[0] == r && r in Waiting(s, todo[0].0) && r in PendingOn(s, todo[0].0);
  }

  lemma {:induction false} InitialInv(s: State)
    requires Initial(s)
    ensures Inv(s)
  {
    hide HashFrom;
    forall ep ensures Fifo(s, ep) && BucketsOk(s, ep) {
      assert s.threads[ThreadOf(ep, |s.threads|)] == Thread(map[], map[], Idle);
      assert Requests(s.finished) == [];
    }
  }

  /** The queues after a post: the endpoint's grew by the request, the others are as before. */
  lemma {:induction false} PostQueues(s: State, r: Request, ep: Endpoint)
    requires Inv(s) && Enabled(s, Post(r))
    ensures var s' := Apply(s, Post(r));
            && PendingOn(s', ep) == (if ep == r.endpoint then PendingOn(s, ep) + [r] else PendingOn(s, ep))
            && Waiting(s', ep) == (if ep == r.endpoint then Waiting(s, ep) + [r] else Waiting(s, ep))
            && Fifo(s', ep) && BucketsOk(s', ep)
  {
    hide HashFrom, ThreadOf, LastRun, RateLimited, Filter, On;
    var s' := Apply(s, Post(r));
    assert Fifo(s, ep) && BucketsOk(s, ep) && Fifo(s, r.endpoint);
    assert r in s.completed ==> r in On(s.posted, r.endpoint);
    OnAppend(s.posted, r, ep);
    FilterAppend(PendingOn(s, ep), [r], s.completed);
    FilterSingle(r, s.completed);
    var runs := On(Requests(s.finished), ep);
    assert runs + (Waiting(s, ep) + [r]) == (runs + Waiting(s, ep)) + [r];
  }

  lemma {:induction false} FilterSingle(r: Request, c: set<Request>)
    requires r !in c
    ensures Filter([r], c) == [r]
  {
    assert [r][1..] == [];
  }

  lemma {:induction false} PostKeeps(s: State, r: Request)
    requires Inv(s) && Enabled(s, Post(r))
    ensures Inv(Apply(s, Post(r)))
  {
    hide HashFrom, ThreadOf, LastRun, RateLimited, Filter, On;
    var s' := Apply(s, Post(r));
    var t := ThreadOf(r.endpoint, |s.threads|);
    forall ep | ep in s'.threads[t].pending
      ensures ThreadOf(ep, |s.threads|) == t && forall q :: q in s'.threads[t].pending[ep] ==> q.endpoint == ep
    {
      if ep in s.threads[t].pending { assert ThreadOf(ep, |s.threads|) == t; }
    }
    PlacedFrame(s, s', t);
    forall ep
      ensures Fifo(s', ep) && BucketsOk(s', ep)
      ensures Waiting(s', ep) == if ep == r.endpoint then Waiting(s, ep) + [r] else Waiting(s, ep)
    {
      PostQueues(s, r, ep);
    }
    forall u | 0 <= u < |s.threads| ensures PhaseOk(s', u) { PostPhases(s, r, u); }
  }

  lemma {:induction false} EmptyFilter(c: set<Request>)
    ensures Filter([], c) == []
  {
  }

  lemma {:induction false} PostPhases(s: State, r: Request, u: nat)
    requires Inv(s) && Enabled(s, Post(r)) && u < |s.threads|
    ensures PhaseOk(Apply(s, Post(r)), u)
  {
    hide HashFrom, ThreadOf, LastRun, RateLimited, Filter, On;
    var s' := Apply(s, Post(r));
    assert PhaseOk(s, u);
    forall ep ensures Waiting(s, ep) <= Waiting(s', ep) { PostQueues(s, r, ep); }
    forall ep | ep in s'.threads[u].pending && s.threads[u].phase.Idle?
      ensures Filter(s'.threads[u].pending[ep], s'.completed) == s'.threads[u].pending[ep]
    {
      PostQueues(s, r, ep);
      if ep in s.threads[u].pending { assert ThreadOf(ep, |s.threads|) == u; }
      assert ThreadOf(ep, |s.threads|) == u;
      EmptyFilter(s.completed);
    }
    if s.threads[u].phase.InFlight? { InFlightPlaced(s, u); }
    PhaseFrame(s, s', u);
  }

  /** Changing one thread's phase only. */
  lemma {:induction false} PhaseStepKeeps(s: State, t: nat, phase: Phase)
    requires Inv(s) && t < |s.threads|
    requires PhaseOk(WithThread(s, t, s.threads[t].(phase := phase)), t)
    ensures Inv(WithThread(s, t, s.threads[t].(phase := phase)))
  {
    hide HashFrom, LastRun, RateLimited, Filter, On;
    var s' := WithThread(s, t, s.threads[t].(phase := phase));
    forall ep | ep in s'.threads[t].pending
      ensures ThreadOf(ep, |s.threads|) == t && forall r :: r in s'.threads[t].pending[ep] ==> r.endpoint == ep
    {
      assert ep in s.threads[t].pending;
    }
    PlacedFrame(s, s', t);
    forall ep ensures Waiting(s', ep) == Waiting(s, ep) && Fifo(s', ep) && BucketsOk(s', ep) {
      assert Fifo(s, ep) && BucketsOk(s, ep);
    }
    forall u | 0 <= u < |s.threads| ensures PhaseOk(s', u) {
      if u != t {
        assert PhaseOk(s, u);
        if s.threads[u].phase.InFlight? { InFlightPlaced(s, u); }
        PhaseFrame(s, s', u);
      }
    }
  }

  lemma {:induction false} BeginKeeps(s: State, t: nat, todo: Todo)
    requires Inv(s) && Enabled(s, Begin(t, todo))
    ensures Inv(Apply(s, Begin(t, todo)))
  {
    hide HashFrom, LastRun, RateLimited, On;
    var s' := Apply(s, Begin(t, todo));
    assert PhaseOk(s, t);
    forall i | 0 <= i < |todo|
      ensures ThreadOf(todo[i].0, |s.threads|) == t && [] + todo[i].1 <= Waiting(s', todo[i].0)
    {
      assert [] + todo[i].1 == todo[i].1 == Waiting(s', todo[i].0);
    }
    PhaseStepKeeps(s, t, Scanning(todo));
  }

  lemma {:induction false} StartKeeps(s: State, t: nat)
    requires Inv(s) && Enabled(s, Start(t))
    ensures Inv(Apply(s, Start(t)))
  {
    var todo := s.threads[t].phase.todo;
    var (key, rs) := todo[0];
    var phase := InFlight(rs[0], s.now, [(key, rs[1..])] + todo[1..]);
    StartedIsHead(s, t);
    StartedTodo(s, t, todo, phase);
    hide Inv, TodoOk, HashFrom;
    PhaseStepKeeps(s, t, phase);
  }

  lemma {:induction false} StartedTodo(s: State, t: nat, todo: Todo, phase: Phase)
    requires t < |s.threads| && todo != [] && todo[0].1 != [] && TodoOk(s, t, todo, [])
    requires phase == InFlight(todo[0].1[0], s.now, [(todo[0].0, todo[0].1[1..])] + todo[1..])
    ensures TodoOk(WithThread(s, t, s.threads[t].(phase := phase)), t, phase.todo, [phase.request])
  {
    hide HashFrom, ThreadOf, Waiting;
    var s' := WithThread(s, t, s.threads[t].(phase := phase));
    var rs := todo[0].1;
    assert [] + rs == rs && [rs[0]] + rs[1..] == rs;
    forall i | 0 <= i < |phase.todo|
      ensures ThreadOf(phase.todo[i].0, |s.threads|) == t
      ensures (if i == 0 then [rs[0]] else []) + phase.todo[i].1 <= Waiting(s', phase.todo[i].0)
    {
      SameWaiting(s, t, phase, phase.todo[i].0);
      if i > 0 { assert phase.todo[i] == todo[i]; }
    }
    assert forall i :: 0 <= i < |todo| ==> phase.todo[i].0 == todo[i].0;
  }

  /** The request to be started is the first that waits for its endpoint, and its bucket allows it. */
  lemma {:induction false} StartedIsHead(s: State, t: nat)
    requires Inv(s) && Enabled(s, Start(t))
    ensures var todo := s.threads[t].phase.todo;
            && TodoOk(s, t, todo, []) && todo[0].1[0].endpoint == todo[0].0
            && Respects(LastRun(s.finished, todo[0].0), s.now)
  {
    hide HashFrom, ThreadOf, LastRun, RateLimited, On, Filter;
    var todo := s.threads[t].phase.todo;
    var key, rs := todo[0].0, todo[0].1;
    assert PhaseOk(s, t) && [] + rs == rs;
    assert Waiting(s, key)[0] == rs[0] && rs[0] in Waiting(s, key) && rs[0] in PendingOn(s, key);
    assert rs[0].endpoint == key && BucketsOk(s, key);
  }

  /** A thread's phase does not enter into what waits. */
  lemma {:induction false} SameWaiting(s: State, t: nat, phase: Phase, ep: Endpoint)
    requires |s.threads| > 0 && t < |s.threads|
    ensures Waiting(WithThread(s, t, s.threads[t].(phase := phase)), ep) == Waiting(s, ep)
  {
    hide HashFrom, ThreadOf, Filter;
  }

  lemma {:induction false} LeaveBucketKeeps(s: State, t: nat)
    requires Inv(s) && Enabled(s, LeaveBucket(t))
    ensures Inv(Apply(s, LeaveBucket(t)))
  {
    hide HashFrom, LastRun, RateLimited, On, Filter;
    assert PhaseOk(s, t);
    PhaseStepKeeps(s, t, Scanning(s.threads[t].phase.todo[1..]));
  }

  lemma {:induction false} CleanUpKeeps(s: State, t: nat)
    requires Inv(s) && Enabled(s, CleanUp(t))
    ensures Inv(Apply(s, CleanUp(t)))
  {
    hide HashFrom, ThreadOf, LastRun, RateLimited, On, Filter, Waiting, PhaseOk;
    var s' := Apply(s, CleanUp(t));
    forall ep | ep in s'.threads[t].pending
      ensures ThreadOf(ep, |s.threads|) == t && forall r :: r in s'.threads[t].pending[ep] ==> r.endpoint == ep
    {
      assert ep in s.threads[t].pending && s'.threads[t].pending[ep] == Filter(s.threads[t].pending[ep], s.completed);
    }
    PlacedFrame(s, s', t);
    forall ep ensures Fifo(s', ep) && BucketsOk(s', ep) {
      assert Fifo(s, ep) && BucketsOk(s, ep);
      CleanUpQueues(s, t, ep);
    }
    forall u | 0 <= u < |s.threads| ensures PhaseOk(s', u) { CleanUpPhases(s, t, u); }
  }

  lemma {:induction false} CleanUpQueues(s: State, t: nat, ep: Endpoint)
    requires Inv(s) && Enabled(s, CleanUp(t))
    ensures Waiting(Apply(s, CleanUp(t)), ep) == Waiting(s, ep)
  {
    hide HashFrom, ThreadOf, LastRun, RateLimited, On, Filter;
    FilterTwice(PendingOn(s, ep), s.completed);
    EmptyFilter(s.completed);
  }

  lemma {:induction false} CleanUpPhases(s: State, t: nat, u: nat)
    requires Inv(s) && Enabled(s, CleanUp(t)) && u < |s.threads|
    ensures PhaseOk(Apply(s, CleanUp(t)), u)
  {
    hide HashFrom, ThreadOf, LastRun, RateLimited, On, Filter, Waiting;
    var s' := Apply(s, CleanUp(t));
    assert PhaseOk(s, u);
    if u != t {
      if s.threads[u].phase.InFlight? { InFlightPlaced(s, u); }
      forall ep ensures Waiting(s', ep) == Waiting(s, ep) { CleanUpQueues(s, t, ep); }
      PhaseFrame(s, s', u);
    } else {
      forall ep | ep in s'.threads[t].pending
        ensures Filter(s'.threads[t].pending[ep], s'.completed) == s'.threads[t].pending[ep]
      {
        FilterTwice(s.threads[t].pending[ep], s.completed);
      }
    }
  }

  /** The queues after a run of `r` was booked: its endpoint's queue lost its head, the others are as before. */
  lemma {:induction false} FinishQueues(s: State, t: nat, response: Response, ep: Endpoint)
    requires Inv(s) && Enabled(s, Finish(t, response))
    ensures var s', r := Apply(s, Finish(t, response)), s.threads[t].phase.request;
            && (ep == r.endpoint ==> Waiting(s, ep) != [])
            && Waiting(s', ep) == (if ep == r.endpoint then Waiting(s, ep)[1..] else Waiting(s, ep))
            && Fifo(s', ep)
            && LastRun(s'.finished, ep)
               == (if ep == r.endpoint then Some(s'.finished[|s.finished|]) else LastRun(s.finished, ep))
  {
    hide HashFrom, ThreadOf, RateLimited, Filter, On, Waiting;
    var s', r := Apply(s, Finish(t, response)), s.threads[t].phase.request;
    assert Fifo(s, ep) && s'.finished[..|s.finished|] == s.finished && s'.posted == s.posted;
    assert Requests(s'.finished) == Requests(s.finished) + [r];
    OnAppend(Requests(s.finished), r, ep);
    if ep == r.endpoint {
      FinishOwnQueue(s, t, response);
      var w := Waiting(s, ep);
      assert On(Requests(s.finished), ep) + w == (On(Requests(s.finished), ep) + [r]) + w[1..];
    } else {
      FinishOtherQueue(s, t, response, ep);
    }
  }

  lemma {:induction false} FinishOwnQueue(s: State, t: nat, response: Response)
    requires Inv(s) && Enabled(s, Finish(t, response))
    ensures var s', r := Apply(s, Finish(t, response)), s.threads[t].phase.request;
            var w := Waiting(s, r.endpoint);
            w != [] && w[0] == r && Waiting(s', r.endpoint) == w[1..]
  {
    hide HashFrom, ThreadOf, RateLimited, Filter, On;
    var s', r := Apply(s, Finish(t, response)), s.threads[t].phase.request;
    InFlightPlaced(s, t);
    EndpointDistinct(s, r.endpoint);
    var w := Waiting(s, r.endpoint);
    assert w == [r] + w[1..];
    DistinctParts([r], w[1..]);
    FilterHead(PendingOn(s, r.endpoint), s.completed, r, w[1..]);
    assert PendingOn(s', r.endpoint) == PendingOn(s, r.endpoint);
  }

  lemma {:induction false} FinishOtherQueue(s: State, t: nat, response: Response, ep: Endpoint)
    requires Inv(s) && Enabled(s, Finish(t, response)) && ep != s.threads[t].phase.request.endpoint
    ensures Waiting(Apply(s, Finish(t, response)), ep) == Waiting(s, ep)
  {
    hide HashFrom, ThreadOf, RateLimited, Filter, On;
    assert PendingOn(Apply(s, Finish(t, response)), ep) == PendingOn(s, ep);
    PendingIsOwn(s, ep);
    FilterOther(PendingOn(s, ep), s.completed, s.threads[t].phase.request);
  }

  lemma {:induction false} OnAppend(rs: seq<Request>, r: Request, ep: Endpoint)
    ensures On(rs + [r], ep) == if r.endpoint == ep then On(rs, ep) + [r] else On(rs, ep)
  {
    assert (rs + [r])[..|rs|] == rs;
  }

  lemma {:induction false} PendingIsOwn(s: State, ep: Endpoint)
    requires |s.threads| > 0 && PendingPlaced(s)
    ensures forall r :: r in PendingOn(s, ep) ==> r.endpoint == ep
  {
    hide HashFrom;
  }

  lemma {:induction false} FinishPhases(s: State, t: nat, response: Response, u: nat)
    requires Inv(s) && Enabled(s, Finish(t, response)) && u < |s.threads|
    ensures PhaseOk(Apply(s, Finish(t, response)), u)
  {
    hide HashFrom, RateLimited, LastRun, On;
    var s', r := Apply(s, Finish(t, response)), s.threads[t].phase.request;
    InFlightPlaced(s, t);
    assert PhaseOk(s, u) && PhaseOk(s, t);
    forall ep ensures Waiting(s', ep) == if ep == r.endpoint then Waiting(s, ep)[1..] else Waiting(s, ep) {
      FinishQueues(s, t, response, ep);
    }
    if u == t {
      var todo := s.threads[t].phase.todo;
      forall i | 0 <= i < |todo| ensures [] + todo[i].1 <= Waiting(s', todo[i].0) {
        assert [] + todo[i].1 == todo[i].1;
        if i == 0 {
          assert ([r] + todo[0].1)[1..] == todo[0].1;
        } else {
          assert todo[i].0 != todo[0].0;
        }
      }
    } else {
      forall q: Request | ThreadOf(q.endpoint, |s.threads|) == u
        ensures LastRun(s'.finished, q.endpoint) == LastRun(s.finished, q.endpoint)
      {
        FinishQueues(s, t, response, q.endpoint);
      }
      forall ep | ep in s'.threads[u].pending && s.threads[u].phase.Idle?
        ensures Filter(s'.threads[u].pending[ep], s'.completed) == s'.threads[u].pending[ep]
      {
        assert s'.threads[u] == s.threads[u] && ep in s.threads[u].pending && ThreadOf(ep, |s.threads|) == u;
        assert forall q :: q in s.threads[u].pending[ep] ==> q.endpoint == ep;
        FilterOther(s.threads[u].pending[ep], s.completed, r);
      }
      if s.threads[u].phase.InFlight? { InFlightPlaced(s, u); }
      PhaseFrame(s, s', u);
    }
  }

  lemma {:induction false} RateLimitedAppend(runs: seq<Run>, run: Run)
    requires RateLimited(runs) && Respects(LastRun(runs, run.request.endpoint), run.start)
    ensures RateLimited(runs + [run])
  {
    hide LastRun;
    var all := runs + [run];
    forall k | 0 <= k < |all| ensures Respects(LastRun(all[..k], all[k].request.endpoint), all[k].start) {
      if k < |runs| {
        assert all[..k] == runs[..k] && all[k] == runs[k];
      } else {
        assert all[..k] == runs;
      }
    }
  }

  lemma {:induction false} FinishKeeps(s: State, t: nat, response: Response)
    requires Inv(s) && Enabled(s, Finish(t, response))
    ensures Inv(Apply(s, Finish(t, response)))
  {
    hide HashFrom, LastRun, On, Filter, RateLimited;
    var s', r := Apply(s, Finish(t, response)), s.threads[t].phase.request;
    InFlightPlaced(s, t);
    assert PhaseOk(s, t);
    forall ep | ep in s'.threads[t].pending
      ensures ThreadOf(ep, |s.threads|) == t && forall q :: q in s'.threads[t].pending[ep] ==> q.endpoint == ep
    {
      assert ep in s.threads[t].pending;
    }
    PlacedFrame(s, s', t);
    assert Requests(s'.finished) == Requests(s.finished) + [r];
    assert s.delivered + (s.responses + [r]) == (s.delivered + s.responses) + [r];
    forall ep ensures Fifo(s', ep) && BucketsOk(s', ep) {
      FinishQueues(s, t, response, ep);
      assert BucketsOk(s, ep);
    }
    forall u | 0 <= u < |s.threads| ensures PhaseOk(s', u) { FinishPhases(s, t, response, u); }
    RateLimitedAppend(s.finished, s'.finished[|s.finished|]);
  }

  lemma {:induction false} DeliverKeeps(s: State)
    requires Inv(s) && Enabled(s, Deliver)
    ensures Inv(Apply(s, Deliver))
  {
    hide HashFrom, LastRun, On, Filter, RateLimited;
    var s' := Apply(s, Deliver);
    assert s.delivered + s.responses == (s.delivered + [s.responses[0]]) + s.responses[1..];
    FrameKeeps(s, s');
  }

  /** Nothing but the clock and the response queue changed. */
  lemma {:induction false} FrameKeeps(s: State, s': State)
    requires Inv(s) && s'.threads == s.threads && s'.completed == s.completed
    requires s'.posted == s.posted && s'.finished == s.finished
    requires s'.delivered + s'.responses == s.delivered + s.responses
    ensures Inv(s')
  {
    hide HashFrom, LastRun, On, Filter, RateLimited;
    forall ep
      ensures Waiting(s', ep) == Waiting(s, ep) && Fifo(s', ep) && BucketsOk(s', ep)
    {
      assert Fifo(s, ep) && BucketsOk(s, ep);
    }
    forall t | 0 <= t < |s.threads| ensures PhaseOk(s', t) {
      assert PhaseOk(s, t);
      if s.threads[t].phase.InFlight? { InFlightPlaced(s, t); }
      PhaseFrame(s, s', t);
    }
  }

  lemma {:induction false} StepKeeps(s: State, step: Step)
    requires Inv(s) && Enabled(s, step)
    ensures Inv(Apply(s, step))
  {
    hide Inv, HashFrom, LastRun, On, Filter, RateLimited;
    match step
    case Tick(now) => FrameKeeps(s, Apply(s, step));
    case Post(r) => PostKeeps(s, r);
    case Begin(t, todo) => BeginKeeps(s, t, todo);
    case Start(t) => StartKeeps(s, t);
    case LeaveBucket(t) => LeaveBucketKeeps(s, t);
    case Finish(t, response) => FinishKeeps(s, t, response);
    case CleanUp(t) => CleanUpKeeps(s, t);
    case Deliver => DeliverKeeps(s);
  }

  // ---------------------------------------------------------------- all runs

  /** An interleaving: states joined by enabled steps, from an initial one. */
  ghost predicate IsExecution(states: seq<State>, steps: seq<Step>) {
    && |states| == |steps| + 1 && Initial(states[0])
    && forall i :: 0 <= i < |steps| ==> Enabled(states[i], steps[i]) && states[i + 1] == Apply(states[i], steps[i])
  }

  lemma {:induction false} ExecutionInv(states: seq<State>, steps: seq<Step>, i: nat)
    requires IsExecution(states, steps) && i < |states|
    ensures Inv(states[i])
  {
    hide Inv, Apply, Enabled;
    if i == 0 {
      InitialInv(states[0]);
    } else {
      ExecutionInv(states, steps, i - 1);
      StepKeeps(states[i - 1], steps[i - 1]);
    }
  }

  /**
    The queue's guarantees in every state of every interleaving: nothing is run twice, no handler is
    called twice, each endpoint's requests run in posting order, every posted request is in exactly
    one place, and an exhausted endpoint waits for its limit.
    */
  lemma {:induction false} QueueGuarantees(states: seq<State>, steps: seq<Step>, i: nat)
    requires IsExecution(states, steps) && i < |states|
    ensures var s := states[i];
            && |s.threads| > 0
            && Distinct(Requests(s.finished)) && Distinct(s.delivered)
            && s.delivered <= Requests(s.finished)
            && (forall ep :: On(Requests(s.finished), ep) <= On(s.posted, ep))
            && (forall r: Request :: InOnePlace(s, r))
            && LimitsKept(s.finished)
  {
    hide Inv, IsExecution, HashFrom, On, Filter, LimitsKept;
    ExecutionInv(states, steps, i);
    var s := states[i];
    HasThreads(s);
    RunsAreDistinct(s);
    CallbacksOnceInOrder(s);
    forall ep ensures On(Requests(s.finished), ep) <= On(s.posted, ep) { RunsInPostOrder(s, ep); }
    forall r: Request ensures InOnePlace(s, r) { ExactlyOnePlace(s, r); }
    EveryLimitKept(s);
  }

  lemma {:induction false} HasThreads(s: State)
    requires Inv(s)
    ensures |s.threads| > 0
  {
  }

  // ---------------------------------------------------------------- when a request may run

  /** Run k is the last one on the endpoint. */
  ghost predicate IsLastRun(runs: seq<Run>, k: nat, ep: Endpoint) {
    k < |runs| && runs[k].request.endpoint == ep && forall i :: k < i < |runs| ==> runs[i].request.endpoint != ep
  }

  ghost predicate NeverRun(runs: seq<Run>, ep: Endpoint) {
    forall i :: 0 <= i < |runs| ==> runs[i].request.endpoint != ep
  }

  /** The clock is past the run's end plus its wait; the sum is a uint64_t. */
  predicate WaitIsOver(run: Run, now: nat) {
    var r := run.response;
    now > (run.end + if r.retryAfter != 0 then r.retryAfter else r.resetAfter) % 0x1_0000_0000_0000_0000
  }

  /** A thread that has turned to an endpoint and has a request for it. */
  ghost predicate AtRequest(s: State, t: nat, r: Request) {
    && t < |s.threads| && s.threads[t].phase.Scanning?
    && var todo := s.threads[t].phase.todo;
    && todo != [] && todo[0].1 != [] && todo[0].1[0] == r
  }

  /**
    When the next request runs, by what happened before: exactly if its endpoint was never run, or its
    last run left something, or that run's wait is over. Otherwise the thread goes on to the next endpoint.
    */
  lemma {:induction false} StartEnabledIff(states: seq<State>, steps: seq<Step>, i: nat, t: nat, r: Request)
    requires IsExecution(states, steps) && i < |states| && AtRequest(states[i], t, r)
    ensures var s := states[i];
            var runs, ep := s.finished, r.endpoint;
            && (Enabled(s, Start(t)) <==>
                NeverRun(runs, ep)
                || exists k: nat :: IsLastRun(runs, k, ep)
                                    && (runs[k].response.remaining >= 1 || WaitIsOver(runs[k], s.now)))
            && (Enabled(s, LeaveBucket(t)) <==> !Enabled(s, Start(t)))
  {
    hide IsExecution, Inv, IsLastRun, NeverRun, WaitIsOver;
    ExecutionInv(states, steps, i);
    var s := states[i];
    HeadBucket(s, t);
    LastRunIff(s.finished, r.endpoint);
    forall k: nat | IsLastRun(s.finished, k, r.endpoint)
      ensures k < |s.finished|
      ensures LastRun(s.finished, r.endpoint) == Some(s.finished[k])
      ensures WaitIsOver(s.finished[k], s.now) <==> s.now > Deadline(BucketOf(s.finished[k]))
    {
      LastRunByIndex(s.finished, k, r.endpoint);
      OverIsDeadline(s.finished[k], s.now);
    }
  }

  /** The bucket a thread looks at is the one of the request's endpoint, and mirrors its last run. */
  lemma {:induction false} HeadBucket(s: State, t: nat)
    requires Inv(s) && t < |s.threads| && s.threads[t].phase.Scanning?
    requires s.threads[t].phase.todo != [] && s.threads[t].phase.todo[0].1 != []
    ensures var (key, rs) := s.threads[t].phase.todo[0];
            var last := LastRun(s.finished, key);
            && rs[0].endpoint == key
            && (MayRun(s.threads[t].buckets, key, s.now) <==>
                last.None? || last.value.response.remaining >= 1 || s.now > Deadline(BucketOf(last.value)))
  {
    hide HashFrom, ThreadOf, LastRun, RateLimited, On, Filter;
    var todo := s.threads[t].phase.todo;
    var key, rs := todo[0].0, todo[0].1;
    assert PhaseOk(s, t) && [] + rs == rs;
    assert Waiting(s, key)[0] == rs[0] && rs[0] in Waiting(s, key) && rs[0] in PendingOn(s, key);
    assert rs[0].endpoint == key && BucketsOk(s, key);
  }

  lemma {:induction false} OverIsDeadline(run: Run, now: nat)
    ensures WaitIsOver(run, now) <==> now > Deadline(BucketOf(run))
  {
  }

  lemma {:induction false} LastRunByIndex(runs: seq<Run>, k: nat, ep: Endpoint)
    requires IsLastRun(runs, k, ep)
    ensures k < |runs| && LastRun(runs, ep) == Some(runs[k])
  {
    LastRunIs(runs, k, ep);
  }

  lemma {:induction false} LastRunIff(runs: seq<Run>, ep: Endpoint)
    ensures LastRun(runs, ep).None? <==> NeverRun(runs, ep)
    ensures LastRun(runs, ep).Some? ==> exists k: nat :: IsLastRun(runs, k, ep) && k < |runs|
    decreases |runs|
  {
    if runs != [] {
      var front, last := runs[..|runs| - 1], runs[|runs| - 1];
      if last.request.endpoint == ep {
        assert IsLastRun(runs, |runs| - 1, ep);
      } else {
        LastRunIff(front, ep);
        if LastRun(front, ep).Some? {
          var k: nat :| IsLastRun(front, k, ep) && k < |front|;
          assert IsLastRun(runs, k, ep);
        }
      }
    }
  }
}
