/**
  The voice courier's drain loop: payloads come off a priority queue ordered by timestamp and by a
  16-bit sequence number that wraps around; a slot without a payload counts as a lost packet.
  */
module VoiceDrain {
  import opened Bytes

  const TWO_16: int := 0x1_0000
  const BOUNDARY: int := 5000

  type Seq = s: int | 0 <= s < 0x1_0000

  datatype Payload = Payload(seqNo: Seq, timestamp: nat, data: nat)

  function Add(s: Seq, n: int): Seq { (s + n) % TWO_16 }

  /** `operator<`: lower priority, that is, to be played later. */
  predicate Less(a: Payload, b: Payload) {
    if a.timestamp != b.timestamp then a.timestamp > b.timestamp
    else if (a.seqNo < BOUNDARY && b.seqNo >= BOUNDARY) || (a.seqNo >= BOUNDARY && b.seqNo < BOUNDARY)
    then Add(a.seqNo, BOUNDARY) > Add(b.seqNo, BOUNDARY)
    else a.seqNo > b.seqNo
  }

  // ---------------------------------------------------------------- serial number arithmetic

  /** Steps forward from `from` to `to`. */
  function Offset(from: Seq, to: Seq): (d: Seq)
    ensures Add(from, d) == to
  {
    (to - from) % TWO_16
  }

  /** a comes after b, as section 3.2 of RFC 1982 compares 16-bit serial numbers. */
  predicate After(a: Seq, b: Seq) { 0 < Offset(b, a) < TWO_16 / 2 }

  function Gap(a: Seq, b: Seq): int { if a >= b then a - b else b - a }

  /** One number just behind the wrap-around and one just before it. */
  predicate Straddles(a: Seq, b: Seq) {
    (a < 5000 && b >= 60536) || (b < 5000 && a >= 60536)
  }

  /**
    For equal timestamps the comparison is serial comparison exactly when the two numbers are less
    than half the number space apart, or lie within 5000 on either side of the wrap-around.
    */
  lemma {:induction false} SerialIff(a: Payload, b: Payload)
    requires a.timestamp == b.timestamp
    ensures (Less(a, b) <==> After(a.seqNo, b.seqNo)) && (Less(b, a) <==> After(b.seqNo, a.seqNo)) <==>
            Gap(a.seqNo, b.seqNo) < 32768 || Straddles(a.seqNo, b.seqNo)
  {
  }

  /** All within 5000 steps from `from`. */
  ghost predicate InWindow(from: Seq, ps: multiset<Payload>) {
    forall p :: p in ps ==> Offset(from, p.seqNo) < BOUNDARY
  }

  /** Inside a window of 5000 the order is that of the offsets: strict, total, and serial. */
  lemma {:induction false} WindowOrder(from: Seq, a: Payload, b: Payload)
    requires a.timestamp == b.timestamp
    requires Offset(from, a.seqNo) < BOUNDARY && Offset(from, b.seqNo) < BOUNDARY
    ensures Less(a, b) <==> Offset(from, a.seqNo) > Offset(from, b.seqNo)
    ensures Less(a, b) <==> After(a.seqNo, b.seqNo)
    ensures Less(a, b) || Less(b, a) || a.seqNo == b.seqNo
  {
    hide Add, Offset;
    Linear(a.seqNo, BOUNDARY, b.seqNo);
    Linear(b.seqNo, BOUNDARY, a.seqNo);
    Linear(from, 0, a.seqNo);
    Linear(from, 0, b.seqNo);
  }

  /** Adding and subtracting without the modulus. */
  lemma {:induction false} Linear(s: Seq, n: int, to: Seq)
    requires 0 <= n < TWO_16
    ensures Add(s, n) == if s + n < TWO_16 then s + n else s + n - TWO_16
    ensures Offset(s, to) == if to >= s then to - s else to - s + TWO_16
  {
  }

  lemma {:induction false} StrictTotalOrder(from: Seq, a: Payload, b: Payload, c: Payload)
    requires a.timestamp == b.timestamp == c.timestamp
    requires Offset(from, a.seqNo) < BOUNDARY && Offset(from, b.seqNo) < BOUNDARY && Offset(from, c.seqNo) < BOUNDARY
    ensures !Less(a, a)
    ensures Less(a, b) && Less(b, c) ==> Less(a, c)
    ensures !(Less(a, b) && Less(b, a))
    ensures a.seqNo != b.seqNo ==> Less(a, b) || Less(b, a)
  {
    WindowOrder(from, a, a);
    WindowOrder(from, a, b);
    WindowOrder(from, b, a);
    WindowOrder(from, b, c);
    WindowOrder(from, a, c);
  }

  /** The three zones of the number space that the two branches of the comparison tell apart. */
  predicate Low(s: Seq) { s < 5000 }
  predicate High(s: Seq) { s >= 60536 }
  predicate Middle(s: Seq) { !Low(s) && !High(s) }

  /** One payload of each zone, with one timestamp. */
  predicate Spread(low: Payload, middle: Payload, high: Payload) {
    && Low(low.seqNo) && Middle(middle.seqNo) && High(high.seqNo)
    && low.timestamp == middle.timestamp == high.timestamp
  }

  ghost predicate Transitive(ps: set<Payload>) {
    forall a, b, c :: a in ps && b in ps && c in ps && Less(a, b) && Less(b, c) ==> Less(a, c)
  }

  /** The comparison is transitive on a set exactly when the set does not spread over all three zones. */
  lemma {:induction false} TransitiveIff(ps: set<Payload>)
    ensures Transitive(ps) <==>
            !exists low, middle, high :: low in ps && middle in ps && high in ps && Spread(low, middle, high)
  {
    if low, middle, high :| low in ps && middle in ps && high in ps && Spread(low, middle, high) {
      SpreadIsCircle(low, middle, high);
      assert Less(middle, low) && Less(low, high) && !Less(middle, high);
    } else {
      forall a, b, c | a in ps && b in ps && c in ps && Less(a, b) && Less(b, c) ensures Less(a, c) {
        if !Less(a, c) { BrokenChainIsSpread(a, b, c); }
      }
    }
  }

  /** What the comparison does with equal timestamps: only from zone Low to zone High it goes backwards. */
  lemma {:induction false} ByZone(a: Payload, b: Payload)
    requires a.timestamp == b.timestamp
    ensures Less(a, b) <==>
            if Low(a.seqNo) && High(b.seqNo) then true
            else if High(a.seqNo) && Low(b.seqNo) then false
            else a.seqNo > b.seqNo
  {
    hide Add;
    Linear(a.seqNo, BOUNDARY, b.seqNo);
    Linear(b.seqNo, BOUNDARY, a.seqNo);
  }

  /** Such three beat each other in a circle. */
  lemma {:induction false} SpreadIsCircle(low: Payload, middle: Payload, high: Payload)
    requires Spread(low, middle, high)
    ensures Less(low, high) && Less(high, middle) && Less(middle, low) && !Less(middle, high)
  {
    hide Less;
    ByZone(low, high);
    ByZone(high, middle);
    ByZone(middle, low);
    ByZone(middle, high);
  }

  lemma {:induction false} BrokenChainIsSpread(a: Payload, b: Payload, c: Payload)
    requires Less(a, b) && Less(b, c) && !Less(a, c)
    ensures Spread(a, b, c) || Spread(a, c, b) || Spread(b, a, c)
         || Spread(b, c, a) || Spread(c, a, b) || Spread(c, b, a)
  {
    assert a.timestamp == b.timestamp == c.timestamp;
    hide Less;
    ByZone(a, b);
    ByZone(b, c);
    ByZone(a, c);
  }

  // ---------------------------------------------------------------- the loop

  /** The top of a queue, whatever it holds; the heap always yields one of its elements. */
  type Heap = multiset<Payload> -> Payload

  ghost predicate IsHeap(top: Heap) { forall q :: q != multiset{} ==> top(q) in q }

  function Popped(slots: seq<Option<Payload>>): multiset<Payload> {
    if slots == [] then multiset{} else
    var last := slots[|slots| - 1];
    Popped(slots[..|slots| - 1]) + if last.Some? then multiset{last.value} else multiset{}
  }

  /**
    Distinct payloads from one window whose timestamps run with their sequence numbers, in a heap that
    respects the order.
    */
  ghost predicate Orderly(minSeq: Seq, q: multiset<Payload>, top: Heap) {
    && InWindow(minSeq, q)
    && (forall p :: p in q ==> q[p] == 1)
    && (forall a, b :: a in q && b in q && a != b ==> a.seqNo != b.seqNo)
    && (forall a, b :: a in q && b in q && Offset(minSeq, a.seqNo) < Offset(minSeq, b.seqNo) ==>
        a.timestamp <= b.timestamp)
    && (forall r, p :: r <= q && p in r ==> !Less(top(r), p))
  }

  lemma {:induction false} TopIsNext(minSeq: Seq, q: multiset<Payload>, top: Heap, r: multiset<Payload>, p: Payload)
    requires Orderly(minSeq, q, top) && IsHeap(top) && r <= q && p in r
    ensures top(r) in r && Offset(minSeq, top(r).seqNo) <= Offset(minSeq, p.seqNo)
  {
    var t := top(r);
    assert t in q && p in q && !Less(t, p);
    if t.timestamp == p.timestamp { WindowOrder(minSeq, t, p); }
  }

  /** A heap that respects the comparison yields an earliest timestamp and, in a window, the number played first. */
  lemma {:induction false} TopIsEarliest(top: Heap, q: multiset<Payload>, p: Payload)
    requires IsHeap(top) && p in q && !Less(top(q), p)
    ensures top(q).timestamp <= p.timestamp
    ensures top(q).timestamp == p.timestamp ==>
              var s: int, t: int := top(q).seqNo, p.seqNo;
              s == t || (if s >= 60536 && t < 5000 then true else if s < 5000 && t >= 60536 then false else s < t)
  {
    if top(q).timestamp == p.timestamp { ByZone(top(q), p); }
  }

  /**
    The drain: slots are the consecutive sequence numbers from `minSeq`; each payload is popped once,
    at its own number. It ends for every queue and every heap. On an orderly queue it plays one
    contiguous run: the slot of a payload is its offset.
    */
  method Drain(minSeq: Seq, queue: multiset<Payload>, top: Heap) returns (slots: seq<Option<Payload>>)
    requires IsHeap(top)
    ensures Popped(slots) == queue
    ensures Numbered(minSeq, slots)
    ensures slots != [] ==> slots[|slots| - 1].Some?
    ensures Orderly(minSeq, queue, top) ==>
              |slots| <= BOUNDARY && forall p :: p in queue ==>
                  Offset(minSeq, p.seqNo) < |slots| && slots[Offset(minSeq, p.seqNo)] == Some(p)
  {
    hide Orderly, Played, Popped, Add, Offset, Numbered;
    slots := [];
    var q, seqNo := queue, minSeq;
    DrainStarts(minSeq, queue, top);
    while q != multiset{}
      invariant seqNo == Add(minSeq, |slots|)
      invariant Popped(slots) + q == queue
      invariant Numbered(minSeq, slots)
      invariant q == multiset{} && slots != [] ==> slots[|slots| - 1].Some?
      invariant Orderly(minSeq, queue, top) ==> Played(minSeq, queue, q, slots)
      decreases |q|, if q == multiset{} then 0 else Offset(seqNo, top(q).seqNo)
    {
      var t := top(q);
      NextSlot(minSeq, |slots|, t.seqNo);
      if Orderly(minSeq, queue, top) { PlayedStep(minSeq, queue, top, q, slots); }
      if t.seqNo != seqNo {
        SlotAppend(minSeq, slots, None);
        slots := slots + [None];
      } else {
        SlotAppend(minSeq, slots, Some(t));
        slots := slots + [Some(t)];
        q := q - multiset{t};
      }
      seqNo := Add(seqNo, 1);
    }
    DrainEnds(minSeq, queue, slots);
  }

  lemma {:induction false} DrainStarts(minSeq: Seq, queue: multiset<Payload>, top: Heap)
    ensures Popped([]) == multiset{} && Add(minSeq, 0) == minSeq && Numbered(minSeq, [])
    ensures Orderly(minSeq, queue, top) ==> Played(minSeq, queue, queue, [])
  {
    hide Orderly;
  }

  lemma {:induction false} DrainEnds(minSeq: Seq, queue: multiset<Payload>, slots: seq<Option<Payload>>)
    ensures Played(minSeq, queue, multiset{}, slots) ==>
              |slots| <= BOUNDARY && forall p :: p in queue ==>
                  Offset(minSeq, p.seqNo) < |slots| && slots[Offset(minSeq, p.seqNo)] == Some(p)
  {
    hide Offset;
  }

  /** A payload stands only in the slot of its own number. */
  ghost predicate Numbered(minSeq: Seq, slots: seq<Option<Payload>>) {
    forall i :: 0 <= i < |slots| && slots[i].Some? ==> slots[i].value.seqNo == Add(minSeq, i)
  }

  lemma {:induction false} SlotAppend(minSeq: Seq, slots: seq<Option<Payload>>, slot: Option<Payload>)
    ensures Popped(slots + [slot]) == Popped(slots) + if slot.Some? then multiset{slot.value} else multiset{}
    ensures Numbered(minSeq, slots) && (slot.Some? ==> slot.value.seqNo == Add(minSeq, |slots|)) ==>
        Numbered(minSeq, slots + [slot])
  {
    hide Add;
    assert (slots + [slot])[..|slots|] == slots;
  }

  /** One number further, and one step nearer to any other number. */
  lemma {:induction false} NextSlot(minSeq: Seq, n: nat, to: Seq)
    ensures Add(Add(minSeq, n), 1) == Add(minSeq, n + 1)
    ensures to != Add(minSeq, n) ==> Offset(Add(Add(minSeq, n), 1), to) == Offset(Add(minSeq, n), to) - 1
  {
    Nearer(Add(minSeq, n), to);
  }

  lemma {:induction false} Nearer(here: Seq, to: Seq)
    ensures to != here ==> Offset(Add(here, 1), to) == Offset(here, to) - 1
  {
    hide Add, Offset;
    Linear(here, 1, to);
    Linear(Add(here, 1), 0, to);
  }

  /** On an orderly queue: what was popped stands in its slot, what remains comes later. */
  ghost predicate Played(minSeq: Seq, queue: multiset<Payload>, q: multiset<Payload>, slots: seq<Option<Payload>>) {
    && q <= queue && |slots| <= BOUNDARY
    && (forall p :: p in q ==> Offset(minSeq, p.seqNo) >= |slots|)
    && (forall p :: p in queue && p !in q ==>
        Offset(minSeq, p.seqNo) < |slots| && slots[Offset(minSeq, p.seqNo)] == Some(p))
  }

  /** The number of the next slot is that of a payload exactly if the payload's offset is the slot's index. */
  lemma {:induction false} OffsetIsSlot(minSeq: Seq, n: nat, s: Seq)
    requires n < TWO_16
    ensures Offset(minSeq, s) == n <==> s == Add(minSeq, n)
  {
  }

  lemma {:induction false} Alone(minSeq: Seq, queue: multiset<Payload>, top: Heap, q: multiset<Payload>, t: Payload,
                                 p: Payload)
    requires Orderly(minSeq, queue, top) && q <= queue && t in q && p in q - multiset{t}
    ensures p in q && p != t && p.seqNo != t.seqNo
  {
    hide Offset, Less;
    assert t in queue && queue[t] == 1 && q[t] <= queue[t];
    assert p in q && p in queue;
  }

  lemma {:induction false} InQueue(minSeq: Seq, queue: multiset<Payload>, top: Heap, q: multiset<Payload>)
    requires IsHeap(top) && Orderly(minSeq, queue, top) && q != multiset{} && q <= queue
    ensures top(q) in q && top(q) in queue && Offset(minSeq, top(q).seqNo) < BOUNDARY
  {
    hide Offset, Less;
  }

  lemma {:induction false} PlayedStep(minSeq: Seq, queue: multiset<Payload>, top: Heap, q: multiset<Payload>,
                                      slots: seq<Option<Payload>>)
    requires IsHeap(top) && Orderly(minSeq, queue, top) && q != multiset{} && Played(minSeq, queue, q, slots)
    ensures var t, here := top(q), Add(minSeq, |slots|);
            if t.seqNo != here then Played(minSeq, queue, q, slots + [None])
            else Played(minSeq, queue, q - multiset{t}, slots + [Some(t)])
  {
    hide Orderly, Offset, Add;
    var t, here := top(q), Add(minSeq, |slots|);
    InQueue(minSeq, queue, top, q);
    forall p | p in q
      ensures Offset(minSeq, t.seqNo) <= Offset(minSeq, p.seqNo)
    {
      TopIsNext(minSeq, queue, top, q, p);
    }
    OffsetIsSlot(minSeq, |slots|, t.seqNo);
    if t.seqNo == here {
      forall p | p in q - multiset{t} ensures p in q && p != t && Offset(minSeq, p.seqNo) >= |slots| + 1 {
        Alone(minSeq, queue, top, q, t, p);
        OffsetIsSlot(minSeq, |slots|, p.seqNo);
      }
      forall p | p in queue && p !in q - multiset{t} && p in q ensures p == t {}
    }
  }
}
