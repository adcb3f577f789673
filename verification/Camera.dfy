/**
  Cameras and view points: every world object carries a list of the cameras looking through it, and
  its events call back into cameras, which may leave the list while it is being iterated.
  */
module CameraModel {
  import opened Bytes
  import opened Sequences

  type Grid = nat

  /** std::list::remove */
  function Without<T(==)>(s: seq<T>, x: T): (r: seq<T>) {
    if s == [] then [] else if s[0] == x then Without(s[1..], x) else [s[0]] + Without(s[1..], x)
  }

  lemma {:induction false} WithoutMember<T>(s: seq<T>, x: T, y: T)
    ensures y in Without(s, x) <==> y in s && y != x
    decreases |s|
  {
    if s != [] { WithoutMember(s[1..], x, y); }
  }

  lemma {:induction false} WithoutMembers<T>(s: seq<T>, x: T)
    ensures forall y :: y in Without(s, x) <==> y in s && y != x
    decreases |s|
  {
    if s != [] { WithoutMembers(s[1..], x); }
  }

  lemma {:induction false} DistinctAppend<T>(s: seq<T>, x: T)
    requires Distinct(s) && x !in s
    ensures Distinct(s + [x])
  {
  }

  /** The elements of s that are in `keep`. */
  function Only<T(==)>(s: seq<T>, keep: set<T>): (r: seq<T>) {
    if s == [] then [] else
    var front, last := s[..|s| - 1], s[|s| - 1];
    if last in keep then Only(front, keep) + [last] else Only(front, keep)
  }

  /** The element behind the first x, or null at the end. */
  function NextIn(s: seq<Camera>, x: Camera): Camera? {
    if s == [] then null
    else if s[0] == x then if |s| > 1 then s[1] else null
    else NextIn(s[1..], x)
  }

  lemma {:induction false} NextInMiddle(a: seq<Camera>, x: Camera, b: seq<Camera>)
    requires Distinct(a + [x] + b)
    ensures NextIn(a + [x] + b, x) == if b == [] then null else b[0]
    decreases |a|
  {
    var s := a + [x] + b;
    if a != [] {
      assert s[1..] == a[1..] + [x] + b;
      assert s[0] != x by { assert s[|a|] == x; }
      forall i, j | 0 <= i < j < |s| - 1 ensures s[1..][i] != s[1..][j] { assert s[i + 1] != s[j + 1]; }
      NextInMiddle(a[1..], x, b);
    }
  }

  lemma {:induction false} WithoutAbsent<T>(s: seq<T>, x: T)
    requires x !in s
    ensures Without(s, x) == s
    decreases |s|
  {
    if s != [] { WithoutAbsent(s[1..], x); }
  }

  /** In a list without repetitions, removing x cuts out its one occurrence. */
  lemma {:induction false} WithoutMiddle<T>(a: seq<T>, x: T, b: seq<T>)
    requires Distinct(a + [x] + b)
    ensures Without(a + [x] + b, x) == a + b
    decreases |a|
  {
    var s := a + [x] + b;
    if a == [] {
      assert s[1..] == b;
      forall k | 0 <= k < |b| ensures b[k] != x { assert s[1 + k] != s[0]; }
      WithoutAbsent(b, x);
    } else {
      assert s[1..] == a[1..] + [x] + b;
      assert s[0] != x by { assert s[|a|] == x; }
      forall i, j | 0 <= i < j < |s| - 1 ensures s[1..][i] != s[1..][j] { assert s[i + 1] != s[j + 1]; }
      WithoutMiddle(a[1..], x, b);
    }
  }

  lemma {:induction false} WithoutDistinct<T>(s: seq<T>, x: T)
    requires Distinct(s)
    ensures Distinct(Without(s, x))
    decreases |s|
  {
    if s != [] {
      forall i, j | 0 <= i < j < |s[1..]| ensures s[1..][i] != s[1..][j] { assert s[i + 1] != s[j + 1]; }
      WithoutDistinct(s[1..], x);
      WithoutMembers(s[1..], x);
      forall k | 0 <= k < |s[1..]| ensures s[1..][k] != s[0] { assert s[1 + k] != s[0]; }
      var tail := Without(s[1..], x);
      forall j | 0 <= j < |tail| ensures tail[j] != s[0] { assert tail[j] in tail; }
    }
  }

  /** A world object with its ViewPoint, which is a member by value: `cameras` and `grid`. */
  class WorldObject {
    const viewable: bool               // unit or dynamic object
    var inWorld: bool
    var mapId: nat
    var visible: set<WorldObject>      // what this player's client has been shown
    var cameras: seq<Camera>
    var grid: Option<Grid>

    constructor (viewable: bool)
      ensures this.viewable == viewable && cameras == [] && grid == None && !inWorld
    {
      this.viewable, inWorld, mapId, visible, cameras, grid := viewable, false, 0, {}, [], None;
    }

    predicate IsInMap(obj: WorldObject)
      reads this, obj
    {
      inWorld && obj.inWorld && mapId == obj.mapId
    }

    predicate IsInVisibleList(obj: WorldObject)
      reads this`visible
    {
      obj == this || obj in visible
    }

    method Attach(c: Camera)
      modifies this`cameras
      ensures cameras == old(cameras) + [c]
    {
      cameras := cameras + [c];
    }

    method Detach(c: Camera)
      modifies this`cameras
      ensures cameras == Without(old(cameras), c)
    {
      cameras := Without(cameras, c);
    }

    method EventAddedToWorld(g: Grid, ghost objects: set<WorldObject>, ghost cams: set<Camera>)
      returns (ghost called: seq<Camera>)
      requires Consistent(objects, cams) && this in objects
      modifies this`grid, objects`cameras, cams`source, cams`gridRef
      ensures Consistent(objects, cams) && grid == Some(g)
      ensures called == cameras == old(cameras) && forall c :: c in cameras ==> c.gridRef == Some(g)
    {
      grid := Some(g);
      ghost var keep := Staying(cameras, AddedToWorld);
      called := CameraCall(AddedToWorld, objects, cams);
      OnlyAll(called, keep);
    }

    method EventGridChanged(g: Grid, ghost objects: set<WorldObject>, ghost cams: set<Camera>)
      returns (ghost called: seq<Camera>)
      requires Consistent(objects, cams) && this in objects
      modifies this`grid, objects`cameras, cams`source, cams`gridRef
      ensures Consistent(objects, cams) && grid == Some(g)
      ensures called == cameras == old(cameras) && forall c :: c in cameras ==> c.gridRef == Some(g)
    {
      grid := Some(g);
      ghost var keep := Staying(cameras, Moved);
      called := CameraCall(Moved, objects, cams);
      OnlyAll(called, keep);
    }

    /**
      After the object left the world only its own camera looks through it, exactly if every other
      viewer was itself in the world: the view of a viewer who is not cannot be reset.
      */
    method EventRemovedFromWorld(ghost objects: set<WorldObject>, ghost cams: set<Camera>)
      returns (ghost called: seq<Camera>)
      requires Consistent(objects, cams) && this in objects
      modifies this`grid, objects`cameras, cams`source, cams`gridRef
      ensures Consistent(objects, cams) && grid == None && called == old(cameras)
      ensures (forall c :: c in cameras ==> c.owner == this)
              <==> (forall c :: c in old(cameras) ==> c.owner == this || c.owner.inWorld)
      ensures forall c :: c in old(cameras) ==> (c in cameras <==> c.owner == this || !c.owner.inWorld)
      ensures forall c :: c in old(cameras) && c !in cameras ==> c.source == c.owner && Synced(c)
      ensures forall c :: c in cams && c !in old(cameras) ==> c.source == old(c.source)
    {
      grid := None;
      ghost var keep := Staying(cameras, RemovedFromWorld);
      called := CameraCall(RemovedFromWorld, objects, cams);
      forall c | c in called || c in cameras ensures c in cameras <==> c in called && c in keep {
        OnlyMembers(called, keep, c);
      }
    }

    /**
      The object appears or vanishes for others: exactly the cameras stay whose owner is the object, is
      shown it, or is not in the world.
      */
    method EventViewPointVisibilityChanged(ghost objects: set<WorldObject>, ghost cams: set<Camera>)
      returns (ghost called: seq<Camera>)
      requires Consistent(objects, cams) && this in objects
      modifies objects`cameras, cams`source, cams`gridRef
      ensures Consistent(objects, cams) && called == old(cameras)
      ensures forall c :: c in cameras ==> c in old(cameras)
      ensures forall c :: c in old(cameras) ==>
                (c in cameras <==> c.owner == this || this in c.owner.visible || !c.owner.inWorld)
      ensures forall c :: c in cams ==>
                c.source == if c in old(cameras) && c !in cameras then c.owner else old(c.source)
    {
      ghost var keep := Staying(cameras, VisibilityChanged);
      called := CameraCall(VisibilityChanged, objects, cams);
      forall c | c in called || c in cameras ensures c in cameras <==> c in called && c in keep {
        OnlyMembers(called, keep, c);
      }
    }

    /**
      An object leaves the world; a player's own view is reset before. If so does everybody, no camera
      of somebody outside the world looks through another object, and the object keeps only its own.
      */
    method RemoveFromWorld(own: Camera?, ghost objects: set<WorldObject>, ghost cams: set<Camera>)
      requires Consistent(objects, cams) && this in objects && ViewersInWorld(cams)
      requires forall c :: c in cams ==> (c.owner == this <==> c == own)
      requires own != null ==> own in cams
      modifies this`inWorld, this`grid, objects`cameras, cams`source, cams`gridRef
      ensures Consistent(objects, cams) && ViewersInWorld(cams) && !inWorld
      ensures old(inWorld) ==> grid == None && forall c :: c in cameras ==> c == own
    {
      hide Matched, Distinct, Without;
      if inWorld {
        if own != null { own.ResetView(objects, cams); }
        assert ViewersInWorld(cams);
        ghost var called := EventRemovedFromWorld(objects, cams);
      }
      inWorld := false;
    }

    /** One call of the loop, on the camera between those already called and those to come. */
    method CallOne(e: Event, c: Camera, ghost before: seq<Camera>, ghost after: seq<Camera>,
                   ghost objects: set<WorldObject>, ghost cams: set<Camera>)
      requires Consistent(objects, cams) && this in objects
      requires e == AddedToWorld || e == Moved ==> grid.Some?
      requires e == RemovedFromWorld ==> grid == None
      requires cameras == before + [c] + after
      modifies objects`cameras, c`source, c`gridRef
      ensures Consistent(objects, cams)
      ensures cameras == (if old(c.Stays(e)) then before + [c] else before) + after
      ensures c.source == if old(c.Stays(e)) then this else c.owner
      ensures forall d :: d in after ==> d.Stays(e) == old(d.Stays(e))
      ensures c.Relinks(e) ==> Synced(c)
    {
      hide Without, Only, NextIn;
      forall d | d in after ensures d != c {
        var i :| 0 <= i < |after| && after[i] == d;
        assert cameras[|before|] == c && cameras[|before| + 1 + i] == d;
      }
      assert c in cameras by { assert cameras[|before|] == c; }
      WithoutMiddle(before, c, after);
      c.Handle(e, objects, cams);
    }

    /**
      `CameraCall`: the handler of every camera of the list, while handlers may take their camera
      out of it.
      */
    method CameraCall(e: Event, ghost objects: set<WorldObject>, ghost cams: set<Camera>)
      returns (ghost called: seq<Camera>)
      requires Consistent(objects, cams) && this in objects
      requires e == AddedToWorld || e == Moved ==> grid.Some?
      requires e == RemovedFromWorld ==> grid == None
      modifies objects`cameras, cams`source, cams`gridRef
      ensures Consistent(objects, cams)
      ensures called == old(cameras)
      ensures cameras == Only(old(cameras), old(Staying(cameras, e)))
      ensures forall c :: c in old(cameras) && c.Relinks(e) ==> Synced(c)
      ensures forall c :: c in cams ==>
          c.source == if c in old(cameras) && c !in old(Staying(cameras, e)) then c.owner else old(c.source)
    {
      called := [];
      if cameras != [] {
        called := CallAll(e, cameras, Staying(cameras, e), objects, cams);
      }
    }

    /** The loop after k calls: those called are settled, those to come untouched. */
    ghost predicate Calling(e: Event, all: seq<Camera>, k: nat, keep: set<Camera>, before: map<Camera, WorldObject>,
                            objects: set<WorldObject>, cams: set<Camera>)
      reads this, objects, cams
    {
      && k <= |all| && this in objects && before.Keys == cams && Consistent(objects, cams)
      && cameras == Only(all[..k], keep) + all[k..]
      && (forall c :: c in all[..k] ==> c in cams)
      && (forall c :: c in all[..k] ==> c.source in objects && (c.Relinks(e) ==> Synced(c)))
      && (forall c :: c in all[k..] ==> c in cams && c.owner in objects && (c.Stays(e) <==> c in keep))
      && (forall c :: c in cams ==> c.source == if c in Elements(all[..k]) - keep then c.owner else before[c])
    }

    /** One round: the iterator is a list node, that is, a camera, and moves on before the call. */
    method Advance(itr: Camera, e: Event, ghost all: seq<Camera>, ghost k: nat, ghost keep: set<Camera>,
                   ghost before: map<Camera, WorldObject>,
                   ghost objects: set<WorldObject>, ghost cams: set<Camera>) returns (next: Camera?)
      requires k < |all| && itr == all[k] && Calling(e, all, k, keep, before, objects, cams)
      requires e == AddedToWorld || e == Moved ==> grid.Some?
      requires e == RemovedFromWorld ==> grid == None
      modifies objects`cameras, itr`source, itr`gridRef
      ensures Calling(e, all, k + 1, keep, before, objects, cams)
      ensures next == if k + 1 < |all| then all[k + 1] else null
    {
      hide Consistent, Without, NextIn, Only, Distinct, Elements, Camera.Stays, Camera.Relinks, Synced;
      ghost var front, after := Only(all[..k], keep), all[k + 1..];
      AtIndex(all, k, front);
      Listed(objects, cams, this, front, itr, after);
      NextInMiddle(front, itr, after);
      next := NextIn(cameras, itr);
      CallOne(e, itr, front, after, objects, cams);
      OnlyStep(all, k, keep);
      SourceInObjects(objects, cams, itr);
    }

    method CallAll(e: Event, ghost all: seq<Camera>, ghost keep: set<Camera>, ghost objects: set<WorldObject>,
                   ghost cams: set<Camera>)
      returns (ghost called: seq<Camera>)
      requires Consistent(objects, cams) && this in objects && all == cameras != []
      requires e == AddedToWorld || e == Moved ==> grid.Some?
      requires e == RemovedFromWorld ==> grid == None
      requires forall c :: c in all ==> (c.Stays(e) <==> c in keep)
      modifies objects`cameras, cams`source, cams`gridRef
      ensures Consistent(objects, cams)
      ensures called == all && cameras == Only(all, keep)
      ensures forall c :: c in all && c.Relinks(e) ==> Synced(c)
      ensures forall c :: c in cams ==> c.source == if c in Elements(all) - keep then c.owner else old(c.source)
    {
      hide WorldObject.Calling, Consistent, Only, Elements, Distinct, Camera.Stays, Camera.Relinks, Synced;
      ghost var before := Sources(cams);
      ghost var k := 0;
      called := [];
      CallingStarts(this, e, keep, objects, cams);
      var itr: Camera? := cameras[0];
      while itr != null
        invariant k <= |all| && called == all[..k]
        invariant itr == if k < |all| then all[k] else null
        invariant Calling(e, all, k, keep, before, objects, cams)
        decreases |all| - k
      {
        AtIndex(all, k, []);
        assert itr in all;
        called := called + [itr];
        itr := Advance(itr, e, all, k, keep, before, objects, cams);
        k := k + 1;
      }
      assert all[..k] == all;
      CallingEnds(this, e, all, keep, before, objects, cams);
    }
  }

  lemma {:induction false} CallingStarts(o: WorldObject, e: Event, keep: set<Camera>, objects: set<WorldObject>,
                                         cams: set<Camera>)
    requires Consistent(objects, cams) && o in objects
    requires forall c :: c in o.cameras ==> (c.Stays(e) <==> c in keep)
    ensures o.Calling(e, o.cameras, 0, keep, Sources(cams), objects, cams)
    ensures forall c :: c in o.cameras ==> c in cams
  {
    hide Only, Distinct, Camera.Stays;
    NoneYet(o.cameras, keep);
  }

  lemma {:induction false} CallingEnds(o: WorldObject, e: Event, all: seq<Camera>, keep: set<Camera>,
                                       before: map<Camera, WorldObject>,
                                       objects: set<WorldObject>, cams: set<Camera>)
    requires o.Calling(e, all, |all|, keep, before, objects, cams)
    ensures Consistent(objects, cams) && o.cameras == Only(all, keep)
    ensures forall c :: c in all && c.Relinks(e) ==> Synced(c)
    ensures forall c :: c in cams ==> c.source == if c in Elements(all) - keep then c.owner else before[c]
  {
    hide Consistent, Only, Distinct, Elements, Camera.Stays, Camera.Relinks, Synced;
    assert all[..|all|] == all && all[|all|..] == [];
  }

  /** Who is left in a filtered list. */
  lemma {:induction false} OnlyMembers(s: seq<Camera>, keep: set<Camera>, c: Camera)
    ensures c in Only(s, keep) <==> c in s && c in keep
    decreases |s|
  {
    if s != [] { OnlyMembers(s[..|s| - 1], keep, c); }
  }

  lemma {:induction false} OnlyAll(all: seq<Camera>, keep: set<Camera>)
    requires forall c :: c in all ==> c in keep
    ensures Only(all, keep) == all
    decreases |all|
  {
    if all != [] { OnlyAll(all[..|all| - 1], keep); }
  }

  lemma {:induction false} SourceInObjects(objects: set<WorldObject>, cams: set<Camera>, c: Camera)
    requires Consistent(objects, cams) && c in cams
    ensures c.source in objects
  {
  }

  lemma {:induction false} InObjects(lists: map<WorldObject, seq<Camera>>, sources: map<Camera, WorldObject>, c: Camera)
    requires Matched(lists, sources) && c in sources
    ensures sources[c] in lists
  {
  }

  /** Splitting a list at an index. */
  lemma {:induction false} AtIndex<T>(s: seq<T>, k: nat, front: seq<T>)
    requires k < |s|
    ensures front + s[k..] == front + [s[k]] + s[k + 1..]
    ensures s[..k + 1] == s[..k] + [s[k]]
    ensures Elements(s[..k + 1]) == Elements(s[..k]) + {s[k]}
    ensures forall x :: x in s[k + 1..] ==> x in s[k..]
    ensures s[k] in s[k..]
    ensures if s[k + 1..] == [] then k + 1 == |s| else k + 1 < |s| && s[k + 1..][0] == s[k + 1]
  {
    assert s[k..] == [s[k]] + s[k + 1..];
  }

  lemma {:induction false} NoneYet<T>(s: seq<T>, keep: set<T>)
    ensures Only(s[..0], keep) + s[0..] == s && s[0..] == s && s[..0] == [] && Elements(s[..0]) == {}
  {
  }

  lemma {:induction false} Listed(objects: set<WorldObject>, cams: set<Camera>, o: WorldObject, a: seq<Camera>,
                                  c: Camera, b: seq<Camera>)
    requires Consistent(objects, cams) && o in objects && o.cameras == a + [c] + b
    ensures c in o.cameras && c in cams && c.source == o && Distinct(o.cameras)
  {
    assert o.cameras[|a|] == c;
  }

  lemma {:induction false} OnlyStep<T>(s: seq<T>, k: nat, keep: set<T>)
    requires k < |s|
    ensures s[..k + 1] == s[..k] + [s[k]]
    ensures Only(s[..k + 1], keep) == if s[k] in keep then Only(s[..k], keep) + [s[k]] else Only(s[..k], keep)
  {
    assert s[..k + 1][..k] == s[..k];
  }

  /** The cameras of the list that stay with their source through the event. */
  ghost function Staying(s: seq<Camera>, e: Event): (r: set<Camera>)
    reads s`source, (set c | c in s :: c.owner)`inWorld, (set c | c in s :: c.owner)`visible
  {
    set c | c in s && c.Stays(e)
  }

  datatype Event = AddedToWorld | RemovedFromWorld | Moved | VisibilityChanged | UpdateVisibility

  /**
    The heap invariant: every camera stands exactly once in the list of its source and in no other
    list, and lists hold nothing else.
    */
  ghost predicate Consistent(objects: set<WorldObject>, cams: set<Camera>)
    reads objects`cameras, cams`source
  {
    && (forall c :: c in cams ==>
        c.owner in objects && c.owner.viewable && c.source in objects && c in c.source.cameras)
    && (forall o :: o in objects ==> Distinct(o.cameras))
    && (forall o, c :: o in objects && c in o.cameras ==> c in cams && c.source == o)
  }

  /** Every camera that looks through another object than its owner belongs to somebody in the world. */
  ghost predicate ViewersInWorld(cams: set<Camera>)
    reads cams`source, (set c | c in cams :: c.owner)`inWorld
  {
    forall c :: c in cams ==> c.source == c.owner || c.owner.inWorld
  }

  /** Without that, a removed object keeps the camera of a viewer who left the world with the view elsewhere. */
  method StrandedViewer() returns (obj: WorldObject, c: Camera)
    ensures c in obj.cameras && c.owner != obj && c.source == obj && obj.grid == None
  {
    hide Without, Distinct, Matched, Consistent;
    var pl := new WorldObject(true);
    obj := new WorldObject(true);
    pl.inWorld, obj.inWorld := true, true;
    obj.mapId := pl.mapId;
    EmptyWorld({pl, obj});
    c := new Camera(pl, {pl, obj}, {});
    assert {c} == {} + {c};
    c.SetView(obj, {pl, obj}, {c});
    pl.inWorld := false;
    ghost var called := obj.EventRemovedFromWorld({pl, obj}, {c});
  }

  lemma {:induction false} EmptyWorld(objects: set<WorldObject>)
    requires forall o :: o in objects ==> o.cameras == []
    ensures Consistent(objects, {})
  {
  }

  ghost function Lists(objects: set<WorldObject>): map<WorldObject, seq<Camera>>
    reads objects`cameras
  {
    map o | o in objects :: o.cameras
  }

  ghost function Sources(cams: set<Camera>): map<Camera, WorldObject>
    reads cams`source
  {
    map c | c in cams :: c.source
  }

  ghost predicate Matched(lists: map<WorldObject, seq<Camera>>, sources: map<Camera, WorldObject>) {
    && (forall c :: c in sources ==> sources[c] in lists && c in lists[sources[c]])
    && (forall o :: o in lists ==> Distinct(lists[o]))
    && (forall o, c {:trigger c in lists[o]} :: o in lists && c in lists[o] ==> c in sources && sources[c] == o)
  }

  /** The invariant, stated of a snapshot of the lists and sources. */
  lemma {:induction false} ConsistentMatched(objects: set<WorldObject>, cams: set<Camera>)
    ensures Consistent(objects, cams) <==>
            Matched(Lists(objects), Sources(cams)) && forall c :: c in cams ==> c.owner in objects && c.owner.viewable
  {
    hide Distinct;
    var lists, sources := Lists(objects), Sources(cams);
    assert forall o :: o in objects ==> o in lists && lists[o] == o.cameras;
    assert forall c :: c in cams ==> c in sources && sources[c] == c.source;
    if Matched(lists, sources) {
      forall c | c in cams ensures c.source in objects && c in c.source.cameras {
        assert sources[c] == c.source && lists[c.source] == c.source.cameras;
      }
      forall o | o in objects ensures Distinct(o.cameras) { assert o in lists; }
      forall o, c | o in objects && c in o.cameras
        ensures c in cams && c.source == o
      {
        assert o in lists && c in lists[o];
      }
    }
  }

  /** Moving a camera from its list to the end of another keeps lists and sources matched. */
  lemma {:induction false} MoveKeeps(lists: map<WorldObject, seq<Camera>>, sources: map<Camera, WorldObject>,
                                     c: Camera, obj: WorldObject)
    requires Matched(lists, sources) && c in sources && obj in lists && sources[c] != obj
    ensures Matched(lists[sources[c] := Without(lists[sources[c]], c)][obj := lists[obj] + [c]], sources[c := obj])
  {
    hide Distinct, Without;
    var from := sources[c];
    WithoutMembers<Camera>(lists[from], c);
    WithoutDistinct<Camera>(lists[from], c);
    assert c !in lists[obj];
    DistinctAppend(lists[obj], c);
    var detached := lists[from := Without(lists[from], c)];
    var lists', sources' := detached[obj := lists[obj] + [c]], sources[c := obj];
    forall d | d in sources' ensures sources'[d] in lists' && d in lists'[sources'[d]] {
      if d != c { assert d in sources && d in lists[sources[d]]; }
    }
    forall o | o in lists' ensures Distinct(lists'[o]) {
      if o != obj && o != from { assert lists'[o] == lists[o]; }
    }
    forall o, d | o in lists' && d in lists'[o] ensures d in sources' && sources'[d] == o {
      if o == obj {
        assert d == c || d in lists[obj];
      } else if o == from {
        WithoutMember(lists[from], c, d);
      } else {
        assert d in lists[o];
      }
    }
  }

  /** Stated of one camera: its occurrences over all lists are exactly one. */
  lemma {:induction false} ExactlyOnce(objects: set<WorldObject>, cams: set<Camera>, c: Camera)
    requires Consistent(objects, cams) && c in cams
    ensures multiset(c.source.cameras)[c] == 1
    ensures forall o :: o in objects && o != c.source ==> c !in o.cameras
  {
    var s := c.source.cameras;
    var i :| 0 <= i < |s| && s[i] == c;
    assert s == s[..i] + [c] + s[i + 1..];
    assert c !in s[..i] && c !in s[i + 1..];
  }

  /** The camera's grid link is its source's grid. */
  ghost predicate Synced(c: Camera)
    reads c`gridRef, c`source, c.source`grid
  {
    c.gridRef == c.source.grid
  }

  class Camera {
    const owner: WorldObject
    var source: WorldObject
    var gridRef: Option<Grid>

    constructor (pl: WorldObject, ghost objects: set<WorldObject>, ghost cams: set<Camera>)
      requires Consistent(objects, cams) && pl in objects && pl.viewable
      modifies pl`cameras
      ensures Consistent(objects, cams + {this}) && this !in cams
      ensures owner == pl && source == pl && gridRef == None && pl.cameras == old(pl.cameras) + [this]
    {
      owner, source, gridRef := pl, pl, None;
      new;
      assert this !in pl.cameras;
      source.Attach(this);
    }

    /** The destructor's work; by then the view must be back at the owner. */
    method Destroy(ghost objects: set<WorldObject>, ghost cams: set<Camera>)
      requires Consistent(objects, cams) && this in cams && source == owner
      modifies source`cameras
      ensures Consistent(objects, cams - {this})
      ensures forall o :: o in objects ==> this !in o.cameras
    {
      WithoutDistinct(source.cameras, this);
      source.Detach(this);
      WithoutMembers(old(source.cameras), this);
    }

    method UpdateForCurrentViewPoint()
      modifies this`gridRef
      ensures gridRef == source.grid
    {
      gridRef := None;
      if source.grid.Some? {
        gridRef := source.grid;
      }
    }

    /** The object is taken if it is another one, viewable, and on the owner's map with both in the world. */
    method SetView(obj: WorldObject, ghost objects: set<WorldObject>, ghost cams: set<Camera>)
      requires Consistent(objects, cams) && this in cams && obj in objects
      modifies objects`cameras, this`source, this`gridRef
      ensures Consistent(objects, cams)
      ensures old(source == obj || !owner.inWorld || !obj.inWorld || owner.mapId != obj.mapId || !obj.viewable) ==>
                && source == old(source) && gridRef == old(gridRef)
                && forall o :: o in objects ==> o.cameras == old(o.cameras)
      ensures old(source != obj && owner.inWorld && obj.inWorld && owner.mapId == obj.mapId && obj.viewable) ==>
                && source == obj && gridRef == obj.grid
                && obj.cameras == old(obj.cameras) + [this]
                && old(source).cameras == Without(old(source.cameras), this)
                && forall o :: o in objects && o != obj && o != old(source) ==> o.cameras == old(o.cameras)
    {
      hide Without, Matched, Consistent;
      if source == obj { return; }
      if !owner.IsInMap(obj) { return; }
      if !obj.viewable { return; }
      ConsistentMatched(objects, cams);
      ghost var lists, sources := Lists(objects), Sources(cams);
      InObjects(lists, sources, this);
      MoveKeeps(lists, sources, this, obj);
      source.Detach(this);
      source := obj;
      source.Attach(this);
      UpdateForCurrentViewPoint();
      ghost var from: WorldObject := old(source);
      ghost var detached: map<WorldObject, seq<Camera>> := lists[from := Without(lists[from], this)];
      assert Lists(objects) == detached[obj := lists[obj] + [this]];
      assert Sources(cams) == sources[this := obj];
      ConsistentMatched(objects, cams);
    }

    method ResetView(ghost objects: set<WorldObject>, ghost cams: set<Camera>)
      requires Consistent(objects, cams) && this in cams
      modifies objects`cameras, this`source, this`gridRef
      ensures Consistent(objects, cams)
      ensures old(source) == owner || !owner.inWorld ==>
                && source == old(source) && gridRef == old(gridRef)
                && forall o :: o in objects ==> o.cameras == old(o.cameras)
      ensures old(source) != owner && owner.inWorld ==>
                && source == owner && Synced(this)
                && old(source).cameras == Without(old(source.cameras), this)
                && forall o :: o in objects && o != owner && o != old(source) ==> o.cameras == old(o.cameras)
    {
      SetView(owner, objects, cams);
    }

    /**
      The camera stays with its source through the event: it looks through its owner, is shown it, or
      cannot go back.
      */
    predicate Stays(e: Event)
      reads this`source, owner`inWorld, owner`visible
    {
      match e
      case RemovedFromWorld => source == owner || !owner.inWorld
      case VisibilityChanged => owner.IsInVisibleList(source) || !owner.inWorld
      case _ => true
    }

    /** After the event the camera's grid link is up to date (a camera that could not go back to its owner is not). */
    predicate Relinks(e: Event)
      reads this`source
    {
      e == AddedToWorld || e == Moved || (e == RemovedFromWorld && source == owner)
    }

    /** The handlers Event_AddedToWorld to UpdateVisibilityForOwner. */
    method Handle(e: Event, ghost objects: set<WorldObject>, ghost cams: set<Camera>)
      requires Consistent(objects, cams) && this in cams
      requires e == AddedToWorld || e == Moved ==> source.grid.Some?
      requires e == RemovedFromWorld ==> source.grid == None
      modifies objects`cameras, this`source, this`gridRef
      ensures Consistent(objects, cams)
      ensures old(Stays(e)) ==> source == old(source) && forall o :: o in objects ==> o.cameras == old(o.cameras)
      ensures !old(Stays(e)) ==>
                && source == owner && Synced(this)
                && old(source).cameras == Without(old(source.cameras), this)
      ensures Relinks(e) ==> Synced(this)
    {
      match e
      case AddedToWorld =>
        gridRef := source.grid;
      case RemovedFromWorld =>
        if source == owner {
          gridRef := None;
          return;
        }
        ResetView(objects, cams);
      case Moved =>
        gridRef := None;
        gridRef := source.grid;
      case VisibilityChanged =>
        if !owner.IsInVisibleList(source) {
          ResetView(objects, cams);
        }
      case UpdateVisibility =>
    }
  }

}
