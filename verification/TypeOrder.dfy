/**
 The order in which global properties are emitted: createGlobalProperties and
 createGlobalType in src/compiler/ecModuleWrite.c, a depth-first search over
 base types and interfaces with a VISITED flag on each object.
 */
module TypeOrder {
  import opened Bytes
  import opened OnPathSearch

  /** A global property's value; objects are named by their slot in the global object. */
  datatype GlobalObj = GlobalObj(isType: bool, owner: int, base: Option<nat>, implements: seq<nat>)

  /** The global object while module `mp` is written. */
  datatype World = World(objs: seq<GlobalObj>, mp: int) {
    predicate Valid() {
      forall t :: 0 <= t < |objs| && objs[t].isType ==>
        && (objs[t].base.Some? ==> IsType(objs[t].base.value))
        && forall i :: 0 <= i < |objs[t].implements| ==> IsType(objs[t].implements[i])
    }

    predicate IsType(t: int) {
      0 <= t < |objs| && objs[t].isType
    }

    predicate Owned(t: int) {
      IsType(t) && objs[t].owner == mp
    }

    /** d is the base type or an interface of t, and both belong to the module. */
    predicate Needs(t: int, d: int) {
      && Owned(t) && Owned(d)
      && (objs[t].base == Some(d) || d in objs[t].implements)
    }

    /** The types the search below t goes to, in this order. */
    function Parents(t: int): seq<nat>
      requires IsType(t)
    {
      (if objs[t].base.Some? then [objs[t].base.value] else []) + objs[t].implements
    }

    /** Those of them that belong to the module. */
    function OwnedOf(ds: seq<nat>): seq<nat> {
      if ds == [] then []
      else OwnedOf(ds[..|ds| - 1]) + if Owned(ds[|ds| - 1]) then [ds[|ds| - 1]] else []
    }

    /** The graph of what types of the module need within it. */
    function Edges(): (g: Graph)
      ensures |g| == |objs|
    {
      seq(|objs|, t requires 0 <= t < |objs| => if Owned(t) then OwnedOf(Parents(t)) else [])
    }

    lemma {:induction false} OwnedOfIff(ds: seq<nat>, d: nat)
      ensures d in OwnedOf(ds) <==> d in ds && Owned(d)
      decreases |ds|
    {
      if ds != [] {
        OwnedOfIff(ds[..|ds| - 1], d);
        assert ds == ds[..|ds| - 1] + [ds[|ds| - 1]];
      }
    }

    /** Edges are what Needs says. */
    lemma EdgeIff(t: nat, d: nat)
      requires t < |objs|
      ensures d in Edges()[t] <==> Needs(t, d)
    {
      hide OwnedOf;
      if Owned(t) {
        OwnedOfIff(Parents(t), d);
      }
    }

    ghost predicate IsChain(p: seq<int>) {
      p != [] && forall i :: 0 <= i < |p| - 1 ==> Needs(p[i], p[i + 1])
    }

    /** b is a, or an ancestor of a through types of the module. */
    ghost predicate Reaches(a: int, b: int) {
      exists p :: IsChain(p) && p[0] == a && p[|p| - 1] == b
    }

    lemma ReachesSelf(a: int)
      ensures Reaches(a, a)
    {
      assert IsChain([a]);
    }

    lemma ReachesStep(a: int, b: int, c: int)
      requires Reaches(a, b) && Needs(b, c)
      ensures Reaches(a, c)
    {
      var p :| IsChain(p) && p[0] == a && p[|p| - 1] == b;
      assert IsChain(p + [c]);
    }

    lemma ReachesThrough(a: int, b: int, c: int)
      requires Needs(a, b) && Reaches(b, c)
      ensures Reaches(a, c)
    {
      var p :| IsChain(p) && p[0] == b && p[|p| - 1] == c;
      assert IsChain([a] + p);
    }

    /** Sets of types closed under Needs contain all they reach. */
    lemma {:induction false} ClosedContains(closed: set<int>, p: seq<int>)
      requires IsChain(p) && p[0] in closed
      requires forall x, y :: x in closed && Needs(x, y) ==> y in closed
      ensures p[|p| - 1] in closed
      decreases |p|
    {
      if |p| > 1 {
        assert IsChain(p[1..]);
        ClosedContains(closed, p[1..]);
      }
    }
  }

  function Elements(s: seq<int>): set<int> {
    set x | x in s
  }

  /**
   The order emission owes: a type comes after everything it needs, unless what
   it needs also needs it, that is, unless inheritance is circular there.
   */
  ghost predicate Ordered(w: World, emitted: seq<int>, from: nat) {
    forall k, d :: from <= k < |emitted| && w.Needs(emitted[k], d) ==> d in emitted[..k] || w.Reaches(d, emitted[k])
  }

  ghost predicate NoRepeats(s: seq<int>, from: nat) {
    forall i, j :: from <= i < j < |s| ==> s[i] != s[j]
  }

  ghost predicate Closed(w: World, some: set<int>, all: set<int>) {
    forall x, d :: x in some && w.Needs(x, d) ==> d in all
  }

  /** The VISITED flags set, and the slots passed to createSection so far. */
  datatype State = State(visited: set<int>, emitted: seq<int>) {
    /** Types being worked on: flagged, but not emitted yet. */
    ghost function Open(): set<int> {
      visited - Elements(emitted)
    }
  }

  /**
   From state a to state b a search below t flagged and emitted types, each of
   them once, in order, complete, and all needed by t; `held` is flagged only.
   */
  ghost predicate Adds(w: World, t: int, held: set<int>, a: State, b: State) {
    && a.visited + held <= b.visited
    && a.emitted <= b.emitted
    && Elements(b.emitted[|a.emitted|..]) == b.visited - a.visited - held
    && NoRepeats(b.emitted, |a.emitted|)
    && Ordered(w, b.emitted, |a.emitted|)
    && Closed(w, b.visited - a.visited - held, b.visited)
    && forall x :: x in b.visited - a.visited ==> w.Owned(x) && w.Reaches(t, x)
  }

  lemma AddsNothing(w: World, t: int, a: State)
    ensures Adds(w, t, {}, a, a)
  {
    assert Elements(a.emitted[|a.emitted|..]) == {};
  }

  lemma AddsStart(w: World, t: int, a: State)
    requires w.Owned(t) && t !in a.visited
    ensures Adds(w, t, {t}, a, State(a.visited + {t}, a.emitted))
  {
    assert Elements(a.emitted[|a.emitted|..]) == {};
    w.ReachesSelf(t);
  }

  lemma TailSplit(a: seq<int>, b: seq<int>, c: seq<int>)
    requires a <= b <= c
    ensures Elements(c[|a|..]) == Elements(b[|a|..]) + Elements(c[|b|..])
    ensures Elements(c) == Elements(a) + Elements(c[|a|..])
  {
    assert c[|a|..] == b[|a|..] + c[|b|..];
    assert c == a + c[|a|..];
    assert forall x :: x in c[|a|..] <==> x in b[|a|..] || x in c[|b|..];
    assert forall x :: x in c <==> x in a || x in c[|a|..];
  }

  /** A search below something t needs is part of the search below t. */
  lemma AddsNeeded(w: World, t: int, a: State, m: State, d: int, b: State)
    requires Adds(w, t, {t}, a, m) && w.Needs(t, d) && Adds(w, d, {}, m, b)
    ensures Adds(w, t, {t}, a, b)
  {
    TailSplit(a.emitted, m.emitted, b.emitted);
    forall x | x in b.visited - a.visited ensures w.Owned(x) && w.Reaches(t, x) {
      if x !in m.visited {
        w.ReachesThrough(t, d, x);
      }
    }
    NoRepeatsJoin(a, m, b);
    OrderedJoin(w, m.emitted, b.emitted, |a.emitted|);
  }

  lemma NoRepeatsJoin(a: State, m: State, b: State)
    requires a.emitted <= m.emitted <= b.emitted
    requires NoRepeats(m.emitted, |a.emitted|) && NoRepeats(b.emitted, |m.emitted|)
    requires Elements(m.emitted[|a.emitted|..]) !! Elements(b.emitted[|m.emitted|..])
    ensures NoRepeats(b.emitted, |a.emitted|)
  {
    forall i, j | |a.emitted| <= i < j < |b.emitted| ensures b.emitted[i] != b.emitted[j] {
      if i < |m.emitted| <= j {
        assert m.emitted[|a.emitted|..][i - |a.emitted|] == m.emitted[i] == b.emitted[i];
        assert b.emitted[|m.emitted|..][j - |m.emitted|] == b.emitted[j];
        assert b.emitted[i] in Elements(m.emitted[|a.emitted|..]);
        assert b.emitted[j] in Elements(b.emitted[|m.emitted|..]);
      } else if j < |m.emitted| {
        assert b.emitted[i] == m.emitted[i] && b.emitted[j] == m.emitted[j];
      }
    }
  }

  lemma OrderedJoin(w: World, m: seq<int>, b: seq<int>, from: nat)
    requires m <= b && Ordered(w, m, from) && Ordered(w, b, |m|)
    ensures Ordered(w, b, from)
  {
    forall k, d | from <= k < |b| && w.Needs(b[k], d) ensures d in b[..k] || w.Reaches(d, b[k]) {
      if k < |m| {
        assert b[..k] == m[..k];
      }
    }
  }

  /** While t is worked on, only it joins the types that were being worked on. */
  lemma OpenWhileWorking(w: World, t: int, a: State, m: State)
    requires Adds(w, t, {t}, a, m)
    ensures m.Open() <= a.Open() + {t}
  {
    TailSplit(a.emitted, a.emitted, m.emitted);
  }

  /** Emitting t completes its search. */
  lemma AddsFinish(w: World, t: int, a: State, m: State)
    requires Adds(w, t, {t}, a, m) && t !in a.visited && Closed(w, {t}, m.visited)
    requires forall g :: g in a.Open() ==> w.Reaches(g, t)
    ensures Adds(w, t, {}, a, State(m.visited, m.emitted + [t]))
  {
    var b := State(m.visited, m.emitted + [t]);
    TailSplit(a.emitted, m.emitted, b.emitted);
    assert b.emitted[|m.emitted|..] == [t];
    assert NoRepeats(b.emitted, |m.emitted|);
    NoRepeatsJoin(a, m, b);
    OpenWhileWorking(w, t, a, m);
    w.ReachesSelf(t);
    forall d | w.Needs(t, d) ensures d in b.emitted[..|m.emitted|] || w.Reaches(d, t) {
      assert b.emitted[..|m.emitted|] == m.emitted;
      if d !in m.emitted {
        assert d in m.Open();
      }
    }
    assert Ordered(w, b.emitted, |m.emitted|);
    OrderedJoin(w, m.emitted, b.emitted, |a.emitted|);
  }

  // ------------------------------------------------------------------ The search

  ghost function Unvisited(w: World, visited: set<int>): set<int> {
    set t | 0 <= t < |w.objs| && t !in visited
  }

  /** createGlobalType, on values: what is needed first, then t. */
  ghost function Visit(w: World, t: int, s: State): (r: State)
    requires w.Valid() && w.IsType(t)
    ensures s.visited <= r.visited
    decreases Unvisited(w, s.visited), 0
  {
    if t in s.visited || w.objs[t].owner != w.mp then s
    else
      assert t in Unvisited(w, s.visited) && t !in Unvisited(w, s.visited + {t});
      var b := VisitAll(w, w.Parents(t), State(s.visited + {t}, s.emitted));
      State(b.visited, b.emitted + [t])
  }

  /** One search after the other. */
  ghost function VisitAll(w: World, ds: seq<nat>, s: State): (r: State)
    requires w.Valid() && forall i :: 0 <= i < |ds| ==> w.IsType(ds[i])
    ensures s.visited <= r.visited
    decreases Unvisited(w, s.visited), |ds| + 1
  {
    if ds == [] then s
    else
      var m := VisitAll(w, ds[..|ds| - 1], s);
      assert Unvisited(w, m.visited) <= Unvisited(w, s.visited);
      Visit(w, ds[|ds| - 1], m)
  }

  /** createGlobalProperties, on values: each listed property at its turn. */
  ghost function EmitAll(w: World, props: seq<int>): State
    requires w.Valid() && forall i :: 0 <= i < |props| ==> 0 <= props[i] < |w.objs|
  {
    if props == [] then State({}, [])
    else
      var s, p := EmitAll(w, props[..|props| - 1]), props[|props| - 1];
      if p in s.visited then s
      else if w.objs[p].isType then Visit(w, p, s)
      else State(s.visited, s.emitted + [p])
  }

  /** The order in which the listed properties, and what they need, are emitted. */
  ghost function Order(w: World, props: seq<int>): seq<int>
    requires w.Valid() && forall i :: 0 <= i < |props| ==> 0 <= props[i] < |w.objs|
  {
    EmitAll(w, props).emitted
  }

  class Emitter {
    const w: World
    var visited: set<int>   // objects whose VISITED flag is set
    var emitted: seq<int>   // slots passed to createSection, in order
    var fatalError: bool

    ghost function Now(): State
      reads this
    {
      State(visited, emitted)
    }

    constructor (w: World)
      ensures this.w == w && visited == {} && emitted == [] && !fatalError
    {
      this.w := w;
      visited, emitted, fatalError := {}, [], false;
    }

    /** createGlobalType: emit what t needs, then t. */
    method CreateGlobalType(t: int)
      requires w.Valid() && w.IsType(t)
      modifies this`visited, this`emitted
      ensures Now() == Visit(w, t, old(Now()))
      decreases Unvisited(w, visited), 0
    {
      hide Visit, VisitAll, World.Parents;
      ghost var before := Now();
      VisitIs(w, t, before);
      if t in visited || w.objs[t].owner != w.mp {
        return;
      }
      ghost var ds, start := w.Parents(t), State(visited + {t}, emitted);
      visited := visited + {t};
      assert t in Unvisited(w, old(visited)) && t !in Unvisited(w, visited);
      ghost var k := if w.objs[t].base.Some? then 1 else 0;
      ParentsCount(w, t);
      VisitBase(w, t, start);
      if w.objs[t].base.Some? && w.objs[t].base.value !in visited {
        CreateGlobalType(w.objs[t].base.value);
      }
      for i := 0 to |w.objs[t].implements|
        invariant Now() == VisitAll(w, ds[..k + i], start) && start.visited <= visited
      {
        VisitInterface(w, t, i, start);
        assert Unvisited(w, visited) <= Unvisited(w, start.visited);
        CreateGlobalType(w.objs[t].implements[i]);
      }
      emitted := emitted + [t];
    }

    /**
     createGlobalProperties: emit every listed property, types after what they
     need, then clear the flags of the listed properties. `props` holds the slots
     the names were looked up to, -1 for a name that is not found.
     */
    method CreateGlobalProperties(props: seq<int>)
      requires w.Valid() && visited == {} && emitted == [] && !fatalError
      requires forall i :: 0 <= i < |props| ==> -1 <= props[i] < |w.objs|
      modifies this
      ensures fatalError <==> -1 in props
      ensures !fatalError ==> emitted == Order(w, props) && Complete(w, props, emitted)
      ensures !fatalError ==> visited == TypesIn(w, emitted) - Elements(props)
    {
      hide Complete, Visit, EmitAll, Progress, TypesIn, Unvisited, Elements;
      EmitNone(w);
      for next := 0 to |props|
        invariant !fatalError && -1 !in props[..next]
        invariant Now() == EmitAll(w, props[..next])
      {
        assert props[..next + 1] == props[..next] + [props[next]];
        var slotNum := props[next];
        if slotNum < 0 {
          fatalError := true;
          return;
        }
        EmitOneMore(w, props[..next], slotNum);
        if slotNum in visited {
          continue;
        }
        if w.objs[slotNum].isType {
          CreateGlobalType(slotNum);
        } else {
          emitted := emitted + [slotNum];
        }
      }
      assert props[..|props|] == props;
      EmitAllProgress(w, props);
      ProgressComplete(w, props, Now());
      ProgressFlags(w, props, Now());
      ghost var flagged, listed := visited, emitted;
      NoElements();
      for next := 0 to |props|
        invariant visited == flagged - Elements(props[..next])
        invariant !fatalError && emitted == listed
      {
        assert props[..next + 1] == props[..next] + [props[next]];
        ElementsAppend(props[..next], props[next]);
        visited := visited - {props[next]};
      }
      assert props[..|props|] == props;
    }
  }

  lemma EmitNone(w: World)
    requires w.Valid()
    ensures EmitAll(w, []) == State({}, [])
  {
  }

  lemma EmitOneMore(w: World, props: seq<int>, p: int)
    requires w.Valid() && (forall i :: 0 <= i < |props| ==> 0 <= props[i] < |w.objs|) && 0 <= p < |w.objs|
    ensures var s := EmitAll(w, props);
      EmitAll(w, props + [p]) == if p in s.visited then s
                                 else if w.objs[p].isType then Visit(w, p, s)
                                 else State(s.visited, s.emitted + [p])
  {
    assert (props + [p])[..|props|] == props;
  }

  lemma NoElements()
    ensures Elements([]) == {}
  {
  }

  lemma ElementsAppend(s: seq<int>, x: int)
    ensures Elements(s + [x]) == Elements(s) + {x}
  {
  }

  lemma VisitIs(w: World, t: int, s: State)
    requires w.Valid() && w.IsType(t)
    ensures Visit(w, t, s) == if t in s.visited || w.objs[t].owner != w.mp then s
      else
        var m := VisitAll(w, w.Parents(t), State(s.visited + {t}, s.emitted));
        State(m.visited, m.emitted + [t])
  {
  }

  lemma VisitBase(w: World, t: int, s: State)
    requires w.Valid() && w.IsType(t)
    ensures w.objs[t].base.None? ==> VisitAll(w, w.Parents(t)[..0], s) == s
    ensures w.objs[t].base.Some? ==>
              VisitAll(w, w.Parents(t)[..1], s)
              == if w.objs[t].base.value in s.visited then s else Visit(w, w.objs[t].base.value, s)
  {
    assert w.Parents(t)[..0] == [];
    VisitOneMore(w, w.Parents(t), 0, s);
  }

  lemma ParentsCount(w: World, t: int)
    requires w.Valid() && w.IsType(t)
    ensures forall i :: 0 <= i < |w.Parents(t)| ==> w.IsType(w.Parents(t)[i])
    ensures |w.Parents(t)| == (if w.objs[t].base.Some? then 1 else 0) + |w.objs[t].implements|
    ensures w.Parents(t)[..|w.Parents(t)|] == w.Parents(t)
  {
  }

  lemma VisitInterface(w: World, t: int, i: nat, s: State)
    requires w.Valid() && w.IsType(t) && i < |w.objs[t].implements|
    ensures var k := if w.objs[t].base.Some? then 1 else 0;
      && k + i < |w.Parents(t)|
      && VisitAll(w, w.Parents(t)[..k + i + 1], s)
         == Visit(w, w.objs[t].implements[i], VisitAll(w, w.Parents(t)[..k + i], s))
  {
    hide Visit, VisitAll;
    var k := if w.objs[t].base.Some? then 1 else 0;
    assert w.Parents(t)[k + i] == w.objs[t].implements[i];
    VisitOneMore(w, w.Parents(t), k + i, s);
  }

  lemma VisitOneMore(w: World, ds: seq<nat>, i: nat, s: State)
    requires w.Valid() && forall j :: 0 <= j < |ds| ==> w.IsType(ds[j])
    ensures i < |ds| ==> VisitAll(w, ds[..i + 1], s) == Visit(w, ds[i], VisitAll(w, ds[..i], s))
  {
    hide Visit;
    if i < |ds| {
      assert ds[..i + 1][..i] == ds[..i];
    }
  }

  // ------------------------------------------------------ What a search adds

  lemma {:induction false} VisitAdds(w: World, t: int, s: State)
    requires w.Valid() && w.IsType(t)
    requires w.Owned(t) ==> forall g :: g in s.Open() ==> w.Reaches(g, t)
    ensures Adds(w, t, {}, s, Visit(w, t, s))
    ensures if w.Owned(t) then t in Visit(w, t, s).visited else Visit(w, t, s) == s
    decreases Unvisited(w, s.visited), 0
  {
    hide Adds, State.Open;
    if t in s.visited || w.objs[t].owner != w.mp {
      AddsNothing(w, t, s);
    } else {
      assert t in Unvisited(w, s.visited) && t !in Unvisited(w, s.visited + {t});
      var ds := w.Parents(t);
      ParentsAdd(w, t, s, ds);
      ParentsClosed(w, t, VisitAll(w, ds, State(s.visited + {t}, s.emitted)).visited);
      AddsFinish(w, t, s, VisitAll(w, ds, State(s.visited + {t}, s.emitted)));
    }
  }

  lemma ParentsClosed(w: World, t: int, visited: set<int>)
    requires w.Owned(t) && forall j :: 0 <= j < |w.Parents(t)| && w.Owned(w.Parents(t)[j]) ==> w.Parents(t)[j] in visited
    ensures Closed(w, {t}, visited)
  {
    var ds := w.Parents(t);
    if w.objs[t].base.Some? {
      assert ds[0] == w.objs[t].base.value;
    }
    forall d | d in w.objs[t].implements && w.Owned(d) ensures d in visited {
      assert d in ds;
    }
  }

  /** The searches below some of what t goes to, seen as part of the work on t. */
  lemma {:induction false} ParentsAdd(w: World, t: int, s: State, ds: seq<nat>)
    requires w.Valid() && w.Owned(t) && t !in s.visited
    requires forall d :: d in ds ==> w.IsType(d) && d in w.Parents(t)
    requires forall g :: g in s.Open() ==> w.Reaches(g, t)
    ensures var r := VisitAll(w, ds, State(s.visited + {t}, s.emitted));
      && Adds(w, t, {t}, s, r)
      && forall d :: d in ds && w.Owned(d) ==> d in r.visited
    decreases Unvisited(w, s.visited + {t}), |ds| + 1
  {
    hide Adds, Visit, State.Open, World.Parents, World.Reaches, World.Valid;
    var start := State(s.visited + {t}, s.emitted);
    if ds == [] {
      AddsStart(w, t, s);
    } else {
      var front, d := ds[..|ds| - 1], ds[|ds| - 1];
      assert ds == front + [d];
      ParentsAdd(w, t, s, front);
      ParentAdds(w, t, s, VisitAll(w, front, start), d);
    }
  }

  lemma ParentAdds(w: World, t: int, s: State, m: State, d: int)
    requires w.Valid() && w.Owned(t) && w.IsType(d) && d in w.Parents(t) && t !in s.visited
    requires forall g :: g in s.Open() ==> w.Reaches(g, t)
    requires Adds(w, t, {t}, s, m) && s.visited + {t} <= m.visited
    ensures Adds(w, t, {t}, s, Visit(w, d, m)) && (w.Owned(d) ==> d in Visit(w, d, m).visited)
    decreases Unvisited(w, s.visited + {t}), 1
  {
    hide Adds, Visit, State.Open;
    OpenWhileWorking(w, t, s, m);
    w.ReachesSelf(t);
    forall g | w.Owned(d) && g in m.Open() ensures w.Reaches(g, d) {
      w.ReachesStep(g, t, d);
    }
    assert Unvisited(w, m.visited) <= Unvisited(w, s.visited + {t});
    VisitAdds(w, d, m);
    if w.Owned(d) {
      AddsNeeded(w, t, s, m, d, Visit(w, d, m));
    }
  }

  /** The listed properties that are not types, in order, as often as they are listed. */
  function Others(w: World, slots: seq<int>): seq<int> {
    if slots == [] then []
    else
      var last := slots[|slots| - 1];
      Others(w, slots[..|slots| - 1]) + if w.IsType(last) then [] else [last]
  }

  /** t is a type of the module that a listed type is, or needs directly or not. */
  ghost predicate Wanted(w: World, props: seq<int>, t: int) {
    exists p :: p in props && w.Owned(p) && w.Reaches(p, t)
  }

  ghost predicate TypesOnce(w: World, emitted: seq<int>) {
    forall i, j :: 0 <= i < j < |emitted| && emitted[i] == emitted[j] ==> !w.IsType(emitted[i])
  }

  /** The result owed: the wanted types and no others, each once and in order; the rest as listed. */
  ghost predicate Complete(w: World, props: seq<int>, emitted: seq<int>) {
    && (forall t :: t in emitted && w.IsType(t) <==> Wanted(w, props, t))
    && TypesOnce(w, emitted)
    && Ordered(w, emitted, 0)
    && Others(w, emitted) == Others(w, props)
  }

  function TypesIn(w: World, slots: seq<int>): set<int> {
    set t | t in slots && w.IsType(t)
  }

  /** Flags stand on exactly the types emitted. */
  ghost predicate FlagsMatch(w: World, s: State) {
    s.visited == TypesIn(w, s.emitted)
  }

  ghost predicate AllWanted(w: World, done: seq<int>, visited: set<int>) {
    forall t :: t in visited ==> Wanted(w, done, t)
  }

  ghost predicate Started(w: World, done: seq<int>, visited: set<int>) {
    forall p :: p in done && w.Owned(p) ==> p in visited
  }

  /** Complete for the properties handled so far. */
  ghost predicate Progress(w: World, done: seq<int>, s: State) {
    && FlagsMatch(w, s)
    && TypesOnce(w, s.emitted)
    && Ordered(w, s.emitted, 0)
    && Closed(w, s.visited, s.visited)
    && AllWanted(w, done, s.visited)
    && Started(w, done, s.visited)
    && Others(w, s.emitted) == Others(w, done)
  }

  lemma ProgressStart(w: World)
    ensures Progress(w, [], State({}, []))
  {
  }

  lemma ProgressNoneOpen(w: World, done: seq<int>, s: State)
    requires Progress(w, done, s)
    ensures s.Open() == {}
  {
    hide Ordered, TypesOnce, Closed, AllWanted, Started;
    assert forall t :: t in s.visited ==> t in Elements(s.emitted);
  }

  lemma ProgressFlags(w: World, done: seq<int>, s: State)
    requires Progress(w, done, s)
    ensures FlagsMatch(w, s)
  {
  }

  lemma OthersAppend(w: World, slots: seq<int>, x: int)
    ensures Others(w, slots + [x]) == Others(w, slots) + if w.IsType(x) then [] else [x]
  {
    assert (slots + [x])[..|slots|] == slots;
  }

  lemma WantedMore(w: World, done: seq<int>, p: int, visited: set<int>)
    requires AllWanted(w, done, visited)
    ensures AllWanted(w, done + [p], visited)
  {
    forall t | t in visited ensures Wanted(w, done + [p], t) {
      assert Wanted(w, done, t);
      var q :| q in done && w.Owned(q) && w.Reaches(q, t);
      assert q in done + [p];
    }
  }

  lemma ProgressSkip(w: World, done: seq<int>, s: State, p: int)
    requires Progress(w, done, s) && p in s.visited
    ensures Progress(w, done + [p], s)
  {
    hide Ordered, TypesOnce, Closed, AllWanted, Others;
    OthersAppend(w, done, p);
    WantedMore(w, done, p, s.visited);
  }

  lemma ProgressOther(w: World, done: seq<int>, s: State, p: int)
    requires Progress(w, done, s) && !w.IsType(p)
    ensures Progress(w, done + [p], State(s.visited, s.emitted + [p]))
  {
    hide Closed, AllWanted, Others;
    OthersAppend(w, done, p);
    OthersAppend(w, s.emitted, p);
    WantedMore(w, done, p, s.visited);
    assert TypesOnce(w, s.emitted + [p]) by { hide Ordered, Started; }
    assert FlagsMatch(w, State(s.visited, s.emitted + [p])) by { hide Ordered, Started, TypesOnce; }
    assert Ordered(w, s.emitted + [p], 0) by {
      hide Started, TypesOnce, FlagsMatch;
      assert Ordered(w, s.emitted + [p], |s.emitted|);
      OrderedJoin(w, s.emitted, s.emitted + [p], 0);
    }
    hide Ordered, TypesOnce, FlagsMatch;
  }

  lemma {:induction false} OthersTypes(w: World, slots: seq<int>, tail: seq<int>)
    requires forall x :: x in tail ==> w.IsType(x)
    ensures Others(w, slots + tail) == Others(w, slots)
    decreases |tail|
  {
    if tail == [] {
      assert slots + tail == slots;
    } else {
      var last := |tail| - 1;
      assert slots + tail == slots + tail[..last] + [tail[last]];
      OthersAppend(w, slots + tail[..last], tail[last]);
      OthersTypes(w, slots, tail[..last]);
    }
  }

  /** What a search added: types of the module only, flagged and emitted alike. */
  lemma AddedTypes(w: World, s: State, p: int, b: State)
    requires FlagsMatch(w, s) && TypesOnce(w, s.emitted) && Adds(w, p, {}, s, b)
    ensures FlagsMatch(w, b) && TypesOnce(w, b.emitted) && Others(w, b.emitted) == Others(w, s.emitted)
  {
    hide Ordered, Closed, Others;
    var tail := b.emitted[|s.emitted|..];
    assert b.emitted == s.emitted + tail;
    TailSplit(s.emitted, s.emitted, b.emitted);
    forall x | x in tail ensures w.IsType(x) && x in b.visited && x !in s.visited {
      assert x in Elements(tail);
    }
    OthersTypes(w, s.emitted, tail);
    forall t ensures t in b.visited <==> t in TypesIn(w, b.emitted) {
      assert t in b.emitted <==> t in s.emitted || t in tail;
      assert t in tail <==> t in Elements(tail);
    }
    assert b.visited == TypesIn(w, b.emitted);
    forall i, j | 0 <= i < j < |b.emitted| && b.emitted[i] == b.emitted[j] ensures !w.IsType(b.emitted[i]) {
      if i < |s.emitted| {
        assert b.emitted[i] == s.emitted[i] && b.emitted[i] in s.emitted;
        if j >= |s.emitted| {
          assert b.emitted[j] == tail[j - |s.emitted|] && b.emitted[j] in tail;
        } else {
          assert b.emitted[j] == s.emitted[j];
        }
      }
    }
  }

  lemma AddedWanted(w: World, done: seq<int>, s: State, p: int, b: State)
    requires AllWanted(w, done, s.visited) && Adds(w, p, {}, s, b) && w.Owned(p)
    ensures AllWanted(w, done + [p], b.visited)
  {
    hide Ordered, Closed;
    WantedMore(w, done, p, s.visited);
    forall t | t in b.visited ensures Wanted(w, done + [p], t) {
      if t in s.visited {
        assert Wanted(w, done + [p], t);
      } else {
        assert p in done + [p] && w.Reaches(p, t);
      }
    }
  }

  lemma ProgressType(w: World, done: seq<int>, s: State, p: int, b: State)
    requires Progress(w, done, s) && w.IsType(p) && Adds(w, p, {}, s, b)
    requires if w.Owned(p) then p in b.visited else b == s
    ensures Progress(w, done + [p], b)
  {
    hide FlagsMatch, TypesOnce, AllWanted, Others;
    OthersAppend(w, done, p);
    AddedTypes(w, s, p, b);
    if w.Owned(p) {
      AddedWanted(w, done, s, p, b);
    } else {
      WantedMore(w, done, p, s.visited);
    }
    OrderedJoin(w, s.emitted, b.emitted, 0);
    hide Ordered;
  }

  lemma ProgressComplete(w: World, props: seq<int>, s: State)
    requires Progress(w, props, s)
    ensures Complete(w, props, s.emitted)
  {
    hide Ordered, TypesOnce;
    forall t | Wanted(w, props, t) ensures t in s.visited {
      var p :| p in props && w.Owned(p) && w.Reaches(p, t);
      var path :| w.IsChain(path) && path[0] == p && path[|path| - 1] == t;
      w.ClosedContains(s.visited, path);
    }
    forall t ensures t in s.emitted && w.IsType(t) <==> Wanted(w, props, t) {
      hide Wanted, Closed;
    }
  }

  lemma {:induction false} EmitAllProgress(w: World, props: seq<int>)
    requires w.Valid() && forall i :: 0 <= i < |props| ==> 0 <= props[i] < |w.objs|
    ensures Progress(w, props, EmitAll(w, props))
    decreases |props|
  {
    hide Progress, Adds, Visit, State.Open;
    if props == [] {
      ProgressStart(w);
    } else {
      var done, p := props[..|props| - 1], props[|props| - 1];
      EmitAllProgress(w, done);
      var s := EmitAll(w, done);
      assert props == done + [p];
      if p in s.visited {
        ProgressSkip(w, done, s, p);
      } else if w.objs[p].isType {
        ProgressNoneOpen(w, done, s);
        VisitAdds(w, p, s);
        ProgressType(w, done, s, p, Visit(w, p, s));
      } else {
        ProgressOther(w, done, s, p);
      }
    }
  }

  lemma {:induction false} OthersIff(w: World, slots: seq<int>, x: int)
    ensures x in Others(w, slots) <==> x in slots && !w.IsType(x)
    decreases |slots|
  {
    if slots != [] {
      var last := |slots| - 1;
      OthersIff(w, slots[..last], x);
      assert slots == slots[..last] + [slots[last]];
    }
  }

  /** Only slots that exist are emitted. */
  lemma EmittedExist(w: World, props: seq<int>, emitted: seq<int>)
    requires Complete(w, props, emitted)
    requires forall i :: 0 <= i < |props| ==> 0 <= props[i] < |w.objs|
    ensures forall k :: 0 <= k < |emitted| ==> 0 <= emitted[k] < |w.objs|
  {
    hide Ordered, TypesOnce, Wanted;
    forall k | 0 <= k < |emitted| ensures 0 <= emitted[k] < |w.objs| {
      OthersIff(w, emitted, emitted[k]);
      OthersIff(w, props, emitted[k]);
    }
  }

  /** Without circular inheritance every type follows all it needs. */
  lemma AcyclicOrder(w: World, emitted: seq<int>)
    requires Ordered(w, emitted, 0)
    requires forall x, d :: w.Needs(x, d) ==> !w.Reaches(d, x)
    ensures forall k, d :: 0 <= k < |emitted| && w.Needs(emitted[k], d) ==> d in emitted[..k]
  {
  }

  /** Flags are left behind on exactly the emitted types that are not listed. */
  lemma FlagsClear(w: World, props: seq<int>, emitted: seq<int>)
    requires Complete(w, props, emitted)
    ensures TypesIn(w, emitted) <= Elements(props)
       <==> forall p, t :: p in props && w.Owned(p) && w.Reaches(p, t) ==> t in props
  {
    hide Ordered, Others, TypesOnce;
    if TypesIn(w, emitted) <= Elements(props) {
      forall p, t | p in props && w.Owned(p) && w.Reaches(p, t) ensures t in props {
        assert Wanted(w, props, t);
        assert t in emitted && w.IsType(t);
        assert t in TypesIn(w, emitted);
      }
    }
  }

  /** Type 0 extends type 1. */
  const EXTENDS: World := World([GlobalObj(true, 0, Some(1), []), GlobalObj(true, 0, None, [])], 0)

  /** A flag left behind: if only the derived type is listed, its base type is emitted too and stays flagged. */
  lemma FlagLeft(emitted: seq<int>)
    requires Complete(EXTENDS, [0], emitted)
    ensures EXTENDS.Valid() && TypesIn(EXTENDS, emitted) - Elements([0]) == {1}
  {
    hide Ordered, Others, TypesOnce;
    assert EXTENDS.Needs(0, 1);
    EXTENDS.ReachesSelf(0);
    EXTENDS.ReachesStep(0, 0, 1);
    assert 0 in [0] && EXTENDS.Owned(0) && Wanted(EXTENDS, [0], 1);
    assert forall t :: EXTENDS.IsType(t) <==> t == 0 || t == 1;
  }
}
