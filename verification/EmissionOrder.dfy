/**
 Where each global property stands in a written module (createGlobalProperties
 and createGlobalType in src/compiler/ecModuleWrite.c): each listed property is
 emitted at its turn, with what it needs just before it, the base type's part
 before those of the interfaces, and these in the order they are listed.
 */
module EmissionOrder {
  import opened Bytes
  import opened OnPathSearch
  import opened TypeOrder

  lemma ReachesJoin(g: Graph, avoid: set<nat>, a: nat, b: nat, c: nat)
    requires Reaches(g, avoid, a, b) && Reaches(g, avoid, b, c)
    ensures Reaches(g, avoid, a, c)
  {
    var p :| IsPath(g, p, avoid) && p[0] == a && p[|p| - 1] == b;
    var q :| IsPath(g, q, avoid) && q[0] == b && q[|q| - 1] == c;
    assert IsPath(g, p + q[1..], avoid);
    assert (p + q[1..])[|p + q[1..]| - 1] == c;
  }

  lemma ReachesLess(g: Graph, avoid: set<nat>, more: set<nat>, a: nat, b: nat)
    requires Reaches(g, more, a, b) && avoid <= more
    ensures Reaches(g, avoid, a, b)
  {
    var p :| IsPath(g, p, more) && p[0] == a && p[|p| - 1] == b;
    assert IsPath(g, p, avoid);
  }

  /** A path that avoids fewer objects avoids more of them too, or meets one from which its end is reached. */
  lemma AvoidsOrMeets(g: Graph, avoid: set<nat>, more: set<nat>, a: nat, b: nat) returns (m: nat)
    requires Reaches(g, avoid, a, b) && avoid <= more
    ensures Reaches(g, more, a, b) || (m in more && m !in avoid && Reaches(g, avoid, m, b))
  {
    var p :| IsPath(g, p, avoid) && p[0] == a && p[|p| - 1] == b;
    m := a;
    if i :| 0 <= i < |p| && p[i] in more {
      m := p[i];
      assert IsPath(g, p[i..], avoid);
    } else {
      assert IsPath(g, p, more);
    }
  }

  /** t, or what is below it, past the marks. */
  ghost predicate Below(w: World, marks: set<int>, t: int, x: int) {
    w.Owned(t) && 0 <= x && Reaches(w.Edges(), NatsOf(marks), t, x)
  }

  function NatsOf(s: set<int>): (r: set<nat>)
    ensures forall x :: x in r <==> x in s && x >= 0
  {
    set x: nat | x in s
  }

  ghost predicate BelowSome(w: World, marks: set<int>, ds: seq<nat>, x: int) {
    exists d :: d in ds && Below(w, marks, d, x)
  }

  /** What is newly flagged, and what is newly emitted, from one state to a later one. */
  ghost predicate Grows(s: State, r: State) {
    && s.emitted <= r.emitted && s.visited <= r.visited
    && forall x :: x in r.emitted[|s.emitted|..] <==> x in r.visited && x !in s.visited
  }

  lemma GrowsTwice(s: State, m: State, r: State)
    requires Grows(s, m) && Grows(m, r)
    ensures Grows(s, r)
  {
    assert r.emitted[|s.emitted|..] == m.emitted[|s.emitted|..] + r.emitted[|m.emitted|..];
  }

  /** A search from t emits t and what is below it past the marks, and nothing else. */
  lemma {:induction false} VisitRegion(w: World, t: int, s: State)
    requires w.Valid() && w.IsType(t)
    ensures Grows(s, Visit(w, t, s))
    ensures forall x :: x in Visit(w, t, s).visited <==> x in s.visited || Below(w, s.visited, t, x)
    decreases Unvisited(w, s.visited), 0
  {
    hide Below, BelowSome;
    if t in s.visited || w.objs[t].owner != w.mp {
      NothingBelow(w, s.visited, t);
    } else {
      assert t in Unvisited(w, s.visited) && t !in Unvisited(w, s.visited + {t});
      var start := State(s.visited + {t}, s.emitted);
      var b := VisitAll(w, w.Parents(t), start);
      VisitAllRegion(w, w.Parents(t), start);
      VisitGrows(w, t, s, b);
      forall x ensures Below(w, s.visited, t, x) <==> x == t || BelowSome(w, s.visited + {t}, w.Parents(t), x) {
        BelowUnfold(w, s.visited, t, x);
      }
    }
  }

  lemma VisitGrows(w: World, t: int, s: State, b: State)
    requires t !in s.visited && Grows(State(s.visited + {t}, s.emitted), b)
    ensures Grows(s, State(b.visited, b.emitted + [t]))
  {
    assert (b.emitted + [t])[|s.emitted|..] == b.emitted[|s.emitted|..] + [t];
  }

  lemma NothingBelow(w: World, marks: set<int>, t: int)
    requires t in marks || !w.Owned(t)
    ensures forall x :: !Below(w, marks, t, x)
  {
    forall x: nat | w.Owned(t) ensures !Reaches(w.Edges(), NatsOf(marks), t, x) {
      ReachesMarked(w.Edges(), NatsOf(marks), t, x);
    }
  }

  lemma BelowUnfold(w: World, marks: set<int>, t: int, x: int)
    requires w.Valid() && w.Owned(t) && t !in marks
    ensures Below(w, marks, t, x) <==> x == t || BelowSome(w, marks + {t}, w.Parents(t), x)
  {
    hide World.Edges, World.Parents, Reaches;
    assert NatsOf(marks + {t}) == NatsOf(marks) + {t};
    if x >= 0 {
      ReachesUnfold(w.Edges(), NatsOf(marks), t, x);
      forall u: nat ensures u in w.Edges()[t] <==> u in w.Parents(t) && w.Owned(u) {
        EdgesAreParents(w, t, u);
      }
    }
  }

  lemma EdgesAreParents(w: World, t: int, u: nat)
    requires w.Owned(t)
    ensures u in w.Edges()[t] <==> u in w.Parents(t) && w.Owned(u)
  {
    w.OwnedOfIff(w.Parents(t), u);
  }

  /** Searches one after the other emit what is below any of them past the marks set at first. */
  lemma {:induction false} VisitAllRegion(w: World, ds: seq<nat>, s: State)
    requires w.Valid() && forall i :: 0 <= i < |ds| ==> w.IsType(ds[i])
    ensures Grows(s, VisitAll(w, ds, s))
    ensures forall x :: x in VisitAll(w, ds, s).visited <==> x in s.visited || BelowSome(w, s.visited, ds, x)
    decreases Unvisited(w, s.visited), |ds| + 1
  {
    hide Below, BelowSome, Visit;
    if ds == [] {
      NoneBelow(w, s.visited);
    } else {
      var front, d := ds[..|ds| - 1], ds[|ds| - 1];
      VisitAllRegion(w, front, s);
      var m := VisitAll(w, front, s);
      assert Unvisited(w, m.visited) <= Unvisited(w, s.visited);
      VisitRegion(w, d, m);
      GrowsTwice(s, m, Visit(w, d, m));
      forall x ensures x in m.visited || Below(w, m.visited, d, x) <==> x in s.visited || BelowSome(w, s.visited, ds, x) {
        BelowMore(w, s.visited, m.visited, front, d, x);
        assert ds == front + [d];
      }
    }
  }

  lemma NoneBelow(w: World, marks: set<int>)
    ensures forall x :: !BelowSome(w, marks, [], x)
  {
  }

  /** Marking all that is below some of them first leaves out nothing. */
  lemma BelowMore(w: World, marks: set<int>, more: set<int>, front: seq<nat>, d: nat, x: int)
    requires marks <= more && forall y :: y in more <==> y in marks || BelowSome(w, marks, front, y)
    ensures x in more || Below(w, more, d, x) <==> x in marks || BelowSome(w, marks, front + [d], x)
  {
    hide World.Edges, Reaches;
    assert NatsOf(marks) <= NatsOf(more);
    BelowConcat(w, marks, front, d, x);
    if Below(w, more, d, x) {
      ReachesLess(w.Edges(), NatsOf(marks), NatsOf(more), d, x);
    }
    if Below(w, marks, d, x) && !Below(w, more, d, x) {
      var m := AvoidsOrMeets(w.Edges(), NatsOf(marks), NatsOf(more), d, x);
      assert BelowSome(w, marks, front, m);
      var e :| e in front && Below(w, marks, e, m);
      ReachesJoin(w.Edges(), NatsOf(marks), e, m, x);
      assert Below(w, marks, e, x);
    }
  }

  lemma BelowConcat(w: World, marks: set<int>, front: seq<nat>, d: nat, x: int)
    ensures BelowSome(w, marks, front + [d], x) <==> BelowSome(w, marks, front, x) || Below(w, marks, d, x)
  {
    hide Below;
    assert forall e :: e in front + [d] <==> e in front || e == d;
  }

  // ------------------------------------------------------------ Inside one search

  /** Of what the search below t emitted, the part up to c is what its base type and its first k interfaces brought. */
  ghost predicate PartUpTo(w: World, t: int, s: State, k: nat, emitted: seq<int>, c: nat)
    requires w.IsType(t) && k <= |w.objs[t].implements|
  {
    && |s.emitted| <= c <= |emitted|
    && forall x :: x in emitted[|s.emitted|..c] <==>
         || (w.objs[t].base.Some? && Below(w, s.visited + {t}, w.objs[t].base.value, x))
         || exists i :: 0 <= i < k && Below(w, s.visited + {t}, w.objs[t].implements[i], x)
  }

  /** The state after the base type and the first k interfaces. */
  ghost function After(w: World, t: int, s: State, k: nat): State
    requires w.Valid() && w.IsType(t) && k <= |w.objs[t].implements|
  {
    var b := if w.objs[t].base.Some? then 1 else 0;
    VisitAll(w, w.Parents(t)[..b + k], State(s.visited + {t}, s.emitted))
  }

  lemma BelowFirst(w: World, t: int, marks: set<int>, k: nat, x: int)
    requires w.IsType(t) && k <= |w.objs[t].implements|
    ensures var b := if w.objs[t].base.Some? then 1 else 0;
      BelowSome(w, marks, w.Parents(t)[..b + k], x) <==>
        || (w.objs[t].base.Some? && Below(w, marks, w.objs[t].base.value, x))
        || exists i :: 0 <= i < k && Below(w, marks, w.objs[t].implements[i], x)
  {
    hide Below;
    var b := if w.objs[t].base.Some? then 1 else 0;
    var ds := w.Parents(t)[..b + k];
    assert b == 1 ==> ds[0] == w.objs[t].base.value;
    assert forall i :: 0 <= i < k ==> ds[b + i] == w.objs[t].implements[i];
    if BelowSome(w, marks, ds, x) {
      var d :| d in ds && Below(w, marks, d, x);
      var j :| 0 <= j < |ds| && ds[j] == d;
      if j >= b {
        assert w.objs[t].implements[j - b] == d;
      }
    }
  }

  lemma {:induction false} AfterGrows(w: World, t: int, s: State, k: nat, l: nat)
    requires w.Valid() && w.Owned(t) && k <= l <= |w.objs[t].implements|
    ensures After(w, t, s, k).emitted <= After(w, t, s, l).emitted
    decreases l
  {
    hide Visit, VisitAll, Below, World.Parents;
    if k < l {
      AfterGrows(w, t, s, k, l - 1);
      ParentsCount(w, t);
      VisitInterface(w, t, l - 1, State(s.visited + {t}, s.emitted));
      VisitRegion(w, w.objs[t].implements[l - 1], After(w, t, s, l - 1));
    }
  }

  lemma AfterPart(w: World, t: int, s: State, k: nat)
    requires w.Valid() && w.Owned(t) && t !in s.visited && k <= |w.objs[t].implements|
    ensures Grows(State(s.visited + {t}, s.emitted), After(w, t, s, k))
    ensures PartUpTo(w, t, s, k, After(w, t, s, k).emitted, |After(w, t, s, k).emitted|)
  {
    hide Below, BelowSome, Visit;
    var b := if w.objs[t].base.Some? then 1 else 0;
    var start := State(s.visited + {t}, s.emitted);
    var ds := w.Parents(t)[..b + k];
    VisitAllRegion(w, ds, start);
    var m := After(w, t, s, k);
    var part := m.emitted[|s.emitted|..|m.emitted|];
    assert part == m.emitted[|s.emitted|..];
    forall x ensures x in part <==>
         || (w.objs[t].base.Some? && Below(w, s.visited + {t}, w.objs[t].base.value, x))
         || exists i :: 0 <= i < k && Below(w, s.visited + {t}, w.objs[t].implements[i], x)
    {
      BelowFirst(w, t, start.visited, k, x);
      if BelowSome(w, start.visited, ds, x) {
        BelowUnmarked(w, start.visited, ds, x);
      }
    }
  }

  lemma BelowUnmarked(w: World, marks: set<int>, ds: seq<nat>, x: int)
    requires BelowSome(w, marks, ds, x)
    ensures x !in marks
  {
    var d :| d in ds && Below(w, marks, d, x);
    var p :| IsPath(w.Edges(), p, NatsOf(marks)) && p[0] == d && p[|p| - 1] == x;
    assert p[|p| - 1] !in NatsOf(marks);
  }

  /**
   A search from t emits the part of the base type first, then those of the
   interfaces one after the other as they are listed, and t last: the cuts say
   where each part ends. Each part is what lies below that type and was not
   emitted or being worked on before.
   */
  lemma PartsInOrder(w: World, t: int, s: State) returns (cuts: seq<nat>)
    requires w.Valid() && w.Owned(t) && t !in s.visited
    ensures var emitted, n := Visit(w, t, s).emitted, |w.objs[t].implements|;
      && s.emitted <= emitted && |cuts| == n + 1 && cuts[n] + 1 == |emitted| && emitted[cuts[n]] == t
      && (forall k, l :: 0 <= k <= l <= n ==> cuts[k] <= cuts[l])
      && forall k :: 0 <= k <= n ==> PartUpTo(w, t, s, k, emitted, cuts[k])
  {
    hide PartUpTo, After;
    var n := |w.objs[t].implements|;
    cuts := seq(n + 1, k requires 0 <= k <= n => |After(w, t, s, k).emitted|);
    AllOfThem(w, t, s);
    forall k, l | 0 <= k <= l <= n ensures cuts[k] <= cuts[l] {
      AfterGrows(w, t, s, k, l);
    }
    forall k | 0 <= k <= n ensures PartUpTo(w, t, s, k, Visit(w, t, s).emitted, cuts[k]) {
      AfterPart(w, t, s, k);
      AfterGrows(w, t, s, k, n);
      PartOfMore(w, t, s, k, After(w, t, s, k).emitted, Visit(w, t, s).emitted);
    }
  }

  lemma PartOfMore(w: World, t: int, s: State, k: nat, part: seq<int>, emitted: seq<int>)
    requires w.IsType(t) && k <= |w.objs[t].implements| && PartUpTo(w, t, s, k, part, |part|) && part <= emitted
    ensures PartUpTo(w, t, s, k, emitted, |part|)
  {
    hide Below;
    assert emitted[|s.emitted|..|part|] == part[|s.emitted|..|part|];
  }

  lemma AllOfThem(w: World, t: int, s: State)
    requires w.Valid() && w.Owned(t) && t !in s.visited
    ensures var m := After(w, t, s, |w.objs[t].implements|);
      Visit(w, t, s) == State(m.visited, m.emitted + [t]) && s.emitted <= m.emitted
  {
    hide VisitAll;
    var b := if w.objs[t].base.Some? then 1 else 0;
    assert w.Parents(t)[..b + |w.objs[t].implements|] == w.Parents(t);
    AfterPart(w, t, s, |w.objs[t].implements|);
  }

  // ------------------------------------------------------- Over the listed properties

  /** What was emitted when some of the properties were handled is complete for them, and stays the beginning. */
  lemma {:induction false} TurnByTurn(w: World, props: seq<int>, i: nat)
    requires w.Valid() && i <= |props| && forall j :: 0 <= j < |props| ==> 0 <= props[j] < |w.objs|
    ensures Complete(w, props[..i], Order(w, props[..i])) && Order(w, props[..i]) <= Order(w, props)
    decreases |props|
  {
    hide Complete, Visit;
    if i == |props| {
      assert props[..i] == props;
      EmitAllProgress(w, props);
      ProgressComplete(w, props, EmitAll(w, props));
    } else {
      var front := props[..|props| - 1];
      TurnByTurn(w, front, i);
      assert front[..i] == props[..i];
      if w.IsType(props[|props| - 1]) {
        VisitRegion(w, props[|props| - 1], EmitAll(w, front));
      }
    }
  }

  /**
   One turn: a property that is no type is emitted there and then; a type of
   another module, or one emitted before, adds nothing; any other type is
   emitted at the end of exactly those types it needs that were not emitted yet.
   */
  lemma OneTurn(w: World, props: seq<int>, p: int)
    requires w.Valid() && (forall j :: 0 <= j < |props| ==> 0 <= props[j] < |w.objs|) && 0 <= p < |w.objs|
    ensures var before, after := Order(w, props), Order(w, props + [p]);
      if !w.IsType(p) then after == before + [p]
      else if !w.Owned(p) || p in before then after == before
      else
        && before < after && after[|after| - 1] == p
        && forall x :: x in after[|before|..] <==> x !in before && w.Reaches(p, x)
  {
    hide Progress, Adds, Complete;
    assert (props + [p])[..|props|] == props;
    var s := EmitAll(w, props);
    EmitAllProgress(w, props);
    ProgressFlags(w, props, s);
    assert forall x :: x in s.visited <==> x in s.emitted && w.IsType(x);
    if w.Owned(p) && p !in s.visited {
      var r := Visit(w, p, s);
      VisitRegion(w, p, s);
      ProgressNoneOpen(w, props, s);
      VisitAdds(w, p, s);
      TypeTurn(w, props, p, s, r);
    }
  }

  lemma TypeTurn(w: World, props: seq<int>, p: int, s: State, r: State)
    requires Progress(w, props, s) && w.Owned(p) && Adds(w, p, {}, s, r) && p in r.visited && Grows(s, r)
    requires forall x :: x in s.visited <==> x in s.emitted && w.IsType(x)
    ensures forall x :: x in r.emitted[|s.emitted|..] <==> x !in s.emitted && w.Reaches(p, x)
  {
    hide Ordered, TypesOnce, AllWanted, Started, NoRepeats, FlagsMatch;
    assert forall x, y :: x in r.visited && w.Needs(x, y) ==> y in r.visited;
    forall x | w.Reaches(p, x) ensures x in r.visited && w.IsType(x) {
      var chain :| w.IsChain(chain) && chain[0] == p && chain[|chain| - 1] == x;
      w.ClosedContains(r.visited, chain);
      assert |chain| > 1 ==> w.Needs(chain[|chain| - 2], chain[|chain| - 1]);
    }
    forall x | x in r.emitted[|s.emitted|..] ensures x !in s.emitted && w.Reaches(p, x) {
      assert x in r.visited - s.visited;
    }
  }
}
