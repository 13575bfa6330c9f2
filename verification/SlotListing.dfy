/**
 The recursion of lstSlotAssignments (src/cmd/listing.c) over types, functions
 and blocks, which marks an object VISITED while it lists what it holds.
 */
module SlotListing {
  import opened Bytes
  import opened OnPathSearch

  ghost function Region(g: Graph, marked: set<nat>, v: nat): set<nat> {
    set w: nat | w < |g| && Reaches(g, marked, v, w)
  }

  ghost function RegionBelow(g: Graph, marked: set<nat>, vs: seq<nat>): set<nat> {
    if vs == [] then {} else RegionBelow(g, marked, vs[..|vs| - 1]) + Region(g, marked, vs[|vs| - 1])
  }

  lemma {:induction false} RegionBelowMember(g: Graph, marked: set<nat>, vs: seq<nat>, w: nat)
    ensures w in RegionBelow(g, marked, vs) <==> exists v :: v in vs && w in Region(g, marked, v)
    decreases |vs|
  {
    hide Region;
    if vs != [] {
      RegionBelowMember(g, marked, vs[..|vs| - 1], w);
      assert vs == vs[..|vs| - 1] + [vs[|vs| - 1]];
    }
  }

  lemma RegionMember(g: Graph, marked: set<nat>, v: nat, w: nat)
    ensures w in Region(g, marked, v) <==> w < |g| && Reaches(g, marked, v, w)
  {
  }

  /** What entering v lists: v, and the regions below its successors with v marked. */
  lemma RegionUnfold(g: Graph, marked: set<nat>, v: nat)
    requires v < |g| && v !in marked
    ensures Region(g, marked, v) == {v} + RegionBelow(g, marked + {v}, g[v])
  {
    forall w ensures w in Region(g, marked, v) <==> w in {v} + RegionBelow(g, marked + {v}, g[v]) {
      RegionUnfoldMember(g, marked, v, w);
    }
  }

  lemma RegionUnfoldMember(g: Graph, marked: set<nat>, v: nat, w: nat)
    requires v < |g| && v !in marked
    ensures w in Region(g, marked, v) <==> w == v || w in RegionBelow(g, marked + {v}, g[v])
  {
    hide Region, RegionBelow, Reaches;
    RegionMember(g, marked, v, w);
    RegionBelowMember(g, marked + {v}, g[v], w);
    forall u ensures w in Region(g, marked + {v}, u) <==> w < |g| && Reaches(g, marked + {v}, u, w) {
      RegionMember(g, marked + {v}, u, w);
    }
    ReachesUnfold(g, marked, v, w);
  }

  lemma RegionMarked(g: Graph, marked: set<nat>, v: nat)
    requires v in marked
    ensures Region(g, marked, v) == {}
  {
    forall w: nat ensures !Reaches(g, marked, v, w) {
      ReachesMarked(g, marked, v, w);
    }
  }

  function Elements(s: seq<nat>): set<nat> {
    set x | x in s
  }

  // ------------------------------------------------------------ The object store

  datatype Kind = Type | Function | Block | Other

  /** An object and the objects its slots hold; a slot may be empty. */
  datatype Held = Held(kind: Kind, slots: seq<Option<nat>>)

  /** The objects, named by number; of the global object a module has the slots from its first to its last global. */
  datatype Store = Store(objs: seq<Held>, global: nat, firstGlobal: nat, lastGlobal: nat) {
    predicate Valid() {
      forall v, i :: 0 <= v < |objs| && 0 <= i < |objs[v].slots| && objs[v].slots[i].Some? ==>
        objs[v].slots[i].value < |objs|
    }

    function First(v: nat): nat {
      if v == global then firstGlobal else 0
    }

    function Last(v: nat): nat
      requires v < |objs|
    {
      if v == global then lastGlobal else |objs[v].slots|
    }

    /** ejsGetProperty: null for an empty slot and beyond the last one. */
    function Property(v: nat, i: nat): Option<nat>
      requires v < |objs|
    {
      if i < |objs[v].slots| then objs[v].slots[i] else None
    }

    /** A slot holds a type, a function or a block. */
    predicate Holds(v: nat, i: nat, w: nat)
      requires v < |objs|
    {
      Property(v, i) == Some(w) && w < |objs| && objs[w].kind != Other
    }

    /** What the slots of v before slot i hold, in slot order. */
    function HeldUpTo(v: nat, i: nat): seq<nat>
      requires v < |objs|
    {
      if i <= First(v) then []
      else
        HeldUpTo(v, i - 1)
        + match Property(v, i - 1)
          case None => []
          case Some(w) => if Holds(v, i - 1, w) then [w] else []
    }

    function Edges(): (g: Graph)
      ensures |g| == |objs|
    {
      seq(|objs|, v requires 0 <= v < |objs| => HeldUpTo(v, Last(v)))
    }

    lemma {:induction false} HeldUpToIff(v: nat, i: nat, w: nat)
      requires v < |objs|
      ensures w in HeldUpTo(v, i) <==> exists j: nat :: First(v) <= j < i && Holds(v, j, w)
      decreases i
    {
      hide Property;
      if i > First(v) {
        HeldUpToIff(v, i - 1, w);
      }
    }

    /**
     An edge for each slot that holds a type, a function or a block, and no other;
     of the global object the slots of the module are looked at, of others all.
     */
    lemma EdgeIff(v: nat, w: nat)
      requires v < |objs|
      ensures w in Edges()[v] <==>
        && w < |objs| && (objs[w].kind == Type || objs[w].kind == Function || objs[w].kind == Block)
        && exists j :: 0 <= j < |objs[v].slots| && objs[v].slots[j] == Some(w)
                       && (v == global ==> firstGlobal <= j < lastGlobal)
    {
      hide HeldUpTo;
      HeldUpToIff(v, Last(v), w);
      if j :| 0 <= j < |objs[v].slots| && objs[v].slots[j] == Some(w) && (v == global ==> firstGlobal <= j < lastGlobal) {
        assert w < |objs| && objs[w].kind != Other ==> Holds(v, j, w);
      }
    }
  }

  class Lister {
    const store: Store
    var visited: set<nat>   // objects whose VISITED flag is set
    var listed: seq<nat>    // objects whose slots were listed, in order

    constructor (store: Store)
      ensures this.store == store && visited == {} && listed == []
    {
      this.store, visited, listed := store, {}, [];
    }

    ghost function Unvisited(): set<nat>
      reads this
    {
      set v: nat | v < |store.objs| && v !in visited
    }

    /**
     lstSlotAssignments terminates on any objects, leaves the flags as found, and
     lists exactly what v reaches without meeting a marked object.
     */
    method ListSlots(v: nat)
      requires store.Valid() && v < |store.objs|
      modifies this`visited, this`listed
      ensures visited == old(visited)
      ensures old(listed) <= listed
      ensures Elements(listed) == old(Elements(listed)) + Region(store.Edges(), visited, v)
      decreases Unvisited()
    {
      hide Region, RegionBelow, Store.HeldUpTo;
      ghost var g := store.Edges();
      if v in visited {
        RegionMarked(g, visited, v);
        return;
      }
      ghost var marked := visited;
      visited := visited + {v};
      assert v in old(Unvisited()) && v !in Unvisited();
      listed := listed + [v];
      assert Elements(listed) == old(Elements(listed)) + {v};
      var i: nat := store.First(v);
      var count: int := store.Last(v);
      RegionSteps(store, visited, v, i);
      while i < count
        invariant visited == marked + {v} && old(listed) <= listed
        invariant i <= count || i == store.First(v)
        invariant Elements(listed) == old(Elements(listed)) + {v} + RegionBelow(g, visited, store.HeldUpTo(v, i))
        decreases count - i
      {
        RegionSteps(store, visited, v, i);
        var property := store.Property(v, i);
        i := i + 1;
        if property.None? {
          continue;
        }
        var w := property.value;
        if store.objs[w].kind == Type || store.objs[w].kind == Function || store.objs[w].kind == Block {
          ListSlots(w);
        }
      }
      NothingHeld(store, visited, v, i);
      visited := visited - {v};
      RegionUnfold(g, marked, v);
    }
  }

  /** The region below the slots before slot i, and what slot i adds to it. */
  lemma RegionSteps(store: Store, marked: set<nat>, v: nat, i: nat)
    requires store.Valid() && v < |store.objs|
    ensures RegionBelow(store.Edges(), marked, store.HeldUpTo(v, store.First(v))) == {}
    ensures i >= store.First(v) ==>
              RegionBelow(store.Edges(), marked, store.HeldUpTo(v, i + 1))
              == RegionBelow(store.Edges(), marked, store.HeldUpTo(v, i))
                 + match store.Property(v, i)
                   case None => {}
                   case Some(w) => if store.Holds(v, i, w) then Region(store.Edges(), marked, w) else {}
  {
    hide Region, Store.Edges;
    if i >= store.First(v) {
      var before, now := store.HeldUpTo(v, i), store.HeldUpTo(v, i + 1);
      if now != before {
        assert now[..|now| - 1] == before;
      }
    }
  }

  lemma NothingHeld(store: Store, marked: set<nat>, v: nat, i: nat)
    requires v < |store.objs|
    requires i == store.Last(v) || (i == store.First(v) && i >= store.Last(v))
    ensures store.HeldUpTo(v, i) == store.Edges()[v]
  {
  }
}
