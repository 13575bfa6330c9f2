/**
 Depth-first search that marks an object only while it is on the current path
 and unmarks it on the way out, as ecAddConstants and lstSlotAssignments do.
 Such a search visits from v exactly what v reaches without meeting a marked
 object; the lemmas here are the one step its recursion needs.
 */
module OnPathSearch {
  /** Successor lists; objects are numbered. */
  type Graph = seq<seq<nat>>

  ghost predicate IsPath(g: Graph, p: seq<nat>, avoid: set<nat>) {
    && p != []
    && (forall i :: 0 <= i < |p| ==> p[i] < |g| && p[i] !in avoid)
    && (forall i :: 0 <= i < |p| - 1 ==> p[i + 1] in g[p[i]])
  }

  /** w is reached from v without meeting `avoid`. */
  ghost predicate Reaches(g: Graph, avoid: set<nat>, v: nat, w: nat) {
    exists p :: IsPath(g, p, avoid) && p[0] == v && p[|p| - 1] == w
  }

  /** A search entered at v: v itself, then everything found below its successors with v marked. */
  lemma ReachesUnfold(g: Graph, avoid: set<nat>, v: nat, w: nat)
    requires v < |g| && v !in avoid
    ensures Reaches(g, avoid, v, w)
       <==> w == v || exists u :: u in g[v] && Reaches(g, avoid + {v}, u, w)
  {
    if w == v {
      assert IsPath(g, [v], avoid);
    } else if Reaches(g, avoid, v, w) {
      var p :| IsPath(g, p, avoid) && p[0] == v && p[|p| - 1] == w;
      var u := LeaveForGood(g, avoid, p);
    }
    if u :| u in g[v] && Reaches(g, avoid + {v}, u, w) {
      var p :| IsPath(g, p, avoid + {v}) && p[0] == u && p[|p| - 1] == w;
      assert IsPath(g, [v] + p, avoid);
    }
  }

  /** Where a path leaves its first object for the last time. */
  lemma {:induction false} LeaveForGood(g: Graph, avoid: set<nat>, p: seq<nat>) returns (u: nat)
    requires IsPath(g, p, avoid) && p[0] != p[|p| - 1]
    ensures u in g[p[0]] && Reaches(g, avoid + {p[0]}, u, p[|p| - 1])
    decreases |p|
  {
    if p[0] in p[1..] {
      var k :| 1 <= k < |p| && p[k] == p[0];
      u := LeaveForGood(g, avoid, p[k..]);
    } else {
      u := p[1];
      assert IsPath(g, p[1..], avoid + {p[0]});
    }
  }

  /** Marked objects are not entered. */
  lemma ReachesMarked(g: Graph, avoid: set<nat>, v: nat, w: nat)
    requires v in avoid
    ensures !Reaches(g, avoid, v, w)
  {
  }
}
