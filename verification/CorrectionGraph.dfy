/** Correction edges between market events: walks, cycles, and what an acyclic one-to-one graph leaves uncorrected. */
module CorrectionGraph {
  import opened Wrappers

  /** An event identity; identities compare as their text does, which the rank stands for. */
  datatype EventId = EventId(rank: nat)

  /** Each correcting event points to the event it supersedes. */
  type Edges = map<EventId, EventId>

  predicate OneToOne(edges: Edges) {
    forall a <- edges, b <- edges :: edges[a] == edges[b] ==> a == b
  }

  /** The event reached after a number of edges, if there are that many. */
  ghost function Walk(edges: Edges, start: EventId, steps: nat): Option<EventId> {
    if steps == 0 then Some(start)
    else
      match Walk(edges, start, steps - 1)
      case None => None
      case Some(id) => if id in edges then Some(edges[id]) else None
  }

  ghost predicate Returns(edges: Edges, id: EventId, steps: nat) {
    steps > 0 && Walk(edges, id, steps) == Some(id)
  }

  ghost predicate OnCycle(edges: Edges, id: EventId) {
    exists steps: nat :: Returns(edges, id, steps)
  }

  ghost predicate Acyclic(edges: Edges) {
    forall id <- edges :: !OnCycle(edges, id)
  }

  lemma {:induction false} WalkSplits(edges: Edges, start: EventId, i: nat, j: nat)
    requires Walk(edges, start, i).Some?
    ensures Walk(edges, start, i + j) == Walk(edges, Walk(edges, start, i).value, j)
  {
    if j == 0 {
    } else {
      WalkSplits(edges, start, i, j - 1);
    }
  }

  lemma {:induction false} WalkContinues(edges: Edges, start: EventId, i: nat, j: nat)
    requires i <= j && Walk(edges, start, j).Some?
    ensures Walk(edges, start, i).Some?
  {
    if i < j {
      WalkContinues(edges, start, i, j - 1);
    }
  }

  /** A walk that returns to its start never ends. */
  lemma {:induction false} CycleNeverEnds(edges: Edges, start: EventId, period: nat, steps: nat)
    requires Returns(edges, start, period)
    ensures Walk(edges, start, steps).Some? && Walk(edges, start, steps).value in edges
    decreases steps
  {
    if steps < period {
      WalkContinues(edges, start, steps + 1, period);
    } else {
      CycleNeverEnds(edges, start, period, steps - period);
      WalkSplits(edges, start, period, steps - period);
    }
  }

  /** The walk so far: `steps` edges from the start to the current event, no event met twice. */
  ghost predicate Walked(edges: Edges, start: EventId, steps: nat, current: EventId, path: set<EventId>) {
    && Walk(edges, start, steps) == Some(current)
    && (forall i: nat | i < steps :: Walk(edges, start, i).Some? && Walk(edges, start, i).value in path)
    && (forall i: nat, j: nat | i < j < steps :: Walk(edges, start, i) != Walk(edges, start, j))
    && (forall id <- path :: id in edges && exists i: nat | i < steps :: Walk(edges, start, i) == Some(id))
  }

  /** Where every event has one successor at most, the first event met twice is the start. */
  lemma RepeatIsStart(edges: Edges, start: EventId, steps: nat, current: EventId, path: set<EventId>)
    requires OneToOne(edges) && Walked(edges, start, steps, current, path) && current in path
    ensures current == start && Returns(edges, start, steps)
  {
    var i: nat :| i < steps && Walk(edges, start, i) == Some(current);
    if i > 0 {
      SamePredecessor(edges, start, i, steps);
      assert false;
    }
  }

  lemma SamePredecessor(edges: Edges, start: EventId, i: nat, j: nat)
    requires OneToOne(edges) && i > 0 && j > 0
    requires Walk(edges, start, i).Some? && Walk(edges, start, i) == Walk(edges, start, j)
    ensures Walk(edges, start, i - 1) == Walk(edges, start, j - 1)
  {
  }

  lemma WalkedFurther(edges: Edges, start: EventId, steps: nat, current: EventId, path: set<EventId>)
    requires Walked(edges, start, steps, current, path) && current !in path && current in edges
    ensures Walked(edges, start, steps + 1, edges[current], path + {current})
  {
    forall i: nat, j: nat | i < j < steps + 1 ensures Walk(edges, start, i) != Walk(edges, start, j) {
      assert Walk(edges, start, i).value in path;
    }
    forall id <- path + {current} ensures exists i: nat | i < steps + 1 :: Walk(edges, start, i) == Some(id) {
      if id == current {
        assert Walk(edges, start, steps) == Some(id);
      } else {
        var i: nat :| i < steps && Walk(edges, start, i) == Some(id);
      }
    }
  }

  /** The walk from one event: it ends, and it reports exactly a start that lies on a cycle. */
  method WalkFrom(edges: Edges, start: EventId) returns (repeated: Option<EventId>)
    requires OneToOne(edges)
    ensures repeated == if OnCycle(edges, start) then Some(start) else None
  {
    var path: set<EventId> := {};
    var current := start;
    ghost var steps := 0;
    while current in edges
      invariant Walked(edges, start, steps, current, path)
      decreases edges.Keys - path
    {
      if current in path {
        RepeatIsStart(edges, start, steps, current, path);
        return Some(current);
      }
      WalkedFurther(edges, start, steps, current, path);
      assert current in edges.Keys - path;
      path := path + {current};
      current := edges[current];
      steps := steps + 1;
    }
    if OnCycle(edges, start) {
      ghost var period: nat :| Returns(edges, start, period);
      CycleNeverEnds(edges, start, period, steps);
      assert false;
    }
    return None;
  }

  ghost predicate Reaches(edges: Edges, from: EventId, to: EventId) {
    exists steps: nat :: steps > 0 && Walk(edges, from, steps) == Some(to)
  }

  lemma ReachesFirst(edges: Edges, id: EventId)
    requires id in edges
    ensures Reaches(edges, id, edges[id])
  {
    assert Walk(edges, id, 0) == Some(id);
    assert Walk(edges, id, 1) == Some(edges[id]);
  }

  lemma ReachesFurther(edges: Edges, from: EventId, middle: EventId, to: EventId)
    requires Reaches(edges, from, middle) && Reaches(edges, middle, to)
    ensures Reaches(edges, from, to)
  {
    var i: nat :| i > 0 && Walk(edges, from, i) == Some(middle);
    var j: nat :| j > 0 && Walk(edges, middle, j) == Some(to);
    WalkSplits(edges, from, i, j);
  }

  /**
   Climbing from an event to the one that corrects it, and so on, ends at an event nothing corrects.
   `climbed` holds the events passed on the way.
   */
  lemma {:induction false} Climb(edges: Edges, id: EventId, climbed: set<EventId>) returns (top: EventId)
    requires Acyclic(edges) && (forall c <- climbed :: c in edges.Keys + edges.Values && Reaches(edges, id, c))
    requires id in edges.Keys + edges.Values
    ensures top !in edges.Values
    ensures top == id || Reaches(edges, top, id)
    decreases edges.Keys + edges.Values - climbed
  {
    if id !in edges.Values {
      top := id;
    } else {
      var source :| source in edges && edges[source] == id;
      ReachesFirst(edges, source);
      if id in climbed {
        CycleFrom(edges, id);
      }
      forall c <- climbed ensures Reaches(edges, source, c) {
        ReachesFurther(edges, source, id, c);
      }
      top := Climb(edges, source, climbed + {id});
      if top != source {
        ReachesFurther(edges, top, source, id);
      }
    }
  }

  lemma CycleFrom(edges: Edges, id: EventId)
    requires Reaches(edges, id, id)
    ensures !Acyclic(edges)
  {
    var steps: nat :| steps > 0 && Walk(edges, id, steps) == Some(id);
    assert Returns(edges, id, steps);
    CycleNeverEnds(edges, id, steps, 0);
  }
}
