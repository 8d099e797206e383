/** The per-vertex messaging protocol of the Spargel vertex-centric API: the
    messaging function that a vertex program extends, and the two edge
    cursors it hands out. */
module Spargel {
  import opened SpargelTypes
  import opened Runtime
  import opened Protocol

  /** Cursor over the raw source for graphs without edge values: it casts each
      tuple to a Tuple2 and yields Edge(f0, f1, None). */
  class EdgesIteratorNoEdgeValue<K, EV> {
    var input: EdgeSource?<K, EV>

    constructor ()
      ensures input == null
    {
      input := null;
    }

    method Set(input: EdgeSource?<K, EV>)
      modifies this
      ensures this.input == input
    {
      this.input := input;
    }

    method HasNext() returns (b: bool)
      requires input != null && input.Valid()
      ensures b <==> input.pos < |input.tuples|
    {
      b := input.HasNext();
    }

    /** Advances the shared source by one. A Tuple3 fails the cast after the
        source has already moved past it. */
    method Next() returns (r: Result<Edge<K, EV>>)
      requires input != null && input.Valid() && input.pos < |input.tuples|
      modifies input
      ensures input.Valid() && input.tuples == old(input.tuples) && input.pos == old(input.pos) + 1
      ensures var t := old(input.tuples[input.pos]);
              && (t.Tuple2? ==> r == Ok(Edge(t.f0, t.f1, None)))
              && (t.Tuple3? ==> r == Err(ClassCast))
      ensures r == EdgeOf(false, old(input.tuples[input.pos]))
    {
      var t := input.Next();
      if t.Tuple2? {
        r := Ok(Edge(t.f0, t.f1, None));
      } else {
        r := Err(ClassCast);
      }
    }

    method Remove() returns (r: Outcome)
      ensures r == Fail(UnsupportedOperation)
    {
      r := Fail(UnsupportedOperation);
    }
  }

  /** Cursor over the raw source for graphs with edge values: it casts each
      tuple to a Tuple3 and yields Edge(f0, f1, Some(f2)). */
  class EdgesIteratorWithEdgeValue<K, EV> {
    var input: EdgeSource?<K, EV>

    constructor ()
      ensures input == null
    {
      input := null;
    }

    method Set(input: EdgeSource?<K, EV>)
      modifies this
      ensures this.input == input
    {
      this.input := input;
    }

    method HasNext() returns (b: bool)
      requires input != null && input.Valid()
      ensures b <==> input.pos < |input.tuples|
    {
      b := input.HasNext();
    }

    /** Advances the shared source by one. A Tuple2 fails the cast after the
        source has already moved past it. */
    method Next() returns (r: Result<Edge<K, EV>>)
      requires input != null && input.Valid() && input.pos < |input.tuples|
      modifies input
      ensures input.Valid() && input.tuples == old(input.tuples) && input.pos == old(input.pos) + 1
      ensures var t := old(input.tuples[input.pos]);
              && (t.Tuple3? ==> r == Ok(Edge(t.f0, t.f1, Some(t.f2))))
              && (t.Tuple2? ==> r == Err(ClassCast))
      ensures r == EdgeOf(true, old(input.tuples[input.pos]))
    {
      var t := input.Next();
      if t.Tuple3? {
        r := Ok(Edge(t.f0, t.f1, Some(t.f2)));
      } else {
        r := Err(ClassCast);
      }
    }

    method Remove() returns (r: Outcome)
      ensures r == Fail(UnsupportedOperation)
    {
      r := Fail(UnsupportedOperation);
    }
  }

  /** The cursor getOutgoingEdges hands out: one of the two variants, used
      through the iterator interface they share. */
  datatype Cursor<K, EV> =
    | NoValue(noValue: EdgesIteratorNoEdgeValue<K, EV>)
    | WithValue(withValue: EdgesIteratorWithEdgeValue<K, EV>)
  {
    ghost function Obj(): object
    {
      if NoValue? then noValue else withValue
    }

    /** The edge source the cursor reads. */
    function Input(): (s: EdgeSource?<K, EV>)
      reads Obj()
    {
      if NoValue? then noValue.input else withValue.input
    }

    method HasNext() returns (b: bool)
      requires Input() != null && Input().Valid()
      ensures b <==> Input().pos < |Input().tuples|
    {
      if NoValue? {
        b := noValue.HasNext();
      } else {
        b := withValue.HasNext();
      }
    }

    method Next() returns (r: Result<Edge<K, EV>>)
      requires Input() != null && Input().Valid() && Input().pos < |Input().tuples|
      modifies Input()
      ensures Input() == old(Input())
      ensures Input().Valid() && Input().tuples == old(Input().tuples)
      ensures Input().pos == old(Input().pos) + 1
      ensures r == EdgeOf(WithValue?, old(Input().tuples[Input().pos]))
    {
      if NoValue? {
        r := noValue.Next();
      } else {
        r := withValue.Next();
      }
    }
  }

  class MessagingFunction<K, M, EV> {
    var edges: EdgeSource?<K, EV>
    var out: Collector?<K, M>
    var edgeNoValueIter: EdgesIteratorNoEdgeValue?<K, EV>
    var edgeWithValueIter: EdgesIteratorWithEdgeValue?<K, EV>
    var edgesUsed: bool

    /** Exactly one cursor variant exists, chosen once by Init. */
    ghost predicate Valid()
      reads this
    {
      (edgeNoValueIter == null) != (edgeWithValueIter == null)
    }

    /** The edge-value mode, as the choice of cursor records it. */
    predicate HasEdgeValue()
      reads this
    {
      edgeWithValueIter != null
    }

    /** A source and a sink have been bound by Set. */
    ghost predicate Bound()
      reads this, edges
    {
      edges != null && out != null && edges.Valid()
    }

    /** Whatever source is bound keeps its read position within its tuples. */
    ghost predicate SourceValid()
      reads this, edges
    {
      edges != null ==> edges.Valid()
    }

    /** The runtime's init: fixes the edge-value mode for the instance's
        lifetime by creating only the matching cursor. */
    constructor Init(hasEdgeValue: bool)
      ensures Valid() && HasEdgeValue() == hasEdgeValue
      ensures edges == null && out == null && !edgesUsed
      ensures hasEdgeValue ==> fresh(edgeWithValueIter) && edgeWithValueIter.input == null
      ensures !hasEdgeValue ==> fresh(edgeNoValueIter) && edgeNoValueIter.input == null
    {
      edges := null;
      out := null;
      edgesUsed := false;
      if hasEdgeValue {
        edgeWithValueIter := new EdgesIteratorWithEdgeValue();
        edgeNoValueIter := null;
      } else {
        edgeNoValueIter := new EdgesIteratorNoEdgeValue();
        edgeWithValueIter := null;
      }
    }

    /** Rebinds the edge source and the sink for the next vertex and resets
        the exclusivity flag. */
    method Set(edges: EdgeSource?<K, EV>, out: Collector?<K, M>)
      modifies this
      ensures this.edges == edges && this.out == out && !edgesUsed
      ensures edgeNoValueIter == old(edgeNoValueIter) && edgeWithValueIter == old(edgeWithValueIter)
    {
      this.edges := edges;
      this.out := out;
      edgesUsed := false;
    }

    /** Hands out the mode's cursor, bound to the current edge source; fails
        with an illegal-state error, changing nothing, once the flag is set. */
    method GetOutgoingEdges() returns (r: Result<Cursor<K, EV>>)
      requires Valid()
      modifies this, edgeNoValueIter, edgeWithValueIter
      ensures Valid() && edgesUsed
      ensures edges == old(edges) && out == old(out)
      ensures edges != null ==> edges.pos == old(edges.pos)
      ensures edgeNoValueIter == old(edgeNoValueIter) && edgeWithValueIter == old(edgeWithValueIter)
      ensures old(edgesUsed) ==> r == Err(IllegalState)
      ensures old(edgesUsed) && edgeNoValueIter != null ==> edgeNoValueIter.input == old(edgeNoValueIter.input)
      ensures old(edgesUsed) && edgeWithValueIter != null ==> edgeWithValueIter.input == old(edgeWithValueIter.input)
      ensures !old(edgesUsed) && HasEdgeValue() ==>
        r == Ok(WithValue(edgeWithValueIter)) && edgeWithValueIter.input == edges
      ensures !old(edgesUsed) && !HasEdgeValue() ==>
        r == Ok(NoValue(edgeNoValueIter)) && edgeNoValueIter.input == edges
    {
      if edgesUsed {
        return Err(IllegalState);
      }
      edgesUsed := true;
      if edgeWithValueIter != null {
        edgeWithValueIter.Set(edges);
        r := Ok(WithValue(edgeWithValueIter));
      } else {
        edgeNoValueIter.Set(edges);
        r := Ok(NoValue(edgeNoValueIter));
      }
    }

    /** Drains the edge source, emitting (field 0, m) for every remaining raw
        tuple, in order; fails with an illegal-state error, emitting nothing
        and reading nothing, once the flag is set. */
    method SendMessageToAllNeighbors(m: M) returns (r: Outcome)
      requires SourceValid() && (!edgesUsed ==> Bound())
      modifies this, edges, out
      ensures edges == old(edges) && out == old(out) && edgesUsed
      ensures edgeNoValueIter == old(edgeNoValueIter) && edgeWithValueIter == old(edgeWithValueIter)
      ensures SourceValid() && (edges != null ==> edges.tuples == old(edges.tuples))
      ensures old(edgesUsed) ==>
        && r == Fail(IllegalState)
        && (edges != null ==> edges.pos == old(edges.pos))
        && (out != null ==> out.records == old(out.records))
      ensures !old(edgesUsed) ==>
        && Bound() && r == Pass
        && edges.pos == |edges.tuples|
        && out.records == old(out.records) + AllNeighbors(old(edges.Remaining()), m)
    {
      if edgesUsed {
        return Fail(IllegalState);
      }
      edgesUsed := true;
      var src, sink := edges, out;
      var start := src.pos;
      var more := src.HasNext();
      while more
        modifies src, sink
        invariant src.Valid() && src.tuples == old(src.tuples) && start <= src.pos
        invariant more <==> src.pos < |src.tuples|
        invariant sink.records == old(sink.records) + AllNeighbors(src.tuples[start..src.pos], m)
        decreases |src.tuples| - src.pos
      {
        ghost var before := src.tuples[start..src.pos];
        var t := src.Next();
        assert src.tuples[start..src.pos] == before + [t];
        AllNeighborsAppend(before, t, m);
        sink.Collect(OutValue(t.f0, m));
        more := src.HasNext();
      }
      assert src.tuples[start..src.pos] == old(edges.Remaining());
      r := Pass;
    }

    /** Emits exactly one record (target, m); legal whatever the flag says. */
    method SendMessageTo(target: K, m: M)
      requires out != null
      modifies out
      ensures out.records == old(out.records) + [OutValue(target, m)]
      ensures edgesUsed == old(edgesUsed) && edges == old(edges)
      ensures edges != null ==> edges.pos == old(edges.pos)
    {
      out.Collect(OutValue(target, m));
    }
  }
}
