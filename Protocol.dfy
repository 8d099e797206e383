/** Reference definitions of what the edge cursors yield and what the send
    operations emit, over the raw tuples of one vertex, with the lemmas that
    characterise them element by element. */
module Protocol {
  import opened SpargelTypes

  /** Whether a raw tuple has the arity the cursor variant casts it to:
      a Tuple3 for the cursor with edge values, a Tuple2 otherwise. */
  predicate Fits<K, EV>(hasEdgeValue: bool, t: RawTuple<K, EV>)
  {
    if hasEdgeValue then t.Tuple3? else t.Tuple2?
  }

  ghost predicate AllFit<K, EV>(hasEdgeValue: bool, ts: seq<RawTuple<K, EV>>)
  {
    forall i | 0 <= i < |ts| :: Fits(hasEdgeValue, ts[i])
  }

  /** What one cursor advance makes of one raw tuple: fields 0 and 1 become the
      first two arguments of Edge.set, field 2 (or nothing) the value. */
  function EdgeOf<K, EV>(hasEdgeValue: bool, t: RawTuple<K, EV>): (r: Result<Edge<K, EV>>)
  {
    if !Fits(hasEdgeValue, t) then Err(ClassCast)
    else if hasEdgeValue then Ok(Edge(t.f0, t.f1, Some(t.f2)))
    else Ok(Edge(t.f0, t.f1, None))
  }

  /** The edges a cursor yields when it is driven to the end of ts. */
  function Edges<K, EV>(hasEdgeValue: bool, ts: seq<RawTuple<K, EV>>): (es: seq<Edge<K, EV>>)
    requires AllFit(hasEdgeValue, ts)
  {
    if ts == [] then []
    else
      assert Fits(hasEdgeValue, ts[0]);
      [EdgeOf(hasEdgeValue, ts[0]).value] + Edges(hasEdgeValue, ts[1..])
  }

  /** The records sendMessageToAllNeighbors(m) emits for the tuples ts:
      each keyed by the tuple's field 0. */
  function AllNeighbors<K, EV, M>(ts: seq<RawTuple<K, EV>>, m: M): (r: seq<OutValue<K, M>>)
  {
    if ts == [] then [] else [OutValue(ts[0].f0, m)] + AllNeighbors(ts[1..], m)
  }

  /** The records of a vertex program that walks the edge cursor and calls
      sendMessageTo(e.f0, m) for every edge e it is given. */
  function SendToEach<K, EV, M>(es: seq<Edge<K, EV>>, m: M): (r: seq<OutValue<K, M>>)
  {
    if es == [] then [] else [OutValue(es[0].f0, m)] + SendToEach(es[1..], m)
  }

  /** Bulk send emits exactly one record per tuple, in tuple order, carrying m
      and the tuple's field 0. */
  lemma {:induction false} AllNeighborsAt<K, EV, M>(ts: seq<RawTuple<K, EV>>, m: M)
    ensures |AllNeighbors(ts, m)| == |ts|
    ensures forall i | 0 <= i < |ts| :: AllNeighbors(ts, m)[i] == OutValue(ts[i].f0, m)
  {
    if ts != [] {
      AllNeighborsAt(ts[1..], m);
    }
  }

  /** Reading one more tuple extends the emitted records by exactly one. */
  lemma {:induction false} AllNeighborsAppend<K, EV, M>(ts: seq<RawTuple<K, EV>>, t: RawTuple<K, EV>, m: M)
    ensures AllNeighbors(ts + [t], m) == AllNeighbors(ts, m) + [OutValue(t.f0, m)]
  {
    if ts == [] {
      assert ts + [t] == [t];
    } else {
      assert (ts + [t])[1..] == ts[1..] + [t];
      AllNeighborsAppend(ts[1..], t, m);
    }
  }

  /** A full cursor iteration yields one edge per tuple, in tuple order, with
      field 0 and field 1 in place and the value present exactly in the mode
      with edge values. */
  lemma {:induction false} EdgesAt<K, EV>(hasEdgeValue: bool, ts: seq<RawTuple<K, EV>>)
    requires AllFit(hasEdgeValue, ts)
    ensures |Edges(hasEdgeValue, ts)| == |ts|
    ensures forall i | 0 <= i < |ts| ::
      && Edges(hasEdgeValue, ts)[i].f0 == ts[i].f0
      && Edges(hasEdgeValue, ts)[i].f1 == ts[i].f1
      && (hasEdgeValue ==> ts[i].Tuple3? && Edges(hasEdgeValue, ts)[i].value == Some(ts[i].f2))
      && (!hasEdgeValue ==> Edges(hasEdgeValue, ts)[i].value == None)
  {
    if ts != [] {
      assert Fits(hasEdgeValue, ts[0]);
      assert AllFit(hasEdgeValue, ts[1..]) by {
        forall i | 0 <= i < |ts[1..]| ensures Fits(hasEdgeValue, ts[1..][i]) {
          assert ts[1..][i] == ts[i + 1];
        }
      }
      EdgesAt(hasEdgeValue, ts[1..]);
    }
  }

  /** One more fitting tuple extends the iterated edges by its own edge. */
  lemma {:induction false} EdgesAppend<K, EV>(hasEdgeValue: bool, ts: seq<RawTuple<K, EV>>, t: RawTuple<K, EV>)
    requires AllFit(hasEdgeValue, ts) && Fits(hasEdgeValue, t)
    ensures AllFit(hasEdgeValue, ts + [t])
    ensures Edges(hasEdgeValue, ts + [t]) == Edges(hasEdgeValue, ts) + [EdgeOf(hasEdgeValue, t).value]
  {
    assert AllFit(hasEdgeValue, ts + [t]) by {
      forall i | 0 <= i < |ts + [t]| ensures Fits(hasEdgeValue, (ts + [t])[i]) {
        if i < |ts| { assert (ts + [t])[i] == ts[i]; }
      }
    }
    if ts == [] {
      assert ts + [t] == [t];
    } else {
      assert (ts + [t])[1..] == ts[1..] + [t];
      assert AllFit(hasEdgeValue, ts[1..]) by {
        forall i | 0 <= i < |ts[1..]| ensures Fits(hasEdgeValue, ts[1..][i]) {
          assert ts[1..][i] == ts[i + 1];
        }
      }
      EdgesAppend(hasEdgeValue, ts[1..], t);
    }
  }

  /** Sending to one more edge extends the records by exactly one. */
  lemma {:induction false} SendToEachAppend<K, EV, M>(es: seq<Edge<K, EV>>, e: Edge<K, EV>, m: M)
    ensures SendToEach(es + [e], m) == SendToEach(es, m) + [OutValue(e.f0, m)]
  {
    if es == [] {
      assert es + [e] == [e];
    } else {
      assert (es + [e])[1..] == es[1..] + [e];
      SendToEachAppend(es[1..], e, m);
    }
  }

  /** The two ways of messaging every neighbour agree: bulk send emits the same
      records, in the same order, as walking the cursor and sending to each
      edge's field 0, in either edge-value mode. */
  lemma {:induction false} BulkSendIsSendToEach<K, EV, M>(hasEdgeValue: bool, ts: seq<RawTuple<K, EV>>, m: M)
    requires AllFit(hasEdgeValue, ts)
    ensures SendToEach(Edges(hasEdgeValue, ts), m) == AllNeighbors(ts, m)
  {
    if ts != [] {
      assert Fits(hasEdgeValue, ts[0]);
      assert AllFit(hasEdgeValue, ts[1..]) by {
        forall i | 0 <= i < |ts[1..]| ensures Fits(hasEdgeValue, ts[1..][i]) {
          assert ts[1..][i] == ts[i + 1];
        }
      }
      var es := Edges(hasEdgeValue, ts);
      assert es[1..] == Edges(hasEdgeValue, ts[1..]);
      BulkSendIsSendToEach(hasEdgeValue, ts[1..], m);
    }
  }
}
