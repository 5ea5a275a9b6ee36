/** Events bucketed by frame offset (`EventBuffer`): each offset holds the
    events that arrived for it, oldest first, until that offset is taken. */
module EventBuffers {
  import opened Events

  datatype EventBuffer = EventBuffer(events: map<int, seq<Event>>)
  {
    /** Every bucket holds only events for its own offset. */
    predicate WellKeyed()
    {
      forall t :: t in events ==> forall k :: 0 <= k < |events[t]| ==> events[t][k].time == t
    }
  }

  /** The events buffered for offset `t`, oldest first. */
  function Held(q: EventBuffer, t: int): (es: seq<Event>)
    ensures t !in q.events ==> es == []
    ensures t in q.events ==> es == q.events[t]
  {
    if t in q.events then q.events[t] else []
  }

  function New(): (q: EventBuffer)
    ensures forall t :: Held(q, t) == []
    ensures q.WellKeyed()
  {
    EventBuffer(map[])
  }

  /** `eventAdd`: appends `e` to the bucket for its offset, creating the
      bucket if needed. */
  function Add(q: EventBuffer, e: Event): (r: EventBuffer)
    ensures e.time in r.events && Held(r, e.time) == Held(q, e.time) + [e]
    ensures forall t :: t != e.time ==> (t in r.events <==> t in q.events) && Held(r, t) == Held(q, t)
    ensures q.WellKeyed() ==> r.WellKeyed()
  {
    EventBuffer(q.events[e.time := Held(q, e.time) + [e]])
  }

  /** `eventsTake`: removes the bucket for `t` and returns its events, or the
      empty list when there is none. */
  function Take(q: EventBuffer, t: int): (r: (seq<Event>, EventBuffer))
    ensures r.0 == Held(q, t)
    ensures t !in r.1.events && Held(r.1, t) == []
    ensures forall u :: u != t ==> (u in r.1.events <==> u in q.events) && Held(r.1, u) == Held(q, u)
    ensures t !in q.events ==> r.1 == q
    ensures q.WellKeyed() ==> r.1.WellKeyed()
  {
    (Held(q, t), EventBuffer(q.events - {t}))
  }

  /** Adding a sequence of events one after another. */
  function AddAll(q: EventBuffer, es: seq<Event>): EventBuffer
    decreases |es|
  {
    if es == [] then q else Add(AddAll(q, es[..|es| - 1]), es[|es| - 1])
  }

  /** Taking an offset twice in a row: the second take finds nothing. */
  lemma TakeTwice(q: EventBuffer, t: int)
    ensures Take(Take(q, t).1, t).0 == []
    ensures Take(Take(q, t).1, t).1 == Take(q, t).1
  {
  }

  /** Adding events at one offset and then taking that offset returns what was
      there before followed by those events in arrival order; every other
      offset is as before. */
  lemma {:induction false} AddAllThenTake(q: EventBuffer, es: seq<Event>, t: int)
    requires forall k :: 0 <= k < |es| ==> es[k].time == t
    ensures Held(AddAll(q, es), t) == Held(q, t) + es
    ensures forall u :: u != t ==> Held(AddAll(q, es), u) == Held(q, u)
    decreases |es|
  {
    if es != [] {
      var init := es[..|es| - 1];
      AddAllThenTake(q, init, t);
      assert es == init + [es[|es| - 1]];
    }
  }

  /** The same from an empty buffer: the take returns exactly the added events. */
  lemma AddsThenTakeFromEmpty(es: seq<Event>, t: int)
    requires forall k :: 0 <= k < |es| ==> es[k].time == t
    ensures Take(AddAll(New(), es), t).0 == es
  {
    AddAllThenTake(New(), es, t);
  }

  // ---------------------------------------------------------------------
  // Conservation over any sequence of adds and takes.

  datatype Op = AddOp(event: Event) | TakeOp(offset: int)

  /** The events of `s` for offset `t`, in order. */
  function AtOffset(s: seq<Event>, t: int): (r: seq<Event>)
    ensures |r| <= |s|
    ensures forall k :: 0 <= k < |r| ==> r[k].time == t
    decreases |s|
  {
    if s == [] then []
    else AtOffset(s[..|s| - 1], t) + (if s[|s| - 1].time == t then [s[|s| - 1]] else [])
  }

  lemma {:induction false} AtOffsetAppend(a: seq<Event>, b: seq<Event>, t: int)
    ensures AtOffset(a + b, t) == AtOffset(a, t) + AtOffset(b, t)
    decreases |b|
  {
    if b != [] {
      var b' := b[..|b| - 1];
      assert (a + b)[..|a + b| - 1] == a + b';
      AtOffsetAppend(a, b', t);
    } else {
      assert a + b == a;
    }
  }

  /** Filtering a sequence of events that all belong to `u`. */
  lemma {:induction false} AtOffsetUniform(s: seq<Event>, u: int, t: int)
    requires forall k :: 0 <= k < |s| ==> s[k].time == u
    ensures AtOffset(s, t) == if t == u then s else []
    decreases |s|
  {
    if s != [] {
      AtOffsetUniform(s[..|s| - 1], u, t);
    }
  }

  /** Running `ops` from `q`: the final buffer and every taken event, in the
      order the takes returned them. */
  function Run(q: EventBuffer, ops: seq<Op>): (r: (EventBuffer, seq<Event>))
    decreases |ops|
  {
    if ops == [] then (q, [])
    else
      var (q', taken) := Run(q, ops[..|ops| - 1]);
      match ops[|ops| - 1]
      case AddOp(e) => (Add(q', e), taken)
      case TakeOp(t) => (Take(q', t).1, taken + Take(q', t).0)
  }

  /** The events `ops` adds, in order. */
  function Added(ops: seq<Op>): seq<Event>
    decreases |ops|
  {
    if ops == [] then []
    else Added(ops[..|ops| - 1]) + (if ops[|ops| - 1].AddOp? then [ops[|ops| - 1].event] else [])
  }

  /** An add keeps the balance of `Conservation`. */
  lemma AddKeepsBalance(
    q0: EventBuffer, q: EventBuffer, taken: seq<Event>, added: seq<Event>, e: Event, t: int)
    requires AtOffset(taken, t) + Held(q, t) == Held(q0, t) + AtOffset(added, t)
    ensures AtOffset(taken, t) + Held(Add(q, e), t) == Held(q0, t) + AtOffset(added + [e], t)
  {
    AtOffsetSnoc(added, e, t);
    if e.time == t {
      AppendBoth(AtOffset(taken, t), Held(q, t), Held(q0, t), AtOffset(added, t), [e]);
    }
  }

  lemma AtOffsetSnoc(s: seq<Event>, e: Event, t: int)
    ensures AtOffset(s + [e], t) == AtOffset(s, t) + if e.time == t then [e] else []
  {
  }

  /** Appending the same suffix to both sides of an equation of concatenations. */
  lemma AppendBoth<T>(a: seq<T>, b: seq<T>, c: seq<T>, d: seq<T>, x: seq<T>)
    requires a + b == c + d
    ensures a + (b + x) == c + (d + x)
  {
    assert a + (b + x) == (a + b) + x;
    assert c + (d + x) == (c + d) + x;
  }

  /** A take keeps the balance of `Conservation`: the bucket moves from the
      buffer to the taken events. */
  lemma TakeKeepsBalance(
    q0: EventBuffer, q: EventBuffer, taken: seq<Event>, added: seq<Event>, u: int, t: int)
    requires q.WellKeyed()
    requires AtOffset(taken, t) + Held(q, t) == Held(q0, t) + AtOffset(added, t)
    ensures AtOffset(taken + Take(q, u).0, t) + Held(Take(q, u).1, t)
         == Held(q0, t) + AtOffset(added, t)
  {
    var out := Held(q, u);
    AtOffsetAppend(taken, out, t);
    AtOffsetUniform(out, u, t);
    if u == t {
      assert AtOffset(taken, t) + out + [] == AtOffset(taken, t) + Held(q, t);
    }
  }

  /** No event is lost, duplicated or reordered: for every offset, the events
      taken followed by the events still buffered are the events held at the
      start followed by the events added, each in arrival order. */
  lemma {:induction false} Conservation(q: EventBuffer, ops: seq<Op>, t: int)
    requires q.WellKeyed()
    ensures Run(q, ops).0.WellKeyed()
    ensures AtOffset(Run(q, ops).1, t) + Held(Run(q, ops).0, t) == Held(q, t) + AtOffset(Added(ops), t)
    decreases |ops|
  {
    if ops != [] {
      var init := ops[..|ops| - 1];
      Conservation(q, init, t);
      var (q', taken) := Run(q, init);
      match ops[|ops| - 1]
      case AddOp(e) =>
        assert Added(ops) == Added(init) + [e];
        AddKeepsBalance(q, q', taken, Added(init), e, t);
      case TakeOp(u) =>
        assert Added(ops) == Added(init);
        TakeKeepsBalance(q, q', taken, Added(init), u, t);
    }
    else {
      assert AtOffset([], t) == [];
    }
  }
}
