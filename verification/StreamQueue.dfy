/**
  * One message stream as a queue of interactions: any mixture of `<<` and `>>` on the
  * same stream, without frames.
  */
module StreamQueue {
  import opened Operations
  import opened Messages
  import opened MessageLaws
  import opened Streams
  import opened Interactions

  datatype Turn = Put(message: Message) | Take

  datatype Queue = Queue(st: StreamState, held: Message, put: seq<Message>, taken: seq<Message>)

  const START := Queue(EMPTY, Fresh(Undefined, Response), [], [])

  /** An encoder that throws leaves behind whatever it had written. */
  function Play(q: Queue, t: Turn): (next: Queue)
    requires q.st.Valid()
    ensures next.st.Valid()
  {
    match t
    case Put(m) =>
      q.(st := q.st.Store(EmitMessage(m).bytes), put := q.put + if EmitMessage(m).ok then [m] else [])
    case Take =>
      var r := DispatchInteraction(q.st, q.held);
      q.(st := r.st, held := r.held, taken := q.taken + if r.outcome == Done then [r.held] else [])
  }

  function PlayAll(q: Queue, ts: seq<Turn>): (end: Queue)
    requires q.st.Valid()
    ensures end.st.Valid()
    decreases |ts|
  {
    if ts == [] then q else PlayAll(Play(q, ts[0]), ts[1..])
  }

  /**
    * The turns that keep a queue a queue: what is put encodes and carries its own type's code, or
    * is undefined and so throws before writing anything, and nothing is taken from an empty queue.
    */
  ghost predicate Fair(q: Queue, ts: seq<Turn>)
    requires q.st.Valid()
    decreases |ts|
  {
    if ts == [] then true
    else
      && (match ts[0]
          case Put(m) => Sendable(m) || IsUndefined(m.body)
          case Take => |q.taken| < |q.put|)
      && Fair(Play(q, ts[0]), ts[1..])
  }

  /** Taken messages are a prefix of those put, and the unread bytes are the encodings of the others. */
  ghost predicate InOrder(q: Queue) {
    && q.st.Valid() && q.st.good && q.st.AtEnd()
    && (forall i :: 0 <= i < |q.put| ==> Sendable(q.put[i]))
    && q.taken <= q.put
    && q.st.Unread() == EncodeAll(q.put[|q.taken|..])
  }

  /** Exactly the fair puts keep the order. */
  lemma PutKeepsOrder(q: Queue, m: Message)
    requires InOrder(q)
    ensures InOrder(Play(q, Put(m))) <==> Sendable(m) || IsUndefined(m.body)
  {
    hide EmitMessage, Genuine, Encodable, IsUndefined, StreamState.Store, StreamState.Unread, EncodeAll;
    ThreeOutcomes(m);
    StoreAppends(q.st, EmitMessage(m).bytes);
    if EmitMessage(m).ok {
      EncodeAllAppend(q.put[|q.taken|..], m);
      assert (q.put + [m])[|q.taken|..] == q.put[|q.taken|..] + [m];
      assert (q.put + [m])[|q.put|] == m;
    } else {
      assert q.put + [] == q.put;
      assert |Play(q, Put(m)).st.Unread()| == |q.st.Unread()| + |EmitMessage(m).bytes|;
    }
  }

  /** Exactly taking from a queue that is not empty keeps the order, and takes one message. */
  lemma TakeKeepsOrder(q: Queue)
    requires InOrder(q)
    ensures InOrder(Play(q, Take)) <==> |q.taken| < |q.put|
    ensures |q.taken| < |q.put| ==> |Play(q, Take).taken| == |q.taken| + 1
  {
    hide EmitMessage, DispatchInteraction, Dispatch, Genuine, Encodable, Size;
    var k := |q.taken|;
    DispatchMeaning(q.st, q.held);
    DispatchKeepsWritePosition(q.st, q.held);
    if k < |q.put| {
      var m := q.put[k];
      var rest := EncodeAll(q.put[k + 1..]);
      assert q.put[k..][0] == m && q.put[k..][1..] == q.put[k + 1..];
      assert q.st.Unread() == EmitMessage(m).bytes + rest;
      SendableEncodes(m);
      RoundTrip(m, rest);
      assert q.taken + [m] == q.put[..k + 1];
    } else {
      assert q.put[k..] == [];
      EmptyIsRejected();
    }
  }

  ghost predicate InOrderThroughout(q: Queue, ts: seq<Turn>)
    requires q.st.Valid()
    decreases |ts|
  {
    InOrder(q) && (ts == [] || InOrderThroughout(Play(q, ts[0]), ts[1..]))
  }

  /**
    * Over every run, what comes out of the stream is what went in, in order, at every point of
    * the run exactly if the run is fair.
    */
  lemma {:induction false} EveryFairRunIsInOrder(q: Queue, ts: seq<Turn>)
    requires InOrder(q)
    ensures InOrderThroughout(q, ts) <==> Fair(q, ts)
    ensures Fair(q, ts) ==> InOrder(PlayAll(q, ts))
    decreases |ts|
  {
    hide Play, Sendable, IsUndefined, EncodeAll, StreamState.Unread;
    if ts != [] {
      if ts[0].Put? { PutKeepsOrder(q, ts[0].message); } else { TakeKeepsOrder(q); }
      if InOrder(Play(q, ts[0])) {
        EveryFairRunIsInOrder(Play(q, ts[0]), ts[1..]);
      }
    }
  }

  lemma StartInOrder()
    ensures InOrder(START)
  {
    assert START.put[0..] == [];
  }

  /** Once everything put has been taken, the two lists are equal and nothing is unread. */
  lemma FairRunFromStart(ts: seq<Turn>)
    requires Fair(START, ts)
    ensures var end := PlayAll(START, ts);
            && end.taken <= end.put
            && (|end.taken| == |end.put| ==> end.taken == end.put && end.st.Unread() == [])
  {
    StartInOrder();
    EveryFairRunIsInOrder(START, ts);
    hide PlayAll;
    var end := PlayAll(START, ts);
    if |end.taken| == |end.put| { assert end.put[|end.taken|..] == [] && end.put[..|end.taken|] == end.put; }
  }
}
