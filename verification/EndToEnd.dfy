/**
  * Interactions sent and received over one byte pipe, in any interleaving and with any
  * number of bytes moved by each raw transport call.
  *
  * A sender encodes interactions on a stream that it keeps, writes the stream to the
  * connection, which frames the whole of its contents, and resets it, each whenever it likes.
  * A receiver reads a frame into a stream that it keeps, and decodes interactions from that
  * stream until there are no more.
  */
module EndToEnd {
  import opened LittleEndian
  import opened Operations
  import opened Messages
  import opened MessageLaws
  import opened Streams
  import opened MessageCodecs
  import opened Interactions
  import opened Batches
  import opened Connections

  /** Calls of the transport come with the most bytes that it will move. */
  datatype Act =
    | Put(message: Message)                    // `<<` on the sender's stream, returning or throwing
    | Transmit(accept: nat)                    // `Connection::write` of that stream
    | Reset                                    // `reset` of that stream
    | Receive(supply: nat, supply2: nat)       // `Connection::read`, then `>>` until it throws

  /** The sender's stream, all that was put on it since its last reset, and how much of that was already sent. */
  datatype Sender = Sender(st: StreamState, tried: seq<Message>, passed: nat)

  /** `put` lists the interactions whose encoders returned; a frame's interactions are a batch. */
  datatype World = World(sender: Sender, pipe: bytes, st: StreamState, held: Message,
                         put: seq<Message>, sent: seq<seq<Message>>, received: seq<seq<Message>>)
  {
    predicate Valid() { sender.st.Valid() && st.Valid() && sender.passed <= |sender.tried| }
  }

  const START := World(Sender(EMPTY, [], 0), [], EMPTY, Fresh(Undefined, Response), [], [], [])

  function PipeAfterWrite(pipe: bytes, payload: bytes, accept: nat): bytes {
    if |payload| <= MAX_U32 then pipe + Frame(payload)[..Min(accept, |payload| + 4)] else pipe
  }

  /** The write returned normally: the count accepted is the length in the frame's header. */
  predicate WriteReturns(payload: bytes, accept: nat) {
    |payload| <= MAX_U32 && Min(accept, |payload| + 4) == FrameLength(payload)
  }

  function Step(w: World, a: Act): (next: World)
    requires w.Valid()
    ensures next.Valid()
  {
    match a
    case Put(m) =>
      w.(sender := w.sender.(st := w.sender.st.Store(EmitMessage(m).bytes), tried := w.sender.tried + [m]),
         put := w.put + EncodedOne(m))
    case Transmit(accept) => StepTransmit(w, accept)
    case Reset => w.(sender := Sender(StreamState([], 0, 0, w.sender.st.good), [], 0))
    case Receive(supply, supply2) => StepReceive(w, supply, supply2)
  }

  function StepTransmit(w: World, accept: nat): (next: World)
    requires w.Valid()
    ensures next.Valid()
  {
    var payload := w.sender.st.buf;
    var onPipe := w.(pipe := PipeAfterWrite(w.pipe, payload, accept));
    if !WriteReturns(payload, accept) then onPipe
    else onPipe.(sender := w.sender.(passed := |w.sender.tried|), sent := w.sent + [Encoded(w.sender.tried)])
  }

  function StepReceive(w: World, supply: nat, supply2: nat): (next: World)
    requires w.Valid()
    ensures next.Valid()
  {
    match Unframe(w.pipe, supply, supply2)
    case Raised(rest) => w.(pipe := rest)
    case Delivered(payload, rest) =>
      var d := Drain(w.st.Store(payload), w.held);
      w.(pipe := rest, st := d.st, held := d.held, received := w.received + [d.got])
  }

  function Steps(w: World, acts: seq<Act>): (end: World)
    requires w.Valid()
    ensures end.Valid()
    decreases |acts|
  {
    if acts == [] then w else Steps(Step(w, acts[0]), acts[1..])
  }

  // The account.

  function Frames(batches: seq<seq<Message>>): bytes {
    if batches == [] then [] else Frame(EncodeAll(batches[0])) + Frames(batches[1..])
  }

  ghost predicate Deliverable(batch: seq<Message>) {
    AllSendable(batch) && |EncodeAll(batch)| <= MAX_PAYLOAD
  }

  ghost predicate AllDeliverable(batches: seq<seq<Message>>) {
    forall i :: 0 <= i < |batches| ==> Deliverable(batches[i])
  }

  /** The sender's stream holds whatever was put on it since its last reset. */
  ghost predicate SenderAccounted(s: Sender) {
    && s.st.Valid() && s.st.good && s.st.AtEnd() && s.st.buf == EncodeAll(s.tried)
    && s.passed <= |s.tried|
  }

  /** What was received is what was sent, in order, and what is missing is on the pipe. */
  ghost predicate Conserved(w: World) {
    && SenderAccounted(w.sender)
    && w.st.Valid() && w.st.good && w.st.AtEnd() && w.st.Unread() == []
    && AllDeliverable(w.sent)
    && w.received <= w.sent
    && w.pipe == Frames(w.sent[|w.received|..])
  }

  /**
    * The writes that keep the account.  If the contents reach the transport, either the whole frame
    * is accepted, its length does not wrap, and all that was put on the stream since its reset has
    * its own type's code and was encoded, or was undefined; or nothing is accepted, and the one
    * length that wraps to 0 is not mistaken for success.
    */
  ghost predicate TransmitCovered(s: Sender, accept: nat) {
    |s.st.buf| <= MAX_U32 ==>
      || (Clean(s.tried) && |s.st.buf| <= MAX_PAYLOAD && accept >= |s.st.buf| + 4)
      || (accept == 0 && |s.st.buf| != MAX_PAYLOAD + 1)
  }

  /** The receives that keep the account: nothing is on its way, nothing is supplied, or a whole frame is. */
  predicate ReceiveCovered(w: World, supply: nat, supply2: nat) {
    |w.received| < |w.sent| && supply != 0 ==>
      supply >= 4 && supply2 >= |EncodeAll(w.sent[|w.received|])|
  }

  ghost predicate Covered(w: World, a: Act) {
    match a
    case Put(_) => true
    case Transmit(accept) => TransmitCovered(w.sender, accept)
    case Reset => true
    case Receive(supply, supply2) => ReceiveCovered(w, supply, supply2)
  }

  lemma {:induction false} FramesAppend(batches: seq<seq<Message>>, batch: seq<Message>)
    ensures Frames(batches + [batch]) == Frames(batches) + Frame(EncodeAll(batch))
  {
    hide EncodeAll, Frame;
    if batches == [] {
      assert batches + [batch] == [batch];
    } else {
      assert (batches + [batch])[1..] == batches[1..] + [batch];
      FramesAppend(batches[1..], batch);
    }
  }

  lemma AllDeliverableAppend(batches: seq<seq<Message>>, batch: seq<Message>)
    requires AllDeliverable(batches)
    ensures AllDeliverable(batches + [batch]) <==> Deliverable(batch)
  {
    hide Deliverable;
    assert (batches + [batch])[|batches|] == batch;
  }

  /** How much of a frame goes out, and when the sender takes that for success. */
  lemma AcceptedPart(payload: bytes, accept: nat)
    requires |payload| <= MAX_U32
    ensures var n := Min(accept, |payload| + 4);
            && |Frame(payload)| == |payload| + 4 && |Frame(payload)[..n]| == n
            && (n == |payload| + 4 ==> Frame(payload)[..n] == Frame(payload))
            && (|payload| <= MAX_PAYLOAD ==> (n == FrameLength(payload) <==> accept >= |payload| + 4))
            && (|payload| > MAX_PAYLOAD ==> FrameLength(payload) < 4)
            && (n == 0 ==> (n == FrameLength(payload) <==> |payload| == MAX_PAYLOAD + 1))
  {
    WriteContract(payload, Min(accept, |payload| + 4));
  }

  lemma FrameIsPayload(x: bytes, y: bytes)
    requires |x| <= MAX_PAYLOAD
    ensures Frame(x) == Frame(y) <==> x == y
    ensures |Frame(y)| >= 4
  {
    if Frame(x) == Frame(y) { assert x == Frame(x)[4..] == Frame(y)[4..] == y; }
  }

  lemma PutConserves(w: World, m: Message)
    requires Conserved(w)
    ensures Conserved(Step(w, Put(m)))
  {
    hide EmitMessage, EncodedOne, Frames, AllDeliverable, StreamState.Store, StreamState.Unread;
    StoreAppends(w.sender.st, EmitMessage(m).bytes);
    EncodeAllAppend(w.sender.tried, m);
  }

  /** Exactly the covered writes keep the account. */
  lemma TransmitConserves(w: World, accept: nat)
    requires Conserved(w)
    ensures Conserved(Step(w, Transmit(accept))) <==> TransmitCovered(w.sender, accept)
  {
    hide Frame, FrameLength, Frames, AllDeliverable, EncodeAll, Encoded, Clean, AllSendable, StreamState.Unread;
    var payload := w.sender.st.buf;
    if |payload| <= MAX_U32 {
      AcceptedPart(payload, accept);
      if WriteReturns(payload, accept) {
        ReturnedConserves(w, accept);
      } else if accept == 0 {
        assert w.pipe + Frame(payload)[..0] == w.pipe;
      }
    }
  }

  lemma ReturnedConserves(w: World, accept: nat)
    requires Conserved(w) && WriteReturns(w.sender.st.buf, accept)
    ensures Conserved(Step(w, Transmit(accept)))
       <==> Clean(w.sender.tried) && |w.sender.st.buf| <= MAX_PAYLOAD && accept >= |w.sender.st.buf| + 4
  {
    hide Frame, FrameLength, Frames, AllDeliverable, EncodeAll, Encoded, Clean, AllSendable, StreamState.Unread;
    var payload, batch := w.sender.st.buf, Encoded(w.sender.tried);
    var pending := w.sent[|w.received|..];
    AcceptedPart(payload, accept);
    AllDeliverableAppend(w.sent, batch);
    FramesAppend(pending, batch);
    assert (w.sent + [batch])[|w.received|..] == pending + [batch];
    CleanMeaning(w.sender.tried);
    SameBehind(w.pipe, Frame(payload)[..Min(accept, |payload| + 4)], Frame(EncodeAll(batch)));
    FrameIsPayload([], EncodeAll(batch));
    if |payload| <= MAX_PAYLOAD { FrameIsPayload(payload, EncodeAll(batch)); }
  }

  /** Exactly the covered receives keep the account; those that are supplied deliver the next batch. */
  lemma ReceiveConserves(w: World, supply: nat, supply2: nat)
    requires Conserved(w)
    ensures var next := Step(w, Receive(supply, supply2));
            && (Conserved(next) <==> ReceiveCovered(w, supply, supply2))
            && (Conserved(next) && |w.received| < |w.sent| && supply != 0 ==> |next.received| == |w.received| + 1)
            && (|w.received| == |w.sent| || supply == 0 ==> next == w)
            && next.sent == w.sent && next.put == w.put && next.sender == w.sender
  {
    hide Frame, Unframe, Drain, EncodeAll, AllDeliverable, Frames, StreamState.Unread;
    if |w.received| == |w.sent| {
      assert w.sent[|w.received|..] == [];
      NoFrames();
      NothingToUnframe(supply, supply2);
    } else {
      NextFrame(w);
      var payload, rest := EncodeAll(w.sent[|w.received|]), Frames(w.sent[|w.received| + 1..]);
      FrameIsLong(payload, rest);
      FrameRoundTrip(payload, rest, supply, supply2);
      if Unframe(w.pipe, supply, supply2).Raised? {
        RaisedReadKeepsPipeIff(w.pipe, supply, supply2);
      } else {
        DeliveredConserves(w, supply, supply2);
      }
    }
  }

  /** The pipe begins with the frame of the next batch. */
  lemma NextFrame(w: World)
    requires Conserved(w) && |w.received| < |w.sent|
    ensures var k := |w.received|;
            && Deliverable(w.sent[k])
            && w.pipe == Frame(EncodeAll(w.sent[k])) + Frames(w.sent[k + 1..])
  {
    hide Frame, EncodeAll, Deliverable, StreamState.Unread;
    var k := |w.received|;
    assert w.sent[k..][0] == w.sent[k] && w.sent[k..][1..] == w.sent[k + 1..];
  }

  lemma DeliveredConserves(w: World, supply: nat, supply2: nat)
    requires Conserved(w) && |w.received| < |w.sent|
    requires var k := |w.received|;
             Unframe(w.pipe, supply, supply2) == Delivered(EncodeAll(w.sent[k]), Frames(w.sent[k + 1..]))
    ensures var next := StepReceive(w, supply, supply2);
            && Conserved(next) && |next.received| == |w.received| + 1
            && next.sent == w.sent && next.put == w.put && next.sender == w.sender
  {
    hide Frame, Unframe, Drain, EncodeAll, AllDeliverable, AllSendable, Frames, StreamState.Unread, StreamState.Store;
    NextFrame(w);
    var batch := w.sent[|w.received|];
    StoreAppends(w.st, EncodeAll(batch));
    assert [] + EncodeAll(batch) == EncodeAll(batch);
    DrainDelivers(w.st.Store(EncodeAll(batch)), w.held, batch);
    assert w.received + [batch] == w.sent[..|w.received| + 1];
  }

  lemma NoFrames()
    ensures Frames([]) == []
  {
  }

  lemma FrameIsLong(payload: bytes, rest: bytes)
    ensures |Frame(payload) + rest| >= 4 + |payload|
  {
  }

  lemma NothingToUnframe(supply: nat, supply2: nat)
    ensures Unframe([], supply, supply2) == Raised([])
  {
  }

  lemma StepConserves(w: World, a: Act)
    requires Conserved(w)
    ensures Conserved(Step(w, a)) <==> Covered(w, a)
  {
    match a
    case Put(m) => PutConserves(w, m);
    case Transmit(accept) => TransmitConserves(w, accept);
    case Reset =>
    case Receive(supply, supply2) => ReceiveConserves(w, supply, supply2);
  }

  /** Every act of the run is covered when its turn comes. */
  ghost predicate Served(w: World, acts: seq<Act>)
    requires w.Valid()
    decreases |acts|
  {
    acts == [] || (Covered(w, acts[0]) && Served(Step(w, acts[0]), acts[1..]))
  }

  ghost predicate ConservedThroughout(w: World, acts: seq<Act>)
    requires w.Valid()
    decreases |acts|
  {
    Conserved(w) && (acts == [] || ConservedThroughout(Step(w, acts[0]), acts[1..]))
  }

  /**
    * For every interleaving of encodes, writes, resets and receives, and whatever the transport moves
    * in each: no batch is lost, reordered, duplicated, broken up or left over at any point of the run,
    * exactly if every act is covered.
    */
  lemma {:induction false} EveryRunConserves(w: World, acts: seq<Act>)
    requires Conserved(w)
    ensures ConservedThroughout(w, acts) <==> Served(w, acts)
    ensures Served(w, acts) ==> Conserved(Steps(w, acts))
    decreases |acts|
  {
    hide Step, Covered, Frames, AllDeliverable, EncodeAll, StreamState.Unread;
    if acts != [] {
      StepConserves(w, acts[0]);
      if Covered(w, acts[0]) { EveryRunConserves(Step(w, acts[0]), acts[1..]); }
    }
  }

  // Each interaction once.

  function Flatten(batches: seq<seq<Message>>): seq<Message> {
    if batches == [] then [] else batches[0] + Flatten(batches[1..])
  }

  /** What the sender's stream holds that has not been sent. */
  function Waiting(s: Sender): seq<Message>
    requires s.passed <= |s.tried|
  {
    Encoded(s.tried[s.passed..])
  }

  /** What was sent, followed by what waits to be, is what was put, each interaction once and in order. */
  ghost predicate OnceEach(w: World) {
    w.Valid() && Flatten(w.sent) + Waiting(w.sender) == w.put
  }

  /** A write does not repeat what a write before it has sent, and a reset discards nothing that waits. */
  predicate Careful(w: World, a: Act)
    requires w.Valid()
  {
    match a
    case Put(_) => true
    case Transmit(accept) =>
      WriteReturns(w.sender.st.buf, accept) ==> Encoded(w.sender.tried[..w.sender.passed]) == []
    case Reset => Waiting(w.sender) == []
    case Receive(_, _) => true
  }

  lemma {:induction false} FlattenAppend(batches: seq<seq<Message>>, batch: seq<Message>)
    ensures Flatten(batches + [batch]) == Flatten(batches) + batch
  {
    if batches == [] {
      assert batches + [batch] == [batch];
    } else {
      assert (batches + [batch])[1..] == batches[1..] + [batch];
      FlattenAppend(batches[1..], batch);
    }
  }

  lemma {:induction false} FlattenPrefix(a: seq<seq<Message>>, b: seq<seq<Message>>)
    requires a <= b
    ensures Flatten(a) <= Flatten(b)
  {
    if a != [] {
      assert a[0] == b[0] && a[1..] <= b[1..];
      FlattenPrefix(a[1..], b[1..]);
    }
  }

  lemma EncodedSingle(m: Message)
    ensures Encoded([m]) == EncodedOne(m)
  {
    hide EncodedOne;
    assert Encoded([m]) == EncodedOne(m) + Encoded([]);
  }

  /** Exactly the careful acts keep the list of interactions sent and waiting equal to those put. */
  lemma StepOnceEach(w: World, a: Act)
    requires OnceEach(w)
    ensures OnceEach(Step(w, a)) <==> Careful(w, a)
  {
    hide EncodedOne, EmitMessage, Encoded, Flatten, Drain, Unframe, PipeAfterWrite, WriteReturns;
    var s := w.sender;
    match a
    case Put(m) =>
      EncodedSingle(m);
      EncodedConcat(s.tried[s.passed..], [m]);
      assert (s.tried + [m])[s.passed..] == s.tried[s.passed..] + [m];
    case Transmit(accept) =>
      if WriteReturns(s.st.buf, accept) {
        FlattenAppend(w.sent, Encoded(s.tried));
        EncodedConcat(s.tried[..s.passed], s.tried[s.passed..]);
        assert s.tried[..s.passed] + s.tried[s.passed..] == s.tried;
        assert s.tried[|s.tried|..] == [];
        NothingEncoded();
        SentOnce(Flatten(w.sent), Encoded(s.tried[..s.passed]), Waiting(s));
      }
    case Reset => NothingEncoded();
    case Receive(_, _) =>
  }

  lemma NothingEncoded()
    ensures Encoded([]) == []
  {
  }

  lemma SentOnce(sent: seq<Message>, again: seq<Message>, waiting: seq<Message>)
    ensures sent + (again + waiting) + [] == sent + waiting <==> again == []
  {
    if again == [] {
      assert [] + waiting == waiting;
    } else {
      assert |sent + (again + waiting) + []| != |sent + waiting|;
    }
  }

  ghost predicate CarefulThroughout(w: World, acts: seq<Act>)
    requires w.Valid()
    decreases |acts|
  {
    acts == [] || (Careful(w, acts[0]) && CarefulThroughout(Step(w, acts[0]), acts[1..]))
  }

  ghost predicate OnceEachThroughout(w: World, acts: seq<Act>)
    requires w.Valid()
    decreases |acts|
  {
    OnceEach(w) && (acts == [] || OnceEachThroughout(Step(w, acts[0]), acts[1..]))
  }

  /**
    * Over every run, whatever the transport does: the interactions sent and then those waiting are the
    * ones put, in order and each once, at every point of the run exactly if every act is careful.
    */
  lemma {:induction false} EveryCarefulRunIsOnceEach(w: World, acts: seq<Act>)
    requires OnceEach(w)
    ensures OnceEachThroughout(w, acts) <==> CarefulThroughout(w, acts)
    ensures CarefulThroughout(w, acts) ==> OnceEach(Steps(w, acts))
    decreases |acts|
  {
    hide Step, Careful, Flatten, Waiting;
    if acts != [] {
      StepOnceEach(w, acts[0]);
      if Careful(w, acts[0]) { EveryCarefulRunIsOnceEach(Step(w, acts[0]), acts[1..]); }
    }
  }

  /** Carelessness, for example: a stream written twice sends all that it holds twice. */
  lemma WrittenTwiceSendsTwice(w: World, accept: nat)
    requires w.Valid() && WriteReturns(w.sender.st.buf, accept)
    ensures var batch := Encoded(w.sender.tried);
            Steps(w, [Transmit(accept), Transmit(accept)]).sent == w.sent + [batch, batch]
  {
    hide WriteReturns, PipeAfterWrite, Encoded;
    var acts := [Transmit(accept), Transmit(accept)];
    assert acts[1..] == [Transmit(accept)] && acts[1..][1..] == [];
    assert Steps(w, acts) == Steps(Step(w, acts[0]), acts[1..]) == Step(Step(w, acts[0]), acts[0]);
  }

  /** A sender that resets its stream after each write that returns is careful. */
  lemma ResetAfterWriteIsCareful(w: World, accept: nat)
    requires w.Valid() && w.sender.passed == 0 && WriteReturns(w.sender.st.buf, accept)
    ensures CarefulThroughout(w, [Transmit(accept), Reset])
    ensures Steps(w, [Transmit(accept), Reset]).sender.passed == 0
  {
    hide WriteReturns, PipeAfterWrite, Encoded;
    var acts, next := [Transmit(accept), Reset], Step(w, Transmit(accept));
    assert acts[1..] == [Reset] && acts[1..][1..] == [];
    NothingEncoded();
    assert w.sender.tried[..0] == [] && next.sender.tried[next.sender.passed..] == [];
    assert Careful(w, acts[0]) && Careful(next, acts[1]);
    assert CarefulThroughout(next, acts[1..]);
    assert Steps(w, acts) == Steps(next, acts[1..]) == Step(next, Reset);
  }

  // Delivery.

  ghost predicate AllReceives(acts: seq<Act>) {
    forall i :: 0 <= i < |acts| ==> acts[i].Receive?
  }

  /** How many of the receives are supplied with anything. */
  function Active(acts: seq<Act>): nat {
    if acts == [] then 0
    else (if acts[0].Receive? && acts[0].supply != 0 then 1 else 0) + Active(acts[1..])
  }

  /** Covered receives, enough of them supplied, deliver everything on its way and empty the pipe. */
  lemma {:induction false} DrainingDeliversAll(w: World, acts: seq<Act>)
    requires Conserved(w) && AllReceives(acts) && Served(w, acts)
    requires Active(acts) >= |w.sent| - |w.received|
    ensures var end := Steps(w, acts);
            && end.received == end.sent == w.sent && end.pipe == [] && end.st.Unread() == []
            && end.put == w.put && end.sender == w.sender
    decreases |acts|
  {
    hide Step, AllDeliverable, EncodeAll, Frame, StreamState.Unread;
    if acts == [] {
      assert w.sent[|w.received|..] == [] && w.sent[..|w.received|] == w.sent;
    } else {
      ReceiveConserves(w, acts[0].supply, acts[0].supply2);
      DrainingDeliversAll(Step(w, acts[0]), acts[1..]);
    }
  }

  /** Receives whose supply never runs out are covered, whatever is on its way. */
  lemma {:induction false} AmpleReceivesAreServed(w: World, acts: seq<Act>)
    requires Conserved(w) && AllReceives(acts)
    requires forall i :: 0 <= i < |acts| ==> acts[i].supply >= 4 && acts[i].supply2 >= MAX_PAYLOAD
    ensures Served(w, acts) && Active(acts) == |acts|
    decreases |acts|
  {
    hide Step, EncodeAll, Frame, Frames, AllSendable, StreamState.Unread;
    if acts != [] {
      assert |w.received| < |w.sent| ==> Deliverable(w.sent[|w.received|]);
      assert ReceiveCovered(w, acts[0].supply, acts[0].supply2);
      ReceiveConserves(w, acts[0].supply, acts[0].supply2);
      AmpleReceivesAreServed(Step(w, acts[0]), acts[1..]);
    }
  }

  /**
    * Any covered run from the start, then enough covered receives: the received batches are the sent
    * batches, and nothing is left over.  If the run was careful too, the interactions in them, followed
    * by those still waiting to be sent, are the ones put, in order and each once.
    */
  lemma EndToEndDelivery(acts: seq<Act>, last: seq<Act>)
    requires Served(START, acts)
    requires AllReceives(last) && Served(Steps(START, acts), last) && Active(last) >= |acts|
    ensures var w := Steps(START, acts); var end := Steps(w, last);
            && w.received <= w.sent && Flatten(w.received) <= Flatten(w.sent)
            && end.received == w.sent && end.pipe == [] && end.st.Unread() == []
            && (CarefulThroughout(START, acts) ==> Flatten(end.received) + Waiting(w.sender) == w.put)
  {
    StartConserved();
    EveryRunConserves(START, acts);
    SentIsBounded(START, acts);
    hide Steps, Served, CarefulThroughout, Flatten, Waiting, AllDeliverable, Frames, StreamState.Unread;
    var w := Steps(START, acts);
    DrainingDeliversAll(w, last);
    FlattenPrefix(w.received, w.sent);
    if CarefulThroughout(START, acts) { EveryCarefulRunIsOnceEach(START, acts); }
  }

  lemma StartConserved()
    ensures Conserved(START) && OnceEach(START)
  {
    assert START.sent[0..] == [];
  }

  lemma {:induction false} SentIsBounded(w: World, acts: seq<Act>)
    requires w.Valid()
    ensures |Steps(w, acts).sent| <= |w.sent| + |acts|
    decreases |acts|
  {
    hide EmitMessage, Unframe, Drain, PipeAfterWrite, WriteReturns, Encoded;
    if acts != [] { SentIsBounded(Step(w, acts[0]), acts[1..]); }
  }

  // The same steps as code.

  /** What a sender of one batch does: it encodes until an encoder throws, and writes if none does. */
  function SendActs(ms: seq<Message>, accept: nat): seq<Act> {
    if ms == [] then [Transmit(accept)]
    else [Put(ms[0])] + if EmitMessage(ms[0]).ok then SendActs(ms[1..], accept) else []
  }

  /** A sender about to use a stream in the given condition, seen on its own. */
  ghost function Sending(st: StreamState, pipe: bytes): (w: World)
    requires st.Valid()
    ensures w.Valid()
  {
    START.(sender := Sender(st, [], 0), pipe := pipe)
  }

  /** Encodes a batch on s, behind whatever s holds, and writes s to the connection. */
  method SendBatch(ms: seq<Message>, s: MessageStream, c: Connection, accept: nat) returns (o: Outcome)
    requires s.Valid()
    modifies s, c
    ensures s.Valid()
    ensures var end := Steps(Sending(old(s.State()), old(c.pipe)), SendActs(ms, accept));
            && s.State() == end.sender.st && c.pipe == end.pipe
            && end.sent == if o == Done then [ms] else []
  {
    hide Steps, SendActs, StepReceive, EmitMessage, Frame, FrameLength, Encoded, EncodedOne, StreamState.Store;
    ghost var before := Sending(s.State(), c.pipe);
    ghost var w, acts := before, SendActs(ms, accept);
    var i := 0;
    NothingEncoded();
    while i < |ms|
      invariant i <= |ms| && s.Valid() && w.Valid() && acts == SendActs(ms[i..], accept)
      invariant Steps(w, acts) == Steps(before, SendActs(ms, accept))
      invariant s.State() == w.sender.st && c.pipe == w.pipe && w.sent == []
      invariant w.sender.tried == ms[..i] == Encoded(ms[..i])
    {
      assert ms[i..][0] == ms[i] && ms[i..][1..] == ms[i + 1..];
      PutFirst(w, ms[i..], accept);
      w := Step(w, Put(ms[i]));
      o := EncodeMessage(ms[i], s);
      if o.Threw? { return; }
      acts := SendActs(ms[i + 1..], accept);
      EncodedSnoc(ms, i);
      i := i + 1;
    }
    assert ms[i..] == [] && ms[..i] == ms;
    TransmitLast(w, accept);
    o := c.Write(s, accept);
  }

  lemma PutFirst(w: World, ms: seq<Message>, accept: nat)
    requires w.Valid() && ms != []
    ensures Steps(w, SendActs(ms, accept))
         == if EmitMessage(ms[0]).ok then Steps(Step(w, Put(ms[0])), SendActs(ms[1..], accept))
            else Step(w, Put(ms[0]))
  {
    hide EmitMessage, Step;
    var acts := SendActs(ms, accept);
    assert acts[0] == Put(ms[0]);
    assert acts[1..] == if EmitMessage(ms[0]).ok then SendActs(ms[1..], accept) else [];
  }

  lemma TransmitLast(w: World, accept: nat)
    requires w.Valid()
    ensures Steps(w, SendActs([], accept)) == Step(w, Transmit(accept))
  {
    hide Step;
    assert [Transmit(accept)][1..] == [];
  }

  lemma EncodedSnoc(ms: seq<Message>, i: nat)
    requires i < |ms| && Encoded(ms[..i]) == ms[..i] && EmitMessage(ms[i]).ok
    ensures Encoded(ms[..i + 1]) == ms[..i + 1] == ms[..i] + [ms[i]]
  {
    hide EmitMessage, Encoded;
    assert ms[..i + 1] == ms[..i] + [ms[i]];
    EncodedConcat(ms[..i], [ms[i]]);
    EncodedSingle(ms[i]);
  }

  /** Reads one frame into s and decodes interactions from it until there are no more. */
  method ReceiveBatch(c: Connection, s: MessageStream, slot: InteractionSlot, supply: nat, supply2: nat)
    returns (o: Outcome, got: seq<Message>)
    requires s.Valid()
    modifies c, s, slot
    ensures s.Valid()
    ensures match Unframe(old(c.pipe), supply, supply2)
            case Raised(rest) =>
              o == Threw(TransportFailed) && got == [] && c.pipe == rest && s.State() == old(s.State())
            case Delivered(payload, rest) =>
              var d := Drain(old(s.State()).Store(payload), old(slot.held));
              && o == Done && c.pipe == rest && s.State() == d.st && got == d.got
              && (d.outcome != Threw(ShortInput) ==> slot.held == d.held)
  {
    hide Unframe, Drain;
    got := [];
    o := c.Read(s, supply, supply2);
    if o.Threw? { return; }
    got := DrainStream(s, slot);
  }

  /** `>>` until it throws, then a `read` that clears the stream's condition. */
  method DrainStream(s: MessageStream, slot: InteractionSlot) returns (got: seq<Message>)
    requires s.Valid()
    modifies s, slot
    ensures s.Valid()
    ensures var d := Drain(old(s.State()), old(slot.held));
            && s.State() == d.st && got == d.got && (d.outcome != Threw(ShortInput) ==> slot.held == d.held)
  {
    hide Drain, DispatchInteraction, ReadChunk, StreamState.Unread;
    ghost var whole := Drain(s.State(), slot.held);
    got := [];
    ghost var st, held := s.State(), slot.held;
    var o := slot.ReadInteraction(s);
    while o == Done
      invariant s.Valid() && st.Valid()
      invariant o == DispatchInteraction(st, held).outcome && s.State() == DispatchInteraction(st, held).st
      invariant o != Threw(ShortInput) ==> slot.held == DispatchInteraction(st, held).held
      invariant Drain(st, held) == whole.(got := Drain(st, held).got) && got + Drain(st, held).got == whole.got
      decreases |st.Unread()|
    {
      DispatchShortens(st, held);
      DrainMore(st, held);
      got := got + [slot.held];
      st, held := s.State(), slot.held;
      o := slot.ReadInteraction(s);
    }
    DrainLast(st, held);
    var nothing := s.Read(0);
  }
}
