/** Whole runs of a message stream: any mixture of output, decoding, reading and peeking. */
module StreamRuns {
  import opened LittleEndian
  import opened Wire
  import opened Messages
  import opened Streams
  import opened Interactions

  datatype Event =
    | Encode(message: Message)      // `<<` of a message, returning or throwing
    | Output(bs: bytes)             // `write`
    | Decode(into: Message)         // `decode` of an object of any type, holding anything
    | Receive(held: Message)        // `>>` into an Interaction
    | ReadSome(n: nat)              // `read`
    | Look                          // `peek`

  /** A stream with the history of the bytes that went in and came out. */
  datatype Run = Run(st: StreamState, written: bytes, consumed: bytes)

  const START := Run(EMPTY, [], [])

  /** The bytes an event would put on the stream. */
  function Offered(e: Event): bytes {
    match e
    case Encode(m) => EmitMessage(m).bytes
    case Output(bs) => bs
    case _ => []
  }

  function Taken<T>(u: bytes, d: Parsed<T>): bytes
    requires d.Got? ==> IsSuffix(d.rest, u)
  {
    if d.Got? then u[..|u| - |d.rest|] else u
  }

  function TakenByDispatch(u: bytes): bytes {
    match Dispatch(u)
    case Decoded(_, rest) => u[..|u| - |rest|]
    case Underflow => u
    case Rejected => []
  }

  function Do(r: Run, e: Event): (next: Run)
    requires r.st.Valid()
    ensures next.st.Valid()
  {
    var u := r.st.Unread();
    match e
    case Encode(_) => Put(r, Offered(e))
    case Output(_) => Put(r, Offered(e))
    case Decode(into) =>
      if IsUndefined(into.body) then r
      else r.(st := r.st.After(TakeInto(into, u)), consumed := r.consumed + Taken(u, TakeInto(into, u)))
    case Receive(held) =>
      r.(st := DispatchInteraction(r.st, held).st, consumed := r.consumed + TakenByDispatch(u))
    case ReadSome(n) => r.(st := ReadChunk(r.st, n).1, consumed := r.consumed + ReadChunk(r.st, n).0)
    case Look => r.(st := Peek(r.st).1)
  }

  function Put(r: Run, bs: bytes): (next: Run)
    requires r.st.Valid()
    ensures next.st.Valid()
  {
    r.(st := r.st.Store(bs), written := r.written + (if r.st.good then bs else []))
  }

  function DoAll(r: Run, es: seq<Event>): (end: Run)
    requires r.st.Valid()
    ensures end.st.Valid()
    decreases |es|
  {
    if es == [] then r else DoAll(Do(r, es[0]), es[1..])
  }

  /** Every byte is accounted for: the buffer is all that was written, and what came out is its read part. */
  ghost predicate Accounted(r: Run) {
    && r.st.Valid() && r.st.AtEnd()
    && r.st.buf == r.written && r.consumed == r.written[..r.st.rpos]
  }

  lemma PutKeepsAccount(r: Run, bs: bytes)
    requires Accounted(r)
    ensures Accounted(Put(r, bs))
  {
    if r.st.good { StoreAppends(r.st, bs); }
  }

  lemma AdvanceKeepsAccount(r: Run, st: StreamState, taken: bytes)
    requires Accounted(r) && st.Valid() && st.buf == r.st.buf && st.wpos == r.st.wpos
    requires st.rpos == r.st.rpos + |taken| && taken <= r.st.Unread()
    ensures Accounted(r.(st := st, consumed := r.consumed + taken))
  {
    if r.st.good {
      assert taken == r.st.buf[r.st.rpos..st.rpos];
      assert r.written[..r.st.rpos] + r.st.buf[r.st.rpos..st.rpos] == r.written[..st.rpos];
    }
  }

  lemma AfterKeepsAccount<T>(r: Run, d: Parsed<T>)
    requires Accounted(r) && (d.Got? ==> IsSuffix(d.rest, r.st.Unread()))
    ensures Accounted(r.(st := r.st.After(d), consumed := r.consumed + Taken(r.st.Unread(), d)))
  {
    AdvanceKeepsAccount(r, r.st.After(d), Taken(r.st.Unread(), d));
  }

  lemma ReceiveKeepsAccount(r: Run, held: Message)
    requires Accounted(r)
    ensures Accounted(Do(r, Receive(held)))
  {
    var u, st := r.st.Unread(), DispatchInteraction(r.st, held).st;
    DispatchKeepsWritePosition(r.st, held);
    if r.st.good {
      DispatchConsumes(r.st, held);
    } else {
      DispatchMeaning(r.st, held);
      EmptyIsRejected();
    }
    hide DispatchInteraction, Dispatch, TakenByDispatch;
    AdvanceKeepsAccount(r, st, TakenByDispatch(u));
  }

  /** The read position moves over exactly what the dispatcher takes. */
  lemma DispatchConsumes(st: StreamState, held: Message)
    requires st.Valid() && st.good
    ensures DispatchInteraction(st, held).st.rpos == st.rpos + |TakenByDispatch(st.Unread())|
    ensures TakenByDispatch(st.Unread()) <= st.Unread()
  {
    DispatchMeaning(st, held);
    DispatchKeepsWritePosition(st, held);
    hide DispatchInteraction, Dispatch;
    var r := DispatchInteraction(st, held);
    if Dispatch(st.Unread()).Decoded? { assert |r.st.buf[r.st.rpos..]| == |Dispatch(st.Unread()).rest|; }
  }

  lemma EventKeepsAccount(r: Run, e: Event)
    requires Accounted(r)
    ensures Accounted(Do(r, e))
  {
    hide EmitMessage, TakeInto, DispatchInteraction;
    match e
    case Encode(_) => PutKeepsAccount(r, Offered(e));
    case Output(_) => PutKeepsAccount(r, Offered(e));
    case Decode(into) =>
      if !IsUndefined(into.body) { AfterKeepsAccount(r, TakeInto(into, r.st.Unread())); }
    case Receive(held) => ReceiveKeepsAccount(r, held);
    case ReadSome(n) =>
      var got := ReadChunk(r.st, n).0;
      if r.st.good {
        assert got == r.st.buf[r.st.rpos..r.st.rpos + |got|];
        assert r.written[..r.st.rpos] + got == r.written[..r.st.rpos + |got|];
      }
    case Look =>
  }

  /**
    * Over every run, whatever happens in it and wherever it starts, the bytes that came out
    * followed by those not yet read are exactly the bytes that went in, and `str` and
    * `length` report all of them, read or not.
    */
  lemma {:induction false} RunIsAccounted(r: Run, es: seq<Event>)
    requires Accounted(r)
    ensures Accounted(DoAll(r, es))
    ensures var end := DoAll(r, es);
            end.consumed + end.st.buf[end.st.rpos..] == end.written == end.st.buf
    decreases |es|
  {
    if es != [] {
      EventKeepsAccount(r, es[0]);
      RunIsAccounted(Do(r, es[0]), es[1..]);
    }
  }

  /** Over every run from a fresh stream in particular. */
  lemma FreshRunIsAccounted(es: seq<Event>)
    ensures var end := DoAll(START, es);
            end.consumed + end.st.buf[end.st.rpos..] == end.written == end.st.buf
  {
    assert Accounted(START);
    RunIsAccounted(START, es);
  }

  function AllOffered(es: seq<Event>): bytes {
    if es == [] then [] else Offered(es[0]) + AllOffered(es[1..])
  }

  /** Every event that has something to put out finds the stream good. */
  ghost predicate Heard(r: Run, es: seq<Event>)
    requires r.st.Valid()
    decreases |es|
  {
    es == [] || ((Offered(es[0]) != [] ==> r.st.good) && Heard(Do(r, es[0]), es[1..]))
  }

  lemma OneEventWrites(r: Run, e: Event)
    requires r.st.Valid()
    ensures Do(r, e).written == r.written + if r.st.good then Offered(e) else []
  {
    hide EmitMessage, TakeInto, DispatchInteraction;
  }

  lemma {:induction false} NoMoreThanOffered(r: Run, es: seq<Event>)
    requires r.st.Valid()
    ensures |DoAll(r, es).written| <= |r.written| + |AllOffered(es)|
    decreases |es|
  {
    hide Do, Offered;
    if es != [] {
      OneEventWrites(r, es[0]);
      NoMoreThanOffered(Do(r, es[0]), es[1..]);
    }
  }

  /** Over every run, whatever it starts from, all output offered is kept exactly when it is all heard. */
  lemma {:induction false} NothingDroppedIffHeard(r: Run, es: seq<Event>)
    requires r.st.Valid()
    ensures DoAll(r, es).written == r.written + AllOffered(es) <==> Heard(r, es)
    decreases |es|
  {
    hide Do, Offered;
    if es == [] {
      assert r.written + [] == r.written;
    } else {
      var next := Do(r, es[0]);
      OneEventWrites(r, es[0]);
      NothingDroppedIffHeard(next, es[1..]);
      NoMoreThanOffered(next, es[1..]);
      assert (r.written + Offered(es[0])) + AllOffered(es[1..]) == r.written + AllOffered(es);
      if Offered(es[0]) == [] { assert r.written + Offered(es[0]) == r.written; }
    }
  }

  /** There is enough unread input for an event: its decode completes, or what it looks at is there. */
  predicate Fed(st: StreamState, e: Event)
    requires st.Valid()
  {
    match e
    case Decode(into) => IsUndefined(into.body) || TakeInto(into, st.Unread()).Got?
    case Receive(_) => st.Unread() != [] && !Dispatch(st.Unread()).Underflow?
    case Look => st.Unread() != []
    case _ => true
  }

  /** Exactly the fed events leave a good stream good. */
  lemma GoodIffFed(r: Run, e: Event)
    requires r.st.Valid() && r.st.good
    ensures Do(r, e).st.good <==> Fed(r.st, e)
  {
    hide EmitMessage, TakeInto, Dispatch;
    if e.Receive? { DispatchKeepsGoodIff(r.st, e.held); }
    hide DispatchInteraction;
  }

  /** Every event of the run is fed when its turn comes. */
  ghost predicate Supplied(r: Run, es: seq<Event>)
    requires r.st.Valid()
    decreases |es|
  {
    es == [] || (Fed(r.st, es[0]) && Supplied(Do(r, es[0]), es[1..]))
  }

  /** The stream is good after every event of the run. */
  ghost predicate GoodThroughout(r: Run, es: seq<Event>)
    requires r.st.Valid()
    decreases |es|
  {
    r.st.good && (es == [] || GoodThroughout(Do(r, es[0]), es[1..]))
  }

  /** From a good stream, a run stays good throughout exactly when its input suffices, and then drops no output. */
  lemma {:induction false} SuppliedRunKeepsAll(r: Run, es: seq<Event>)
    requires r.st.Valid() && r.st.good
    ensures Supplied(r, es) <==> GoodThroughout(r, es)
    ensures Supplied(r, es) ==> DoAll(r, es).written == r.written + AllOffered(es)
    decreases |es|
  {
    hide Do, Offered, Fed, DoAll, AllOffered;
    SuppliedIsHeard(r, es);
    NothingDroppedIffHeard(r, es);
  }

  lemma {:induction false} SuppliedIsHeard(r: Run, es: seq<Event>)
    requires r.st.Valid() && r.st.good
    ensures Supplied(r, es) <==> GoodThroughout(r, es)
    ensures Supplied(r, es) ==> Heard(r, es)
    decreases |es|
  {
    hide Do, Offered, Fed;
    if es != [] {
      GoodIffFed(r, es[0]);
      if Fed(r.st, es[0]) { SuppliedIsHeard(Do(r, es[0]), es[1..]); }
    }
  }
}
