/**
  * Several interactions on one stream: what a run of encodes leaves there, whether or not each
  * returns, and what decoding them one after another gives.
  */
module Batches {
  import opened LittleEndian
  import opened Operations
  import opened Wire
  import opened WireFormat
  import opened Messages
  import opened MessageLaws
  import opened Streams
  import opened Interactions

  // Writing a batch.

  /** Those interactions whose encoders return.  What the others write is part of EncodeAll all the same. */
  function Encoded(ms: seq<Message>): seq<Message> {
    if ms == [] then [] else EncodedOne(ms[0]) + Encoded(ms[1..])
  }

  function EncodedOne(m: Message): seq<Message> {
    if EmitMessage(m).ok then [m] else []
  }

  ghost predicate AllSendable(ms: seq<Message>) {
    forall i :: 0 <= i < |ms| ==> Sendable(ms[i])
  }

  /** Every encode either succeeds on an object with its own type's code or throws before writing anything. */
  ghost predicate Clean(ms: seq<Message>) {
    forall i :: 0 <= i < |ms| ==> Sendable(ms[i]) || IsUndefined(ms[i].body)
  }

  lemma {:induction false} EncodedConcat(a: seq<Message>, b: seq<Message>)
    ensures Encoded(a + b) == Encoded(a) + Encoded(b)
  {
    hide EncodedOne;
    if a == [] {
      assert a + b == b;
    } else {
      assert (a + b)[1..] == a[1..] + b;
      EncodedConcat(a[1..], b);
    }
  }

  lemma {:induction false} EncodedIsNoLonger(ms: seq<Message>)
    ensures |EncodeAll(Encoded(ms))| <= |EncodeAll(ms)|
  {
    hide EmitMessage;
    if ms != [] {
      EncodedIsNoLonger(ms[1..]);
      OneMore(ms[0], Encoded(ms[1..]));
    }
  }

  lemma OneMore(m: Message, ms: seq<Message>)
    ensures EncodeAll([m] + ms) == EmitMessage(m).bytes + EncodeAll(ms)
    ensures [] + ms == ms
  {
    assert ([m] + ms)[1..] == ms;
  }

  lemma AllSendableOneMore(m: Message, ms: seq<Message>)
    ensures AllSendable([m] + ms) <==> Sendable(m) && AllSendable(ms)
  {
    hide Sendable;
    var all := [m] + ms;
    assert all[0] == m;
    if AllSendable(all) {
      forall i | 0 <= i < |ms| ensures Sendable(ms[i]) { assert all[i + 1] == ms[i]; }
    }
  }

  lemma CleanOneMore(ms: seq<Message>)
    requires ms != []
    ensures Clean(ms) <==> (Sendable(ms[0]) || IsUndefined(ms[0].body)) && Clean(ms[1..])
  {
    hide Sendable, IsUndefined;
    if Clean(ms) {
      forall i | 0 <= i < |ms[1..]| ensures Sendable(ms[1..][i]) || IsUndefined(ms[1..][i].body) {
        assert ms[1..][i] == ms[i + 1];
      }
    } else if (Sendable(ms[0]) || IsUndefined(ms[0].body)) && Clean(ms[1..]) {
      forall i | 0 <= i < |ms| ensures Sendable(ms[i]) || IsUndefined(ms[i].body) {
        if i > 0 { assert ms[i] == ms[1..][i - 1]; }
      }
      assert false;
    }
  }

  /**
    * A run of encodes leaves on the stream exactly the messages whose encoders returned, all of them
    * decodable, exactly if it is clean.
    */
  lemma {:induction false} CleanMeaning(ms: seq<Message>)
    ensures AllSendable(Encoded(ms)) && EncodeAll(Encoded(ms)) == EncodeAll(ms) <==> Clean(ms)
  {
    if ms != [] {
      hide EmitMessage, Encodable, Genuine, IsUndefined, AllSendable, Clean;
      var m, more := ms[0], ms[1..];
      CleanMeaning(more);
      ThreeOutcomes(m);
      EncodedIsNoLonger(more);
      OneMore(m, Encoded(more));
      AllSendableOneMore(m, Encoded(more));
      CleanOneMore(ms);
      if EmitMessage(m).ok {
        SameBehind(EmitMessage(m).bytes, EncodeAll(Encoded(more)), EncodeAll(more));
      } else if EmitMessage(m).bytes == [] {
        assert EmitMessage(m) == Emit([], false);
      }
    }
  }

  lemma SameBehind(a: bytes, x: bytes, y: bytes)
    ensures a + x == a + y <==> x == y
  {
    if a + x == a + y { assert x == (a + x)[|a|..] == (a + y)[|a|..] == y; }
  }

  // Reading a batch.

  datatype Drained = Drained(outcome: Outcome, st: StreamState, held: Message, got: seq<Message>)

  /**
    * Dispatching until a dispatch throws, and then a `read` to clear the stream's condition: a stream
    * cannot be asked whether anything is left without marking it.
    */
  function Drain(st: StreamState, held: Message): (d: Drained)
    requires st.Valid()
    ensures d.st.Valid()
    decreases |st.Unread()|
  {
    var r := DispatchInteraction(st, held);
    if r.outcome != Done then Drained(r.outcome, ReadChunk(r.st, 0).1, r.held, [])
    else
      DispatchShortens(st, held);
      var more := Drain(r.st, r.held);
      more.(got := [r.held] + more.got)
  }

  lemma DrainMore(st: StreamState, held: Message)
    requires st.Valid() && DispatchInteraction(st, held).outcome == Done
    ensures var r := DispatchInteraction(st, held); var more := Drain(r.st, r.held);
            Drain(st, held) == more.(got := [r.held] + more.got)
  {
    hide DispatchInteraction, StreamState.Unread;
  }

  lemma DrainLast(st: StreamState, held: Message)
    requires st.Valid() && DispatchInteraction(st, held).outcome != Done
    ensures var r := DispatchInteraction(st, held);
            Drain(st, held) == Drained(r.outcome, ReadChunk(r.st, 0).1, r.held, [])
  {
    hide DispatchInteraction;
  }

  lemma DispatchShortens(st: StreamState, held: Message)
    requires st.Valid() && DispatchInteraction(st, held).outcome == Done
    ensures |DispatchInteraction(st, held).st.Unread()| < |st.Unread()|
  {
    DispatchMeaning(st, held);
    var u := st.Unread();
    DecodedIsShorter(u);
  }

  /** A message has at least its code. */
  lemma DecodedIsShorter(u: bytes)
    requires Dispatch(u).Decoded?
    ensures |Dispatch(u).rest| < |u|
  {
    var c, dir := Convert(u[0]), ParityDirection(u[0]);
    hide TakeTail, TailKindOf, BodyKinds, Build, Convert;
    var ks := MessageKinds(c, dir);
    var ls := TakeLeaves(ks, [], u);
    assert ks[0] == KU8;
    FirstLeafShortens(ks, u);
  }

  lemma FirstLeafShortens(ks: seq<Kind>, u: bytes)
    requires |ks| > 0 && ks[0] == KU8 && TakeLeaves(ks, [], u).Got?
    ensures |TakeLeaves(ks, [], u).rest| < |u|
  {
  }

  /**
    * Draining a stream that holds the encodings of a batch and then something that is not a message yields
    * the batch.  What follows is left unread if it does not begin with a code, and used up if it is cut
    * short; either way the stream is good again.
    */
  lemma {:induction false} DrainStops(st: StreamState, held: Message, ms: seq<Message>, last: bytes)
    requires st.Valid() && st.good && st.AtEnd() && AllSendable(ms)
    requires st.Unread() == EncodeAll(ms) + last && !Dispatch(last).Decoded?
    ensures var d := Drain(st, held);
            && d.got == ms && d.st.AtEnd() && d.st.buf == st.buf && StoppedBy(d.outcome, d.st, d.held, last)
    decreases |ms|
  {
    hide EmitMessage, DispatchInteraction, Dispatch, Sendable, StoppedBy;
    if ms == [] {
      assert [] + last == last;
      DrainEnds(st, held);
    } else {
      DispatchMeaning(st, held);
      DispatchKeepsWritePosition(st, held);
      var more := EncodeAll(ms[1..]) + last;
      assert st.Unread() == EmitMessage(ms[0]).bytes + more;
      SendableDecodes(ms[0], more);
      var r := DispatchInteraction(st, held);
      DrainStops(r.st, r.held, ms[1..], last);
      assert ms == [ms[0]] + ms[1..];
    }
  }

  lemma SendableDecodes(m: Message, rest: bytes)
    requires Sendable(m)
    ensures Dispatch(EmitMessage(m).bytes + rest) == Decoded(m, rest)
  {
    hide EmitMessage, Dispatch, Encodable, Genuine;
    SendableEncodes(m);
    RoundTrip(m, rest);
  }

  /** How draining ends at an input that is not a message, and what is left of it. */
  ghost predicate StoppedBy(outcome: Outcome, st: StreamState, held: Message, last: bytes) {
    && st.Valid() && st.good
    && outcome == (if Dispatch(last).Underflow? then Threw(ShortInput)
                   else if last != [] && last[0] == 0 then Threw(CannotDeduce) else Threw(IllegalType))
    && st.Unread() == (if Dispatch(last).Underflow? then [] else last)
    && (last == [] ==> held == Nothing(Response))
  }

  lemma DrainEnds(st: StreamState, held: Message)
    requires st.Valid() && st.good && st.AtEnd() && !Dispatch(st.Unread()).Decoded?
    ensures var d := Drain(st, held);
            d.got == [] && d.st.AtEnd() && d.st.buf == st.buf && StoppedBy(d.outcome, d.st, d.held, st.Unread())
  {
    hide DispatchInteraction, Dispatch;
    DispatchMeaning(st, held);
    DispatchKeepsWritePosition(st, held);
    RejectedIff(st.Unread());
    if Dispatch(st.Unread()).Rejected? { RejectedDispatch(st, held); }
  }

  /** In particular it yields exactly the batch if there is nothing else, and leaves the stream as usable. */
  lemma DrainDelivers(st: StreamState, held: Message, ms: seq<Message>)
    requires st.Valid() && st.good && st.AtEnd() && st.Unread() == EncodeAll(ms) && AllSendable(ms)
    ensures var d := Drain(st, held);
            && d.got == ms && d.outcome == Threw(IllegalType) && d.held == Nothing(Response)
            && d.st.good && d.st.AtEnd() && d.st.Unread() == [] && d.st.buf == st.buf
  {
    hide Drain, Dispatch, EncodeAll, AllSendable;
    RejectedIff([]);
    assert EncodeAll(ms) + [] == EncodeAll(ms);
    DrainStops(st, held, ms, []);
  }
}
