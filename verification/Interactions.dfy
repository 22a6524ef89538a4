/**
  * Decoding an Interaction (Interaction.cc): the operation byte is peeked at, a
  * default-constructed object of the right type replaces what the variant held,
  * and that object decodes itself.
  */
module Interactions {
  import opened LittleEndian
  import opened Operations
  import opened Wire
  import opened WireFormat
  import opened Messages
  import opened MessageLaws
  import opened Streams
  import opened MessageCodecs

  /** How a dispatch ends: its outcome, the stream and the variant. */
  datatype Dispatching = Dispatching(outcome: Outcome, st: StreamState, held: Message)

  /** `>>` into a Request or a Response, which already know their direction. */
  function DispatchAs(dir: Direction, st: StreamState, held: Message): (r: Dispatching)
    requires st.Valid()
    ensures r.st.Valid()
  {
    var (op, st1) := Peek(st);
    if op.None? then Dispatching(Threw(CannotDeduce), st1, held)
    else if Convert(op.value) == Undefined then Dispatching(Threw(IllegalType), st1, held)
    else
      var blank := Fresh(Convert(op.value), dir);
      FreshHoldsNothing(Convert(op.value), dir, st1.Unread());
      match TakeInto(blank, st1.Unread())
      case Short => Dispatching(Threw(ShortInput), st1.After(TakeInto(blank, st1.Unread())), blank)
      case Got(m, _) => Dispatching(Done, st1.After(TakeInto(blank, st1.Unread())), m)
  }

  /** `>>` into an Interaction: parity picks the direction, then the byte is peeked at again. */
  function DispatchInteraction(st: StreamState, held: Message): (r: Dispatching)
    requires st.Valid()
    ensures r.st.Valid()
  {
    var (op, st1) := Peek(st);
    if op.None? then Dispatching(Threw(CannotDeduce), st1, held)
    else DispatchAs(ParityDirection(op.value), st1, Fresh(Undefined, ParityDirection(op.value)))
  }

  /** The variant object that a decode fills in place. */
  class InteractionSlot {
    var held: Message

    constructor ()
      ensures held == Fresh(Undefined, Response)
    {
      held := Fresh(Undefined, Response);
    }

    /** The held object's own `decode`: it keeps its type, and its lists and data grow. */
    method DecodeInPlace(s: MessageStream) returns (o: Outcome)
      requires s.Valid()
      modifies this, s
      ensures s.Valid()
      ensures IsUndefined(old(held).body) ==>
                o == Threw(UndefinedMessage) && held == old(held) && s.State() == old(s.State())
      ensures !IsUndefined(old(held).body) ==>
                var d := TakeInto(old(held), old(s.State()).Unread());
                && s.State() == old(s.State()).After(d)
                && (if d.Got? then o == Done && held == d.value
                    else o == Threw(ShortInput) && SameType(old(held).body, held.body))
    {
      var r := DecodeHeld(held, s);
      if r.Thrown? { return Threw(r.why); }
      held := r.value;
      o := Done;
    }

    method ReadAs(dir: Direction, s: MessageStream) returns (o: Outcome)
      requires s.Valid()
      modifies this, s
      ensures s.Valid()
      ensures var r := DispatchAs(dir, old(s.State()), old(held));
              && o == r.outcome && s.State() == r.st
              && (o != Threw(ShortInput) ==> held == r.held)
              && SameType(held.body, r.held.body)
    {
      hide TakeInto, StreamState.After;
      var op := s.PeekByte();
      if op.None? { return Threw(CannotDeduce); }
      if Convert(op.value) == Undefined { return Threw(IllegalType); }
      FreshHoldsNothing(Convert(op.value), dir, s.State().Unread());
      held := Fresh(Convert(op.value), dir);
      o := DecodeInPlace(s);
    }

    method ReadInteraction(s: MessageStream) returns (o: Outcome)
      requires s.Valid()
      modifies this, s
      ensures s.Valid()
      ensures var r := DispatchInteraction(old(s.State()), old(held));
              && o == r.outcome && s.State() == r.st
              && (o != Threw(ShortInput) ==> held == r.held)
              && SameType(held.body, r.held.body)
    {
      var op := s.PeekByte();
      if op.None? { return Threw(CannotDeduce); }
      if IsRequest(op.value) {
        held := Fresh(Undefined, Request);
        o := ReadAs(Request, s);
      } else {
        held := Fresh(Undefined, Response);
        o := ReadAs(Response, s);
      }
    }
  }

  // What dispatch does, in terms of the unread bytes alone.

  /** Peeking again sees the same. */
  lemma PeekTwice(st: StreamState)
    requires st.Valid() && Peek(st).0.Some?
    ensures Peek(Peek(st).1) == Peek(st)
  {
  }

  /**
    * Dispatch on the stream is dispatch on its unread bytes: what is decoded, what
    * is left, and that a rejected input stays where it was.  The peculiar `peek`
    * makes no difference to which inputs are accepted.
    */
  lemma DispatchMeaning(st: StreamState, held: Message)
    requires st.Valid()
    ensures var r := DispatchInteraction(st, held);
            match Dispatch(st.Unread())
            case Decoded(m, rest) =>
              r.outcome == Done && r.held == m && r.st.Unread() == rest && r.st.buf == st.buf && r.st.good
            case Underflow => r.outcome == Threw(ShortInput) && r.st.rpos == |st.buf| && !r.st.good
            case Rejected =>
              && (r.outcome == Threw(CannotDeduce) || r.outcome == Threw(IllegalType))
              && r.st == st.(good := st.Unread() != [])
  {
    hide TakeMessage, TakeInto, Fresh, Convert, TranslateConcept;
    CodeIsConceptAndParity(0);
    CodeIsConceptAndParity(0xFF);
    var u := st.Unread();
    if u != [] && u[0] != 0 {
      PeekTwice(st);
      if Convert(u[0]) != Undefined {
        FreshHoldsNothing(Convert(u[0]), ParityDirection(u[0]), u);
      }
    } else if u == [] {
      PeekTwice(st);
    }
  }

  /** A type is selected exactly when there is a next byte and it is one of 100..127. */
  lemma SelectsExactlyTheCodes(st: StreamState, held: Message)
    requires st.Valid()
    ensures var r := DispatchInteraction(st, held); var u := st.Unread();
            (r.outcome == Done || r.outcome == Threw(ShortInput)) <==> u != [] && 100 <= u[0] <= 127
  {
    DispatchMeaning(st, held);
    if st.Unread() != [] { CodeIsConceptAndParity(st.Unread()[0]); }
  }

  /** On a stream too, exactly the messages that the unread bytes spell with their own types' codes are decoded. */
  lemma DecodedIff(st: StreamState, held: Message, m: Message, rest: bytes)
    requires st.Valid()
    ensures var r := DispatchInteraction(st, held);
            (r.outcome == Done && r.held == m && r.st.Unread() == rest)
            <==> (m.op == CodeOf(m.body) && Spells(st.Unread(), m, rest))
  {
    hide DispatchInteraction, Dispatch, CodeOf, Spells;
    DispatchMeaning(st, held);
    DispatchIff(st.Unread(), m, rest);
  }

  /** An empty object of each direction. */
  function Nothing(dir: Direction): Message {
    if dir == Request then Message(254, 65535, UndefinedRequest) else Message(255, 65535, UndefinedResponse)
  }

  /**
    * What a rejected dispatch leaves behind.  A zero byte is refused before anything is touched.  Any other
    * byte, and the end of the input, has already replaced what the variant held by an undefined message
    * of the direction that the byte's parity announces, a response at the end.
    */
  lemma RejectedDispatch(st: StreamState, held: Message)
    requires st.Valid()
    requires var u := st.Unread(); u == [] || u[0] < 100 || u[0] > 127
    ensures DispatchInteraction(st, held)
         == var u := st.Unread();
            if u == [] then Dispatching(Threw(IllegalType), st.(good := false), Nothing(Response))
            else if u[0] == 0 then Dispatching(Threw(CannotDeduce), st, held)
            else Dispatching(Threw(IllegalType), st, Nothing(if u[0] % 2 == 0 then Request else Response))
  {
    hide TakeInto, Convert, StreamState.Unread;
    var u := st.Unread();
    CodeIsConceptAndParity(if u == [] then 255 else u[0]);
    FreshNothing();
    if u == [] || u[0] != 0 { PeekTwice(st); }
  }

  lemma FreshNothing()
    ensures Fresh(Undefined, Request) == Nothing(Request) && Fresh(Undefined, Response) == Nothing(Response)
  {
    BadCodes();
  }

  /** After short input the stream is at its end and not good, and the variant holds the type that the byte names. */
  lemma ShortDispatch(st: StreamState, held: Message)
    requires st.Valid()
    requires DispatchInteraction(st, held).outcome == Threw(ShortInput)
    ensures st.Unread() != [] && CodeOf(DispatchInteraction(st, held).held.body) == st.Unread()[0]
    ensures DispatchInteraction(st, held).st == st.(rpos := |st.buf|, good := false)
  {
    hide TakeInto, Convert, CodeOf, RawOperation, StreamState.Unread;
    var u := st.Unread();
    DispatchMeaning(st, held);
    DispatchKeepsWritePosition(st, held);
    SelectsExactlyTheCodes(st, held);
    PeekTwice(st);
    CodeIsConceptAndParity(u[0]);
    FreshCode(Convert(u[0]), ParityDirection(u[0]));
  }

  lemma FreshCode(c: Concept, dir: Direction)
    ensures CodeOf(Fresh(c, dir).body) == TranslateConcept(c, dir)
  {
    hide CodeOf;
    CodeIsRawOperation(FreshBody(c, dir));
  }

  /** What was in the variant before does not matter once a type is selected. */
  lemma IndependentOfHeld(st: StreamState, a: Message, b: Message)
    requires st.Valid()
    requires st.Unread() != [] && 100 <= st.Unread()[0] <= 127
    ensures DispatchInteraction(st, a) == DispatchInteraction(st, b)
  {
    hide DispatchAs;
  }

  /**
    * A Request or Response told to decode itself accepts the other direction's codes as well,
    * because only the concept is looked up.  The object it then holds carries its own type's
    * code exactly when the parity of the byte announced that direction.
    */
  lemma DirectDispatchIsGenuineIffParity(dir: Direction, st: StreamState, held: Message)
    requires st.Valid() && DispatchAs(dir, st, held).outcome == Done
    ensures st.Unread() != []
    ensures DirectionOf(DispatchAs(dir, st, held).held.body) == dir
    ensures Genuine(DispatchAs(dir, st, held).held) <==> ParityDirection(st.Unread()[0]) == dir
  {
    hide TakeMessage, TakeInto, Fresh, DirectionOf, ConceptOf, Convert, TranslateConcept;
    CodeIsConceptAndParity(0xFF);
    var u := st.Unread();
    var c := Convert(u[0]);
    FreshHoldsNothing(c, dir, u);
    TypedDecode(c, dir, u);
    CodeNamesItsConcept(c, dir);
    CodeIsConceptAndParity(u[0]);
  }

  /**
    * `>>` into a Request or a Response, case by case.  An input that is refused leaves the object as it was;
    * any code selects a type of the object's own direction.
    */
  lemma DirectMeaning(dir: Direction, st: StreamState, held: Message)
    requires st.Valid()
    ensures var r := DispatchAs(dir, st, held); var u := st.Unread();
            if u == [] then r == Dispatching(Threw(IllegalType), st.(good := false), held)
            else if u[0] == 0 then r == Dispatching(Threw(CannotDeduce), st, held)
            else if u[0] < 100 || u[0] > 127 then r == Dispatching(Threw(IllegalType), st, held)
            else
              && Convert(u[0]) != Undefined
              && match TakeMessage(Convert(u[0]), dir, u)
                 case Got(m, rest) => r.outcome == Done && r.held == m && r.st.good && r.st.Unread() == rest
                 case Short =>
                   && r.outcome == Threw(ShortInput) && r.st == st.(rpos := |st.buf|, good := false)
                   && ConceptOf(r.held.body) == Convert(u[0]) && DirectionOf(r.held.body) == dir
  {
    hide TakeMessage, TakeInto, FreshBody, DirectionOf, ConceptOf, Convert, TranslateConcept;
    CodeIsConceptAndParity(0xFF);
    var u := st.Unread();
    if u != [] {
      CodeIsConceptAndParity(u[0]);
      if Convert(u[0]) != Undefined { FreshHoldsNothing(Convert(u[0]), dir, u); }
    }
  }

  /**
    * What `>>` into a Request or a Response makes of any input: exactly the messages of that direction that
    * the unread bytes spell, under their own code or the other direction's.
    */
  lemma DirectDispatchIff(dir: Direction, st: StreamState, held: Message, m: Message, rest: bytes)
    requires st.Valid()
    ensures var r := DispatchAs(dir, st, held);
            (r.outcome == Done && r.held == m && r.st.Unread() == rest)
            <==> (DirectionOf(m.body) == dir && m.op / 2 == CodeOf(m.body) / 2 && Spells(st.Unread(), m, rest))
  {
    DefinedConcept(m.body);
    hide TakeMessage, DispatchAs, DirectionOf, ConceptOf, Convert, TranslateConcept, Spells, CodeOf, IsUndefined;
    var u := st.Unread();
    DirectMeaning(dir, st, held);
    if Spells(u, m, rest) { SpelledFirst(u, m, rest); }
    if u != [] {
      CodeIsConceptAndParity(u[0]);
      if !IsUndefined(m.body) { SameConceptIff(u[0], m.body); }
      if Convert(u[0]) != Undefined {
        TypedDecodeIff(Convert(u[0]), dir, u, m, rest);
        if TakeMessage(Convert(u[0]), dir, u).Got? { TypedDecode(Convert(u[0]), dir, u); }
      }
    }
  }

  /** A byte and a type stand for the same operation exactly if they differ in the last bit at most. */
  lemma SameConceptIff(op: u8, b: Body)
    requires !IsUndefined(b)
    ensures Convert(op) == ConceptOf(b) <==> op / 2 == CodeOf(b) / 2
  {
    CodeIsRawOperation(b);
    DefinedConcept(b);
    hide Convert, TranslateConcept, ConceptOf, DirectionOf, CodeOf, IsUndefined;
    CodeNamesItsConcept(ConceptOf(b), DirectionOf(b));
    CodeIsConceptAndParity(CodeOf(b));
    SamePair(op, CodeOf(b));
  }

  lemma ResponseCodeDecodesAsRequest(st: StreamState, held: Message)
    requires st == StreamState([107, 7, 0], 0, 0, true)
    ensures st.Valid() && DispatchAs(Request, st, held).outcome == Done
    ensures DispatchAs(Request, st, held).held == Message(107, 7, ErrorRequest)
  {
    hide TakeMessage, TakeInto, Fresh;
    ErrorRequestFrom107();
    FreshHoldsNothing(Error, Request, [107, 7, 0]);
    assert st.Unread() == [107, 7, 0];
  }

  lemma ErrorRequestFrom107()
    ensures TakeMessage(Error, Request, [107, 7, 0]) == Got(Message(107, 7, ErrorRequest), [])
  {
    var m := Message(107, 7, ErrorRequest);
    DomainAndSize(m);
    HeaderBytes(m);
    assert Encodable(m.body) && ConceptOf(m.body) == Error && DirectionOf(m.body) == Request;
    assert 7 % 0x100 == 7 && 7 / 0x100 == 0;
    hide *;
    assert EmitMessage(m).bytes + [] == [107, 7, 0];
    TypedRoundTrip(m, []);
  }

  lemma HeaderBytes(m: Message)
    requires m.body == ErrorRequest
    ensures EmitMessage(m).bytes == [m.op, m.tag % 0x100, m.tag / 0x100]
  {
    var ls := MessageLeaves(m);
    assert ls == [U8(m.op), U16(m.tag)];
    assert EmitLeaves(ls, 2) == Emit([], true);
    assert EmitLeaves(ls, 1).bytes == LE(2, m.tag) + [];
    assert EmitLeaves(ls, 0).bytes == LE(1, m.op) + EmitLeaves(ls, 1).bytes;
    assert LE(1, m.op) == [m.op] + LE(0, 0);
    assert LE(2, m.tag) == [m.tag % 0x100] + LE(1, m.tag / 0x100);
    assert LE(1, m.tag / 0x100) == [m.tag / 0x100] + LE(0, 0);
  }

  // Encoding then decoding on one stream.

  /** An interaction encoded on a good stream with nothing unread is what the next dispatch decodes. */
  lemma StreamRoundTrip(st: StreamState, m: Message, held: Message)
    requires st.Valid() && st.good && st.AtEnd() && st.Unread() == [] && Sendable(m)
    ensures var st1 := st.Store(EmitMessage(m).bytes);
            var r := DispatchInteraction(st1, held);
            && r.outcome == Done && r.held == m && r.st.Unread() == []
            && r.st.good && r.st.AtEnd() && r.st.buf == st.buf + EmitMessage(m).bytes
  {
    SendableEncodes(m);
    hide EmitMessage, DispatchInteraction, Dispatch;
    StoreAppends(st, EmitMessage(m).bytes);
    var st1 := st.Store(EmitMessage(m).bytes);
    assert st1.Unread() == EmitMessage(m).bytes + [];
    RoundTrip(m, []);
    DispatchMeaning(st1, held);
    DispatchKeepsWritePosition(st1, held);
  }

  lemma DispatchKeepsWritePosition(st: StreamState, held: Message)
    requires st.Valid()
    ensures DispatchInteraction(st, held).st.wpos == st.wpos && DispatchInteraction(st, held).st.buf == st.buf
  {
  }

  /**
    * Replacing the contents rewinds the write position too, so what is encoded next
    * follows the new contents only if there were none.
    */
  lemma EncodeAfterAssignOverwrites(input: bytes, bs: bytes)
    ensures StreamState(input, 0, 0, true).Store(bs).buf == input + bs <==> input == [] || bs == []
  {
    assert [] + bs == bs && input + [] == input;
  }

  /** A dispatch leaves the stream good exactly when there was a next byte and the input did not run short. */
  lemma DispatchKeepsGoodIff(st: StreamState, held: Message)
    requires st.Valid()
    ensures DispatchInteraction(st, held).st.good <==> st.Unread() != [] && !Dispatch(st.Unread()).Underflow?
  {
    DispatchMeaning(st, held);
    if st.Unread() == [] { EmptyIsRejected(); }
  }

  /**
    * Asking a stream for an interaction can leave it refusing output: what is written afterwards
    * is lost exactly when there was nothing to read or the input ran short.  A `read`, of any
    * length, clears the condition.
    */
  lemma DispatchLosesOutputIff(st: StreamState, held: Message, bs: bytes)
    requires st.Valid() && bs != []
    ensures var st1 := DispatchInteraction(st, held).st;
            && (st1.Store(bs) == st1 <==> st.Unread() == [] || Dispatch(st.Unread()).Underflow?)
            && (st1.Store(bs) == st1 ==> forall n: nat :: ReadChunk(st1, n) == ([], st1.(good := true)))
  {
    DispatchKeepsGoodIff(st, held);
    hide DispatchInteraction, Dispatch;
    var st1 := DispatchInteraction(st, held).st;
    if st1.good { assert st1.Store(bs).wpos != st1.wpos; }
  }

  lemma EmptyIsRejected()
    ensures Dispatch([]) == Rejected
  {
  }
}
