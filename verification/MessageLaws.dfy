/** Laws of the message codec over all message types. */
module MessageLaws {
  import opened LittleEndian
  import opened Operations
  import opened Wire
  import opened WireLaws
  import opened Messages

  // A body and its layout determine each other.

  lemma {:induction false} LayoutHasKinds(b: Body)
    ensures HaveKinds(BodyLeaves(b), BodyKinds(ConceptOf(b), DirectionOf(b)))
    ensures TailHasKind(BodyTail(b), TailKindOf(ConceptOf(b), DirectionOf(b)))
  {
    if DirectionOf(b) == Request { RequestLeavesHaveKinds(b); } else { ResponseLeavesHaveKinds(b); }
    BodyTailHasKind(b);
  }

  lemma {:induction false} RequestLeavesHaveKinds(b: Body)
    requires DirectionOf(b) == Request
    ensures HaveKinds(BodyLeaves(b), BodyKinds(ConceptOf(b), Request))
  {
  }

  lemma {:induction false} ResponseLeavesHaveKinds(b: Body)
    requires DirectionOf(b) == Response
    ensures HaveKinds(BodyLeaves(b), BodyKinds(ConceptOf(b), Response))
  {
  }

  lemma {:induction false} BodyTailHasKind(b: Body)
    ensures TailHasKind(BodyTail(b), TailKindOf(ConceptOf(b), DirectionOf(b)))
  {
  }

  /** Building a body from its own layout gives the body back. */
  lemma BuildOfLayout(b: Body)
    requires !IsUndefined(b)
    ensures HaveKinds(BodyLeaves(b), BodyKinds(ConceptOf(b), DirectionOf(b)))
    ensures TailHasKind(BodyTail(b), TailKindOf(ConceptOf(b), DirectionOf(b)))
    ensures Build(ConceptOf(b), DirectionOf(b), BodyLeaves(b), BodyTail(b)) == b
  {
    LayoutHasKinds(b);
    if DirectionOf(b) == Request { BuildOfRequestLayout(b); } else { BuildOfResponseLayout(b); }
  }

  lemma NamesBack(names: seq<bytes>)
    ensures LeafNames(NameLeaves(names)) == names
  {
  }

  lemma QidsBack(qids: seq<Qid>)
    ensures LeafQids(QidLeaves(qids)) == qids
  {
  }

  lemma {:induction false} BuildOfRequestLayout(b: Body)
    requires !IsUndefined(b) && DirectionOf(b) == Request
    requires HaveKinds(BodyLeaves(b), BodyKinds(ConceptOf(b), Request))
    requires TailHasKind(BodyTail(b), TailKindOf(ConceptOf(b), Request))
    ensures Build(ConceptOf(b), Request, BodyLeaves(b), BodyTail(b)) == b
  {
    hide HaveKinds, TailHasKind, BodyKinds, TailKindOf, NameLeaves, LeafNames, LeafQids;
    if b.WalkRequest? { NamesBack(b.wname); }
    // by halves
    match ConceptOf(b)
    case Version | Auth | Attach | Error | Flush | Walk | Open =>
    case _ =>
  }

  lemma {:induction false} BuildOfResponseLayout(b: Body)
    requires !IsUndefined(b) && DirectionOf(b) == Response
    requires HaveKinds(BodyLeaves(b), BodyKinds(ConceptOf(b), Response))
    requires TailHasKind(BodyTail(b), TailKindOf(ConceptOf(b), Response))
    ensures Build(ConceptOf(b), Response, BodyLeaves(b), BodyTail(b)) == b
  {
    hide HaveKinds, TailHasKind, BodyKinds, TailKindOf, QidLeaves, LeafQids, LeafNames;
    if b.WalkResponse? { QidsBack(b.wqid); }
    // by halves
    match ConceptOf(b)
    case Version | Auth | Attach | Error | Flush | Walk | Open =>
    case _ =>
  }

  /** A built body has the type asked for and lays out as what it was built from. */
  lemma LayoutOfBuild(c: Concept, dir: Direction, ls: seq<Leaf>, t: Tail)
    requires c != Undefined
    requires HaveKinds(ls, BodyKinds(c, dir)) && TailHasKind(t, TailKindOf(c, dir))
    ensures var b := Build(c, dir, ls, t);
            ConceptOf(b) == c && DirectionOf(b) == dir && BodyLeaves(b) == ls && BodyTail(b) == t
  {
    if dir == Request { LayoutOfRequest(c, ls, t); } else { LayoutOfResponse(c, ls, t); }
  }

  lemma {:induction false} LayoutOfRequest(c: Concept, ls: seq<Leaf>, t: Tail)
    requires c != Undefined
    requires HaveKinds(ls, BodyKinds(c, Request)) && TailHasKind(t, TailKindOf(c, Request))
    ensures var b := Build(c, Request, ls, t);
            ConceptOf(b) == c && DirectionOf(b) == Request && BodyLeaves(b) == ls && BodyTail(b) == t
  {
    hide NameLeaves, LeafNames, LeafQids, Repeat;
    // by halves
    match c
    case Version | Auth | Attach | Error | Flush | Walk | Open =>
    case _ =>
  }

  lemma {:induction false} LayoutOfResponse(c: Concept, ls: seq<Leaf>, t: Tail)
    requires c != Undefined
    requires HaveKinds(ls, BodyKinds(c, Response)) && TailHasKind(t, TailKindOf(c, Response))
    ensures var b := Build(c, Response, ls, t);
            ConceptOf(b) == c && DirectionOf(b) == Response && BodyLeaves(b) == ls && BodyTail(b) == t
  {
    hide QidLeaves, LeafQids, LeafNames, Repeat;
    // by halves
    match c
    case Version | Auth | Attach | Error | Flush | Walk | Open =>
    case _ =>
  }

  // Exact domain and size.

  lemma {:induction false} SmallRunSize(ls: seq<Leaf>)
    requires |ls| <= 4
    ensures LeavesSize(ls, 0)
         == (if |ls| > 0 then LeafSize(ls[0]) else 0) + (if |ls| > 1 then LeafSize(ls[1]) else 0)
          + (if |ls| > 2 then LeafSize(ls[2]) else 0) + (if |ls| > 3 then LeafSize(ls[3]) else 0)
  {
    if |ls| >= 2 { assert LeavesSize(ls, 0) == LeafSize(ls[0]) + LeafSize(ls[1]) + LeavesSize(ls, 2); }
    if |ls| == 3 { assert LeavesSize(ls, 2) == LeafSize(ls[2]) + LeavesSize(ls, 3); }
    if |ls| == 4 { assert LeavesSize(ls, 2) == LeafSize(ls[2]) + LeafSize(ls[3]) + LeavesSize(ls, 4); }
  }

  lemma {:induction false} SizeAfterPrefix(pre: seq<Leaf>, ls: seq<Leaf>, k: nat)
    requires k <= |ls|
    ensures LeavesSize(pre + ls, |pre| + k) == LeavesSize(ls, k)
    decreases |ls| - k
  {
    if k < |ls| { SizeAfterPrefix(pre, ls, k + 1); }
  }

  lemma {:induction false} MessageRunSize(m: Message)
    ensures LeavesSize(MessageLeaves(m), 0) == 3 + LeavesSize(BodyLeaves(m.body), 0)
  {
    var header := [U8(m.op), U16(m.tag)];
    SizeAfterPrefix(header, BodyLeaves(m.body), 0);
    var ls := MessageLeaves(m);
    assert ls[0] == header[0] && ls[1] == header[1];
    assert LeavesSize(ls, 0) == LeafSize(ls[0]) + LeafSize(ls[1]) + LeavesSize(ls, 2);
  }

  lemma {:induction false} NamesRunSize(names: seq<bytes>, k: nat)
    requires k <= |names|
    ensures LeavesSize(NameLeaves(names), k) == NamesSize(names[k..])
    decreases |names| - k
  {
    if k < |names| {
      NamesRunSize(names, k + 1);
      assert names[k..][1..] == names[k + 1..];
    }
  }

  lemma {:induction false} QidsRunSize(qids: seq<Qid>, k: nat)
    requires k <= |qids|
    ensures LeavesSize(QidLeaves(qids), k) == 13 * (|qids| - k)
    decreases |qids| - k
  {
    if k < |qids| { QidsRunSize(qids, k + 1); }
  }

  lemma {:induction false} LayoutSize(b: Body)
    requires !IsUndefined(b)
    ensures 3 + LeavesSize(BodyLeaves(b), 0) + TailSize(BodyTail(b)) == Size(b)
  {
    if BodyTail(b).NoTail? { PlainSize(b); } else { TailedSize(b); }
  }

  lemma {:induction false} PlainSize(b: Body)
    requires !IsUndefined(b) && BodyTail(b).NoTail?
    ensures 3 + LeavesSize(BodyLeaves(b), 0) == Size(b)
  {
    hide NamesSize, LeavesSize;
    SmallRunSize(BodyLeaves(b));
  }

  lemma {:induction false} TailedSize(b: Body)
    requires !BodyTail(b).NoTail?
    ensures 3 + LeavesSize(BodyLeaves(b), 0) + TailSize(BodyTail(b)) == Size(b)
  {
    SmallRunSize(BodyLeaves(b));
    if b.WalkRequest? {
      NamesRunSize(b.wname, 0);
      assert b.wname[0..] == b.wname;
    }
    if b.WalkResponse? { QidsRunSize(b.wqid, 0); }
    hide NamesSize, LeavesSize, NameLeaves, QidLeaves;
  }

  lemma {:induction false} LayoutFits(m: Message)
    requires !IsUndefined(m.body)
    ensures (forall i :: 0 <= i < |MessageLeaves(m)| ==> LeafFits(MessageLeaves(m)[i])) && TailFits(BodyTail(m.body))
       <==> Encodable(m.body)
  {
    var ls, bs := MessageLeaves(m), BodyLeaves(m.body);
    assert forall i :: 0 <= i < |bs| ==> ls[i + 2] == bs[i];
    assert LeafFits(ls[0]) && LeafFits(ls[1]);
    BodyLayoutFits(m.body);
    if forall i :: 0 <= i < |ls| ==> LeafFits(ls[i]) {
      forall i | 0 <= i < |bs| ensures LeafFits(bs[i]) { assert LeafFits(ls[i + 2]); }
    } else {
      var j :| 0 <= j < |ls| && !LeafFits(ls[j]);
      assert bs[j - 2] == ls[j];
    }
  }

  lemma {:induction false} BodyLayoutFits(b: Body)
    requires !IsUndefined(b)
    ensures (forall i :: 0 <= i < |BodyLeaves(b)| ==> LeafFits(BodyLeaves(b)[i])) && TailFits(BodyTail(b))
       <==> Encodable(b)
  {
    if BodyTail(b).NoTail? { PlainFits(b); } else { TailedFits(b); }
  }

  /** No body has more than four leaves. */
  predicate SmallRunFits(ls: seq<Leaf>) {
    && (|ls| > 0 ==> LeafFits(ls[0])) && (|ls| > 1 ==> LeafFits(ls[1]))
    && (|ls| > 2 ==> LeafFits(ls[2])) && (|ls| > 3 ==> LeafFits(ls[3]))
  }

  lemma SmallRunFitsIff(ls: seq<Leaf>)
    requires |ls| <= 4
    ensures SmallRunFits(ls) <==> forall i :: 0 <= i < |ls| ==> LeafFits(ls[i])
  {
    hide LeafFits;
    if SmallRunFits(ls) {
      forall i | 0 <= i < |ls| ensures LeafFits(ls[i]) { assert i == 0 || i == 1 || i == 2 || i == 3; }
    }
  }

  lemma {:induction false} PlainFits(b: Body)
    requires !IsUndefined(b) && BodyTail(b).NoTail?
    ensures (forall i :: 0 <= i < |BodyLeaves(b)| ==> LeafFits(BodyLeaves(b)[i])) <==> Encodable(b)
  {
    SmallRunFitsIff(BodyLeaves(b));
    if DirectionOf(b) == Request { PlainRequestFits(b); } else { PlainResponseFits(b); }
  }

  lemma {:induction false} PlainRequestFits(b: Body)
    requires !IsUndefined(b) && BodyTail(b).NoTail? && DirectionOf(b) == Request
    ensures SmallRunFits(BodyLeaves(b)) <==> Encodable(b)
  {
  }

  lemma {:induction false} PlainResponseFits(b: Body)
    requires !IsUndefined(b) && BodyTail(b).NoTail? && DirectionOf(b) == Response
    ensures SmallRunFits(BodyLeaves(b)) <==> Encodable(b)
  {
  }

  /** The leaves in front of a tail are integers, so only the tail matters. */
  lemma {:induction false} TailedFits(b: Body)
    requires !BodyTail(b).NoTail?
    ensures forall i :: 0 <= i < |BodyLeaves(b)| ==> LeafFits(BodyLeaves(b)[i])
    ensures TailFits(BodyTail(b)) <==> Encodable(b)
  {
    if b.WalkRequest? {
      var items := NameLeaves(b.wname);
      assert forall i :: 0 <= i < |items| ==> (LeafFits(items[i]) <==> Fits(b.wname[i]));
    }
  }

  /** Encoding returns normally exactly on the encodable messages, and then writes exactly Size bytes. */
  lemma DomainAndSize(m: Message)
    ensures EmitMessage(m).ok <==> Encodable(m.body)
    ensures EmitMessage(m).ok ==> |EmitMessage(m).bytes| == Size(m.body)
  {
    if !IsUndefined(m.body) {
      FormSucceeds(MessageLeaves(m), BodyTail(m.body));
      LayoutFits(m);
      MessageRunSize(m);
      LayoutSize(m.body);
    }
  }

  // Round trips.

  lemma MessageHasKinds(m: Message)
    ensures HaveKinds(MessageLeaves(m), MessageKinds(ConceptOf(m.body), DirectionOf(m.body)))
  {
    LayoutHasKinds(m.body);
    hide BodyLeaves, BodyKinds, ConceptOf, DirectionOf;
  }

  /** Bytes that spell a message's leaves and tail decode, as that type, to the message. */
  lemma MessageOfForm(m: Message, u: bytes, rest: bytes)
    requires !IsUndefined(m.body)
    requires TakeForm(MessageKinds(ConceptOf(m.body), DirectionOf(m.body)),
                      TailKindOf(ConceptOf(m.body), DirectionOf(m.body)), u)
          == Got((MessageLeaves(m), BodyTail(m.body)), rest)
    ensures ConceptOf(m.body) != Undefined
    ensures TakeMessage(ConceptOf(m.body), DirectionOf(m.body), u) == Got(m, rest)
  {
    DefinedConcept(m.body);
    BuildOfLayout(m.body);
    hide BodyLeaves, BodyKinds, TailKindOf, BodyTail, Build, ConceptOf, DirectionOf, TakeForm;
    assert MessageLeaves(m)[2..] == BodyLeaves(m.body);
  }

  lemma DefinedConcept(b: Body)
    ensures ConceptOf(b) == Undefined <==> IsUndefined(b)
  {
  }

  /** And if the first byte is the type's code, the dispatcher finds it. */
  lemma DispatchOfForm(m: Message, u: bytes, rest: bytes)
    requires !IsUndefined(m.body) && Genuine(m) && u != [] && u[0] == m.op
    requires TakeForm(MessageKinds(ConceptOf(m.body), DirectionOf(m.body)),
                      TailKindOf(ConceptOf(m.body), DirectionOf(m.body)), u)
          == Got((MessageLeaves(m), BodyTail(m.body)), rest)
    ensures Dispatch(u) == Decoded(m, rest)
  {
    MessageOfForm(m, u, rest);
    hide TakeMessage, TakeForm, ConceptOf, DirectionOf, Convert, TranslateConcept, MessageLeaves, BodyTail;
    CodeNamesItsConcept(ConceptOf(m.body), DirectionOf(m.body));
  }

  /** Any object, encoded and decoded as its own type, comes back, and what follows it is left alone. */
  lemma TypedRoundTrip(m: Message, rest: bytes)
    requires EmitMessage(m).ok
    ensures TakeMessage(ConceptOf(m.body), DirectionOf(m.body), EmitMessage(m).bytes + rest) == Got(m, rest)
  {
    var c, dir := ConceptOf(m.body), DirectionOf(m.body);
    LayoutHasKinds(m.body);
    MessageHasKinds(m);
    hide ConceptOf, DirectionOf, MessageLeaves, MessageKinds, BodyTail, TailKindOf, TakeMessage, EmitForm, TakeForm;
    FormRoundTrip(MessageLeaves(m), BodyTail(m.body), MessageKinds(c, dir), TailKindOf(c, dir), rest);
    MessageOfForm(m, EmitMessage(m).bytes + rest, rest);
  }

  lemma FirstByteIsCode(m: Message)
    requires EmitMessage(m).ok
    ensures |EmitMessage(m).bytes| > 0 && EmitMessage(m).bytes[0] == m.op
  {
    var ls := MessageLeaves(m);
    assert ls[0] == U8(m.op);
    assert LE(1, m.op) == [m.op % 0x100] + LE(0, m.op / 0x100);
    assert EmitLeaves(ls, 0).bytes == EmitLeaf(ls[0]).bytes + EmitLeaves(ls, 1).bytes;
  }

  /** An encoder writes nothing at all and throws exactly for an undefined message. */
  lemma SilentIffUndefined(m: Message)
    ensures EmitMessage(m) == Emit([], false) <==> IsUndefined(m.body)
  {
    if !IsUndefined(m.body) { LeafFirst(MessageLeaves(m)); }
  }

  /** The round trip through the dispatcher, with suffix, for every message type. */
  lemma RoundTrip(m: Message, rest: bytes)
    requires EmitMessage(m).ok && Genuine(m)
    ensures Dispatch(EmitMessage(m).bytes + rest) == Decoded(m, rest)
  {
    hide TakeMessage, EmitForm, DirectionOf, Convert, TranslateConcept;
    FirstByteIsCode(m);
    CodeNamesItsConcept(ConceptOf(m.body), DirectionOf(m.body));
    TypedRoundTrip(m, rest);
  }

  /** Genuineness is needed exactly: any other object does not survive the dispatcher. */
  lemma RoundTripIffGenuine(m: Message, rest: bytes)
    requires EmitMessage(m).ok
    ensures Dispatch(EmitMessage(m).bytes + rest) == Decoded(m, rest) <==> Genuine(m)
  {
    if Genuine(m) {
      RoundTrip(m, rest);
    } else {
      FirstByteIsCode(m);
      var u := EmitMessage(m).bytes + rest;
      if Dispatch(u).Decoded? { DispatchedIsGenuine(u); }
    }
  }

  /** Whatever the dispatcher decodes carries its own type's code, and the type is the one the first byte names. */
  lemma DispatchedIsGenuine(u: bytes)
    requires Dispatch(u).Decoded?
    ensures Genuine(Dispatch(u).message) && Dispatch(u).message.op == u[0]
    ensures 100 <= u[0] <= 127
    ensures ConceptOf(Dispatch(u).message.body) == Convert(u[0])
    ensures DirectionOf(Dispatch(u).message.body) == ParityDirection(u[0])
  {
    var c, dir := Convert(u[0]), ParityDirection(u[0]);
    TypedDecode(c, dir, u);
    CodeIsConceptAndParity(u[0]);
  }

  /** A typed decode yields that type, and the code it yields is the first byte. */
  lemma TypedDecode(c: Concept, dir: Direction, u: bytes)
    requires c != Undefined && TakeMessage(c, dir, u).Got?
    ensures var m := TakeMessage(c, dir, u).value;
            && ConceptOf(m.body) == c && DirectionOf(m.body) == dir && u != [] && m.op == u[0]
            && TakeForm(MessageKinds(c, dir), TailKindOf(c, dir), u).value == (MessageLeaves(m), BodyTail(m.body))
  {
    hide BodyKinds, TailKindOf, BodyLeaves, BodyTail, Build, ConceptOf, DirectionOf, TakeTail;
    var ks := MessageKinds(c, dir);
    var f := TakeForm(ks, TailKindOf(c, dir), u);
    var ls, t := f.value.0, f.value.1;
    HeaderThenBody(ls, BodyKinds(c, dir));
    LayoutOfBuild(c, dir, ls[2..], t);
    var m := TakeMessage(c, dir, u).value;
    assert MessageLeaves(m) == ls;
    LeavesCanonical(ks, [], u);
    LeafFirst(ls);
  }

  lemma LeafFirst(ls: seq<Leaf>)
    requires |ls| > 0 && ls[0].U8?
    ensures |EmitLeaves(ls, 0).bytes| > 0 && EmitLeaves(ls, 0).bytes[0] == ls[0].b
  {
    assert LE(1, ls[0].b) == [ls[0].b % 0x100] + LE(0, ls[0].b / 0x100);
    assert EmitLeaves(ls, 0).bytes == EmitLeaf(ls[0]).bytes + EmitLeaves(ls, 1).bytes;
  }

  // Canonical form.

  /** As any type but the WStat request: what was decoded re-encodes to exactly the bytes consumed. */
  lemma TypedCanonical(c: Concept, dir: Direction, u: bytes)
    requires c != Undefined && TakeMessage(c, dir, u).Got? && !TakeMessage(c, dir, u).value.body.WStatRequest?
    ensures EmitMessage(TakeMessage(c, dir, u).value).ok
    ensures u == EmitMessage(TakeMessage(c, dir, u).value).bytes + TakeMessage(c, dir, u).rest
  {
    var m := TakeMessage(c, dir, u).value;
    TypedDecode(c, dir, u);
    TypedRest(c, dir, u);
    TailIsStat(c, dir);
    WStatIsItsConcept(m.body);
    hide TakeForm, EmitForm, BodyLeaves, BodyKinds, BodyTail, TakeMessage, MessageKinds, MessageLeaves, TailKindOf;
    FormCanonical(MessageKinds(c, dir), TailKindOf(c, dir), u);
  }

  lemma TypedRest(c: Concept, dir: Direction, u: bytes)
    requires c != Undefined && TakeMessage(c, dir, u).Got?
    ensures var f := TakeForm(MessageKinds(c, dir), TailKindOf(c, dir), u);
            f.Got? && f.rest == TakeMessage(c, dir, u).rest
  {
    hide TakeForm, MessageKinds, TailKindOf, Build;
  }

  lemma {:induction false} WStatIsItsConcept(b: Body)
    ensures ConceptOf(b) == WStat && DirectionOf(b) == Request <==> b.WStatRequest?
  {
  }

  lemma TailIsStat(c: Concept, dir: Direction)
    ensures TailKindOf(c, dir) == KStat <==> c == WStat && dir == Request
  {
  }

  /** Every accepted input other than a WStat request re-encodes to exactly the bytes consumed. */
  lemma Canonical(u: bytes)
    requires Dispatch(u).Decoded? && !Dispatch(u).message.body.WStatRequest?
    ensures EmitMessage(Dispatch(u).message).ok
    ensures u == EmitMessage(Dispatch(u).message).bytes + Dispatch(u).rest
  {
    hide TakeMessage, EmitMessage, Convert;
    TypedCanonical(Convert(u[0]), ParityDirection(u[0]), u);
  }

  function StatStrings(st: Stat): nat { |st.name| + |st.uid| + |st.gid| + |st.muid| }

  lemma WStatHead(m: Message)
    requires m.body.WStatRequest?
    ensures EmitLeaves(MessageLeaves(m), 0).ok && |EmitLeaves(MessageLeaves(m), 0).bytes| == 7
  {
    LeavesSucceed(MessageLeaves(m), 0);
    MessageRunSize(m);
    SmallRunSize(BodyLeaves(m.body));
  }

  lemma WStatEmit(m: Message)
    requires m.body.WStatRequest?
    ensures EmitMessage(m) == Emit(EmitLeaves(MessageLeaves(m), 0).bytes + EmitStat(m.body.stat).bytes,
                                   EmitStat(m.body.stat).ok)
  {
    WStatHead(m);
  }

  /** A WStat request is its leaves and then a stat. */
  lemma WStatParts(u: bytes)
    requires Dispatch(u).Decoded? && Dispatch(u).message.body.WStatRequest?
    ensures var d := Dispatch(u); var head := EmitLeaves(MessageLeaves(d.message), 0).bytes;
            head <= u && TakeStat(u[|head|..]) == Got(d.message.body.stat, d.rest)
  {
    hide TakeForm, EmitLeaves, TakeStat, MessageLeaves, MessageKinds, Build;
    var c, dir := Convert(u[0]), ParityDirection(u[0]);
    TypedDecode(c, dir, u);
    assert TailKindOf(c, dir) == KStat;
    StatAtEnd(MessageKinds(c, dir), u);
  }

  /** Seven bytes and then a stat: where the stat's length and its own leaves lie. */
  lemma StatAfterHead(u: bytes, head: bytes, st: Stat, rest: bytes)
    requires |head| == 7 && head <= u && TakeStat(u[7..]) == Got(st, rest)
    ensures var inner := EmitLeaves(StatLeaves(st), 0);
            && inner.ok && |inner.bytes| == 47 + StatStrings(st)
            && |u| >= 9 && u == head + (u[7..9] + inner.bytes) + rest
  {
    hide TakeStat, EmitLeaves, LE, LeavesSize;
    StatCanonical(u[7..]);
    LeavesSucceed(StatLeaves(st), 0);
    StatInnerSize(st);
    assert u[7..][..2] == [u[7], u[8]] == u[7..9];
    LEOfVal(u[7..9]);
    assert u == head + u[7..];
    Regroup(u, head, u[7..], u[7..9] + EmitLeaves(StatLeaves(st), 0).bytes, rest);
  }

  lemma TwoBytesDiffer(head: bytes, a: bytes, b: bytes, inner: bytes)
    requires |head| == 7 && |a| == |b| == 2
    ensures var x, y := head + (a + inner), head + (b + inner);
            && |x| == |y| && x[7..9] == a && y[7..9] == b && (x == y <==> a == b)
            && forall i :: 0 <= i < |x| && i != 7 && i != 8 ==> x[i] == y[i]
  {
  }

  /** How re-encoding compares with the bytes a stat was read from. */
  ghost predicate AgreesButForLength(consumed: bytes, again: Emit, sum: nat) {
    && |consumed| == 56 + sum
    && (again == Emit(consumed, true) <==> Val(consumed[7..9]) == 47 + sum)
    && (again.ok <==> sum <= 65488)
    && (again.ok ==>
          && |again.bytes| == |consumed|
          && forall i :: 0 <= i < |consumed| && i != 7 && i != 8 ==> again.bytes[i] == consumed[i])
  }

  lemma LengthIsTheOnlyFreedom(head: bytes, len: bytes, st: Stat)
    requires |head| == 7 && |len| == 2 && EmitLeaves(StatLeaves(st), 0).ok
    ensures AgreesButForLength(head + (len + EmitLeaves(StatLeaves(st), 0).bytes),
                               Emit(head + EmitStat(st).bytes, EmitStat(st).ok), StatStrings(st))
  {
    hide EmitLeaves, LE, LeavesSize, Val;
    var sum, inner := StatStrings(st), EmitLeaves(StatLeaves(st), 0).bytes;
    LeavesSucceed(StatLeaves(st), 0);
    StatInnerSize(st);
    StatIsAllOrNothing(st);
    TwoBytesDiffer(head, len, LE(2, 47 + sum), inner);
    assert U16Of(len) <= MAX_U16;
    LEOfVal(len);
    if sum <= 65488 { FixedWidths(0, 47 + sum, 0, 0); }
  }

  /**
    * A WStat request ignores the length in front of its stat.  It re-encodes to
    * the bytes consumed exactly when that length was the true one; otherwise
    * only those two bytes differ, or the strings are too long and encoding throws.
    */
  lemma WStatCanonical(u: bytes)
    requires Dispatch(u).Decoded? && Dispatch(u).message.body.WStatRequest?
    ensures |Dispatch(u).rest| <= |u|
    ensures AgreesButForLength(u[..|u| - |Dispatch(u).rest|], EmitMessage(Dispatch(u).message),
                               StatStrings(Dispatch(u).message.body.stat))
  {
    var m, rest := Dispatch(u).message, Dispatch(u).rest;
    var head := EmitLeaves(MessageLeaves(m), 0).bytes;
    WStatHead(m);
    WStatParts(u);
    WStatEmit(m);
    hide Dispatch, EmitMessage, EmitLeaves, TakeStat;
    StatAfterHead(u, head, m.body.stat, rest);
    assert u[..|u| - |rest|] == head + (u[7..9] + EmitLeaves(StatLeaves(m.body.stat), 0).bytes);
    LengthIsTheOnlyFreedom(head, u[7..9], m.body.stat);
  }

  predicate StringsFit(st: Stat) { Fits(st.name) && Fits(st.uid) && Fits(st.gid) && Fits(st.muid) }

  lemma StringsFitIff(st: Stat)
    ensures EmitLeaves(StatLeaves(st), 0).ok <==> StringsFit(st)
  {
    hide EmitLeaves, StatLeaves;
    StatLeavesFit(st);
  }

  /** A WStat request on the wire, claiming that its stat has len bytes. */
  function WStatClaiming(m: Message, len: u16): bytes
    requires m.body.WStatRequest?
  {
    EmitLeaves(MessageLeaves(m), 0).bytes + StatWithLength(len, m.body.stat)
  }

  /**
    * Every length in front of the stat is accepted, also when the four strings are too long together
    * for the request to be encoded.  Only the true length re-encodes to the bytes consumed.
    */
  lemma WStatAnyLength(m: Message, len: u16, rest: bytes)
    requires m.body.WStatRequest? && Genuine(m) && StringsFit(m.body.stat)
    ensures Dispatch(WStatClaiming(m, len) + rest) == Decoded(m, rest)
    ensures EmitMessage(m).ok <==> StatStrings(m.body.stat) <= 65488
    ensures EmitMessage(m) == Emit(WStatClaiming(m, len), true) <==> len == 47 + StatStrings(m.body.stat)
  {
    WStatDecodes(m, len, rest);
    WStatHead(m);
    WStatEmit(m);
    StringsFitIff(m.body.stat);
    hide *;
    var head := EmitLeaves(MessageLeaves(m), 0).bytes;
    StatClaiming(head, len, m.body.stat);
    assert WStatClaiming(m, len) == head + StatWithLength(len, m.body.stat) by { ClaimingParts(m, len); }
  }

  lemma ClaimingParts(m: Message, len: u16)
    requires m.body.WStatRequest?
    ensures WStatClaiming(m, len) == EmitLeaves(MessageLeaves(m), 0).bytes + StatWithLength(len, m.body.stat)
  {
  }

  lemma StatClaiming(head: bytes, len: u16, st: Stat)
    requires |head| == 7 && EmitLeaves(StatLeaves(st), 0).ok
    ensures var again := Emit(head + EmitStat(st).bytes, EmitStat(st).ok);
            && (again == Emit(head + StatWithLength(len, st), true) <==> len == 47 + StatStrings(st))
            && (again.ok <==> StatStrings(st) <= 65488)
  {
    hide EmitLeaves, StatLeaves, StatStrings, LE, Val, EmitStat;
    var u := head + (LE(2, len) + EmitLeaves(StatLeaves(st), 0).bytes);
    LengthIsTheOnlyFreedom(head, LE(2, len), st);
    assert u[7..9] == LE(2, len);
    FixedWidths(0, len, 0, 0);
  }

  lemma WStatDecodes(m: Message, len: u16, rest: bytes)
    requires m.body.WStatRequest? && Genuine(m) && StringsFit(m.body.stat)
    ensures Dispatch(WStatClaiming(m, len) + rest) == Decoded(m, rest)
  {
    var ls, u := MessageLeaves(m), WStatClaiming(m, len) + rest;
    WStatHead(m);
    LeafFirst(ls);
    StringsFitIff(m.body.stat);
    LayoutHasKinds(m.body);
    hide EmitLeaves, StatLeaves, TakeForm, Genuine, StatWithLength;
    MessageHasKinds(m);
    StatFormReads(ls, MessageKinds(WStat, Request), len, m.body.stat, rest);
    assert u[0] == m.op;
    DispatchOfForm(m, u, rest);
  }

  ghost predicate IsProduced(m: Message) {
    exists u :: Dispatch(u).Decoded? && Dispatch(u).message == m
  }

  /**
    * The messages that the dispatcher can produce: those that carry their own type's code and encode,
    * and the WStat requests whose strings fit one by one.
    */
  lemma ProducedIff(m: Message)
    ensures IsProduced(m)
       <==> Genuine(m) && (Encodable(m.body) || (m.body.WStatRequest? && StringsFit(m.body.stat)))
  {
    hide Dispatch, EmitMessage, Genuine, Encodable, StringsFit;
    DomainAndSize(m);
    if IsProduced(m) {
      var u :| Dispatch(u).Decoded? && Dispatch(u).message == m;
      DispatchedIsGenuine(u);
      if m.body.WStatRequest? { ProducedStringsFit(u); } else { Canonical(u); }
    }
    if Genuine(m) && Encodable(m.body) {
      RoundTrip(m, []);
    } else if Genuine(m) && m.body.WStatRequest? && StringsFit(m.body.stat) {
      WStatDecodes(m, 0, []);
    }
  }

  lemma {:induction false} ProducedStringsFit(u: bytes)
    requires Dispatch(u).Decoded? && Dispatch(u).message.body.WStatRequest?
    ensures StringsFit(Dispatch(u).message.body.stat)
  {
    hide *;
    var m := Dispatch(u).message;
    WStatHead(m);
    WStatParts(u);
    StatAfterHead(u, EmitLeaves(MessageLeaves(m), 0).bytes, m.body.stat, Dispatch(u).rest);
    StringsFitIff(m.body.stat);
  }

  // Unique decodability.

  function EncodeAll(ms: seq<Message>): bytes {
    if ms == [] then [] else EmitMessage(ms[0]).bytes + EncodeAll(ms[1..])
  }

  /** An object that its own type's code announces and that its encoder accepts. */
  predicate Sendable(m: Message) { Encodable(m.body) && Genuine(m) }

  lemma SendableEncodes(m: Message)
    requires Sendable(m)
    ensures EmitMessage(m).ok && |EmitMessage(m).bytes| == Size(m.body)
  {
    DomainAndSize(m);
  }

  lemma {:induction false} EncodeAllAppend(ms: seq<Message>, m: Message)
    ensures EncodeAll(ms + [m]) == EncodeAll(ms) + EmitMessage(m).bytes
  {
    hide EmitMessage;
    if ms == [] {
      assert ms + [m] == [m];
      assert EncodeAll([m]) == EmitMessage(m).bytes + EncodeAll([]);
    } else {
      assert (ms + [m])[1..] == ms[1..] + [m];
      EncodeAllAppend(ms[1..], m);
    }
  }

  /** What an encoder does, by what the message is. */
  lemma ThreeOutcomes(m: Message)
    ensures EmitMessage(m).ok <==> Encodable(m.body)
    ensures EmitMessage(m) == Emit([], false) <==> IsUndefined(m.body)
  {
    DomainAndSize(m);
    SilentIffUndefined(m);
  }

  /**
    * When two encodings agree as far as both go, the messages and what follows them are equal
    * exactly if the messages have the same type.
    */
  lemma UniqueFirst(m: Message, n: Message, x: bytes, y: bytes)
    requires EmitMessage(m).ok && EmitMessage(n).ok
    requires EmitMessage(m).bytes + x == EmitMessage(n).bytes + y
    ensures m == n && x == y <==> SameType(m.body, n.body)
  {
    hide TakeMessage, EmitMessage, ConceptOf, DirectionOf;
    TypedRoundTrip(m, x);
    TypedRoundTrip(n, y);
  }

  /** An encoding that begins another is that other exactly if the messages have the same type. */
  lemma PrefixFreeIffSameType(m: Message, n: Message)
    requires EmitMessage(m).ok && EmitMessage(n).ok && EmitMessage(m).bytes <= EmitMessage(n).bytes
    ensures m == n <==> SameType(m.body, n.body)
  {
    hide EmitMessage, ConceptOf, DirectionOf;
    var a, b := EmitMessage(m).bytes, EmitMessage(n).bytes;
    assert a + b[|a|..] == b + [];
    UniqueFirst(m, n, b[|a|..], []);
  }

  /**
    * Types do get confused when the stored code is another type's: any message's code and tag
    * in an error request make an object that encodes to a proper beginning of that message, or to
    * the same bytes if the message has nothing but a header.
    */
  lemma ForeignCodeBeginsOthers(m: Message)
    requires EmitMessage(m).ok && !m.body.ErrorRequest?
    ensures var forged := Message(m.op, m.tag, ErrorRequest);
            && EmitMessage(forged).ok && forged != m
            && EmitMessage(forged).bytes <= EmitMessage(m).bytes
            && (EmitMessage(forged).bytes == EmitMessage(m).bytes <==> Size(m.body) == 3)
  {
    var forged := Message(m.op, m.tag, ErrorRequest);
    DomainAndSize(forged);
    DomainAndSize(m);
    assert Size(ErrorRequest) == 3;
    hide Encodable, Size, BodyLeaves, BodyTail;
    assert BodyLeaves(ErrorRequest) == [] && BodyTail(ErrorRequest) == NoTail by { ErrorRequestLayout(); }
    var header, body := MessageLeaves(forged), BodyLeaves(m.body);
    assert header == [U8(m.op), U16(m.tag)] && MessageLeaves(m) == header + body;
    LeavesSucceed(header, 0);
    EmitConcat(header, body);
    assert EmitMessage(forged).bytes == EmitLeaves(header, 0).bytes;
  }

  lemma ErrorRequestLayout()
    ensures BodyLeaves(ErrorRequest) == [] && BodyTail(ErrorRequest) == NoTail
  {
  }

  /** Messages that carry their own types' codes have the same type if they have the same code. */
  lemma GenuineCodeIsType(m: Message, n: Message)
    requires Genuine(m) && Genuine(n)
    ensures m.op == n.op <==> SameType(m.body, n.body)
  {
    hide ConceptOf, DirectionOf, TranslateConcept, Convert;
    CodeNamesItsConcept(ConceptOf(m.body), DirectionOf(m.body));
    CodeNamesItsConcept(ConceptOf(n.body), DirectionOf(n.body));
  }

  /** So among those no encoding begins another. */
  lemma PrefixFree(m: Message, n: Message)
    requires Sendable(m) && Sendable(n)
    ensures EmitMessage(m).bytes <= EmitMessage(n).bytes ==> m == n
  {
    SendableEncodes(m);
    SendableEncodes(n);
    FirstByteIsCode(m);
    FirstByteIsCode(n);
    hide EmitMessage, Encodable, Genuine, Size;
    if EmitMessage(m).bytes <= EmitMessage(n).bytes {
      GenuineCodeIsType(m, n);
      PrefixFreeIffSameType(m, n);
    }
  }

  ghost predicate SameTypes(ms: seq<Message>, ns: seq<Message>) {
    |ms| == |ns| && forall i :: 0 <= i < |ms| ==> SameType(ms[i].body, ns[i].body)
  }

  /** Two lists whose back-to-back encodings agree are equal exactly if their types agree one by one. */
  lemma {:induction false} UniquelyDecodable(ms: seq<Message>, ns: seq<Message>)
    requires forall i :: 0 <= i < |ms| ==> EmitMessage(ms[i]).ok
    requires forall i :: 0 <= i < |ns| ==> EmitMessage(ns[i]).ok
    requires EncodeAll(ms) == EncodeAll(ns)
    ensures ms == ns <==> SameTypes(ms, ns)
  {
    hide EmitMessage, ConceptOf, DirectionOf;
    if ms != [] && SameTypes(ms, ns) {
      assert SameType(ms[0].body, ns[0].body);
      UniqueFirst(ms[0], ns[0], EncodeAll(ms[1..]), EncodeAll(ns[1..]));
      assert SameTypes(ms[1..], ns[1..]);
      UniquelyDecodable(ms[1..], ns[1..]);
    }
  }

  /** Lists of messages that carry their own types' codes are determined by their back-to-back encodings. */
  lemma {:induction false} GenuineListsAreUnique(ms: seq<Message>, ns: seq<Message>)
    requires forall i :: 0 <= i < |ms| ==> Sendable(ms[i])
    requires forall i :: 0 <= i < |ns| ==> Sendable(ns[i])
    requires EncodeAll(ms) == EncodeAll(ns)
    ensures ms == ns
  {
    hide EmitMessage, Encodable, Genuine, Size, SameType;
    if ms != [] { SendableEncodes(ms[0]); FirstByteIsCode(ms[0]); assert EncodeAll(ms)[0] == ms[0].op; }
    if ns != [] { SendableEncodes(ns[0]); FirstByteIsCode(ns[0]); assert EncodeAll(ns)[0] == ns[0].op; }
    if ms != [] && ns != [] {
      GenuineCodeIsType(ms[0], ns[0]);
      UniqueFirst(ms[0], ns[0], EncodeAll(ms[1..]), EncodeAll(ns[1..]));
      GenuineListsAreUnique(ms[1..], ns[1..]);
    }
  }

  // Frame fit.

  /** The largest payload whose frame length, itself included, fits 32 bits. */
  const MAX_PAYLOAD := MAX_U32 - 4

  /** Only three message types can outgrow a frame; every other one stays far below it. */
  lemma FrameFit(m: Message)
    requires EmitMessage(m).ok
    ensures var n := |EmitMessage(m).bytes|;
            match m.body
            case WalkRequest(_, _, wname) => n <= MAX_PAYLOAD <==> 13 + NamesSize(wname) <= MAX_PAYLOAD
            case ReadResponse(data) => n <= MAX_PAYLOAD <==> |data| <= 0x1_0000_0000 - 12
            case WriteRequest(_, _, data) => n <= MAX_PAYLOAD <==> |data| <= 0x1_0000_0000 - 24
            case _ => n <= 851960
  {
    DomainAndSize(m);
  }

  lemma {:induction false} NamesSizeBound(names: seq<bytes>, most: nat)
    requires forall i :: 0 <= i < |names| ==> |names[i]| <= most
    ensures NamesSize(names) <= |names| * (2 + most)
    ensures (forall i :: 0 <= i < |names| ==> |names[i]| == most) ==> NamesSize(names) == |names| * (2 + most)
  {
    if names != [] {
      NamesSizeBound(names[1..], most);
      assert |names| * (2 + most) == (2 + most) + |names[1..]| * (2 + most);
    }
  }

  function LargestWalk(): (b: Body)
    ensures b.WalkRequest?
  {
    WalkRequest(0, 0, seq(MAX_U16, _ => seq(MAX_U16, _ => 0)))
  }

  /** Walk requests can really outgrow the frame: the largest encodable one has 2^32 + 12 bytes. */
  lemma {:induction false} LargestWalkOverflows(m: Message)
    requires m.body.WalkRequest? && EmitMessage(m).ok
    ensures |EmitMessage(m).bytes| <= Size(LargestWalk()) == 0x1_0000_0000 + 12
    ensures Encodable(LargestWalk())
  {
    hide EmitMessage, Encodable, Size, NamesSize, LargestWalk;
    DomainAndSize(m);
    WalkDomain(m.body);
    WalkDomain(LargestWalk());
    LargestNames();
    NamesSizeBound(m.body.wname, MAX_U16);
    NamesSizeBound(LargestWalk().wname, MAX_U16);
  }

  lemma WalkDomain(b: Body)
    requires b.WalkRequest?
    ensures Encodable(b) <==> |b.wname| <= MAX_U16 && forall i :: 0 <= i < |b.wname| ==> Fits(b.wname[i])
    ensures Size(b) == 13 + NamesSize(b.wname)
  {
  }

  lemma LargestNames()
    ensures var names := LargestWalk().wname;
            |names| == MAX_U16 && forall i :: 0 <= i < |names| ==> |names[i]| == MAX_U16
  {
  }

  // Failures.

  /**
    * A walk that throws at name i has written its header, its fids, the count and
    * the names before i, and nothing of name i.
    */
  lemma {:induction false} WalkFailure(m: Message, i: nat)
    requires m.body.WalkRequest? && |m.body.wname| <= MAX_U16 && i < |m.body.wname|
    requires !Fits(m.body.wname[i]) && forall j :: 0 <= j < i ==> Fits(m.body.wname[j])
    ensures !EmitMessage(m).ok
    ensures EmitMessage(m).bytes
         == EmitLeaves([U8(m.op), U16(m.tag), U32(m.body.fid), U32(m.body.newfid), U16(|m.body.wname|)]
                       + NameLeaves(m.body.wname[..i]), 0).bytes
  {
    hide EmitLeaves, EmitLeaf, MessageLeaves, BodyTail, NameLeaves, LE;
    WalkLayout(m);
    WalkItems(m.body.wname, i);
    var ls, count, items := MessageLeaves(m), [U16(|m.body.wname|)], NameLeaves(m.body.wname);
    FirstUnfit(items, 0, i);
    LeavesSucceed(ls, 0);
    LeavesSucceed(count, 0);
    CountBytes(|m.body.wname|);
    EmitConcat(ls, count);
    EmitConcat(ls + count, items[..i]);
    assert ls + count == [U8(m.op), U16(m.tag), U32(m.body.fid), U32(m.body.newfid), U16(|m.body.wname|)];
    var head, c, part := EmitLeaves(ls, 0).bytes, LE(2, |m.body.wname|), EmitLeaves(items[..i], 0).bytes;
    assert head + (c + part) == head + c + part;
  }

  lemma WalkItems(names: seq<bytes>, i: nat)
    requires i < |names|
    ensures NameLeaves(names)[..i] == NameLeaves(names[..i])
    ensures forall j :: 0 <= j < |names| ==> (LeafFits(NameLeaves(names)[j]) <==> Fits(names[j]))
  {
  }

  lemma CountBytes(n: u16)
    ensures EmitLeaves([U16(n)], 0).bytes == LE(2, n)
  {
    assert EmitLeaves([U16(n)], 1) == Emit([], true);
  }

  lemma WalkLayout(m: Message)
    requires m.body.WalkRequest?
    ensures MessageLeaves(m) == [U8(m.op), U16(m.tag), U32(m.body.fid), U32(m.body.newfid)]
    ensures BodyTail(m.body) == List(KStr, NameLeaves(m.body.wname)) && !IsUndefined(m.body)
  {
  }

  lemma {:induction false} EmitShift(pre: seq<Leaf>, ls: seq<Leaf>, k: nat)
    requires k <= |ls|
    ensures EmitLeaves(pre + ls, |pre| + k) == EmitLeaves(ls, k)
    decreases |ls| - k
  {
    if k < |ls| { EmitShift(pre, ls, k + 1); }
  }

  lemma EmitConcat(a: seq<Leaf>, b: seq<Leaf>)
    requires EmitLeaves(a, 0).ok
    ensures EmitLeaves(a + b, 0) == Emit(EmitLeaves(a, 0).bytes + EmitLeaves(b, 0).bytes, EmitLeaves(b, 0).ok)
  {
    EmitConcatFrom(a, b, 0);
  }

  lemma {:induction false} EmitConcatFrom(a: seq<Leaf>, b: seq<Leaf>, k: nat)
    requires k <= |a| && EmitLeaves(a, k).ok
    ensures EmitLeaves(a + b, k) == Emit(EmitLeaves(a, k).bytes + EmitLeaves(b, 0).bytes, EmitLeaves(b, 0).ok)
    decreases |a| - k
  {
    hide EmitLeaf;
    if k == |a| {
      EmitShift(a, b, 0);
      assert [] + EmitLeaves(b, 0).bytes == EmitLeaves(b, 0).bytes;
    } else {
      assert (a + b)[k] == a[k];
      EmitConcatFrom(a, b, k + 1);
      var one, more, last := EmitLeaf(a[k]).bytes, EmitLeaves(a, k + 1).bytes, EmitLeaves(b, 0).bytes;
      assert EmitLeaves(a, k).bytes == one + more && EmitLeaves(a + b, k).bytes == one + (more + last);
      assert one + (more + last) == one + more + last;
    }
  }

  // Decoding into an object that already holds something.

  function ByteLeaves(data: bytes): seq<Leaf> {
    seq(|data|, i requires 0 <= i < |data| => U8(data[i]))
  }

  lemma LeavesOfConcat(a: seq<bytes>, b: seq<bytes>, p: seq<Qid>, q: seq<Qid>, x: bytes, y: bytes)
    ensures NameLeaves(a + b) == NameLeaves(a) + NameLeaves(b)
    ensures QidLeaves(p + q) == QidLeaves(p) + QidLeaves(q)
    ensures ByteLeaves(x + y) == ByteLeaves(x) + ByteLeaves(y)
  {
  }

  /** The part of a body that decoding extends rather than replaces. */
  function Growing(b: Body): seq<Leaf> {
    match b
    case WalkRequest(_, _, wname) => NameLeaves(wname)
    case WalkResponse(wqid) => QidLeaves(wqid)
    case ReadResponse(data) => ByteLeaves(data)
    case WriteRequest(_, _, data) => ByteLeaves(data)
    case _ => []
  }

  function GrowthOf(ms: seq<Message>): seq<Leaf> {
    if ms == [] then [] else Growing(ms[0].body) + GrowthOf(ms[1..])
  }

  /** Decoding n messages, one after another, into the same object. */
  function TakeIntoTimes(held: Message, n: nat, u: bytes): Parsed<Message>
    requires !IsUndefined(held.body)
    decreases n
  {
    if n == 0 then Got(held, u)
    else
      match TakeInto(held, u)
      case Short => Short
      case Got(m, rest) => TakeIntoTimes(m, n - 1, rest)
  }

  predicate SameType(a: Body, b: Body) {
    ConceptOf(a) == ConceptOf(b) && DirectionOf(a) == DirectionOf(b)
  }

  predicate IsGrowing(b: Body) {
    b.WalkRequest? || b.WalkResponse? || b.ReadResponse? || b.WriteRequest?
  }

  lemma {:induction false} SameTypeSameShape(a: Body, b: Body)
    requires SameType(a, b) && (IsGrowing(a) || IsGrowing(b))
    ensures a.WalkRequest? <==> b.WalkRequest?
    ensures a.WalkResponse? <==> b.WalkResponse?
    ensures a.ReadResponse? <==> b.ReadResponse?
    ensures a.WriteRequest? <==> b.WriteRequest?
  {
  }

  lemma {:induction false} MergeGrows(held: Body, read: Body)
    requires SameType(held, read)
    ensures SameType(held, Merge(held, read)) && (IsUndefined(held) <==> IsUndefined(Merge(held, read)))
    ensures Growing(Merge(held, read)) == Growing(held) + Growing(read)
    ensures BodyLeaves(Merge(held, read)) == BodyLeaves(read)
  {
    DefinedConcept(held);
    DefinedConcept(Merge(held, read));
    MergeKeepsType(held, read);
    MergeKeepsLeaves(held, read);
    hide Merge, Growing, BodyLeaves, ConceptOf, DirectionOf, IsUndefined, IsGrowing;
    if IsGrowing(held) || IsGrowing(read) {
      GrowingMerge(held, read);
    } else {
      PlainMerge(held, read);
      assert [] + Growing(read) == Growing(read);
    }
  }

  lemma {:induction false} MergeKeepsType(held: Body, read: Body)
    ensures SameType(read, Merge(held, read))
  {
  }

  lemma {:induction false} MergeKeepsLeaves(held: Body, read: Body)
    ensures BodyLeaves(Merge(held, read)) == BodyLeaves(read)
  {
  }

  lemma {:induction false} PlainMerge(held: Body, read: Body)
    requires SameType(held, read) && !IsGrowing(held) && !IsGrowing(read)
    ensures Merge(held, read) == read && Growing(held) == []
  {
    hide ConceptOf, DirectionOf;
  }

  lemma {:induction false} GrowingMerge(held: Body, read: Body)
    requires SameType(held, read) && (IsGrowing(held) || IsGrowing(read))
    ensures Growing(Merge(held, read)) == Growing(held) + Growing(read)
  {
    hide SameType, NameLeaves, QidLeaves, ByteLeaves;
    SameTypeSameShape(held, read);
    if held.WalkRequest? {
      LeavesOfConcat(held.wname, read.wname, [], [], [], []);
    } else if held.WalkResponse? {
      LeavesOfConcat([], [], held.wqid, read.wqid, [], []);
    } else {
      LeavesOfConcat([], [], [], [], held.data, read.data);
    }
  }

  function MergeAll(held: Message, ms: seq<Message>): Message
    decreases |ms|
  {
    if ms == [] then held
    else MergeAll(ms[0].(body := Merge(held.body, ms[0].body)), ms[1..])
  }

  lemma {:induction false} RepeatedDecodeMerges(held: Message, ms: seq<Message>, rest: bytes)
    requires !IsUndefined(held.body)
    requires forall i :: 0 <= i < |ms| ==> EmitMessage(ms[i]).ok && SameType(held.body, ms[i].body)
    ensures TakeIntoTimes(held, |ms|, EncodeAll(ms) + rest) == Got(MergeAll(held, ms), rest)
    decreases |ms|
  {
    hide TakeMessage, EmitMessage, ConceptOf, DirectionOf, Merge;
    if ms == [] {
      assert EncodeAll(ms) + rest == rest;
    } else {
      var u := EncodeAll(ms[1..]) + rest;
      assert EncodeAll(ms) + rest == EmitMessage(ms[0]).bytes + u;
      TypedRoundTrip(ms[0], u);
      MergeGrows(held.body, ms[0].body);
      RepeatedDecodeMerges(ms[0].(body := Merge(held.body, ms[0].body)), ms[1..], rest);
    }
  }

  lemma {:induction false} MergeAllGrows(held: Message, ms: seq<Message>)
    requires forall i :: 0 <= i < |ms| ==> SameType(held.body, ms[i].body)
    ensures Growing(MergeAll(held, ms).body) == Growing(held.body) + GrowthOf(ms)
    decreases |ms|
  {
    hide Growing, ConceptOf, DirectionOf, Merge;
    if ms != [] {
      MergeGrows(held.body, ms[0].body);
      MergeAllGrows(ms[0].(body := Merge(held.body, ms[0].body)), ms[1..]);
    }
  }

  lemma {:induction false} MergeAllKeepsLast(held: Message, ms: seq<Message>)
    requires ms != []
    requires forall i :: 0 <= i < |ms| ==> SameType(held.body, ms[i].body)
    ensures MessageLeaves(MergeAll(held, ms)) == MessageLeaves(ms[|ms| - 1])
    decreases |ms|
  {
    hide Merge, BodyLeaves, ConceptOf, DirectionOf;
    MergeGrows(held.body, ms[0].body);
    if |ms| > 1 { MergeAllKeepsLast(ms[0].(body := Merge(held.body, ms[0].body)), ms[1..]); }
  }

  /** A message of a type with nothing that grows is replaced as a whole. */
  lemma {:induction false} MergeAllReplaces(held: Message, ms: seq<Message>)
    requires ms != [] && forall i :: 0 <= i < |ms| ==> SameType(held.body, ms[i].body)
    ensures SameType(MergeAll(held, ms).body, held.body)
    ensures !IsGrowing(held.body) ==> MergeAll(held, ms) == ms[|ms| - 1]
    decreases |ms|
  {
    hide Merge, ConceptOf, DirectionOf, IsGrowing;
    var next := ms[0].(body := Merge(held.body, ms[0].body));
    MergeKeepsType(held.body, ms[0].body);
    if !IsGrowing(held.body) {
      NeitherGrows(held.body, ms[0].body);
      PlainMerge(held.body, ms[0].body);
    }
    if |ms| > 1 { MergeAllReplaces(next, ms[1..]); }
  }

  lemma {:induction false} NeitherGrows(a: Body, b: Body)
    requires SameType(a, b) && !IsGrowing(a)
    ensures !IsGrowing(b)
  {
    if IsGrowing(b) { SameTypeSameShape(a, b); }
  }

  /**
    * Repeated decoding into one object: lists and data accumulate what every
    * message carried, in order, while every other field is the last message's.
    */
  lemma RepeatedDecodeAccumulates(held: Message, ms: seq<Message>, rest: bytes)
    requires !IsUndefined(held.body) && ms != []
    requires forall i :: 0 <= i < |ms| ==> EmitMessage(ms[i]).ok && SameType(held.body, ms[i].body)
    ensures var r := TakeIntoTimes(held, |ms|, EncodeAll(ms) + rest);
            && r.Got? && r.rest == rest
            && Growing(r.value.body) == Growing(held.body) + GrowthOf(ms)
            && MessageLeaves(r.value) == MessageLeaves(ms[|ms| - 1])
            && SameType(r.value.body, held.body)
            && (!IsGrowing(held.body) ==> r.value == ms[|ms| - 1])
  {
    MergeAllReplaces(held, ms);
    RepeatedDecodeMerges(held, ms, rest);
    MergeAllGrows(held, ms);
    MergeAllKeepsLast(held, ms);
  }

  /** Into a default-constructed object, decoding is plain decoding. */
  lemma FreshHoldsNothing(c: Concept, dir: Direction, u: bytes)
    requires c != Undefined
    ensures !IsUndefined(Fresh(c, dir).body)
    ensures TakeInto(Fresh(c, dir), u) == TakeMessage(c, dir, u)
  {
    DefinedConcept(Fresh(c, dir).body);
    hide TakeMessage, ConceptOf, DirectionOf, IsUndefined, Merge, FreshBody;
    if TakeMessage(c, dir, u).Got? { MergeIntoFresh(c, dir, TakeMessage(c, dir, u).value.body); }
  }

  lemma {:induction false} MergeIntoFresh(c: Concept, dir: Direction, read: Body)
    ensures Merge(FreshBody(c, dir), read) == read
  {
    FreshIsEmpty(c, dir);
    hide FreshBody;
    var held := FreshBody(c, dir);
    if held.WalkRequest? && read.WalkRequest? { assert held.wname + read.wname == read.wname; }
    if held.WalkResponse? && read.WalkResponse? { assert held.wqid + read.wqid == read.wqid; }
    if held.ReadResponse? && read.ReadResponse? { assert held.data + read.data == read.data; }
    if held.WriteRequest? && read.WriteRequest? { assert held.data + read.data == read.data; }
  }

  lemma {:induction false} FreshIsEmpty(c: Concept, dir: Direction)
    ensures var b := FreshBody(c, dir);
            && (b.WalkRequest? ==> b.wname == []) && (b.WalkResponse? ==> b.wqid == [])
            && (b.ReadResponse? ==> b.data == []) && (b.WriteRequest? ==> b.data == [])
  {
  }
}
