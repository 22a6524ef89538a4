/**
  * The wire format written out byte by byte: what each message type puts on a stream, digit for
  * digit and character for character, and which input stands for which message.  Nothing here
  * refers to the encoders and decoders except the lemmas, which say that they agree with it.
  */
module WireFormat {
  import opened LittleEndian
  import opened Operations
  import opened Wire
  import opened WireLaws
  import opened Messages
  import opened MessageLaws

  // Integers, least significant byte first.

  function Two(v: nat): bytes { [v % 0x100, v / 0x100 % 0x100] }

  function Four(v: nat): bytes {
    [v % 0x100, v / 0x100 % 0x100, v / 0x1_0000 % 0x100, v / 0x100_0000 % 0x100]
  }

  function Eight(v: nat): bytes { Four(v) + Four(v / 0x1_0000_0000) }

  function Num16(u: bytes): nat
    requires |u| >= 2
  {
    var a: nat, b: nat := u[0], u[1];
    a + 0x100 * b
  }

  function Num32(u: bytes): nat
    requires |u| >= 4
  {
    Num16(u) + 0x1_0000 * Num16(u[2..])
  }

  function Num64(u: bytes): nat
    requires |u| >= 8
  {
    Num32(u) + 0x1_0000_0000 * Num32(u[4..])
  }

  function QidOnWire(q: Qid): bytes { [q.kind] + Four(q.version) + Eight(q.path) }

  lemma DigitsOfTwo(v: nat)
    ensures LE(2, v) == Two(v)
  {
    assert LE(2, v) == [v % 0x100] + LE(1, v / 0x100);
    assert LE(1, v / 0x100) == [v / 0x100 % 0x100] + LE(0, v / 0x100 / 0x100);
  }

  lemma DigitsOfFour(v: nat)
    ensures LE(4, v) == Four(v)
  {
    hide LE;
    TakeDigits(2, 2, v);
    DigitsOfTwo(v);
    DigitsOfTwo(v / 0x1_0000);
    assert v / 0x1_0000 / 0x100 == v / 0x100_0000;
    assert Two(v) + Two(v / 0x1_0000) == Four(v);
  }

  lemma DigitsOfEight(v: nat)
    ensures LE(8, v) == Eight(v)
  {
    hide LE, Four;
    TakeDigits(4, 4, v);
    DigitsOfFour(v);
    DigitsOfFour(v / 0x1_0000_0000);
  }

  lemma TakeDigits(a: nat, b: nat, v: nat)
    requires a == 2 || a == 4
    ensures LE(a + b, v) == LE(a, v) + LE(b, v / if a == 2 then 0x1_0000 else 0x1_0000_0000)
  {
    hide *;
    LESplit(a, b, v);
    Bits.ShrIsDiv(v, 8 * a);
    Powers();
  }

  // Messages, as the pieces that their encoders write in turn.

  /** A piece that is refused throws with nothing written; so does a text whose length needs more than 16 bits. */
  datatype Piece = Plain(bs: bytes) | Text(s: bytes) | Refused

  function Written(ps: seq<Piece>): Emit {
    if ps == [] then Emit([], true)
    else
      var more := Written(ps[1..]);
      match ps[0]
      case Plain(bs) => Emit(bs + more.bytes, more.ok)
      case Text(s) => if |s| <= 65535 then Emit(Two(|s|) + s + more.bytes, more.ok) else Emit([], false)
      case Refused => Emit([], false)
  }

  function Texts(ss: seq<bytes>): seq<Piece> { seq(|ss|, i requires 0 <= i < |ss| => Text(ss[i])) }

  function Qids(qs: seq<Qid>): seq<Piece> { seq(|qs|, i requires 0 <= i < |qs| => Plain(QidOnWire(qs[i]))) }

  function StatPieces(st: Stat): seq<Piece> {
    [Plain(Two(st.kind)), Plain(Four(st.dev)), Plain(QidOnWire(st.qid)), Plain(Four(st.mode)),
     Plain(Four(st.atime)), Plain(Four(st.mtime)), Plain(Eight(st.length)),
     Text(st.name), Text(st.uid), Text(st.gid), Text(st.muid)]
  }

  function Names(ss: seq<bytes>): seq<Piece> {
    if |ss| <= 65535 then [Plain(Two(|ss|))] + Texts(ss) else [Refused]
  }

  function QidList(qs: seq<Qid>): seq<Piece> {
    if |qs| <= 65535 then [Plain(Two(|qs|))] + Qids(qs) else [Refused]
  }

  function Data(data: bytes): seq<Piece> {
    if |data| <= 0xFFFF_FFFF then [Plain(Four(|data|) + data)] else [Refused]
  }

  function StatRecord(st: Stat): seq<Piece> {
    if StatStrings(st) <= 65488 then [Plain(Two(47 + StatStrings(st)) + Written(StatPieces(st)).bytes)] else [Refused]
  }

  /** What a message of each type is on the wire, behind its code and its tag. */
  function BodyFormat(b: Body): seq<Piece> {
    match b
    case UndefinedRequest => [Refused]
    case UndefinedResponse => [Refused]
    case VersionRequest(msize, version) => [Plain(Two(msize)), Text(version)]
    case VersionResponse(msize, version) => [Plain(Two(msize)), Text(version)]
    case AuthRequest(afid, uname, aname) => [Plain(Four(afid)), Text(uname), Text(aname)]
    case AuthResponse(qid) => [Plain(QidOnWire(qid))]
    case AttachRequest(fid, afid, uname, aname) => [Plain(Four(fid)), Plain(Four(afid)), Text(uname), Text(aname)]
    case AttachResponse(qid) => [Plain(QidOnWire(qid))]
    case ErrorRequest => []
    case ErrorResponse(ename) => [Text(ename)]
    case FlushRequest(oldtag) => [Plain(Two(oldtag))]
    case FlushResponse => []
    case WalkRequest(fid, newfid, wname) => [Plain(Four(fid)), Plain(Four(newfid))] + Names(wname)
    case WalkResponse(wqid) => QidList(wqid)
    case OpenRequest(fid, mode) => [Plain(Four(fid)), Plain([mode])]
    case OpenResponse(qid, iounit) => [Plain(QidOnWire(qid)), Plain(Four(iounit))]
    case CreateRequest(fid, name, perm, mode) => [Plain(Four(fid)), Text(name), Plain(Four(perm)), Plain([mode])]
    case CreateResponse(qid, iounit) => [Plain(QidOnWire(qid)), Plain(Four(iounit))]
    case ReadRequest(fid, offset, count) => [Plain(Four(fid)), Plain(Eight(offset)), Plain(Four(count))]
    case ReadResponse(data) => Data(data)
    case WriteRequest(fid, offset, data) => [Plain(Four(fid)), Plain(Eight(offset))] + Data(data)
    case WriteResponse(count) => [Plain(Four(count))]
    case ClunkRequest(fid) => [Plain(Four(fid))]
    case ClunkResponse => []
    case RemoveRequest(fid) => [Plain(Four(fid))]
    case RemoveResponse => []
    case StatRequest(fid) => [Plain(Four(fid))]
    case StatResponse(text) => [Text(text)]
    case WStatRequest(fid, stat) => [Plain(Four(fid))] + StatRecord(stat)
    case WStatResponse => []
  }

  /** A message on the wire; an undefined one is refused before its header. */
  function Format(m: Message): seq<Piece> {
    if IsUndefined(m.body) then [Refused]
    else [Plain([m.op]), Plain(Two(m.tag))] + BodyFormat(m.body)
  }

  /** The code of each type. */
  function CodeOf(b: Body): u8 {
    match b
    case UndefinedRequest => 254
    case UndefinedResponse => 255
    case VersionRequest(_, _) => 100
    case VersionResponse(_, _) => 101
    case AuthRequest(_, _, _) => 102
    case AuthResponse(_) => 103
    case AttachRequest(_, _, _, _) => 104
    case AttachResponse(_) => 105
    case ErrorRequest => 106
    case ErrorResponse(_) => 107
    case FlushRequest(_) => 108
    case FlushResponse => 109
    case WalkRequest(_, _, _) => 110
    case WalkResponse(_) => 111
    case OpenRequest(_, _) => 112
    case OpenResponse(_, _) => 113
    case CreateRequest(_, _, _, _) => 114
    case CreateResponse(_, _) => 115
    case ReadRequest(_, _, _) => 116
    case ReadResponse(_) => 117
    case WriteRequest(_, _, _) => 118
    case WriteResponse(_) => 119
    case ClunkRequest(_) => 120
    case ClunkResponse => 121
    case RemoveRequest(_) => 122
    case RemoveResponse => 123
    case StatRequest(_) => 124
    case StatResponse(_) => 125
    case WStatRequest(_, _) => 126
    case WStatResponse => 127
  }

  // Leaves.

  function PieceOf(l: Leaf): Piece {
    match l
    case U8(b) => Plain([b])
    case U16(w) => Plain(Two(w))
    case U32(d) => Plain(Four(d))
    case U64(q) => Plain(Eight(q))
    case Str(s) => Text(s)
    case Id(q) => Plain(QidOnWire(q))
  }

  /** What the writer of a single integer, string or qid puts out. */
  lemma LeafOnWire(l: Leaf)
    ensures EmitLeaf(l)
         == match l
            case U8(b) => Emit([b], true)
            case U16(w) => Emit(Two(w), true)
            case U32(d) => Emit(Four(d), true)
            case U64(q) => Emit(Eight(q), true)
            case Str(s) => if |s| <= 65535 then Emit(Two(|s|) + s, true) else Emit([], false)
            case Id(q) => Emit(QidOnWire(q), true)
  {
    hide LE, Two, Four, Eight;
    match l
    case U8(b) => ByteIsItself(b);
    case U16(w) => DigitsOfTwo(w);
    case U32(d) => DigitsOfFour(d);
    case U64(q) => DigitsOfEight(q);
    case Str(s) => DigitsOfTwo(|s|);
    case Id(q) => ByteIsItself(q.kind); DigitsOfFour(q.version); DigitsOfEight(q.path);
  }

  /** A string on the wire: its length in two bytes, then its characters in order. */
  lemma StringOnWire(s: bytes)
    ensures EmitLeaf(Str(s)).ok <==> |s| <= 65535
    ensures EmitLeaf(Str(s)).ok ==>
              var out := EmitLeaf(Str(s)).bytes;
              && |out| == 2 + |s| && Num16(out) == |s|
              && forall i :: 0 <= i < |s| ==> out[2 + i] == s[i]
    ensures !EmitLeaf(Str(s)).ok ==> EmitLeaf(Str(s)).bytes == []
  {
    LeafOnWire(Str(s));
    hide EmitLeaf;
  }

  lemma ValOfDigits(u: bytes)
    ensures |u| >= 1 ==> Val(u[..1]) == u[0]
    ensures |u| >= 2 ==> Val(u[..2]) == Num16(u)
    ensures |u| >= 4 ==> Val(u[..4]) == Num32(u)
    ensures |u| >= 8 ==> Val(u[..8]) == Num64(u)
  {
    hide Val;
    if |u| >= 1 { assert u[..1] == [u[0]]; ValOfOne(u[0]); }
    if |u| >= 2 { assert u[..2] == [u[0], u[1]]; ValOfTwo(u[0], u[1]); }
    if |u| >= 4 { ValOfFourBytes(u); }
    if |u| >= 8 {
      Build64OfHalves(u[..4], u[4..8]);
      assert u[..4] + u[4..8] == u[..8] && u[4..][..4] == u[4..8];
      ValOfFourBytes(u[4..]);
    }
  }

  lemma ValOfOne(b: u8)
    ensures Val([b]) == b
  {
    assert [b][1..] == [];
  }

  lemma ValOfFourBytes(u: bytes)
    requires |u| >= 4
    ensures Val(u[..4]) == Num32(u)
  {
    hide Val;
    assert u[..4] == [u[0], u[1], u[2], u[3]];
    ValOfFour(u[0], u[1], u[2], u[3]);
    ValOfTwo(u[0], u[1]);
    ValOfTwo(u[2], u[3]);
  }

  /** What the reader of a single integer, string or qid makes of any input. */
  lemma LeafFromWire(k: Kind, u: bytes)
    ensures var d := TakeLeaf(k, u);
            match k
            case KU8 => if |u| < 1 then d.Short? else d == Got(U8(u[0]), u[1..])
            case KU16 => if |u| < 2 then d.Short? else d.Got? && d.rest == u[2..] && d.value.w == Num16(u)
            case KU32 => if |u| < 4 then d.Short? else d.Got? && d.rest == u[4..] && d.value.d == Num32(u)
            case KU64 => if |u| < 8 then d.Short? else d.Got? && d.rest == u[8..] && d.value.q == Num64(u)
            case KStr =>
              if |u| < 2 || |u| < 2 + Num16(u) then d.Short?
              else d == Got(Str(u[2..2 + Num16(u)]), u[2 + Num16(u)..])
            case KQid =>
              if |u| < 13 then d.Short?
              else
                && d.Got? && d.rest == u[13..] && d.value.qid.kind == u[0]
                && d.value.qid.version == Num32(u[1..]) && d.value.qid.path == Num64(u[5..])
  {
    hide Val, Num32, Num64;
    ValOfDigits(u);
    match k
    case KStr =>
      if |u| >= 2 && |u| >= 2 + Num16(u) {
        assert u[2..][..Num16(u)] == u[2..2 + Num16(u)] && u[2..][Num16(u)..] == u[2 + Num16(u)..];
      }
    case KQid =>
      if |u| >= 13 {
        ValOfDigits(u[1..]);
        ValOfDigits(u[5..]);
        assert u[1..][4..] == u[5..] && u[5..][8..] == u[13..];
      }
    case _ =>
  }

  // Whole messages.

  function PiecesOf(ls: seq<Leaf>): seq<Piece> { seq(|ls|, i requires 0 <= i < |ls| => PieceOf(ls[i])) }

  function TailPieces(t: Tail): seq<Piece> {
    match t
    case NoTail => []
    case List(_, items) => if |items| <= 65535 then [Plain(Two(|items|))] + PiecesOf(items) else [Refused]
    case Blob(data) => Data(data)
    case Record(st) => StatRecord(st)
  }

  lemma LeafIsPiece(l: Leaf)
    ensures Written([PieceOf(l)]) == EmitLeaf(l)
  {
    LeafOnWire(l);
    hide EmitLeaf, Two, Four, Eight, QidOnWire;
    var ps := [PieceOf(l)];
    assert ps[1..] == [] && Written(ps[1..]) == Emit([], true);
    match ps[0]
    case Plain(bs) => assert bs + [] == bs;
    case Text(s) => assert Two(|s|) + s + [] == Two(|s|) + s;
    case Refused =>
  }

  lemma {:induction false} WrittenConcat(a: seq<Piece>, b: seq<Piece>)
    ensures Written(a + b)
         == if Written(a).ok then Emit(Written(a).bytes + Written(b).bytes, Written(b).ok) else Written(a)
  {
    hide Two;
    if a == [] {
      assert a + b == b && [] + Written(b).bytes == Written(b).bytes;
    } else {
      assert (a + b)[1..] == a[1..] + b && (a + b)[0] == a[0];
      WrittenConcat(a[1..], b);
      var more, last := Written(a[1..]).bytes, Written(b).bytes;
      match a[0]
      case Plain(bs) => assert bs + (more + last) == bs + more + last;
      case Text(s) => assert Two(|s|) + s + (more + last) == Two(|s|) + s + more + last;
      case Refused =>
    }
  }

  lemma {:induction false} LeavesWritten(ls: seq<Leaf>, k: nat)
    requires k <= |ls|
    ensures Written(PiecesOf(ls)[k..]) == EmitLeaves(ls, k)
    decreases |ls| - k
  {
    hide Written, EmitLeaf, PieceOf;
    var ps := PiecesOf(ls);
    if k == |ls| {
      NothingWritten();
    } else {
      LeafIsPiece(ls[k]);
      LeavesWritten(ls, k + 1);
      assert ps[k..] == [PieceOf(ls[k])] + ps[k + 1..];
      WrittenConcat([PieceOf(ls[k])], ps[k + 1..]);
    }
  }

  lemma NothingWritten()
    ensures Written([]) == Emit([], true)
  {
  }

  lemma OneWritten(p: Piece)
    ensures p.Plain? ==> Written([p]) == Emit(p.bs, true)
    ensures p.Refused? ==> Written([p]) == Emit([], false)
  {
    assert [p][1..] == [];
    NothingWritten();
    if p.Plain? { assert p.bs + [] == p.bs; }
  }

  lemma StatWritten(st: Stat)
    ensures Written(StatPieces(st)) == EmitLeaves(StatLeaves(st), 0)
  {
    hide Written, EmitLeaves, Two, Four, Eight, QidOnWire;
    assert PiecesOf(StatLeaves(st)) == StatPieces(st);
    LeavesWritten(StatLeaves(st), 0);
    assert StatPieces(st)[0..] == StatPieces(st);
  }

  lemma TailWritten(t: Tail)
    ensures Written(TailPieces(t)) == EmitTail(t)
  {
    hide Written, EmitLeaves, Two, Four, PiecesOf, StatPieces, StatLeaves, StatStrings, LE, LeavesSize;
    match t
    case NoTail => NothingWritten();
    case List(_, items) =>
      DigitsOfTwo(|items|);
      OneWritten(Plain(Two(|items|)));
      OneWritten(Refused);
      LeavesWritten(items, 0);
      assert PiecesOf(items)[0..] == PiecesOf(items);
      WrittenConcat([Plain(Two(|items|))], PiecesOf(items));
    case Blob(data) =>
      DigitsOfFour(|data|);
      OneWritten(Plain(Four(|data|) + data));
      OneWritten(Refused);
    case Record(st) => RecordWritten(st);
  }

  lemma RecordWritten(st: Stat)
    ensures Written(StatRecord(st)) == EmitStat(st)
  {
    hide Written, EmitLeaves, Two, StatPieces, StatLeaves, LE, LeavesSize;
    StatWritten(st);
    StatIsAllOrNothing(st);
    LeavesSucceed(StatLeaves(st), 0);
    StatInnerSize(st);
    DigitsOfTwo(47 + StatStrings(st));
    OneWritten(Plain(Two(47 + StatStrings(st)) + Written(StatPieces(st)).bytes));
    OneWritten(Refused);
  }

  lemma FormWritten(ls: seq<Leaf>, t: Tail)
    ensures Written(PiecesOf(ls) + TailPieces(t)) == EmitForm(ls, t)
  {
    hide Written, PiecesOf, TailPieces, EmitLeaves, EmitTail;
    LeavesWritten(ls, 0);
    assert PiecesOf(ls)[0..] == PiecesOf(ls);
    TailWritten(t);
    WrittenConcat(PiecesOf(ls), TailPieces(t));
  }

  lemma {:induction false} BodyPieces(b: Body)
    requires !IsUndefined(b)
    ensures PiecesOf(BodyLeaves(b)) + TailPieces(BodyTail(b)) == BodyFormat(b)
  {
    hide PiecesOf, BodyLeaves, BodyFormat, DirectionOf, IsUndefined;
    if !BodyTail(b).NoTail? {
      TailedPieces(b);
    } else {
      if DirectionOf(b) == Request { PlainRequestPieces(b); } else { PlainResponsePieces(b); }
      assert PiecesOf(BodyLeaves(b)) + [] == PiecesOf(BodyLeaves(b));
    }
  }

  lemma {:induction false} PlainRequestPieces(b: Body)
    requires !IsUndefined(b) && DirectionOf(b) == Request && BodyTail(b).NoTail?
    ensures PiecesOf(BodyLeaves(b)) == BodyFormat(b)
  {
    hide Two, Four, Eight, QidOnWire;
  }

  lemma {:induction false} PlainResponsePieces(b: Body)
    requires !IsUndefined(b) && DirectionOf(b) == Response && BodyTail(b).NoTail?
    ensures PiecesOf(BodyLeaves(b)) == BodyFormat(b)
  {
    hide Two, Four, Eight, QidOnWire;
  }

  lemma {:induction false} TailedPieces(b: Body)
    requires !BodyTail(b).NoTail?
    ensures PiecesOf(BodyLeaves(b)) + TailPieces(BodyTail(b)) == BodyFormat(b)
  {
    hide Two, Four, Eight, Data, StatRecord, NameLeaves, QidLeaves, Texts, Qids;
    if b.WalkRequest? { TextsOfNames(b.wname); }
    if b.WalkResponse? { QidsOfLeaves(b.wqid); }
  }

  lemma TextsOfNames(names: seq<bytes>)
    ensures PiecesOf(NameLeaves(names)) == Texts(names)
  {
  }

  lemma QidsOfLeaves(qids: seq<Qid>)
    ensures PiecesOf(QidLeaves(qids)) == Qids(qids)
  {
  }

  /**
    * Every encoder writes exactly its message's format, and throws exactly where that is refused, with
    * the pieces before it written.
    */
  lemma EncodesAsFormat(m: Message)
    ensures EmitMessage(m) == Written(Format(m))
  {
    hide Written, EmitForm, BodyFormat, BodyLeaves, BodyTail, TailPieces, Two;
    if IsUndefined(m.body) {
      OneWritten(Refused);
    } else {
      BodyPieces(m.body);
      FormWritten(MessageLeaves(m), BodyTail(m.body));
      var header := [U8(m.op), U16(m.tag)];
      assert PiecesOf(MessageLeaves(m)) == [Plain([m.op]), Plain(Two(m.tag))] + PiecesOf(BodyLeaves(m.body));
      assert PiecesOf(MessageLeaves(m)) + TailPieces(BodyTail(m.body)) == Format(m);
    }
  }

  /** The code that each type's constructor puts into the header. */
  lemma {:induction false} CodeIsRawOperation(b: Body)
    ensures RawOperation(b) == CodeOf(b)
  {
    if DirectionOf(b) == Request { RequestCode(b); } else { ResponseCode(b); }
  }

  lemma {:induction false} RequestCode(b: Body)
    requires DirectionOf(b) == Request
    ensures TForm(ConceptOf(b)) == CodeOf(b)
  {
  }

  lemma {:induction false} ResponseCode(b: Body)
    requires DirectionOf(b) == Response
    ensures RForm(ConceptOf(b)) == CodeOf(b)
  {
  }

  // Which input stands for which message.

  /** A WStat request whose stat has the given two bytes in front. */
  function WStatOnWire(m: Message, len: bytes): bytes
    requires m.body.WStatRequest?
  {
    [m.op] + Two(m.tag) + Four(m.body.fid) + len + Written(StatPieces(m.body.stat)).bytes
  }

  /** The input u is the message m followed by rest. */
  predicate Spells(u: bytes, m: Message, rest: bytes) {
    if m.body.WStatRequest? then
      StringsFit(m.body.stat) && |u| >= 9 && u == WStatOnWire(m, u[7..9]) + rest
    else Written(Format(m)).ok && u == Written(Format(m)).bytes + rest
  }

  lemma WStatHeadBytes(m: Message)
    requires m.body.WStatRequest?
    ensures EmitLeaves(MessageLeaves(m), 0) == Emit([m.op] + Two(m.tag) + Four(m.body.fid), true)
  {
    var ls := MessageLeaves(m);
    assert ls == [U8(m.op), U16(m.tag), U32(m.body.fid)];
    hide EmitLeaf, Two, Four, Written, MessageLeaves;
    LeafOnWire(ls[0]);
    LeafOnWire(ls[1]);
    LeafOnWire(ls[2]);
    assert EmitLeaves(ls, 3) == Emit([], true);
    assert EmitLeaves(ls, 2) == Emit(Four(m.body.fid), true);
    assert EmitLeaves(ls, 1) == Emit(Two(m.tag) + Four(m.body.fid), true);
  }

  lemma WStatSpelled(u: bytes, m: Message, rest: bytes)
    requires m.body.WStatRequest?
    ensures TakeMessage(WStat, Request, u) == Got(m, rest) <==> Spells(u, m, rest)
  {
    hide TakeMessage, Written, StatPieces, EmitLeaves, MessageLeaves, StringsFit, StatLeaves, Two, Four, TakeStat;
    WStatHeadBytes(m);
    StatWritten(m.body.stat);
    StringsFitIff(m.body.stat);
    if TakeMessage(WStat, Request, u) == Got(m, rest) {
      WStatFrom(u, m, rest);
    }
    if Spells(u, m, rest) {
      WStatInto(u, m, rest);
    }
  }

  lemma WStatFrom(u: bytes, m: Message, rest: bytes)
    requires m.body.WStatRequest? && TakeMessage(WStat, Request, u) == Got(m, rest)
    ensures var head, inner := EmitLeaves(MessageLeaves(m), 0).bytes, EmitLeaves(StatLeaves(m.body.stat), 0);
            inner.ok && |u| >= 9 && u == head + u[7..9] + inner.bytes + rest
  {
    hide *;
    WStatShape(m);
    TypedDecode(WStat, Request, u);
    WStatHead(m);
    TypedRest(WStat, Request, u);
    StatAtEnd(MessageKinds(WStat, Request), u);
    var head, inner := EmitLeaves(MessageLeaves(m), 0).bytes, EmitLeaves(StatLeaves(m.body.stat), 0).bytes;
    StatAfterHead(u, head, m.body.stat, rest);
    assert head + (u[7..9] + inner) == head + u[7..9] + inner;
  }

  lemma LengthInFront(len: bytes, st: Stat)
    requires |len| == 2
    ensures StatWithLength(U16Of(len), st) == len + EmitLeaves(StatLeaves(st), 0).bytes
  {
    hide EmitLeaves, StatLeaves, LE, Val;
    LEOfVal(len);
  }

  lemma {:induction false} WStatShape(m: Message)
    requires m.body.WStatRequest?
    ensures ConceptOf(m.body) == WStat && DirectionOf(m.body) == Request && !IsUndefined(m.body)
    ensures TailKindOf(WStat, Request) == KStat && BodyTail(m.body) == Record(m.body.stat)
  {
  }

  lemma WStatInto(u: bytes, m: Message, rest: bytes)
    requires m.body.WStatRequest? && EmitLeaves(MessageLeaves(m), 0).ok
    requires var head, inner := EmitLeaves(MessageLeaves(m), 0).bytes, EmitLeaves(StatLeaves(m.body.stat), 0);
             inner.ok && |u| >= 9 && u == head + u[7..9] + inner.bytes + rest
    ensures TakeMessage(WStat, Request, u) == Got(m, rest)
  {
    hide *;
    WStatShape(m);
    MessageHasKinds(m);
    var head, inner := EmitLeaves(MessageLeaves(m), 0).bytes, EmitLeaves(StatLeaves(m.body.stat), 0).bytes;
    LengthInFront(u[7..9], m.body.stat);
    var last := StatWithLength(U16Of(u[7..9]), m.body.stat);
    assert u == head + last + rest;
    StatFormReads(MessageLeaves(m), MessageKinds(WStat, Request), U16Of(u[7..9]), m.body.stat, rest);
    MessageOfForm(m, u, rest);
  }

  /** For every type, decoding as that type yields exactly the messages of the type that the input spells. */
  lemma TypedDecodeIff(c: Concept, dir: Direction, u: bytes, m: Message, rest: bytes)
    requires c != Undefined
    ensures TakeMessage(c, dir, u) == Got(m, rest)
       <==> ConceptOf(m.body) == c && DirectionOf(m.body) == dir && Spells(u, m, rest)
  {
    WStatIsItsConcept(m.body);
    EncodesAsFormat(m);
    hide TakeMessage, Written, Format, EmitMessage, ConceptOf, DirectionOf, WStatOnWire;
    if TakeMessage(c, dir, u) == Got(m, rest) { TypedDecode(c, dir, u); }
    if ConceptOf(m.body) == c && DirectionOf(m.body) == dir {
      if m.body.WStatRequest? {
        WStatSpelled(u, m, rest);
      } else {
        if TakeMessage(c, dir, u) == Got(m, rest) { TypedCanonical(c, dir, u); }
        if EmitMessage(m).ok { TypedRoundTrip(m, rest); }
      }
    }
  }

  lemma SpelledFirst(u: bytes, m: Message, rest: bytes)
    requires Spells(u, m, rest)
    ensures u != [] && u[0] == m.op && !IsUndefined(m.body)
  {
    if !m.body.WStatRequest? {
      EncodesAsFormat(m);
      hide Written, Format, EmitForm;
      FirstByteIsCode(m);
    }
  }

  /** The dispatcher decodes exactly the messages that the input spells with their own types' codes. */
  lemma DispatchIff(u: bytes, m: Message, rest: bytes)
    ensures Dispatch(u) == Decoded(m, rest) <==> m.op == CodeOf(m.body) && Spells(u, m, rest)
  {
    CodeIsRawOperation(m.body);
    hide TakeMessage, Spells, CodeOf, ConceptOf, DirectionOf, Convert, TranslateConcept, ParityDirection;
    if Spells(u, m, rest) { SpelledFirst(u, m, rest); }
    DefinedConcept(m.body);
    if Dispatch(u).Decoded? { DispatchedIsGenuine(u); }
    if u != [] {
      if Convert(u[0]) != Undefined { TypedDecodeIff(Convert(u[0]), ParityDirection(u[0]), u, m, rest); }
      CodeNamesItsConcept(ConceptOf(m.body), DirectionOf(m.body));
    }
  }

  /** A message's first byte on the wire is its type's code, and a first byte announces the type that has it. */
  lemma CodeOnWire(m: Message, u: bytes)
    ensures EmitMessage(m).ok && Genuine(m) ==>
              |EmitMessage(m).bytes| > 0 && EmitMessage(m).bytes[0] == CodeOf(m.body)
    ensures Dispatch(u).Decoded? ==> u != [] && u[0] == CodeOf(Dispatch(u).message.body)
  {
    hide EmitMessage, TakeMessage, Convert, RawOperation, CodeOf;
    CodeIsRawOperation(m.body);
    if EmitMessage(m).ok { FirstByteIsCode(m); }
    if Dispatch(u).Decoded? {
      DispatchedIsGenuine(u);
      CodeIsRawOperation(Dispatch(u).message.body);
    }
  }

  /** And it rejects exactly the inputs that do not begin with a code. */
  lemma RejectedIff(u: bytes)
    ensures Dispatch(u) == Rejected <==> u == [] || u[0] < 100 || u[0] > 127
  {
    hide TakeMessage, Convert;
    if u != [] { CodeIsConceptAndParity(u[0]); }
  }

  // Decoding into an object that already holds something.

  /** An input that spells a message of the held type extends what grows and replaces the rest. */
  lemma DecodeIntoSpelled(held: Message, u: bytes, m: Message, rest: bytes)
    requires !IsUndefined(held.body) && SameType(held.body, m.body) && Spells(u, m, rest)
    ensures var r := TakeInto(held, u);
            && r.Got? && r.rest == rest && SameType(r.value.body, m.body)
            && MessageLeaves(r.value) == MessageLeaves(m)
            && Growing(r.value.body) == Growing(held.body) + Growing(m.body)
            && (!IsGrowing(held.body) ==> r.value == m)
  {
    DefinedConcept(held.body);
    hide TakeMessage, Merge, Growing, BodyLeaves, Spells, ConceptOf, DirectionOf, IsUndefined, IsGrowing;
    TypedDecodeIff(ConceptOf(held.body), DirectionOf(held.body), u, m, rest);
    MergeGrows(held.body, m.body);
    if !IsGrowing(held.body) {
      NeitherGrows(held.body, m.body);
      PlainMerge(held.body, m.body);
    }
  }

  /** Any other input is short. */
  lemma DecodeIntoIff(held: Message, u: bytes)
    requires !IsUndefined(held.body)
    ensures TakeInto(held, u).Got?
       <==> exists m: Message, rest: bytes :: SameType(held.body, m.body) && Spells(u, m, rest)
  {
    DefinedConcept(held.body);
    hide TakeMessage, Merge, Spells, ConceptOf, DirectionOf, IsUndefined;
    var c, dir := ConceptOf(held.body), DirectionOf(held.body);
    if TakeInto(held, u).Got? {
      var d := TakeMessage(c, dir, u);
      TypedDecodeIff(c, dir, u, d.value, d.rest);
      assert SameType(held.body, d.value.body) && Spells(u, d.value, d.rest);
    }
    if m: Message, rest: bytes :| SameType(held.body, m.body) && Spells(u, m, rest) {
      TypedDecodeIff(c, dir, u, m, rest);
    }
  }

  /** A default-constructed object carries its type's code and the tag 65535. */
  lemma {:induction false} FreshMeaning(c: Concept, dir: Direction)
    ensures ConceptOf(Fresh(c, dir).body) == c && DirectionOf(Fresh(c, dir).body) == dir
    ensures Fresh(c, dir).op == CodeOf(Fresh(c, dir).body) && Fresh(c, dir).tag == 65535
  {
    hide FreshBody, CodeOf;
    CodeIsRawOperation(FreshBody(c, dir));
  }
}
