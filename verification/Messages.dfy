/**
  * The message types (Message.h) and their layouts: for every type, the leaves
  * and the tail that its `encode` writes and its `decode` reads, in order.
  */
module Messages {
  import opened LittleEndian
  import opened Operations
  import opened Wire

  const NOTAG: u16 := 0xFFFF

  /** What a message type adds to the header; one constructor per C++ type. */
  datatype Body =
    | UndefinedRequest | UndefinedResponse
    | VersionRequest(msize: u16, version: bytes) | VersionResponse(msize: u16, version: bytes)
    | AuthRequest(afid: u32, uname: bytes, aname: bytes) | AuthResponse(qid: Qid)
    | AttachRequest(fid: u32, afid: u32, uname: bytes, aname: bytes) | AttachResponse(qid: Qid)
    | ErrorRequest | ErrorResponse(ename: bytes)
    | FlushRequest(oldtag: u16) | FlushResponse
    | WalkRequest(fid: u32, newfid: u32, wname: seq<bytes>) | WalkResponse(wqid: seq<Qid>)
    | OpenRequest(fid: u32, mode: u8) | OpenResponse(qid: Qid, iounit: u32)
    | CreateRequest(fid: u32, name: bytes, perm: u32, mode: u8) | CreateResponse(qid: Qid, iounit: u32)
    | ReadRequest(fid: u32, offset: u64, count: u32) | ReadResponse(data: bytes)
    | WriteRequest(fid: u32, offset: u64, data: bytes) | WriteResponse(count: u32)
    | ClunkRequest(fid: u32) | ClunkResponse
    | RemoveRequest(fid: u32) | RemoveResponse
    | StatRequest(fid: u32) | StatResponse(text: bytes)
    | WStatRequest(fid: u32, stat: Stat) | WStatResponse

  /**
    * A message object.  The code is stored, not implied: a constructor sets it to
    * the type's RawOperation, but `decode` overwrites it with whatever was read.
    * An Interaction is a message together with which of the two variants holds
    * it, and the type determines that.
    */
  datatype Message = Message(op: u8, tag: u16, body: Body)

  function ConceptOf(b: Body): Concept {
    match b
    case UndefinedRequest | UndefinedResponse => Undefined
    case VersionRequest(_, _) | VersionResponse(_, _) => Version
    case AuthRequest(_, _, _) | AuthResponse(_) => Auth
    case AttachRequest(_, _, _, _) | AttachResponse(_) => Attach
    case ErrorRequest | ErrorResponse(_) => Error
    case FlushRequest(_) | FlushResponse => Flush
    case WalkRequest(_, _, _) | WalkResponse(_) => Walk
    case OpenRequest(_, _) | OpenResponse(_, _) => Open
    case CreateRequest(_, _, _, _) | CreateResponse(_, _) => Create
    case ReadRequest(_, _, _) | ReadResponse(_) => Read
    case WriteRequest(_, _, _) | WriteResponse(_) => Write
    case ClunkRequest(_) | ClunkResponse => Clunk
    case RemoveRequest(_) | RemoveResponse => Remove
    case StatRequest(_) | StatResponse(_) => Concept.Stat
    case WStatRequest(_, _) | WStatResponse => WStat
  }

  function DirectionOf(b: Body): Direction {
    if b.UndefinedRequest? || b.VersionRequest? || b.AuthRequest? || b.AttachRequest? || b.ErrorRequest?
       || b.FlushRequest? || b.WalkRequest? || b.OpenRequest? || b.CreateRequest? || b.ReadRequest?
       || b.WriteRequest? || b.ClunkRequest? || b.RemoveRequest? || b.StatRequest? || b.WStatRequest?
    then Request else Response
  }

  predicate IsUndefined(b: Body) { b.UndefinedRequest? || b.UndefinedResponse? }

  function RawOperation(b: Body): u8 {
    TranslateConcept(ConceptOf(b), DirectionOf(b))
  }

  /** The header carries the code of the message's own type. */
  predicate Genuine(m: Message) { m.op == RawOperation(m.body) }

  // Lists as runs of leaves, and back.

  function NameLeaves(names: seq<bytes>): (ls: seq<Leaf>)
    ensures HaveKinds(ls, Repeat(|names|, KStr))
  {
    seq(|names|, i requires 0 <= i < |names| => Str(names[i]))
  }

  function LeafNames(ls: seq<Leaf>): (names: seq<bytes>)
    requires HaveKinds(ls, Repeat(|ls|, KStr))
    ensures NameLeaves(names) == ls
  {
    seq(|ls|, i requires 0 <= i < |ls| => assert KindOf(ls[i]) == KStr; ls[i].s)
  }

  function QidLeaves(qids: seq<Qid>): (ls: seq<Leaf>)
    ensures HaveKinds(ls, Repeat(|qids|, KQid))
  {
    seq(|qids|, i requires 0 <= i < |qids| => Id(qids[i]))
  }

  function LeafQids(ls: seq<Leaf>): (qids: seq<Qid>)
    requires HaveKinds(ls, Repeat(|ls|, KQid))
    ensures QidLeaves(qids) == ls
  {
    seq(|ls|, i requires 0 <= i < |ls| => assert KindOf(ls[i]) == KQid; ls[i].qid)
  }

  // Layouts.

  function BodyLeaves(b: Body): seq<Leaf> {
    match b
    case UndefinedRequest | UndefinedResponse => []
    case VersionRequest(msize, version) => [U16(msize), Str(version)]
    case VersionResponse(msize, version) => [U16(msize), Str(version)]
    case AuthRequest(afid, uname, aname) => [U32(afid), Str(uname), Str(aname)]
    case AuthResponse(qid) => [Id(qid)]
    case AttachRequest(fid, afid, uname, aname) => [U32(fid), U32(afid), Str(uname), Str(aname)]
    case AttachResponse(qid) => [Id(qid)]
    case ErrorRequest => []
    case ErrorResponse(ename) => [Str(ename)]
    case FlushRequest(oldtag) => [U16(oldtag)]
    case FlushResponse => []
    case WalkRequest(fid, newfid, _) => [U32(fid), U32(newfid)]
    case WalkResponse(_) => []
    case OpenRequest(fid, mode) => [U32(fid), U8(mode)]
    case OpenResponse(qid, iounit) => [Id(qid), U32(iounit)]
    case CreateRequest(fid, name, perm, mode) => [U32(fid), Str(name), U32(perm), U8(mode)]
    case CreateResponse(qid, iounit) => [Id(qid), U32(iounit)]
    case ReadRequest(fid, offset, count) => [U32(fid), U64(offset), U32(count)]
    case ReadResponse(_) => []
    case WriteRequest(fid, offset, _) => [U32(fid), U64(offset)]
    case WriteResponse(count) => [U32(count)]
    case ClunkRequest(fid) => [U32(fid)]
    case ClunkResponse => []
    case RemoveRequest(fid) => [U32(fid)]
    case RemoveResponse => []
    case StatRequest(fid) => [U32(fid)]
    case StatResponse(text) => [Str(text)]
    case WStatRequest(fid, _) => [U32(fid)]
    case WStatResponse => []
  }

  function BodyTail(b: Body): Tail {
    match b
    case WalkRequest(_, _, wname) => List(KStr, NameLeaves(wname))
    case WalkResponse(wqid) => List(KQid, QidLeaves(wqid))
    case ReadResponse(data) => Blob(data)
    case WriteRequest(_, _, data) => Blob(data)
    case WStatRequest(_, stat) => Record(stat)
    case _ => NoTail
  }

  function BodyKinds(c: Concept, dir: Direction): seq<Kind> {
    match (c, dir)
    case (Undefined, _) => []
    case (Version, _) => [KU16, KStr]
    case (Auth, Request) => [KU32, KStr, KStr]
    case (Auth, Response) => [KQid]
    case (Attach, Request) => [KU32, KU32, KStr, KStr]
    case (Attach, Response) => [KQid]
    case (Error, Request) => []
    case (Error, Response) => [KStr]
    case (Flush, Request) => [KU16]
    case (Flush, Response) => []
    case (Walk, Request) => [KU32, KU32]
    case (Walk, Response) => []
    case (Open, Request) => [KU32, KU8]
    case (Open, Response) => [KQid, KU32]
    case (Create, Request) => [KU32, KStr, KU32, KU8]
    case (Create, Response) => [KQid, KU32]
    case (Read, Request) => [KU32, KU64, KU32]
    case (Read, Response) => []
    case (Write, Request) => [KU32, KU64]
    case (Write, Response) => [KU32]
    case (Clunk, Request) => [KU32]
    case (Clunk, Response) => []
    case (Remove, Request) => [KU32]
    case (Remove, Response) => []
    case (Stat, Request) => [KU32]
    case (Stat, Response) => [KStr]
    case (WStat, Request) => [KU32]
    case (WStat, Response) => []
  }

  function TailKindOf(c: Concept, dir: Direction): TailKind {
    match (c, dir)
    case (Walk, Request) => KList(KStr)
    case (Walk, Response) => KList(KQid)
    case (Read, Response) => KBlob
    case (Write, Request) => KBlob
    case (WStat, Request) => KStat
    case _ => KNone
  }

  /** Header first: the code, then the tag. */
  function MessageLeaves(m: Message): seq<Leaf> {
    [U8(m.op), U16(m.tag)] + BodyLeaves(m.body)
  }

  function MessageKinds(c: Concept, dir: Direction): seq<Kind> {
    [KU8, KU16] + BodyKinds(c, dir)
  }

  /** The body that a layout's leaves and tail spell. */
  function Build(c: Concept, dir: Direction, ls: seq<Leaf>, t: Tail): (b: Body)
    requires c != Undefined
    requires HaveKinds(ls, BodyKinds(c, dir)) && TailHasKind(t, TailKindOf(c, dir))
    ensures !IsUndefined(b)
  {
    match (c, dir)
    case (Version, Request) => VersionRequest(ls[0].w, ls[1].s)
    case (Version, Response) => VersionResponse(ls[0].w, ls[1].s)
    case (Auth, Request) => AuthRequest(ls[0].d, ls[1].s, ls[2].s)
    case (Auth, Response) => AuthResponse(ls[0].qid)
    case (Attach, Request) => AttachRequest(ls[0].d, ls[1].d, ls[2].s, ls[3].s)
    case (Attach, Response) => AttachResponse(ls[0].qid)
    case (Error, Request) => ErrorRequest
    case (Error, Response) => ErrorResponse(ls[0].s)
    case (Flush, Request) => FlushRequest(ls[0].w)
    case (Flush, Response) => FlushResponse
    case (Walk, Request) => WalkRequest(ls[0].d, ls[1].d, LeafNames(t.items))
    case (Walk, Response) => WalkResponse(LeafQids(t.items))
    case (Open, Request) => OpenRequest(ls[0].d, ls[1].b)
    case (Open, Response) => OpenResponse(ls[0].qid, ls[1].d)
    case (Create, Request) => CreateRequest(ls[0].d, ls[1].s, ls[2].d, ls[3].b)
    case (Create, Response) => CreateResponse(ls[0].qid, ls[1].d)
    case (Read, Request) => ReadRequest(ls[0].d, ls[1].q, ls[2].d)
    case (Read, Response) => ReadResponse(t.data)
    case (Write, Request) => WriteRequest(ls[0].d, ls[1].q, t.data)
    case (Write, Response) => WriteResponse(ls[0].d)
    case (Clunk, Request) => ClunkRequest(ls[0].d)
    case (Clunk, Response) => ClunkResponse
    case (Remove, Request) => RemoveRequest(ls[0].d)
    case (Remove, Response) => RemoveResponse
    case (Stat, Request) => StatRequest(ls[0].d)
    case (Stat, Response) => StatResponse(ls[0].s)
    case (WStat, Request) => WStatRequest(ls[0].d, t.stat)
    case (WStat, Response) => WStatResponse
  }

  /** A default-constructed object; the integer fields are unset in the source and read as 0 here. */
  function FreshBody(c: Concept, dir: Direction): (b: Body)
    ensures ConceptOf(b) == c && DirectionOf(b) == dir
  {
    match (c, dir)
    case (Undefined, Request) => UndefinedRequest
    case (Undefined, Response) => UndefinedResponse
    case (Version, Request) => VersionRequest(0, [])
    case (Version, Response) => VersionResponse(0, [])
    case (Auth, Request) => AuthRequest(0, [], [])
    case (Auth, Response) => AuthResponse(Qid(0, 0, 0))
    case (Attach, Request) => AttachRequest(0, 0, [], [])
    case (Attach, Response) => AttachResponse(Qid(0, 0, 0))
    case (Error, Request) => ErrorRequest
    case (Error, Response) => ErrorResponse([])
    case (Flush, Request) => FlushRequest(0)
    case (Flush, Response) => FlushResponse
    case (Walk, Request) => WalkRequest(0, 0, [])
    case (Walk, Response) => WalkResponse([])
    case (Open, Request) => OpenRequest(0, 0)
    case (Open, Response) => OpenResponse(Qid(0, 0, 0), 0)
    case (Create, Request) => CreateRequest(0, [], 0, 0)
    case (Create, Response) => CreateResponse(Qid(0, 0, 0), 0)
    case (Read, Request) => ReadRequest(0, 0, 0)
    case (Read, Response) => ReadResponse([])
    case (Write, Request) => WriteRequest(0, 0, [])
    case (Write, Response) => WriteResponse(0)
    case (Clunk, Request) => ClunkRequest(0)
    case (Clunk, Response) => ClunkResponse
    case (Remove, Request) => RemoveRequest(0)
    case (Remove, Response) => RemoveResponse
    case (Stat, Request) => StatRequest(0)
    case (Stat, Response) => StatResponse([])
    case (WStat, Request) =>
      WStatRequest(0, Wire.Stat(0, 0, Qid(0, 0, 0), 0, 0, 0, 0, [], [], [], []))
    case (WStat, Response) => WStatResponse
  }

  function Fresh(c: Concept, dir: Direction): (m: Message)
    ensures Genuine(m)
  {
    Message(TranslateConcept(c, dir), NOTAG, FreshBody(c, dir))
  }

  // Encoding and decoding a whole message.

  function EmitMessage(m: Message): Emit {
    if IsUndefined(m.body) then Emit([], false)
    else EmitForm(MessageLeaves(m), BodyTail(m.body))
  }

  lemma HeaderThenBody(ls: seq<Leaf>, ks: seq<Kind>)
    requires HaveKinds(ls, [KU8, KU16] + ks)
    ensures ls[0].U8? && ls[1].U16? && HaveKinds(ls[2..], ks)
  {
    assert KindOf(ls[0]) == KU8 && KindOf(ls[1]) == KU16;
    forall i | 0 <= i < |ks| ensures KindOf(ls[2..][i]) == ks[i] {
      assert KindOf(ls[i + 2]) == ([KU8, KU16] + ks)[i + 2];
    }
  }

  /** A message of the given type, read from u into an object holding nothing. */
  function TakeMessage(c: Concept, dir: Direction, u: bytes): (r: Parsed<Message>)
    requires c != Undefined
    ensures r.Got? ==> IsSuffix(r.rest, u) && !IsUndefined(r.value.body)
  {
    match TakeForm(MessageKinds(c, dir), TailKindOf(c, dir), u)
    case Short => Short
    case Got((ls, t), rest) =>
      HeaderThenBody(ls, BodyKinds(c, dir));
      Got(Message(ls[0].b, ls[1].w, Build(c, dir, ls[2..], t)), rest)
  }

  /** What an object holds after `decode`: lists and data grow, all else is overwritten. */
  function Merge(held: Body, read: Body): (b: Body)
    ensures IsUndefined(b) ==> IsUndefined(read)
  {
    if held.WalkRequest? && read.WalkRequest? then
      WalkRequest(read.fid, read.newfid, held.wname + read.wname)
    else if held.WalkResponse? && read.WalkResponse? then WalkResponse(held.wqid + read.wqid)
    else if held.ReadResponse? && read.ReadResponse? then ReadResponse(held.data + read.data)
    else if held.WriteRequest? && read.WriteRequest? then
      WriteRequest(read.fid, read.offset, held.data + read.data)
    else read
  }

  /** `decode` of an object that already holds something. */
  function TakeInto(held: Message, u: bytes): (r: Parsed<Message>)
    requires !IsUndefined(held.body)
    ensures r.Got? ==> IsSuffix(r.rest, u) && !IsUndefined(r.value.body)
  {
    match TakeMessage(ConceptOf(held.body), DirectionOf(held.body), u)
    case Short => Short
    case Got(m, rest) => Got(m.(body := Merge(held.body, m.body)), rest)
  }

  datatype Dispatched = Decoded(message: Message, rest: bytes) | Underflow | Rejected

  /** Decoding an Interaction: the next byte chooses the type, then that type is read from the same place. */
  function Dispatch(u: bytes): (r: Dispatched)
    ensures r.Decoded? ==> IsSuffix(r.rest, u)
  {
    if u == [] || Convert(u[0]) == Undefined then Rejected
    else
      match TakeMessage(Convert(u[0]), ParityDirection(u[0]), u)
      case Short => Underflow
      case Got(m, rest) => Decoded(m, rest)
  }

  // The domain and the size of encoding, type by type.

  predicate Fits(s: bytes) { |s| <= MAX_U16 }

  predicate Encodable(b: Body) {
    match b
    case UndefinedRequest | UndefinedResponse => false
    case VersionRequest(_, version) => Fits(version)
    case VersionResponse(_, version) => Fits(version)
    case AuthRequest(_, uname, aname) => Fits(uname) && Fits(aname)
    case AttachRequest(_, _, uname, aname) => Fits(uname) && Fits(aname)
    case ErrorResponse(ename) => Fits(ename)
    case WalkRequest(_, _, wname) => |wname| <= MAX_U16 && forall i :: 0 <= i < |wname| ==> Fits(wname[i])
    case WalkResponse(wqid) => |wqid| <= MAX_U16
    case CreateRequest(_, name, _, _) => Fits(name)
    case ReadResponse(data) => |data| <= MAX_U32
    case WriteRequest(_, _, data) => |data| <= MAX_U32
    case StatResponse(text) => Fits(text)
    case WStatRequest(_, st) => |st.name| + |st.uid| + |st.gid| + |st.muid| <= 65488
    case _ => true
  }

  function NamesSize(names: seq<bytes>): nat {
    if names == [] then 0 else 2 + |names[0]| + NamesSize(names[1..])
  }

  function Size(b: Body): nat {
    match b
    case UndefinedRequest | UndefinedResponse => 0
    case VersionRequest(_, version) => 7 + |version|
    case VersionResponse(_, version) => 7 + |version|
    case AuthRequest(_, uname, aname) => 11 + |uname| + |aname|
    case AuthResponse(_) => 16
    case AttachRequest(_, _, uname, aname) => 15 + |uname| + |aname|
    case AttachResponse(_) => 16
    case ErrorRequest => 3
    case ErrorResponse(ename) => 5 + |ename|
    case FlushRequest(_) => 5
    case FlushResponse => 3
    case WalkRequest(_, _, wname) => 13 + NamesSize(wname)
    case WalkResponse(wqid) => 5 + 13 * |wqid|
    case OpenRequest(_, _) => 8
    case OpenResponse(_, _) => 20
    case CreateRequest(_, name, _, _) => 14 + |name|
    case CreateResponse(_, _) => 20
    case ReadRequest(_, _, _) => 19
    case ReadResponse(data) => 7 + |data|
    case WriteRequest(_, _, data) => 19 + |data|
    case WriteResponse(_) => 7
    case ClunkRequest(_) => 7
    case ClunkResponse => 3
    case RemoveRequest(_) => 7
    case RemoveResponse => 3
    case StatRequest(_) => 7
    case StatResponse(text) => 5 + |text|
    case WStatRequest(_, st) => 56 + |st.name| + |st.uid| + |st.gid| + |st.muid|
    case WStatResponse => 3
  }
}
