/**
  * The wire format of the pieces a message is made of.
  *
  * A message is a run of leaves (integers, strings, qids) followed by at most
  * one tail (a list, a data block or a stat record).  Writing a piece gives an
  * `Emit`: the bytes that reach the stream and whether the writer returned
  * normally.  A writer that throws may already have written something, so the
  * bytes are meaningful either way.
  */
module Wire {
  import opened LittleEndian

  datatype Qid = Qid(kind: u8, version: u32, path: u64)

  datatype Leaf = U8(b: u8) | U16(w: u16) | U32(d: u32) | U64(q: u64) | Str(s: bytes) | Id(qid: Qid)
  datatype Kind = KU8 | KU16 | KU32 | KU64 | KStr | KQid

  datatype Stat = Stat(kind: u16, dev: u32, qid: Qid, mode: u32, atime: u32, mtime: u32, length: u64,
                       name: bytes, uid: bytes, gid: bytes, muid: bytes)

  datatype Tail = NoTail | List(kind: Kind, items: seq<Leaf>) | Blob(data: bytes) | Record(stat: Stat)
  datatype TailKind = KNone | KList(kind: Kind) | KBlob | KStat

  datatype Emit = Emit(bytes: bytes, ok: bool)
  datatype Parsed<+T> = Got(value: T, rest: bytes) | Short

  function KindOf(l: Leaf): Kind {
    match l
    case U8(_) => KU8
    case U16(_) => KU16
    case U32(_) => KU32
    case U64(_) => KU64
    case Str(_) => KStr
    case Id(_) => KQid
  }

  predicate HaveKinds(ls: seq<Leaf>, ks: seq<Kind>) {
    |ls| == |ks| && forall i :: 0 <= i < |ls| ==> KindOf(ls[i]) == ks[i]
  }

  function Repeat(n: nat, k: Kind): (ks: seq<Kind>) {
    seq(n, _ => k)
  }

  predicate TailHasKind(t: Tail, k: TailKind) {
    match t
    case NoTail => k == KNone
    case List(kind, items) => k == KList(kind) && HaveKinds(items, Repeat(|items|, kind))
    case Blob(_) => k == KBlob
    case Record(_) => k == KStat
  }

  predicate IsSuffix(rest: bytes, u: bytes) {
    |rest| <= |u| && u[|u| - |rest|..] == rest
  }

  // Writers.

  function QidBytes(q: Qid): bytes {
    LE(1, q.kind) + LE(4, q.version) + LE(8, q.path)
  }

  function EmitLeaf(l: Leaf): Emit {
    match l
    case U8(b) => Emit(LE(1, b), true)
    case U16(w) => Emit(LE(2, w), true)
    case U32(d) => Emit(LE(4, d), true)
    case U64(q) => Emit(LE(8, q), true)
    case Str(s) => if |s| <= MAX_U16 then Emit(LE(2, |s|) + s, true) else Emit([], false)
    case Id(q) => Emit(QidBytes(q), true)
  }

  /** Leaves k, k+1, ... in order; a leaf that throws ends the run. */
  function EmitLeaves(ls: seq<Leaf>, k: nat): Emit
    requires k <= |ls|
    decreases |ls| - k
  {
    if k == |ls| then Emit([], true)
    else
      var e := EmitLeaf(ls[k]);
      if !e.ok then e
      else
        var more := EmitLeaves(ls, k + 1);
        Emit(e.bytes + more.bytes, more.ok)
  }

  function StatLeaves(st: Stat): seq<Leaf> {
    [U16(st.kind), U32(st.dev), Id(st.qid), U32(st.mode), U32(st.atime), U32(st.mtime), U64(st.length),
     Str(st.name), Str(st.uid), Str(st.gid), Str(st.muid)]
  }

  function StatKinds(): seq<Kind> {
    [KU16, KU32, KQid, KU32, KU32, KU32, KU64, KStr, KStr, KStr, KStr]
  }

  /** A stat is written to a stream of its own, whose contents are then sent as one string. */
  function EmitStat(st: Stat): Emit {
    var inner := EmitLeaves(StatLeaves(st), 0);
    if inner.ok && |inner.bytes| <= MAX_U16
    then Emit(LE(2, |inner.bytes|) + inner.bytes, true)
    else Emit([], false)
  }

  function EmitTail(t: Tail): Emit {
    match t
    case NoTail => Emit([], true)
    case List(_, items) =>
      if |items| <= MAX_U16
      then var all := EmitLeaves(items, 0); Emit(LE(2, |items|) + all.bytes, all.ok)
      else Emit([], false)
    case Blob(data) => if |data| <= MAX_U32 then Emit(LE(4, |data|) + data, true) else Emit([], false)
    case Record(st) => EmitStat(st)
  }

  /** Leaves, then the tail if the leaves did not throw. */
  function EmitForm(ls: seq<Leaf>, t: Tail): Emit {
    var head := EmitLeaves(ls, 0);
    if !head.ok then head
    else var last := EmitTail(t); Emit(head.bytes + last.bytes, last.ok)
  }

  // Readers.

  function TakeBlock(n: nat, u: bytes): (r: Parsed<bytes>)
    ensures r.Got? ==> |r.value| == n && IsSuffix(r.rest, u)
  {
    if |u| < n then Short else Got(u[..n], u[n..])
  }

  function TakeU8(u: bytes): (r: Parsed<u8>)
    ensures r.Got? ==> IsSuffix(r.rest, u)
  {
    match TakeBlock(1, u) case Short => Short case Got(bs, r) => Got(U8Of(bs), r)
  }

  function TakeU16(u: bytes): (r: Parsed<u16>)
    ensures r.Got? ==> IsSuffix(r.rest, u)
  {
    match TakeBlock(2, u) case Short => Short case Got(bs, r) => Got(U16Of(bs), r)
  }

  function TakeU32(u: bytes): (r: Parsed<u32>)
    ensures r.Got? ==> IsSuffix(r.rest, u)
  {
    match TakeBlock(4, u) case Short => Short case Got(bs, r) => Got(U32Of(bs), r)
  }

  function TakeU64(u: bytes): (r: Parsed<u64>)
    ensures r.Got? ==> IsSuffix(r.rest, u)
  {
    match TakeBlock(8, u) case Short => Short case Got(bs, r) => Got(U64Of(bs), r)
  }

  function TakeStr(u: bytes): (r: Parsed<bytes>)
    ensures r.Got? ==> IsSuffix(r.rest, u)
  {
    match TakeU16(u)
    case Short => Short
    case Got(n, r) => TakeBlock(n, r)
  }

  function TakeQid(u: bytes): (r: Parsed<Qid>)
    ensures r.Got? ==> IsSuffix(r.rest, u)
  {
    match TakeU8(u)
    case Short => Short
    case Got(kind, r1) =>
      match TakeU32(r1)
      case Short => Short
      case Got(version, r2) =>
        match TakeU64(r2)
        case Short => Short
        case Got(path, r3) => Got(Qid(kind, version, path), r3)
  }

  function TakeLeaf(k: Kind, u: bytes): (r: Parsed<Leaf>)
    ensures r.Got? ==> KindOf(r.value) == k && IsSuffix(r.rest, u)
  {
    hide TakeU8, TakeU16, TakeU32, TakeU64, TakeStr, TakeQid, IsSuffix;
    match k
    case KU8 => (match TakeU8(u) case Short => Short case Got(v, r) => Got(U8(v), r))
    case KU16 => (match TakeU16(u) case Short => Short case Got(v, r) => Got(U16(v), r))
    case KU32 => (match TakeU32(u) case Short => Short case Got(v, r) => Got(U32(v), r))
    case KU64 => (match TakeU64(u) case Short => Short case Got(v, r) => Got(U64(v), r))
    case KStr => (match TakeStr(u) case Short => Short case Got(s, r) => Got(Str(s), r))
    case KQid => (match TakeQid(u) case Short => Short case Got(q, r) => Got(Id(q), r))
  }

  /** Reads the leaves still missing from `done`, in the order of ks. */
  function TakeLeaves(ks: seq<Kind>, done: seq<Leaf>, u: bytes): (r: Parsed<seq<Leaf>>)
    requires |done| <= |ks|
    ensures r.Got? ==> |r.value| == |ks| && done <= r.value && IsSuffix(r.rest, u)
    ensures r.Got? ==> forall i :: |done| <= i < |ks| ==> KindOf(r.value[i]) == ks[i]
    decreases |ks| - |done|
  {
    if |done| == |ks| then Got(done, u)
    else
      match TakeLeaf(ks[|done|], u)
      case Short => Short
      case Got(l, r) => TakeLeaves(ks, done + [l], r)
  }

  function StatOf(ls: seq<Leaf>): (st: Stat)
    requires HaveKinds(ls, StatKinds())
    ensures StatLeaves(st) == ls
  {
    Stat(ls[0].w, ls[1].d, ls[2].qid, ls[3].d, ls[4].d, ls[5].d, ls[6].q,
         ls[7].s, ls[8].s, ls[9].s, ls[10].s)
  }

  /** The length in front of a stat is read and then ignored. */
  function TakeStat(u: bytes): (r: Parsed<Stat>)
    ensures r.Got? ==> IsSuffix(r.rest, u)
  {
    match TakeU16(u)
    case Short => Short
    case Got(_, r) =>
      match TakeLeaves(StatKinds(), [], r)
      case Short => Short
      case Got(ls, r2) => Got(StatOf(ls), r2)
  }

  function TakeTail(k: TailKind, u: bytes): (r: Parsed<Tail>)
    ensures r.Got? ==> TailHasKind(r.value, k) && IsSuffix(r.rest, u)
  {
    match k
    case KNone => Got(NoTail, u)
    case KList(kind) =>
      (match TakeU16(u)
       case Short => Short
       case Got(n, r) =>
         match TakeLeaves(Repeat(n, kind), [], r)
         case Short => Short
         case Got(items, r2) => Got(List(kind, items), r2))
    case KBlob =>
      (match TakeU32(u)
       case Short => Short
       case Got(n, r) =>
         match TakeBlock(n, r)
         case Short => Short
         case Got(data, r2) => Got(Blob(data), r2))
    case KStat =>
      (match TakeStat(u)
       case Short => Short
       case Got(st, r) => Got(Record(st), r))
  }

  function TakeForm(ks: seq<Kind>, tk: TailKind, u: bytes): (r: Parsed<(seq<Leaf>, Tail)>)
    ensures r.Got? ==> HaveKinds(r.value.0, ks) && TailHasKind(r.value.1, tk) && IsSuffix(r.rest, u)
  {
    match TakeLeaves(ks, [], u)
    case Short => Short
    case Got(ls, r) =>
      match TakeTail(tk, r)
      case Short => Short
      case Got(t, r2) => Got((ls, t), r2)
  }
}
