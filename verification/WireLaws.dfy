/** Readers undo writers, writers undo readers, and how many bytes a writer makes. */
module WireLaws {
  import opened LittleEndian
  import opened Wire

  // Reading back what was written, with anything after it.

  lemma BlockRoundTrip(data: bytes, rest: bytes)
    ensures TakeBlock(|data|, data + rest) == Got(data, rest)
  {
    assert (data + rest)[..|data|] == data;
    assert (data + rest)[|data|..] == rest;
  }

  lemma U8RoundTrip(v: u8, rest: bytes)
    ensures TakeU8(LE(1, v) + rest) == Got(v, rest)
  {
    BlockRoundTrip(LE(1, v), rest);
    FixedWidths(v, 0, 0, 0);
  }

  lemma U16RoundTrip(v: u16, rest: bytes)
    ensures TakeU16(LE(2, v) + rest) == Got(v, rest)
  {
    BlockRoundTrip(LE(2, v), rest);
    FixedWidths(0, v, 0, 0);
  }

  lemma U32RoundTrip(v: u32, rest: bytes)
    ensures TakeU32(LE(4, v) + rest) == Got(v, rest)
  {
    BlockRoundTrip(LE(4, v), rest);
    FixedWidths(0, 0, v, 0);
  }

  lemma U64RoundTrip(v: u64, rest: bytes)
    ensures TakeU64(LE(8, v) + rest) == Got(v, rest)
  {
    BlockRoundTrip(LE(8, v), rest);
    FixedWidths(0, 0, 0, v);
  }

  lemma QidRoundTrip(q: Qid, rest: bytes)
    ensures TakeQid(QidBytes(q) + rest) == Got(q, rest)
  {
    var tail := LE(8, q.path) + rest;
    assert QidBytes(q) + rest == LE(1, q.kind) + (LE(4, q.version) + tail);
    U8RoundTrip(q.kind, LE(4, q.version) + tail);
    U32RoundTrip(q.version, tail);
    U64RoundTrip(q.path, rest);
  }

  lemma StrRoundTrip(s: bytes, rest: bytes)
    requires |s| <= MAX_U16
    ensures TakeStr(LE(2, |s|) + s + rest) == Got(s, rest)
  {
    hide TakeU16, TakeBlock, LE;
    assert LE(2, |s|) + s + rest == LE(2, |s|) + (s + rest);
    U16RoundTrip(|s|, s + rest);
    BlockRoundTrip(s, rest);
  }

  lemma LeafRoundTrip(l: Leaf, rest: bytes)
    requires EmitLeaf(l).ok
    ensures TakeLeaf(KindOf(l), EmitLeaf(l).bytes + rest) == Got(l, rest)
  {
    hide TakeU8, TakeU16, TakeU32, TakeU64, TakeStr, TakeQid, QidBytes, LE;
    match l
    case U8(b) => U8RoundTrip(b, rest);
    case U16(w) => U16RoundTrip(w, rest);
    case U32(d) => U32RoundTrip(d, rest);
    case U64(q) => U64RoundTrip(q, rest);
    case Str(s) => StrRoundTrip(s, rest);
    case Id(q) => QidRoundTrip(q, rest);
  }

  lemma {:induction false} LeavesRoundTrip(ls: seq<Leaf>, ks: seq<Kind>, k: nat, rest: bytes)
    requires HaveKinds(ls, ks) && k <= |ls| && EmitLeaves(ls, k).ok
    ensures TakeLeaves(ks, ls[..k], EmitLeaves(ls, k).bytes + rest) == Got(ls, rest)
    decreases |ls| - k
  {
    hide TakeLeaf, EmitLeaf, IsSuffix;
    if k == |ls| {
      assert ls[..k] == ls && EmitLeaves(ls, k).bytes + rest == rest;
    } else {
      var more := EmitLeaves(ls, k + 1).bytes + rest;
      assert EmitLeaves(ls, k).bytes + rest == EmitLeaf(ls[k]).bytes + more;
      LeafRoundTrip(ls[k], more);
      assert ls[..k] + [ls[k]] == ls[..k + 1];
      LeavesRoundTrip(ls, ks, k + 1, rest);
    }
  }

  /** The bytes of a stat with an arbitrary length in front. */
  function StatWithLength(len: u16, st: Stat): bytes {
    LE(2, len) + EmitLeaves(StatLeaves(st), 0).bytes
  }

  /** Whatever the length in front of it says, a stat reads back. */
  lemma StatReadsWithAnyLength(len: u16, st: Stat, rest: bytes)
    requires EmitLeaves(StatLeaves(st), 0).ok
    ensures TakeStat(StatWithLength(len, st) + rest) == Got(st, rest)
  {
    StatHasKinds(st);
    hide StatLeaves, StatKinds, TakeLeaves, EmitLeaves, TakeU16, LE;
    var ls := StatLeaves(st);
    var inner := EmitLeaves(ls, 0).bytes;
    assert StatWithLength(len, st) + rest == LE(2, len) + (inner + rest);
    U16RoundTrip(len, inner + rest);
    assert ls[..0] == [];
    LeavesRoundTrip(ls, StatKinds(), 0, rest);
    StatIsItsLeaves(st, StatOf(ls));
  }

  lemma StatHasKinds(st: Stat)
    ensures HaveKinds(StatLeaves(st), StatKinds())
  {
  }

  lemma StatRoundTrip(st: Stat, rest: bytes)
    requires EmitStat(st).ok
    ensures TakeStat(EmitStat(st).bytes + rest) == Got(st, rest)
  {
    hide EmitLeaves, TakeStat, LE;
    StatReadsWithAnyLength(|EmitLeaves(StatLeaves(st), 0).bytes|, st, rest);
  }

  lemma StatIsItsLeaves(a: Stat, b: Stat)
    requires StatLeaves(a) == StatLeaves(b)
    ensures a == b
  {
    var x, y := StatLeaves(a), StatLeaves(b);
    assert x[0] == y[0] && x[1] == y[1] && x[2] == y[2] && x[3] == y[3] && x[4] == y[4] && x[5] == y[5];
    assert x[6] == y[6] && x[7] == y[7] && x[8] == y[8] && x[9] == y[9] && x[10] == y[10];
  }

  lemma TailRoundTrip(t: Tail, k: TailKind, rest: bytes)
    requires TailHasKind(t, k) && EmitTail(t).ok
    ensures TakeTail(k, EmitTail(t).bytes + rest) == Got(t, rest)
  {
    hide TakeLeaves, EmitLeaves, TakeU16, TakeU32, TakeBlock, TakeStat, EmitStat, LE, IsSuffix;
    match t
    case NoTail => assert EmitTail(t).bytes + rest == rest;
    case List(kind, items) =>
      var all := EmitLeaves(items, 0).bytes;
      assert EmitTail(t).bytes + rest == LE(2, |items|) + (all + rest);
      U16RoundTrip(|items|, all + rest);
      assert items[..0] == [];
      LeavesRoundTrip(items, Repeat(|items|, kind), 0, rest);
    case Blob(data) =>
      assert EmitTail(t).bytes + rest == LE(4, |data|) + (data + rest);
      U32RoundTrip(|data|, data + rest);
      BlockRoundTrip(data, rest);
    case Record(st) => StatRoundTrip(st, rest);
  }

  lemma FormRoundTrip(ls: seq<Leaf>, t: Tail, ks: seq<Kind>, tk: TailKind, rest: bytes)
    requires HaveKinds(ls, ks) && TailHasKind(t, tk) && EmitForm(ls, t).ok
    ensures TakeForm(ks, tk, EmitForm(ls, t).bytes + rest) == Got((ls, t), rest)
  {
    hide TakeLeaves, EmitLeaves, TakeTail, EmitTail;
    var last := EmitTail(t).bytes + rest;
    assert EmitForm(ls, t).bytes + rest == EmitLeaves(ls, 0).bytes + last;
    assert ls[..0] == [];
    LeavesRoundTrip(ls, ks, 0, last);
    TailRoundTrip(t, tk, rest);
  }

  /** A run of leaves and then a stat, whatever length is in front of the stat. */
  lemma StatFormReads(ls: seq<Leaf>, ks: seq<Kind>, len: u16, st: Stat, rest: bytes)
    requires HaveKinds(ls, ks) && EmitLeaves(ls, 0).ok && EmitLeaves(StatLeaves(st), 0).ok
    ensures TakeForm(ks, KStat, EmitLeaves(ls, 0).bytes + StatWithLength(len, st) + rest)
         == Got((ls, Record(st)), rest)
  {
    hide EmitLeaves, StatLeaves, TakeLeaves, TakeStat, StatWithLength, HaveKinds;
    var head, last := EmitLeaves(ls, 0).bytes, StatWithLength(len, st);
    assert head + last + rest == head + (last + rest);
    assert ls[..0] == [];
    LeavesRoundTrip(ls, ks, 0, last + rest);
    StatReadsWithAnyLength(len, st, rest);
  }

  // What was read writes back to the bytes it was read from.

  lemma U8Canonical(u: bytes)
    requires TakeU8(u).Got?
    ensures u == LE(1, TakeU8(u).value) + TakeU8(u).rest
  {
    LEOfVal(u[..1]);
    assert u == u[..1] + u[1..];
  }

  lemma U16Canonical(u: bytes)
    requires TakeU16(u).Got?
    ensures u == LE(2, TakeU16(u).value) + TakeU16(u).rest
  {
    LEOfVal(u[..2]);
    assert u == u[..2] + u[2..];
  }

  lemma U32Canonical(u: bytes)
    requires TakeU32(u).Got?
    ensures u == LE(4, TakeU32(u).value) + TakeU32(u).rest
  {
    LEOfVal(u[..4]);
    assert u == u[..4] + u[4..];
  }

  lemma U64Canonical(u: bytes)
    requires TakeU64(u).Got?
    ensures u == LE(8, TakeU64(u).value) + TakeU64(u).rest
  {
    LEOfVal(u[..8]);
    assert u == u[..8] + u[8..];
  }

  /** A first part, then a second part, then a rest. */
  lemma Regroup(u: bytes, a: bytes, mid: bytes, b: bytes, rest: bytes)
    requires u == a + mid && mid == b + rest
    ensures u == (a + b) + rest
  {
  }

  lemma BlockCanonical(n: nat, u: bytes)
    requires TakeBlock(n, u).Got?
    ensures u == TakeBlock(n, u).value + TakeBlock(n, u).rest
  {
  }

  lemma StrCanonical(u: bytes)
    requires TakeStr(u).Got?
    ensures |TakeStr(u).value| <= MAX_U16
    ensures u == (LE(2, |TakeStr(u).value|) + TakeStr(u).value) + TakeStr(u).rest
  {
    hide TakeU16, TakeBlock, LE, IsSuffix;
    U16Canonical(u);
    var n := TakeU16(u);
    BlockCanonical(n.value, n.rest);
    Regroup(u, LE(2, n.value), n.rest, TakeStr(u).value, TakeStr(u).rest);
  }

  lemma QidCanonical(u: bytes)
    requires TakeQid(u).Got?
    ensures u == QidBytes(TakeQid(u).value) + TakeQid(u).rest
  {
    var k := TakeU8(u);
    var v := TakeU32(k.rest);
    var p := TakeU64(v.rest);
    U8Canonical(u);
    U32Canonical(k.rest);
    U64Canonical(v.rest);
    Regroup(u, LE(1, k.value), k.rest, LE(4, v.value), v.rest);
    Regroup(u, LE(1, k.value) + LE(4, v.value), v.rest, LE(8, p.value), p.rest);
  }

  lemma LeafCanonical(k: Kind, u: bytes)
    requires TakeLeaf(k, u).Got?
    ensures EmitLeaf(TakeLeaf(k, u).value).ok
    ensures u == EmitLeaf(TakeLeaf(k, u).value).bytes + TakeLeaf(k, u).rest
  {
    match k
    case KU8 => U8Canonical(u);
    case KU16 => U16Canonical(u);
    case KU32 => U32Canonical(u);
    case KU64 => U64Canonical(u);
    case KStr => StrCanonical(u);
    case KQid => QidCanonical(u);
  }

  lemma {:induction false} LeavesCanonical(ks: seq<Kind>, done: seq<Leaf>, u: bytes)
    requires |done| <= |ks| && TakeLeaves(ks, done, u).Got?
    ensures EmitLeaves(TakeLeaves(ks, done, u).value, |done|).ok
    ensures u == EmitLeaves(TakeLeaves(ks, done, u).value, |done|).bytes + TakeLeaves(ks, done, u).rest
    decreases |ks| - |done|
  {
    var all := TakeLeaves(ks, done, u);
    if |done| < |ks| {
      var one := TakeLeaf(ks[|done|], u);
      LeafCanonical(ks[|done|], u);
      assert all == TakeLeaves(ks, done + [one.value], one.rest);
      LeavesCanonical(ks, done + [one.value], one.rest);
      assert all.value[|done|] == one.value;
      Regroup(u, EmitLeaf(one.value).bytes, one.rest, EmitLeaves(all.value, |done| + 1).bytes, all.rest);
    } else {
      assert u == [] + u;
    }
  }

  lemma StatCanonical(u: bytes)
    requires TakeStat(u).Got?
    ensures EmitLeaves(StatLeaves(TakeStat(u).value), 0).ok
    ensures |u| >= 2
    ensures u == StatWithLength(U16Of(u[..2]), TakeStat(u).value) + TakeStat(u).rest
  {
    U16Canonical(u);
    var n := TakeU16(u);
    LeavesCanonical(StatKinds(), [], n.rest);
    var st := TakeStat(u);
    Regroup(u, LE(2, n.value), n.rest, EmitLeaves(StatLeaves(st.value), 0).bytes, st.rest);
  }

  lemma ListCanonical(kind: Kind, u: bytes)
    requires TakeTail(KList(kind), u).Got?
    ensures EmitTail(TakeTail(KList(kind), u).value).ok
    ensures u == EmitTail(TakeTail(KList(kind), u).value).bytes + TakeTail(KList(kind), u).rest
  {
    hide TakeU16, TakeLeaves, EmitLeaves, LE, IsSuffix;
    U16Canonical(u);
    var n := TakeU16(u);
    var ls := TakeLeaves(Repeat(n.value, kind), [], n.rest);
    LeavesCanonical(Repeat(n.value, kind), [], n.rest);
    Regroup(u, LE(2, n.value), n.rest, EmitLeaves(ls.value, 0).bytes, ls.rest);
  }

  lemma BlobCanonical(u: bytes)
    requires TakeTail(KBlob, u).Got?
    ensures EmitTail(TakeTail(KBlob, u).value).ok
    ensures u == EmitTail(TakeTail(KBlob, u).value).bytes + TakeTail(KBlob, u).rest
  {
    hide TakeU32, TakeBlock, LE, IsSuffix;
    U32Canonical(u);
    var n := TakeU32(u);
    BlockCanonical(n.value, n.rest);
    var data := TakeBlock(n.value, n.rest);
    Regroup(u, LE(4, n.value), n.rest, data.value, data.rest);
  }

  lemma TailCanonical(k: TailKind, u: bytes)
    requires TakeTail(k, u).Got? && k != KStat
    ensures EmitTail(TakeTail(k, u).value).ok
    ensures u == EmitTail(TakeTail(k, u).value).bytes + TakeTail(k, u).rest
  {
    match k
    case KNone =>
    case KList(kind) => ListCanonical(kind, u);
    case KBlob => BlobCanonical(u);
    case KStat =>
  }

  lemma FormCanonical(ks: seq<Kind>, tk: TailKind, u: bytes)
    requires TakeForm(ks, tk, u).Got? && tk != KStat
    ensures var f := TakeForm(ks, tk, u);
            EmitForm(f.value.0, f.value.1).ok && u == EmitForm(f.value.0, f.value.1).bytes + f.rest
  {
    LeavesCanonical(ks, [], u);
    var ls := TakeLeaves(ks, [], u);
    TailCanonical(tk, ls.rest);
    var t := TakeTail(tk, ls.rest);
    Regroup(u, EmitLeaves(ls.value, 0).bytes, ls.rest, EmitTail(t.value).bytes, t.rest);
  }

  /** Whatever the leaves, a stat at the end is read where the leaves' encoding stops. */
  lemma StatAtEnd(ks: seq<Kind>, u: bytes)
    requires TakeForm(ks, KStat, u).Got?
    ensures var f := TakeForm(ks, KStat, u); var head := EmitLeaves(f.value.0, 0).bytes;
            head <= u && f.value.1.Record? && TakeStat(u[|head|..]) == Got(f.value.1.stat, f.rest)
  {
    hide TakeLeaves, EmitLeaves, TakeStat;
    LeavesCanonical(ks, [], u);
    var ls := TakeLeaves(ks, [], u);
    assert ls.rest == u[|EmitLeaves(ls.value, 0).bytes|..];
  }

  // Exactly when a writer succeeds, and how long its output is.

  predicate LeafFits(l: Leaf) {
    l.Str? ==> |l.s| <= MAX_U16
  }

  function LeafSize(l: Leaf): nat {
    match l
    case U8(_) => 1
    case U16(_) => 2
    case U32(_) => 4
    case U64(_) => 8
    case Str(s) => 2 + |s|
    case Id(_) => 13
  }

  function LeavesSize(ls: seq<Leaf>, k: nat): nat
    requires k <= |ls|
    decreases |ls| - k
  {
    if k == |ls| then 0 else LeafSize(ls[k]) + LeavesSize(ls, k + 1)
  }

  lemma {:induction false} LeavesSucceed(ls: seq<Leaf>, k: nat)
    requires k <= |ls|
    ensures EmitLeaves(ls, k).ok <==> forall i :: k <= i < |ls| ==> LeafFits(ls[i])
    ensures EmitLeaves(ls, k).ok ==> |EmitLeaves(ls, k).bytes| == LeavesSize(ls, k)
    decreases |ls| - k
  {
    if k < |ls| { LeavesSucceed(ls, k + 1); }
  }

  /** A run that meets its first unfit leaf at i has written the leaves before i and nothing else. */
  lemma {:induction false} FirstUnfit(ls: seq<Leaf>, k: nat, i: nat)
    requires k <= i < |ls| && !LeafFits(ls[i])
    requires forall j :: k <= j < i ==> LeafFits(ls[j])
    ensures !EmitLeaves(ls, k).ok
    ensures EmitLeaves(ls[..i], k).ok && EmitLeaves(ls, k).bytes == EmitLeaves(ls[..i], k).bytes
    decreases i - k
  {
    if k < i { FirstUnfit(ls, k + 1, i); }
  }

  predicate TailFits(t: Tail) {
    match t
    case NoTail => true
    case List(_, items) => |items| <= MAX_U16 && forall i :: 0 <= i < |items| ==> LeafFits(items[i])
    case Blob(data) => |data| <= MAX_U32
    case Record(st) => |st.name| + |st.uid| + |st.gid| + |st.muid| <= 65488
  }

  function TailSize(t: Tail): nat {
    match t
    case NoTail => 0
    case List(_, items) => 2 + LeavesSize(items, 0)
    case Blob(data) => 4 + |data|
    case Record(st) => 49 + |st.name| + |st.uid| + |st.gid| + |st.muid|
  }

  lemma StatInnerSize(st: Stat)
    ensures LeavesSize(StatLeaves(st), 0) == 47 + |st.name| + |st.uid| + |st.gid| + |st.muid|
  {
    var ls := StatLeaves(st);
    assert LeavesSize(ls, 11) == 0;
    assert LeavesSize(ls, 9) == LeafSize(ls[9]) + LeafSize(ls[10]);
    assert LeavesSize(ls, 7) == LeafSize(ls[7]) + LeafSize(ls[8]) + LeavesSize(ls, 9);
    assert LeavesSize(ls, 5) == LeafSize(ls[5]) + LeafSize(ls[6]) + LeavesSize(ls, 7);
    assert LeavesSize(ls, 3) == LeafSize(ls[3]) + LeafSize(ls[4]) + LeavesSize(ls, 5);
    assert LeavesSize(ls, 1) == LeafSize(ls[1]) + LeafSize(ls[2]) + LeavesSize(ls, 3);
  }

  /** The fields of a stat can be written one by one exactly if each string fits its own count. */
  lemma StatLeavesFit(st: Stat)
    ensures EmitLeaves(StatLeaves(st), 0).ok
       <==> |st.name| <= MAX_U16 && |st.uid| <= MAX_U16 && |st.gid| <= MAX_U16 && |st.muid| <= MAX_U16
  {
    hide EmitLeaves, LeavesSize;
    var ls := StatLeaves(st);
    LeavesSucceed(ls, 0);
    assert ls[7] == Str(st.name) && ls[8] == Str(st.uid) && ls[9] == Str(st.gid) && ls[10] == Str(st.muid);
    assert forall i :: 0 <= i < 7 ==> !ls[i].Str?;
  }

  /**
    * A stat is all or nothing: its four string lengths share one bound, the
    * prefix counts the inner bytes, and a stat that does not fit writes nothing.
    */
  lemma StatIsAllOrNothing(st: Stat)
    ensures EmitStat(st).ok <==> |st.name| + |st.uid| + |st.gid| + |st.muid| <= 65488
    ensures EmitStat(st).ok ==>
              && |EmitStat(st).bytes| == 49 + |st.name| + |st.uid| + |st.gid| + |st.muid|
              && Val(EmitStat(st).bytes[..2]) == |EmitStat(st).bytes| - 2
    ensures !EmitStat(st).ok ==> EmitStat(st).bytes == []
  {
    var ls := StatLeaves(st);
    LeavesSucceed(ls, 0);
    StatInnerSize(st);
    if |st.name| + |st.uid| + |st.gid| + |st.muid| <= 65488 {
      assert forall i :: 0 <= i < |ls| ==> LeafFits(ls[i]);
      FixedWidths(0, |EmitLeaves(ls, 0).bytes|, 0, 0);
      assert EmitStat(st).bytes[..2] == LE(2, |EmitLeaves(ls, 0).bytes|);
    }
  }

  lemma TailSucceeds(t: Tail)
    ensures EmitTail(t).ok <==> TailFits(t)
    ensures EmitTail(t).ok ==> |EmitTail(t).bytes| == TailSize(t)
  {
    match t
    case NoTail =>
    case List(_, items) => LeavesSucceed(items, 0);
    case Blob(_) =>
    case Record(st) => StatIsAllOrNothing(st);
  }

  lemma FormSucceeds(ls: seq<Leaf>, t: Tail)
    ensures EmitForm(ls, t).ok <==> (forall i :: 0 <= i < |ls| ==> LeafFits(ls[i])) && TailFits(t)
    ensures EmitForm(ls, t).ok ==> |EmitForm(ls, t).bytes| == LeavesSize(ls, 0) + TailSize(t)
  {
    LeavesSucceed(ls, 0);
    TailSucceeds(t);
  }
}
