/**
  * Decoding as bytes keep arriving: what has been decoded stays decoded, what was rejected stays
  * rejected, and what ran short is exactly what more bytes can still complete.
  */
module Extensions {
  import opened LittleEndian
  import opened Operations
  import opened Wire
  import opened Messages

  /** With x behind the input, the same value is read and x is behind what is left. */
  ghost predicate Extends<T(!new)>(d: Parsed<T>, e: Parsed<T>, x: bytes) {
    d.Got? ==> e == Got(d.value, d.rest + x)
  }

  lemma BlockExtends(n: nat, u: bytes, x: bytes)
    ensures Extends(TakeBlock(n, u), TakeBlock(n, u + x), x)
  {
    if n <= |u| {
      assert (u + x)[..n] == u[..n];
      assert (u + x)[n..] == u[n..] + x;
    }
  }

  lemma StrExtends(u: bytes, x: bytes)
    ensures Extends(TakeStr(u), TakeStr(u + x), x)
  {
    hide TakeBlock;
    BlockExtends(2, u, x);
    if TakeU16(u).Got? { BlockExtends(TakeU16(u).value, TakeU16(u).rest, x); }
  }

  lemma QidExtends(u: bytes, x: bytes)
    ensures Extends(TakeQid(u), TakeQid(u + x), x)
  {
    hide TakeBlock;
    BlockExtends(1, u, x);
    if TakeU8(u).Got? {
      var r1 := TakeU8(u).rest;
      BlockExtends(4, r1, x);
      if TakeU32(r1).Got? { BlockExtends(8, TakeU32(r1).rest, x); }
    }
  }

  lemma LeafExtends(k: Kind, u: bytes, x: bytes)
    ensures Extends(TakeLeaf(k, u), TakeLeaf(k, u + x), x)
  {
    BlockExtends(1, u, x);
    BlockExtends(2, u, x);
    BlockExtends(4, u, x);
    BlockExtends(8, u, x);
    StrExtends(u, x);
    QidExtends(u, x);
    hide TakeBlock, TakeStr, TakeQid;
  }

  lemma {:induction false} LeavesExtend(ks: seq<Kind>, done: seq<Leaf>, u: bytes, x: bytes)
    requires |done| <= |ks|
    ensures Extends(TakeLeaves(ks, done, u), TakeLeaves(ks, done, u + x), x)
    decreases |ks| - |done|
  {
    hide TakeLeaf;
    if |done| < |ks| {
      LeafExtends(ks[|done|], u, x);
      var one := TakeLeaf(ks[|done|], u);
      if one.Got? { LeavesExtend(ks, done + [one.value], one.rest, x); }
    }
  }

  lemma TailExtends(k: TailKind, u: bytes, x: bytes)
    ensures Extends(TakeTail(k, u), TakeTail(k, u + x), x)
  {
    hide TakeBlock, TakeLeaves;
    match k
    case KNone =>
    case KList(kind) =>
      BlockExtends(2, u, x);
      if TakeU16(u).Got? { LeavesExtend(Repeat(TakeU16(u).value, kind), [], TakeU16(u).rest, x); }
    case KBlob =>
      BlockExtends(4, u, x);
      if TakeU32(u).Got? { BlockExtends(TakeU32(u).value, TakeU32(u).rest, x); }
    case KStat =>
      BlockExtends(2, u, x);
      if TakeU16(u).Got? { LeavesExtend(StatKinds(), [], TakeU16(u).rest, x); }
  }

  lemma FormExtends(ks: seq<Kind>, tk: TailKind, u: bytes, x: bytes)
    ensures Extends(TakeForm(ks, tk, u), TakeForm(ks, tk, u + x), x)
  {
    hide TakeLeaves, TakeTail;
    LeavesExtend(ks, [], u, x);
    if TakeLeaves(ks, [], u).Got? { TailExtends(tk, TakeLeaves(ks, [], u).rest, x); }
  }

  lemma MessageExtends(c: Concept, dir: Direction, u: bytes, x: bytes)
    requires c != Undefined
    ensures Extends(TakeMessage(c, dir, u), TakeMessage(c, dir, u + x), x)
  {
    hide TakeForm, MessageKinds, TailKindOf, Build;
    FormExtends(MessageKinds(c, dir), TailKindOf(c, dir), u, x);
  }

  /** For every type, more input changes neither what was decoded nor what was rejected. */
  lemma DispatchExtends(u: bytes, x: bytes)
    ensures Dispatch(u).Decoded? ==> Dispatch(u + x) == Decoded(Dispatch(u).message, Dispatch(u).rest + x)
    ensures Dispatch(u).Rejected? && u != [] ==> Dispatch(u + x).Rejected?
  {
    hide TakeMessage, Convert;
    if u != [] && Convert(u[0]) != Undefined {
      assert (u + x)[0] == u[0];
      MessageExtends(Convert(u[0]), ParityDirection(u[0]), u, x);
    }
  }

  // More input can always complete what ran short.

  function Zeros(n: nat): (x: bytes)
    ensures |x| == n
  {
    seq(n, _ => 0)
  }

  lemma BlockCompletes(n: nat, u: bytes) returns (x: bytes)
    ensures TakeBlock(n, u + x).Got?
  {
    x := Zeros(n);
  }

  lemma StrCompletes(u: bytes) returns (x: bytes)
    ensures TakeStr(u + x).Got?
  {
    hide TakeBlock;
    var a := BlockCompletes(2, u);
    var n := TakeU16(u + a);
    var b := BlockCompletes(n.value, n.rest);
    x := a + b;
    BlockExtends(2, u + a, b);
    assert u + x == (u + a) + b;
  }

  lemma QidCompletes(u: bytes) returns (x: bytes)
    ensures TakeQid(u + x).Got?
  {
    x := Zeros(13);
  }

  lemma LeafCompletes(k: Kind, u: bytes) returns (x: bytes)
    ensures TakeLeaf(k, u + x).Got?
  {
    match k
    case KU8 => x := BlockCompletes(1, u);
    case KU16 => x := BlockCompletes(2, u);
    case KU32 => x := BlockCompletes(4, u);
    case KU64 => x := BlockCompletes(8, u);
    case KStr => x := StrCompletes(u);
    case KQid => x := QidCompletes(u);
  }

  lemma {:induction false} LeavesComplete(ks: seq<Kind>, done: seq<Leaf>, u: bytes) returns (x: bytes)
    requires |done| <= |ks|
    ensures TakeLeaves(ks, done, u + x).Got?
    decreases |ks| - |done|
  {
    hide TakeLeaf, IsSuffix;
    if |done| == |ks| {
      x := [];
    } else {
      var a := LeafCompletes(ks[|done|], u);
      var one := TakeLeaf(ks[|done|], u + a);
      var b := LeavesComplete(ks, done + [one.value], one.rest);
      x := a + b;
      LeafExtends(ks[|done|], u + a, b);
      assert u + x == (u + a) + b;
      assert TakeLeaf(ks[|done|], u + x) == Got(one.value, one.rest + b);
    }
  }

  lemma TailCompletes(k: TailKind, u: bytes) returns (x: bytes)
    ensures TakeTail(k, u + x).Got?
  {
    hide TakeBlock, TakeLeaves;
    match k
    case KNone => x := [];
    case KList(kind) =>
      var a := BlockCompletes(2, u);
      var n := TakeU16(u + a);
      var b := LeavesComplete(Repeat(n.value, kind), [], n.rest);
      x := a + b;
      BlockExtends(2, u + a, b);
      assert u + x == (u + a) + b;
    case KBlob =>
      var a := BlockCompletes(4, u);
      var n := TakeU32(u + a);
      var b := BlockCompletes(n.value, n.rest);
      x := a + b;
      BlockExtends(4, u + a, b);
      assert u + x == (u + a) + b;
    case KStat =>
      var a := BlockCompletes(2, u);
      var b := LeavesComplete(StatKinds(), [], TakeU16(u + a).rest);
      x := a + b;
      BlockExtends(2, u + a, b);
      assert u + x == (u + a) + b;
  }

  lemma FormCompletes(ks: seq<Kind>, tk: TailKind, u: bytes) returns (x: bytes)
    ensures TakeForm(ks, tk, u + x).Got?
  {
    hide TakeLeaves, TakeTail;
    var a := LeavesComplete(ks, [], u);
    var ls := TakeLeaves(ks, [], u + a);
    var b := TailCompletes(tk, ls.rest);
    x := a + b;
    LeavesExtend(ks, [], u + a, b);
    assert u + x == (u + a) + b;
  }

  lemma DispatchCompletes(u: bytes) returns (x: bytes)
    requires u != [] && Convert(u[0]) != Undefined
    ensures Dispatch(u + x).Decoded?
  {
    hide TakeForm, MessageKinds, TailKindOf, Build, Convert;
    var c, dir := Convert(u[0]), ParityDirection(u[0]);
    x := FormCompletes(MessageKinds(c, dir), TailKindOf(c, dir), u);
    assert (u + x)[0] == u[0];
  }

  ghost predicate NoPrefixDecodes(u: bytes) {
    forall k :: 0 <= k <= |u| ==> !Dispatch(u[..k]).Decoded?
  }

  /**
    * Input runs short exactly when it begins with an operation code and no part of it is a complete
    * message.
    */
  lemma UnderflowMeaning(u: bytes)
    ensures Dispatch(u).Underflow? <==> u != [] && 100 <= u[0] <= 127 && NoPrefixDecodes(u)
  {
    if u != [] { CodeIsConceptAndParity(u[0]); }
    if Dispatch(u).Underflow? {
      forall k | 0 <= k <= |u| ensures !Dispatch(u[..k]).Decoded? {
        DispatchExtends(u[..k], u[k..]);
        assert u[..k] + u[k..] == u;
      }
    }
    assert u[..|u|] == u;
  }

  /** And such input can always still become a message. */
  lemma UnderflowCompletes(u: bytes) returns (x: bytes)
    requires Dispatch(u).Underflow?
    ensures x != [] && Dispatch(u + x).Decoded?
  {
    hide TakeMessage, Convert;
    x := DispatchCompletes(u);
    assert u + [] == u;
  }
}
