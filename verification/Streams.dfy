/**
  * The message stream (MessageStream.h, MessageStream.cc): an in-memory buffer
  * with a read position, a write position and the condition of the underlying
  * string stream.
  *
  * `good` is false once an input operation has run into the end of the buffer.
  * Output on a stream that is not good is silently dropped.  A stream that is not
  * good always has its end-of-file flag set, since nothing else can fail here.
  */
module Streams {
  import opened Bits
  import opened LittleEndian
  import opened Wire

  datatype Failure = TooLong | UndefinedMessage | ShortInput | CannotDeduce | IllegalType | TransportFailed

  datatype Option<+T> = None | Some(value: T)

  /** A call that returns nothing, or throws. */
  datatype Outcome = Done | Threw(why: Failure) {
    predicate IsFailure() { Threw? }

    function PropagateFailure(): Outcome
      requires IsFailure()
    {
      this
    }
  }

  /** A call that returns a value, or throws. */
  datatype Result<+T> = Value(value: T) | Thrown(why: Failure) {
    predicate IsFailure() { Thrown? }

    function PropagateFailure<U>(): Result<U>
      requires IsFailure()
    {
      Thrown(why)
    }

    function Extract(): T
      requires !IsFailure()
    {
      value
    }
  }

  datatype StreamState = StreamState(buf: bytes, rpos: nat, wpos: nat, good: bool) {
    predicate Valid() { rpos <= |buf| && wpos <= |buf| }

    /** The bytes that input operations can still deliver. */
    function Unread(): bytes
      requires Valid()
    {
      if good then buf[rpos..] else []
    }

    /** Output of bs: it lands at the write position, over what is there and then past the end. */
    function Store(bs: bytes): (st: StreamState)
      requires Valid()
      ensures st.Valid() && st.rpos == rpos && st.good == good
    {
      if good then this.(buf := Overlay(buf, wpos, bs), wpos := wpos + |bs|) else this
    }

    /** Input that left `rest` unread, or that ran into the end. */
    function After<T>(d: Parsed<T>): (st: StreamState)
      requires Valid() && (d.Got? ==> IsSuffix(d.rest, Unread()))
      ensures st.Valid() && st.buf == buf && st.wpos == wpos
      ensures d.Got? ==> st.good == good && st.Unread() == d.rest
    {
      match d
      case Got(_, rest) => this.(rpos := rpos + |Unread()| - |rest|)
      case Short => if good then this.(rpos := |buf|, good := false) else this
    }

    /** Nothing of the buffer lies beyond the write position, so output appends. */
    predicate AtEnd() { wpos == |buf| }
  }

  const EMPTY := StreamState([], 0, 0, true)

  function Overlay(buf: bytes, at: nat, bs: bytes): (r: bytes)
    requires at <= |buf|
    ensures |r| >= |buf| && |r| >= at + |bs|
  {
    buf[..at] + bs + (if at + |bs| <= |buf| then buf[at + |bs|..] else [])
  }

  lemma OverlayTwice(buf: bytes, at: nat, a: bytes, b: bytes)
    requires at <= |buf|
    ensures Overlay(Overlay(buf, at, a), at + |a|, b) == Overlay(buf, at, a + b)
  {
    var once := Overlay(buf, at, a);
    assert once[..at + |a|] == buf[..at] + a;
    assert buf[..at] + (a + b) == buf[..at] + a + b;
    if at + |a| + |b| <= |buf| {
      assert once[at + |a| + |b|..] == buf[at + |a| + |b|..];
    }
  }

  /** Two outputs in a row are one output of their concatenation. */
  lemma StoreStore(st: StreamState, a: bytes, b: bytes)
    requires st.Valid()
    ensures st.Store(a).Store(b) == st.Store(a + b)
  {
    if st.good { OverlayTwice(st.buf, st.wpos, a, b); }
  }

  lemma StoreNothing(st: StreamState)
    requires st.Valid()
    ensures st.Store([]) == st
  {
    if st.good { assert Overlay(st.buf, st.wpos, []) == st.buf; }
  }

  /**
    * Output byte by byte: it replaces what lies from the write position on, goes past the end if it has
    * to, and moves nothing else.  A stream that is not good ignores it.
    */
  lemma StoreMeaning(st: StreamState, bs: bytes)
    requires st.Valid()
    ensures !st.good ==> st.Store(bs) == st
    ensures st.good ==>
              var out, end := st.Store(bs), st.wpos + |bs|;
              && out.good && out.rpos == st.rpos && out.wpos == end
              && |out.buf| == (if end <= |st.buf| then |st.buf| else end)
              && forall i :: 0 <= i < |out.buf| ==>
                   out.buf[i] == if st.wpos <= i < end then bs[i - st.wpos] else st.buf[i]
  {
  }

  /** On a good stream whose write position is at the end, output appends and can all be read back. */
  lemma StoreAppends(st: StreamState, bs: bytes)
    requires st.Valid() && st.good && st.AtEnd()
    ensures st.Store(bs).buf == st.buf + bs && st.Store(bs).AtEnd()
    ensures st.Store(bs).Unread() == st.Unread() + bs
  {
    assert st.buf[..st.wpos] == st.buf;
  }

  /** Output never reaches back before the write position. */
  lemma StoreKeepsPrefix(st: StreamState, bs: bytes)
    requires st.Valid()
    ensures |st.Store(bs).buf| >= |st.buf| && st.Store(bs).buf[..st.wpos] == st.buf[..st.wpos]
  {
  }

  lemma AfterAfter<T, U>(st: StreamState, d: Parsed<T>, e: Parsed<U>)
    requires st.Valid() && d.Got? && IsSuffix(d.rest, st.Unread())
    requires e.Got? ==> IsSuffix(e.rest, d.rest)
    ensures e.Got? ==> IsSuffix(e.rest, st.Unread())
    ensures (e.Got? || st.good) ==> st.After(d).After(e) == st.After(e)
  {
    if e.Got? { SuffixOfSuffix(e.rest, d.rest, st.Unread()); }
  }

  /** Only what is left matters to the stream, not what was read. */
  lemma AfterSame<T, U>(st: StreamState, d: Parsed<T>, e: Parsed<U>)
    requires st.Valid() && d.Got? && e.Got? && d.rest == e.rest && IsSuffix(d.rest, st.Unread())
    ensures st.After(d) == st.After(e)
  {
  }

  lemma SuffixOfSuffix(a: bytes, b: bytes, c: bytes)
    requires IsSuffix(a, b) && IsSuffix(b, c)
    ensures IsSuffix(a, c)
  {
    assert c[|c| - |a|..] == c[|c| - |b|..][|b| - |a|..];
  }

  // A run of leaves, written or read one at a time.

  datatype Progress = Progress(st: StreamState, ok: bool)

  /** The stream after writing leaves k, k+1, ... up to the first that throws. */
  function StoreLeaves(st: StreamState, ls: seq<Leaf>, k: nat): Progress
    requires st.Valid() && k <= |ls|
    decreases |ls| - k
  {
    if k == |ls| then Progress(st, true)
    else
      var e := EmitLeaf(ls[k]);
      if e.ok then StoreLeaves(st.Store(e.bytes), ls, k + 1) else Progress(st.Store(e.bytes), false)
  }

  lemma {:induction false} StoreLeavesIsEmit(st: StreamState, ls: seq<Leaf>, k: nat)
    requires st.Valid() && k <= |ls|
    ensures StoreLeaves(st, ls, k) == Progress(st.Store(EmitLeaves(ls, k).bytes), EmitLeaves(ls, k).ok)
    decreases |ls| - k
  {
    if k == |ls| {
      StoreNothing(st);
    } else {
      var e := EmitLeaf(ls[k]);
      if e.ok {
        StoreLeavesIsEmit(st.Store(e.bytes), ls, k + 1);
        StoreStore(st, e.bytes, EmitLeaves(ls, k + 1).bytes);
      }
    }
  }

  /** Where a writer of ls stands at st, having started at st0 and written the leaves before k. */
  ghost predicate Writing(st0: StreamState, st: StreamState, ls: seq<Leaf>, k: nat) {
    && st0.Valid() && st.Valid() && k <= |ls|
    && StoreLeaves(st, ls, k) == StoreLeaves(st0, ls, 0)
  }

  /** One leaf further, or thrown: then the whole run has thrown right here. */
  lemma WriteOne(st0: StreamState, st: StreamState, ls: seq<Leaf>, k: nat)
    requires Writing(st0, st, ls, k) && k < |ls|
    ensures var e := EmitLeaf(ls[k]);
            && (e.ok ==> Writing(st0, st.Store(e.bytes), ls, k + 1))
            && (!e.ok ==> st.Store(e.bytes) == st0.Store(EmitLeaves(ls, 0).bytes) && !EmitLeaves(ls, 0).ok)
  {
    StoreLeavesIsEmit(st0, ls, 0);
  }

  lemma WroteAll(st0: StreamState, st: StreamState, ls: seq<Leaf>)
    requires Writing(st0, st, ls, |ls|)
    ensures st == st0.Store(EmitLeaves(ls, 0).bytes) && EmitLeaves(ls, 0).ok
  {
    StoreLeavesIsEmit(st0, ls, 0);
  }

  lemma StartWriting(st: StreamState, ls: seq<Leaf>)
    requires st.Valid()
    ensures Writing(st, st, ls, 0)
  {
  }

  function Snoc(done: seq<Leaf>, l: Leaf): (r: seq<Leaf>)
    ensures |r| == |done| + 1
  {
    done + [l]
  }

  /** Where a reader of ks stands at st, having started at st0 and read `done`. */
  ghost predicate Reading(st0: StreamState, st: StreamState, ks: seq<Kind>, done: seq<Leaf>) {
    && st0.Valid() && st.Valid() && |done| <= |ks|
    && st.buf == st0.buf && st.wpos == st0.wpos && st.good == st0.good
    && IsSuffix(st.Unread(), st0.Unread()) && st == st0.After(Got((), st.Unread()))
    && TakeLeaves(ks, done, st.Unread()) == TakeLeaves(ks, [], st0.Unread())
    && (done == [] ==> st == st0) && (done != [] ==> st0.good)
  }

  /** A reader of ks that started at st0 has run into the end. */
  ghost predicate RanShort(st0: StreamState, st: StreamState, ks: seq<Kind>) {
    && st0.Valid() && TakeLeaves(ks, [], st0.Unread()).Short?
    && st == st0.After(TakeLeaves(ks, [], st0.Unread()))
  }

  /** One leaf further, or short: then the whole run is short and the stream is drained. */
  lemma ReadOne(st0: StreamState, st: StreamState, ks: seq<Kind>, done: seq<Leaf>)
    requires Reading(st0, st, ks, done) && |done| < |ks|
    ensures var d := TakeLeaf(ks[|done|], st.Unread());
            && (d.Got? ==> Reading(st0, st.After(d), ks, Snoc(done, d.value)))
            && (d.Short? ==> RanShort(st0, st.After(d), ks))
  {
    hide TakeLeaf, IsSuffix;
    var d := TakeLeaf(ks[|done|], st.Unread());
    if d.Got? {
      AfterAfter(st0, Got((), st.Unread()), d);
      LeafNeedsInput(ks[|done|], st.Unread());
    }
  }

  lemma StartReading(st: StreamState, ks: seq<Kind>)
    requires st.Valid()
    ensures Reading(st, st, ks, [])
  {
  }

  lemma ReadAll(st0: StreamState, st: StreamState, ks: seq<Kind>, done: seq<Leaf>)
    requires Reading(st0, st, ks, done) && |done| == |ks|
    ensures TakeLeaves(ks, [], st0.Unread()) == Got(done, st.Unread())
    ensures st == st0.After(TakeLeaves(ks, [], st0.Unread()))
  {
    hide IsSuffix, StreamState.Unread, StreamState.After, TakeLeaf;
    assert TakeLeaves(ks, done, st.Unread()) == Got(done, st.Unread());
    AfterSame(st0, Got((), st.Unread()), TakeLeaves(ks, [], st0.Unread()));
  }

  lemma LeafNeedsInput(k: Kind, u: bytes)
    requires TakeLeaf(k, u).Got?
    ensures u != []
  {
  }

  lemma GoodIfUnread(st: StreamState)
    requires st.Valid() && st.Unread() != []
    ensures st.good
  {
  }

  // Chunks.

  /** `read`: at most n bytes, and the stream is good afterwards whatever it was before. */
  function ReadChunk(st: StreamState, n: nat): (r: (bytes, StreamState))
    requires st.Valid()
    ensures r.1.Valid()
  {
    if !st.good then ([], st.(good := true))
    else
      var k := if n <= |st.Unread()| then n else |st.Unread()|;
      (st.Unread()[..k], st.(rpos := st.rpos + k))
  }

  function ReadChunks(st: StreamState, ns: seq<nat>): (r: (bytes, StreamState))
    requires st.Valid()
    ensures r.1.Valid()
    decreases |ns|
  {
    if ns == [] then ([], st)
    else
      var (first, st1) := ReadChunk(st, ns[0]);
      var (more, st2) := ReadChunks(st1, ns[1..]);
      (first + more, st2)
  }

  function Sum(ns: seq<nat>): nat {
    if ns == [] then 0 else ns[0] + Sum(ns[1..])
  }

  /** However the reads are cut up, they deliver the unread bytes in order and leave the stream good. */
  lemma {:induction false} ChunksDeliverInOrder(st: StreamState, ns: seq<nat>)
    requires st.Valid() && st.good
    ensures var (got, end) := ReadChunks(st, ns);
            var total := if Sum(ns) <= |st.Unread()| then Sum(ns) else |st.Unread()|;
            got == st.Unread()[..total] && end == st.(rpos := st.rpos + total)
    decreases |ns|
  {
    if ns != [] {
      OneChunk(st, ns[0]);
      hide ReadChunk, StreamState.Unread;
      var (first, st1) := ReadChunk(st, ns[0]);
      var u, k := st.Unread(), |first|;
      ChunksDeliverInOrder(st1, ns[1..]);
      var more := if Sum(ns[1..]) <= |u| - k then Sum(ns[1..]) else |u| - k;
      TakeInTwo(u, k, more);
    }
  }

  lemma OneChunk(st: StreamState, n: nat)
    requires st.Valid() && st.good
    ensures var (first, st1) := ReadChunk(st, n); var k := if n <= |st.Unread()| then n else |st.Unread()|;
            && first == st.Unread()[..k] && |first| == k
            && st1 == st.(rpos := st.rpos + k) && st1.Unread() == st.Unread()[k..]
  {
  }

  lemma TakeInTwo(u: bytes, k: nat, more: nat)
    requires k + more <= |u|
    ensures u[..k] + u[k..][..more] == u[..k + more]
  {
  }

  /**
    * `peek`, as written: the byte is compared with the end-of-file flag, not with
    * the end-of-file value, so a zero byte reads as nothing and the end as 255.
    * Looking at the end also marks the stream as no longer good.
    */
  function Peek(st: StreamState): (r: (Option<u8>, StreamState))
    requires st.Valid()
    ensures r.1.Valid()
  {
    if st.Unread() == [] then (Some(0xFF), st.(good := false))
    else if st.Unread()[0] == 0 then (None, st)
    else (Some(st.Unread()[0]), st)
  }

  /**
    * What `peek` tells: exactly for a next byte other than zero, the byte that a `read` of one would
    * deliver.  It moves nothing, and marks the stream exactly if nothing was left.
    */
  lemma PeekMeaning(st: StreamState)
    requires st.Valid()
    ensures Peek(st).1 == st.(good := st.Unread() != [])
    ensures Peek(st).0.None? <==> st.good && ReadChunk(st, 1).0 == [0]
    ensures st.Unread() == [] ==> Peek(st).0 == Some(255)
    ensures st.Unread() != [] && Peek(st).0.Some? ==> [Peek(st).0.value] == ReadChunk(st, 1).0
  {
    if st.Unread() != [] { assert st.Unread()[..1] == [st.Unread()[0]]; }
  }

  class MessageStream {
    var buf: bytes
    var rpos: nat
    var wpos: nat
    var good: bool

    ghost predicate Valid()
      reads this
    {
      rpos <= |buf| && wpos <= |buf|
    }

    ghost function State(): (st: StreamState)
      reads this
      requires Valid()
      ensures st.Valid()
    {
      StreamState(buf, rpos, wpos, good)
    }

    constructor ()
      ensures Valid() && State() == EMPTY
    {
      buf, rpos, wpos, good := [], 0, 0, true;
    }

    /** The whole buffer, read or not. */
    method Contents() returns (s: bytes)
      ensures s == buf
    {
      s := buf;
    }

    /** Replaces the buffer and rewinds both positions; the condition stays. */
    method Assign(input: bytes)
      modifies this
      ensures Valid() && State() == StreamState(input, 0, 0, old(good))
    {
      buf, rpos, wpos := input, 0, 0;
    }

    method Reset()
      modifies this
      ensures Valid() && State() == StreamState([], 0, 0, old(good))
    {
      Assign([]);
    }

    method Write(s: bytes)
      requires Valid()
      modifies this
      ensures Valid() && State() == old(State()).Store(s)
    {
      if good {
        buf := buf[..wpos] + s + (if wpos + |s| <= |buf| then buf[wpos + |s|..] else []);
        wpos := wpos + |s|;
      }
    }

    method Read(count: nat) returns (s: bytes)
      requires Valid()
      modifies this
      ensures Valid() && (s, State()) == ReadChunk(old(State()), count)
    {
      if !good {
        good := true;
        return [];
      }
      var k := if count <= |buf| - rpos then count else |buf| - rpos;
      s := buf[rpos..rpos + k];
      assert buf[rpos..][..k] == s;
      rpos := rpos + k;
    }

    method PeekByte() returns (r: Option<u8>)
      requires Valid()
      modifies this
      ensures Valid() && (r, State()) == Peek(old(State()))
    {
      if !good || rpos == |buf| {
        good := false;
        return Some(0xFF);
      }
      r := if buf[rpos] == 0 then None else Some(buf[rpos]);
    }

    // Output of integers and strings.

    method Put(b: u8)
      requires Valid()
      modifies this
      ensures Valid() && State() == old(State()).Store([b])
    {
      Write([b]);
    }

    method EncodeU8(value: u8)
      requires Valid()
      modifies this
      ensures Valid() && State() == old(State()).Store(EmitLeaf(U8(value)).bytes)
    {
      Put(value);
      ByteIsItself(value);
    }

    method EncodeU16(value: u16)
      requires Valid()
      modifies this
      ensures Valid() && State() == old(State()).Store(EmitLeaf(U16(value)).bytes)
    {
      hide Trunc, Shr, LE, StreamState.Store;
      TwoBytes(value);
      NarrowFits(8, value);
      NarrowFits(8, Shr(value, 8));
      Put(Trunc(8, value));
      Put(Trunc(8, Shr(value, 8)));
      StoreStore(old(State()), [Trunc(8, value)], [Trunc(8, Shr(value, 8))]);
      assert [Trunc(8, value)] + [Trunc(8, Shr(value, 8))] == LE(2, value);
    }

    method EncodeU32(value: u32)
      requires Valid()
      modifies this
      ensures Valid() && State() == old(State()).Store(EmitLeaf(U32(value)).bytes)
    {
      NarrowFits(16, value);
      NarrowFits(16, Shr(value, 16));
      EncodeU16(Trunc(16, value));
      EncodeU16(Trunc(16, Shr(value, 16)));
      StoreStore(old(State()), LE(2, Trunc(16, value)), LE(2, Trunc(16, Shr(value, 16))));
      HalvesAreLE(2, value);
    }

    method EncodeU64(value: u64)
      requires Valid()
      modifies this
      ensures Valid() && State() == old(State()).Store(EmitLeaf(U64(value)).bytes)
    {
      NarrowFits(32, value);
      NarrowFits(32, Shr(value, 32));
      EncodeU32(Trunc(32, value));
      EncodeU32(Trunc(32, Shr(value, 32)));
      StoreStore(old(State()), LE(4, Trunc(32, value)), LE(4, Trunc(32, Shr(value, 32))));
      HalvesAreLE(4, value);
    }

    /** The count is narrowed to 16 bits and compared with the length it came from. */
    method EncodeString(value: bytes) returns (o: Outcome)
      requires Valid()
      modifies this
      ensures Valid() && State() == old(State()).Store(EmitLeaf(Str(value)).bytes)
      ensures o == if EmitLeaf(Str(value)).ok then Done else Threw(TooLong)
    {
      hide LE, StreamState.Store;
      var len := |value| % 0x1_0000;
      if len != |value| {
        StoreNothing(State());
        return Threw(TooLong);
      }
      EncodeU16(len);
      var i := 0;
      ghost var head := LE(2, |value|);
      assert head + value[..0] == head;
      while i < |value|
        invariant i <= |value|
        invariant Valid() && State() == old(State()).Store(head + value[..i])
      {
        EncodeU8(value[i]);
        StoreStore(old(State()), head + value[..i], LE(1, value[i]));
        ByteIsItself(value[i]);
        assert head + value[..i] + LE(1, value[i]) == head + value[..i + 1];
        i := i + 1;
      }
      assert value[..i] == value;
      o := Done;
    }

    // Input of integers and strings.

    /** The next n bytes, or what is left and the end. */
    method Get(n: nat) returns (r: Result<bytes>)
      requires Valid() && (n > 0 || good)
      modifies this
      ensures Valid() && State() == old(State()).After(TakeBlock(n, old(State()).Unread()))
      ensures r == Outcomes(TakeBlock(n, old(State()).Unread()))
    {
      if !good { return Thrown(ShortInput); }
      if |buf| - rpos < n {
        rpos, good := |buf|, false;
        return Thrown(ShortInput);
      }
      assert buf[rpos..][..n] == buf[rpos..rpos + n];
      r := Value(buf[rpos..rpos + n]);
      rpos := rpos + n;
    }

    method DecodeU8() returns (r: Result<u8>)
      requires Valid()
      modifies this
      ensures Valid() && State() == old(State()).After(TakeLeaf(KU8, old(State()).Unread()))
      ensures r.Thrown? <==> TakeLeaf(KU8, old(State()).Unread()).Short?
      ensures r.Thrown? ==> r.why == ShortInput
      ensures r.Value? ==> TakeLeaf(KU8, old(State()).Unread()).value == Leaf.U8(r.value)
    {
      var b :- Get(1);
      assert b[1..] == [] && Val(b) == b[0];
      r := Value(b[0]);
    }

    method DecodeU16() returns (r: Result<u16>)
      requires Valid()
      modifies this
      ensures Valid() && State() == old(State()).After(TakeLeaf(KU16, old(State()).Unread()))
      ensures r.Thrown? <==> TakeLeaf(KU16, old(State()).Unread()).Short?
      ensures r.Thrown? ==> r.why == ShortInput
      ensures r.Value? ==> TakeLeaf(KU16, old(State()).Unread()).value == Leaf.U16(r.value)
    {
      var b :- Get(2);
      assert b == [b[0], b[1]];
      r := Value(Build16(b[0], b[1]));
    }

    method DecodeU32() returns (r: Result<u32>)
      requires Valid()
      modifies this
      ensures Valid() && State() == old(State()).After(TakeLeaf(KU32, old(State()).Unread()))
      ensures r.Thrown? <==> TakeLeaf(KU32, old(State()).Unread()).Short?
      ensures r.Thrown? ==> r.why == ShortInput
      ensures r.Value? ==> TakeLeaf(KU32, old(State()).Unread()).value == Leaf.U32(r.value)
    {
      var b :- Get(4);
      assert b == [b[0], b[1], b[2], b[3]];
      r := Value(Build32From8(b[0], b[1], b[2], b[3]));
    }

    /** The low word first, then the high word. */
    method DecodeU64() returns (r: Result<u64>)
      requires Valid()
      modifies this
      ensures Valid() && State() == old(State()).After(TakeLeaf(KU64, old(State()).Unread()))
      ensures r.Thrown? <==> TakeLeaf(KU64, old(State()).Unread()).Short?
      ensures r.Thrown? ==> r.why == ShortInput
      ensures r.Value? ==> TakeLeaf(KU64, old(State()).Unread()).value == Leaf.U64(r.value)
    {
      hide TakeLeaf, Build64, StreamState.After, StreamState.Unread, IsSuffix;
      U64ThenHalves(State());
      var lower :- DecodeU32();
      var upper :- DecodeU32();
      r := Value(Build64(lower, upper));
    }

    method DecodeString() returns (r: Result<bytes>)
      requires Valid()
      modifies this
      ensures Valid() && State() == old(State()).After(TakeLeaf(KStr, old(State()).Unread()))
      ensures r.Thrown? <==> TakeLeaf(KStr, old(State()).Unread()).Short?
      ensures r.Thrown? ==> r.why == ShortInput
      ensures r.Value? ==> TakeLeaf(KStr, old(State()).Unread()).value == Leaf.Str(r.value)
    {
      var len :- DecodeU16();
      r := Get(len);
    }
  }

  /** Reading eight bytes as two words: what both give, and when either is short. */
  lemma HalvesOfU64(u: bytes)
    ensures TakeU32(u).Got? ==>
              var lo := TakeU32(u); var hi := TakeU32(lo.rest);
              && (hi.Got? <==> TakeU64(u).Got?)
              && (hi.Got? ==> TakeU64(u) == Got(Build64(lo.value, hi.value), hi.rest))
    ensures TakeU32(u).Short? ==> TakeU64(u).Short?
  {
    if |u| >= 8 {
      Build64OfHalves(u[..4], u[4..][..4]);
      assert u[..4] + u[4..][..4] == u[..8];
      assert u[4..][4..] == u[8..];
    }
  }

  /** The same on a stream: what it looks like after each word. */
  lemma U64ThenHalves(st: StreamState)
    requires st.Valid()
    ensures var d := TakeLeaf(KU64, st.Unread()); var lo := TakeLeaf(KU32, st.Unread());
            && (d.Got? ==> d.value.U64?) && (lo.Got? ==> lo.value.U32?)
            && (lo.Short? ==> d.Short? && st.After(d) == st.After(lo))
            && (lo.Got? ==>
                  var st1 := st.After(lo); var hi := TakeLeaf(KU32, st1.Unread());
                  && st.After(d) == st1.After(hi) && (hi.Short? <==> d.Short?)
                  && (hi.Got? ==> hi.value.U32? && d.value.q == Build64(lo.value.d, hi.value.d)))
  {
    hide TakeU32, TakeU64, Build64, StreamState.Unread, IsSuffix;
    HalvesOfU64(st.Unread());
    var lo := TakeLeaf(KU32, st.Unread());
    if lo.Got? {
      LeafNeedsInput(KU32, st.Unread());
      GoodIfUnread(st);
      var hi := TakeLeaf(KU32, lo.rest);
      AfterAfter(st, lo, hi);
      if hi.Got? { AfterSame(st, hi, TakeLeaf(KU64, st.Unread())); }
    }
  }

  /** What the caller of a reader sees. */
  function Outcomes<T>(d: Parsed<T>): Result<T> {
    match d
    case Got(v, _) => Value(v)
    case Short => Thrown(ShortInput)
  }

  lemma NarrowFits(w: nat, v: nat)
    requires w == 8 || w == 16 || w == 32
    ensures w == 8 ==> Trunc(w, v) < 0x100
    ensures w == 16 ==> Trunc(w, v) < 0x1_0000
    ensures w == 32 ==> Trunc(w, v) < 0x1_0000_0000
  {
    SplitAt(w, v);
    Powers();
  }
}
