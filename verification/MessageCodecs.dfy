/**
  * The `encode` and `decode` of every message type (Message.cc, Message.h), on a
  * message stream.  Each is proved against the layout of its type: the same
  * bytes reach the stream whether it returns or throws, and the same object
  * comes back.
  */
module MessageCodecs {
  import opened LittleEndian
  import opened Operations
  import opened Wire
  import opened WireLaws
  import opened Messages
  import opened MessageLaws
  import opened Streams

  /** A writer has put the bytes of e on the stream and returned or thrown as e says. */
  ghost predicate Wrote(st0: StreamState, st: StreamState, e: Emit, o: Outcome) {
    && st0.Valid() && st == st0.Store(e.bytes)
    && (o == if e.ok then Done else Threw(TooLong))
  }

  // Parts shared by several messages.

  method EncodeQid(q: Qid, s: MessageStream)
    requires s.Valid()
    modifies s
    ensures s.Valid() && s.State() == old(s.State()).Store(EmitLeaf(Id(q)).bytes)
  {
    s.EncodeU8(q.kind);
    s.EncodeU32(q.version);
    s.EncodeU64(q.path);
    StoreStore(old(s.State()), LE(1, q.kind), LE(4, q.version));
    StoreStore(old(s.State()), LE(1, q.kind) + LE(4, q.version), LE(8, q.path));
  }

  method DecodeQid(s: MessageStream) returns (r: Result<Qid>)
    requires s.Valid()
    modifies s
    ensures s.Valid() && s.State() == old(s.State()).After(TakeLeaf(KQid, old(s.State()).Unread()))
    ensures r.Thrown? <==> TakeLeaf(KQid, old(s.State()).Unread()).Short?
    ensures r.Thrown? ==> r.why == ShortInput
    ensures r.Value? ==> TakeLeaf(KQid, old(s.State()).Unread()).value == Id(r.value)
  {
    hide IsSuffix, StreamState.After, StreamState.Unread, TakeLeaf;
    QidInThree(s.State());
    var kind :- s.DecodeU8();
    var version :- s.DecodeU32();
    var path :- s.DecodeU64();
    r := Value(Qid(kind, version, path));
  }

  /** A qid is its kind, version and path, on the stream as on the bytes. */
  lemma QidInThree(st: StreamState)
    requires st.Valid()
    ensures var d := TakeLeaf(KQid, st.Unread()); var k := TakeLeaf(KU8, st.Unread());
            && (k.Short? ==> d.Short? && st.After(d) == st.After(k))
            && (k.Got? ==>
                  var st1 := st.After(k); var v := TakeLeaf(KU32, st1.Unread());
                  && (v.Short? ==> d.Short? && st.After(d) == st1.After(v))
                  && (v.Got? ==>
                        var st2 := st1.After(v); var p := TakeLeaf(KU64, st2.Unread());
                        && st.After(d) == st2.After(p) && (p.Short? <==> d.Short?)
                        && (p.Got? ==> d.value == Id(Qid(k.value.b, v.value.d, p.value.q)))))
  {
    hide TakeU8, TakeU32, TakeU64, IsSuffix, StreamState.Unread;
    var k := TakeU8(st.Unread());
    if k.Got? {
      GoodIfGot(st, KU8);
      var v := TakeU32(k.rest);
      AfterAfter(st, k, v);
      if v.Got? {
        var p := TakeU64(v.rest);
        AfterAfter(st, v, p);
        AfterAfter(st.After(k), v, p);
      }
    }
  }

  lemma GoodIfGot(st: StreamState, k: Kind)
    requires st.Valid() && TakeLeaf(k, st.Unread()).Got?
    ensures st.good
  {
    hide TakeLeaf;
    LeafNeedsInput(k, st.Unread());
    GoodIfUnread(st);
  }

  // One leaf of a run further: the value read extends what was done, or the whole run is short.

  method NextU8(s: MessageStream, ghost st0: StreamState, ghost ks: seq<Kind>, ghost done: seq<Leaf>)
    returns (r: Result<u8>)
    requires s.Valid() && Reading(st0, s.State(), ks, done) && |done| < |ks| && ks[|done|] == KU8
    modifies s
    ensures s.Valid()
    ensures r.Value? ==> Reading(st0, s.State(), ks, Snoc(done, U8(r.value)))
    ensures r.Thrown? ==> RanShort(st0, s.State(), ks) && r.why == ShortInput
  {
    hide Reading, TakeLeaves, TakeLeaf, IsSuffix, Snoc, StreamState.After, StreamState.Unread;
    ReadOne(st0, s.State(), ks, done);
    r := s.DecodeU8();
  }

  method NextU16(s: MessageStream, ghost st0: StreamState, ghost ks: seq<Kind>, ghost done: seq<Leaf>)
    returns (r: Result<u16>)
    requires s.Valid() && Reading(st0, s.State(), ks, done) && |done| < |ks| && ks[|done|] == KU16
    modifies s
    ensures s.Valid()
    ensures r.Value? ==> Reading(st0, s.State(), ks, Snoc(done, U16(r.value)))
    ensures r.Thrown? ==> RanShort(st0, s.State(), ks) && r.why == ShortInput
  {
    hide Reading, TakeLeaves, TakeLeaf, IsSuffix, Snoc, StreamState.After, StreamState.Unread;
    ReadOne(st0, s.State(), ks, done);
    r := s.DecodeU16();
  }

  method NextU32(s: MessageStream, ghost st0: StreamState, ghost ks: seq<Kind>, ghost done: seq<Leaf>)
    returns (r: Result<u32>)
    requires s.Valid() && Reading(st0, s.State(), ks, done) && |done| < |ks| && ks[|done|] == KU32
    modifies s
    ensures s.Valid()
    ensures r.Value? ==> Reading(st0, s.State(), ks, Snoc(done, U32(r.value)))
    ensures r.Thrown? ==> RanShort(st0, s.State(), ks) && r.why == ShortInput
  {
    hide Reading, TakeLeaves, TakeLeaf, IsSuffix, Snoc, StreamState.After, StreamState.Unread;
    ReadOne(st0, s.State(), ks, done);
    r := s.DecodeU32();
  }

  method NextU64(s: MessageStream, ghost st0: StreamState, ghost ks: seq<Kind>, ghost done: seq<Leaf>)
    returns (r: Result<u64>)
    requires s.Valid() && Reading(st0, s.State(), ks, done) && |done| < |ks| && ks[|done|] == KU64
    modifies s
    ensures s.Valid()
    ensures r.Value? ==> Reading(st0, s.State(), ks, Snoc(done, U64(r.value)))
    ensures r.Thrown? ==> RanShort(st0, s.State(), ks) && r.why == ShortInput
  {
    hide Reading, TakeLeaves, TakeLeaf, IsSuffix, Snoc, StreamState.After, StreamState.Unread;
    ReadOne(st0, s.State(), ks, done);
    r := s.DecodeU64();
  }

  method NextString(s: MessageStream, ghost st0: StreamState, ghost ks: seq<Kind>, ghost done: seq<Leaf>)
    returns (r: Result<bytes>)
    requires s.Valid() && Reading(st0, s.State(), ks, done) && |done| < |ks| && ks[|done|] == KStr
    modifies s
    ensures s.Valid()
    ensures r.Value? ==> Reading(st0, s.State(), ks, Snoc(done, Leaf.Str(r.value)))
    ensures r.Thrown? ==> RanShort(st0, s.State(), ks) && r.why == ShortInput
  {
    hide Reading, TakeLeaves, TakeLeaf, IsSuffix, Snoc, StreamState.After, StreamState.Unread;
    ReadOne(st0, s.State(), ks, done);
    r := s.DecodeString();
  }

  method NextQid(s: MessageStream, ghost st0: StreamState, ghost ks: seq<Kind>, ghost done: seq<Leaf>)
    returns (r: Result<Qid>)
    requires s.Valid() && Reading(st0, s.State(), ks, done) && |done| < |ks| && ks[|done|] == KQid
    modifies s
    ensures s.Valid()
    ensures r.Value? ==> Reading(st0, s.State(), ks, Snoc(done, Id(r.value)))
    ensures r.Thrown? ==> RanShort(st0, s.State(), ks) && r.why == ShortInput
  {
    hide Reading, TakeLeaves, TakeLeaf, IsSuffix, Snoc, StreamState.After, StreamState.Unread;
    ReadOne(st0, s.State(), ks, done);
    r := DecodeQid(s);
  }

  method EncodeNames(names: seq<bytes>, s: MessageStream) returns (o: Outcome)
    requires s.Valid()
    modifies s
    ensures s.Valid() && Wrote(old(s.State()), s.State(), EmitTail(List(KStr, NameLeaves(names))), o)
  {
    hide StoreLeaves, StreamState.Store, EmitLeaves, Writing, LE;
    ghost var st0, items := s.State(), NameLeaves(names);
    var len := |names| % 0x1_0000;
    if len != |names| {
      StoreNothing(st0);
      return Threw(TooLong);
    }
    s.EncodeU16(len);
    ghost var st1 := s.State();
    StoreStore(st0, LE(2, |names|), EmitLeaves(items, 0).bytes);
    StartWriting(st1, items);
    var i := 0;
    while i < |names|
      invariant i <= |names| && s.Valid()
      invariant Writing(st1, s.State(), items, i)
    {
      WriteOne(st1, s.State(), items, i);
      :- s.EncodeString(names[i]);
      i := i + 1;
    }
    WroteAll(st1, s.State(), items);
    o := Done;
  }

  method EncodeQids(qids: seq<Qid>, s: MessageStream) returns (o: Outcome)
    requires s.Valid()
    modifies s
    ensures s.Valid() && Wrote(old(s.State()), s.State(), EmitTail(List(KQid, QidLeaves(qids))), o)
  {
    hide StoreLeaves, StreamState.Store, EmitLeaves, Writing, LE;
    ghost var st0, items := s.State(), QidLeaves(qids);
    var len := |qids| % 0x1_0000;
    if len != |qids| {
      StoreNothing(st0);
      return Threw(TooLong);
    }
    s.EncodeU16(len);
    ghost var st1 := s.State();
    StoreStore(st0, LE(2, |qids|), EmitLeaves(items, 0).bytes);
    StartWriting(st1, items);
    var i := 0;
    while i < |qids|
      invariant i <= |qids| && s.Valid()
      invariant Writing(st1, s.State(), items, i)
    {
      WriteOne(st1, s.State(), items, i);
      EncodeQid(qids[i], s);
      i := i + 1;
    }
    WroteAll(st1, s.State(), items);
    o := Done;
  }

  method EncodeData(data: bytes, s: MessageStream) returns (o: Outcome)
    requires s.Valid()
    modifies s
    ensures s.Valid() && Wrote(old(s.State()), s.State(), EmitTail(Blob(data)), o)
  {
    hide LE, StreamState.Store;
    ghost var st0 := s.State();
    var len := |data| % 0x1_0000_0000;
    if len != |data| {
      StoreNothing(st0);
      return Threw(TooLong);
    }
    s.EncodeU32(len);
    ghost var head := LE(4, |data|);
    assert head + data[..0] == head;
    var i := 0;
    while i < |data|
      invariant i <= |data| && s.Valid()
      invariant s.State() == st0.Store(head + data[..i])
    {
      s.EncodeU8(data[i]);
      StoreStore(st0, head + data[..i], LE(1, data[i]));
      ByteIsItself(data[i]);
      assert head + data[..i] + LE(1, data[i]) == head + data[..i + 1];
      i := i + 1;
    }
    assert data[..i] == data;
    o := Done;
  }

  /** The stat goes to a stream of its own first; the outer one sees it only as a string. */
  method EncodeStat(st: Stat, s: MessageStream) returns (o: Outcome)
    requires s.Valid()
    modifies s
    ensures s.Valid() && Wrote(old(s.State()), s.State(), EmitStat(st), o)
  {
    hide StoreLeaves, StreamState.Store, EmitLeaves, Writing, LE, StatLeaves;
    ghost var ls := StatLeaves(st);
    StoreNothing(s.State());
    var inner := new MessageStream();
    StatLeafByLeaf(st);
    EncodeStatNumbers(st, inner);
    WriteOne(EMPTY, inner.State(), ls, 7);
    :- inner.EncodeString(st.name);
    WriteOne(EMPTY, inner.State(), ls, 8);
    :- inner.EncodeString(st.uid);
    WriteOne(EMPTY, inner.State(), ls, 9);
    :- inner.EncodeString(st.gid);
    WriteOne(EMPTY, inner.State(), ls, 10);
    :- inner.EncodeString(st.muid);
    WroteAll(EMPTY, inner.State(), ls);
    var text := inner.Contents();
    StoreAppends(EMPTY, EmitLeaves(ls, 0).bytes);
    assert text == EmitLeaves(ls, 0).bytes;
    o := s.EncodeString(text);
  }

  /** The fields of fixed width, which come before the four strings. */
  method EncodeStatNumbers(st: Stat, s: MessageStream)
    requires s.Valid()
    modifies s
    ensures s.Valid() && Writing(old(s.State()), s.State(), StatLeaves(st), 7)
  {
    hide StoreLeaves, StreamState.Store, EmitLeaves, Writing, LE, StatLeaves;
    ghost var st0, ls := s.State(), StatLeaves(st);
    StartWriting(st0, ls);
    StatLeafByLeaf(st);
    WriteOne(st0, s.State(), ls, 0);
    s.EncodeU16(st.kind);
    WriteOne(st0, s.State(), ls, 1);
    s.EncodeU32(st.dev);
    WriteOne(st0, s.State(), ls, 2);
    EncodeQid(st.qid, s);
    WriteOne(st0, s.State(), ls, 3);
    s.EncodeU32(st.mode);
    WriteOne(st0, s.State(), ls, 4);
    s.EncodeU32(st.atime);
    WriteOne(st0, s.State(), ls, 5);
    s.EncodeU32(st.mtime);
    WriteOne(st0, s.State(), ls, 6);
    s.EncodeU64(st.length);
  }

  /** Every element read is added to what the vector already holds. */
  method DecodeNames(s: MessageStream, held: seq<bytes>) returns (r: Result<seq<bytes>>)
    requires s.Valid()
    modifies s
    ensures s.Valid()
    ensures var d := TakeTail(KList(KStr), old(s.State()).Unread());
            && s.State() == old(s.State()).After(d)
            && r == (if d.Got? then Value(held + LeafNames(d.value.items)) else Thrown(ShortInput))
  {
    hide Reading, TakeLeaves, TakeLeaf, IsSuffix, StreamState.After, StreamState.Unread, LeafNames, HaveKinds;
    ListThenItems(s.State(), KStr);
    var len :- s.DecodeU16();
    ghost var st1, ks := s.State(), Repeat(len, KStr);
    ghost var done: seq<Leaf> := [];
    StartReading(st1, ks);
    NoLeaves();
    var collec := held;
    var i := 0;
    while i < len
      invariant i == |done| <= len && s.Valid()
      invariant Reading(st1, s.State(), ks, done)
      invariant HaveKinds(done, Repeat(|done|, KStr))
      invariant collec == held + LeafNames(done)
    {
      var item :- NextString(s, st1, ks, done);
      AddName(done, item);
      done := Snoc(done, Leaf.Str(item));
      collec := collec + [item];
      i := i + 1;
    }
    ReadAll(st1, s.State(), ks, done);
    r := Value(collec);
  }

  method DecodeQids(s: MessageStream, held: seq<Qid>) returns (r: Result<seq<Qid>>)
    requires s.Valid()
    modifies s
    ensures s.Valid()
    ensures var d := TakeTail(KList(KQid), old(s.State()).Unread());
            && s.State() == old(s.State()).After(d)
            && r == (if d.Got? then Value(held + LeafQids(d.value.items)) else Thrown(ShortInput))
  {
    hide Reading, TakeLeaves, TakeLeaf, IsSuffix, StreamState.After, StreamState.Unread, LeafQids, HaveKinds;
    ListThenItems(s.State(), KQid);
    var len :- s.DecodeU16();
    ghost var st1, ks := s.State(), Repeat(len, KQid);
    ghost var done: seq<Leaf> := [];
    StartReading(st1, ks);
    NoLeaves();
    var collec := held;
    var i := 0;
    while i < len
      invariant i == |done| <= len && s.Valid()
      invariant Reading(st1, s.State(), ks, done)
      invariant HaveKinds(done, Repeat(|done|, KQid))
      invariant collec == held + LeafQids(done)
    {
      var item :- NextQid(s, st1, ks, done);
      AddQid(done, item);
      done := Snoc(done, Id(item));
      collec := collec + [item];
      i := i + 1;
    }
    ReadAll(st1, s.State(), ks, done);
    r := Value(collec);
  }

  /** A list tail is its count and then its items, on the stream as on the bytes. */
  lemma ListThenItems(st: StreamState, kind: Kind)
    requires st.Valid()
    ensures var n := TakeLeaf(KU16, st.Unread()); var d := TakeTail(KList(kind), st.Unread());
            && (n.Short? ==> d.Short? && st.After(d) == st.After(n))
            && (n.Got? ==>
                  var st1 := st.After(n); var items := TakeLeaves(Repeat(n.value.w, kind), [], st1.Unread());
                  && st.After(d) == st1.After(items)
                  && (items.Short? <==> d.Short?)
                  && (items.Got? ==> d.value == List(kind, items.value)))
  {
    hide TakeLeaves, TakeU16, Repeat, IsSuffix, StreamState.Unread;
    var n := TakeU16(st.Unread());
    if n.Got? {
      GoodIfGot(st, KU16);
      AfterAfter(st, n, TakeLeaves(Repeat(n.value, kind), [], n.rest));
    }
  }

  lemma NoLeaves()
    ensures HaveKinds([], Repeat(0, KStr)) && LeafNames([]) == []
    ensures HaveKinds([], Repeat(0, KQid)) && LeafQids([]) == []
  {
  }

  method DecodeData(s: MessageStream, held: bytes) returns (r: Result<bytes>)
    requires s.Valid()
    modifies s
    ensures s.Valid()
    ensures var d := TakeTail(KBlob, old(s.State()).Unread());
            && s.State() == old(s.State()).After(d)
            && r == (if d.Got? then Value(held + d.value.data) else Thrown(ShortInput))
  {
    hide IsSuffix, StreamState.After, StreamState.Unread, TakeBlock, TakeLeaf;
    BlobThenBytes(s.State());
    var size :- s.DecodeU32();
    ghost var st1 := s.State();
    ghost var u := st1.Unread();
    AfterItself(st1);
    assert u[0..] == u;
    var data := held;
    var i := 0;
    while i < size
      invariant i <= size && s.Valid() && i <= |u|
      invariant IsSuffix(u[i..], u) && s.State() == st1.After(Got((), u[i..]))
      invariant data == held + u[..i]
    {
      OneByte(st1, i, size);
      var b :- s.DecodeU8();
      data := data + [b];
      i := i + 1;
    }
    WholeBlock(st1, size);
    r := Value(data);
  }

  lemma BlobThenBytes(st: StreamState)
    requires st.Valid()
    ensures var n := TakeLeaf(KU32, st.Unread()); var d := TakeTail(KBlob, st.Unread());
            && (n.Short? ==> d.Short? && st.After(d) == st.After(n))
            && (n.Got? ==>
                  var st1 := st.After(n); var block := TakeBlock(n.value.d, st1.Unread());
                  && st.After(d) == st1.After(block)
                  && (block.Short? <==> d.Short?)
                  && (block.Got? ==> d.value == Blob(block.value)))
  {
    hide TakeBlock, TakeU32, IsSuffix, StreamState.Unread;
    var n := TakeU32(st.Unread());
    if n.Got? {
      GoodIfGot(st, KU32);
      AfterAfter(st, n, TakeBlock(n.value, n.rest));
    }
  }

  /** One byte of a block further, or short: then so is the block. */
  lemma OneByte(st1: StreamState, i: nat, size: nat)
    requires st1.Valid() && i <= |st1.Unread()| && i < size && IsSuffix(st1.Unread()[i..], st1.Unread())
    ensures var u := st1.Unread(); var st := st1.After(Got((), u[i..])); var d := TakeLeaf(KU8, st.Unread());
            && (d.Got? ==> i < |u| && d.value == U8(u[i]) && u[..i] + [u[i]] == u[..i + 1]
                           && IsSuffix(u[i + 1..], u) && st.After(d) == st1.After(Got((), u[i + 1..])))
            && (d.Short? ==> TakeBlock(size, u).Short? && st.After(d) == st1.After(TakeBlock(size, u)))
  {
    var u := st1.Unread();
    FirstOf(u, i);
    hide TakeLeaf, Val;
    var st := st1.After(Got((), u[i..]));
    assert st.Unread() == u[i..];
  }

  lemma FirstOf(u: bytes, i: nat)
    requires i <= |u|
    ensures TakeLeaf(KU8, u[i..]) == if i < |u| then Got(U8(u[i]), u[i + 1..]) else Short
  {
    if i < |u| {
      assert u[i..][..1] == [u[i]] && Val([u[i]]) == u[i];
      assert u[i..][1..] == u[i + 1..];
    }
  }

  lemma WholeBlock(st1: StreamState, size: nat)
    requires st1.Valid() && size <= |st1.Unread()| && IsSuffix(st1.Unread()[size..], st1.Unread())
    ensures TakeBlock(size, st1.Unread()) == Got(st1.Unread()[..size], st1.Unread()[size..])
    ensures st1.After(Got((), st1.Unread()[size..])) == st1.After(TakeBlock(size, st1.Unread()))
  {
  }

  method DecodeStat(s: MessageStream) returns (r: Result<Stat>)
    requires s.Valid()
    modifies s
    ensures s.Valid()
    ensures var d := TakeTail(KStat, old(s.State()).Unread());
            && s.State() == old(s.State()).After(d)
            && r == (if d.Got? then Value(d.value.stat) else Thrown(ShortInput))
  {
    hide TakeLeaves, TakeLeaf, TakeTail, StatLeaves, StatKinds, IsSuffix, StreamState.After, StreamState.Unread;
    ghost var d := TakeTail(KStat, s.State().Unread());
    StatThenFields(s.State());
    var len :- s.DecodeU16();
    r := DecodeStatFields(s);
    if r.Value? { StatIsItsLeaves(r.value, d.value.stat); }
  }

  /** A stat is its length and then its fields, on the stream as on the bytes. */
  ghost predicate StatInTwo(st: StreamState)
    requires st.Valid()
  {
    hide TakeLeaf, TakeLeaves, TakeTail, StatKinds, StatLeaves, IsSuffix, StreamState.Unread, StreamState.After;
    var n := TakeLeaf(KU16, st.Unread());
    var d := TakeTail(KStat, st.Unread());
    && (n.Short? ==> d.Short? && st.After(d) == st.After(n))
    && (n.Got? ==>
          var st1 := st.After(n); var ls := TakeLeaves(StatKinds(), [], st1.Unread());
          && st.After(d) == st1.After(ls) && (ls.Short? <==> d.Short?)
          && (ls.Got? ==> StatLeaves(d.value.stat) == ls.value))
  }

  lemma StatThenFields(st: StreamState)
    requires st.Valid()
    ensures StatInTwo(st)
  {
    hide TakeLeaves, TakeU16, StatKinds, StatLeaves, IsSuffix, StreamState.Unread;
    var n := TakeU16(st.Unread());
    if n.Got? {
      GoodIfGot(st, KU16);
      AfterAfter(st, n, TakeLeaves(StatKinds(), [], n.rest));
    }
  }

  method DecodeStatFields(s: MessageStream) returns (r: Result<Stat>)
    requires s.Valid()
    modifies s
    ensures s.Valid()
    ensures var d := TakeLeaves(StatKinds(), [], old(s.State()).Unread());
            && s.State() == old(s.State()).After(d)
            && (if d.Got? then r.Value? && StatLeaves(r.value) == d.value else r == Thrown(ShortInput))
  {
    hide Reading, TakeLeaves, TakeLeaf, IsSuffix, Snoc, StatKinds, StatLeaves, NumberLeaves;
    hide StreamState.After, StreamState.Unread;
    ghost var st0, ks := s.State(), StatKinds();
    StatKindByKind();
    var numbers :- DecodeStatNumbers(s);
    ghost var done := NumberLeaves(numbers);
    var name :- NextString(s, st0, ks, done);
    done := Snoc(done, Leaf.Str(name));
    var uid :- NextString(s, st0, ks, done);
    done := Snoc(done, Leaf.Str(uid));
    var gid :- NextString(s, st0, ks, done);
    done := Snoc(done, Leaf.Str(gid));
    var muid :- NextString(s, st0, ks, done);
    done := Snoc(done, Leaf.Str(muid));
    ReadAll(st0, s.State(), ks, done);
    r := Value(numbers.(name := name, uid := uid, gid := gid, muid := muid));
    SnocStrings(numbers, r.value);
  }

  /** The fields of fixed width, which come before the four strings. */
  method DecodeStatNumbers(s: MessageStream) returns (r: Result<Stat>)
    requires s.Valid()
    modifies s
    ensures s.Valid()
    ensures r.Value? ==> Reading(old(s.State()), s.State(), StatKinds(), NumberLeaves(r.value))
    ensures r.Thrown? ==> RanShort(old(s.State()), s.State(), StatKinds()) && r.why == ShortInput
  {
    hide Reading, TakeLeaves, TakeLeaf, IsSuffix, Snoc, StatKinds, NumberLeaves;
    hide StreamState.After, StreamState.Unread;
    ghost var st0, ks := s.State(), StatKinds();
    ghost var done: seq<Leaf> := [];
    StatKindByKind();
    StartReading(st0, ks);
    var kind :- NextU16(s, st0, ks, done);
    done := Snoc(done, U16(kind));
    var dev :- NextU32(s, st0, ks, done);
    done := Snoc(done, U32(dev));
    var qid :- NextQid(s, st0, ks, done);
    done := Snoc(done, Id(qid));
    var mode :- NextU32(s, st0, ks, done);
    done := Snoc(done, U32(mode));
    var atime :- NextU32(s, st0, ks, done);
    done := Snoc(done, U32(atime));
    var mtime :- NextU32(s, st0, ks, done);
    done := Snoc(done, U32(mtime));
    var length :- NextU64(s, st0, ks, done);
    done := Snoc(done, U64(length));
    r := Value(Wire.Stat(kind, dev, qid, mode, atime, mtime, length, [], [], [], []));
    SnocNumbers(r.value);
  }

  function NumberLeaves(st: Stat): (ls: seq<Leaf>)
    ensures |ls| == 7
  {
    [U16(st.kind), U32(st.dev), Id(st.qid), U32(st.mode), U32(st.atime), U32(st.mtime), U64(st.length)]
  }

  lemma StatLeafByLeaf(st: Stat)
    ensures var ls := StatLeaves(st);
            && |ls| == 11 && ls[0] == U16(st.kind) && ls[1] == U32(st.dev) && ls[2] == Id(st.qid)
            && ls[3] == U32(st.mode) && ls[4] == U32(st.atime) && ls[5] == U32(st.mtime) && ls[6] == U64(st.length)
            && ls[7] == Leaf.Str(st.name) && ls[8] == Leaf.Str(st.uid) && ls[9] == Leaf.Str(st.gid)
            && ls[10] == Leaf.Str(st.muid)
  {
  }

  lemma StatKindByKind()
    ensures |StatKinds()| == 11
    ensures StatKinds()[0] == KU16 && StatKinds()[1] == KU32 && StatKinds()[2] == KQid && StatKinds()[3] == KU32
    ensures StatKinds()[4] == KU32 && StatKinds()[5] == KU32 && StatKinds()[6] == KU64 && StatKinds()[7] == KStr
    ensures StatKinds()[8] == KStr && StatKinds()[9] == KStr && StatKinds()[10] == KStr
  {
  }

  lemma SnocNumbers(st: Stat)
    ensures Snoc(Snoc(Snoc(Snoc(Snoc(Snoc(Snoc([], U16(st.kind)), U32(st.dev)), Id(st.qid)),
              U32(st.mode)), U32(st.atime)), U32(st.mtime)), U64(st.length))
         == NumberLeaves(st)
  {
  }

  lemma SnocStrings(numbers: Stat, st: Stat)
    requires st == numbers.(name := st.name, uid := st.uid, gid := st.gid, muid := st.muid)
    ensures Snoc(Snoc(Snoc(Snoc(NumberLeaves(numbers),
              Leaf.Str(st.name)), Leaf.Str(st.uid)), Leaf.Str(st.gid)), Leaf.Str(st.muid))
         == StatLeaves(st)
  {
  }

  lemma AfterItself(st: StreamState)
    requires st.Valid()
    ensures IsSuffix(st.Unread(), st.Unread()) && st.After(Got((), st.Unread())) == st
  {
  }

  lemma AddName(done: seq<Leaf>, name: bytes)
    requires HaveKinds(done, Repeat(|done|, KStr))
    ensures HaveKinds(done + [Leaf.Str(name)], Repeat(|done| + 1, KStr))
    ensures LeafNames(done + [Leaf.Str(name)]) == LeafNames(done) + [name]
  {
    var more := done + [Leaf.Str(name)];
    assert forall i :: 0 <= i < |more| ==> KindOf(more[i]) == KStr;
  }

  lemma AddQid(done: seq<Leaf>, q: Qid)
    requires HaveKinds(done, Repeat(|done|, KQid))
    ensures HaveKinds(done + [Id(q)], Repeat(|done| + 1, KQid))
    ensures LeafQids(done + [Id(q)]) == LeafQids(done) + [q]
  {
    var more := done + [Id(q)];
    assert forall i :: 0 <= i < |more| ==> KindOf(more[i]) == KQid;
  }

  // The header, and how leaves and tail make up a message.

  method EncodeHeader(m: Message, s: MessageStream)
    requires s.Valid()
    modifies s
    ensures s.Valid() && Writing(old(s.State()), s.State(), MessageLeaves(m), 2)
  {
    hide StoreLeaves, StreamState.Store, EmitLeaves, Writing, BodyLeaves;
    ghost var st0, ls := s.State(), MessageLeaves(m);
    StartWriting(st0, ls);
    WriteOne(st0, s.State(), ls, 0);
    s.EncodeU8(m.op);
    WriteOne(st0, s.State(), ls, 1);
    s.EncodeU16(m.tag);
  }

  /** A message throws where its leaves do, and otherwise ends as its tail does. */
  lemma EmitOf(st0: StreamState, m: Message)
    requires st0.Valid() && !IsUndefined(m.body)
    ensures var head := EmitLeaves(MessageLeaves(m), 0); var last := EmitTail(BodyTail(m.body));
            var st1 := st0.Store(head.bytes);
            && (!head.ok ==> EmitMessage(m) == head)
            && (head.ok ==> st0.Store(EmitMessage(m).bytes) == st1.Store(last.bytes) && EmitMessage(m).ok == last.ok)
            && (head.ok && BodyTail(m.body).NoTail? ==> st0.Store(EmitMessage(m).bytes) == st1 && last.ok)
  {
    hide EmitLeaves, EmitTail, StreamState.Store, BodyLeaves, BodyTail;
    var head, last := EmitLeaves(MessageLeaves(m), 0), EmitTail(BodyTail(m.body));
    StoreStore(st0, head.bytes, last.bytes);
    if BodyTail(m.body).NoTail? {
      NoTailIsNothing();
      StoreNothing(st0.Store(head.bytes));
    }
  }

  lemma NoTailIsNothing()
    ensures EmitTail(NoTail) == Emit([], true)
  {
  }

  function KindsFor(held: Message): seq<Kind> {
    MessageKinds(ConceptOf(held.body), DirectionOf(held.body))
  }

  /** `decode` of an object holding `held` has consumed, and left behind, what TakeInto says. */
  ghost predicate TookInto(held: Message, st0: StreamState, st: StreamState, r: Result<Message>)
    requires !IsUndefined(held.body)
  {
    && st0.Valid() && st == st0.After(TakeInto(held, st0.Unread()))
    && r == Outcomes(TakeInto(held, st0.Unread()))
  }

  method DecodeHeader(s: MessageStream, ghost ks: seq<Kind>) returns (r: Result<(u8, u16)>)
    requires s.Valid() && |ks| >= 2 && ks[0] == KU8 && ks[1] == KU16
    modifies s
    ensures s.Valid()
    ensures r.Value? ==> Reading(old(s.State()), s.State(), ks, [U8(r.value.0), U16(r.value.1)])
    ensures r.Thrown? ==> RanShort(old(s.State()), s.State(), ks) && r.why == ShortInput
  {
    hide Reading, TakeLeaves, TakeLeaf, IsSuffix, StreamState.After, StreamState.Unread;
    ghost var st0 := s.State();
    StartReading(st0, ks);
    var op :- NextU8(s, st0, ks, []);
    assert Snoc([], U8(op)) == [U8(op)];
    var tag :- NextU16(s, st0, ks, [U8(op)]);
    assert Snoc([U8(op)], U16(tag)) == [U8(op), U16(tag)];
    r := Value((op, tag));
  }

  // What each part's outcome means for the whole message.

  /** A message is short if its leaves are. */
  lemma ShortOf(held: Message, st0: StreamState)
    requires st0.Valid() && !IsUndefined(held.body)
    ensures forall st :: RanShort(st0, st, KindsFor(held)) ==> TookInto(held, st0, st, Thrown(ShortInput))
  {
    hide TakeLeaves, TakeTail, BodyKinds, TailKindOf, Build, Merge, IsSuffix;
  }

  /** Reading the message m, whose leaves have all been read, comes down to reading its tail. */
  lemma LeavesTaken(m: Message, u: bytes, rest: bytes, tk: TailKind)
    requires ConceptOf(m.body) != Undefined && tk == TailKindOf(ConceptOf(m.body), DirectionOf(m.body))
    requires TakeLeaves(KindsFor(m), [], u) == Got(MessageLeaves(m), rest)
    requires TakeTail(tk, rest).Got? && TakeTail(tk, rest).value == BodyTail(m.body)
    ensures TakeMessage(ConceptOf(m.body), DirectionOf(m.body), u) == Got(m, TakeTail(tk, rest).rest)
  {
    DefinedConcept(m.body);
    BuildOfLayout(m.body);
    hide TakeLeaves, TakeTail, BodyKinds, TailKindOf, Build, BodyLeaves, BodyTail, ConceptOf, DirectionOf;
    assert MessageLeaves(m)[2..] == BodyLeaves(m.body);
    HeaderThenBody(MessageLeaves(m), BodyKinds(ConceptOf(m.body), DirectionOf(m.body)));
  }

  /** A message without a tail is complete once its leaves are. */
  lemma CompleteAfterLeaves(held: Message, st0: StreamState, st: StreamState, m: Message)
    requires st0.Valid() && st.Valid() && !IsUndefined(held.body) && SameType(held.body, m.body)
    requires BodyTail(m.body) == NoTail
    requires TakeLeaves(KindsFor(held), [], st0.Unread()) == Got(MessageLeaves(m), st.Unread())
    requires st == st0.After(TakeLeaves(KindsFor(held), [], st0.Unread()))
    ensures TookInto(held, st0, st, Value(m))
  {
    hide TakeLeaves, TakeMessage, IsSuffix, MessageLeaves, Merge;
    NoTailTakesNothing(st.Unread());
    LeavesTaken(m, st0.Unread(), st.Unread(), KNone);
    MergeReplaces(held.body, m.body);
  }

  /** Otherwise it is short if its tail is, ... */
  lemma ShortTail(held: Message, st0: StreamState, st: StreamState, tk: TailKind)
    requires st0.Valid() && st.Valid() && !IsUndefined(held.body)
    requires tk == TailKindOf(ConceptOf(held.body), DirectionOf(held.body))
    requires TakeLeaves(KindsFor(held), [], st0.Unread()).Got?
    requires st == st0.After(TakeLeaves(KindsFor(held), [], st0.Unread()))
    ensures var t := TakeTail(tk, st.Unread());
            t.Short? ==> TookInto(held, st0, st.After(t), Thrown(ShortInput))
  {
    hide TakeLeaves, TakeTail, BodyKinds, TailKindOf, Build, Merge, IsSuffix;
    GoodIfRun(st0, KindsFor(held));
  }

  /** ... and complete when its tail is, grown by what the object held. */
  lemma CompleteAfterTail(held: Message, st0: StreamState, st: StreamState, tk: TailKind, m: Message)
    requires st0.Valid() && st.Valid() && !IsUndefined(held.body) && SameType(held.body, m.body)
    requires tk == TailKindOf(ConceptOf(held.body), DirectionOf(held.body))
    requires TakeLeaves(KindsFor(held), [], st0.Unread()) == Got(MessageLeaves(m), st.Unread())
    requires st == st0.After(TakeLeaves(KindsFor(held), [], st0.Unread()))
    requires TakeTail(tk, st.Unread()).Got? && TakeTail(tk, st.Unread()).value == BodyTail(m.body)
    ensures TookInto(held, st0, st.After(TakeTail(tk, st.Unread())), Value(m.(body := Merge(held.body, m.body))))
  {
    hide TakeLeaves, TakeTail, TakeInto, IsSuffix, Merge, TailKindOf, MessageLeaves, BodyTail, KindsFor;
    hide StreamState.After, StreamState.Unread;
    var t := TakeTail(tk, st.Unread());
    IntoIsMerged(held, m, st0.Unread(), st.Unread(), tk);
    AfterAfter(st0, TakeLeaves(KindsFor(held), [], st0.Unread()), t);
    AfterSame(st0, t, TakeInto(held, st0.Unread()));
  }

  lemma IntoIsMerged(held: Message, m: Message, u: bytes, rest: bytes, tk: TailKind)
    requires !IsUndefined(held.body) && SameType(held.body, m.body)
    requires tk == TailKindOf(ConceptOf(held.body), DirectionOf(held.body))
    requires TakeLeaves(KindsFor(held), [], u) == Got(MessageLeaves(m), rest)
    requires TakeTail(tk, rest).Got? && TakeTail(tk, rest).value == BodyTail(m.body)
    ensures TakeInto(held, u) == Got(m.(body := Merge(held.body, m.body)), TakeTail(tk, rest).rest)
  {
    hide TakeLeaves, TakeTail, TakeMessage, IsSuffix, Merge, TailKindOf, MessageLeaves, BodyTail;
    DefinedConcept(held.body);
    DefinedConcept(m.body);
    LeavesTaken(m, u, rest, tk);
  }

  lemma MergeCases(held: Body, read: Body)
    ensures held.WalkRequest? && read.WalkRequest? ==>
              Merge(held, read) == WalkRequest(read.fid, read.newfid, held.wname + read.wname)
    ensures held.WalkResponse? && read.WalkResponse? ==> Merge(held, read) == WalkResponse(held.wqid + read.wqid)
    ensures held.ReadResponse? && read.ReadResponse? ==> Merge(held, read) == ReadResponse(held.data + read.data)
    ensures held.WriteRequest? && read.WriteRequest? ==>
              Merge(held, read) == WriteRequest(read.fid, read.offset, held.data + read.data)
    ensures held.WStatRequest? ==> Merge(held, read) == read
  {
  }

  lemma MergeReplaces(held: Body, read: Body)
    requires SameType(held, read) && BodyTail(read) == NoTail
    ensures Merge(held, read) == read
  {
  }

  lemma NoTailTakesNothing(u: bytes)
    ensures TakeTail(KNone, u) == Got(NoTail, u)
  {
  }

  lemma GoodIfRun(st: StreamState, ks: seq<Kind>)
    requires st.Valid() && |ks| > 0 && TakeLeaves(ks, [], st.Unread()).Got?
    ensures st.good
  {
    LeafNeedsInput(ks[0], st.Unread());
  }

  // Encoders, type by type.

  /** The types that add nothing to the header. */
  predicate HasNoBody(b: Body) {
    b.ErrorRequest? || b.FlushResponse? || b.ClunkResponse? || b.RemoveResponse? || b.WStatResponse?
  }

  method EncodeHeaderOnly(m: Message, s: MessageStream) returns (o: Outcome)
    requires s.Valid() && HasNoBody(m.body)
    modifies s
    ensures s.Valid() && Wrote(old(s.State()), s.State(), EmitMessage(m), o)
  {
    hide StoreLeaves, StreamState.Store, EmitLeaves, Writing, EmitMessage;
    ghost var st0, ls := s.State(), MessageLeaves(m);
    EmitOf(st0, m);
    EncodeHeader(m, s);
    WroteAll(st0, s.State(), ls);
    o := Done;
  }

  method EncodeErrorResponse(m: Message, s: MessageStream) returns (o: Outcome)
    requires s.Valid() && m.body.ErrorResponse?
    modifies s
    ensures s.Valid() && Wrote(old(s.State()), s.State(), EmitMessage(m), o)
  {
    hide StoreLeaves, StreamState.Store, EmitLeaves, Writing, EmitMessage;
    ghost var st0, ls := s.State(), MessageLeaves(m);
    EmitOf(st0, m);
    EncodeHeader(m, s);
    WriteOne(st0, s.State(), ls, 2);
    :- s.EncodeString(m.body.ename);
    WroteAll(st0, s.State(), ls);
    o := Done;
  }

  method EncodeVersion(m: Message, s: MessageStream) returns (o: Outcome)
    requires s.Valid() && (m.body.VersionRequest? || m.body.VersionResponse?)
    modifies s
    ensures s.Valid() && Wrote(old(s.State()), s.State(), EmitMessage(m), o)
  {
    hide StoreLeaves, StreamState.Store, EmitLeaves, Writing, EmitMessage;
    ghost var st0, ls := s.State(), MessageLeaves(m);
    EmitOf(st0, m);
    EncodeHeader(m, s);
    WriteOne(st0, s.State(), ls, 2);
    s.EncodeU16(m.body.msize);
    WriteOne(st0, s.State(), ls, 3);
    :- s.EncodeString(m.body.version);
    WroteAll(st0, s.State(), ls);
    o := Done;
  }

  method EncodeAuthRequest(m: Message, s: MessageStream) returns (o: Outcome)
    requires s.Valid() && m.body.AuthRequest?
    modifies s
    ensures s.Valid() && Wrote(old(s.State()), s.State(), EmitMessage(m), o)
  {
    hide StoreLeaves, StreamState.Store, EmitLeaves, Writing, EmitMessage;
    ghost var st0, ls := s.State(), MessageLeaves(m);
    EmitOf(st0, m);
    EncodeHeader(m, s);
    WriteOne(st0, s.State(), ls, 2);
    s.EncodeU32(m.body.afid);
    WriteOne(st0, s.State(), ls, 3);
    :- s.EncodeString(m.body.uname);
    WriteOne(st0, s.State(), ls, 4);
    :- s.EncodeString(m.body.aname);
    WroteAll(st0, s.State(), ls);
    o := Done;
  }

  method EncodeQidResponse(m: Message, s: MessageStream) returns (o: Outcome)
    requires s.Valid() && (m.body.AuthResponse? || m.body.AttachResponse?)
    modifies s
    ensures s.Valid() && Wrote(old(s.State()), s.State(), EmitMessage(m), o)
  {
    hide StoreLeaves, StreamState.Store, EmitLeaves, Writing, EmitMessage;
    ghost var st0, ls := s.State(), MessageLeaves(m);
    EmitOf(st0, m);
    EncodeHeader(m, s);
    WriteOne(st0, s.State(), ls, 2);
    EncodeQid(m.body.qid, s);
    WroteAll(st0, s.State(), ls);
    o := Done;
  }

  method EncodeFlushRequest(m: Message, s: MessageStream) returns (o: Outcome)
    requires s.Valid() && m.body.FlushRequest?
    modifies s
    ensures s.Valid() && Wrote(old(s.State()), s.State(), EmitMessage(m), o)
  {
    hide StoreLeaves, StreamState.Store, EmitLeaves, Writing, EmitMessage;
    ghost var st0, ls := s.State(), MessageLeaves(m);
    EmitOf(st0, m);
    EncodeHeader(m, s);
    WriteOne(st0, s.State(), ls, 2);
    s.EncodeU16(m.body.oldtag);
    WroteAll(st0, s.State(), ls);
    o := Done;
  }

  method EncodeAttachRequest(m: Message, s: MessageStream) returns (o: Outcome)
    requires s.Valid() && m.body.AttachRequest?
    modifies s
    ensures s.Valid() && Wrote(old(s.State()), s.State(), EmitMessage(m), o)
  {
    hide StoreLeaves, StreamState.Store, EmitLeaves, Writing, EmitMessage;
    ghost var st0, ls := s.State(), MessageLeaves(m);
    EmitOf(st0, m);
    EncodeHeader(m, s);
    WriteOne(st0, s.State(), ls, 2);
    s.EncodeU32(m.body.fid);
    WriteOne(st0, s.State(), ls, 3);
    s.EncodeU32(m.body.afid);
    WriteOne(st0, s.State(), ls, 4);
    :- s.EncodeString(m.body.uname);
    WriteOne(st0, s.State(), ls, 5);
    :- s.EncodeString(m.body.aname);
    WroteAll(st0, s.State(), ls);
    o := Done;
  }

  method EncodeOpenRequest(m: Message, s: MessageStream) returns (o: Outcome)
    requires s.Valid() && m.body.OpenRequest?
    modifies s
    ensures s.Valid() && Wrote(old(s.State()), s.State(), EmitMessage(m), o)
  {
    hide StoreLeaves, StreamState.Store, EmitLeaves, Writing, EmitMessage;
    ghost var st0, ls := s.State(), MessageLeaves(m);
    EmitOf(st0, m);
    EncodeHeader(m, s);
    WriteOne(st0, s.State(), ls, 2);
    s.EncodeU32(m.body.fid);
    WriteOne(st0, s.State(), ls, 3);
    s.EncodeU8(m.body.mode);
    WroteAll(st0, s.State(), ls);
    o := Done;
  }

  method EncodeOpenOrCreateResponse(m: Message, s: MessageStream) returns (o: Outcome)
    requires s.Valid() && (m.body.OpenResponse? || m.body.CreateResponse?)
    modifies s
    ensures s.Valid() && Wrote(old(s.State()), s.State(), EmitMessage(m), o)
  {
    hide StoreLeaves, StreamState.Store, EmitLeaves, Writing, EmitMessage;
    ghost var st0, ls := s.State(), MessageLeaves(m);
    EmitOf(st0, m);
    EncodeHeader(m, s);
    WriteOne(st0, s.State(), ls, 2);
    EncodeQid(m.body.qid, s);
    WriteOne(st0, s.State(), ls, 3);
    s.EncodeU32(m.body.iounit);
    WroteAll(st0, s.State(), ls);
    o := Done;
  }

  method EncodeCreateRequest(m: Message, s: MessageStream) returns (o: Outcome)
    requires s.Valid() && m.body.CreateRequest?
    modifies s
    ensures s.Valid() && Wrote(old(s.State()), s.State(), EmitMessage(m), o)
  {
    hide StoreLeaves, StreamState.Store, EmitLeaves, Writing, EmitMessage;
    ghost var st0, ls := s.State(), MessageLeaves(m);
    EmitOf(st0, m);
    EncodeHeader(m, s);
    WriteOne(st0, s.State(), ls, 2);
    s.EncodeU32(m.body.fid);
    WriteOne(st0, s.State(), ls, 3);
    :- s.EncodeString(m.body.name);
    WriteOne(st0, s.State(), ls, 4);
    s.EncodeU32(m.body.perm);
    WriteOne(st0, s.State(), ls, 5);
    s.EncodeU8(m.body.mode);
    WroteAll(st0, s.State(), ls);
    o := Done;
  }

  method EncodeFidRequest(m: Message, s: MessageStream) returns (o: Outcome)
    requires s.Valid() && (m.body.ClunkRequest? || m.body.RemoveRequest? || m.body.StatRequest?)
    modifies s
    ensures s.Valid() && Wrote(old(s.State()), s.State(), EmitMessage(m), o)
  {
    hide StoreLeaves, StreamState.Store, EmitLeaves, Writing, EmitMessage;
    ghost var st0, ls := s.State(), MessageLeaves(m);
    EmitOf(st0, m);
    EncodeHeader(m, s);
    WriteOne(st0, s.State(), ls, 2);
    s.EncodeU32(m.body.fid);
    WroteAll(st0, s.State(), ls);
    o := Done;
  }

  method EncodeReadRequest(m: Message, s: MessageStream) returns (o: Outcome)
    requires s.Valid() && m.body.ReadRequest?
    modifies s
    ensures s.Valid() && Wrote(old(s.State()), s.State(), EmitMessage(m), o)
  {
    hide StoreLeaves, StreamState.Store, EmitLeaves, Writing, EmitMessage;
    ghost var st0, ls := s.State(), MessageLeaves(m);
    EmitOf(st0, m);
    EncodeHeader(m, s);
    WriteOne(st0, s.State(), ls, 2);
    s.EncodeU32(m.body.fid);
    WriteOne(st0, s.State(), ls, 3);
    s.EncodeU64(m.body.offset);
    WriteOne(st0, s.State(), ls, 4);
    s.EncodeU32(m.body.count);
    WroteAll(st0, s.State(), ls);
    o := Done;
  }

  method EncodeWriteResponse(m: Message, s: MessageStream) returns (o: Outcome)
    requires s.Valid() && m.body.WriteResponse?
    modifies s
    ensures s.Valid() && Wrote(old(s.State()), s.State(), EmitMessage(m), o)
  {
    hide StoreLeaves, StreamState.Store, EmitLeaves, Writing, EmitMessage;
    ghost var st0, ls := s.State(), MessageLeaves(m);
    EmitOf(st0, m);
    EncodeHeader(m, s);
    WriteOne(st0, s.State(), ls, 2);
    s.EncodeU32(m.body.count);
    WroteAll(st0, s.State(), ls);
    o := Done;
  }

  method EncodeStatResponse(m: Message, s: MessageStream) returns (o: Outcome)
    requires s.Valid() && m.body.StatResponse?
    modifies s
    ensures s.Valid() && Wrote(old(s.State()), s.State(), EmitMessage(m), o)
  {
    hide StoreLeaves, StreamState.Store, EmitLeaves, Writing, EmitMessage;
    ghost var st0, ls := s.State(), MessageLeaves(m);
    EmitOf(st0, m);
    EncodeHeader(m, s);
    WriteOne(st0, s.State(), ls, 2);
    :- s.EncodeString(m.body.text);
    WroteAll(st0, s.State(), ls);
    o := Done;
  }

  method EncodeWalkRequest(m: Message, s: MessageStream) returns (o: Outcome)
    requires s.Valid() && m.body.WalkRequest?
    modifies s
    ensures s.Valid() && Wrote(old(s.State()), s.State(), EmitMessage(m), o)
  {
    hide StoreLeaves, StreamState.Store, EmitLeaves, Writing, EmitMessage;
    ghost var st0, ls := s.State(), MessageLeaves(m);
    EmitOf(st0, m);
    EncodeHeader(m, s);
    WriteOne(st0, s.State(), ls, 2);
    s.EncodeU32(m.body.fid);
    WriteOne(st0, s.State(), ls, 3);
    s.EncodeU32(m.body.newfid);
    WroteAll(st0, s.State(), ls);
    o := EncodeNames(m.body.wname, s);
  }

  method EncodeWalkResponse(m: Message, s: MessageStream) returns (o: Outcome)
    requires s.Valid() && m.body.WalkResponse?
    modifies s
    ensures s.Valid() && Wrote(old(s.State()), s.State(), EmitMessage(m), o)
  {
    hide StoreLeaves, StreamState.Store, EmitLeaves, Writing, EmitMessage;
    ghost var st0, ls := s.State(), MessageLeaves(m);
    EmitOf(st0, m);
    EncodeHeader(m, s);
    WroteAll(st0, s.State(), ls);
    o := EncodeQids(m.body.wqid, s);
  }

  method EncodeReadResponse(m: Message, s: MessageStream) returns (o: Outcome)
    requires s.Valid() && m.body.ReadResponse?
    modifies s
    ensures s.Valid() && Wrote(old(s.State()), s.State(), EmitMessage(m), o)
  {
    hide StoreLeaves, StreamState.Store, EmitLeaves, Writing, EmitMessage;
    ghost var st0, ls := s.State(), MessageLeaves(m);
    EmitOf(st0, m);
    EncodeHeader(m, s);
    WroteAll(st0, s.State(), ls);
    o := EncodeData(m.body.data, s);
  }

  method EncodeWriteRequest(m: Message, s: MessageStream) returns (o: Outcome)
    requires s.Valid() && m.body.WriteRequest?
    modifies s
    ensures s.Valid() && Wrote(old(s.State()), s.State(), EmitMessage(m), o)
  {
    hide StoreLeaves, StreamState.Store, EmitLeaves, Writing, EmitMessage;
    ghost var st0, ls := s.State(), MessageLeaves(m);
    EmitOf(st0, m);
    EncodeHeader(m, s);
    WriteOne(st0, s.State(), ls, 2);
    s.EncodeU32(m.body.fid);
    WriteOne(st0, s.State(), ls, 3);
    s.EncodeU64(m.body.offset);
    WroteAll(st0, s.State(), ls);
    o := EncodeData(m.body.data, s);
  }

  method EncodeWStatRequest(m: Message, s: MessageStream) returns (o: Outcome)
    requires s.Valid() && m.body.WStatRequest?
    modifies s
    ensures s.Valid() && Wrote(old(s.State()), s.State(), EmitMessage(m), o)
  {
    hide StoreLeaves, StreamState.Store, EmitLeaves, Writing, EmitMessage;
    ghost var st0, ls := s.State(), MessageLeaves(m);
    EmitOf(st0, m);
    EncodeHeader(m, s);
    WriteOne(st0, s.State(), ls, 2);
    s.EncodeU32(m.body.fid);
    WroteAll(st0, s.State(), ls);
    o := EncodeStat(m.body.stat, s);
  }

  /**
    * Encoding an Interaction: the held type's own `encode`; an undefined message throws at once.
    * Whether it returns or throws, what lies before the write position is untouched, and at the end
    * of a good stream everything it wrote has been appended.
    */
  method EncodeMessage(m: Message, s: MessageStream) returns (o: Outcome)
    requires s.Valid()
    modifies s
    ensures s.Valid() && s.State() == old(s.State()).Store(EmitMessage(m).bytes)
    ensures o == if EmitMessage(m).ok then Done
                 else if IsUndefined(m.body) then Threw(UndefinedMessage) else Threw(TooLong)
    ensures |s.buf| >= |old(s.buf)| && s.buf[..old(s.wpos)] == old(s.buf)[..old(s.wpos)]
    ensures old(s.good) && old(s.wpos) == |old(s.buf)| ==> s.buf == old(s.buf) + EmitMessage(m).bytes
  {
    ghost var st0 := s.State();
    StoreKeepsPrefix(st0, EmitMessage(m).bytes);
    if st0.good && st0.AtEnd() { StoreAppends(st0, EmitMessage(m).bytes); }
    hide EmitMessage, IsUndefined, StreamState.Store;
    o := EncodeHeld(m, s);
  }

  method EncodeHeld(m: Message, s: MessageStream) returns (o: Outcome)
    requires s.Valid()
    modifies s
    ensures s.Valid() && s.State() == old(s.State()).Store(EmitMessage(m).bytes)
    ensures o == if EmitMessage(m).ok then Done
                 else if IsUndefined(m.body) then Threw(UndefinedMessage) else Threw(TooLong)
  {
    hide EmitForm, StreamState.Store;
    match m.body {
      case UndefinedRequest | UndefinedResponse =>
        StoreNothing(s.State());
        o := Threw(UndefinedMessage);
      case ErrorRequest | FlushResponse | ClunkResponse | RemoveResponse | WStatResponse => o := EncodeHeaderOnly(m, s);
      case ErrorResponse(_) => o := EncodeErrorResponse(m, s);
      case VersionRequest(_, _) | VersionResponse(_, _) => o := EncodeVersion(m, s);
      case AuthRequest(_, _, _) => o := EncodeAuthRequest(m, s);
      case AuthResponse(_) | AttachResponse(_) => o := EncodeQidResponse(m, s);
      case FlushRequest(_) => o := EncodeFlushRequest(m, s);
      case AttachRequest(_, _, _, _) => o := EncodeAttachRequest(m, s);
      case OpenRequest(_, _) => o := EncodeOpenRequest(m, s);
      case OpenResponse(_, _) | CreateResponse(_, _) => o := EncodeOpenOrCreateResponse(m, s);
      case CreateRequest(_, _, _, _) => o := EncodeCreateRequest(m, s);
      case ClunkRequest(_) | RemoveRequest(_) | StatRequest(_) => o := EncodeFidRequest(m, s);
      case ReadRequest(_, _, _) => o := EncodeReadRequest(m, s);
      case WriteResponse(_) => o := EncodeWriteResponse(m, s);
      case StatResponse(_) => o := EncodeStatResponse(m, s);
      case WalkRequest(_, _, _) => o := EncodeWalkRequest(m, s);
      case WalkResponse(_) => o := EncodeWalkResponse(m, s);
      case ReadResponse(_) => o := EncodeReadResponse(m, s);
      case WriteRequest(_, _, _) => o := EncodeWriteRequest(m, s);
      case WStatRequest(_, _) => o := EncodeWStatRequest(m, s);
    }
  }

  // Decoders, type by type.

  lemma HeaderOnlyLayout(m: Message)
    requires HasNoBody(m.body)
    ensures !IsUndefined(m.body) && KindsFor(m) == [KU8, KU16]
    ensures MessageLeaves(m) == [U8(m.op), U16(m.tag)]
    ensures BodyTail(m.body) == NoTail
  {
  }

  method DecodeHeaderOnly(held: Message, s: MessageStream) returns (r: Result<Message>)
    requires s.Valid() && HasNoBody(held.body)
    modifies s
    ensures s.Valid() && TookInto(held, old(s.State()), s.State(), r)
  {
    hide Reading, TakeLeaves, TakeLeaf, TakeTail, TakeInto, IsSuffix, StreamState.After, StreamState.Unread;
    hide ConceptOf, DirectionOf, KindsFor, TailKindOf, MessageLeaves, BodyTail, IsUndefined, Snoc, TookInto, Merge;
    ghost var st0, ks := s.State(), KindsFor(held);
    HeaderOnlyLayout(held);
    ShortOf(held, st0);
    var h :- DecodeHeader(s, ks);
    ghost var done := [U8(h.0), U16(h.1)];
    ReadAll(st0, s.State(), ks, done);
    var m := Message(h.0, h.1, held.body);
    HeaderOnlyLayout(m);
    CompleteAfterLeaves(held, st0, s.State(), m);
    r := Value(m);
  }

  lemma ErrorResponseLayout(m: Message)
    requires m.body.ErrorResponse?
    ensures !IsUndefined(m.body) && KindsFor(m) == [KU8, KU16, KStr]
    ensures MessageLeaves(m) == Snoc([U8(m.op), U16(m.tag)], Leaf.Str(m.body.ename))
    ensures BodyTail(m.body) == NoTail
    ensures ConceptOf(m.body) == Error
    ensures DirectionOf(m.body) == Response
  {
  }

  method DecodeErrorResponse(held: Message, s: MessageStream) returns (r: Result<Message>)
    requires s.Valid() && held.body.ErrorResponse?
    modifies s
    ensures s.Valid() && TookInto(held, old(s.State()), s.State(), r)
  {
    hide Reading, TakeLeaves, TakeLeaf, TakeTail, TakeInto, IsSuffix, StreamState.After, StreamState.Unread;
    hide ConceptOf, DirectionOf, KindsFor, TailKindOf, MessageLeaves, BodyTail, IsUndefined, Snoc, TookInto, Merge;
    ghost var st0, ks := s.State(), KindsFor(held);
    ErrorResponseLayout(held);
    ShortOf(held, st0);
    var h :- DecodeHeader(s, ks);
    ghost var done := [U8(h.0), U16(h.1)];
    var ename :- NextString(s, st0, ks, done);
    done := Snoc(done, Leaf.Str(ename));
    ReadAll(st0, s.State(), ks, done);
    var m := Message(h.0, h.1, ErrorResponse(ename));
    ErrorResponseLayout(m);
    CompleteAfterLeaves(held, st0, s.State(), m);
    r := Value(m);
  }

  lemma VersionLayout(m: Message)
    requires m.body.VersionRequest? || m.body.VersionResponse?
    ensures !IsUndefined(m.body) && KindsFor(m) == [KU8, KU16, KU16, KStr]
    ensures MessageLeaves(m) == Snoc(Snoc([U8(m.op), U16(m.tag)], U16(m.body.msize)), Leaf.Str(m.body.version))
    ensures BodyTail(m.body) == NoTail
    ensures ConceptOf(m.body) == Version
    ensures DirectionOf(m.body) == (if m.body.VersionRequest? then Request else Response)
  {
  }

  method DecodeVersion(held: Message, s: MessageStream) returns (r: Result<Message>)
    requires s.Valid() && (held.body.VersionRequest? || held.body.VersionResponse?)
    modifies s
    ensures s.Valid() && TookInto(held, old(s.State()), s.State(), r)
  {
    hide Reading, TakeLeaves, TakeLeaf, TakeTail, TakeInto, IsSuffix, StreamState.After, StreamState.Unread;
    hide ConceptOf, DirectionOf, KindsFor, TailKindOf, MessageLeaves, BodyTail, IsUndefined, Snoc, TookInto, Merge;
    ghost var st0, ks := s.State(), KindsFor(held);
    VersionLayout(held);
    ShortOf(held, st0);
    var h :- DecodeHeader(s, ks);
    ghost var done := [U8(h.0), U16(h.1)];
    var msize :- NextU16(s, st0, ks, done);
    done := Snoc(done, U16(msize));
    var version :- NextString(s, st0, ks, done);
    done := Snoc(done, Leaf.Str(version));
    ReadAll(st0, s.State(), ks, done);
    var m := Message(h.0, h.1,
      if held.body.VersionRequest? then VersionRequest(msize, version) else VersionResponse(msize, version));
    VersionLayout(m);
    CompleteAfterLeaves(held, st0, s.State(), m);
    r := Value(m);
  }

  lemma AuthRequestLayout(m: Message)
    requires m.body.AuthRequest?
    ensures !IsUndefined(m.body) && KindsFor(m) == [KU8, KU16, KU32, KStr, KStr]
    ensures MessageLeaves(m)
         == Snoc(Snoc(Snoc([U8(m.op), U16(m.tag)], U32(m.body.afid)), Leaf.Str(m.body.uname)), Leaf.Str(m.body.aname))
    ensures BodyTail(m.body) == NoTail
    ensures ConceptOf(m.body) == Auth
    ensures DirectionOf(m.body) == Request
  {
  }

  method DecodeAuthRequest(held: Message, s: MessageStream) returns (r: Result<Message>)
    requires s.Valid() && held.body.AuthRequest?
    modifies s
    ensures s.Valid() && TookInto(held, old(s.State()), s.State(), r)
  {
    hide Reading, TakeLeaves, TakeLeaf, TakeTail, TakeInto, IsSuffix, StreamState.After, StreamState.Unread;
    hide ConceptOf, DirectionOf, KindsFor, TailKindOf, MessageLeaves, BodyTail, IsUndefined, Snoc, TookInto, Merge;
    ghost var st0, ks := s.State(), KindsFor(held);
    AuthRequestLayout(held);
    ShortOf(held, st0);
    var h :- DecodeHeader(s, ks);
    ghost var done := [U8(h.0), U16(h.1)];
    var afid :- NextU32(s, st0, ks, done);
    done := Snoc(done, U32(afid));
    var uname :- NextString(s, st0, ks, done);
    done := Snoc(done, Leaf.Str(uname));
    var aname :- NextString(s, st0, ks, done);
    done := Snoc(done, Leaf.Str(aname));
    ReadAll(st0, s.State(), ks, done);
    var m := Message(h.0, h.1, AuthRequest(afid, uname, aname));
    AuthRequestLayout(m);
    CompleteAfterLeaves(held, st0, s.State(), m);
    r := Value(m);
  }

  lemma QidResponseLayout(m: Message)
    requires m.body.AuthResponse? || m.body.AttachResponse?
    ensures !IsUndefined(m.body) && KindsFor(m) == [KU8, KU16, KQid]
    ensures MessageLeaves(m) == Snoc([U8(m.op), U16(m.tag)], Id(m.body.qid))
    ensures BodyTail(m.body) == NoTail
    ensures ConceptOf(m.body) == (if m.body.AuthResponse? then Auth else Attach)
    ensures DirectionOf(m.body) == Response
  {
  }

  method DecodeQidResponse(held: Message, s: MessageStream) returns (r: Result<Message>)
    requires s.Valid() && (held.body.AuthResponse? || held.body.AttachResponse?)
    modifies s
    ensures s.Valid() && TookInto(held, old(s.State()), s.State(), r)
  {
    hide Reading, TakeLeaves, TakeLeaf, TakeTail, TakeInto, IsSuffix, StreamState.After, StreamState.Unread;
    hide ConceptOf, DirectionOf, KindsFor, TailKindOf, MessageLeaves, BodyTail, IsUndefined, Snoc, TookInto, Merge;
    ghost var st0, ks := s.State(), KindsFor(held);
    QidResponseLayout(held);
    ShortOf(held, st0);
    var h :- DecodeHeader(s, ks);
    ghost var done := [U8(h.0), U16(h.1)];
    var qid :- NextQid(s, st0, ks, done);
    done := Snoc(done, Id(qid));
    ReadAll(st0, s.State(), ks, done);
    var m := Message(h.0, h.1,
      if held.body.AuthResponse? then AuthResponse(qid) else AttachResponse(qid));
    QidResponseLayout(m);
    CompleteAfterLeaves(held, st0, s.State(), m);
    r := Value(m);
  }

  lemma FlushRequestLayout(m: Message)
    requires m.body.FlushRequest?
    ensures !IsUndefined(m.body) && KindsFor(m) == [KU8, KU16, KU16]
    ensures MessageLeaves(m) == Snoc([U8(m.op), U16(m.tag)], U16(m.body.oldtag))
    ensures BodyTail(m.body) == NoTail
    ensures ConceptOf(m.body) == Flush
    ensures DirectionOf(m.body) == Request
  {
  }

  method DecodeFlushRequest(held: Message, s: MessageStream) returns (r: Result<Message>)
    requires s.Valid() && held.body.FlushRequest?
    modifies s
    ensures s.Valid() && TookInto(held, old(s.State()), s.State(), r)
  {
    hide Reading, TakeLeaves, TakeLeaf, TakeTail, TakeInto, IsSuffix, StreamState.After, StreamState.Unread;
    hide ConceptOf, DirectionOf, KindsFor, TailKindOf, MessageLeaves, BodyTail, IsUndefined, Snoc, TookInto, Merge;
    ghost var st0, ks := s.State(), KindsFor(held);
    FlushRequestLayout(held);
    ShortOf(held, st0);
    var h :- DecodeHeader(s, ks);
    ghost var done := [U8(h.0), U16(h.1)];
    var oldtag :- NextU16(s, st0, ks, done);
    done := Snoc(done, U16(oldtag));
    ReadAll(st0, s.State(), ks, done);
    var m := Message(h.0, h.1, FlushRequest(oldtag));
    FlushRequestLayout(m);
    CompleteAfterLeaves(held, st0, s.State(), m);
    r := Value(m);
  }

  lemma AttachRequestLayout(m: Message)
    requires m.body.AttachRequest?
    ensures !IsUndefined(m.body) && KindsFor(m) == [KU8, KU16, KU32, KU32, KStr, KStr]
    ensures MessageLeaves(m)
         == Snoc(Snoc(Snoc(Snoc([U8(m.op), U16(m.tag)], U32(m.body.fid)), U32(m.body.afid)),
                 Leaf.Str(m.body.uname)), Leaf.Str(m.body.aname))
    ensures BodyTail(m.body) == NoTail
    ensures ConceptOf(m.body) == Attach
    ensures DirectionOf(m.body) == Request
  {
  }

  method DecodeAttachRequest(held: Message, s: MessageStream) returns (r: Result<Message>)
    requires s.Valid() && held.body.AttachRequest?
    modifies s
    ensures s.Valid() && TookInto(held, old(s.State()), s.State(), r)
  {
    hide Reading, TakeLeaves, TakeLeaf, TakeTail, TakeInto, IsSuffix, StreamState.After, StreamState.Unread;
    hide ConceptOf, DirectionOf, KindsFor, TailKindOf, MessageLeaves, BodyTail, IsUndefined, Snoc, TookInto, Merge;
    ghost var st0, ks := s.State(), KindsFor(held);
    AttachRequestLayout(held);
    ShortOf(held, st0);
    var h :- DecodeHeader(s, ks);
    ghost var done := [U8(h.0), U16(h.1)];
    var fid :- NextU32(s, st0, ks, done);
    done := Snoc(done, U32(fid));
    var afid :- NextU32(s, st0, ks, done);
    done := Snoc(done, U32(afid));
    var uname :- NextString(s, st0, ks, done);
    done := Snoc(done, Leaf.Str(uname));
    var aname :- NextString(s, st0, ks, done);
    done := Snoc(done, Leaf.Str(aname));
    ReadAll(st0, s.State(), ks, done);
    var m := Message(h.0, h.1, AttachRequest(fid, afid, uname, aname));
    AttachRequestLayout(m);
    CompleteAfterLeaves(held, st0, s.State(), m);
    r := Value(m);
  }

  lemma OpenRequestLayout(m: Message)
    requires m.body.OpenRequest?
    ensures !IsUndefined(m.body) && KindsFor(m) == [KU8, KU16, KU32, KU8]
    ensures MessageLeaves(m) == Snoc(Snoc([U8(m.op), U16(m.tag)], U32(m.body.fid)), U8(m.body.mode))
    ensures BodyTail(m.body) == NoTail
    ensures ConceptOf(m.body) == Open
    ensures DirectionOf(m.body) == Request
  {
  }

  method DecodeOpenRequest(held: Message, s: MessageStream) returns (r: Result<Message>)
    requires s.Valid() && held.body.OpenRequest?
    modifies s
    ensures s.Valid() && TookInto(held, old(s.State()), s.State(), r)
  {
    hide Reading, TakeLeaves, TakeLeaf, TakeTail, TakeInto, IsSuffix, StreamState.After, StreamState.Unread;
    hide ConceptOf, DirectionOf, KindsFor, TailKindOf, MessageLeaves, BodyTail, IsUndefined, Snoc, TookInto, Merge;
    ghost var st0, ks := s.State(), KindsFor(held);
    OpenRequestLayout(held);
    ShortOf(held, st0);
    var h :- DecodeHeader(s, ks);
    ghost var done := [U8(h.0), U16(h.1)];
    var fid :- NextU32(s, st0, ks, done);
    done := Snoc(done, U32(fid));
    var mode :- NextU8(s, st0, ks, done);
    done := Snoc(done, U8(mode));
    ReadAll(st0, s.State(), ks, done);
    var m := Message(h.0, h.1, OpenRequest(fid, mode));
    OpenRequestLayout(m);
    CompleteAfterLeaves(held, st0, s.State(), m);
    r := Value(m);
  }

  lemma OpenOrCreateResponseLayout(m: Message)
    requires m.body.OpenResponse? || m.body.CreateResponse?
    ensures !IsUndefined(m.body) && KindsFor(m) == [KU8, KU16, KQid, KU32]
    ensures MessageLeaves(m) == Snoc(Snoc([U8(m.op), U16(m.tag)], Id(m.body.qid)), U32(m.body.iounit))
    ensures BodyTail(m.body) == NoTail
    ensures ConceptOf(m.body) == (if m.body.OpenResponse? then Open else Create)
    ensures DirectionOf(m.body) == Response
  {
  }

  method DecodeOpenOrCreateResponse(held: Message, s: MessageStream) returns (r: Result<Message>)
    requires s.Valid() && (held.body.OpenResponse? || held.body.CreateResponse?)
    modifies s
    ensures s.Valid() && TookInto(held, old(s.State()), s.State(), r)
  {
    hide Reading, TakeLeaves, TakeLeaf, TakeTail, TakeInto, IsSuffix, StreamState.After, StreamState.Unread;
    hide ConceptOf, DirectionOf, KindsFor, TailKindOf, MessageLeaves, BodyTail, IsUndefined, Snoc, TookInto, Merge;
    ghost var st0, ks := s.State(), KindsFor(held);
    OpenOrCreateResponseLayout(held);
    ShortOf(held, st0);
    var h :- DecodeHeader(s, ks);
    ghost var done := [U8(h.0), U16(h.1)];
    var qid :- NextQid(s, st0, ks, done);
    done := Snoc(done, Id(qid));
    var iounit :- NextU32(s, st0, ks, done);
    done := Snoc(done, U32(iounit));
    ReadAll(st0, s.State(), ks, done);
    var m := Message(h.0, h.1,
      if held.body.OpenResponse? then OpenResponse(qid, iounit) else CreateResponse(qid, iounit));
    OpenOrCreateResponseLayout(m);
    CompleteAfterLeaves(held, st0, s.State(), m);
    r := Value(m);
  }

  lemma CreateRequestLayout(m: Message)
    requires m.body.CreateRequest?
    ensures !IsUndefined(m.body) && KindsFor(m) == [KU8, KU16, KU32, KStr, KU32, KU8]
    ensures MessageLeaves(m)
         == Snoc(Snoc(Snoc(Snoc([U8(m.op), U16(m.tag)], U32(m.body.fid)),
                 Leaf.Str(m.body.name)), U32(m.body.perm)), U8(m.body.mode))
    ensures BodyTail(m.body) == NoTail
    ensures ConceptOf(m.body) == Create
    ensures DirectionOf(m.body) == Request
  {
  }

  method DecodeCreateRequest(held: Message, s: MessageStream) returns (r: Result<Message>)
    requires s.Valid() && held.body.CreateRequest?
    modifies s
    ensures s.Valid() && TookInto(held, old(s.State()), s.State(), r)
  {
    hide Reading, TakeLeaves, TakeLeaf, TakeTail, TakeInto, IsSuffix, StreamState.After, StreamState.Unread;
    hide ConceptOf, DirectionOf, KindsFor, TailKindOf, MessageLeaves, BodyTail, IsUndefined, Snoc, TookInto, Merge;
    ghost var st0, ks := s.State(), KindsFor(held);
    CreateRequestLayout(held);
    ShortOf(held, st0);
    var h :- DecodeHeader(s, ks);
    ghost var done := [U8(h.0), U16(h.1)];
    var fid :- NextU32(s, st0, ks, done);
    done := Snoc(done, U32(fid));
    var name :- NextString(s, st0, ks, done);
    done := Snoc(done, Leaf.Str(name));
    var perm :- NextU32(s, st0, ks, done);
    done := Snoc(done, U32(perm));
    var mode :- NextU8(s, st0, ks, done);
    done := Snoc(done, U8(mode));
    ReadAll(st0, s.State(), ks, done);
    var m := Message(h.0, h.1, CreateRequest(fid, name, perm, mode));
    CreateRequestLayout(m);
    CompleteAfterLeaves(held, st0, s.State(), m);
    r := Value(m);
  }

  lemma FidRequestLayout(m: Message)
    requires m.body.ClunkRequest? || m.body.RemoveRequest? || m.body.StatRequest?
    ensures !IsUndefined(m.body) && KindsFor(m) == [KU8, KU16, KU32]
    ensures MessageLeaves(m) == Snoc([U8(m.op), U16(m.tag)], U32(m.body.fid))
    ensures BodyTail(m.body) == NoTail
    ensures ConceptOf(m.body)
         == (if m.body.ClunkRequest? then Clunk else if m.body.RemoveRequest? then Remove else Concept.Stat)
    ensures DirectionOf(m.body) == Request
  {
  }

  method DecodeFidRequest(held: Message, s: MessageStream) returns (r: Result<Message>)
    requires s.Valid() && (held.body.ClunkRequest? || held.body.RemoveRequest? || held.body.StatRequest?)
    modifies s
    ensures s.Valid() && TookInto(held, old(s.State()), s.State(), r)
  {
    hide Reading, TakeLeaves, TakeLeaf, TakeTail, TakeInto, IsSuffix, StreamState.After, StreamState.Unread;
    hide ConceptOf, DirectionOf, KindsFor, TailKindOf, MessageLeaves, BodyTail, IsUndefined, Snoc, TookInto, Merge;
    ghost var st0, ks := s.State(), KindsFor(held);
    FidRequestLayout(held);
    ShortOf(held, st0);
    var h :- DecodeHeader(s, ks);
    ghost var done := [U8(h.0), U16(h.1)];
    var fid :- NextU32(s, st0, ks, done);
    done := Snoc(done, U32(fid));
    ReadAll(st0, s.State(), ks, done);
    var m := Message(h.0, h.1,
      if held.body.ClunkRequest? then ClunkRequest(fid)
      else if held.body.RemoveRequest? then RemoveRequest(fid)
      else StatRequest(fid));
    FidRequestLayout(m);
    CompleteAfterLeaves(held, st0, s.State(), m);
    r := Value(m);
  }

  lemma ReadRequestLayout(m: Message)
    requires m.body.ReadRequest?
    ensures !IsUndefined(m.body) && KindsFor(m) == [KU8, KU16, KU32, KU64, KU32]
    ensures MessageLeaves(m)
         == Snoc(Snoc(Snoc([U8(m.op), U16(m.tag)], U32(m.body.fid)), U64(m.body.offset)), U32(m.body.count))
    ensures BodyTail(m.body) == NoTail
    ensures ConceptOf(m.body) == Read
    ensures DirectionOf(m.body) == Request
  {
  }

  method DecodeReadRequest(held: Message, s: MessageStream) returns (r: Result<Message>)
    requires s.Valid() && held.body.ReadRequest?
    modifies s
    ensures s.Valid() && TookInto(held, old(s.State()), s.State(), r)
  {
    hide Reading, TakeLeaves, TakeLeaf, TakeTail, TakeInto, IsSuffix, StreamState.After, StreamState.Unread;
    hide ConceptOf, DirectionOf, KindsFor, TailKindOf, MessageLeaves, BodyTail, IsUndefined, Snoc, TookInto, Merge;
    ghost var st0, ks := s.State(), KindsFor(held);
    ReadRequestLayout(held);
    ShortOf(held, st0);
    var h :- DecodeHeader(s, ks);
    ghost var done := [U8(h.0), U16(h.1)];
    var fid :- NextU32(s, st0, ks, done);
    done := Snoc(done, U32(fid));
    var offset :- NextU64(s, st0, ks, done);
    done := Snoc(done, U64(offset));
    var count :- NextU32(s, st0, ks, done);
    done := Snoc(done, U32(count));
    ReadAll(st0, s.State(), ks, done);
    var m := Message(h.0, h.1, ReadRequest(fid, offset, count));
    ReadRequestLayout(m);
    CompleteAfterLeaves(held, st0, s.State(), m);
    r := Value(m);
  }

  lemma WriteResponseLayout(m: Message)
    requires m.body.WriteResponse?
    ensures !IsUndefined(m.body) && KindsFor(m) == [KU8, KU16, KU32]
    ensures MessageLeaves(m) == Snoc([U8(m.op), U16(m.tag)], U32(m.body.count))
    ensures BodyTail(m.body) == NoTail
    ensures ConceptOf(m.body) == Write
    ensures DirectionOf(m.body) == Response
  {
  }

  method DecodeWriteResponse(held: Message, s: MessageStream) returns (r: Result<Message>)
    requires s.Valid() && held.body.WriteResponse?
    modifies s
    ensures s.Valid() && TookInto(held, old(s.State()), s.State(), r)
  {
    hide Reading, TakeLeaves, TakeLeaf, TakeTail, TakeInto, IsSuffix, StreamState.After, StreamState.Unread;
    hide ConceptOf, DirectionOf, KindsFor, TailKindOf, MessageLeaves, BodyTail, IsUndefined, Snoc, TookInto, Merge;
    ghost var st0, ks := s.State(), KindsFor(held);
    WriteResponseLayout(held);
    ShortOf(held, st0);
    var h :- DecodeHeader(s, ks);
    ghost var done := [U8(h.0), U16(h.1)];
    var count :- NextU32(s, st0, ks, done);
    done := Snoc(done, U32(count));
    ReadAll(st0, s.State(), ks, done);
    var m := Message(h.0, h.1, WriteResponse(count));
    WriteResponseLayout(m);
    CompleteAfterLeaves(held, st0, s.State(), m);
    r := Value(m);
  }

  lemma StatResponseLayout(m: Message)
    requires m.body.StatResponse?
    ensures !IsUndefined(m.body) && KindsFor(m) == [KU8, KU16, KStr]
    ensures MessageLeaves(m) == Snoc([U8(m.op), U16(m.tag)], Leaf.Str(m.body.text))
    ensures BodyTail(m.body) == NoTail
    ensures ConceptOf(m.body) == Concept.Stat
    ensures DirectionOf(m.body) == Response
  {
  }

  method DecodeStatResponse(held: Message, s: MessageStream) returns (r: Result<Message>)
    requires s.Valid() && held.body.StatResponse?
    modifies s
    ensures s.Valid() && TookInto(held, old(s.State()), s.State(), r)
  {
    hide Reading, TakeLeaves, TakeLeaf, TakeTail, TakeInto, IsSuffix, StreamState.After, StreamState.Unread;
    hide ConceptOf, DirectionOf, KindsFor, TailKindOf, MessageLeaves, BodyTail, IsUndefined, Snoc, TookInto, Merge;
    ghost var st0, ks := s.State(), KindsFor(held);
    StatResponseLayout(held);
    ShortOf(held, st0);
    var h :- DecodeHeader(s, ks);
    ghost var done := [U8(h.0), U16(h.1)];
    var text :- NextString(s, st0, ks, done);
    done := Snoc(done, Leaf.Str(text));
    ReadAll(st0, s.State(), ks, done);
    var m := Message(h.0, h.1, StatResponse(text));
    StatResponseLayout(m);
    CompleteAfterLeaves(held, st0, s.State(), m);
    r := Value(m);
  }

  lemma WalkRequestLayout(m: Message)
    requires m.body.WalkRequest?
    ensures !IsUndefined(m.body) && KindsFor(m) == [KU8, KU16, KU32, KU32]
    ensures MessageLeaves(m) == Snoc(Snoc([U8(m.op), U16(m.tag)], U32(m.body.fid)), U32(m.body.newfid))
    ensures BodyTail(m.body) == List(KStr, NameLeaves(m.body.wname))
    ensures TailKindOf(ConceptOf(m.body), DirectionOf(m.body)) == KList(KStr)
    ensures ConceptOf(m.body) == Walk
    ensures DirectionOf(m.body) == Request
  {
  }

  method DecodeWalkRequest(held: Message, s: MessageStream) returns (r: Result<Message>)
    requires s.Valid() && held.body.WalkRequest?
    modifies s
    ensures s.Valid() && TookInto(held, old(s.State()), s.State(), r)
  {
    hide Reading, TakeLeaves, TakeLeaf, TakeTail, TakeInto, IsSuffix, StreamState.After, StreamState.Unread;
    hide ConceptOf, DirectionOf, KindsFor, TailKindOf, MessageLeaves, BodyTail, IsUndefined, Snoc, TookInto, Merge;
    ghost var st0, ks := s.State(), KindsFor(held);
    WalkRequestLayout(held);
    ShortOf(held, st0);
    var h :- DecodeHeader(s, ks);
    ghost var done := [U8(h.0), U16(h.1)];
    var fid :- NextU32(s, st0, ks, done);
    done := Snoc(done, U32(fid));
    var newfid :- NextU32(s, st0, ks, done);
    done := Snoc(done, U32(newfid));
    ReadAll(st0, s.State(), ks, done);
    ghost var st1 := s.State();
    ShortTail(held, st0, st1, KList(KStr));
    var wname :- DecodeNames(s, held.body.wname);
    ghost var names := LeafNames(TakeTail(KList(KStr), st1.Unread()).value.items);
    ghost var read := Message(h.0, h.1, WalkRequest(fid, newfid, names));
    WalkRequestLayout(read);
    CompleteAfterTail(held, st0, st1, KList(KStr), read);
    MergeCases(held.body, read.body);
    r := Value(Message(h.0, h.1, WalkRequest(fid, newfid, wname)));
  }

  lemma WalkResponseLayout(m: Message)
    requires m.body.WalkResponse?
    ensures !IsUndefined(m.body) && KindsFor(m) == [KU8, KU16]
    ensures MessageLeaves(m) == [U8(m.op), U16(m.tag)]
    ensures BodyTail(m.body) == List(KQid, QidLeaves(m.body.wqid))
    ensures TailKindOf(ConceptOf(m.body), DirectionOf(m.body)) == KList(KQid)
    ensures ConceptOf(m.body) == Walk
    ensures DirectionOf(m.body) == Response
  {
  }

  method DecodeWalkResponse(held: Message, s: MessageStream) returns (r: Result<Message>)
    requires s.Valid() && held.body.WalkResponse?
    modifies s
    ensures s.Valid() && TookInto(held, old(s.State()), s.State(), r)
  {
    hide Reading, TakeLeaves, TakeLeaf, TakeTail, TakeInto, IsSuffix, StreamState.After, StreamState.Unread;
    hide ConceptOf, DirectionOf, KindsFor, TailKindOf, MessageLeaves, BodyTail, IsUndefined, Snoc, TookInto, Merge;
    ghost var st0, ks := s.State(), KindsFor(held);
    WalkResponseLayout(held);
    ShortOf(held, st0);
    var h :- DecodeHeader(s, ks);
    ghost var done := [U8(h.0), U16(h.1)];
    ReadAll(st0, s.State(), ks, done);
    ghost var st1 := s.State();
    ShortTail(held, st0, st1, KList(KQid));
    var wqid :- DecodeQids(s, held.body.wqid);
    ghost var read := Message(h.0, h.1, WalkResponse(LeafQids(TakeTail(KList(KQid), st1.Unread()).value.items)));
    WalkResponseLayout(read);
    CompleteAfterTail(held, st0, st1, KList(KQid), read);
    MergeCases(held.body, read.body);
    r := Value(Message(h.0, h.1, WalkResponse(wqid)));
  }

  lemma ReadResponseLayout(m: Message)
    requires m.body.ReadResponse?
    ensures !IsUndefined(m.body) && KindsFor(m) == [KU8, KU16]
    ensures MessageLeaves(m) == [U8(m.op), U16(m.tag)]
    ensures BodyTail(m.body) == Blob(m.body.data)
    ensures TailKindOf(ConceptOf(m.body), DirectionOf(m.body)) == KBlob
    ensures ConceptOf(m.body) == Read
    ensures DirectionOf(m.body) == Response
  {
  }

  method DecodeReadResponse(held: Message, s: MessageStream) returns (r: Result<Message>)
    requires s.Valid() && held.body.ReadResponse?
    modifies s
    ensures s.Valid() && TookInto(held, old(s.State()), s.State(), r)
  {
    hide Reading, TakeLeaves, TakeLeaf, TakeTail, TakeInto, IsSuffix, StreamState.After, StreamState.Unread;
    hide ConceptOf, DirectionOf, KindsFor, TailKindOf, MessageLeaves, BodyTail, IsUndefined, Snoc, TookInto, Merge;
    ghost var st0, ks := s.State(), KindsFor(held);
    ReadResponseLayout(held);
    ShortOf(held, st0);
    var h :- DecodeHeader(s, ks);
    ghost var done := [U8(h.0), U16(h.1)];
    ReadAll(st0, s.State(), ks, done);
    ghost var st1 := s.State();
    ShortTail(held, st0, st1, KBlob);
    var data :- DecodeData(s, held.body.data);
    ghost var read := Message(h.0, h.1, ReadResponse(TakeTail(KBlob, st1.Unread()).value.data));
    ReadResponseLayout(read);
    CompleteAfterTail(held, st0, st1, KBlob, read);
    MergeCases(held.body, read.body);
    r := Value(Message(h.0, h.1, ReadResponse(data)));
  }

  lemma WriteRequestLayout(m: Message)
    requires m.body.WriteRequest?
    ensures !IsUndefined(m.body) && KindsFor(m) == [KU8, KU16, KU32, KU64]
    ensures MessageLeaves(m) == Snoc(Snoc([U8(m.op), U16(m.tag)], U32(m.body.fid)), U64(m.body.offset))
    ensures BodyTail(m.body) == Blob(m.body.data)
    ensures TailKindOf(ConceptOf(m.body), DirectionOf(m.body)) == KBlob
    ensures ConceptOf(m.body) == Write
    ensures DirectionOf(m.body) == Request
  {
  }

  method DecodeWriteRequest(held: Message, s: MessageStream) returns (r: Result<Message>)
    requires s.Valid() && held.body.WriteRequest?
    modifies s
    ensures s.Valid() && TookInto(held, old(s.State()), s.State(), r)
  {
    hide Reading, TakeLeaves, TakeLeaf, TakeTail, TakeInto, IsSuffix, StreamState.After, StreamState.Unread;
    hide ConceptOf, DirectionOf, KindsFor, TailKindOf, MessageLeaves, BodyTail, IsUndefined, Snoc, TookInto, Merge;
    ghost var st0, ks := s.State(), KindsFor(held);
    WriteRequestLayout(held);
    ShortOf(held, st0);
    var h :- DecodeHeader(s, ks);
    ghost var done := [U8(h.0), U16(h.1)];
    var fid :- NextU32(s, st0, ks, done);
    done := Snoc(done, U32(fid));
    var offset :- NextU64(s, st0, ks, done);
    done := Snoc(done, U64(offset));
    ReadAll(st0, s.State(), ks, done);
    ghost var st1 := s.State();
    ShortTail(held, st0, st1, KBlob);
    var data :- DecodeData(s, held.body.data);
    ghost var read := Message(h.0, h.1, WriteRequest(fid, offset, TakeTail(KBlob, st1.Unread()).value.data));
    WriteRequestLayout(read);
    CompleteAfterTail(held, st0, st1, KBlob, read);
    MergeCases(held.body, read.body);
    r := Value(Message(h.0, h.1, WriteRequest(fid, offset, data)));
  }

  lemma WStatRequestLayout(m: Message)
    requires m.body.WStatRequest?
    ensures !IsUndefined(m.body) && KindsFor(m) == [KU8, KU16, KU32]
    ensures MessageLeaves(m) == Snoc([U8(m.op), U16(m.tag)], U32(m.body.fid))
    ensures BodyTail(m.body) == Record(m.body.stat)
    ensures TailKindOf(ConceptOf(m.body), DirectionOf(m.body)) == KStat
    ensures ConceptOf(m.body) == WStat
    ensures DirectionOf(m.body) == Request
  {
  }

  method DecodeWStatRequest(held: Message, s: MessageStream) returns (r: Result<Message>)
    requires s.Valid() && held.body.WStatRequest?
    modifies s
    ensures s.Valid() && TookInto(held, old(s.State()), s.State(), r)
  {
    hide Reading, TakeLeaves, TakeLeaf, TakeTail, TakeInto, IsSuffix, StreamState.After, StreamState.Unread;
    hide ConceptOf, DirectionOf, KindsFor, TailKindOf, MessageLeaves, BodyTail, IsUndefined, Snoc, TookInto, Merge;
    ghost var st0, ks := s.State(), KindsFor(held);
    WStatRequestLayout(held);
    ShortOf(held, st0);
    var h :- DecodeHeader(s, ks);
    ghost var done := [U8(h.0), U16(h.1)];
    var fid :- NextU32(s, st0, ks, done);
    done := Snoc(done, U32(fid));
    ReadAll(st0, s.State(), ks, done);
    ghost var st1 := s.State();
    ShortTail(held, st0, st1, KStat);
    var stat :- DecodeStat(s);
    ghost var read := Message(h.0, h.1, WStatRequest(fid, stat));
    WStatRequestLayout(read);
    CompleteAfterTail(held, st0, st1, KStat, read);
    MergeCases(held.body, read.body);
    r := Value(Message(h.0, h.1, WStatRequest(fid, stat)));
  }

  /** The held object's own `decode`. */
  method DecodeHeld(held: Message, s: MessageStream) returns (r: Result<Message>)
    requires s.Valid()
    modifies s
    ensures s.Valid()
    ensures IsUndefined(held.body) ==> r == Thrown(UndefinedMessage) && s.State() == old(s.State())
    ensures !IsUndefined(held.body) ==> TookInto(held, old(s.State()), s.State(), r)
  {
    hide TookInto;
    match held.body {
      case UndefinedRequest | UndefinedResponse => r := Thrown(UndefinedMessage);
      case ErrorRequest | FlushResponse | ClunkResponse | RemoveResponse | WStatResponse =>
        r := DecodeHeaderOnly(held, s);
      case ErrorResponse(_) => r := DecodeErrorResponse(held, s);
      case VersionRequest(_, _) | VersionResponse(_, _) => r := DecodeVersion(held, s);
      case AuthRequest(_, _, _) => r := DecodeAuthRequest(held, s);
      case AuthResponse(_) | AttachResponse(_) => r := DecodeQidResponse(held, s);
      case FlushRequest(_) => r := DecodeFlushRequest(held, s);
      case AttachRequest(_, _, _, _) => r := DecodeAttachRequest(held, s);
      case OpenRequest(_, _) => r := DecodeOpenRequest(held, s);
      case OpenResponse(_, _) | CreateResponse(_, _) => r := DecodeOpenOrCreateResponse(held, s);
      case CreateRequest(_, _, _, _) => r := DecodeCreateRequest(held, s);
      case ClunkRequest(_) | RemoveRequest(_) | StatRequest(_) => r := DecodeFidRequest(held, s);
      case ReadRequest(_, _, _) => r := DecodeReadRequest(held, s);
      case WriteResponse(_) => r := DecodeWriteResponse(held, s);
      case StatResponse(_) => r := DecodeStatResponse(held, s);
      case WalkRequest(_, _, _) => r := DecodeWalkRequest(held, s);
      case WalkResponse(_) => r := DecodeWalkResponse(held, s);
      case ReadResponse(_) => r := DecodeReadResponse(held, s);
      case WriteRequest(_, _, _) => r := DecodeWriteRequest(held, s);
      case WStatRequest(_, _) => r := DecodeWStatRequest(held, s);
    }
  }
}
