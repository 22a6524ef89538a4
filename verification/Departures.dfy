/**
  * Places where the code as written does something other than what it is for.  The
  * rest of the model follows the evident intent; here the literal behaviour is
  * stated, with exactly when the two agree.
  */
module Departures {
  import opened LittleEndian

  /**
    * `decode(std::string&)` reserves capacity instead of resizing: the bytes read land in the
    * string's storage, but its length stays what it was.
    */
  function LiteralDecodedString(held: bytes, read: bytes): (s: bytes)
    ensures |s| == |held|
    ensures forall i :: 0 <= i < |held| ==> s[i] == if i < |read| then read[i] else held[i]
  {
    if |read| >= |held| then read[..|held|] else read + held[|read|..]
  }

  /** So it yields the string read exactly when the old string already had that length. */
  lemma LiteralStringAgreesIffSameLength(held: bytes, read: bytes)
    ensures LiteralDecodedString(held, read) == read <==> |held| == |read|
  {
    if |held| == |read| { assert read[..|held|] == read; }
  }

  /** The 64-bit decode if the compiler evaluates its second argument first. */
  function HighWordFirst(bs: bytes): u64
    requires |bs| == 8
  {
    Build64(U32Of(bs[4..]), U32Of(bs[..4]))
  }

  /** The unspecified order of evaluation is harmless exactly when the two words are equal. */
  lemma WordOrderMattersUnlessEqual(bs: bytes)
    requires |bs| == 8
    ensures HighWordFirst(bs) == U64Of(bs[4..] + bs[..4])
    ensures HighWordFirst(bs) == U64Of(bs) <==> bs[..4] == bs[4..]
  {
    hide Val, LE, Build64;
    Build64OfHalves(bs[4..], bs[..4]);
    Build64OfHalves(bs[..4], bs[4..]);
    assert bs[..4] + bs[4..] == bs;
    LEOfVal(bs[..4]);
    LEOfVal(bs[4..]);
  }

  /** The two tests of `Connection::read` on its second raw read, as written. */
  predicate LiteralReadDelivers(bytesRead: nat, bytesRead2: nat, messageSize: nat) {
    bytesRead == 4 && messageSize >= 4 && bytesRead2 == messageSize && bytesRead2 + bytesRead == messageSize
  }

  /** The tests of `Connection::read` that the model keeps. */
  predicate IntendedReadDelivers(bytesRead: nat, bytesRead2: nat, messageSize: nat) {
    bytesRead == 4 && messageSize >= 4 && bytesRead2 + bytesRead == messageSize
  }

  /** As written no counts pass, while those intended are passed by every frame. */
  lemma LiteralReadNeverDelivers(bytesRead: nat, bytesRead2: nat, messageSize: nat)
    ensures !LiteralReadDelivers(bytesRead, bytesRead2, messageSize)
    ensures messageSize >= 4 ==> IntendedReadDelivers(4, messageSize - 4, messageSize)
  {
  }
}
