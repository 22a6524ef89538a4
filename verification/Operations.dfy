/** The 9P2000 operation codes and their classification (Operations.h). */
module Operations {
  import opened LittleEndian

  datatype Concept = Undefined
    | Version | Auth | Attach | Error | Flush | Walk | Open | Create
    | Read | Write | Clunk | Remove | Stat | WStat

  datatype Direction = Request | Response

  const TBAD: u8 := 0xFE
  const RBAD: u8 := 0xFF

  /** Operation code to concept: a T code and the R code after it share one. */
  function Convert(op: u8): Concept {
    if op == 100 || op == 101 then Version
    else if op == 102 || op == 103 then Auth
    else if op == 104 || op == 105 then Attach
    else if op == 106 || op == 107 then Error
    else if op == 108 || op == 109 then Flush
    else if op == 110 || op == 111 then Walk
    else if op == 112 || op == 113 then Open
    else if op == 114 || op == 115 then Create
    else if op == 116 || op == 117 then Read
    else if op == 118 || op == 119 then Write
    else if op == 120 || op == 121 then Clunk
    else if op == 122 || op == 123 then Remove
    else if op == 124 || op == 125 then Stat
    else if op == 126 || op == 127 then WStat
    else Undefined
  }

  function TForm(c: Concept): u8 {
    match c
    case Undefined => TBAD
    case Version => 100
    case Auth => 102
    case Attach => 104
    case Error => 106
    case Flush => 108
    case Walk => 110
    case Open => 112
    case Create => 114
    case Read => 116
    case Write => 118
    case Clunk => 120
    case Remove => 122
    case Stat => 124
    case WStat => 126
  }

  function RForm(c: Concept): u8 {
    match c
    case Undefined => RBAD
    case Version => 101
    case Auth => 103
    case Attach => 105
    case Error => 107
    case Flush => 109
    case Walk => 111
    case Open => 113
    case Create => 115
    case Read => 117
    case Write => 119
    case Clunk => 121
    case Remove => 123
    case Stat => 125
    case WStat => 127
  }

  /** RawOperation of the message type bound to a concept and a direction. */
  function TranslateConcept(c: Concept, dir: Direction): u8 {
    if c == Undefined then (if dir == Request then TBAD else RBAD)
    else if dir == Request then TForm(c) else RForm(c)
  }

  predicate IsRequest(op: u8) { op % 2 == 0 }

  predicate IsResponse(op: u8) { op % 2 != 0 }

  function ExpectedResponseKind(op: u8): u8 {
    if IsResponse(op) then RBAD
    else if Convert(op) == Undefined then RBAD
    else RForm(Convert(op))
  }

  /** The direction that the parity of a code announces. */
  function ParityDirection(op: u8): Direction {
    if IsRequest(op) then Request else Response
  }

  /** The protocol's operations in the order of their codes. */
  const KINDS: seq<Concept> := [Version, Auth, Attach, Error, Flush, Walk, Open, Create,
                                Read, Write, Clunk, Remove, Stat, WStat]

  /** Operation i of the protocol has the request code 100 + 2 * i and the response code after it. */
  lemma {:induction false} CodeTable(i: nat)
    requires i < 14
    ensures |KINDS| == 14
    ensures TForm(KINDS[i]) == 100 + 2 * i && RForm(KINDS[i]) == 101 + 2 * i
    ensures Convert(100 + 2 * i) == Convert(101 + 2 * i) == KINDS[i]
  {
    assert i == 0 || i == 1 || i == 2 || i == 3 || i == 4 || i == 5 || i == 6
        || i == 7 || i == 8 || i == 9 || i == 10 || i == 11 || i == 12 || i == 13;
  }

  /** The two codes that stand for no operation. */
  lemma BadCodes()
    ensures TranslateConcept(Undefined, Request) == TForm(Undefined) == 254
    ensures TranslateConcept(Undefined, Response) == RForm(Undefined) == 255
  {
  }

  /** The legal codes are exactly 100..127, and a legal code is determined by its concept and parity. */
  lemma CodeIsConceptAndParity(op: u8)
    ensures Convert(op) != Undefined <==> 100 <= op <= 127
    ensures 100 <= op <= 127 ==> TranslateConcept(Convert(op), ParityDirection(op)) == op
  {
  }

  lemma {:induction false} TFormConverts(c: Concept)
    ensures Convert(TForm(c)) == c && IsRequest(TForm(c))
  {
  }

  lemma {:induction false} RFormConverts(c: Concept)
    ensures Convert(RForm(c)) == c && !IsRequest(RForm(c))
  {
  }

  /** Concept and direction survive translation to a code. */
  lemma CodeNamesItsConcept(c: Concept, dir: Direction)
    ensures Convert(TranslateConcept(c, dir)) == c
    ensures ParityDirection(TranslateConcept(c, dir)) == dir
  {
    TFormConverts(c);
    RFormConverts(c);
    hide Convert, IsRequest;
  }

  /** Two bytes stand for the same operation exactly if they differ in the last bit at most. */
  lemma SamePair(op: u8, code: u8)
    requires 100 <= code <= 127
    ensures Convert(op) == Convert(code) <==> op / 2 == code / 2
  {
    hide Convert, TForm, RForm, KINDS;
    CodeTable((code - 100) / 2);
    if 100 <= op <= 127 { CodeTable((op - 100) / 2); }
    CodeIsConceptAndParity(op);
    CodeIsConceptAndParity(code);
  }

  /** A reply is expected exactly for legal requests, it is the next code, and it is never itself replied to. */
  lemma ExpectedReply(op: u8)
    ensures ExpectedResponseKind(op) != RBAD <==> 100 <= op <= 127 && IsRequest(op)
    ensures ExpectedResponseKind(op) != RBAD ==>
              ExpectedResponseKind(op) == op + 1 && Convert(op + 1) == Convert(op)
    ensures ExpectedResponseKind(ExpectedResponseKind(op)) == RBAD
  {
  }
}
