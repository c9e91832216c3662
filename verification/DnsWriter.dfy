/** Serialisation of DNS messages. */
module DnsWriter {
  import opened Basics
  import opened Wire
  import opened Words
  import opened DomainNames
  import opened DnsMessages

  datatype WriteErrorCode =
    | MessageTooLarge
    | TooManyQuestions
    | TooManyAnswers
    | InvalidOpcode
    | InvalidResponseCode
    | InvalidMaximumSize
    | ExpectedQuery
    | MissingTransactionId
    | WrongQuestionCount
    | UnsupportedAddressType
    | InvalidAddressLength
    | MissingAnswers

  type WriteResult = Result<seq<Byte>, WriteErrorCode>

  const MAX_MESSAGE_SIZE: nat := 65535
  const MAX_SECTION_COUNT: nat := 65535

  /** A compression pointer to the first octet after the header. */
  const FIRST_NAME_POINTER: U16 := 0xC00C

  // ------------------------------------------------------- wire forms

  predicate EncodableLabels(labels: seq<Label>) {
    forall k :: 0 <= k < |labels| ==> ValidLabel(labels[k])
  }

  function EncodeName(labels: seq<Label>): (r: seq<Byte>)
    requires EncodableLabels(labels)
    ensures |r| == LabelOctets(labels) + 1
  {
    if labels == [] then [0] else [|labels[0]|] + labels[0] + EncodeName(labels[1..])
  }

  function EncodeQuestion(q: Question): (r: seq<Byte>)
    requires EncodableLabels(q.name.labels)
    ensures |r| == LabelOctets(q.name.labels) + 5
  {
    EncodeName(q.name.labels) + Be16(q.qtype) + Be16(q.qclass)
  }

  predicate EncodableQuestions(questions: seq<Question>) {
    forall k :: 0 <= k < |questions| ==> EncodableLabels(questions[k].name.labels)
  }

  function EncodeQuestions(questions: seq<Question>): seq<Byte>
    requires EncodableQuestions(questions)
  {
    if questions == [] then [] else EncodeQuestion(questions[0]) + EncodeQuestions(questions[1..])
  }

  /** The octets questions take: their labels with length octets, the zero octet, type and class. */
  function QuestionOctets(questions: seq<Question>): nat {
    if questions == [] then 0 else LabelOctets(questions[0].name.labels) + 5 + QuestionOctets(questions[1..])
  }

  lemma {:induction false} QuestionsLength(questions: seq<Question>)
    requires EncodableQuestions(questions)
    ensures |EncodeQuestions(questions)| == QuestionOctets(questions)
  {
    if questions != [] {
      QuestionsLength(questions[1..]);
    }
  }

  function EncodeHeader(id: U16, flags: U16, questionCount: U16, answerCount: U16): (r: seq<Byte>)
    ensures |r| == HEADER_SIZE
  {
    Be16(id) + Be16(flags) + Be16(questionCount) + Be16(answerCount) + Be16(0) + Be16(0)
  }

  function EncodeAnswer(q: Question, ttl: U32, address: seq<Byte>): (r: seq<Byte>)
    requires |address| <= 16
    ensures |r| == 12 + |address|
  {
    Be16(FIRST_NAME_POINTER) + Be16(q.qtype) + Be16(q.qclass) + Be32(ttl) + Be16(|address|) + address
  }

  predicate AddressesFit(answers: seq<seq<Byte>>, size: nat) {
    forall k :: 0 <= k < |answers| ==> |answers[k]| == size
  }

  function EncodeAnswers(q: Question, ttl: U32, answers: seq<seq<Byte>>, size: nat): (r: seq<Byte>)
    requires AddressesFit(answers, size) && size <= 16
  {
    if answers == [] then [] else EncodeAnswer(q, ttl, answers[0]) + EncodeAnswers(q, ttl, answers[1..], size)
  }

  // ------------------------------------------------------- results

  function FlagFault(h: Header): Option<WriteErrorCode> {
    if h.opcode > 15 then Some(InvalidOpcode) else if h.responseCode > 15 then Some(InvalidResponseCode) else None
  }

  function Bounded(bytes: seq<Byte>, maximum: nat): (r: WriteResult)
    ensures r.Ok? <==> |bytes| <= maximum
    ensures r.Ok? ==> r.value == bytes
  {
    if |bytes| <= maximum then Ok(bytes) else Err(MessageTooLarge)
  }

  function QuestionMessage(h: Header, questions: seq<Question>): seq<Byte>
    requires EncodableQuestions(questions) && |questions| <= MAX_SECTION_COUNT && FlagFault(h).None?
  {
    EncodeHeader(h.id, FlagWord(h), |questions|, 0) + EncodeQuestions(questions)
  }

  /** All of a question message, or the reason there is none. */
  function QuestionMessageResult(h: Header, questions: seq<Question>, maximum: nat): WriteResult
    requires EncodableQuestions(questions)
  {
    if maximum > MAX_MESSAGE_SIZE then Err(InvalidMaximumSize)
    else if |questions| > MAX_SECTION_COUNT then Err(TooManyQuestions)
    else if FlagFault(h).Some? then Err(FlagFault(h).value)
    else Bounded(QuestionMessage(h, questions), maximum)
  }

  function AddressMessage(h: Header, q: Question, answers: seq<seq<Byte>>, ttl: U32, size: nat): seq<Byte>
    requires EncodableLabels(q.name.labels) && |answers| <= MAX_SECTION_COUNT && FlagFault(h).None? && AddressesFit(answers, size) && size <= 16
  {
    EncodeHeader(h.id, FlagWord(h), 1, |answers|) + EncodeQuestion(q) + EncodeAnswers(q, ttl, answers, size)
  }

  function AddressSize(qtype: U16): Option<nat> {
    if qtype == TYPE_A then Some(4) else if qtype == TYPE_AAAA then Some(16) else None
  }

  function AddressMessageResult(h: Header, q: Question, answers: seq<seq<Byte>>, ttl: U32, maximum: nat): WriteResult
    requires EncodableLabels(q.name.labels)
  {
    if maximum > MAX_MESSAGE_SIZE then Err(InvalidMaximumSize)
    else if answers == [] then Err(MissingAnswers)
    else if |answers| > MAX_SECTION_COUNT then Err(TooManyAnswers)
    else if AddressSize(q.qtype).None? then Err(UnsupportedAddressType)
    else if !AddressesFit(answers, AddressSize(q.qtype).value) then Err(InvalidAddressLength)
    else if FlagFault(h).Some? then Err(FlagFault(h).value)
    else Bounded(AddressMessage(h, q, answers, ttl, AddressSize(q.qtype).value), maximum)
  }

  // ------------------------------------------------------- writing

  /** Or-ing a field into bits that are still clear adds it. */
  method SetField(flags: nat, k: nat, p: nat, ghost q: nat, field: nat) returns (r: nat)
    requires p == Pow2(k) && flags == p * q && field < p
    ensures r == flags + field
  {
    RemainderUnique(flags, p, q, 0);
    OrDisjoint(flags, field, k);
    r := Or(flags, field);
  }

  /** The upper octet of the flag word. */
  function UpperFlags(h: Header): (r: nat)
    requires h.opcode <= 15
    ensures r < 256
  {
    One(h.isResponse) * 0x80 + h.opcode as nat * 8 + One(h.authoritativeAnswer) * 4 + One(h.truncated) * 2 + One(h.recursionDesired)
  }

  method EncodeUpperFlags(h: Header) returns (flags: nat)
    requires h.opcode <= 15
    ensures flags == 0x100 * UpperFlags(h)
  {
    Powers();
    flags := SetField(0, 16, 0x1_0000, 0, if h.isResponse then 0x8000 else 0);
    ghost var high: nat := One(h.isResponse);
    flags := SetField(flags, 15, 0x8000, high, h.opcode * 0x800);
    high := 16 * high + h.opcode;
    flags := SetField(flags, 11, 0x800, high, if h.authoritativeAnswer then 0x400 else 0);
    high := 2 * high + One(h.authoritativeAnswer);
    flags := SetField(flags, 10, 0x400, high, if h.truncated then 0x200 else 0);
    high := 2 * high + One(h.truncated);
    flags := SetField(flags, 9, 0x200, high, if h.recursionDesired then 0x100 else 0);
  }

  method EncodeFlags(h: Header) returns (r: Result<U16, WriteErrorCode>)
    ensures FlagFault(h).Some? ==> r == Err(FlagFault(h).value)
    ensures FlagFault(h).None? ==> r == Ok(FlagWord(h))
  {
    if h.opcode > 15 {
      return Err(InvalidOpcode);
    }
    if h.responseCode > 15 {
      return Err(InvalidResponseCode);
    }
    var upper := EncodeUpperFlags(h);
    var middle := EncodeMiddleFlags(h, upper);
    Powers();
    var flags := SetField(middle, 4, 0x10, 16 * UpperFlags(h) + MiddleBits(h), h.responseCode);
    r := Ok(flags);
  }

  /** The four single bits below the upper octet. */
  function MiddleBits(h: Header): nat {
    One(h.recursionAvailable) * 8 + One(h.reservedZ) * 4 + One(h.authenticatedData) * 2 + One(h.checkingDisabled)
  }

  method EncodeMiddleFlags(h: Header, upper: nat) returns (flags: nat)
    requires h.opcode <= 15 && upper == 0x100 * UpperFlags(h)
    ensures flags == 0x10 * (16 * UpperFlags(h) + MiddleBits(h))
  {
    Powers();
    ghost var high := UpperFlags(h);
    flags := SetField(upper, 8, 0x100, high, if h.recursionAvailable then 0x80 else 0);
    high := 2 * high + One(h.recursionAvailable);
    flags := SetField(flags, 7, 0x80, high, if h.reservedZ then 0x40 else 0);
    high := 2 * high + One(h.reservedZ);
    flags := SetField(flags, 6, 0x40, high, if h.authenticatedData then 0x20 else 0);
    high := 2 * high + One(h.authenticatedData);
    flags := SetField(flags, 5, 0x20, high, if h.checkingDisabled then 0x10 else 0);
  }

  lemma EncodeSplit(labels: seq<Label>, k: nat)
    requires EncodableLabels(labels) && k < |labels|
    ensures EncodeName(labels[k..]) == [|labels[k]|] + labels[k] + EncodeName(labels[k + 1..])
  {
    assert labels[k..][1..] == labels[k + 1..];
  }

  /** The whole name is written, or the write fails. */
  method WriteName(writer: WireWriter, name: DomainName) returns (ok: bool)
    requires EncodableLabels(name.labels)
    modifies writer
    ensures ok <==> |old(writer.bytes)| + |EncodeName(name.labels)| <= writer.maximum
    ensures ok ==> writer.bytes == old(writer.bytes) + EncodeName(name.labels)
  {
    var labels := name.labels;
    ghost var goal := writer.bytes + EncodeName(labels);
    assert labels[0..] == labels;
    for k := 0 to |labels|
      invariant goal == writer.bytes + EncodeName(labels[k..])
    {
      EncodeSplit(labels, k);
      var octets := labels[k];
      assert goal == (writer.bytes + [|octets|] + octets) + EncodeName(labels[k + 1..]);
      ok := writer.Append([|octets|]);
      if !ok {
        return;
      }
      ok := writer.Append(octets);
      if !ok {
        return;
      }
    }
    ok := writer.Append([0]);
  }

  method WriteWord(writer: WireWriter, value: U16) returns (ok: bool)
    modifies writer
    ensures ok <==> |old(writer.bytes)| + 2 <= writer.maximum
    ensures ok ==> writer.bytes == old(writer.bytes) + Be16(value)
  {
    ok := writer.Append([value / 256, value % 256]);
  }

  method WriteQuestion(writer: WireWriter, q: Question) returns (ok: bool)
    requires EncodableLabels(q.name.labels)
    modifies writer
    ensures ok <==> |old(writer.bytes)| + |EncodeQuestion(q)| <= writer.maximum
    ensures ok ==> writer.bytes == old(writer.bytes) + EncodeQuestion(q)
  {
    ghost var before := writer.bytes;
    ok := WriteName(writer, q.name);
    if !ok {
      return;
    }
    ok := WriteWord(writer, q.qtype);
    if !ok {
      return;
    }
    ok := WriteWord(writer, q.qclass);
    assert before + EncodeName(q.name.labels) + Be16(q.qtype) + Be16(q.qclass) == before + EncodeQuestion(q);
  }

  /** The six header words. */
  method WriteHeader(writer: WireWriter, id: U16, flags: U16, questionCount: U16, answerCount: U16) returns (ok: bool)
    requires writer.bytes == []
    modifies writer
    ensures ok <==> HEADER_SIZE <= writer.maximum
    ensures ok ==> writer.bytes == EncodeHeader(id, flags, questionCount, answerCount)
  {
    ok := WriteWord(writer, id);
    if !ok {
      return;
    }
    ok := WriteWord(writer, flags);
    if !ok {
      return;
    }
    ok := WriteWord(writer, questionCount);
    if !ok {
      return;
    }
    ok := WriteWord(writer, answerCount);
    if !ok {
      return;
    }
    ok := WriteWord(writer, 0);
    if !ok {
      return;
    }
    ok := WriteWord(writer, 0);
  }

  /** Every question is written, or the message fails: it is never cut short. */
  method WriteQuestionMessage(h: Header, questions: seq<Question>, maximum: nat) returns (r: WriteResult)
    requires EncodableQuestions(questions)
    ensures r == QuestionMessageResult(h, questions, maximum)
  {
    if maximum > MAX_MESSAGE_SIZE {
      return Err(InvalidMaximumSize);
    }
    if |questions| > MAX_SECTION_COUNT {
      return Err(TooManyQuestions);
    }
    var flags := EncodeFlags(h);
    if flags.Err? {
      return Err(flags.error);
    }
    r := WriteQuestionBody(h, flags.value, questions, maximum);
  }

  method WriteQuestionBody(h: Header, flags: U16, questions: seq<Question>, maximum: nat) returns (r: WriteResult)
    requires EncodableQuestions(questions) && |questions| <= MAX_SECTION_COUNT && FlagFault(h).None? && flags == FlagWord(h)
    ensures r == Bounded(QuestionMessage(h, questions), maximum)
  {
    var writer := new WireWriter(maximum);
    var ok := WriteHeader(writer, h.id, flags, |questions|, 0);
    if !ok {
      return Err(MessageTooLarge);
    }
    ghost var goal := QuestionMessage(h, questions);
    assert questions[0..] == questions;
    for k := 0 to |questions|
      invariant goal == writer.bytes + EncodeQuestions(questions[k..]) && writer.maximum == maximum
      invariant |writer.bytes| <= maximum
    {
      assert questions[k..][1..] == questions[k + 1..];
      assert goal == (writer.bytes + EncodeQuestion(questions[k])) + EncodeQuestions(questions[k + 1..]);
      ok := WriteQuestion(writer, questions[k]);
      if !ok {
        return Err(MessageTooLarge);
      }
    }
    assert goal == writer.bytes;
    r := Ok(writer.bytes);
  }

  method WriteAnswer(writer: WireWriter, q: Question, ttl: U32, address: seq<Byte>) returns (ok: bool)
    requires |address| <= 16
    modifies writer
    ensures ok <==> |old(writer.bytes)| + |EncodeAnswer(q, ttl, address)| <= writer.maximum
    ensures ok ==> writer.bytes == old(writer.bytes) + EncodeAnswer(q, ttl, address)
  {
    ghost var before := writer.bytes;
    ok := WriteWord(writer, FIRST_NAME_POINTER);
    if !ok {
      return;
    }
    ok := WriteWord(writer, q.qtype);
    if !ok {
      return;
    }
    ok := WriteWord(writer, q.qclass);
    if !ok {
      return;
    }
    ok := writer.Append(Be32(ttl));
    if !ok {
      return;
    }
    ok := WriteWord(writer, |address|);
    if !ok {
      return;
    }
    ok := writer.Append(address);
    assert before + Be16(FIRST_NAME_POINTER) + Be16(q.qtype) + Be16(q.qclass) + Be32(ttl) + Be16(|address|) + address
        == before + EncodeAnswer(q, ttl, address);
  }

  method WriteAddressMessage(h: Header, q: Question, answers: seq<seq<Byte>>, ttl: U32, maximum: nat) returns (r: WriteResult)
    requires EncodableLabels(q.name.labels)
    ensures r == AddressMessageResult(h, q, answers, ttl, maximum)
  {
    if maximum > MAX_MESSAGE_SIZE {
      return Err(InvalidMaximumSize);
    }
    if answers == [] {
      return Err(MissingAnswers);
    }
    if |answers| > MAX_SECTION_COUNT {
      return Err(TooManyAnswers);
    }
    var size;
    if q.qtype == TYPE_A {
      size := 4;
    } else if q.qtype == TYPE_AAAA {
      size := 16;
    } else {
      return Err(UnsupportedAddressType);
    }
    for k := 0 to |answers|
      invariant AddressesFit(answers[..k], size)
    {
      if |answers[k]| != size {
        return Err(InvalidAddressLength);
      }
      assert answers[..k + 1] == answers[..k] + [answers[k]];
    }
    assert answers[..|answers|] == answers;
    var flags := EncodeFlags(h);
    if flags.Err? {
      return Err(flags.error);
    }
    r := WriteAddressBody(h, flags.value, q, answers, ttl, size, maximum);
  }

  method WriteAddressBody(h: Header, flags: U16, q: Question, answers: seq<seq<Byte>>, ttl: U32, size: nat, maximum: nat)
    returns (r: WriteResult)
    requires EncodableLabels(q.name.labels) && |answers| <= MAX_SECTION_COUNT && FlagFault(h).None? && AddressesFit(answers, size) && size <= 16
    requires flags == FlagWord(h)
    ensures r == Bounded(AddressMessage(h, q, answers, ttl, size), maximum)
  {
    var writer := new WireWriter(maximum);
    var ok := WriteHeader(writer, h.id, flags, 1, |answers|);
    if !ok {
      return Err(MessageTooLarge);
    }
    ok := WriteQuestion(writer, q);
    if !ok {
      return Err(MessageTooLarge);
    }
    ok := WriteAnswers(writer, q, answers, ttl, size);
    if !ok {
      return Err(MessageTooLarge);
    }
    r := Ok(writer.bytes);
  }

  method WriteAnswers(writer: WireWriter, q: Question, answers: seq<seq<Byte>>, ttl: U32, size: nat) returns (ok: bool)
    requires AddressesFit(answers, size) && size <= 16 && |writer.bytes| <= writer.maximum
    modifies writer
    ensures ok <==> |old(writer.bytes)| + |EncodeAnswers(q, ttl, answers, size)| <= writer.maximum
    ensures ok ==> writer.bytes == old(writer.bytes) + EncodeAnswers(q, ttl, answers, size)
  {
    ghost var goal := writer.bytes + EncodeAnswers(q, ttl, answers, size);
    assert answers[0..] == answers;
    for k := 0 to |answers|
      invariant goal == writer.bytes + EncodeAnswers(q, ttl, answers[k..], size) && |writer.bytes| <= writer.maximum
    {
      assert answers[k..][1..] == answers[k + 1..];
      Regroup(writer.bytes, EncodeAnswer(q, ttl, answers[k]), EncodeAnswers(q, ttl, answers[k + 1..], size));
      ok := WriteAnswer(writer, q, ttl, answers[k]);
      if !ok {
        return;
      }
    }
    ok := true;
  }

  // ------------------------------------------------------- message builders

  /** The header a query is sent with. */
  function QueryHeader(h: Header): Header {
    h.(authoritativeAnswer := false, truncated := false, recursionAvailable := false, responseCode := RCODE_NO_ERROR)
  }

  function QueryResult(h: Header, questions: seq<Question>, maximum: nat): WriteResult
    requires EncodableQuestions(questions)
  {
    if h.isResponse then Err(ExpectedQuery) else QuestionMessageResult(QueryHeader(h), questions, maximum)
  }

  method SerializeQuery(h: Header, questions: seq<Question>, maximum: nat) returns (r: WriteResult)
    requires EncodableQuestions(questions)
    ensures r == QueryResult(h, questions, maximum)
  {
    if h.isResponse {
      return Err(ExpectedQuery);
    }
    var query := h.(authoritativeAnswer := false, truncated := false, recursionAvailable := false, responseCode := RCODE_NO_ERROR);
    r := WriteQuestionMessage(query, questions, maximum);
  }

  /** A query is written exactly when it is one, its fields have room in the
      flag word, its questions in the count, and all of it in the budget. */
  lemma QueryWrittenExactly(h: Header, questions: seq<Question>, maximum: nat)
    requires EncodableQuestions(questions)
    ensures QueryResult(h, questions, maximum).Ok? <==>
              !h.isResponse && h.opcode <= 15 && |questions| <= 0xFFFF && 12 + QuestionOctets(questions) <= maximum <= 0xFFFF
  {
    QuestionsLength(questions);
  }

  /** In place: the first two octets become the id and nothing else changes. */
  method RewriteTransactionId(packet: array<Byte>, id: U16) returns (r: Option<WriteErrorCode>)
    modifies packet
    ensures r == if packet.Length < 2 then Some(MissingTransactionId) else None
    ensures packet[..] == if packet.Length < 2 then old(packet[..]) else Be16(id) + old(packet[..])[2..]
  {
    if packet.Length < 2 {
      return Some(MissingTransactionId);
    }
    packet[0] := id / 256;
    packet[1] := id % 256;
    r := None;
  }

  const EMPTY_HEADER := Header(0, false, OPCODE_QUERY, false, false, false, false, false, false, false, RCODE_NO_ERROR)

  /** The header of a local response to `request`. */
  function ResponseHeader(request: Header, recursionAvailable: bool, responseCode: Byte): Header {
    EMPTY_HEADER.(id := request.id, isResponse := true, opcode := request.opcode, recursionDesired := request.recursionDesired,
                  recursionAvailable := recursionAvailable, checkingDisabled := request.checkingDisabled, responseCode := responseCode)
  }

  function ErrorResponse(request: Message, responseCode: Byte, recursionAvailable: bool, maximum: nat): WriteResult
    requires EncodableQuestions(request.questions)
  {
    if request.header.isResponse then Err(ExpectedQuery)
    else
      var h := ResponseHeader(request.header, recursionAvailable, responseCode);
      var full := QuestionMessageResult(h, request.questions, maximum);
      if full == Err(MessageTooLarge) then QuestionMessageResult(h, [], maximum) else full
  }

  method MakeErrorResponse(request: Message, responseCode: Byte, recursionAvailable: bool, maximum: nat) returns (r: WriteResult)
    requires EncodableQuestions(request.questions)
    ensures r == ErrorResponse(request, responseCode, recursionAvailable, maximum)
  {
    if request.header.isResponse {
      return Err(ExpectedQuery);
    }
    var h := ResponseHeader(request.header, recursionAvailable, responseCode);
    r := WriteQuestionMessage(h, request.questions, maximum);
    if r == Err(MessageTooLarge) {
      r := WriteQuestionMessage(h, [], maximum);
    }
  }

  /** An error response can be written whenever a header can. */
  lemma ErrorWrittenExactly(request: Message, code: Byte, recursionAvailable: bool, maximum: nat)
    requires EncodableQuestions(request.questions)
    ensures ErrorResponse(request, code, recursionAvailable, maximum).Ok? <==>
              && !request.header.isResponse && request.header.opcode <= 15 && code <= 15
              && |request.questions| <= 0xFFFF && 12 <= maximum <= 0xFFFF
  {
    QuestionsLength(request.questions);
  }

  /** The header of an error built from whatever header prefix is available. */
  function PrefixHeader(prefix: seq<Byte>, responseCode: Byte, recursionAvailable: bool): Header
    requires |prefix| >= 2
  {
    var opcode: Byte := if |prefix| >= 3 then (prefix[2] / 8) % 16 else OPCODE_QUERY;
    EMPTY_HEADER.(id := ReadU16(prefix, 0).value, isResponse := true, opcode := opcode,
                  recursionDesired := |prefix| >= 3 && prefix[2] % 2 == 1,
                  recursionAvailable := recursionAvailable,
                  checkingDisabled := |prefix| >= 4 && (prefix[3] / 16) % 2 == 1, responseCode := responseCode)
  }

  /** The QR bit of a packet, when the octet that holds it is there. */
  predicate QrSet(packet: seq<Byte>) {
    |packet| >= 3 && packet[2] >= 0x80
  }

  function HeaderOnlyError(prefix: seq<Byte>, responseCode: Byte, recursionAvailable: bool, maximum: nat): WriteResult {
    if |prefix| < 2 then Err(MissingTransactionId)
    else if QrSet(prefix) then Err(ExpectedQuery)
    else QuestionMessageResult(PrefixHeader(prefix, responseCode, recursionAvailable), [], maximum)
  }

  method MakeHeaderOnlyErrorResponse(prefix: seq<Byte>, responseCode: Byte, recursionAvailable: bool, maximum: nat)
    returns (r: WriteResult)
    ensures r == HeaderOnlyError(prefix, responseCode, recursionAvailable, maximum)
  {
    if |prefix| < 2 {
      return Err(MissingTransactionId);
    }
    var h := EMPTY_HEADER.(id := (prefix[0] as nat) * 256 + prefix[1], isResponse := true, recursionAvailable := recursionAvailable,
                           responseCode := responseCode);
    if |prefix| >= 3 {
      var high := prefix[2];
      if high / 0x80 % 2 != 0 {
        return Err(ExpectedQuery);
      }
      h := h.(opcode := (high / 8) % 16, recursionDesired := high % 2 != 0);
    }
    if |prefix| >= 4 {
      h := h.(checkingDisabled := (prefix[3] / 16) % 2 != 0);
    }
    r := WriteQuestionMessage(h, [], maximum);
  }

  function AddressResponse(request: Message, answers: seq<seq<Byte>>, ttl: U32, recursionAvailable: bool, maximum: nat): WriteResult
    requires EncodableQuestions(request.questions)
  {
    if request.header.isResponse then Err(ExpectedQuery)
    else if |request.questions| != 1 then Err(WrongQuestionCount)
    else
      AddressMessageResult(ResponseHeader(request.header, recursionAvailable, RCODE_NO_ERROR), request.questions[0], answers, ttl, maximum)
  }

  method MakeAddressResponse(request: Message, answers: seq<seq<Byte>>, ttl: U32, recursionAvailable: bool, maximum: nat)
    returns (r: WriteResult)
    requires EncodableQuestions(request.questions)
    ensures r == AddressResponse(request, answers, ttl, recursionAvailable, maximum)
  {
    if request.header.isResponse {
      return Err(ExpectedQuery);
    }
    if |request.questions| != 1 {
      return Err(WrongQuestionCount);
    }
    var h := ResponseHeader(request.header, recursionAvailable, RCODE_NO_ERROR);
    r := WriteAddressMessage(h, request.questions[0], answers, ttl, maximum);
  }
}
