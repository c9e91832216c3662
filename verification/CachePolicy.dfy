/** Which responses may be cached, and how a cached set is turned back into a response. */
module CachePolicy {
  import opened Basics
  import opened Wire
  import opened DomainNames
  import opened DnsMessages
  import opened DnsWriter

  datatype IPAddress = V4(octets: seq<Byte>) | V6(octets: seq<Byte>)

  datatype AddressSet = AddressSet(addresses: seq<IPAddress>, ttl: U32)

  const MAX_TTL: U32 := 0xFFFF_FFFF

  /** The response answers exactly `expected`, with nothing but answers. */
  predicate Admissible(response: Message, expected: Question) {
    && response.header.isResponse && !response.header.truncated && response.header.responseCode == RCODE_NO_ERROR
    && |response.questions| == 1 && SameQuestion(response.questions[0], expected)
    && 1 <= |response.answers| <= MAX_SECTION_COUNT && response.authorities == [] && response.additionals == []
    && (forall k :: 0 <= k < |response.answers| ==> DirectAnswer(response.answers[k], expected))
  }

  /** A live address record of the expected name, type and class. */
  predicate DirectAnswer(answer: ResourceRecord, expected: Question) {
    && answer.name.canonicalKey == expected.name.canonicalKey && answer.rtype == expected.qtype && answer.rclass == expected.qclass
    && answer.ttl != 0
    && ((answer.rtype == TYPE_A && |answer.rdata| == 4) || (answer.rtype == TYPE_AAAA && |answer.rdata| == 16))
  }

  /** What an answer must be: the name, type and class asked for, alive, an address of its type. */
  predicate Usable(answer: ResourceRecord, expected: Question) {
    && answer.name.canonicalKey == expected.name.canonicalKey && answer.rtype == expected.qtype && answer.rclass == expected.qclass
    && answer.ttl > 0 && (answer.rtype, |answer.rdata|) in {(1, 4), (28, 16)}
  }

  function AddressOf(answer: ResourceRecord): IPAddress {
    if answer.rtype == TYPE_A then V4(answer.rdata) else V6(answer.rdata)
  }

  function Addresses(answers: seq<ResourceRecord>): (r: seq<IPAddress>)
    ensures |r| == |answers|
  {
    seq(|answers|, k requires 0 <= k < |answers| => AddressOf(answers[k]))
  }

  function LeastTtl(answers: seq<ResourceRecord>): (r: U32)
    ensures forall k :: 0 <= k < |answers| ==> r <= answers[k].ttl
    ensures r == MAX_TTL || exists k :: 0 <= k < |answers| && r == answers[k].ttl
  {
    if answers == [] then MAX_TTL
    else
      var front, last := LeastTtl(answers[..|answers| - 1]), answers[|answers| - 1];
      assert answers == answers[..|answers| - 1] + [last];
      if last.ttl < front then last.ttl else front
  }

  function Cacheable(response: Message, expected: Question): Option<AddressSet> {
    if Admissible(response, expected) then Some(AddressSet(Addresses(response.answers), LeastTtl(response.answers))) else None
  }

  /**
   * Either one answer bars the whole set, or the set holds every address in
   * order and the smallest time to live.
   */
  method CacheableAddressSet(response: Message, expected: Question) returns (r: Option<AddressSet>)
    ensures r == Cacheable(response, expected)
    ensures r.Some? <==>
              && response.header.isResponse && !response.header.truncated && response.header.responseCode == 0
              && |response.questions| == 1 && SameQuestion(response.questions[0], expected)
              && response.authorities == [] && response.additionals == [] && 1 <= |response.answers| <= 0xFFFF
              && forall k :: 0 <= k < |response.answers| ==> Usable(response.answers[k], expected)
    ensures r.Some? ==>
              && |r.value.addresses| == |response.answers|
              && (forall k :: 0 <= k < |response.answers| ==>
                    && r.value.addresses[k] == (if expected.qtype == 1 then V4(response.answers[k].rdata) else V6(response.answers[k].rdata))
                    && 0 < r.value.ttl <= response.answers[k].ttl)
              && exists k :: 0 <= k < |response.answers| && r.value.ttl == response.answers[k].ttl
  {
    if !response.header.isResponse || response.header.truncated || response.header.responseCode != RCODE_NO_ERROR
       || |response.questions| != 1 || !SameQuestion(response.questions[0], expected) || response.answers == []
       || |response.answers| > MAX_SECTION_COUNT || response.authorities != [] || response.additionals != [] {
      return None;
    }
    r := CollectAddresses(response.answers, expected);
  }

  method CollectAddresses(answers: seq<ResourceRecord>, expected: Question) returns (r: Option<AddressSet>)
    ensures r.Some? <==> forall k :: 0 <= k < |answers| ==> DirectAnswer(answers[k], expected)
    ensures r.Some? ==> r.value == AddressSet(Addresses(answers), LeastTtl(answers)) && r.value.ttl > 0
  {
    var addresses: seq<IPAddress>, ttl := [], MAX_TTL;
    for k := 0 to |answers|
      invariant addresses == Addresses(answers[..k]) && ttl == LeastTtl(answers[..k]) && ttl > 0
      invariant forall i :: 0 <= i < k ==> DirectAnswer(answers[i], expected)
    {
      var address := DirectAddress(answers[k], expected);
      if address.None? {
        return None;
      }
      OneMoreAnswer(answers, k);
      addresses := addresses + [address.value];
      ttl := if answers[k].ttl < ttl then answers[k].ttl else ttl;
    }
    assert answers[..|answers|] == answers;
    r := Some(AddressSet(addresses, ttl));
  }

  /** The address of one answer, unless the answer bars the set. */
  method DirectAddress(answer: ResourceRecord, expected: Question) returns (r: Option<IPAddress>)
    ensures r == if DirectAnswer(answer, expected) then Some(AddressOf(answer)) else None
  {
    if answer.name.canonicalKey != expected.name.canonicalKey || answer.rtype != expected.qtype || answer.rclass != expected.qclass
       || answer.ttl == 0 {
      return None;
    }
    if answer.rtype == TYPE_A && |answer.rdata| == 4 {
      r := Some(V4(answer.rdata));
    } else if answer.rtype == TYPE_AAAA && |answer.rdata| == 16 {
      r := Some(V6(answer.rdata));
    } else {
      r := None;
    }
  }

  lemma OneMoreAnswer(answers: seq<ResourceRecord>, k: nat)
    requires k < |answers|
    ensures Addresses(answers[..k + 1]) == Addresses(answers[..k]) + [AddressOf(answers[k])]
    ensures LeastTtl(answers[..k + 1]) == Min(LeastTtl(answers[..k]), answers[k].ttl)
  {
    assert answers[..k + 1][..k] == answers[..k];
  }

  // ------------------------------------------------------- cache hits

  /** Every cached address has the family the question asks for. */
  predicate FamilyMatches(addresses: seq<IPAddress>, qtype: U16) {
    forall k :: 0 <= k < |addresses| ==> (qtype == TYPE_A && addresses[k].V4?) || (qtype == TYPE_AAAA && addresses[k].V6?)
  }

  function Octets(addresses: seq<IPAddress>): (r: seq<seq<Byte>>)
    ensures |r| == |addresses|
  {
    seq(|addresses|, k requires 0 <= k < |addresses| => addresses[k].octets)
  }

  function HitResponse(request: Message, hit: AddressSet, maximum: nat): WriteResult
    requires EncodableQuestions(request.questions)
  {
    if |request.questions| != 1 then Err(WrongQuestionCount)
    else if !FamilyMatches(hit.addresses, request.questions[0].qtype) then Err(InvalidAddressLength)
    else AddressResponse(request, Octets(hit.addresses), hit.ttl, true, maximum)
  }

  method MakeCacheHitResponse(request: Message, hit: AddressSet, maximum: nat) returns (r: WriteResult)
    requires EncodableQuestions(request.questions)
    ensures r == HitResponse(request, hit, maximum)
  {
    if |request.questions| != 1 {
      return Err(WrongQuestionCount);
    }
    var qtype := request.questions[0].qtype;
    var answers: seq<seq<Byte>> := [];
    for k := 0 to |hit.addresses|
      invariant answers == Octets(hit.addresses[..k]) && FamilyMatches(hit.addresses[..k], qtype)
    {
      var address := hit.addresses[k];
      if qtype == TYPE_A && address.V4? {
        answers := answers + [address.octets];
      } else if qtype == TYPE_AAAA && address.V6? {
        answers := answers + [address.octets];
      } else {
        return Err(InvalidAddressLength);
      }
      assert hit.addresses[..k + 1] == hit.addresses[..k] + [address];
    }
    assert hit.addresses[..|hit.addresses|] == hit.addresses;
    r := MakeAddressResponse(request, answers, hit.ttl, true, maximum);
  }
}
