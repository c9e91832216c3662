/** What a packet must look like to be a message, told without a parser, and
    the theorem that the parser accepts exactly these packets. */
module MessageGrammar {
  import opened Basics
  import opened Wire
  import opened Words
  import opened DomainNames
  import opened DnsMessages
  import opened DnsParser

  // -------------------------------------------------------------------- names

  /** The packet spells the labels at `start`, within the limits, and the octets stored there end before `end`. */
  ghost predicate NameStored(packet: seq<Byte>, limits: ParseLimits, start: nat, end: nat, labels: seq<Label>) {
    && ValidLabels(labels) && start < StoredEnd(packet, start) <= end
    && exists hops: seq<nat> :: Spells(packet, limits, start, labels, hops) && NoRepeats(hops) && |hops| <= limits.maximumCompressionPointers
  }

  ghost predicate HasName(packet: seq<Byte>, limits: ParseLimits, start: nat, end: nat) {
    exists labels :: NameStored(packet, limits, start, end, labels)
  }

  /** The octets from `start` to `end` are one name. */
  ghost predicate NameFills(packet: seq<Byte>, limits: ParseLimits, start: nat, end: nat) {
    HasName(packet, limits, start, end) && StoredEnd(packet, start) == end
  }

  /** The decoder finds the name that is stored, and only that. */
  lemma NameExactly(packet: seq<Byte>, limits: ParseLimits, start: nat, end: nat, decoded: DecodedName)
    ensures NameAt(packet, start, end, limits) == Ok(decoded) <==>
              && NameStored(packet, limits, start, end, decoded.name.labels) && ValidName(decoded.name)
              && decoded.next == StoredEnd(packet, start)
  {
    var r := Expand(packet, end, limits, start, [], [], start);
    if r.Ok? {
      DecodesExactly(packet, start, end, limits, r.value);
    }
    var labels := decoded.name.labels;
    forall hops: seq<nat> | Spells(packet, limits, start, labels, hops) && NoRepeats(hops) && |hops| <= limits.maximumCompressionPointers
      && ValidLabels(labels) && start < StoredEnd(packet, start) <= end
      ensures r == Ok(Expansion(labels, hops, StoredEnd(packet, start)))
    {
      DecodesExactly(packet, start, end, limits, Expansion(labels, hops, StoredEnd(packet, start)));
    }
  }

  /** Why a pointer is not followed, in the order of the tests; `target` is its lower fourteen bits. */
  lemma PointerRefusedExactly(packet: seq<Byte>, end: nat, limits: ParseLimits, position: nat, hops: seq<nat>, target: nat)
    requires position < |packet| && packet[position] >= 192
    requires position + 1 < |packet| ==> target == packet[position] as nat % 64 * 256 + packet[position + 1]
    ensures var fault := PointerFault(packet, end, limits, position, hops);
            var whole := position + 1 < |packet| && (hops == [] ==> position + 1 < end);
            var inside := whole && 12 <= target < |packet|;
            var allowed := inside && (limits.requireBackwardPointers ==> target < position);
            && (fault == Some(TruncatedCompressionPointer) <==> !whole)
            && (fault == Some(CompressionPointerOutOfBounds) <==> whole && target >= |packet|)
            && (fault == Some(CompressionPointerIntoHeader) <==> whole && target < |packet| && target < 12)
            && (fault == Some(ForwardCompressionPointer) <==> inside && !allowed)
            && (fault == Some(CompressionPointerLoop) <==> allowed && target in hops)
            && (fault == Some(TooManyCompressionPointers) <==> allowed && target !in hops && |hops| >= limits.maximumCompressionPointers)
            && (fault.None? <==> allowed && target !in hops && |hops| < limits.maximumCompressionPointers)
  {
    assert packet[position] as nat % 64 == packet[position] - 192;
  }

  lemma NameFound(packet: seq<Byte>, limits: ParseLimits, start: nat, end: nat)
    ensures NameAt(packet, start, end, limits).Ok? <==> HasName(packet, limits, start, end)
    ensures NameAt(packet, start, end, limits).Ok? ==> NameAt(packet, start, end, limits).value.next == StoredEnd(packet, start)
  {
    var r := NameAt(packet, start, end, limits);
    if r.Ok? {
      NameExactly(packet, limits, start, end, r.value);
    }
    forall labels | NameStored(packet, limits, start, end, labels) ensures r.Ok? {
      NameExactly(packet, limits, start, end, DecodedName(NameOf(labels), StoredEnd(packet, start)));
    }
  }

  // -------------------------------------------------------------- record data

  /** Length-prefixed strings, one from each mark to the next. */
  predicate Strings(packet: seq<Byte>, marks: seq<nat>) {
    forall k {:trigger StringAt(packet, marks, k)} :: 0 <= k < |marks| - 1 ==> StringAt(packet, marks, k)
  }

  predicate StringAt(packet: seq<Byte>, marks: seq<nat>, k: nat)
    requires k + 1 < |marks|
  {
    marks[k] < |packet| && marks[k + 1] == marks[k] + 1 + packet[marks[k]]
  }

  /** So many strings fill the octets from `begin` to `end`. */
  ghost predicate StringsFill(packet: seq<Byte>, begin: nat, end: nat, count: nat) {
    exists marks :: Strings(packet, marks) && |marks| == count + 1 && marks[0] == begin && marks[count] == end
  }

  lemma {:induction false} StringsCounted(packet: seq<Byte>, begin: nat, end: nat, marks: seq<nat>, k: nat)
    requires end <= |packet| && Strings(packet, marks) && k < |marks| && marks[|marks| - 1] == end
    ensures marks[k] <= end && CharacterStrings(packet, marks[k], end) == Some(|marks| - 1 - k)
    decreases |marks| - k
  {
    if k < |marks| - 1 {
      assert StringAt(packet, marks, k);
      StringsCounted(packet, begin, end, marks, k + 1);
    }
  }

  lemma {:induction false} StringsFound(packet: seq<Byte>, begin: nat, end: nat) returns (marks: seq<nat>)
    requires begin <= end <= |packet| && CharacterStrings(packet, begin, end).Some?
    ensures Strings(packet, marks) && |marks| == CharacterStrings(packet, begin, end).value + 1
    ensures marks[0] == begin && marks[|marks| - 1] == end
    decreases end - begin
  {
    if begin == end {
      marks := [begin];
    } else {
      var rest := StringsFound(packet, begin + 1 + packet[begin], end);
      marks := [begin] + rest;
      forall k | 0 <= k < |marks| - 1 ensures StringAt(packet, marks, k) {
        assert k > 0 ==> StringAt(packet, rest, k - 1);
      }
    }
  }

  /** Counting strings is finding marks. */
  lemma StringsExactly(packet: seq<Byte>, begin: nat, end: nat, count: nat)
    requires begin <= end <= |packet|
    ensures CharacterStrings(packet, begin, end) == Some(count) <==> StringsFill(packet, begin, end, count)
  {
    if CharacterStrings(packet, begin, end) == Some(count) {
      var marks := StringsFound(packet, begin, end);
    }
    forall marks | Strings(packet, marks) && |marks| == count + 1 && marks[0] == begin && marks[count] == end
      ensures CharacterStrings(packet, begin, end) == Some(count)
    {
      StringsCounted(packet, begin, end, marks, 0);
    }
  }

  lemma SomeStrings(packet: seq<Byte>, begin: nat, end: nat)
    requires begin <= end <= |packet|
    ensures CharacterStrings(packet, begin, end) !in {None, Some(0)} <==> exists count :: count >= 1 && StringsFill(packet, begin, end, count)
  {
    var strings := CharacterStrings(packet, begin, end);
    if strings.Some? {
      StringsExactly(packet, begin, end, strings.value);
    }
    forall count: nat | StringsFill(packet, begin, end, count) ensures strings == Some(count) {
      StringsExactly(packet, begin, end, count);
    }
  }

  /** Record data by type (sections 3.3 and 3.4.1 of RFC 1035, section 2.2 of RFC 3596). */
  ghost predicate RdataStored(packet: seq<Byte>, limits: ParseLimits, rtype: U16, begin: nat, end: nat) {
    if rtype == 1 then end == begin + 4
    else if rtype == 28 then end == begin + 16
    else if rtype == 2 || rtype == 5 || rtype == 12 then NameFills(packet, limits, begin, end)
    else if rtype == 15 then NameFills(packet, limits, begin + 2, end)
    else if rtype == 6 then TwoNames(packet, limits, begin, end) && StoredEnd(packet, StoredEnd(packet, begin)) + 20 == end
    else if rtype == 14 then TwoNames(packet, limits, begin, end) && StoredEnd(packet, StoredEnd(packet, begin)) == end
    else if rtype == 13 then StringsFill(packet, begin, end, 2)
    else if rtype == 16 then exists count :: count >= 1 && StringsFill(packet, begin, end, count)
    else true
  }

  ghost predicate TwoNames(packet: seq<Byte>, limits: ParseLimits, begin: nat, end: nat) {
    HasName(packet, limits, begin, end) && HasName(packet, limits, StoredEnd(packet, begin), end)
  }

  /** Record data passes the check exactly when it is stored as its type demands. */
  lemma RdataExactly(packet: seq<Byte>, limits: ParseLimits, rtype: U16, begin: nat, end: nat)
    requires begin <= end <= |packet|
    ensures RdataFault(packet, rtype, begin, end, limits).None? <==> RdataStored(packet, limits, rtype, begin, end)
  {
    if rtype in {2, 5, 12} {
      NameFound(packet, limits, begin, end);
    } else if rtype == 15 {
      NameFound(packet, limits, begin + 2, end);
    } else if rtype == 6 || rtype == 14 {
      NameFound(packet, limits, begin, end);
      NameFound(packet, limits, StoredEnd(packet, begin), end);
    } else if rtype == 13 {
      StringsExactly(packet, begin, end, 2);
    } else if rtype == 16 {
      SomeStrings(packet, begin, end);
    }
  }

  // ----------------------------------------------------- questions and records

  /** Reading and writing a number agree. */
  lemma Word16(packet: seq<Byte>, offset: nat, v: U16)
    ensures ReadU16(packet, offset) == Some(v) <==> At(packet, offset, Be16(v))
  {
    if At(packet, offset, Be16(v)) {
      ReadBack16(packet, offset, v);
    }
    if offset + 2 <= |packet| {
      assert packet[offset..offset + 2] == [packet[offset], packet[offset + 1]];
    }
  }

  lemma Word32(packet: seq<Byte>, offset: nat, v: U32)
    ensures ReadU32(packet, offset) == Some(v) <==> At(packet, offset, Be32(v))
  {
    if At(packet, offset, Be32(v)) {
      ReadBack32(packet, offset, v);
    }
    if offset + 4 <= |packet| {
      assert packet[offset..offset + 4] == [packet[offset], packet[offset + 1], packet[offset + 2], packet[offset + 3]];
      Octets32(packet[offset], packet[offset + 1], packet[offset + 2], packet[offset + 3]);
    }
  }

  lemma Octets32(a: Byte, b: Byte, c: Byte, d: Byte)
    ensures Be32((a as nat) * 0x100_0000 + (b as nat) * 0x1_0000 + (c as nat) * 256 + d) == [a, b, c, d]
  {
    var v: U32 := (a as nat) * 0x100_0000 + (b as nat) * 0x1_0000 + (c as nat) * 256 + d;
    var third: nat := (a as nat) * 0x1_0000 + (b as nat) * 256 + c;
    RemainderUnique(v, 256, third, d);
    RemainderUnique(third, 256, (a as nat) * 256 + b, c);
    RemainderUnique(v, 0x1_0000, (a as nat) * 256 + b, (c as nat) * 256 + d);
    RemainderUnique((a as nat) * 256 + b, 256, a, b);
    RemainderUnique(v, 0x100_0000, a, (b as nat) * 0x1_0000 + (c as nat) * 256 + d);
  }

  /** A question lies from `at` to `next`. */
  ghost predicate QuestionStored(packet: seq<Byte>, limits: ParseLimits, q: Question, at: nat, next: nat) {
    var n := StoredEnd(packet, at);
    && NameStored(packet, limits, at, |packet|, q.name.labels) && ValidName(q.name)
    && At(packet, n, Be16(q.qtype)) && At(packet, n + 2, Be16(q.qclass)) && next == n + 4
  }

  lemma QuestionParses(packet: seq<Byte>, limits: ParseLimits, decoded: DecodedName, q: Question, at: nat, next: nat)
    requires NameAt(packet, at, |packet|, limits) == Ok(decoded)
    ensures QuestionAt(packet, at, limits) == Ok(Parsed(q, next)) <==>
              && q.name == decoded.name && next == decoded.next + 4
              && ReadU16(packet, decoded.next) == Some(q.qtype) && ReadU16(packet, decoded.next + 2) == Some(q.qclass)
  {
  }

  lemma QuestionExactly(packet: seq<Byte>, limits: ParseLimits, q: Question, at: nat, next: nat)
    ensures QuestionAt(packet, at, limits) == Ok(Parsed(q, next)) <==> QuestionStored(packet, limits, q, at, next)
  {
    var n := StoredEnd(packet, at);
    var name := NameAt(packet, at, |packet|, limits);
    if name.Ok? {
      NameExactly(packet, limits, at, |packet|, name.value);
      QuestionParses(packet, limits, name.value, q, at, next);
    }
    NameExactly(packet, limits, at, |packet|, DecodedName(q.name, n));
    Word16(packet, n, q.qtype);
    Word16(packet, n + 2, q.qclass);
  }

  /** A record lies from `at` to `next`. */
  ghost predicate RecordStored(packet: seq<Byte>, limits: ParseLimits, r: ResourceRecord, at: nat, next: nat) {
    && NameStored(packet, limits, at, |packet|, r.name.labels) && ValidName(r.name)
    && AfterName(packet, limits, r, StoredEnd(packet, at), next)
  }

  /** Ten octets of fields and the data follow the name. */
  ghost predicate AfterName(packet: seq<Byte>, limits: ParseLimits, r: ResourceRecord, n: nat, next: nat) {
    && |r.rdata| < 0x1_0000 && FixedStored(packet, n, Fixed(r.rtype, r.rclass, r.ttl, |r.rdata|))
    && r.rdataOffset == n + 10 && At(packet, n + 10, r.rdata) && next == n + 10 + |r.rdata|
    && RdataStored(packet, limits, r.rtype, n + 10, next)
  }

  predicate FixedStored(packet: seq<Byte>, n: nat, f: Fixed) {
    At(packet, n, Be16(f.rtype)) && At(packet, n + 2, Be16(f.rclass)) && At(packet, n + 4, Be32(f.ttl)) && At(packet, n + 8, Be16(f.length))
  }

  lemma FixedExactly(packet: seq<Byte>, n: nat, f: Fixed)
    ensures FixedAt(packet, n) == Ok(f) <==> FixedStored(packet, n, f)
  {
    Word16(packet, n, f.rtype);
    Word16(packet, n + 2, f.rclass);
    Word32(packet, n + 4, f.ttl);
    Word16(packet, n + 8, f.length);
  }

  /** A record of the given name and fields, with the data after them. */
  predicate Made(packet: seq<Byte>, decoded: DecodedName, fixed: Fixed, r: ResourceRecord, next: nat) {
    var begin := decoded.next + 10;
    && next == begin + fixed.length <= |packet|
    && r == ResourceRecord(decoded.name, fixed.rtype, fixed.rclass, fixed.ttl, begin, packet[begin..next])
  }

  lemma RecordParses(packet: seq<Byte>, limits: ParseLimits, decoded: DecodedName, fixed: Fixed, r: ResourceRecord, at: nat, next: nat)
    requires NameAt(packet, at, |packet|, limits) == Ok(decoded) && FixedAt(packet, decoded.next) == Ok(fixed)
    ensures RecordAt(packet, at, limits) == Ok(Parsed(r, next)) <==>
              Made(packet, decoded, fixed, r, next) && RdataFault(packet, fixed.rtype, decoded.next + 10, next, limits).None?
  {
  }

  lemma RecordStoredParts(packet: seq<Byte>, limits: ParseLimits, decoded: DecodedName, fixed: Fixed, r: ResourceRecord, at: nat, next: nat)
    requires NameAt(packet, at, |packet|, limits) == Ok(decoded) && FixedAt(packet, decoded.next) == Ok(fixed)
    ensures RecordAt(packet, at, limits) == Ok(Parsed(r, next)) <==>
              Made(packet, decoded, fixed, r, next) && RdataStored(packet, limits, fixed.rtype, decoded.next + 10, next)
  {
    if Made(packet, decoded, fixed, r, next) {
      RdataExactly(packet, limits, fixed.rtype, decoded.next + 10, next);
    }
    RecordParses(packet, limits, decoded, fixed, r, at, next);
  }

  lemma MadeStored(packet: seq<Byte>, limits: ParseLimits, decoded: DecodedName, fixed: Fixed, r: ResourceRecord, next: nat)
    requires FixedStored(packet, decoded.next, fixed) && Made(packet, decoded, fixed, r, next)
    requires RdataStored(packet, limits, fixed.rtype, decoded.next + 10, next)
    ensures AfterName(packet, limits, r, decoded.next, next) && r.name == decoded.name
  {
    assert fixed == Fixed(r.rtype, r.rclass, r.ttl, |r.rdata|);
  }

  lemma StoredMade(packet: seq<Byte>, limits: ParseLimits, decoded: DecodedName, fixed: Fixed, r: ResourceRecord, next: nat)
    requires AfterName(packet, limits, r, decoded.next, next)
    requires decoded.name == r.name && fixed == Fixed(r.rtype, r.rclass, r.ttl, |r.rdata|)
    ensures Made(packet, decoded, fixed, r, next) && FixedStored(packet, decoded.next, fixed)
    ensures RdataStored(packet, limits, fixed.rtype, decoded.next + 10, next)
  {
  }

  lemma RecordExactly(packet: seq<Byte>, limits: ParseLimits, r: ResourceRecord, at: nat, next: nat)
    ensures RecordAt(packet, at, limits) == Ok(Parsed(r, next)) <==> RecordStored(packet, limits, r, at, next)
  {
    if RecordAt(packet, at, limits) == Ok(Parsed(r, next)) {
      var decoded := NameAt(packet, at, |packet|, limits).value;
      var fixed := FixedAt(packet, decoded.next).value;
      NameExactly(packet, limits, at, |packet|, decoded);
      FixedExactly(packet, decoded.next, fixed);
      RecordStoredParts(packet, limits, decoded, fixed, r, at, next);
      MadeStored(packet, limits, decoded, fixed, r, next);
    }
    if RecordStored(packet, limits, r, at, next) {
      var decoded := DecodedName(r.name, StoredEnd(packet, at));
      var fixed := Fixed(r.rtype, r.rclass, r.ttl, |r.rdata|);
      NameExactly(packet, limits, at, |packet|, decoded);
      FixedExactly(packet, decoded.next, fixed);
      StoredMade(packet, limits, decoded, fixed, r, next);
      RecordStoredParts(packet, limits, decoded, fixed, r, at, next);
    }
  }

  // ----------------------------------------------------------------- messages

  predicate Between(marks: seq<nat>, count: nat, from: nat, to: nat) {
    |marks| == count + 1 && marks[0] == from && marks[count] == to
  }

  /** The questions lie one after another between two places. */
  ghost predicate QuestionsStored(packet: seq<Byte>, limits: ParseLimits, questions: seq<Question>, from: nat, to: nat) {
    exists marks :: Between(marks, |questions|, from, to) &&
      forall k :: 0 <= k < |questions| ==> QuestionStored(packet, limits, questions[k], marks[k], marks[k + 1])
  }

  ghost predicate RecordsStored(packet: seq<Byte>, limits: ParseLimits, records: seq<ResourceRecord>, from: nat, to: nat) {
    exists marks :: Between(marks, |records|, from, to) &&
      forall k :: 0 <= k < |records| ==> RecordStored(packet, limits, records[k], marks[k], marks[k + 1])
  }

  lemma SectionIsLaid<T(!new)>(parse: ItemParser<T>, items: seq<T>, from: nat, to: nat)
    ensures SectionFrom(parse, |items|, from, []) == Ok(Parsed(items, to)) <==>
              exists marks :: Between(marks, |items|, from, to) && Laid(parse, items, marks)
  {
    if SectionFrom(parse, |items|, from, []) == Ok(Parsed(items, to)) {
      var read, marks := SectionLaid(parse, |items|, from, []);
      assert [] + read == read;
      assert Between(marks, |items|, from, to);
    }
    forall marks | Between(marks, |items|, from, to) && Laid(parse, items, marks)
      ensures SectionFrom(parse, |items|, from, []) == Ok(Parsed(items, to))
    {
      SectionReads(parse, items, marks, 0);
      assert items[..0] == [];
    }
  }

  lemma QuestionsExactly(packet: seq<Byte>, limits: ParseLimits, questions: seq<Question>, from: nat, to: nat)
    ensures SectionFrom(Questions(packet, limits), |questions|, from, []) == Ok(Parsed(questions, to))
       <==> QuestionsStored(packet, limits, questions, from, to)
  {
    SectionIsLaid(Questions(packet, limits), questions, from, to);
    forall marks: seq<nat>, k | |marks| == |questions| + 1 && 0 <= k < |questions|
      ensures Questions(packet, limits)(marks[k]) == Ok(Parsed(questions[k], marks[k + 1]))
         <==> QuestionStored(packet, limits, questions[k], marks[k], marks[k + 1])
    {
      QuestionExactly(packet, limits, questions[k], marks[k], marks[k + 1]);
    }
  }

  lemma RecordsExactly(packet: seq<Byte>, limits: ParseLimits, records: seq<ResourceRecord>, from: nat, to: nat)
    ensures SectionFrom(Records(packet, limits), |records|, from, []) == Ok(Parsed(records, to))
       <==> RecordsStored(packet, limits, records, from, to)
  {
    SectionIsLaid(Records(packet, limits), records, from, to);
    forall marks: seq<nat>, k | |marks| == |records| + 1 && 0 <= k < |records|
      ensures Records(packet, limits)(marks[k]) == Ok(Parsed(records[k], marks[k + 1]))
         <==> RecordStored(packet, limits, records[k], marks[k], marks[k + 1])
    {
      RecordExactly(packet, limits, records[k], marks[k], marks[k + 1]);
    }
  }

  /** The six words before the sections. */
  predicate HeaderStored(packet: seq<Byte>, h: Header, c: Counts) {
    && h.opcode <= 15 && h.responseCode <= 15
    && c.questions < 0x1_0000 && c.answers < 0x1_0000 && c.authorities < 0x1_0000 && c.additionals < 0x1_0000
    && At(packet, 0, Be16(h.id)) && At(packet, 2, Be16(FlagWord(h)))
    && At(packet, 4, Be16(c.questions)) && At(packet, 6, Be16(c.answers))
    && At(packet, 8, Be16(c.authorities)) && At(packet, 10, Be16(c.additionals))
  }

  lemma HeaderExactly(packet: seq<Byte>, h: Header, c: Counts)
    ensures HeaderStored(packet, h, c) <==>
              && |packet| >= HEADER_SIZE && c == CountsOf(packet)
              && h == HeaderOf(ReadU16(packet, 0).value, ReadU16(packet, 2).value)
  {
    if HeaderStored(packet, h, c) {
      Word16(packet, 0, h.id);
      Word16(packet, 2, FlagWord(h));
      FlagsRoundTrip(h);
      CountsExactly(packet, c);
    }
    if |packet| >= HEADER_SIZE && c == CountsOf(packet) && h == HeaderOf(ReadU16(packet, 0).value, ReadU16(packet, 2).value) {
      Word16(packet, 0, h.id);
      WordRoundTrip(h.id, ReadU16(packet, 2).value);
      Word16(packet, 2, FlagWord(h));
      CountsExactly(packet, c);
    }
  }

  lemma CountsExactly(packet: seq<Byte>, c: Counts)
    requires c.questions < 0x1_0000 && c.answers < 0x1_0000 && c.authorities < 0x1_0000 && c.additionals < 0x1_0000
    ensures At(packet, 4, Be16(c.questions)) <==> ReadU16(packet, 4) == Some(c.questions)
    ensures At(packet, 6, Be16(c.answers)) <==> ReadU16(packet, 6) == Some(c.answers)
    ensures At(packet, 8, Be16(c.authorities)) <==> ReadU16(packet, 8) == Some(c.authorities)
    ensures At(packet, 10, Be16(c.additionals)) <==> ReadU16(packet, 10) == Some(c.additionals)
  {
    Word16(packet, 4, c.questions);
    Word16(packet, 6, c.answers);
    Word16(packet, 8, c.authorities);
    Word16(packet, 10, c.additionals);
  }

  /** The four sections lie one after another from the header to `d`. */
  ghost predicate SectionsStored(packet: seq<Byte>, limits: ParseLimits, m: Message, a: nat, b: nat, c: nat, d: nat) {
    && QuestionsStored(packet, limits, m.questions, 12, a) && RecordsStored(packet, limits, m.answers, a, b)
    && RecordsStored(packet, limits, m.authorities, b, c) && RecordsStored(packet, limits, m.additionals, c, d)
    && (limits.rejectTrailingData ==> d == |packet|)
  }

  function Lengths(m: Message): Counts {
    Counts(|m.questions|, |m.answers|, |m.authorities|, |m.additionals|)
  }

  predicate WithinLimits(c: Counts, limits: ParseLimits) {
    && c.questions <= limits.maximumQuestions && c.answers <= limits.maximumRecordsPerSection
    && c.authorities <= limits.maximumRecordsPerSection && c.additionals <= limits.maximumRecordsPerSection
    && c.answers + c.authorities + c.additionals <= limits.maximumTotalRecords
  }

  /** The packet is the message. */
  ghost predicate MessageStored(packet: seq<Byte>, limits: ParseLimits, m: Message) {
    && |packet| <= limits.maximumPacketSize && m.wireImage == packet
    && HeaderStored(packet, m.header, Lengths(m)) && WithinLimits(Lengths(m), limits)
    && exists a: nat, b: nat, c: nat, d: nat :: SectionsStored(packet, limits, m, a, b, c, d)
  }

  lemma SectionCount<T(!new)>(parse: ItemParser<T>, count: nat, from: nat)
    ensures SectionFrom(parse, count, from, []).Ok? ==> |SectionFrom(parse, count, from, []).value.item| == count
  {
    if SectionFrom(parse, count, from, []).Ok? {
      var items, marks := SectionLaid(parse, count, from, []);
    }
  }

  /** What the four section parsers return, one after another. */
  predicate SectionsRead(packet: seq<Byte>, limits: ParseLimits, m: Message, a: nat, b: nat, c: nat, d: nat) {
    && SectionFrom(Questions(packet, limits), |m.questions|, HEADER_SIZE, []) == Ok(Parsed(m.questions, a))
    && SectionFrom(Records(packet, limits), |m.answers|, a, []) == Ok(Parsed(m.answers, b))
    && SectionFrom(Records(packet, limits), |m.authorities|, b, []) == Ok(Parsed(m.authorities, c))
    && SectionFrom(Records(packet, limits), |m.additionals|, c, []) == Ok(Parsed(m.additionals, d))
    && (limits.rejectTrailingData ==> d == |packet|)
  }

  lemma SectionsExactly(packet: seq<Byte>, limits: ParseLimits, m: Message, a: nat, b: nat, c: nat, d: nat)
    ensures SectionsRead(packet, limits, m, a, b, c, d) <==> SectionsStored(packet, limits, m, a, b, c, d)
  {
    QuestionsExactly(packet, limits, m.questions, HEADER_SIZE, a);
    RecordsExactly(packet, limits, m.answers, a, b);
    RecordsExactly(packet, limits, m.authorities, b, c);
    RecordsExactly(packet, limits, m.additionals, c, d);
  }

  lemma BodySound(packet: seq<Byte>, limits: ParseLimits, header: Header, counts: Counts, m: Message) returns (a: nat, b: nat, c: nat, d: nat)
    requires BodyAt(packet, limits, header, counts) == Ok(m)
    ensures SectionsRead(packet, limits, m, a, b, c, d) && m.header == header && m.wireImage == packet && Lengths(m) == counts
  {
    SectionCount(Questions(packet, limits), counts.questions, HEADER_SIZE);
    a := SectionFrom(Questions(packet, limits), counts.questions, HEADER_SIZE, []).value.next;
    SectionCount(Records(packet, limits), counts.answers, a);
    b := SectionFrom(Records(packet, limits), counts.answers, a, []).value.next;
    SectionCount(Records(packet, limits), counts.authorities, b);
    c := SectionFrom(Records(packet, limits), counts.authorities, b, []).value.next;
    SectionCount(Records(packet, limits), counts.additionals, c);
    d := SectionFrom(Records(packet, limits), counts.additionals, c, []).value.next;
  }

  lemma BodyComplete(packet: seq<Byte>, limits: ParseLimits, m: Message, a: nat, b: nat, c: nat, d: nat)
    requires SectionsRead(packet, limits, m, a, b, c, d) && m.wireImage == packet
    ensures BodyAt(packet, limits, m.header, Lengths(m)) == Ok(m)
  {
  }

  /** A packet parses to a message exactly when it is that message. */
  lemma MessageExactly(packet: seq<Byte>, limits: ParseLimits, m: Message)
    ensures MessageOf(packet, limits) == Ok(m) <==> MessageStored(packet, limits, m)
  {
    if MessageOf(packet, limits) == Ok(m) {
      MessageSound(packet, limits, m);
    }
    if MessageStored(packet, limits, m) {
      MessageComplete(packet, limits, m);
    }
  }

  lemma MessageSound(packet: seq<Byte>, limits: ParseLimits, m: Message)
    requires MessageOf(packet, limits) == Ok(m)
    ensures MessageStored(packet, limits, m)
  {
    var header := HeaderOf(ReadU16(packet, 0).value, ReadU16(packet, 2).value);
    var a, b, c, d := BodySound(packet, limits, header, CountsOf(packet), m);
    SectionsExactly(packet, limits, m, a, b, c, d);
    HeaderExactly(packet, header, Lengths(m));
  }

  lemma MessageComplete(packet: seq<Byte>, limits: ParseLimits, m: Message)
    requires MessageStored(packet, limits, m)
    ensures MessageOf(packet, limits) == Ok(m)
  {
    var a: nat, b: nat, c: nat, d: nat :| SectionsStored(packet, limits, m, a, b, c, d);
    SectionsExactly(packet, limits, m, a, b, c, d);
    BodyComplete(packet, limits, m, a, b, c, d);
    HeaderExactly(packet, m.header, Lengths(m));
  }
}
