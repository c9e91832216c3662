/** Parsing of DNS messages: compressed names, questions, records and whole packets. */
module DnsParser {
  import opened Basics
  import opened Wire
  import opened Words
  import opened DomainNames
  import opened DnsMessages

  datatype ParseErrorCode =
    | PacketTooLarge
    | UnexpectedEnd
    | TooManyQuestions
    | TooManyRecords
    | InvalidLabelType
    | EmptyWireLabel
    | WireLabelTooLong
    | WireNameTooLong
    | TruncatedCompressionPointer
    | CompressionPointerOutOfBounds
    | CompressionPointerIntoHeader
    | ForwardCompressionPointer
    | CompressionPointerLoop
    | TooManyCompressionPointers
    | InvalidRdata
    | TrailingData

  datatype ParseError = ParseError(code: ParseErrorCode, offset: nat)

  datatype ParseLimits = ParseLimits(
    maximumPacketSize: nat,
    maximumQuestions: nat,
    maximumRecordsPerSection: nat,
    maximumTotalRecords: nat,
    maximumCompressionPointers: nat,
    requireBackwardPointers: bool,
    rejectTrailingData: bool)

  const DEFAULT_LIMITS := ParseLimits(65535, 16, 4096, 4096, 32, true, true)

  // ------------------------------------------------------- names, declaratively

  predicate IsPointer(length: Byte) {
    length >= 0xC0
  }

  /** The target of the compression pointer at `position`. */
  function Target(packet: seq<Byte>, position: nat): nat
    requires position + 1 < |packet| && IsPointer(packet[position])
  {
    (packet[position] as nat - 0xC0) * 256 + packet[position + 1]
  }

  /**
   * The octets at `position` spell `labels`, following the compression
   * pointers `hops` in order (section 4.1.4 of RFC 1035).
   */
  predicate Spells(packet: seq<Byte>, limits: ParseLimits, position: nat, labels: seq<Label>, hops: seq<nat>)
    decreases |labels| + |hops|
  {
    position < |packet| &&
    if packet[position] == 0 then labels == [] && hops == []
    else if IsPointer(packet[position]) then
      position + 1 < |packet| && hops != [] && hops[0] == Target(packet, position)
      && HEADER_SIZE <= hops[0] < |packet| && (limits.requireBackwardPointers ==> hops[0] < position)
      && Spells(packet, limits, hops[0], labels, hops[1..])
    else
      packet[position] < 64 && labels != [] && |labels[0]| == packet[position] && At(packet, position + 1, labels[0])
      && Spells(packet, limits, position + 1 + |labels[0]|, labels[1..], hops)
  }

  /** Where the octets of a name stored at `position` end: after its zero octet or first pointer. */
  function StoredEnd(packet: seq<Byte>, position: nat): nat
    decreases |packet| - position
  {
    if position >= |packet| then position
    else if packet[position] == 0 then position + 1
    else if IsPointer(packet[position]) then position + 2
    else StoredEnd(packet, position + 1 + packet[position])
  }

  lemma {:induction false} StoredEndAfter(packet: seq<Byte>, position: nat)
    ensures StoredEnd(packet, position) >= position
    ensures position < |packet| ==> StoredEnd(packet, position) > position
    decreases |packet| - position
  {
    if position < |packet| && 0 < packet[position] < 0xC0 {
      StoredEndAfter(packet, position + 1 + packet[position]);
    }
  }

  // ------------------------------------------------------- names, as decoded

  datatype Expansion = Expansion(labels: seq<Label>, hops: seq<nat>, next: nat)

  /** Why the pointer at `position` cannot be followed. */
  function PointerFault(packet: seq<Byte>, end: nat, limits: ParseLimits, position: nat, hops: seq<nat>): (fault: Option<ParseErrorCode>)
    requires position < |packet| && IsPointer(packet[position])
    ensures fault.None? ==> position + 1 < |packet| && |hops| < limits.maximumCompressionPointers
  {
    if position + 1 >= |packet| || (hops == [] && position + 1 >= end) then Some(TruncatedCompressionPointer)
    else
      var pointer := Target(packet, position);
      if pointer >= |packet| then Some(CompressionPointerOutOfBounds)
      else if pointer < HEADER_SIZE then Some(CompressionPointerIntoHeader)
      else if limits.requireBackwardPointers && pointer >= position then Some(ForwardCompressionPointer)
      else if pointer in hops then Some(CompressionPointerLoop)
      else if |hops| >= limits.maximumCompressionPointers then Some(TooManyCompressionPointers)
      else None
  }

  /** Why the label at `position` cannot follow labels of `size` octets. */
  function StoredLabelFault(packet: seq<Byte>, end: nat, position: nat, inPlace: bool, size: nat): (fault: Option<ParseErrorCode>)
    requires position < |packet|
    ensures fault.None? ==> packet[position] < 64 && position + 1 + packet[position] <= |packet|
  {
    var length := packet[position];
    var after := position + 1 + length;
    if length >= 64 then Some(InvalidLabelType)
    else if after > |packet| || (inPlace && after > end) then Some(UnexpectedEnd)
    else if 1 + size + length + 1 > MAX_WIRE_SIZE then Some(WireNameTooLong)
    else None
  }

  /** One run of the decoding loop from the given loop state. */
  function Expand(packet: seq<Byte>, end: nat, limits: ParseLimits, position: nat, labels: seq<Label>, hops: seq<nat>, next: nat)
    : Result<Expansion, ParseError>
    requires |hops| <= limits.maximumCompressionPointers
    decreases limits.maximumCompressionPointers - |hops|, |packet| - position
  {
    var inPlace := hops == [];
    if position >= |packet| || (inPlace && position >= end) then Err(ParseError(UnexpectedEnd, position))
    else
      var length := packet[position];
      if length == 0 then Ok(Expansion(labels, hops, if inPlace then position + 1 else next))
      else if IsPointer(length) then
        match PointerFault(packet, end, limits, position, hops)
        case Some(code) => Err(ParseError(code, position))
        case None =>
          var pointer := Target(packet, position);
          Expand(packet, end, limits, pointer, labels, hops + [pointer], if inPlace then position + 2 else next)
      else
        match StoredLabelFault(packet, end, position, inPlace, LabelOctets(labels))
        case Some(code) => Err(ParseError(code, position))
        case None =>
          var after := position + 1 + length;
          Expand(packet, end, limits, after, labels + [packet[position + 1..after]], hops, if inPlace then after else next)
  }

  lemma {:induction false} OctetsSnoc(labels: seq<Label>, last: Label)
    ensures LabelOctets(labels + [last]) == LabelOctets(labels) + |last| + 1
  {
    OctetsSplit(labels + [last], |labels|);
    assert (labels + [last])[..|labels|] == labels && (labels + [last])[|labels|..] == [last];
    assert LabelOctets([last]) == |last| + 1 + LabelOctets([]);
  }

  lemma LabelCons(first: Label, rest: seq<Label>, labels: seq<Label>)
    ensures labels + [first] + rest == labels + ([first] + rest)
    ensures ([first] + rest)[0] == first && ([first] + rest)[1..] == rest
  {
  }

  lemma SpellsLabel(packet: seq<Byte>, limits: ParseLimits, position: nat, first: Label, rest: seq<Label>, hops: seq<nat>)
    requires position < |packet| && 0 < packet[position] < 64 && position + 1 + packet[position] <= |packet|
    requires first == packet[position + 1..position + 1 + packet[position]]
    requires Spells(packet, limits, position + 1 + |first|, rest, hops)
    ensures Spells(packet, limits, position, [first] + rest, hops)
    ensures StoredEnd(packet, position) == StoredEnd(packet, position + 1 + |first|)
  {
    LabelCons(first, rest, []);
  }

  lemma SpellsPointer(packet: seq<Byte>, limits: ParseLimits, position: nat, labels: seq<Label>, hops: seq<nat>, rest: seq<nat>)
    requires position + 1 < |packet| && IsPointer(packet[position]) && HEADER_SIZE <= Target(packet, position) < |packet|
    requires limits.requireBackwardPointers ==> Target(packet, position) < position
    requires Spells(packet, limits, Target(packet, position), labels, rest) && Target(packet, position) !in hops && NoRepeats(hops)
    ensures Spells(packet, limits, position, labels, [Target(packet, position)] + rest) && StoredEnd(packet, position) == position + 2
    ensures NoRepeats(hops + [Target(packet, position)])
    ensures hops + [Target(packet, position)] + rest == hops + ([Target(packet, position)] + rest)
  {
    assert ([Target(packet, position)] + rest)[1..] == rest;
  }

  /** Every successful run of the loop spells the name it returns. */
  lemma {:induction false} ExpandSound(packet: seq<Byte>, end: nat, limits: ParseLimits, position: nat, labels: seq<Label>,
                                       hops: seq<nat>, next: nat, e: Expansion) returns (newLabels: seq<Label>, newHops: seq<nat>)
    requires |hops| <= limits.maximumCompressionPointers && NoRepeats(hops) && 1 + LabelOctets(labels) <= MAX_WIRE_SIZE
    requires Expand(packet, end, limits, position, labels, hops, next) == Ok(e)
    ensures e.labels == labels + newLabels && e.hops == hops + newHops
    ensures if hops == [] then e.next == StoredEnd(packet, position) <= end else e.next == next
    ensures Spells(packet, limits, position, newLabels, newHops) && NoRepeats(hops + newHops)
    ensures |hops + newHops| <= limits.maximumCompressionPointers && 1 + LabelOctets(labels + newLabels) <= MAX_WIRE_SIZE
    decreases limits.maximumCompressionPointers - |hops|, |packet| - position, 1
  {
    if packet[position] == 0 {
      newLabels, newHops := [], [];
      assert labels + [] == labels && hops + [] == hops;
    } else if IsPointer(packet[position]) {
      newLabels, newHops := PointerSound(packet, end, limits, position, labels, hops, next, e);
    } else {
      newLabels, newHops := LabelSound(packet, end, limits, position, labels, hops, next, e);
    }
  }

  lemma {:induction false} PointerSound(packet: seq<Byte>, end: nat, limits: ParseLimits, position: nat, labels: seq<Label>,
                                        hops: seq<nat>, next: nat, e: Expansion) returns (newLabels: seq<Label>, newHops: seq<nat>)
    requires |hops| <= limits.maximumCompressionPointers && NoRepeats(hops) && 1 + LabelOctets(labels) <= MAX_WIRE_SIZE
    requires Expand(packet, end, limits, position, labels, hops, next) == Ok(e)
    requires position < |packet| && IsPointer(packet[position])
    ensures e.labels == labels + newLabels && e.hops == hops + newHops
    ensures if hops == [] then e.next == StoredEnd(packet, position) <= end else e.next == next
    ensures Spells(packet, limits, position, newLabels, newHops) && NoRepeats(hops + newHops)
    ensures |hops + newHops| <= limits.maximumCompressionPointers && 1 + LabelOctets(labels + newLabels) <= MAX_WIRE_SIZE
    decreases limits.maximumCompressionPointers - |hops|, |packet| - position, 0
  {
    var pointer := Target(packet, position);
    var rest;
    newLabels, rest := ExpandSound(packet, end, limits, pointer, labels, hops + [pointer], if hops == [] then position + 2 else next, e);
    newHops := [pointer] + rest;
    SpellsPointer(packet, limits, position, newLabels, hops, rest);
  }

  lemma {:induction false} LabelSound(packet: seq<Byte>, end: nat, limits: ParseLimits, position: nat, labels: seq<Label>,
                                      hops: seq<nat>, next: nat, e: Expansion) returns (newLabels: seq<Label>, newHops: seq<nat>)
    requires |hops| <= limits.maximumCompressionPointers && NoRepeats(hops) && 1 + LabelOctets(labels) <= MAX_WIRE_SIZE
    requires Expand(packet, end, limits, position, labels, hops, next) == Ok(e)
    requires position < |packet| && 0 < packet[position] < 0xC0
    ensures e.labels == labels + newLabels && e.hops == hops + newHops
    ensures if hops == [] then e.next == StoredEnd(packet, position) <= end else e.next == next
    ensures Spells(packet, limits, position, newLabels, newHops) && NoRepeats(hops + newHops)
    ensures |hops + newHops| <= limits.maximumCompressionPointers && 1 + LabelOctets(labels + newLabels) <= MAX_WIRE_SIZE
    decreases limits.maximumCompressionPointers - |hops|, |packet| - position, 0
  {
    var after := position + 1 + packet[position];
    var first := packet[position + 1..after];
    OctetsSnoc(labels, first);
    var rest;
    rest, newHops := ExpandSound(packet, end, limits, after, labels + [first], hops, if hops == [] then after else next, e);
    newLabels := [first] + rest;
    LabelCons(first, rest, labels);
    SpellsLabel(packet, limits, position, first, rest, newHops);
  }

  lemma FirstHop(hops: seq<nat>, newHops: seq<nat>)
    requires newHops != [] && NoRepeats(hops + newHops)
    ensures newHops[0] !in hops && hops + [newHops[0]] + newHops[1..] == hops + newHops
  {
    forall i | 0 <= i < |hops| ensures hops[i] != newHops[0] {
      assert (hops + newHops)[i] == hops[i] && (hops + newHops)[|hops|] == newHops[0];
    }
  }

  lemma FirstLabel(labels: seq<Label>, newLabels: seq<Label>)
    requires newLabels != []
    ensures labels + [newLabels[0]] + newLabels[1..] == labels + newLabels
    ensures LabelOctets(labels) + |newLabels[0]| + 1 <= LabelOctets(labels + newLabels)
  {
    OctetsSplit(labels + newLabels, |labels| + 1);
    assert (labels + newLabels)[..|labels| + 1] == labels + [newLabels[0]];
    OctetsSnoc(labels, newLabels[0]);
  }

  /** Every spelled name within the limits is decoded. */
  lemma {:induction false} ExpandComplete(packet: seq<Byte>, end: nat, limits: ParseLimits, position: nat, labels: seq<Label>,
                                          hops: seq<nat>, next: nat, newLabels: seq<Label>, newHops: seq<nat>)
    requires Spells(packet, limits, position, newLabels, newHops) && NoRepeats(hops + newHops)
    requires |hops + newHops| <= limits.maximumCompressionPointers && 1 + LabelOctets(labels + newLabels) <= MAX_WIRE_SIZE
    requires hops == [] ==> StoredEnd(packet, position) <= end
    ensures Expand(packet, end, limits, position, labels, hops, next)
         == Ok(Expansion(labels + newLabels, hops + newHops, if hops == [] then StoredEnd(packet, position) else next))
    decreases |newLabels| + |newHops|
  {
    StoredEndAfter(packet, position);
    var length := packet[position];
    if length == 0 {
      assert labels + [] == labels && hops + [] == hops;
    } else if IsPointer(length) {
      var pointer := newHops[0];
      FirstHop(hops, newHops);
      ExpandComplete(packet, end, limits, pointer, labels, hops + [pointer], if hops == [] then position + 2 else next, newLabels, newHops[1..]);
    } else {
      var first := newLabels[0];
      var after := position + 1 + length;
      assert packet[position + 1..after] == first;
      FirstLabel(labels, newLabels);
      StoredEndAfter(packet, after);
      ExpandComplete(packet, end, limits, after, labels + [first], hops, if hops == [] then after else next, newLabels[1..], newHops);
    }
  }

  lemma {:induction false} SpelledLabels(packet: seq<Byte>, limits: ParseLimits, position: nat, labels: seq<Label>, hops: seq<nat>)
    requires Spells(packet, limits, position, labels, hops)
    ensures forall k :: 0 <= k < |labels| ==> ValidLabel(labels[k])
    ensures StoredEnd(packet, position) > position
    decreases |labels| + |hops|
  {
    StoredEndAfter(packet, position);
    if packet[position] == 0 {
    } else if IsPointer(packet[position]) {
      SpelledLabels(packet, limits, hops[0], labels, hops[1..]);
    } else {
      SpelledLabels(packet, limits, position + 1 + |labels[0]|, labels[1..], hops);
    }
  }

  /**
   * Decoding at `start` succeeds with a given expansion exactly when the packet
   * spells it there within every limit.
   */
  lemma DecodesExactly(packet: seq<Byte>, start: nat, end: nat, limits: ParseLimits, e: Expansion)
    ensures Expand(packet, end, limits, start, [], [], start) == Ok(e) <==>
            && Spells(packet, limits, start, e.labels, e.hops) && NoRepeats(e.hops)
            && |e.hops| <= limits.maximumCompressionPointers && ValidLabels(e.labels)
            && start < e.next == StoredEnd(packet, start) <= end
  {
    if Expand(packet, end, limits, start, [], [], start) == Ok(e) {
      var newLabels, newHops := ExpandSound(packet, end, limits, start, [], [], start, e);
      assert [] + newLabels == newLabels && [] + newHops == newHops;
      SpelledLabels(packet, limits, start, newLabels, newHops);
    }
    if Spells(packet, limits, start, e.labels, e.hops) && NoRepeats(e.hops) && |e.hops| <= limits.maximumCompressionPointers
       && ValidLabels(e.labels) && start < e.next == StoredEnd(packet, start) <= end {
      assert [] + e.labels == e.labels && [] + e.hops == e.hops;
      ExpandComplete(packet, end, limits, start, [], [], start, e.labels, e.hops);
    }
  }

  datatype DecodedName = DecodedName(name: DomainName, next: nat)

  /** The name stored at `start`, its stored octets lying before `end`. */
  function NameAt(packet: seq<Byte>, start: nat, end: nat, limits: ParseLimits): (r: Result<DecodedName, ParseError>)
    ensures r.Ok? ==> ValidName(r.value.name) && start < r.value.next <= end
  {
    var e := Expand(packet, end, limits, start, [], [], start);
    if e.Err? then Err(e.error)
    else
      DecodesExactly(packet, start, end, limits, e.value);
      Ok(DecodedName(NameOf(e.value.labels), e.value.next))
  }

  /** A mask of 64 m keeps what m keeps of the octet above its six low bits. */
  lemma AndShifted(a: nat, m: nat)
    requires m > 0
    ensures And(a, 64 * m) == 64 * And(a / 64, m)
  {
    AndQuarter(a, 16 * m);
    AndQuarter(a / 4, 4 * m);
    AndQuarter(a / 4 / 4, m);
    assert a / 4 / 4 / 4 == a / 64;
  }

  lemma AndQuarter(a: nat, m: nat)
    requires m > 0
    ensures And(a, 4 * m) == 4 * And(a / 4, m)
  {
    AndEven(a, 2 * m);
    AndEven(a / 2, m);
    assert a / 2 / 2 == a / 4;
  }

  lemma LabelTypeBits(length: Byte, high: nat, low: nat)
    requires length == 64 * high + low && low < 64
    ensures And(length, 0xC0) == 64 * high && And(length, 0x3F) == low
  {
    assert Pow2(2) == 4 && Pow2(6) == 64;
    assert high < 4 && length / 64 == high;
    AndShifted(length, 3);
    AndLow(high, 2, 4, 0, high);
    AndLow(length, 6, 64, high, low);
  }

  /** The two top bits of a length octet choose its kind, the other six are its value. */
  method Classify(length: Byte) returns (isPointer: bool, isLabel: bool, low: nat)
    ensures isPointer <==> length >= 0xC0
    ensures isLabel <==> length <= MAX_LABEL_SIZE
    ensures isPointer ==> low == length - 0xC0
  {
    LabelTypeBits(length, length / 64, length % 64);
    isPointer, isLabel, low := And(length, 0xC0) == 0xC0, And(length, 0xC0) == 0, And(length, 0x3F);
  }

  method CheckPointer(packet: seq<Byte>, end: nat, limits: ParseLimits, position: nat, visited: seq<nat>, low: nat)
    returns (fault: Option<ParseErrorCode>, pointer: nat)
    requires position < |packet| && IsPointer(packet[position]) && low == packet[position] - 0xC0
    ensures fault == PointerFault(packet, end, limits, position, visited)
    ensures fault.None? ==> pointer == Target(packet, position)
  {
    pointer := 0;
    if position + 1 >= |packet| || (visited == [] && position + 1 >= end) {
      return Some(TruncatedCompressionPointer), pointer;
    }
    pointer := low * 256 + packet[position + 1];
    if pointer >= |packet| {
      return Some(CompressionPointerOutOfBounds), pointer;
    }
    if pointer < HEADER_SIZE {
      return Some(CompressionPointerIntoHeader), pointer;
    }
    if limits.requireBackwardPointers && pointer >= position {
      return Some(ForwardCompressionPointer), pointer;
    }
    if pointer in visited {
      return Some(CompressionPointerLoop), pointer;
    }
    fault := if |visited| >= limits.maximumCompressionPointers then Some(TooManyCompressionPointers) else None;
  }

  method CheckLabel(packet: seq<Byte>, end: nat, position: nat, inPlace: bool, isLabel: bool, expandedWireSize: nat)
    returns (fault: Option<ParseErrorCode>)
    requires position < |packet| && (isLabel <==> packet[position] < 64) && 1 <= expandedWireSize <= MAX_WIRE_SIZE
    ensures fault == StoredLabelFault(packet, end, position, inPlace, expandedWireSize - 1)
  {
    var length, labelBegin := packet[position], position + 1;
    if !isLabel {
      return Some(InvalidLabelType);
    }
    if labelBegin > |packet| || length > |packet| - labelBegin || (inPlace && (labelBegin > end || length > end - labelBegin)) {
      return Some(UnexpectedEnd);
    }
    fault := if expandedWireSize > MAX_WIRE_SIZE - (length + 1) then Some(WireNameTooLong) else None;
  }

  /** The decoding loop. The conversion of the collected labels to a name cannot fail. */
  method DecodeName(packet: seq<Byte>, start: nat, end: nat, limits: ParseLimits) returns (r: Result<DecodedName, ParseError>)
    ensures r == NameAt(packet, start, end, limits)
  {
    var e := ExpandLoop(packet, start, end, limits);
    if e.Err? {
      return Err(e.error);
    }
    DecodesExactly(packet, start, end, limits, e.value);
    var name := FromLabels(e.value.labels);
    r := Ok(DecodedName(name.value, e.value.next));
  }

  method ExpandLoop(packet: seq<Byte>, start: nat, end: nat, limits: ParseLimits) returns (r: Result<Expansion, ParseError>)
    ensures r == Expand(packet, end, limits, start, [], [], start)
  {
    var labels: seq<Label> := [];
    var visited: seq<nat> := [];
    var position: nat, next: nat := start, start;
    var expandedWireSize := 1;
    ghost var whole := Expand(packet, end, limits, start, [], [], start);
    while true
      invariant |visited| <= limits.maximumCompressionPointers
      invariant expandedWireSize == 1 + LabelOctets(labels) <= MAX_WIRE_SIZE
      invariant whole == Expand(packet, end, limits, position, labels, visited, next)
      decreases limits.maximumCompressionPointers - |visited|, |packet| - position
    {
      if position >= |packet| || (visited == [] && position >= end) {
        return Err(ParseError(UnexpectedEnd, position));
      }
      var length := packet[position];
      var isPointer, isLabel, low := Classify(length);
      if length == 0 {
        return Ok(Expansion(labels, visited, if visited == [] then position + 1 else next));
      }
      if isPointer {
        var fault, pointer := CheckPointer(packet, end, limits, position, visited, low);
        if fault.Some? {
          return Err(ParseError(fault.value, position));
        }
        if visited == [] {
          next := position + 2;
        }
        visited := visited + [pointer];
        position := pointer;
        continue;
      }
      var fault := CheckLabel(packet, end, position, visited == [], isLabel, expandedWireSize);
      if fault.Some? {
        return Err(ParseError(fault.value, position));
      }
      var octets := packet[position + 1..position + 1 + length];
      OctetsSnoc(labels, octets);
      labels := labels + [octets];
      expandedWireSize := expandedWireSize + length + 1;
      position := position + 1 + length;
      if visited == [] {
        next := position;
      }
    }
  }

  // ------------------------------------------------------- questions and records

  datatype Parsed<+T> = Parsed(item: T, next: nat)

  function QuestionAt(packet: seq<Byte>, offset: nat, limits: ParseLimits): (r: Result<Parsed<Question>, ParseError>)
    ensures r.Ok? ==> offset < r.value.next <= |packet| && ValidQuestion(r.value.item)
  {
    match NameAt(packet, offset, |packet|, limits)
    case Err(e) => Err(e)
    case Ok(decoded) =>
      var n := decoded.next;
      if n + 2 > |packet| then Err(ParseError(UnexpectedEnd, n))
      else if n + 4 > |packet| then Err(ParseError(UnexpectedEnd, n + 2))
      else Ok(Parsed(Question(decoded.name, ReadU16(packet, n).value, ReadU16(packet, n + 2).value), n + 4))
  }

  method ParseQuestion(packet: seq<Byte>, offset: nat, limits: ParseLimits) returns (r: Result<Parsed<Question>, ParseError>)
    ensures r == QuestionAt(packet, offset, limits)
  {
    var decoded := DecodeName(packet, offset, |packet|, limits);
    if decoded.Err? {
      return Err(decoded.error);
    }
    var reader := new WireReader(packet, decoded.value.next);
    var typeRead, qtype := reader.ReadWord();
    if !typeRead {
      return Err(ParseError(UnexpectedEnd, reader.offset));
    }
    var classRead, qclass := reader.ReadWord();
    if !classRead {
      return Err(ParseError(UnexpectedEnd, reader.offset));
    }
    r := Ok(Parsed(Question(decoded.value.name, qtype, qclass), reader.offset));
  }

  /** How many length-prefixed strings fill the octets from `cursor` to `end` exactly. */
  function CharacterStrings(packet: seq<Byte>, cursor: nat, end: nat): Option<nat>
    requires cursor <= end <= |packet|
    decreases end - cursor
  {
    if cursor == end then Some(0)
    else if packet[cursor] > end - (cursor + 1) then None
    else
      match CharacterStrings(packet, cursor + 1 + packet[cursor], end)
      case None => None
      case Some(n) => Some(n + 1)
  }

  method CountStrings(packet: seq<Byte>, begin: nat, end: nat) returns (count: Option<nat>)
    requires begin <= end <= |packet|
    ensures count == CharacterStrings(packet, begin, end)
  {
    var cursor, n := begin, 0;
    while cursor < end
      invariant begin <= cursor <= end && n >= 0
      invariant CharacterStrings(packet, begin, end)
             == match CharacterStrings(packet, cursor, end) case None => None case Some(m) => Some(n + m)
    {
      var size := packet[cursor];
      cursor := cursor + 1;
      if size > end - cursor {
        return None;
      }
      cursor := cursor + size;
      n := n + 1;
    }
    count := Some(n);
  }

  /** The octets from `start` to `end` are one name. */
  function SingleNameFault(packet: seq<Byte>, start: nat, end: nat, limits: ParseLimits): Option<ParseError> {
    match NameAt(packet, start, end, limits)
    case Err(e) => Some(e)
    case Ok(decoded) => if decoded.next != end then Some(ParseError(InvalidRdata, decoded.next)) else None
  }

  /** What is wrong with the data of a record of type `rtype`; unknown types and OPT are opaque. */
  function RdataFault(packet: seq<Byte>, rtype: U16, begin: nat, end: nat, limits: ParseLimits): Option<ParseError>
    requires begin <= end <= |packet|
  {
    var invalid := Some(ParseError(InvalidRdata, begin));
    if rtype == TYPE_A then if end - begin != 4 then invalid else None
    else if rtype == TYPE_AAAA then if end - begin != 16 then invalid else None
    else if rtype == TYPE_NS || rtype == TYPE_CNAME || rtype == TYPE_PTR then SingleNameFault(packet, begin, end, limits)
    else if rtype == TYPE_MX then if end - begin < 3 then invalid else SingleNameFault(packet, begin + 2, end, limits)
    else if rtype == TYPE_SOA then
      match NameAt(packet, begin, end, limits)
      case Err(e) => Some(e)
      case Ok(primary) =>
        match NameAt(packet, primary.next, end, limits)
        case Err(e) => Some(e)
        case Ok(mailbox) => if end - mailbox.next != 20 then Some(ParseError(InvalidRdata, mailbox.next)) else None
    else if rtype == TYPE_MINFO then
      match NameAt(packet, begin, end, limits)
      case Err(e) => Some(e)
      case Ok(responsible) => SingleNameFault(packet, responsible.next, end, limits)
    else if rtype == TYPE_HINFO then if CharacterStrings(packet, begin, end) != Some(2) then invalid else None
    else if rtype == TYPE_TXT then if CharacterStrings(packet, begin, end) in {None, Some(0)} then invalid else None
    else None
  }

  method CheckSingleName(packet: seq<Byte>, start: nat, end: nat, limits: ParseLimits) returns (fault: Option<ParseError>)
    ensures fault == SingleNameFault(packet, start, end, limits)
  {
    var decoded := DecodeName(packet, start, end, limits);
    if decoded.Err? {
      return Some(decoded.error);
    }
    fault := if decoded.value.next != end then Some(ParseError(InvalidRdata, decoded.value.next)) else None;
  }

  method CheckRdata(packet: seq<Byte>, rtype: U16, begin: nat, end: nat, limits: ParseLimits) returns (fault: Option<ParseError>)
    requires begin <= end <= |packet|
    ensures fault == RdataFault(packet, rtype, begin, end, limits)
  {
    var invalid := Some(ParseError(InvalidRdata, begin));
    if rtype == TYPE_A {
      fault := if end - begin != 4 then invalid else None;
    } else if rtype == TYPE_AAAA {
      fault := if end - begin != 16 then invalid else None;
    } else if rtype == TYPE_NS || rtype == TYPE_CNAME || rtype == TYPE_PTR {
      fault := CheckSingleName(packet, begin, end, limits);
    } else if rtype == TYPE_MX {
      if end - begin < 3 {
        return invalid;
      }
      fault := CheckSingleName(packet, begin + 2, end, limits);
    } else if rtype == TYPE_SOA {
      var primary := DecodeName(packet, begin, end, limits);
      if primary.Err? {
        return Some(primary.error);
      }
      var mailbox := DecodeName(packet, primary.value.next, end, limits);
      if mailbox.Err? {
        return Some(mailbox.error);
      }
      fault := if end - mailbox.value.next != 20 then Some(ParseError(InvalidRdata, mailbox.value.next)) else None;
    } else if rtype == TYPE_MINFO {
      var responsible := DecodeName(packet, begin, end, limits);
      if responsible.Err? {
        return Some(responsible.error);
      }
      fault := CheckSingleName(packet, responsible.value.next, end, limits);
    } else if rtype == TYPE_HINFO {
      var strings := CountStrings(packet, begin, end);
      fault := if strings != Some(2) then invalid else None;
    } else if rtype == TYPE_TXT {
      var strings := CountStrings(packet, begin, end);
      fault := if strings in {None, Some(0)} then invalid else None;
    } else {
      fault := None;
    }
  }

  /** The fields between a record's name and its data. */
  datatype Fixed = Fixed(rtype: U16, rclass: U16, ttl: U32, length: U16)

  function FixedAt(packet: seq<Byte>, n: nat): (r: Result<Fixed, ParseError>)
    ensures r.Ok? <==> n + 10 <= |packet|
  {
    if n + 2 > |packet| then Err(ParseError(UnexpectedEnd, n))
    else if n + 4 > |packet| then Err(ParseError(UnexpectedEnd, n + 2))
    else if n + 8 > |packet| then Err(ParseError(UnexpectedEnd, n + 4))
    else if n + 10 > |packet| then Err(ParseError(UnexpectedEnd, n + 8))
    else
      Ok(Fixed(ReadU16(packet, n).value, ReadU16(packet, n + 2).value, ReadU32(packet, n + 4).value, ReadU16(packet, n + 8).value))
  }

  method ReadFixed(reader: WireReader) returns (r: Result<Fixed, ParseError>)
    modifies reader
    ensures r == FixedAt(reader.bytes, old(reader.offset))
    ensures r.Ok? ==> reader.offset == old(reader.offset) + 10
  {
    var read, rtype := reader.ReadWord();
    if !read {
      return Err(ParseError(UnexpectedEnd, reader.offset));
    }
    var rclass, ttl, length;
    read, rclass := reader.ReadWord();
    if !read {
      return Err(ParseError(UnexpectedEnd, reader.offset));
    }
    read, ttl := reader.ReadDouble();
    if !read {
      return Err(ParseError(UnexpectedEnd, reader.offset));
    }
    read, length := reader.ReadWord();
    if !read {
      return Err(ParseError(UnexpectedEnd, reader.offset));
    }
    r := Ok(Fixed(rtype, rclass, ttl, length));
  }

  function RecordAt(packet: seq<Byte>, offset: nat, limits: ParseLimits): (r: Result<Parsed<ResourceRecord>, ParseError>)
    ensures r.Ok? ==> offset < r.value.next <= |packet|
  {
    match NameAt(packet, offset, |packet|, limits)
    case Err(e) => Err(e)
    case Ok(decoded) =>
      match FixedAt(packet, decoded.next)
      case Err(e) => Err(e)
      case Ok(fixed) =>
        var begin := decoded.next + 10;
        var end := begin + fixed.length;
        if end > |packet| then Err(ParseError(UnexpectedEnd, begin))
        else
          match RdataFault(packet, fixed.rtype, begin, end, limits)
          case Some(e) => Err(e)
          case None => Ok(Parsed(ResourceRecord(decoded.name, fixed.rtype, fixed.rclass, fixed.ttl, begin, packet[begin..end]), end))
  }

  /** The layout of record data by type, in terms of where stored names end. */
  predicate RdataShaped(packet: seq<Byte>, rtype: U16, begin: nat, end: nat)
    requires begin <= end <= |packet|
  {
    && (rtype == TYPE_A ==> end == begin + 4)
    && (rtype == TYPE_AAAA ==> end == begin + 16)
    && (rtype in {TYPE_NS, TYPE_CNAME, TYPE_PTR} ==> StoredEnd(packet, begin) == end)
    && (rtype == TYPE_MX ==> StoredEnd(packet, begin + 2) == end)
    && (rtype == TYPE_SOA ==> StoredEnd(packet, StoredEnd(packet, begin)) + 20 == end)
    && (rtype == TYPE_MINFO ==> StoredEnd(packet, StoredEnd(packet, begin)) == end)
    && (rtype == TYPE_HINFO ==> CharacterStrings(packet, begin, end) == Some(2))
    && (rtype == TYPE_TXT ==> CharacterStrings(packet, begin, end).Some? && begin < end)
  }

  lemma NameEnds(packet: seq<Byte>, start: nat, end: nat, limits: ParseLimits)
    ensures NameAt(packet, start, end, limits).Ok? ==> NameAt(packet, start, end, limits).value.next == StoredEnd(packet, start)
  {
    var e := Expand(packet, end, limits, start, [], [], start);
    if e.Ok? {
      DecodesExactly(packet, start, end, limits, e.value);
    }
  }

  /** Data without a fault fills its length exactly, as its type demands. */
  lemma RdataFills(packet: seq<Byte>, rtype: U16, begin: nat, end: nat, limits: ParseLimits)
    requires begin <= end <= |packet| && RdataFault(packet, rtype, begin, end, limits).None?
    ensures RdataShaped(packet, rtype, begin, end)
  {
    NameEnds(packet, begin, end, limits);
    if rtype == TYPE_MX {
      NameEnds(packet, begin + 2, end, limits);
    } else if rtype == TYPE_SOA || rtype == TYPE_MINFO {
      NameEnds(packet, StoredEnd(packet, begin), end, limits);
    }
  }

  /** A parsed record keeps its data in the packet, and the data has the layout of its type. */
  predicate ValidRecord(packet: seq<Byte>, r: ResourceRecord) {
    ValidName(r.name) && At(packet, r.rdataOffset, r.rdata) && RdataShaped(packet, r.rtype, r.rdataOffset, r.rdataOffset + |r.rdata|)
  }

  lemma ParsedRecordValid(packet: seq<Byte>, offset: nat, limits: ParseLimits)
    requires RecordAt(packet, offset, limits).Ok?
    ensures ValidRecord(packet, RecordAt(packet, offset, limits).value.item)
  {
    var r := RecordAt(packet, offset, limits).value.item;
    RecordParts(packet, offset, limits, r);
    RdataFills(packet, r.rtype, r.rdataOffset, r.rdataOffset + |r.rdata|, limits);
  }

  lemma RecordParts(packet: seq<Byte>, offset: nat, limits: ParseLimits, r: ResourceRecord)
    requires RecordAt(packet, offset, limits).Ok? && RecordAt(packet, offset, limits).value.item == r
    ensures ValidName(r.name) && At(packet, r.rdataOffset, r.rdata)
    ensures RdataFault(packet, r.rtype, r.rdataOffset, r.rdataOffset + |r.rdata|, limits).None?
  {
    var name := NameAt(packet, offset, |packet|, limits).value;
    var fixed := FixedAt(packet, name.next).value;
    assert r.rdataOffset == name.next + 10 && r.rdata == packet[name.next + 10..name.next + 10 + fixed.length];
  }

  method ParseResourceRecord(packet: seq<Byte>, offset: nat, limits: ParseLimits) returns (r: Result<Parsed<ResourceRecord>, ParseError>)
    ensures r == RecordAt(packet, offset, limits)
  {
    var decoded := DecodeName(packet, offset, |packet|, limits);
    if decoded.Err? {
      return Err(decoded.error);
    }
    var reader := new WireReader(packet, decoded.value.next);
    var fixed := ReadFixed(reader);
    if fixed.Err? {
      return Err(fixed.error);
    }
    var begin := reader.offset;
    var read, rdata := reader.ReadBytes(fixed.value.length);
    if !read {
      return Err(ParseError(UnexpectedEnd, reader.offset));
    }
    var fault := CheckRdata(packet, fixed.value.rtype, begin, reader.offset, limits);
    if fault.Some? {
      return Err(fault.value);
    }
    assert rdata == packet[begin..begin + fixed.value.length];
    r := Ok(Parsed(ResourceRecord(decoded.value.name, fixed.value.rtype, fixed.value.rclass, fixed.value.ttl, begin, rdata), reader.offset));
  }

  // ------------------------------------------------------- sections and messages

  type ItemParser<!T> = nat -> Result<Parsed<T>, ParseError>

  /** `count` more items from `offset`, after the ones in `done`. */
  function SectionFrom<T>(parse: ItemParser<T>, count: nat, offset: nat, done: seq<T>): Result<Parsed<seq<T>>, ParseError>
    decreases count
  {
    if count == 0 then Ok(Parsed(done, offset))
    else
      match parse(offset)
      case Err(e) => Err(e)
      case Ok(parsed) => SectionFrom(parse, count - 1, parsed.next, done + [parsed.item])
  }

  function Questions(packet: seq<Byte>, limits: ParseLimits): ItemParser<Question> {
    (offset: nat) => QuestionAt(packet, offset, limits)
  }

  function Records(packet: seq<Byte>, limits: ParseLimits): ItemParser<ResourceRecord> {
    (offset: nat) => RecordAt(packet, offset, limits)
  }

  method ParseQuestions(packet: seq<Byte>, limits: ParseLimits, count: nat, start: nat)
    returns (r: Result<Parsed<seq<Question>>, ParseError>)
    ensures r == SectionFrom(Questions(packet, limits), count, start, [])
  {
    r := ParseQuestionsWith(Questions(packet, limits), packet, limits, count, start);
  }

  method ParseQuestionsWith(ghost parse: ItemParser<Question>, packet: seq<Byte>, limits: ParseLimits, count: nat, start: nat)
    returns (r: Result<Parsed<seq<Question>>, ParseError>)
    requires forall offset: nat {:trigger QuestionAt(packet, offset, limits)} :: QuestionAt(packet, offset, limits) == parse(offset)
    ensures r == SectionFrom(parse, count, start, [])
  {
    ghost var whole := SectionFrom(parse, count, start, []);
    var done: seq<Question>, offset := [], start;
    for index := 0 to count
      invariant whole == SectionFrom(parse, count - index, offset, done)
    {
      var item := ParseQuestion(packet, offset, limits);
      if item.Err? {
        return Err(item.error);
      }
      done, offset := done + [item.value.item], item.value.next;
    }
    r := Ok(Parsed(done, offset));
  }

  method ParseRecords(packet: seq<Byte>, limits: ParseLimits, count: nat, start: nat)
    returns (r: Result<Parsed<seq<ResourceRecord>>, ParseError>)
    ensures r == SectionFrom(Records(packet, limits), count, start, [])
  {
    r := ParseRecordsWith(Records(packet, limits), packet, limits, count, start);
  }

  method ParseRecordsWith(ghost parse: ItemParser<ResourceRecord>, packet: seq<Byte>, limits: ParseLimits, count: nat, start: nat)
    returns (r: Result<Parsed<seq<ResourceRecord>>, ParseError>)
    requires forall offset: nat {:trigger RecordAt(packet, offset, limits)} :: RecordAt(packet, offset, limits) == parse(offset)
    ensures r == SectionFrom(parse, count, start, [])
  {
    ghost var whole := SectionFrom(parse, count, start, []);
    var done: seq<ResourceRecord>, offset := [], start;
    for index := 0 to count
      invariant whole == SectionFrom(parse, count - index, offset, done)
    {
      var item := ParseResourceRecord(packet, offset, limits);
      if item.Err? {
        return Err(item.error);
      }
      done, offset := done + [item.value.item], item.value.next;
    }
    r := Ok(Parsed(done, offset));
  }

  /** `parse` reads the items one after another, the k-th from marks[k] to marks[k + 1]. */
  ghost predicate Laid<T(!new)>(parse: ItemParser<T>, items: seq<T>, marks: seq<nat>) {
    |marks| == |items| + 1 && forall k :: 0 <= k < |items| ==> parse(marks[k]) == Ok(Parsed(items[k], marks[k + 1]))
  }

  /** A section is read exactly when its items are laid out in the packet one after another. */
  lemma {:induction false} SectionReads<T(!new)>(parse: ItemParser<T>, items: seq<T>, marks: seq<nat>, k: nat)
    requires Laid(parse, items, marks) && k <= |items|
    ensures SectionFrom(parse, |items| - k, marks[k], items[..k]) == Ok(Parsed(items, marks[|items|]))
    decreases |items| - k
  {
    if k == |items| {
      assert items[..k] == items;
    } else {
      SectionReads(parse, items, marks, k + 1);
      assert items[..k + 1] == items[..k] + [items[k]];
    }
  }

  lemma {:induction false} SectionLaid<T(!new)>(parse: ItemParser<T>, count: nat, offset: nat, done: seq<T>)
    returns (items: seq<T>, marks: seq<nat>)
    requires SectionFrom(parse, count, offset, done).Ok?
    ensures Laid(parse, items, marks) && |items| == count && marks[0] == offset
    ensures SectionFrom(parse, count, offset, done).value == Parsed(done + items, marks[count])
    decreases count
  {
    if count == 0 {
      items, marks := [], [offset];
      assert done + [] == done;
    } else {
      var first := parse(offset).value;
      var rest, ends := SectionLaid(parse, count - 1, first.next, done + [first.item]);
      items, marks := [first.item] + rest, [offset] + ends;
      LaidCons(parse, first.item, rest, offset, ends);
      assert done + [first.item] + rest == done + items;
    }
  }

  lemma LaidAt<T(!new)>(parse: ItemParser<T>, items: seq<T>, marks: seq<nat>, k: nat)
    requires Laid(parse, items, marks) && k < |items|
    ensures parse(marks[k]) == Ok(Parsed(items[k], marks[k + 1]))
  {
  }

  lemma LaidCons<T(!new)>(parse: ItemParser<T>, item: T, items: seq<T>, mark: nat, marks: seq<nat>)
    requires Laid(parse, items, marks) && parse(mark) == Ok(Parsed(item, marks[0]))
    ensures Laid(parse, [item] + items, [mark] + marks)
  {
  }

  /** Sections of a packet hold valid items and end inside the packet. */
  lemma QuestionsSound(packet: seq<Byte>, limits: ParseLimits, count: nat, offset: nat)
    requires SectionFrom(Questions(packet, limits), count, offset, []).Ok? && offset <= |packet|
    ensures var p := SectionFrom(Questions(packet, limits), count, offset, []).value;
            && |p.item| == count && offset <= p.next <= |packet|
            && forall k :: 0 <= k < |p.item| ==> ValidQuestion(p.item[k])
  {
    var items, marks := SectionLaid(Questions(packet, limits), count, offset, []);
    assert [] + items == items;
    MarksAscend(Questions(packet, limits), items, marks, |packet|, count);
    forall k | 0 <= k < count ensures ValidQuestion(items[k]) {
      LaidAt(Questions(packet, limits), items, marks, k);
    }
  }

  lemma {:induction false} MarksAscend<T(!new)>(parse: ItemParser<T>, items: seq<T>, marks: seq<nat>, size: nat, k: nat)
    requires Laid(parse, items, marks) && k <= |items| && marks[0] <= size
    requires forall offset: nat :: parse(offset).Ok? ==> offset < parse(offset).value.next <= size
    ensures marks[0] <= marks[k] <= size
  {
    if k > 0 {
      MarksAscend(parse, items, marks, size, k - 1);
      assert parse(marks[k - 1]) == Ok(Parsed(items[k - 1], marks[k]));
    }
  }

  lemma RecordsSound(packet: seq<Byte>, limits: ParseLimits, count: nat, offset: nat)
    requires SectionFrom(Records(packet, limits), count, offset, []).Ok? && offset <= |packet|
    ensures var p := SectionFrom(Records(packet, limits), count, offset, []).value;
            && |p.item| == count && offset <= p.next <= |packet|
            && forall k :: 0 <= k < |p.item| ==> ValidRecord(packet, p.item[k])
  {
    var items, marks := SectionLaid(Records(packet, limits), count, offset, []);
    assert [] + items == items;
    MarksAscend(Records(packet, limits), items, marks, |packet|, count);
    forall k | 0 <= k < count ensures ValidRecord(packet, items[k]) {
      LaidAt(Records(packet, limits), items, marks, k);
      ParsedRecordValid(packet, marks[k], limits);
    }
  }

  /** The four section counts of a header. */
  datatype Counts = Counts(questions: nat, answers: nat, authorities: nat, additionals: nat)

  function CountsOf(packet: seq<Byte>): Counts
    requires |packet| >= HEADER_SIZE
  {
    Counts(ReadU16(packet, 4).value, ReadU16(packet, 6).value, ReadU16(packet, 8).value, ReadU16(packet, 10).value)
  }

  function CountFault(c: Counts, limits: ParseLimits): Option<ParseError> {
    if c.questions > limits.maximumQuestions then Some(ParseError(TooManyQuestions, 4))
    else if c.answers > limits.maximumRecordsPerSection || c.authorities > limits.maximumRecordsPerSection
            || c.additionals > limits.maximumRecordsPerSection
            || c.answers + c.authorities + c.additionals > limits.maximumTotalRecords then Some(ParseError(TooManyRecords, 6))
    else None
  }

  /** The sections after a header whose counts are within the limits. */
  function BodyAt(packet: seq<Byte>, limits: ParseLimits, header: Header, c: Counts): Result<Message, ParseError> {
    match SectionFrom(Questions(packet, limits), c.questions, HEADER_SIZE, [])
    case Err(e) => Err(e)
    case Ok(questions) =>
      match SectionFrom(Records(packet, limits), c.answers, questions.next, [])
      case Err(e) => Err(e)
      case Ok(answers) =>
        match SectionFrom(Records(packet, limits), c.authorities, answers.next, [])
        case Err(e) => Err(e)
        case Ok(authorities) =>
          match SectionFrom(Records(packet, limits), c.additionals, authorities.next, [])
          case Err(e) => Err(e)
          case Ok(additionals) =>
            if limits.rejectTrailingData && additionals.next != |packet| then Err(ParseError(TrailingData, additionals.next))
            else Ok(Message(header, questions.item, answers.item, authorities.item, additionals.item, packet))
  }

  /** What parsing a whole packet yields. */
  function MessageOf(packet: seq<Byte>, limits: ParseLimits): Result<Message, ParseError> {
    if |packet| > limits.maximumPacketSize then Err(ParseError(PacketTooLarge, limits.maximumPacketSize))
    else if |packet| < HEADER_SIZE then Err(ParseError(UnexpectedEnd, (|packet| / 2) * 2))
    else
      var c := CountsOf(packet);
      var fault := CountFault(c, limits);
      if fault.Some? then Err(fault.value)
      else BodyAt(packet, limits, HeaderOf(ReadU16(packet, 0).value, ReadU16(packet, 2).value), c)
  }

  /** Every part of a parsed message is well formed and every section has the length the header announces. */
  lemma ParsedMessageSound(packet: seq<Byte>, limits: ParseLimits)
    requires MessageOf(packet, limits).Ok?
    ensures var m := MessageOf(packet, limits).value;
            && HEADER_SIZE <= |packet| <= limits.maximumPacketSize && m.wireImage == packet
            && Counts(|m.questions|, |m.answers|, |m.authorities|, |m.additionals|) == CountsOf(packet)
            && |m.questions| <= limits.maximumQuestions
            && |m.answers| + |m.authorities| + |m.additionals| <= limits.maximumTotalRecords
            && (forall k :: 0 <= k < |m.questions| ==> ValidQuestion(m.questions[k]))
            && (forall k :: 0 <= k < |m.answers| ==> ValidRecord(packet, m.answers[k]))
            && (forall k :: 0 <= k < |m.authorities| ==> ValidRecord(packet, m.authorities[k]))
            && (forall k :: 0 <= k < |m.additionals| ==> ValidRecord(packet, m.additionals[k]))
            && m.header.id == ReadU16(packet, 0).value && m.header.opcode <= 15 && m.header.responseCode <= 15
  {
    var c := CountsOf(packet);
    QuestionsSound(packet, limits, c.questions, HEADER_SIZE);
    var at := SectionFrom(Questions(packet, limits), c.questions, HEADER_SIZE, []).value.next;
    RecordsSound(packet, limits, c.answers, at);
    at := SectionFrom(Records(packet, limits), c.answers, at, []).value.next;
    RecordsSound(packet, limits, c.authorities, at);
    at := SectionFrom(Records(packet, limits), c.authorities, at, []).value.next;
    RecordsSound(packet, limits, c.additionals, at);
    HeaderFields(ReadU16(packet, 0).value, ReadU16(packet, 2).value);
  }

  /** A failed read of one of the six header words reports how much was consumed. */
  method ReadHeader(packet: seq<Byte>) returns (ok: bool, consumed: nat, words: seq<U16>)
    ensures ok <==> |packet| >= HEADER_SIZE
    ensures ok ==> consumed == HEADER_SIZE && |words| == 6 && forall k :: 0 <= k < 6 ==> Some(words[k]) == ReadU16(packet, 2 * k)
    ensures !ok ==> consumed == (|packet| / 2) * 2
  {
    var reader := new WireReader(packet, 0);
    words := [];
    for i := 0 to 6
      invariant reader.bytes == packet && reader.offset == 2 * i <= |packet| && |words| == i
      invariant forall k :: 0 <= k < i ==> Some(words[k]) == ReadU16(packet, 2 * k)
    {
      var read, word := reader.ReadWord();
      if !read {
        return false, reader.offset, [];
      }
      words := words + [word];
    }
    ok, consumed := true, reader.offset;
  }

  method ParseMessage(packet: seq<Byte>, limits: ParseLimits) returns (r: Result<Message, ParseError>)
    ensures r == MessageOf(packet, limits)
  {
    if |packet| > limits.maximumPacketSize {
      return Err(ParseError(PacketTooLarge, limits.maximumPacketSize));
    }
    var ok, offset, words := ReadHeader(packet);
    if !ok {
      return Err(ParseError(UnexpectedEnd, offset));
    }
    var c := Counts(words[2], words[3], words[4], words[5]);
    var fault := CountFault(c, limits);
    if fault.Some? {
      return Err(fault.value);
    }
    var header := HeaderOf(words[0], words[1]);
    assert c == CountsOf(packet);
    r := ParseBody(packet, limits, header, c);
  }

  method ParseBody(packet: seq<Byte>, limits: ParseLimits, header: Header, c: Counts) returns (r: Result<Message, ParseError>)
    ensures r == BodyAt(packet, limits, header, c)
  {
    var questions := ParseQuestions(packet, limits, c.questions, HEADER_SIZE);
    if questions.Err? {
      return Err(questions.error);
    }
    var answers := ParseRecords(packet, limits, c.answers, questions.value.next);
    if answers.Err? {
      return Err(answers.error);
    }
    var authorities := ParseRecords(packet, limits, c.authorities, answers.value.next);
    if authorities.Err? {
      return Err(authorities.error);
    }
    var additionals := ParseRecords(packet, limits, c.additionals, authorities.value.next);
    if additionals.Err? {
      return Err(additionals.error);
    }
    if limits.rejectTrailingData && additionals.value.next != |packet| {
      return Err(ParseError(TrailingData, additionals.value.next));
    }
    r := Ok(Message(header, questions.value.item, answers.value.item, authorities.value.item, additionals.value.item, packet));
  }
}
