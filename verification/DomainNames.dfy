/** Domain names: labels of raw octets, their presentation text (section 5.1 of
    RFC 1035), size limits (section 2.3.4 of RFC 1035) and the case-insensitive
    canonical key (section 3 of RFC 4343). */
module DomainNames {
  import opened Basics

  const MAX_LABEL_SIZE: nat := 63
  const MAX_WIRE_SIZE: nat := 255

  const DOT: Byte := 46
  const BACKSLASH: Byte := 92
  const ZERO_DIGIT: Byte := 48
  const NINE_DIGIT: Byte := 57

  type Label = seq<Byte>

  datatype ErrorCode = EmptyLabel | InvalidEscape | LabelTooLong | NameTooLong
  datatype NameError = NameError(code: ErrorCode, labelIndex: nat)

  /** As stored: the labels, the size on the wire, the canonical key. */
  datatype DomainName = DomainName(labels: seq<Label>, wireSize: nat, canonicalKey: seq<Byte>)

  const ROOT := DomainName([], 1, [0])

  // ------------------------------------------------------------ definitions

  function AsciiLower(b: Byte): Byte {
    if 65 <= b <= 90 then b + 32 else b
  }

  predicate IsDigit(b: Byte) {
    ZERO_DIGIT <= b <= NINE_DIGIT
  }

  function Lower(octets: seq<Byte>): (r: seq<Byte>)
    ensures |r| == |octets|
  {
    seq(|octets|, i requires 0 <= i < |octets| => AsciiLower(octets[i]))
  }

  function LowerAll(labels: seq<Label>): (r: seq<Label>)
    ensures |r| == |labels|
  {
    seq(|labels|, i requires 0 <= i < |labels| => Lower(labels[i]))
  }

  predicate ValidLabel(octets: Label) {
    1 <= |octets| <= MAX_LABEL_SIZE
  }

  /** Octets of the labels with their length prefixes. */
  function LabelOctets(labels: seq<Label>): nat {
    if labels == [] then 0 else |labels[0]| + 1 + LabelOctets(labels[1..])
  }

  predicate ValidLabels(labels: seq<Label>) {
    && (forall k :: 0 <= k < |labels| ==> ValidLabel(labels[k]))
    && LabelOctets(labels) + 1 <= MAX_WIRE_SIZE
  }

  /** The key of valid labels: lower-cased wire form. */
  function KeyPrefix(labels: seq<Label>): seq<Byte>
    requires forall k :: 0 <= k < |labels| ==> ValidLabel(labels[k])
  {
    if labels == [] then []
    else
      assert ValidLabel(labels[0]);
      [|labels[0]| as Byte] + Lower(labels[0]) + KeyPrefix(labels[1..])
  }

  function Key(labels: seq<Label>): seq<Byte>
    requires forall k :: 0 <= k < |labels| ==> ValidLabel(labels[k])
  {
    KeyPrefix(labels) + [0]
  }

  function NameOf(labels: seq<Label>): DomainName
    requires ValidLabels(labels)
  {
    DomainName(labels, LabelOctets(labels) + 1, Key(labels))
  }

  predicate ValidName(n: DomainName) {
    ValidLabels(n.labels) && n == NameOf(n.labels)
  }

  /** The first label that breaks a limit, left to right. */
  function LabelFault(labels: seq<Label>, k: nat, wireSize: nat): Option<NameError>
    requires k <= |labels|
    decreases |labels| - k
  {
    if k == |labels| then None
    else if labels[k] == [] then Some(NameError(EmptyLabel, k))
    else if |labels[k]| > MAX_LABEL_SIZE then Some(NameError(LabelTooLong, k))
    else if wireSize > MAX_WIRE_SIZE - (|labels[k]| + 1) then Some(NameError(NameTooLong, k))
    else LabelFault(labels, k + 1, wireSize + |labels[k]| + 1)
  }

  // ------------------------------------------------------------ construction

  lemma {:induction false} FaultExact(labels: seq<Label>, k: nat, wireSize: nat)
    requires k <= |labels| && wireSize <= MAX_WIRE_SIZE
    ensures LabelFault(labels, k, wireSize).None? <==>
              (forall i :: k <= i < |labels| ==> ValidLabel(labels[i]))
              && LabelOctets(labels[k..]) + wireSize <= MAX_WIRE_SIZE
    decreases |labels| - k
  {
    if k < |labels| {
      assert labels[k..][1..] == labels[k + 1..];
      if ValidLabel(labels[k]) && wireSize <= MAX_WIRE_SIZE - (|labels[k]| + 1) {
        FaultExact(labels, k + 1, wireSize + |labels[k]| + 1);
      }
    }
  }

  lemma {:induction false} OctetsSplit(labels: seq<Label>, k: nat)
    requires k <= |labels|
    ensures LabelOctets(labels) == LabelOctets(labels[..k]) + LabelOctets(labels[k..])
  {
    if k == 0 {
      assert labels[0..] == labels;
    } else {
      OctetsSplit(labels[1..], k - 1);
      assert labels[..k][1..] == labels[1..][..k - 1];
      assert labels[1..][k - 1..] == labels[k..];
    }
  }

  lemma {:induction false} KeySplit(labels: seq<Label>, k: nat)
    requires k <= |labels| && forall i :: 0 <= i < |labels| ==> ValidLabel(labels[i])
    ensures KeyPrefix(labels) == KeyPrefix(labels[..k]) + KeyPrefix(labels[k..])
  {
    if k == 0 {
      assert labels[0..] == labels;
    } else {
      KeySplit(labels[1..], k - 1);
      assert labels[..k][1..] == labels[1..][..k - 1];
      assert labels[1..][k - 1..] == labels[k..];
      Regroup([|labels[0]| as Byte] + Lower(labels[0]), KeyPrefix(labels[..k][1..]), KeyPrefix(labels[k..]));
    }
  }

  lemma {:induction false} KeyLength(labels: seq<Label>)
    requires forall i :: 0 <= i < |labels| ==> ValidLabel(labels[i])
    ensures |KeyPrefix(labels)| == LabelOctets(labels)
  {
    if labels != [] {
      KeyLength(labels[1..]);
    }
  }

  /** A name is built exactly from labels within the limits; otherwise the first
      offending label is reported. */
  method FromLabels(labels: seq<Label>) returns (r: Result<DomainName, NameError>)
    ensures r.Ok? <==> ValidLabels(labels)
    ensures r.Ok? ==> r.value == NameOf(labels) && ValidName(r.value)
    ensures r.Err? ==> Some(r.error) == LabelFault(labels, 0, 1)
  {
    var wireSize := 1;
    FaultExact(labels, 0, 1);
    assert labels[0..] == labels;
    for k := 0 to |labels|
      invariant wireSize == LabelOctets(labels[..k]) + 1 <= MAX_WIRE_SIZE
      invariant LabelFault(labels, 0, 1) == LabelFault(labels, k, wireSize)
    {
      if labels[k] == [] {
        return Err(NameError(EmptyLabel, k));
      }
      if |labels[k]| > MAX_LABEL_SIZE {
        return Err(NameError(LabelTooLong, k));
      }
      if wireSize > MAX_WIRE_SIZE - (|labels[k]| + 1) {
        return Err(NameError(NameTooLong, k));
      }
      wireSize := wireSize + |labels[k]| + 1;
      OctetsSplit(labels[..k + 1], k);
      assert labels[..k + 1][..k] == labels[..k];
    }
    assert labels[..|labels|] == labels;
    var key := BuildKey(labels);
    r := Ok(DomainName(labels, wireSize, key));
  }

  method BuildKey(labels: seq<Label>) returns (key: seq<Byte>)
    requires ValidLabels(labels)
    ensures key == Key(labels)
  {
    key := [];
    for k := 0 to |labels|
      invariant key == KeyPrefix(labels[..k])
    {
      KeySplit(labels[..k + 1], k);
      assert labels[..k + 1][..k] == labels[..k] && labels[..k + 1][k..] == [labels[k]];
      ghost var before := key;
      key := key + [|labels[k]| as Byte];
      for i := 0 to |labels[k]|
        invariant key == before + [|labels[k]| as Byte] + Lower(labels[k])[..i]
      {
        key := key + [AsciiLower(labels[k][i])];
      }
    }
    assert labels[..|labels|] == labels;
    key := key + [0];
  }

  // ----------------------------------------------------------- canonical keys

  /** Keys are equal exactly when the labels are equal ignoring ASCII case. */
  lemma {:induction false} KeysIdentify(a: seq<Label>, b: seq<Label>)
    requires forall i :: 0 <= i < |a| ==> ValidLabel(a[i])
    requires forall i :: 0 <= i < |b| ==> ValidLabel(b[i])
    ensures Key(a) == Key(b) <==> LowerAll(a) == LowerAll(b)
  {
    if a == [] || b == [] {
      if a != [] {
        assert Key(a)[0] != 0;
      }
      if b != [] {
        assert Key(b)[0] != 0;
      }
    } else {
      KeysIdentify(a[1..], b[1..]);
      assert Key(a) == [|a[0]| as Byte] + Lower(a[0]) + Key(a[1..]);
      assert Key(b) == [|b[0]| as Byte] + Lower(b[0]) + Key(b[1..]);
      LowerAllCons(a);
      LowerAllCons(b);
      if LowerAll(a) == LowerAll(b) {
        assert LowerAll(a)[0] == LowerAll(b)[0];
        assert LowerAll(a[1..]) == LowerAll(a)[1..] == LowerAll(b)[1..] == LowerAll(b[1..]);
      }
      if Key(a) == Key(b) {
        var n := |a[0]|;
        assert Key(a)[0] == Key(b)[0];
        assert Key(a)[1..n + 1] == Lower(a[0]) && Key(b)[1..n + 1] == Lower(b[0]);
        assert Key(a)[n + 1..] == Key(a[1..]) && Key(b)[n + 1..] == Key(b[1..]);
      }
    }
  }

  lemma LowerAllCons(a: seq<Label>)
    requires a != []
    ensures LowerAll(a) == [Lower(a[0])] + LowerAll(a[1..])
  {
  }

  /** The stored key, cut after the first k labels, is the key of the rest. */
  method CanonicalSuffixKey(n: DomainName, first: nat) returns (key: seq<Byte>)
    requires ValidName(n)
    ensures key == if first < |n.labels| then Key(n.labels[first..]) else []
  {
    if first >= |n.labels| {
      return [];
    }
    var offset := Offset(n, first);
    KeySplit(n.labels, first);
    KeyLength(n.labels[..first]);
    assert n.canonicalKey == KeyPrefix(n.labels[..first]) + Key(n.labels[first..]);
    key := n.canonicalKey[offset..];
  }

  method Offset(n: DomainName, count: nat) returns (offset: nat)
    requires ValidName(n) && count <= |n.labels|
    ensures offset == LabelOctets(n.labels[..count]) <= LabelOctets(n.labels) < |n.canonicalKey|
  {
    offset := 0;
    for k := 0 to count
      invariant offset == LabelOctets(n.labels[..k])
    {
      offset := offset + |n.labels[k]| + 1;
      OctetsSplit(n.labels[..k + 1], k);
      assert n.labels[..k + 1][..k] == n.labels[..k];
    }
    OctetsSplit(n.labels, count);
    KeyLength(n.labels);
  }

  method CanonicalLabel(n: DomainName, index: nat) returns (octets: seq<Byte>)
    requires ValidName(n)
    ensures octets == if index < |n.labels| then Lower(n.labels[index]) else []
  {
    if index >= |n.labels| {
      return [];
    }
    var offset := Offset(n, index);
    KeyParts(n.labels, index);
    KeyLength(n.labels[..index]);
    var size := |n.labels[index]|;
    MiddlePart(KeyPrefix(n.labels[..index]) + [size as Byte], Lower(n.labels[index]), Key(n.labels[index + 1..]));
    octets := n.canonicalKey[offset + 1..offset + 1 + size];
  }

  /** A label in the key: its length and its lower-cased octets stand between the labels before it and those after it. */
  lemma KeyParts(labels: seq<Label>, k: nat)
    requires k < |labels| && forall i :: 0 <= i < |labels| ==> ValidLabel(labels[i])
    ensures Key(labels) == KeyPrefix(labels[..k]) + [|labels[k]| as Byte] + Lower(labels[k]) + Key(labels[k + 1..])
  {
    var before, size, octets, after := KeyPrefix(labels[..k]), [|labels[k]| as Byte], Lower(labels[k]), KeyPrefix(labels[k + 1..]);
    KeySplit(labels, k);
    assert labels[k..][0] == labels[k] && labels[k..][1..] == labels[k + 1..];
    assert KeyPrefix(labels[k..]) == size + octets + after;
    assert Key(labels) == before + (size + octets + after) + [0];
  }

  // --------------------------------------------------------------- hierarchy

  /** n lies at or below p: its last labels are p's, ignoring case. */
  predicate IsUnder(labels: seq<Label>, parent: seq<Label>) {
    |parent| <= |labels| && LowerAll(labels[|labels| - |parent|..]) == LowerAll(parent)
  }

  method IsSubdomainOf(n: DomainName, parent: DomainName) returns (r: bool)
    ensures r == IsUnder(n.labels, parent.labels)
  {
    if |parent.labels| > |n.labels| {
      return false;
    }
    var offset := |n.labels| - |parent.labels|;
    ghost var tail := n.labels[offset..];
    for k := 0 to |parent.labels|
      invariant forall i :: 0 <= i < k ==> LowerAll(tail)[i] == LowerAll(parent.labels)[i]
    {
      var equal := LabelsEqual(n.labels[offset + k], parent.labels[k]);
      if !equal {
        assert LowerAll(tail)[k] != LowerAll(parent.labels)[k];
        return false;
      }
    }
    r := true;
  }

  method LabelsEqual(a: Label, b: Label) returns (r: bool)
    ensures r <==> Lower(a) == Lower(b)
  {
    if |a| != |b| {
      return false;
    }
    for i := 0 to |a|
      invariant forall j :: 0 <= j < i ==> Lower(a)[j] == Lower(b)[j]
    {
      if AsciiLower(a[i]) != AsciiLower(b[i]) {
        assert Lower(a)[i] != Lower(b)[i];
        return false;
      }
    }
    r := true;
  }

  /** Being under a parent is having, at some depth, a suffix with its key. */
  lemma SuffixKeyFinds(labels: seq<Label>, parent: seq<Label>)
    requires forall i :: 0 <= i < |labels| ==> ValidLabel(labels[i])
    requires forall i :: 0 <= i < |parent| ==> ValidLabel(parent[i])
    ensures IsUnder(labels, parent) <==>
              exists k :: 0 <= k <= |labels| && Key(labels[k..]) == Key(parent)
  {
    if IsUnder(labels, parent) {
      KeysIdentify(labels[|labels| - |parent|..], parent);
    }
    forall k | 0 <= k <= |labels| && Key(labels[k..]) == Key(parent) ensures IsUnder(labels, parent) {
      KeysIdentify(labels[k..], parent);
      assert |LowerAll(labels[k..])| == |LowerAll(parent)|;
    }
  }

  // --------------------------------------------------------- presentation text

  function Digit(d: nat): Byte
    requires d < 10
  {
    ZERO_DIGIT + d
  }

  function DigitValue(b: Byte): nat
    requires IsDigit(b)
  {
    b - ZERO_DIGIT
  }

  /** How one octet of a label is written. */
  function Escape(b: Byte): seq<Byte> {
    if b == DOT || b == BACKSLASH then [BACKSLASH, b]
    else if 0x21 <= b <= 0x7e then [b]
    else [BACKSLASH, Digit(b / 100), Digit((b / 10) % 10), Digit(b % 10)]
  }

  function LabelText(octets: seq<Byte>): seq<Byte> {
    if octets == [] then [] else Escape(octets[0]) + LabelText(octets[1..])
  }

  /** Labels separated by dots; the separator precedes all but the first. */
  function LabelsText(labels: seq<Label>): seq<Byte> {
    if labels == [] then []
    else if |labels| == 1 then LabelText(labels[0])
    else LabelText(labels[0]) + [DOT] + LabelsText(labels[1..])
  }

  function ToText(labels: seq<Label>): seq<Byte> {
    if labels == [] then [DOT] else LabelsText(labels)
  }

  /** The scanner: the rest of the text, the finished labels, the open label.
      The result still has to pass the size limits. */
  function Scan(text: seq<Byte>, labels: seq<Label>, current: Label): Result<seq<Label>, NameError>
    decreases |text|
  {
    if text == [] then
      if current != [] then Ok(labels + [current])
      else if labels == [] then Err(NameError(EmptyLabel, 0))
      else Ok(labels)
    else if text[0] == DOT then
      if current == [] then Err(NameError(EmptyLabel, |labels|))
      else if |text| == 1 then Ok(labels + [current])
      else Scan(text[1..], labels + [current], [])
    else if text[0] != BACKSLASH then Scan(text[1..], labels, current + [text[0]])
    else if |text| == 1 then Err(NameError(InvalidEscape, |labels|))
    else if |text| >= 4 && IsDigit(text[1]) && IsDigit(text[2]) && IsDigit(text[3]) then
      var b := DigitValue(text[1]) * 100 + DigitValue(text[2]) * 10 + DigitValue(text[3]);
      if b > 255 then Err(NameError(InvalidEscape, |labels|))
      else Scan(text[4..], labels, current + [b])
    else Scan(text[2..], labels, current + [text[1]])
  }

  /** What a text denotes. */
  function Parse(text: seq<Byte>): Result<DomainName, NameError> {
    if text == [] || text == [DOT] then Ok(ROOT)
    else
      var scanned := Scan(text, [], []);
      if scanned.Err? then Err(scanned.error)
      else
        var fault := LabelFault(scanned.value, 0, 1);
        if fault.Some? then Err(fault.value)
        else
          FaultExact(scanned.value, 0, 1);
          assert scanned.value[0..] == scanned.value;
          Ok(NameOf(scanned.value))
  }

  lemma ParsedIsValid(text: seq<Byte>)
    requires Parse(text).Ok?
    ensures ValidName(Parse(text).value)
  {
    if text == [] || text == [DOT] {
      assert Key([]) == [0];
    } else {
      var labels := Scan(text, [], []).value;
      FaultExact(labels, 0, 1);
      assert labels[0..] == labels;
    }
  }

  method FromText(text: seq<Byte>) returns (r: Result<DomainName, NameError>)
    ensures r == Parse(text)
    ensures r.Ok? ==> ValidName(r.value)
  {
    if text == [] || text == [DOT] {
      return Ok(ROOT);
    }
    var labels: seq<Label> := [];
    var current: Label := [];
    var index := 0;
    assert text[0..] == text;
    while index < |text|
      invariant 0 <= index <= |text|
      invariant Scan(text, [], []) == Scan(text[index..], labels, current)
    {
      ghost var rest := text[index..];
      assert rest[1..] == text[index + 1..];
      var value := text[index];
      if value == DOT {
        if current == [] {
          return Err(NameError(EmptyLabel, |labels|));
        }
        labels := labels + [current];
        current := [];
        if index + 1 == |text| {
          r := Finish(text, labels);
          return;
        }
        index := index + 1;
      } else if value != BACKSLASH {
        current := current + [value];
        index := index + 1;
      } else {
        if index + 1 >= |text| {
          return Err(NameError(InvalidEscape, |labels|));
        }
        var remaining := |text| - (index + 1);
        if remaining >= 3 && IsDigit(text[index + 1]) && IsDigit(text[index + 2]) && IsDigit(text[index + 3]) {
          assert rest[4..] == text[index + 4..];
          var b := DigitValue(text[index + 1]) * 100 + DigitValue(text[index + 2]) * 10 + DigitValue(text[index + 3]);
          if b > 255 {
            return Err(NameError(InvalidEscape, |labels|));
          }
          current := current + [b];
          index := index + 4;
        } else {
          assert rest[2..] == text[index + 2..];
          current := current + [text[index + 1]];
          index := index + 2;
        }
      }
    }
    if current == [] {
      if labels == [] {
        return Err(NameError(EmptyLabel, 0));
      }
    } else {
      labels := labels + [current];
    }
    r := Finish(text, labels);
  }

  method Finish(ghost text: seq<Byte>, labels: seq<Label>) returns (r: Result<DomainName, NameError>)
    requires text != [] && text != [DOT] && Scan(text, [], []) == Ok(labels)
    ensures r == Parse(text)
    ensures r.Ok? ==> ValidName(r.value)
  {
    r := FromLabels(labels);
    FaultExact(labels, 0, 1);
    assert labels[0..] == labels;
  }

  method ToString(n: DomainName) returns (text: seq<Byte>)
    ensures text == ToText(n.labels)
  {
    if n.labels == [] {
      return [DOT];
    }
    text := [];
    assert n.labels[0..] == n.labels;
    for k := 0 to |n.labels|
      invariant text + RestText(n.labels, k) == LabelsText(n.labels)
    {
      RestTextStep(n.labels, k);
      Regroup(text, Separator(k) + LabelText(n.labels[k]), RestText(n.labels, k + 1));
      Regroup(text, Separator(k), LabelText(n.labels[k]));
      if k != 0 {
        text := text + [DOT];
      }
      var written := WriteLabel(n.labels[k]);
      text := text + written;
    }
  }

  function Separator(k: nat): seq<Byte> {
    if k == 0 then [] else [DOT]
  }

  /** What is still to be written once the labels before `k` are. */
  function RestText(labels: seq<Label>, k: nat): seq<Byte>
    requires k <= |labels|
  {
    if k == |labels| then [] else Separator(k) + LabelsText(labels[k..])
  }

  lemma RestTextStep(labels: seq<Label>, k: nat)
    requires k < |labels|
    ensures RestText(labels, k) == Separator(k) + LabelText(labels[k]) + RestText(labels, k + 1)
  {
    assert labels[k..][1..] == labels[k + 1..];
  }

  method WriteLabel(octets: seq<Byte>) returns (text: seq<Byte>)
    ensures text == LabelText(octets)
  {
    text := [];
    for k := 0 to |octets|
      invariant text + LabelText(octets[k..]) == LabelText(octets)
    {
      assert octets[k..][1..] == octets[k + 1..];
      text := text + Escape(octets[k]);
    }
  }

  // ------------------------------------------------------ the grammar of texts

  /** Three decimal digits follow the backslash. */
  predicate DigitsFollow(text: seq<Byte>) {
    |text| >= 4 && forall k :: 1 <= k <= 3 ==> '0' as int <= text[k] <= '9' as int
  }

  /** The text begins with a spelling of the octet: the octet itself, a
      backslash and its three digits, or a backslash and the octet. */
  predicate SpellsOctet(text: seq<Byte>, b: Byte, rest: seq<Byte>) {
    || (text == [b] + rest && b != '.' as int && b != '\\' as int)
    || (|text| >= 2 && text[0] == '\\' as int &&
        if DigitsFollow(text) then
          rest == text[4..] && b as int == 100 * (text[1] as int - 48) + 10 * (text[2] as int - 48) + (text[3] as int - 48)
        else
          text[1] == b && rest == text[2..])
  }

  ghost predicate SpellsLabel(text: seq<Byte>, octets: Label, rest: seq<Byte>)
    decreases |octets|
  {
    if octets == [] then text == rest
    else exists after :: SpellsOctet(text, octets[0], after) && SpellsLabel(after, octets[1..], rest)
  }

  /** Labels that are not empty, with a dot between any two and perhaps one at the end. */
  ghost predicate SpellsLabels(text: seq<Byte>, labels: seq<Label>)
    decreases |labels|
  {
    && labels != [] && labels[0] != []
    && exists rest :: SpellsLabel(text, labels[0], rest) && SpellsRest(rest, labels)
  }

  ghost predicate SpellsRest(rest: seq<Byte>, labels: seq<Label>)
    requires labels != []
    decreases |labels|, 0
  {
    if |labels| == 1 then rest == [] || rest == ['.' as int]
    else rest != [] && rest[0] == '.' as int && SpellsLabels(rest[1..], labels[1..])
  }

  lemma ScanOctet(text: seq<Byte>, b: Byte, rest: seq<Byte>, done: seq<Label>, current: Label)
    requires SpellsOctet(text, b, rest)
    ensures Scan(text, done, current) == Scan(rest, done, current + [b]) && |rest| < |text|
  {
    if text[0] != BACKSLASH {
      assert text[1..] == rest;
    }
  }

  /** Scanning a spelled label collects exactly its octets. */
  lemma {:induction false} ScanLabel(text: seq<Byte>, octets: Label, rest: seq<Byte>, done: seq<Label>, current: Label)
    requires SpellsLabel(text, octets, rest)
    ensures Scan(text, done, current) == Scan(rest, done, current + octets)
    decreases |octets|
  {
    if octets == [] {
      assert current + octets == current;
    } else {
      var after :| SpellsOctet(text, octets[0], after) && SpellsLabel(after, octets[1..], rest);
      ScanOctet(text, octets[0], after, done, current);
      ScanLabel(after, octets[1..], rest, done, current + [octets[0]]);
      assert current + [octets[0]] + octets[1..] == current + octets;
    }
  }

  lemma SpelledNotEmpty(text: seq<Byte>, labels: seq<Label>)
    requires SpellsLabels(text, labels)
    ensures text != [] && text[0] != DOT
  {
    var rest :| SpellsLabel(text, labels[0], rest) && SpellsRest(rest, labels);
    var after :| SpellsOctet(text, labels[0][0], after) && SpellsLabel(after, labels[0][1..], rest);
  }

  lemma ScanDot(rest: seq<Byte>, done: seq<Label>, current: Label)
    requires |rest| >= 2 && rest[0] == DOT && current != []
    ensures Scan(rest, done, current) == Scan(rest[1..], done + [current], [])
  {
  }

  /** The scanner accepts every spelling. */
  lemma {:induction false} ScanComplete(text: seq<Byte>, labels: seq<Label>, done: seq<Label>)
    requires SpellsLabels(text, labels)
    ensures Scan(text, done, []) == Ok(done + labels)
    decreases |labels|
  {
    var first := labels[0];
    var rest :| SpellsLabel(text, first, rest) && SpellsRest(rest, labels);
    ScanLabel(text, first, rest, done, []);
    assert [] + first == first;
    if |labels| == 1 {
      assert labels == [first];
    } else {
      SpelledNotEmpty(rest[1..], labels[1..]);
      ScanDot(rest, done, first);
      ScanComplete(rest[1..], labels[1..], done + [first]);
      assert done + [first] + labels[1..] == done + labels;
    }
  }

  /** What an accepted step reads is a spelling of an octet. */
  lemma ScanStep(text: seq<Byte>, done: seq<Label>, current: Label) returns (b: Byte, rest: seq<Byte>)
    requires text != [] && text[0] != DOT && Scan(text, done, current).Ok?
    ensures SpellsOctet(text, b, rest)
  {
    if text[0] != BACKSLASH {
      b, rest := text[0], text[1..];
      assert text == [b] + rest;
    } else if DigitsFollow(text) {
      assert IsDigit(text[1]) && IsDigit(text[2]) && IsDigit(text[3]);
      b, rest := DigitValue(text[1]) * 100 + DigitValue(text[2]) * 10 + DigitValue(text[3]), text[4..];
    } else {
      b, rest := text[1], text[2..];
    }
  }

  /** What the scanner accepts is a spelling: the open label goes on to some dot or to the end. */
  lemma {:induction false} ScanSound(text: seq<Byte>, done: seq<Label>, current: Label)
    returns (octets: Label, rest: seq<Byte>, labels: seq<Label>)
    requires Scan(text, done, current).Ok? && (text != [] || current != [])
    ensures SpellsLabel(text, octets, rest) && current + octets != []
    ensures |labels| >= 1 && labels[0] == current + octets && SpellsRest(rest, labels)
    ensures Scan(text, done, current) == Ok(done + labels)
    decreases |text|
  {
    if text == [] || text == [DOT] {
      octets, rest, labels := [], text, [current];
      assert current + octets == current;
    } else if text[0] == DOT {
      var next, after, more := ScanSound(text[1..], done + [current], []);
      octets, rest, labels := [], text, [current] + more;
      assert current + octets == current && [] + next == next && labels[1..] == more;
      assert done + [current] + more == done + labels;
      assert SpellsLabels(text[1..], more);
    } else {
      var b, after := ScanStep(text, done, current);
      ScanOctet(text, b, after, done, current);
      var next;
      next, rest, labels := ScanSound(after, done, current + [b]);
      octets := [b] + next;
      assert octets[1..] == next && current + octets == current + [b] + next;
    }
  }

  /** A text other than the root's denotes a name exactly when it spells the
      name's labels and they are within the limits. */
  lemma ParsesExactly(text: seq<Byte>, labels: seq<Label>)
    requires text != [] && text != [DOT]
    ensures Parse(text).Ok? && Parse(text).value.labels == labels <==> SpellsLabels(text, labels) && ValidLabels(labels)
  {
    if SpellsLabels(text, labels) {
      ScanComplete(text, labels, []);
      assert [] + labels == labels;
      FaultExact(labels, 0, 1);
      assert labels[0..] == labels;
    }
    if Parse(text).Ok? {
      ParsedIsValid(text);
      var octets, rest, all := ScanSound(text, [], []);
      assert [] + octets == octets && [] + all == all;
    }
  }

  // -------------------------------------------------------------- round trips

  lemma EscapeSpells(b: Byte, rest: seq<Byte>)
    ensures SpellsOctet(Escape(b) + rest, b, rest)
  {
    var text := Escape(b) + rest;
    assert text[|Escape(b)|..] == rest;
    if b == DOT || b == BACKSLASH {
      assert text[1] == b;
    } else if !(0x21 <= b <= 0x7e) {
      DecimalDigits(b);
      assert text[1] == Digit(b / 100) && text[2] == Digit((b / 10) % 10) && text[3] == Digit(b % 10);
    }
  }

  lemma DecimalDigits(b: Byte)
    ensures b / 100 < 10 && (b / 100) * 100 + ((b / 10) % 10) * 10 + b % 10 == b
  {
  }

  lemma {:induction false} LabelTextSpells(octets: Label, rest: seq<Byte>)
    ensures SpellsLabel(LabelText(octets) + rest, octets, rest)
  {
    if octets == [] {
      assert LabelText(octets) + rest == rest;
    } else {
      var after := LabelText(octets[1..]) + rest;
      assert LabelText(octets) + rest == Escape(octets[0]) + after;
      EscapeSpells(octets[0], after);
      LabelTextSpells(octets[1..], rest);
    }
  }

  lemma {:induction false} LabelsTextSpells(labels: seq<Label>, end: seq<Byte>)
    requires labels != [] && (forall k :: 0 <= k < |labels| ==> labels[k] != []) && (end == [] || end == [DOT])
    ensures SpellsLabels(LabelsText(labels) + end, labels)
  {
    if |labels| == 1 {
      LabelTextSpells(labels[0], end);
    } else {
      var rest := [DOT] + (LabelsText(labels[1..]) + end);
      assert LabelsText(labels) + end == LabelText(labels[0]) + rest && rest[1..] == LabelsText(labels[1..]) + end;
      LabelTextSpells(labels[0], rest);
      LabelsTextSpells(labels[1..], end);
    }
  }

  /** Printing and reading back is the identity, for every name and octet, and
      a dot at the end makes no difference. */
  lemma TextRoundTrip(n: DomainName)
    requires ValidName(n)
    ensures Parse(ToText(n.labels)) == Ok(n)
    ensures n.labels != [] ==> Parse(ToText(n.labels) + [DOT]) == Ok(n)
  {
    if n.labels == [] {
      assert Key([]) == [0];
    } else {
      EndReads(n, []);
      EndReads(n, [DOT]);
      assert LabelsText(n.labels) + [] == LabelsText(n.labels);
    }
  }

  lemma EndReads(n: DomainName, end: seq<Byte>)
    requires ValidName(n) && n.labels != [] && (end == [] || end == [DOT])
    ensures Parse(LabelsText(n.labels) + end) == Ok(n)
  {
    var text := LabelsText(n.labels) + end;
    LabelsTextSpells(n.labels, end);
    SpelledNotEmpty(text, n.labels);
    ParsesExactly(text, n.labels);
    ParsedIsValid(text);
  }
}
