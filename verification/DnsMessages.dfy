/** DNS messages (section 4.1 of RFC 1035). */
module DnsMessages {
  import opened Basics
  import opened Wire
  import opened DomainNames
  import opened Words

  const HEADER_SIZE: nat := 12

  /** The largest datagram of the service in either direction. */
  const UDP_PAYLOAD_LIMIT: nat := 512

  const TYPE_A: U16 := 1
  const TYPE_NS: U16 := 2
  const TYPE_CNAME: U16 := 5
  const TYPE_SOA: U16 := 6
  const TYPE_PTR: U16 := 12
  const TYPE_HINFO: U16 := 13
  const TYPE_MINFO: U16 := 14
  const TYPE_MX: U16 := 15
  const TYPE_TXT: U16 := 16
  const TYPE_AAAA: U16 := 28

  const CLASS_IN: U16 := 1

  const OPCODE_QUERY: Byte := 0

  const RCODE_NO_ERROR: Byte := 0
  const RCODE_FORMERR: Byte := 1
  const RCODE_NOTIMP: Byte := 4

  datatype Header = Header(
    id: U16,
    isResponse: bool,
    opcode: Byte,
    authoritativeAnswer: bool,
    truncated: bool,
    recursionDesired: bool,
    recursionAvailable: bool,
    reservedZ: bool,
    authenticatedData: bool,
    checkingDisabled: bool,
    responseCode: Byte)

  datatype Question = Question(name: DomainName, qtype: U16, qclass: U16)

  datatype ResourceRecord = ResourceRecord(
    name: DomainName,
    rtype: U16,
    rclass: U16,
    ttl: U32,
    rdataOffset: nat,
    rdata: seq<Byte>)

  datatype Message = Message(
    header: Header,
    questions: seq<Question>,
    answers: seq<ResourceRecord>,
    authorities: seq<ResourceRecord>,
    additionals: seq<ResourceRecord>,
    wireImage: seq<Byte>)

  predicate ValidQuestion(q: Question) {
    ValidName(q.name)
  }

  /** Questions compare names by their canonical key. */
  predicate SameQuestion(a: Question, b: Question) {
    a.name.canonicalKey == b.name.canonicalKey && a.qtype == b.qtype && a.qclass == b.qclass
  }

  /** The flag word; the fields occupy disjoint bits. */
  function FlagWord(h: Header): (r: U16)
    requires h.opcode <= 15 && h.responseCode <= 15
  {
    One(h.isResponse) * 0x8000 + (h.opcode as nat) * 0x800 + One(h.authoritativeAnswer) * 0x400 + One(h.truncated) * 0x200
    + One(h.recursionDesired) * 0x100 + One(h.recursionAvailable) * 0x80 + One(h.reservedZ) * 0x40
    + One(h.authenticatedData) * 0x20 + One(h.checkingDisabled) * 0x10 + h.responseCode
  }

  predicate Bit(flags: U16, k: nat) {
    And(flags, Pow2(k)) != 0
  }

  function HeaderOf(id: U16, flags: U16): (h: Header) {
    AndMask(flags / 0x800, 4);
    AndMask(flags, 4);
    Header(id, Bit(flags, 15), And(flags / 0x800, 15), Bit(flags, 10), Bit(flags, 9), Bit(flags, 8),
           Bit(flags, 7), Bit(flags, 6), Bit(flags, 5), Bit(flags, 4), And(flags, 15))
  }

  lemma HeaderFields(id: U16, flags: U16)
    ensures HeaderOf(id, flags).opcode <= 15 && HeaderOf(id, flags).responseCode <= 15
  {
    AndMask(flags / 0x800, 4);
    AndMask(flags, 4);
    assert Pow2(4) == 16;
  }

  /** Testing one bit of a mask. */
  lemma {:induction false} BitOfMask(a: nat, k: nat, p: nat)
    requires p == Pow2(k)
    ensures And(a, p) == p * ((a / p) % 2)
  {
    if a == 0 {
      assert 0 / p == 0;
    } else if k == 0 {
      AndOne(a);
    } else {
      var half := Pow2(k - 1);
      BitOfMask(a / 2, k - 1, half);
      AndEven(a, half);
      QuotientOfHalf(a, half);
      Doubled(half, (a / p) % 2);
    }
  }

  lemma Doubled(half: nat, bit: nat)
    ensures 2 * (half * bit) == (2 * half) * bit
  {
  }

  lemma AndEven(a: nat, m: nat)
    requires m > 0
    ensures And(a, 2 * m) == 2 * And(a / 2, m)
  {
    assert (2 * m) / 2 == m && (2 * m) % 2 == 0;
  }

  lemma AndLow(a: nat, k: nat, p: nat, high: nat, low: nat)
    requires p == Pow2(k) && a == p * high + low && low < p
    ensures And(a, p - 1) == low
  {
    AndMask(a, k);
    RemainderUnique(a, p, high, low);
  }

  lemma AndOne(a: nat)
    ensures And(a, 1) == a % 2
  {
    if a != 0 {
      assert And(a / 2, 0) == 0;
    }
  }

  lemma QuotientOfHalf(a: nat, p: nat)
    requires p >= 1
    ensures a / (2 * p) == (a / 2) / p
  {
    var q, r := (a / 2) / p, (a / 2) % p;
    assert a / 2 == p * q + r;
    assert a == (2 * p) * q + (2 * r + a % 2);
    RemainderUnique(a, 2 * p, q, 2 * r + a % 2);
  }

  lemma BitAt(flags: U16, k: nat, p: nat, high: nat, bit: bool, low: nat)
    requires p == Pow2(k) && flags == p * (2 * high + One(bit)) + low && low < p
    ensures Bit(flags, k) == bit
  {
    BitOfMask(flags, k, p);
    RemainderUnique(flags, p, 2 * high + One(bit), low);
    assert (2 * high + One(bit)) % 2 == One(bit);
  }

  lemma Powers()
    ensures Pow2(4) == 16 && Pow2(5) == 0x20 && Pow2(6) == 0x40 && Pow2(7) == 0x80 && Pow2(8) == 0x100
    ensures Pow2(9) == 0x200 && Pow2(10) == 0x400 && Pow2(11) == 0x800 && Pow2(15) == 0x8000 && Pow2(16) == 0x1_0000
  {
  }

  lemma LowNibble(a: nat, high: nat, low: nat)
    requires a == 16 * high + low && low < 16
    ensures And(a, 15) == low
  {
    Powers();
    AndLow(a, 4, 16, high, low);
  }

  /** The flag word with its lowest fields cut off. */
  lemma FlagSplit(h: Header) returns (f: nat, f1: nat, f2: nat, f3: nat, f4: nat, f5: nat, f6: nat, f7: nat)
    requires h.opcode <= 15 && h.responseCode <= 15
    ensures f == FlagWord(h) == 16 * f1 + h.responseCode
    ensures f1 == 2 * f2 + One(h.checkingDisabled) && f2 == 2 * f3 + One(h.authenticatedData) && f3 == 2 * f4 + One(h.reservedZ)
    ensures f4 == 2 * f5 + One(h.recursionAvailable) && f5 == 2 * f6 + One(h.recursionDesired) && f6 == 2 * f7 + One(h.truncated)
    ensures f7 == 2 * (16 * One(h.isResponse) + h.opcode) + One(h.authoritativeAnswer)
  {
    f7 := 2 * (16 * One(h.isResponse) + h.opcode) + One(h.authoritativeAnswer);
    f6 := 2 * f7 + One(h.truncated);
    f5 := 2 * f6 + One(h.recursionDesired);
    f4 := 2 * f5 + One(h.recursionAvailable);
    f3 := 2 * f4 + One(h.reservedZ);
    f2 := 2 * f3 + One(h.authenticatedData);
    f1 := 2 * f2 + One(h.checkingDisabled);
    f := FlagWord(h);
  }

  lemma LowFlags(h: Header)
    requires h.opcode <= 15 && h.responseCode <= 15
    ensures Bit(FlagWord(h), 4) == h.checkingDisabled && Bit(FlagWord(h), 5) == h.authenticatedData
    ensures Bit(FlagWord(h), 6) == h.reservedZ && And(FlagWord(h), 15) == h.responseCode
  {
    var f, f1, f2, f3, f4, f5, f6, f7 := FlagSplit(h);
    Powers();
    var low: nat := h.responseCode;
    LowNibble(f, f1, low);
    BitAt(f, 4, 0x10, f2, h.checkingDisabled, low);
    low := One(h.checkingDisabled) * 0x10 + low;
    BitAt(f, 5, 0x20, f3, h.authenticatedData, low);
    low := One(h.authenticatedData) * 0x20 + low;
    BitAt(f, 6, 0x40, f4, h.reservedZ, low);
  }

  lemma MiddleFlags(h: Header)
    requires h.opcode <= 15 && h.responseCode <= 15
    ensures Bit(FlagWord(h), 7) == h.recursionAvailable && Bit(FlagWord(h), 8) == h.recursionDesired
    ensures Bit(FlagWord(h), 9) == h.truncated && Bit(FlagWord(h), 10) == h.authoritativeAnswer
  {
    var f, f1, f2, f3, f4, f5, f6, f7 := FlagSplit(h);
    Powers();
    var low := f - 0x80 * f4;
    BitAt(f, 7, 0x80, f5, h.recursionAvailable, low);
    low := One(h.recursionAvailable) * 0x80 + low;
    BitAt(f, 8, 0x100, f6, h.recursionDesired, low);
    low := One(h.recursionDesired) * 0x100 + low;
    BitAt(f, 9, 0x200, f7, h.truncated, low);
    low := One(h.truncated) * 0x200 + low;
    BitAt(f, 10, 0x400, 16 * One(h.isResponse) + h.opcode, h.authoritativeAnswer, low);
  }

  lemma HighFlags(h: Header)
    requires h.opcode <= 15 && h.responseCode <= 15
    ensures And(FlagWord(h) / 0x800, 15) == h.opcode && Bit(FlagWord(h), 15) == h.isResponse
  {
    var f, f1, f2, f3, f4, f5, f6, f7 := FlagSplit(h);
    Powers();
    var high: nat := 16 * One(h.isResponse) + h.opcode;
    BitAt(f, 15, 0x8000, 0, h.isResponse, f - 0x8000 * One(h.isResponse));
    RemainderUnique(f, 0x800, high, f - 0x800 * high);
    LowNibble(f / 0x800, One(h.isResponse), h.opcode);
  }

  /** The flag word determines the header fields it was made from. */
  lemma FlagsRoundTrip(h: Header)
    requires h.opcode <= 15 && h.responseCode <= 15
    ensures HeaderOf(h.id, FlagWord(h)) == h
  {
    LowFlags(h);
    MiddleFlags(h);
    HighFlags(h);
  }

  lemma LowBit(f: nat) returns (half: nat, bit: bool)
    ensures f == 2 * half + One(bit)
  {
    half, bit := f / 2, f % 2 == 1;
  }

  lemma ThreeBits(f: nat) returns (high: nat, a: bool, b: bool, c: bool)
    ensures f == 8 * high + 4 * One(a) + 2 * One(b) + One(c)
  {
    var f1, f2;
    f1, c := LowBit(f);
    f2, b := LowBit(f1);
    high, a := LowBit(f2);
  }

  lemma Nibbles(f: nat) returns (high: nat, low: Byte)
    ensures f == 16 * high + low && low <= 15
  {
    high, low := f / 16, f % 16;
  }

  lemma TopFields(f: nat) returns (response: bool, opcode: Byte, aa: bool)
    requires f < 0x40
    ensures f == 32 * One(response) + 2 * opcode + One(aa) && opcode <= 15
  {
    var f8, top;
    f8, aa := LowBit(f);
    top, opcode := Nibbles(f8);
    response := top == 1;
  }

  /** Every word is the flag word of a header. */
  lemma HeaderOfWord(id: U16, flags: U16) returns (h: Header)
    ensures h.id == id && h.opcode <= 15 && h.responseCode <= 15 && FlagWord(h) == flags
  {
    var f1, code := Nibbles(flags);
    var f4, z, ad, cd := ThreeBits(f1);
    var f7, tc, rd, ra := ThreeBits(f4);
    assert 0x400 * f7 <= flags;
    var response, opcode, aa := TopFields(f7);
    h := Header(id, response, opcode, aa, tc, rd, ra, z, ad, cd, code);
  }

  /** The header read from a word determines the word. */
  lemma WordRoundTrip(id: U16, flags: U16)
    ensures var h := HeaderOf(id, flags); h.opcode <= 15 && h.responseCode <= 15 && FlagWord(h) == flags
  {
    var h := HeaderOfWord(id, flags);
    FlagsRoundTrip(h);
  }
}
