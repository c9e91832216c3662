/** The blocklist: a cuckoo prefilter over suffix keys in front of the trie. */
module DomainBlocklist {
  import opened Basics
  import opened Words
  import opened DomainNames
  import CuckooFilter
  import RadixTree

  datatype BuildErrorCode =
    InvalidDomain | RootRuleNotAllowed | WildcardNotSupported | CapacityOverflow | Cancelled | LengthError

  /** LengthError stands for the exception of an oversized filter. */
  datatype BuildError = BuildError(code: BuildErrorCode, ruleIndex: nat)

  const STAR: Byte := 42
  const QUESTION_MARK: Byte := 63

  predicate HasWildcard(labels: seq<Label>) {
    exists k :: 0 <= k < |labels| && (STAR in labels[k] || QUESTION_MARK in labels[k])
  }

  /** What is wrong with one rule text, if anything. */
  function RuleFault(text: seq<Byte>): Option<BuildErrorCode> {
    var parsed := Parse(text);
    if parsed.Err? then Some(InvalidDomain)
    else if parsed.value.labels == [] then Some(RootRuleNotAllowed)
    else if HasWildcard(parsed.value.labels) then Some(WildcardNotSupported)
    else None
  }

  /** No octet of the labels is an asterisk or a question mark. */
  predicate Plain(labels: seq<Label>) {
    forall k, i :: 0 <= k < |labels| && 0 <= i < |labels[k]| ==> labels[k][i] != '*' as int && labels[k][i] != '?' as int
  }

  /** A rule is accepted exactly when its text is a plain name that has labels. */
  lemma RuleAcceptedExactly(text: seq<Byte>, labels: seq<Label>)
    requires Parse(text).Ok? ==> labels == Parse(text).value.labels
    ensures RuleFault(text).None? <==> Parse(text).Ok? && labels != [] && Plain(labels)
    ensures RuleFault(text) == Some(InvalidDomain) <==> Parse(text).Err?
    ensures RuleFault(text) == Some(RootRuleNotAllowed) <==> Parse(text).Ok? && labels == []
    ensures RuleFault(text) == Some(WildcardNotSupported) <==> Parse(text).Ok? && labels != [] && !Plain(labels)
  {
    if HasWildcard(labels) {
      var k :| 0 <= k < |labels| && (STAR in labels[k] || QUESTION_MARK in labels[k]);
      var i :| 0 <= i < |labels[k]| && (labels[k][i] == STAR || labels[k][i] == QUESTION_MARK);
    }
  }

  /** Some of the rule texts denotes the name or a parent of it. */
  ghost predicate Blocked(rules: seq<seq<Byte>>, labels: seq<Label>) {
    exists k :: 0 <= k < |rules| && Parse(rules[k]).Ok? && IsUnder(labels, Parse(rules[k]).value.labels)
  }

  function InitialBucketCount(items: nat): nat {
    if items < 4 then 4 else items / 3 + 1
  }

  /** The first filter asked for is the smallest, of four buckets at least, with more than one bucket for every three items. */
  lemma InitialBucketsExactly(items: nat)
    ensures var n := InitialBucketCount(items); if items < 4 then n == 4 else 3 * (n - 1) <= items < 3 * n
  {
  }

  ghost predicate GoodNames(names: seq<DomainName>) {
    forall k :: 0 <= k < |names| ==> ValidName(names[k]) && names[k].labels != []
  }

  ghost function Keys(names: seq<DomainName>): set<seq<Byte>> {
    set k | 0 <= k < |names| :: names[k].canonicalKey
  }

  ghost function Paths(names: seq<DomainName>): set<seq<Label>> {
    set k | 0 <= k < |names| :: RadixTree.Path(names[k].labels)
  }

  ghost predicate Distinct(names: seq<DomainName>) {
    forall i, k :: 0 <= i < k < |names| ==> names[i].canonicalKey != names[k].canonicalKey
  }

  function KeyBytes(names: seq<DomainName>): nat {
    if names == [] then 0 else KeyBytes(names[..|names| - 1]) + |names[|names| - 1].canonicalKey|
  }

  class Blocklist {
    const prefilter: CuckooFilter.Filter
    const tree: RadixTree.Tree
    var ruleCount: nat
    var ruleBytes: nat
    ghost var names: seq<DomainName>

    ghost predicate Valid()
      reads this, prefilter, tree, tree.nodes.Values
    {
      && prefilter.Valid() && tree.Valid() && GoodNames(names)
      && Keys(names) <= prefilter.inserted
      && tree.rules == Paths(names)
      && ruleCount == |names| && ruleBytes == KeyBytes(names)
    }

    constructor (filter: CuckooFilter.Filter, trie: RadixTree.Tree, ghost rules: seq<DomainName>, count: nat, bytes: nat)
      requires filter.Valid() && trie.Valid() && GoodNames(rules)
      requires Keys(rules) <= filter.inserted && trie.rules == Paths(rules)
      requires count == |rules| && bytes == KeyBytes(rules)
      ensures Valid() && names == rules && prefilter == filter && tree == trie
    {
      prefilter := filter;
      tree := trie;
      names := rules;
      ruleCount := count;
      ruleBytes := bytes;
    }

    /** A query matches exactly when it is a subdomain of some rule. */
    method Matches(query: DomainName) returns (r: bool)
      requires Valid() && ValidName(query)
      ensures r <==> exists k :: 0 <= k < |names| && IsUnder(query.labels, names[k].labels)
    {
      var possibly := AnySuffixIn(prefilter, query);
      if !possibly {
        NoSuffixNoMatch(query.labels, names);
        return false;
      }
      r := tree.Search(query);
      TreeDecides(query.labels, names, tree);
    }
  }

  /** A negative answer is certain: no suffix was ever inserted. */
  method AnySuffixIn(filter: CuckooFilter.Filter, query: DomainName) returns (possibly: bool)
    requires filter.Valid() && ValidName(query)
    ensures !possibly ==> forall j :: 0 <= j < |query.labels| ==> Key(query.labels[j..]) !in filter.inserted
  {
    for first := 0 to |query.labels|
      invariant NoneIn(query.labels, first, filter.inserted)
    {
      var found := LookupSuffix(filter, query, first);
      if found {
        return true;
      }
    }
    possibly := false;
  }

  ghost predicate NoneIn(labels: seq<Label>, count: nat, inserted: set<seq<Byte>>)
    requires ValidLabels(labels)
  {
    forall j :: 0 <= j < count && j < |labels| ==> Key(labels[j..]) !in inserted
  }

  method LookupSuffix(filter: CuckooFilter.Filter, query: DomainName, first: nat) returns (found: bool)
    requires filter.Valid() && ValidName(query) && first < |query.labels|
    ensures Key(query.labels[first..]) in filter.inserted ==> found
  {
    var key := CanonicalSuffixKey(query, first);
    found := filter.Contains(key);
  }

  lemma NoSuffixNoMatch(labels: seq<Label>, names: seq<DomainName>)
    requires ValidLabels(labels) && GoodNames(names)
    requires forall j :: 0 <= j < |labels| ==> Key(labels[j..]) !in Keys(names)
    ensures !exists k :: 0 <= k < |names| && IsUnder(labels, names[k].labels)
  {
    forall k | 0 <= k < |names| ensures !IsUnder(labels, names[k].labels) {
      SuffixKeyFinds(labels, names[k].labels);
      assert names[k].canonicalKey in Keys(names);
      KeysIdentify([], names[k].labels);
      assert labels[|labels|..] == [];
    }
  }

  lemma TreeDecides(labels: seq<Label>, names: seq<DomainName>, tree: RadixTree.Tree)
    requires tree.rules == Paths(names) && GoodNames(names)
    ensures tree.Covers(RadixTree.Path(labels)) <==>
              exists k :: 0 <= k < |names| && IsUnder(labels, names[k].labels)
  {
    var path := RadixTree.Path(labels);
    forall k | 0 <= k < |names| && IsUnder(labels, names[k].labels) ensures tree.Covers(path) {
      RadixTree.UnderIsPrefix(labels, names[k].labels);
      var p := RadixTree.Path(names[k].labels);
      assert p in tree.rules && path[..|p|] == p;
    }
    if tree.Covers(path) {
      var j :| 0 <= j <= |path| && path[..j] in tree.rules;
      var k :| 0 <= k < |names| && RadixTree.Path(names[k].labels) == path[..j];
      RadixTree.UnderIsPrefix(labels, names[k].labels);
    }
  }

  // ----------------------------------------------------------------- building

  /** A stop request another thread can raise at any time, for good. */
  class StopToken {
    var requested: bool

    method Poll() returns (stop: bool)
      modifies this
      ensures stop == requested && (old(requested) ==> requested)
    {
      if * {
        requested := true;
      }
      stop := requested;
    }
  }

  ghost function RuleKeys(rules: seq<seq<Byte>>): set<seq<Byte>> {
    set k | 0 <= k < |rules| && Parse(rules[k]).Ok? :: Parse(rules[k]).value.canonicalKey
  }

  predicate HasKey(rule: seq<Byte>, key: seq<Byte>) {
    Parse(rule).Ok? && Parse(rule).value.canonicalKey == key
  }

  /** The names in the order in which the rules first mention them: name `i` comes from rule `places[i]`. */
  ghost predicate FirstMentions(rules: seq<seq<Byte>>, names: seq<DomainName>, places: seq<nat>) {
    && |places| == |names|
    && (forall i, j :: 0 <= i < j < |places| ==> places[i] < places[j])
    && (forall i :: 0 <= i < |places| ==> places[i] < |rules| && Parse(rules[places[i]]) == Ok(names[i]))
    && (forall i, j :: 0 <= i < |places| && 0 <= j < places[i] && j < |rules| ==> !HasKey(rules[j], names[i].canonicalKey))
  }

  lemma FirstMentionsGrow(rules: seq<seq<Byte>>, k: nat, names: seq<DomainName>, places: seq<nat>, more: seq<DomainName>, morePlaces: seq<nat>)
    requires k < |rules| && FirstMentions(rules[..k], names, places) && Parse(rules[k]).Ok?
    requires var name := Parse(rules[k]).value;
             if name.canonicalKey in RuleKeys(rules[..k]) then more == names && morePlaces == places
             else more == names + [name] && morePlaces == places + [k]
    ensures FirstMentions(rules[..k + 1], more, morePlaces)
  {
    var name := Parse(rules[k]).value;
    if name.canonicalKey !in RuleKeys(rules[..k]) {
      forall j | 0 <= j < k ensures !HasKey(rules[j], name.canonicalKey) {
        assert rules[..k][j] == rules[j];
      }
    }
    forall i, j {:trigger names[i].canonicalKey, rules[j]} | 0 <= i < |places| && 0 <= j < places[i]
      ensures !HasKey(rules[..k + 1][j], names[i].canonicalKey)
    {
      assert rules[..k][j] == rules[..k + 1][j];
    }
  }

  /** What is known of the rules before rule `k`. */
  ghost predicate ParsedSoFar(rules: seq<seq<Byte>>, k: nat, names: seq<DomainName>, places: seq<nat>) {
    && k <= |rules| && (forall i :: 0 <= i < k ==> RuleFault(rules[i]).None?)
    && GoodNames(names) && Distinct(names) && Keys(names) == RuleKeys(rules[..k]) && FirstMentions(rules[..k], names, places)
  }

  lemma ParsedOneMore(rules: seq<seq<Byte>>, k: nat, names: seq<DomainName>, places: seq<nat>, more: seq<DomainName>, morePlaces: seq<nat>)
    requires ParsedSoFar(rules, k, names, places) && k < |rules| && RuleFault(rules[k]).None?
    requires var name := Parse(rules[k]).value;
             if name.canonicalKey in Keys(names) then more == names && morePlaces == places
             else more == names + [name] && morePlaces == places + [k]
    ensures ParsedSoFar(rules, k + 1, more, morePlaces)
  {
    var name := Parse(rules[k]).value;
    ParsedIsValid(rules[k]);
    KeysGrow(names, name);
    RuleKeysGrow(rules, k);
    FirstMentionsGrow(rules, k, names, places, more, morePlaces);
  }

  /** The rules as names, first occurrences only and in their order; or the first bad rule. */
  method ParseRules(rules: seq<seq<Byte>>, token: StopToken) returns (r: Result<seq<DomainName>, BuildError>, ghost places: seq<nat>)
    modifies token
    ensures r.Ok? ==>
              && (forall k :: 0 <= k < |rules| ==> RuleFault(rules[k]).None?)
              && GoodNames(r.value) && Distinct(r.value) && Keys(r.value) == RuleKeys(rules) && FirstMentions(rules, r.value, places)
    ensures r.Err? ==>
              && r.error.ruleIndex < |rules|
              && (forall k :: 0 <= k < r.error.ruleIndex ==> RuleFault(rules[k]).None?)
              && (if r.error.code == Cancelled then token.requested
                  else RuleFault(rules[r.error.ruleIndex]) == Some(r.error.code))
  {
    var names: seq<DomainName> := [];
    var unique: set<seq<Byte>> := {};
    places := [];
    for k := 0 to |rules|
      invariant ParsedSoFar(rules, k, names, places) && unique == Keys(names)
    {
      var stop := token.Poll();
      if stop {
        return Err(BuildError(Cancelled, k)), places;
      }
      var name := FromText(rules[k]);
      if name.Err? {
        return Err(BuildError(InvalidDomain, k)), places;
      }
      if name.value.labels == [] {
        return Err(BuildError(RootRuleNotAllowed, k)), places;
      }
      if HasWildcard(name.value.labels) {
        return Err(BuildError(WildcardNotSupported, k)), places;
      }
      ghost var known, at := names, places;
      KeysGrow(names, name.value);
      if name.value.canonicalKey !in unique {
        unique := unique + {name.value.canonicalKey};
        names := names + [name.value];
        places := places + [k];
      }
      ParsedOneMore(rules, k, known, at, names, places);
    }
    assert rules[..|rules|] == rules;
    r := Ok(names);
  }

  lemma KeysGrow(names: seq<DomainName>, n: DomainName)
    ensures Keys(names + [n]) == Keys(names) + {n.canonicalKey}
    ensures Distinct(names) && n.canonicalKey !in Keys(names) ==> Distinct(names + [n])
  {
    var all := names + [n];
    assert all[|names|] == n;
    forall key | key in Keys(names) ensures key in Keys(all) {
      var k :| 0 <= k < |names| && names[k].canonicalKey == key;
      assert all[k].canonicalKey == key;
    }
    if Distinct(names) && n.canonicalKey !in Keys(names) {
      forall i, k | 0 <= i < k < |all| ensures all[i].canonicalKey != all[k].canonicalKey {
        assert names[i].canonicalKey in Keys(names);
      }
    }
  }

  lemma RuleKeysGrow(rules: seq<seq<Byte>>, k: nat)
    requires k < |rules| && Parse(rules[k]).Ok?
    ensures RuleKeys(rules[..k + 1]) == RuleKeys(rules[..k]) + {Parse(rules[k]).value.canonicalKey}
  {
    var more := rules[..k + 1];
    assert more[k] == rules[k];
    forall key | key in RuleKeys(rules[..k]) ensures key in RuleKeys(more) {
      var i :| 0 <= i < k && Parse(rules[..k][i]).Ok? && Parse(rules[..k][i]).value.canonicalKey == key;
      assert more[i] == rules[..k][i];
    }
    forall key | key in RuleKeys(more)
      ensures key in RuleKeys(rules[..k]) || key == Parse(rules[k]).value.canonicalKey
    {
      var i :| 0 <= i < k + 1 && Parse(more[i]).Ok? && Parse(more[i]).value.canonicalKey == key;
      if i < k {
        assert more[i] == rules[..k][i];
      }
    }
  }

  lemma PathsGrow(names: seq<DomainName>, k: nat)
    requires k < |names|
    ensures Paths(names[..k + 1]) == Paths(names[..k]) + {RadixTree.Path(names[k].labels)}
  {
    var more := names[..k + 1];
    assert more[k] == names[k];
    forall p | p in Paths(names[..k]) ensures p in Paths(more) {
      var i :| 0 <= i < k && RadixTree.Path(names[..k][i].labels) == p;
      assert more[i] == names[..k][i];
    }
    forall p | p in Paths(more) ensures p in Paths(names[..k]) || p == RadixTree.Path(names[k].labels) {
      var i :| 0 <= i < k + 1 && RadixTree.Path(more[i].labels) == p;
      if i < k {
        assert more[i] == names[..k][i];
      }
    }
  }

  /** The table and the random state a filter had when it refused a name. */
  datatype Refusal = Refusal(buckets: CuckooFilter.Table, random: Word)

  const MAXIMUM_KICKS: nat := 500

  /** The table holds names, is below its load limit, but both buckets of the
      hash are full and five hundred displacements found no room. */
  ghost predicate Refuses(r: Refusal, h: Word)
    requires |r.buckets| >= 1
  {
    && CuckooFilter.OccupiedSlots(r.buckets) < CuckooFilter.LoadLimit(|r.buckets| * CuckooFilter.SLOTS)
    && CuckooFilter.NoRoom(r.buckets, And(h, |r.buckets| - 1), CuckooFilter.FingerprintOf(h), r.random, MAXIMUM_KICKS)
  }

  /** The names up to `k` were taken, the name `k` was refused. */
  ghost predicate RefusedAt(r: Refusal, names: seq<DomainName>, k: nat, hash: seq<Byte> -> Word)
    requires |r.buckets| >= 1 && k < |names|
  {
    && CuckooFilter.ItemsFindable(r.buckets, hash, Keys(names[..k]))
    && CuckooFilter.OccupiedSlots(r.buckets) <= k
    && Refuses(r, hash(names[k].canonicalKey))
  }

  ghost predicate Refused(r: Refusal, names: seq<DomainName>, hash: seq<Byte> -> Word)
    requires |r.buckets| >= 1
  {
    exists k :: 0 <= k < |names| && RefusedAt(r, names, k, hash)
  }

  /** The names before `k` are in the filter and nothing else is. */
  ghost predicate Holding(filter: CuckooFilter.Filter, names: seq<DomainName>, k: nat)
    requires k <= |names|
    reads filter
  {
    filter.Valid() && filter.inserted == Keys(names[..k]) && filter.size <= k
  }

  /** Fewer names than there are fill the filter up to its load limit. */
  ghost predicate AtLoadLimit(filter: CuckooFilter.Filter, names: nat)
    reads filter
  {
    CuckooFilter.LoadLimit(|filter.buckets| * CuckooFilter.SLOTS) <= filter.size < names
  }

  /** No list is refused before its ninth name. */
  lemma RefusedHasNine(r: Refusal, log: nat, names: seq<DomainName>, hash: seq<Byte> -> Word)
    requires log >= 1 && |r.buckets| == Pow2(log) && Refused(r, names, hash)
    ensures |names| > 8
  {
    var k :| 0 <= k < |names| && RefusedAt(r, names, k, hash);
    var h := hash(names[k].canonicalKey);
    CuckooFilter.NoRoomTakesEight(r.buckets, log, And(h, |r.buckets| - 1), CuckooFilter.FingerprintOf(h));
  }

  /** All names are inserted, unless the filter refuses one of them. */
  method FillFilter(filter: CuckooFilter.Filter, names: seq<DomainName>, token: StopToken)
    returns (all: bool, stopped: Option<nat>)
    requires filter.Valid() && filter.inserted == {} && filter.size == 0 && filter.maximumKicks == MAXIMUM_KICKS
    modifies filter, token
    ensures filter.Valid() && |filter.buckets| == old(|filter.buckets|)
    ensures stopped.Some? ==> token.requested
    ensures stopped.None? && all ==> filter.inserted == Keys(names)
    ensures stopped.None? && !all ==> AtLoadLimit(filter, |names|) || Refused(Refusal(filter.buckets, filter.rngState), names, filter.hash)
  {
    for k := 0 to |names|
      invariant Holding(filter, names, k) && |filter.buckets| == old(|filter.buckets|)
    {
      var stop := token.Poll();
      if stop {
        return false, Some(k);
      }
      var ok := AddKey(filter, names, k);
      if !ok {
        return false, None;
      }
    }
    assert names[..|names|] == names;
    return true, None;
  }

  method AddKey(filter: CuckooFilter.Filter, names: seq<DomainName>, k: nat) returns (ok: bool)
    requires k < |names| && Holding(filter, names, k) && filter.maximumKicks == MAXIMUM_KICKS
    modifies filter
    ensures |filter.buckets| == old(|filter.buckets|)
    ensures filter.Valid()
    ensures ok ==> Holding(filter, names, k + 1)
    ensures !ok ==> AtLoadLimit(filter, |names|) || RefusedAt(Refusal(filter.buckets, filter.rngState), names, k, filter.hash)
  {
    assert names[..k + 1] == names[..k] + [names[k]];
    KeysGrow(names[..k], names[k]);
    ok := filter.Insert(names[k].canonicalKey);
  }

  method FillTree(names: seq<DomainName>, token: StopToken) returns (tree: RadixTree.Tree, stopped: Option<nat>)
    requires GoodNames(names)
    modifies token
    ensures tree.Valid() && fresh(tree) && fresh(tree.nodes.Values)
    ensures stopped.Some? ==> token.requested
    ensures stopped.None? ==> tree.rules == Paths(names)
  {
    tree := new RadixTree.Tree();
    for k := 0 to |names|
      invariant fresh(tree) && fresh(tree.nodes.Values) && tree.Valid()
      invariant tree.rules == Paths(names[..k])
    {
      var stop := token.Poll();
      if stop {
        return tree, Some(k);
      }
      AddRule(tree, names, k);
    }
    assert names[..|names|] == names;
    stopped := None;
  }

  method AddRule(tree: RadixTree.Tree, names: seq<DomainName>, k: nat)
    requires tree.Valid() && GoodNames(names) && k < |names| && tree.rules == Paths(names[..k])
    modifies tree, tree.nodes.Values
    ensures tree.Valid() && tree.rules == Paths(names[..k + 1]) && fresh(tree.nodes.Values - old(tree.nodes.Values))
  {
    PathsGrow(names, k);
    var newly := tree.Insert(names[k]);
  }

  method SumKeyBytes(names: seq<DomainName>) returns (bytes: nat)
    ensures bytes == KeyBytes(names)
  {
    bytes := 0;
    for k := 0 to |names|
      invariant bytes == KeyBytes(names[..k])
    {
      bytes := bytes + |names[k].canonicalKey|;
      assert names[..k + 1][..k] == names[..k];
    }
    assert names[..|names|] == names;
  }

  lemma SameKeysSameBlocked(rules: seq<seq<Byte>>, names: seq<DomainName>, labels: seq<Label>)
    requires GoodNames(names) && Keys(names) == RuleKeys(rules)
    ensures Blocked(rules, labels) <==> exists k :: 0 <= k < |names| && IsUnder(labels, names[k].labels)
  {
    forall k | 0 <= k < |names| && IsUnder(labels, names[k].labels) ensures Blocked(rules, labels) {
      assert names[k].canonicalKey in RuleKeys(rules);
      var i :| 0 <= i < |rules| && Parse(rules[i]).Ok? && Parse(rules[i]).value.canonicalKey == names[k].canonicalKey;
      SameKeySameUnder(Parse(rules[i]).value, names[k], labels, rules[i]);
    }
    forall i | 0 <= i < |rules| && Parse(rules[i]).Ok? && IsUnder(labels, Parse(rules[i]).value.labels)
      ensures exists k :: 0 <= k < |names| && IsUnder(labels, names[k].labels)
    {
      assert Parse(rules[i]).value.canonicalKey in Keys(names);
      var k :| 0 <= k < |names| && names[k].canonicalKey == Parse(rules[i]).value.canonicalKey;
      SameKeySameUnder(Parse(rules[i]).value, names[k], labels, rules[i]);
    }
  }

  lemma SameBlocked(rules: seq<seq<Byte>>, names: seq<DomainName>)
    requires GoodNames(names) && Keys(names) == RuleKeys(rules)
    ensures forall q: seq<Label> :: Blocked(rules, q) <==> exists k :: 0 <= k < |names| && IsUnder(q, names[k].labels)
  {
    forall q: seq<Label> ensures Blocked(rules, q) <==> exists k :: 0 <= k < |names| && IsUnder(q, names[k].labels) {
      SameKeysSameBlocked(rules, names, q);
    }
  }

  lemma SameKeySameUnder(a: DomainName, b: DomainName, labels: seq<Label>, text: seq<Byte>)
    requires Parse(text) == Ok(a) && ValidName(b) && a.canonicalKey == b.canonicalKey
    ensures IsUnder(labels, a.labels) <==> IsUnder(labels, b.labels)
  {
    ParsedIsValid(text);
    KeysIdentify(a.labels, b.labels);
  }

  /** The bucket count that is asked for at the given attempt: it doubles. */
  function AttemptCount(items: nat, attempt: nat): nat {
    if attempt == 0 then InitialBucketCount(items) else AttemptCount(items, attempt - 1) * 2
  }

  function AttemptSize(items: nat, attempt: nat): nat {
    Pow2(CuckooFilter.NormalizedLog(AttemptCount(items, attempt)))
  }

  /** A filter of any attempt can hold all names below its load limit. */
  lemma LoadSuffices(items: nat, attempt: nat)
    ensures items <= CuckooFilter.LoadLimit(AttemptSize(items, attempt) * CuckooFilter.SLOTS)
  {
    AttemptsGrow(items, attempt);
    CuckooFilter.LoadLimitIsFloor(AttemptSize(items, attempt) * CuckooFilter.SLOTS);
  }

  lemma {:induction false} AttemptsGrow(items: nat, attempt: nat)
    ensures 3 * AttemptCount(items, attempt) > items
  {
    if attempt > 0 {
      AttemptsGrow(items, attempt - 1);
    }
  }

  /** The filter constructor refuses such a size. */
  predicate OutOfSize(buckets: nat, maximumBuckets: nat) {
    buckets > maximumBuckets || buckets > MAX_WORD / CuckooFilter.SLOTS
  }

  /** Filters of doubling sizes were filled, and every one refused a name. */
  ghost predicate AllRefused(tried: seq<Refusal>, names: seq<DomainName>, hash: seq<Byte> -> Word) {
    forall i :: 0 <= i < |tried| ==> RefusedTry(tried[i], names, i, hash)
  }

  ghost predicate RefusedTry(r: Refusal, names: seq<DomainName>, attempt: nat, hash: seq<Byte> -> Word) {
    |r.buckets| == AttemptSize(|names|, attempt) && Refused(r, names, hash)
  }

  /** Up to eight names fit into the first filter. */
  lemma FewNamesFitAtOnce(tried: seq<Refusal>, names: seq<DomainName>, hash: seq<Byte> -> Word)
    requires AllRefused(tried, names, hash) && |names| <= 8
    ensures tried == []
  {
    if tried != [] {
      assert RefusedTry(tried[0], names, 0, hash);
      RefusedHasNine(tried[0], CuckooFilter.NormalizedLog(AttemptCount(|names|, 0)), names, hash);
    }
  }

  /** A filter with all names, or one that refused a name. A count that can be tried can be doubled. */
  method TryFilter(names: seq<DomainName>, bucketCount: nat, token: StopToken, hash: seq<Byte> -> Word, maximumBuckets: nat, ghost attempt: nat)
    returns (filter: CuckooFilter.Filter?, all: bool, stopped: Option<nat>)
    requires bucketCount == AttemptCount(|names|, attempt)
    modifies token
    ensures filter == null <==> OutOfSize(AttemptSize(|names|, attempt), maximumBuckets)
    ensures filter != null ==> fresh(filter) && |filter.buckets| == AttemptSize(|names|, attempt) && bucketCount <= MAX_WORD / 4
    ensures filter != null && stopped.Some? ==> token.requested
    ensures filter != null && stopped.None? && all ==> filter.Valid() && filter.inserted == Keys(names)
    ensures filter != null && stopped.None? && !all ==> RefusedTry(Refusal(filter.buckets, filter.rngState), names, attempt, hash)
  {
    var log := CuckooFilter.NormalizedLog(bucketCount);
    if OutOfSize(Pow2(log), maximumBuckets) {
      return null, false, None;
    }
    LoadSuffices(|names|, attempt);
    filter := new CuckooFilter.Filter(log, Pow2(log), MAXIMUM_KICKS, hash);
    all, stopped := FillFilter(filter, names, token);
  }

  /** The filters tried before attempt `|tried|` all refused a name. */
  ghost predicate Attempting(tried: seq<Refusal>, names: seq<DomainName>, bucketCount: nat, hash: seq<Byte> -> Word) {
    AllRefused(tried, names, hash) && bucketCount == AttemptCount(|names|, |tried|) && bucketCount >= 1
  }

  lemma NextAttempt(tried: seq<Refusal>, r: Refusal, names: seq<DomainName>, bucketCount: nat, hash: seq<Byte> -> Word)
    requires Attempting(tried, names, bucketCount, hash) && RefusedTry(r, names, |tried|, hash)
    ensures Attempting(tried + [r], names, bucketCount * 2, hash)
  {
  }

  /** The first filter, of doubling sizes, that takes all names. */
  method FitFilter(names: seq<DomainName>, token: StopToken, hash: seq<Byte> -> Word, maximumBuckets: nat)
    returns (r: Result<CuckooFilter.Filter, BuildError>, ghost tried: seq<Refusal>)
    modifies token
    ensures r.Ok? ==>
              && fresh(r.value) && r.value.Valid() && Keys(names) <= r.value.inserted && AllRefused(tried, names, hash)
              && |r.value.buckets| == AttemptSize(|names|, |tried|)
    ensures r.Err? ==>
              if r.error.code == Cancelled then token.requested
              else r.error.code == LengthError && AllRefused(tried, names, hash) && OutOfSize(AttemptSize(|names|, |tried|), maximumBuckets)
  {
    tried := [];
    var overflow := BuildError(CapacityOverflow, 0);
    var bucketCount := InitialBucketCount(|names|);
    while true
      invariant Attempting(tried, names, bucketCount, hash)
      decreases MAX_WORD - bucketCount
    {
      var stop := token.Poll();
      if stop {
        return Err(BuildError(Cancelled, 0)), tried;
      }
      var filter, all, stopped := TryFilter(names, bucketCount, token, hash, maximumBuckets, |tried|);
      if filter == null {
        return Err(BuildError(LengthError, 0)), tried;
      }
      if stopped.Some? {
        return Err(BuildError(Cancelled, stopped.value)), tried;
      }
      if all {
        return Ok(filter), tried;
      }
      if bucketCount > MAX_WORD / 2 {
        return Err(overflow), tried;
      }
      ghost var refusal := Refusal(filter.buckets, filter.rngState);
      NextAttempt(tried, refusal, names, bucketCount, hash);
      tried := tried + [refusal];
      bucketCount := bucketCount * 2;
    }
  }

  /** The list over a filter that holds all keys. */
  method Assemble(filter: CuckooFilter.Filter, names: seq<DomainName>, token: StopToken) returns (r: Result<Blocklist, BuildError>)
    requires filter.Valid() && GoodNames(names) && Keys(names) <= filter.inserted
    modifies token
    ensures r.Ok? ==> r.value.Valid() && r.value.names == names && r.value.prefilter == filter
    ensures r.Err? ==> r.error.code == Cancelled && token.requested
  {
    var tree, halted := FillTree(names, token);
    if halted.Some? {
      return Err(BuildError(Cancelled, halted.value));
    }
    var bytes := SumKeyBytes(names);
    var list := new Blocklist(filter, tree, names, |names|, bytes);
    r := Ok(list);
  }

  /** Building succeeds only with a list that blocks exactly the subdomains of
      the given rules, whatever the hash, the kick choices and the number of
      times the filter had to double. It fails for size only when all smaller
      filters refused a name. */
  method Build(rules: seq<seq<Byte>>, token: StopToken, hash: seq<Byte> -> Word, maximumBuckets: nat)
    returns (r: Result<Blocklist, BuildError>, ghost names: seq<DomainName>, ghost tried: seq<Refusal>)
    modifies token
    ensures r.Ok? || (r.Err? && r.error.code == LengthError) ==>
              && (forall k :: 0 <= k < |rules| ==> RuleFault(rules[k]).None?)
              && Distinct(names) && Keys(names) == RuleKeys(rules) && AllRefused(tried, names, hash)
    ensures (r.Ok? || (r.Err? && r.error.code == LengthError)) && |names| <= 8 ==> tried == []
    ensures r.Ok? ==>
              && r.value.Valid() && r.value.names == names && |r.value.prefilter.buckets| == AttemptSize(|names|, |tried|)
              && (forall q: seq<Label> :: Blocked(rules, q) <==>
                    exists k :: 0 <= k < |r.value.names| && IsUnder(q, r.value.names[k].labels))
    ensures r.Err? ==>
              match r.error.code
              case Cancelled => token.requested
              case LengthError => OutOfSize(AttemptSize(|names|, |tried|), maximumBuckets)
              case CapacityOverflow => false
              case code => r.error.ruleIndex < |rules| && RuleFault(rules[r.error.ruleIndex]) == Some(code)
  {
    names, tried := [], [];
    var stop := token.Poll();
    if stop {
      return Err(BuildError(Cancelled, 0)), names, tried;
    }
    var parsed, places := ParseRules(rules, token);
    if parsed.Err? {
      return Err(parsed.error), names, tried;
    }
    names := parsed.value;
    SameBlocked(rules, names);
    var filter;
    filter, tried := FitFilter(parsed.value, token, hash, maximumBuckets);
    if AllRefused(tried, names, hash) && |names| <= 8 {
      FewNamesFitAtOnce(tried, names, hash);
    }
    if filter.Err? {
      return Err(filter.error), names, tried;
    }
    r := Assemble(filter.value, parsed.value, token);
  }
}
