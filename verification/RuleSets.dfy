/** Admission of a rule set before it is built into a blocklist. */
module RuleSets {
  import opened Basics
  import opened DomainNames

  datatype UpdateLimits = UpdateLimits(maximumRuleCount: nat, maximumRuleBytes: nat)

  datatype Measurement = Measurement(rawBytes: nat, normalizedBytes: nat)

  datatype LimitCode = RuleCountLimitExceeded | RuleBytesLimitExceeded

  datatype LimitError = LimitError(code: LimitCode, actual: nat, limit: nat)

  type Rules = seq<seq<Byte>>

  function RawBytes(rules: Rules): nat {
    if rules == [] then 0 else RawBytes(rules[..|rules| - 1]) + |rules[|rules| - 1]|
  }

  /** The octets of a rule's canonical key; rules that are not names count nothing here. */
  function KeyBytes(rule: seq<Byte>): nat {
    var parsed := Parse(rule);
    if parsed.Ok? then |parsed.value.canonicalKey| else 0
  }

  function NormalizedBytes(rules: Rules): nat {
    if rules == [] then 0 else NormalizedBytes(rules[..|rules| - 1]) + KeyBytes(rules[|rules| - 1])
  }

  lemma {:induction false} PrefixBytes(rules: Rules, k: nat)
    requires k <= |rules|
    ensures RawBytes(rules[..k]) <= RawBytes(rules) && NormalizedBytes(rules[..k]) <= NormalizedBytes(rules)
    decreases |rules|
  {
    if k < |rules| {
      var front := rules[..|rules| - 1];
      PrefixBytes(front, k);
      assert front[..k] == rules[..k];
    } else {
      assert rules[..k] == rules;
    }
  }

  /**
   * A rule set is admitted exactly when its count and both of its sizes are
   * within the limits. The check against a limit never adds past it, so no sum
   * overflows a 64-bit word.
   */
  method ValidateRuleSet(rules: Rules, limits: UpdateLimits) returns (r: Result<Measurement, LimitError>)
    requires limits.maximumRuleBytes <= MAX_WORD && forall i :: 0 <= i < |rules| ==> |rules[i]| <= MAX_WORD
    ensures r.Ok? <==>
              |rules| <= limits.maximumRuleCount && RawBytes(rules) <= limits.maximumRuleBytes && NormalizedBytes(rules) <= limits.maximumRuleBytes
    ensures r.Ok? ==> r.value == Measurement(RawBytes(rules), NormalizedBytes(rules))
    ensures r.Err? ==> (r.error.code == RuleCountLimitExceeded <==> |rules| > limits.maximumRuleCount)
    ensures r.Err? && r.error.code == RuleCountLimitExceeded ==> r.error == LimitError(RuleCountLimitExceeded, |rules|, limits.maximumRuleCount)
    ensures r.Err? && r.error.code == RuleBytesLimitExceeded ==>
              r.error.limit == limits.maximumRuleBytes && (r.error.actual > r.error.limit || r.error.actual == MAX_WORD)
  {
    if |rules| > limits.maximumRuleCount {
      return Err(LimitError(RuleCountLimitExceeded, |rules|, limits.maximumRuleCount));
    }
    var limit := limits.maximumRuleBytes;
    var raw, normalized := 0, 0;
    for k := 0 to |rules|
      invariant raw == RawBytes(rules[..k]) <= limit && normalized == NormalizedBytes(rules[..k]) <= limit
    {
      var rule := rules[k];
      assert rules[..k + 1][..k] == rules[..k];
      PrefixBytes(rules, k + 1);
      if |rule| > limit - Min(raw, limit) {
        return Err(LimitError(RuleBytesLimitExceeded, SaturatedAdd(raw, |rule|), limit));
      }
      raw := raw + |rule|;
      var parsed := FromText(rule);
      if parsed.Err? {
        continue;
      }
      var bytes := |parsed.value.canonicalKey|;
      if bytes > limit - Min(normalized, limit) {
        return Err(LimitError(RuleBytesLimitExceeded, SaturatedAdd(normalized, bytes), limit));
      }
      normalized := normalized + bytes;
    }
    assert rules[..|rules|] == rules;
    r := Ok(Measurement(raw, normalized));
  }
}
