/** validate_rules: required keys, duplicate ids and the word limit of each
    rule's text. */
module Rules {
  import opened Words
  import opened Content

  /** A rules file the validator can walk without raising: a list of
      objects with hashable ids whose "text", when present, is a string. */
  predicate RulesDocOk(doc: Value)
  {
    IsRecordList(doc, "rules")
    && forall i :: 0 <= i < |Entries(doc, "rules")| ==> StrOrAbsent(Entries(doc, "rules")[i], "text")
  }

  /** Whether a rule's text (empty when absent) is over the word limit. */
  predicate TextTooLong(r: Record)
  {
    !ValidateWordCount(StrField(r, "text"))
  }

  /** The errors for one rule, given the ids of the rules before it. */
  function RuleRecordErrors(r: Record, seen: set<Value>): seq<Error>
  {
    MissingKeys(InRules, IdOf(r), r, RuleKeys)
    + (if IdOf(r) in seen then [DuplicateId(InRules, IdOf(r))] else [])
    + (if TextTooLong(r) then [Error.TextTooLong(InRules, IdOf(r), StrField(r, "text"))] else [])
  }

  /** All errors for a rule list, in the order the loop emits them; the
      seen-set starts empty on every call. */
  function RuleErrors(rs: seq<Record>): seq<Error>
    decreases |rs|
  {
    if rs == [] then []
    else
      var n := |rs| - 1;
      RuleErrors(rs[..n]) + RuleRecordErrors(rs[n], IdsOf(rs[..n]))
  }

  /** One more rule: its errors follow those of the rules before it. */
  lemma RuleErrorsStep(rs: seq<Record>, i: nat)
    requires i < |rs|
    ensures RuleErrors(rs[..i + 1]) == RuleErrors(rs[..i]) + RuleRecordErrors(rs[i], IdsOf(rs[..i]))
    ensures IdsOf(rs[..i + 1]) == IdsOf(rs[..i]) + {IdOf(rs[i])}
  {
    assert rs[..i + 1][..i] == rs[..i];
  }

  /** validate_rules. */
  method ValidateRules(rulesData: Value) returns (errors: seq<Error>)
    requires RulesDocOk(rulesData)
    ensures errors == RuleErrors(Entries(rulesData, "rules"))
  {
    var rules := Entries(rulesData, "rules");
    errors := [];
    var seenIds: set<Value> := {};
    for i := 0 to |rules|
      invariant errors == RuleErrors(rules[..i])
      invariant seenIds == IdsOf(rules[..i])
    {
      RuleErrorsStep(rules, i);
      var rule := rules[i];
      var rid := IdOf(rule);
      var found := CheckRequiredKeys(InRules, rid, rule, RuleKeys);
      if rid in seenIds {
        found := found + [DuplicateId(InRules, rid)];
      }
      seenIds := seenIds + {rid};
      var text := StrField(rule, "text");
      if !ValidateWordCount(text) {
        found := found + [Error.TextTooLong(InRules, rid, text)];
      }
      errors := errors + found;
    }
    assert rules[..|rules|] == rules;
  }

  /** Rule errors are missing keys, duplicate ids and over-long texts, all
      tagged as rules. */
  lemma {:induction false} RuleErrorsKinds(rs: seq<Record>)
    ensures forall e :: e in RuleErrors(rs) ==> (e.MissingKey? || e.DuplicateId? || e.TextTooLong?) && e.at == InRules
    decreases |rs|
  {
    if rs != [] {
      var n := |rs| - 1;
      RuleErrorsKinds(rs[..n]);
      MissingKeysKinds(InRules, IdOf(rs[n]), rs[n], RuleKeys);
    }
  }

  /** Counts of each kind for one rule. */
  lemma RuleRecordCounts(r: Record, seen: set<Value>)
    ensures Count(RuleRecordErrors(r, seen), IsDuplicate) == if IdOf(r) in seen then 1 else 0
    ensures Count(RuleRecordErrors(r, seen), IsTextTooLong) == if TextTooLong(r) then 1 else 0
  {
    var missing := MissingKeys(InRules, IdOf(r), r, RuleKeys);
    var dupe := DuplicateId(InRules, IdOf(r));
    var long := Error.TextTooLong(InRules, IdOf(r), StrField(r, "text"));
    var dupPart := if IdOf(r) in seen then [dupe] else [];
    var longPart := if TextTooLong(r) then [long] else [];
    MissingKeysOnlyMissing(InRules, IdOf(r), r, RuleKeys);
    CountOptional(IdOf(r) in seen, dupe, IsDuplicate);
    CountOptional(IdOf(r) in seen, dupe, IsTextTooLong);
    CountOptional(TextTooLong(r), long, IsDuplicate);
    CountOptional(TextTooLong(r), long, IsTextTooLong);
    CountAppend(missing, dupPart, IsDuplicate);
    CountAppend(missing + dupPart, longPart, IsDuplicate);
    CountAppend(missing, dupPart, IsTextTooLong);
    CountAppend(missing + dupPart, longPart, IsTextTooLong);
  }

  /** One "Duplicate ID" error per rule whose id is that of an earlier rule. */
  lemma {:induction false} RuleDuplicateCount(rs: seq<Record>)
    ensures Count(RuleErrors(rs), IsDuplicate) == DupCount(rs, {})
    decreases |rs|
  {
    if rs != [] {
      var n := |rs| - 1;
      RuleDuplicateCount(rs[..n]);
      RuleRecordCounts(rs[n], IdsOf(rs[..n]));
      CountAppend(RuleErrors(rs[..n]), RuleRecordErrors(rs[n], IdsOf(rs[..n])), IsDuplicate);
      assert {} + IdsOf(rs[..n]) == IdsOf(rs[..n]);
    }
  }

  /** The number of "Duplicate ID" errors is the number of rules minus the
      number of distinct rule ids; none exactly when the ids are distinct. */
  lemma RuleDuplicates(rs: seq<Record>)
    ensures Count(RuleErrors(rs), IsDuplicate) == |rs| - |IdsOf(rs)|
    ensures Count(RuleErrors(rs), IsDuplicate) == 0 <==> DistinctIds(rs)
  {
    RuleDuplicateCount(rs);
    DupCountCard(rs, {});
    assert {} + IdsOf(rs) == IdsOf(rs);
    NoDupIffDistinct(rs);
  }

  /** The positions of the rules whose text is over the word limit. */
  function LongRules(rs: seq<Record>): set<int>
  {
    set i | 0 <= i < |rs| && TextTooLong(rs[i])
  }

  lemma LongRulesSnoc(rs: seq<Record>)
    requires rs != []
    ensures |LongRules(rs)| == |LongRules(rs[..|rs| - 1])| + if TextTooLong(rs[|rs| - 1]) then 1 else 0
  {
    var n := |rs| - 1;
    var before := LongRules(rs[..n]);
    var last: set<int> := if TextTooLong(rs[n]) then {n} else {};
    forall i | 0 <= i < n ensures i in LongRules(rs) <==> i in before {
      assert rs[..n][i] == rs[i];
    }
    assert LongRules(rs) == before + last;
    assert n !in before;
  }

  /** "text exceeds 8 words" is emitted once for each rule whose text has
      more than eight words, and for no other rule. */
  lemma {:induction false} RuleTextTooLongCount(rs: seq<Record>)
    ensures Count(RuleErrors(rs), IsTextTooLong) == |LongRules(rs)|
    decreases |rs|
  {
    if rs != [] {
      var n := |rs| - 1;
      RuleTextTooLongCount(rs[..n]);
      RuleRecordCounts(rs[n], IdsOf(rs[..n]));
      CountAppend(RuleErrors(rs[..n]), RuleRecordErrors(rs[n], IdsOf(rs[..n])), IsTextTooLong);
      LongRulesSnoc(rs);
    }
  }

  /** Each text-too-long error names a rule, its id and its text, which has
      more than eight words. */
  lemma {:induction false} RuleTextTooLongSound(rs: seq<Record>, e: Error)
    requires e in RuleErrors(rs) && e.TextTooLong?
    ensures exists i :: 0 <= i < |rs| && TextTooLong(rs[i]) && e == Error.TextTooLong(InRules, IdOf(rs[i]), StrField(rs[i], "text"))
    ensures CountWords(e.text) > MaxWords
    decreases |rs|
  {
    var n := |rs| - 1;
    if e in RuleErrors(rs[..n]) {
      RuleTextTooLongSound(rs[..n], e);
      var i :| 0 <= i < n && TextTooLong(rs[..n][i]) && e == Error.TextTooLong(InRules, IdOf(rs[..n][i]), StrField(rs[..n][i], "text"));
      assert rs[..n][i] == rs[i];
    } else {
      MissingKeysKinds(InRules, IdOf(rs[n]), rs[n], RuleKeys);
    }
  }

  /** A rule that has its keys and a text within the limit. */
  predicate RuleClean(r: Record)
  {
    HasKeys(r, RuleKeys) && !TextTooLong(r)
  }

  /** One rule contributes no error exactly when it is clean and its id is new. */
  lemma RuleRecordEmpty(r: Record, seen: set<Value>)
    ensures RuleRecordErrors(r, seen) == [] <==> RuleClean(r) && IdOf(r) !in seen
  {
    MissingKeysEmpty(InRules, IdOf(r), r, RuleKeys);
  }

  predicate AllRulesClean(rs: seq<Record>)
  {
    forall i :: 0 <= i < |rs| ==> RuleClean(rs[i])
  }

  lemma AllRulesCleanSnoc(rs: seq<Record>)
    requires rs != []
    ensures AllRulesClean(rs) <==> AllRulesClean(rs[..|rs| - 1]) && RuleClean(rs[|rs| - 1])
  {
    assert forall i :: 0 <= i < |rs| - 1 ==> rs[..|rs| - 1][i] == rs[i];
  }

  /** The rule list yields no error at all exactly when every rule has all
      required keys and a text within the limit, and the ids are distinct. */
  lemma {:induction false} RuleErrorsEmpty(rs: seq<Record>)
    ensures RuleErrors(rs) == [] <==> AllRulesClean(rs) && DistinctIds(rs)
    decreases |rs|
  {
    if rs != [] {
      var n := |rs| - 1;
      var a, b := RuleErrors(rs[..n]), RuleRecordErrors(rs[n], IdsOf(rs[..n]));
      RuleErrorsEmpty(rs[..n]);
      RuleRecordEmpty(rs[n], IdsOf(rs[..n]));
      DistinctIdsSnoc(rs);
      AllRulesCleanSnoc(rs);
      assert RuleErrors(rs) == a + b;
      assert |a + b| == |a| + |b|;
    }
  }
}
