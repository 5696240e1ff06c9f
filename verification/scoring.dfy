/**
 * The priority scorer of the multi-intersection backend: the tag-to-weight rule table,
 * `compute_score`, the `patient_score` override, and the validation `set_priority_rules` applies
 * before it swaps the table (backend_extended.py).
 */
module Scoring {
  import opened Basics
  import opened Text
  import opened Json

  /** Condition tag (lower case) to integer weight. */
  type Rules = map<string, int>

  /** The table the server starts with. */
  const DefaultRules: Rules := map["pregnant" := 10, "fever" := 2]

  /** What one tag contributes: the weight of its lower-cased form, 0 when the table lacks it. */
  function Weight(rules: Rules, tag: string): int {
    MapGet(rules, Lower(tag), 0)
  }

  /** `compute_score`: the sum of the weights of the patient's tags. */
  function TagScore(rules: Rules, tags: seq<string>): (score: int)
    ensures (forall k :: k in rules ==> rules[k] >= 0) ==> score >= 0
    ensures (forall i :: 0 <= i < |tags| ==> Lower(tags[i]) !in rules) ==> score == 0
  {
    if |tags| == 0 then 0 else Weight(rules, tags[0]) + TagScore(rules, tags[1..])
  }

  /** Scores add up over a concatenation of tag lists: the score is a plain sum. */
  lemma {:induction false} TagScoreAppend(rules: Rules, a: seq<string>, b: seq<string>)
    ensures TagScore(rules, a + b) == TagScore(rules, a) + TagScore(rules, b)
  {
    if |a| == 0 {
      assert a + b == b;
    } else {
      assert (a + b)[1..] == a[1..] + b;
      TagScoreAppend(rules, a[1..], b);
    }
  }

  /**
   * Under any table, one tag scores the weight the table gives its lower-cased form, or 0 when
   * the table has no such key. With `TagScoreAppend` this pins every tag list's score as the sum
   * of its tags' weights.
   */
  lemma TagScoreSingle(rules: Rules, tag: string)
    ensures TagScore(rules, [tag]) == (if Lower(tag) in rules then rules[Lower(tag)] else 0)
  {
  }

  /** After `set_priority_rules` installs `{"fever": 7}`, a patient with "Fever" scores 7. */
  lemma InstalledRulesExample(rules: Rules)
    requires rules == map["fever" := 7]
    ensures TagScore(rules, ["Fever"]) == 7
    ensures TagScore(rules, ["Fever", "pregnant", "fever"]) == 14
  {
    assert Lower("Fever") == "fever";
    assert Lower("pregnant") == "pregnant" && "pregnant" !in rules;
    assert Lower("fever") == "fever";
    TagScoreAppend(rules, ["Fever"], ["pregnant", "fever"]);
    TagScoreAppend(rules, ["pregnant"], ["fever"]);
    assert ["Fever"] + ["pregnant", "fever"] == ["Fever", "pregnant", "fever"];
    assert ["pregnant"] + ["fever"] == ["pregnant", "fever"];
  }

  /** Tags are matched case-insensitively: tag lists equal up to case score the same. */
  lemma {:induction false} TagScoreIgnoresCase(rules: Rules, a: seq<string>, b: seq<string>)
    requires |a| == |b|
    requires forall i :: 0 <= i < |a| ==> Lower(a[i]) == Lower(b[i])
    ensures TagScore(rules, a) == TagScore(rules, b)
  {
    if |a| > 0 {
      TagScoreIgnoresCase(rules, a[1..], b[1..]);
    }
  }

  /** A tag the table does not know adds nothing. */
  lemma UnknownTagAddsNothing(rules: Rules, tags: seq<string>, extra: string)
    requires Lower(extra) !in rules
    ensures TagScore(rules, tags + [extra]) == TagScore(rules, tags)
  {
    TagScoreAppend(rules, tags, [extra]);
  }

  /** With the default table, a pregnant patient with fever scores 10 + 2, whatever the case. */
  lemma DefaultRulesExample()
    ensures TagScore(DefaultRules, ["pregnant", "fever"]) == 12
    ensures TagScore(DefaultRules, ["Pregnant", "FEVER"]) == 12
    ensures TagScore(DefaultRules, ["pregnant", "fever", "fracture"]) == 12
  {
    assert Lower("pregnant") == "pregnant";
    assert Lower("fever") == "fever";
    assert Lower("Pregnant") == "pregnant";
    assert Lower("FEVER") == "fever";
    assert Lower("fracture") == "fracture";
  }

  /**
   * The tags of a `patient_conditions` list, when every item is a string; `None` when some item
   * is not, since `compute_score` then raises on its `.lower()`.
   */
  function TagsOf(conds: seq<Value>): (r: Option<seq<string>>)
    ensures r.Some? <==> forall i :: 0 <= i < |conds| ==> conds[i].Str?
    ensures r.Some? ==> |r.value| == |conds| && forall i :: 0 <= i < |conds| ==> r.value[i] == conds[i].s
  {
    if |conds| == 0 then Some([])
    else if !conds[0].Str? then None
    else match TagsOf(conds[1..])
      case None => None
      case Some(rest) => Some([conds[0].s] + rest)
  }

  lemma TagsOfSingle(tag: string)
    ensures TagsOf([Str(tag)]) == Some([tag])
  {
    assert [Str(tag)][1..] == [];
    assert [tag] == [Str(tag).s] + [];
  }

  /**
   * The score of a report: an int-coercible `patient_score` replaces the tag score outright,
   * whatever the tags are; an absent, `null` or non-coercible one falls back to the tags, and
   * then a tag that is not a string makes the report fail (`None`).
   */
  function PatientScore(rules: Rules, conds: seq<Value>, override: Value): (score: Option<int>)
    ensures ToInt(override).Some? ==> score == ToInt(override)
    ensures ToInt(override).None? ==> (score.Some? <==> forall i :: 0 <= i < |conds| ==> conds[i].Str?)
    ensures ToInt(override).None? && score.Some? ==> score.value == TagScore(rules, TagsOf(conds).value)
  {
    match ToInt(override)
    case Some(n) => Some(n)
    case None =>
      match TagsOf(conds)
      case Some(tags) => Some(TagScore(rules, tags))
      case None => None
  }

  /**
   * The override is not additive: tags are ignored once it coerces, even tags that are not
   * strings; a non-coercible override is treated like no override at all.
   */
  lemma OverrideReplacesTags(rules: Rules, conds: seq<Value>)
    ensures PatientScore(rules, conds, Int(5)) == Some(5)
    ensures PatientScore(rules, conds, Str(" 5 ")) == Some(5)
    ensures PatientScore(rules, conds, Float(-2.5)) == Some(-2)
    ensures PatientScore(rules, conds, Str("high")) == PatientScore(rules, conds, Null)
    ensures PatientScore(rules, [Str("fever"), Int(3)], Null) == None
    ensures PatientScore(rules, [Int(3)], Int(7)) == Some(7)
  {
    ToIntSamples();
    assert ![Str("fever"), Int(3)][1].Str?;
  }

  // ---------------------------------------------------------------------------
  // Replacing the table
  // ---------------------------------------------------------------------------

  datatype RulesError =
    | NotAnObject                      // "rules must be an object/dict"
    | InvalidRuleValue(key: string)    // "invalid rule value for <key>"

  /**
   * Builds the new table from the request's entries in order: every key lower-cased, every value
   * through `int()`; a later entry overwrites an earlier one with the same lowered key, and the
   * first value `int()` refuses aborts the whole build.
   */
  function BuildRules(fields: seq<(string, Value)>): (r: Result<Rules, RulesError>)
    ensures r.Ok? <==> forall i :: 0 <= i < |fields| ==> ToInt(fields[i].1).Some?
    ensures r.Ok? ==> forall k :: k in r.value ==> Lower(k) == k
    ensures r.Err? ==> r.error.InvalidRuleValue?
  {
    if |fields| == 0 then Ok(map[])
    else
      var prefix := fields[..|fields| - 1];
      var last := fields[|fields| - 1];
      assert forall i :: 0 <= i < |prefix| ==> prefix[i] == fields[i];
      match BuildRules(prefix)
      case Err(e) => Err(e)
      case Ok(m) =>
        match ToInt(last.1)
        case None => Err(InvalidRuleValue(last.0))
        case Some(n) =>
          LowerIdempotent(last.0);
          Ok(m[Lower(last.0) := n])
  }

  /** `set_priority_rules`' validation: the request's `rules` must be a JSON object. */
  function ParseRules(input: Option<Value>): (r: Result<Rules, RulesError>)
    ensures r.Ok? <==> input.Some? && input.value.Object?
                       && forall i :: 0 <= i < |input.value.fields| ==> ToInt(input.value.fields[i].1).Some?
    ensures (input.None? || !input.value.Object?) ==> r == Err(NotAnObject)
  {
    if input.Some? && input.value.Object? then BuildRules(input.value.fields) else Err(NotAnObject)
  }

  /** Reference reading of the table: the value of the LAST entry whose lowered key is `key`. */
  function LastRule(fields: seq<(string, Value)>, key: string): Option<int> {
    if |fields| == 0 then None
    else if Lower(fields[|fields| - 1].0) == key then ToInt(fields[|fields| - 1].1)
    else LastRule(fields[..|fields| - 1], key)
  }

  /**
   * A successful build holds exactly the lowered keys of the request, each mapped to the
   * value of the last entry that spells it (in any case).
   */
  lemma {:induction false} BuildRulesLastWins(fields: seq<(string, Value)>, key: string)
    requires BuildRules(fields).Ok?
    ensures key in BuildRules(fields).value <==> LastRule(fields, key).Some?
    ensures key in BuildRules(fields).value ==> Some(BuildRules(fields).value[key]) == LastRule(fields, key)
  {
    if |fields| > 0 {
      BuildRulesLastWins(fields[..|fields| - 1], key);
    }
  }

  /** The reported error names the first entry, in request order, whose value `int()` refuses. */
  lemma {:induction false} BuildRulesNamesFirstInvalid(fields: seq<(string, Value)>)
    requires BuildRules(fields).Err?
    ensures exists i :: 0 <= i < |fields| && ToInt(fields[i].1).None?
                       && BuildRules(fields).error == InvalidRuleValue(fields[i].0)
                       && forall j :: 0 <= j < i ==> ToInt(fields[j].1).Some?
  {
    var prefix := fields[..|fields| - 1];
    assert forall j :: 0 <= j < |prefix| ==> prefix[j] == fields[j];
    if BuildRules(prefix).Err? {
      assert BuildRules(fields) == BuildRules(prefix);
      BuildRulesNamesFirstInvalid(prefix);
      var i :| 0 <= i < |prefix| && ToInt(prefix[i].1).None?
               && BuildRules(prefix).error == InvalidRuleValue(prefix[i].0)
               && forall j :: 0 <= j < i ==> ToInt(prefix[j].1).Some?;
      assert fields[i] == prefix[i];
    } else {
      var i := |fields| - 1;
      assert ToInt(fields[i].1).None?;
      assert BuildRules(fields).error == InvalidRuleValue(fields[i].0);
    }
  }

}
