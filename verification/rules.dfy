/** The fixed detection rules of the pattern analyzers. Matching is outside the model:
    whether each rule's pattern was found in the code arrives as one boolean per rule.
    A rule that fired contributes its sentence fragment and, when it has one, its
    feature tag; rules are consulted in table order. */
module Rules {
  import opened Core
  import opened Text
  import opened Assembly
  import opened Envelopes

  datatype Rule = Rule(fragment: string, tag: Option<string>)

  function RuleFragments(rules: seq<Rule>): (r: seq<string>)
    ensures |r| == |rules|
    ensures forall k :: 0 <= k < |r| ==> r[k] == rules[k].fragment
  {
    seq(|rules|, k requires 0 <= k < |rules| => rules[k].fragment)
  }

  function RuleTags(rules: seq<Rule>): (r: seq<Option<string>>)
    ensures |r| == |rules|
    ensures forall k :: 0 <= k < |r| ==> r[k] == rules[k].tag
  {
    seq(|rules|, k requires 0 <= k < |rules| => rules[k].tag)
  }

  /** A rule table given as its fragments and, at the same positions, their tags. */
  function Table(fragments: seq<string>, tags: seq<Option<string>>): (r: seq<Rule>)
    requires |fragments| == |tags|
    ensures |r| == |fragments|
    ensures forall k :: 0 <= k < |r| ==> r[k] == Rule(fragments[k], tags[k])
    ensures RuleFragments(r) == fragments && RuleTags(r) == tags
  {
    seq(|fragments|, k requires 0 <= k < |fragments| => Rule(fragments[k], tags[k]))
  }

  /** The tags that are present, in order. */
  function Present(tags: seq<Option<string>>): (r: seq<string>)
    ensures |r| <= |tags|
    ensures forall t :: t in r <==> Some(t) in tags
  {
    if tags == [] then []
    else (match tags[0] case Some(t) => [t] case None => []) + Present(tags[1..])
  }

  /** The fragments of the rules that fired, in table order. */
  function FiredFragments(rules: seq<Rule>, fired: seq<bool>): (r: seq<string>)
    requires |fired| == |rules|
    ensures |r| == |FiredIndices(fired)|
    ensures forall n :: 0 <= n < |r| ==> r[n] == rules[FiredIndices(fired)[n]].fragment
  {
    SelectedByIndices(RuleFragments(rules), fired);
    Selected(RuleFragments(rules), fired)
  }

  /** The tags of the rules that fired, in table order; a rule without a tag adds none. */
  function FiredTags(rules: seq<Rule>, fired: seq<bool>): (r: seq<string>)
    requires |fired| == |rules|
    ensures forall t :: t in r <==> exists k :: 0 <= k < |rules| && fired[k] && rules[k].tag == Some(t)
  {
    var chosen := Selected(RuleTags(rules), fired);
    forall t
      ensures Some(t) in chosen <==> exists k :: 0 <= k < |rules| && fired[k] && rules[k].tag == Some(t)
    {
      ChosenTag(rules, fired, t);
    }
    Present(chosen)
  }

  lemma ChosenTag(rules: seq<Rule>, fired: seq<bool>, t: string)
    requires |fired| == |rules|
    ensures Some(t) in Selected(RuleTags(rules), fired)
      <==> exists k :: 0 <= k < |rules| && fired[k] && rules[k].tag == Some(t)
  {
    var chosen := Selected(RuleTags(rules), fired);
    if Some(t) in chosen {
      var n :| 0 <= n < |chosen| && chosen[n] == Some(t);
      var k :| 0 <= k < |rules| && fired[k] && RuleTags(rules)[k] == chosen[n];
      assert rules[k].tag == Some(t);
    }
    if exists k :: 0 <= k < |rules| && fired[k] && rules[k].tag == Some(t) {
      var k :| 0 <= k < |rules| && fired[k] && rules[k].tag == Some(t);
      assert RuleTags(rules)[k] in chosen;
    }
  }

  /** A rule's fragment appears exactly when it fired, provided no two rules share a
      fragment; then no fragment appears twice either. */
  lemma FragmentIffFired(rules: seq<Rule>, fired: seq<bool>, k: nat)
    requires |fired| == |rules| && k < |rules|
    requires Distinct(RuleFragments(rules))
    ensures rules[k].fragment in FiredFragments(rules, fired) <==> fired[k]
    ensures Distinct(FiredFragments(rules, fired))
  {
    SelectedExactlyFired(RuleFragments(rules), fired);
  }

  /** No present tag occurs twice in the list. */
  ghost predicate DistinctSome(tags: seq<Option<string>>)
  {
    forall i, j :: 0 <= i < |tags| && 0 <= j < |tags| && i != j && tags[i].Some? ==> tags[i] != tags[j]
  }

  /** No two rules carry the same tag. */
  ghost predicate DistinctTags(rules: seq<Rule>)
  {
    DistinctSome(RuleTags(rules))
  }

  /** With distinct tags, a rule's tag is among the tags exactly when the rule fired. */
  lemma TagIffFired(rules: seq<Rule>, fired: seq<bool>, k: nat)
    requires |fired| == |rules| && k < |rules| && rules[k].tag.Some?
    requires DistinctTags(rules)
    ensures rules[k].tag.value in FiredTags(rules, fired) <==> fired[k]
  {
  }

  /** Rules without a tag add nothing: when no tagged rule fired there are no tags. */
  lemma NoTagsWhenUntagged(rules: seq<Rule>, fired: seq<bool>)
    requires |fired| == |rules|
    requires forall k :: 0 <= k < |rules| && fired[k] ==> rules[k].tag.None?
    ensures FiredTags(rules, fired) == []
  {
    var chosen := Selected(RuleTags(rules), fired);
    assert forall n :: 0 <= n < |chosen| ==> chosen[n].None?;
    PresentAllNone(chosen);
  }

  lemma {:induction false} PresentAllNone(tags: seq<Option<string>>)
    requires forall k :: 0 <= k < |tags| ==> tags[k].None?
    ensures Present(tags) == []
    decreases |tags|
  {
    if tags != [] {
      PresentAllNone(tags[1..]);
    }
  }

  /** When every rule carries a tag, the tags follow the fired rules one for one, in
      table order. */
  lemma FiredTagsInOrder(rules: seq<Rule>, fired: seq<bool>)
    requires |fired| == |rules|
    requires forall k :: 0 <= k < |rules| ==> rules[k].tag.Some?
    ensures |FiredTags(rules, fired)| == |FiredIndices(fired)|
    ensures forall n :: 0 <= n < |FiredIndices(fired)| ==>
      FiredTags(rules, fired)[n] == rules[FiredIndices(fired)[n]].tag.value
  {
    var chosen := Selected(RuleTags(rules), fired);
    SelectedByIndices(RuleTags(rules), fired);
    PresentAllSome(chosen);
  }

  lemma {:induction false} PresentAllSome(tags: seq<Option<string>>)
    requires forall k :: 0 <= k < |tags| ==> tags[k].Some?
    ensures |Present(tags)| == |tags|
    ensures forall k :: 0 <= k < |tags| ==> Present(tags)[k] == tags[k].value
    decreases |tags|
  {
    if tags != [] {
      PresentAllSome(tags[1..]);
    }
  }

  /** The fragments of the simple analyzers: those of the rules that fired, or the
      fallback sentence when none did. */
  function SimpleParts(rules: seq<Rule>, fired: seq<bool>, fallback: string): (r: seq<string>)
    requires |fired| == |rules|
    ensures r != []
    ensures r == [fallback] || r == FiredFragments(rules, fired)
    ensures (forall k :: 0 <= k < |fired| ==> !fired[k]) <==> r == [fallback] && FiredFragments(rules, fired) == []
  {
    var parts := FiredFragments(rules, fired);
    if parts == [] then [fallback] else parts
  }

  /** The success record of a simple analyzer: the fragments joined by " ", the
      200-character cutoff, no lists and no user-friendly summary. */
  function SimpleReport<F, C, V, I>(rules: seq<Rule>, fired: seq<bool>, fallback: string, language: string)
    : (r: Envelope<F, C, V, I>)
    requires |fired| == |rules|
    ensures r.full == Join(SimpleParts(rules, fired, fallback), " ")
    ensures Split(r.summary, r.details) == CutoffSplit(r.full)
    ensures r.userFriendly.None? && !r.metadata.error && r.metadata == RuleMetadata
    ensures r.functions == [] && r.classes == [] && r.variables == [] && r.imports == []
    ensures r.language == language
  {
    var full := Join(SimpleParts(rules, fired, fallback), " ");
    var split := CutoffSplit(full);
    Envelope(split.summary, None, split.details, full, [], [], [], [], language, RuleMetadata)
  }

  /** With no rule fired a simple analyzer explains the code with its fallback sentence
      alone, which a short fallback leaves uncut. */
  lemma SimpleFallback<F, C, V, I>(rules: seq<Rule>, fired: seq<bool>, fallback: string, language: string)
    requires |fired| == |rules|
    requires forall k :: 0 <= k < |fired| ==> !fired[k]
    requires |fallback| <= SummaryCutoff
    ensures var r: Envelope<F, C, V, I> := SimpleReport(rules, fired, fallback, language);
      r.full == fallback && r.summary == fallback && r.details == ""
  {
  }

  /** A simple analyzer's explanation opens with its first fragment, so it is never
      empty when the fallback and every fragment are non-empty. */
  lemma SimpleFullNonEmpty(rules: seq<Rule>, fired: seq<bool>, fallback: string)
    requires |fired| == |rules|
    requires fallback != [] && forall k :: 0 <= k < |rules| ==> rules[k].fragment != []
    ensures var parts := SimpleParts(rules, fired, fallback);
      StartsWith(Join(parts, " "), parts[0]) && Join(parts, " ") != []
  {
    var parts := SimpleParts(rules, fired, fallback);
    JoinStartsWithFirst(parts, " ");
    if parts != [fallback] {
      assert parts[0] == rules[FiredIndices(fired)[0]].fragment;
    }
  }

  /** An error record of a rule-based analyzer: "Error during analysis: " and the message
      as the full explanation. */
  function AnalysisError<F, C, V, I>(summary: string, userFriendly: Option<string>, details: string,
                                     message: string, language: string): (r: Envelope<F, C, V, I>)
    ensures IsErrorEnvelope(r) && r.metadata == RuleErrorMetadata
    ensures r.full == "Error during analysis: " + message
    ensures r.summary == summary && r.userFriendly == userFriendly && r.details == details
    ensures r.language == language
  {
    RuleError(summary, userFriendly, details, "Error during analysis: " + message, language)
  }
}
