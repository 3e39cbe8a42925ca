/** The C++ analyzer: nine fixed rules with feature tags, the cutoff split, and the
    Oxford-comma summary. */
module CppAnalyzer {
  import opened Core
  import opened Text
  import opened Assembly
  import opened Envelopes
  import opened Rules

  /** Which of the nine patterns were found in the code. */
  datatype Scan = Scan(
    headers: bool, namespace: bool, classes: bool, main: bool, functions: bool,
    output: bool, input: bool, conditional: bool, loops: bool)

  /** The sentences of the rules, in the order they are consulted. */
  const CppFragments := [
    "This C++ code includes header files.",
    "This code uses the standard namespace.",
    "This code defines C++ classes.",
    "This code contains a main function - the program entry point.",
    "This code defines functions.",
    "This code outputs text to the console.",
    "This code reads input from users.",
    "This code contains conditional logic.",
    "This code uses loops for repetition."]

  /** The feature tag of each rule; the namespace rule carries none. */
  const CppTags := [
    Some("uses external C++ libraries"),
    None,
    Some("creates object-oriented classes"),
    Some("serves as a program starting point"),
    Some("defines reusable functions"),
    Some("displays output to users"),
    Some("gets information from users"),
    Some("makes decisions based on conditions"),
    Some("repeats operations multiple times")]

  const CppRules := Table(CppFragments, CppTags)

  const CppSubject := "this C++ code"
  const GenericFeature := "performs basic programming operations."

  function Fired(s: Scan): (r: seq<bool>)
    ensures |r| == |CppRules|
  {
    [s.headers, s.namespace, s.classes, s.main, s.functions, s.output, s.input, s.conditional, s.loops]
  }

  /** `analyze_cpp`. The fallback sentence it computes first is overwritten
      before use, so the explanation is the plain join of the fired fragments. */
  function AnalyzeCpp(outcome: Detection<Scan>): (r: Envelope<Entry, Entry, Entry, Entry>)
    ensures r.language == "c++"
    ensures r.functions == [] && r.classes == [] && r.variables == [] && r.imports == []
    ensures r.metadata.error <==> outcome.Crashed?
    ensures outcome.Detected? ==>
      && r.full == Join(FiredFragments(CppRules, Fired(outcome.scan)), " ")
      && Split(r.summary, r.details) == CutoffSplit(r.full)
      && r.userFriendly == Some(FeatureSummary(CppSubject, GenericFeature, FiredTags(CppRules, Fired(outcome.scan))))
    ensures outcome.Crashed? ==>
      && r.userFriendly.None?
      && r.summary == "C++ analysis error: " + outcome.message
      && r.full == "Error during analysis: " + outcome.message
  {
    match outcome
    case Detected(s) =>
      var full := Join(FiredFragments(CppRules, Fired(s)), " ");
      var split := CutoffSplit(full);
      var friendly := FeatureSummary(CppSubject, GenericFeature, FiredTags(CppRules, Fired(s)));
      Envelope(split.summary, Some(friendly), split.details, full, [], [], [], [], "c++", RuleMetadata)
    case Crashed(msg) =>
      AnalysisError("C++ analysis error: " + msg, None, "An error occurred while analyzing the C++ code.", msg, "c++")
  }

  /** Each rule's sentence appears exactly when its pattern was found, and at most once. */
  lemma CppFragmentsFire(s: Scan)
    ensures forall k :: 0 <= k < |CppRules| ==>
      (CppRules[k].fragment in FiredFragments(CppRules, Fired(s)) <==> Fired(s)[k])
    ensures Distinct(FiredFragments(CppRules, Fired(s)))
  {
    CppFragmentsDistinct();
    forall k | 0 <= k < |CppRules|
      ensures CppRules[k].fragment in FiredFragments(CppRules, Fired(s)) <==> Fired(s)[k]
    {
      FragmentIffFired(CppRules, Fired(s), k);
    }
    FragmentIffFired(CppRules, Fired(s), 0);
  }

  /** Each feature tag appears exactly when its rule fired. */
  lemma CppTagsFire(s: Scan)
    ensures forall k :: 0 <= k < |CppRules| && CppRules[k].tag.Some? ==>
      (CppRules[k].tag.value in FiredTags(CppRules, Fired(s)) <==> Fired(s)[k])
  {
    CppTagsDistinct();
    forall k | 0 <= k < |CppRules| && CppRules[k].tag.Some?
      ensures CppRules[k].tag.value in FiredTags(CppRules, Fired(s)) <==> Fired(s)[k]
    {
      TagIffFired(CppRules, Fired(s), k);
    }
  }

  /** The namespace rule adds a sentence but no feature: found alone, the user-friendly
      summary falls back to the generic sentence. */
  lemma CppNamespaceUntagged(s: Scan)
    requires s == Scan(false, true, false, false, false, false, false, false, false)
    ensures FiredTags(CppRules, Fired(s)) == []
    ensures AnalyzeCpp(Detected(s)).userFriendly == Some("In simple terms, " + CppSubject + " " + GenericFeature)
  {
    NoTagsWhenUntagged(CppRules, Fired(s));
  }

  lemma CppFragmentsDistinct()
    ensures Distinct(RuleFragments(CppRules))
  {
    CppFragmentTextsDistinct();
  }

  /** The sentences differ in length, or else at one position. */
  lemma CppFragmentTextsDistinct()
    ensures Distinct(CppFragments)
  {
    var t := CppFragments;
    assert |t[0]| == 36 && |t[1]| == 38 && |t[2]| == 30 && |t[3]| == 61 && |t[4]| == 28;
    assert |t[5]| == 38 && |t[6]| == 33 && |t[7]| == 37 && |t[8]| == 36;
    assert t[0][5] != t[8][5] && t[1][10] != t[5][10];
  }

  lemma CppTagsDistinct()
    ensures DistinctTags(CppRules)
  {
    CppTagTextsDistinct();
  }

  /** The tags differ in length, or else in their first letter. */
  lemma CppTagTextsDistinct()
    ensures DistinctSome(CppTags)
  {
    var t := CppTags;
    assert |t[0].value| == 27 && |t[2].value| == 31 && |t[3].value| == 34 && |t[4].value| == 26;
    assert |t[5].value| == 24 && |t[6].value| == 27 && |t[7].value| == 35 && |t[8].value| == 33;
    assert t[0].value[0] != t[6].value[0];
  }

  /** With no pattern found everything is empty: the discarded fallback never reaches the
      record, and the user-friendly summary is the generic sentence. */
  lemma CppNothingFound(s: Scan)
    requires forall k :: 0 <= k < |Fired(s)| ==> !Fired(s)[k]
    ensures AnalyzeCpp(Detected(s)).full == ""
    ensures AnalyzeCpp(Detected(s)).summary == "" && AnalyzeCpp(Detected(s)).details == ""
    ensures AnalyzeCpp(Detected(s)).userFriendly == Some("In simple terms, " + CppSubject + " " + GenericFeature)
  {
    assert FiredFragments(CppRules, Fired(s)) == [];
    NoTagsWhenUntagged(CppRules, Fired(s));
  }
}
