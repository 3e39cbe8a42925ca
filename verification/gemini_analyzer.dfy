/** The Gemini-backed explainer: the language context its prompt is built from, and how
    the reply text is sorted into summary lines and detail lines and wrapped in the
    result record. The network call is outside the model: what the service answered (or
    the exception it raised) is an input. */
module GeminiAnalyzer {
  import opened Core
  import opened Text
  import opened Assembly
  import opened Envelopes

  // ---------------------------------------------------------------------------
  // Prompt

  /** What the prompt says about a language. */
  datatype LanguageContext = LanguageContext(description: string, features: string, patterns: string)

  const PythonContext := LanguageContext(
    "Python programming language",
    "dynamic typing, object-oriented programming, functional programming, extensive standard library",
    "functions, classes, decorators, list comprehensions, context managers")
  const JavaScriptContext := LanguageContext(
    "JavaScript programming language",
    "dynamic typing, event-driven programming, asynchronous programming, DOM manipulation",
    "functions, arrow functions, promises, async/await, objects, arrays")
  const JavaContext := LanguageContext(
    "Java programming language",
    "static typing, object-oriented programming, platform independence, strong type system",
    "classes, interfaces, inheritance, polymorphism, exception handling")
  const CppContext := LanguageContext(
    "C++ programming language",
    "static typing, low-level control, object-oriented programming, template metaprogramming",
    "classes, templates, pointers, memory management, RAII")
  const CContext := LanguageContext(
    "C programming language",
    "static typing, procedural programming, low-level control, manual memory management",
    "functions, structures, pointers, arrays, manual memory allocation")

  /** The contexts by lower-case language key. */
  const Contexts: map<string, LanguageContext> := map[
    "python" := PythonContext, "javascript" := JavaScriptContext, "java" := JavaContext,
    "cpp" := CppContext, "c" := CContext]

  /** The context of the lower-cased language, or the Python one for any other language. */
  function ContextFor(language: string): (r: LanguageContext)
    ensures r in Contexts.Values
    ensures Lower(language) in Contexts ==> r == Contexts[Lower(language)]
    ensures Lower(language) !in Contexts ==> r == PythonContext
  {
    var key := Lower(language);
    if key in Contexts then Contexts[key]
    else
      assert Contexts["python"] == PythonContext;
      PythonContext
  }

  /** The context does not depend on the letter case of the language name. */
  lemma ContextIgnoresCase(language: string)
    ensures ContextFor(Lower(language)) == ContextFor(language)
  {
    LowerIsLower(language);
  }

  /** A language without a context of its own is explained with Python's. */
  lemma UnknownLanguageGetsPython(language: string)
    requires Lower(language) !in Contexts
    ensures ContextFor(language) == Contexts["python"]
  {
  }

  /** The values the prompt template is filled with: the context's description, the
      language upper-cased in the heading and as given in the code fence and the
      guidelines, the code verbatim, and the context's features and patterns. */
  datatype Prompt = Prompt(description: string, heading: string, language: string, code: string,
                           features: string, patterns: string)

  function ExpertPrompt(code: string, language: string): (r: Prompt)
    ensures r.code == code && r.language == language && r.heading == Upper(language)
    ensures LanguageContext(r.description, r.features, r.patterns) == ContextFor(language)
  {
    var context := ContextFor(language);
    Prompt(context.description, Upper(language), language, code, context.features, context.patterns)
  }

  // ---------------------------------------------------------------------------
  // Sorting the reply's lines

  /** A Markdown heading or emphasis line, which ends the summary part. */
  predicate IsHeading(line: string)
  {
    StartsWith(line, "#") || StartsWith(line, "*")
  }

  const SummaryLineLimit: nat := 3

  /** The lines kept so far and whether a heading has been passed. */
  datatype Sorted = Sorted(summary: seq<string>, details: seq<string>, inDetails: bool)

  /** Every line stripped, as the loop does first. */
  function StripAll(lines: seq<string>): (r: seq<string>)
    ensures |r| == |lines| && forall k :: 0 <= k < |r| ==> r[k] == Strip(lines[k])
  {
    seq(|lines|, k requires 0 <= k < |lines| => Strip(lines[k]))
  }

  /** One turn of the loop, on a stripped line: blank lines and headings are dropped, a
      heading switches to the details for good, and up to three lines before the first
      heading are summary lines. */
  function Step(acc: Sorted, l: string): (r: Sorted)
    ensures acc.summary <= r.summary && acc.details <= r.details
    ensures r.summary != acc.summary ==>
      !acc.inDetails && |acc.summary| < SummaryLineLimit && r.summary == acc.summary + [l] && l != []
    ensures acc.inDetails ==> r.inDetails
  {
    if l == [] then acc
    else if IsHeading(l) then acc.(inDetails := true)
    else if !acc.inDetails && |acc.summary| < SummaryLineLimit then acc.(summary := acc.summary + [l])
    else acc.(details := acc.details + [l])
  }

  /** The rest of the loop: no line is taken back, and a summary of at most three lines
      stays so. */
  function SortFrom(acc: Sorted, lines: seq<string>): (r: Sorted)
    ensures |acc.summary| <= |r.summary| && |acc.details| <= |r.details|
    ensures |acc.summary| <= SummaryLineLimit ==> |r.summary| <= SummaryLineLimit
    decreases |lines|
  {
    if lines == [] then acc else SortFrom(Step(acc, lines[0]), lines[1..])
  }

  /** A stripped line as content: nothing for a blank line or a heading. */
  function Kept(l: string): seq<string>
  {
    if l == [] || IsHeading(l) then [] else [l]
  }

  /** The stripped lines that are neither blank nor headings, in order. */
  function Content(lines: seq<string>): seq<string>
  {
    if lines == [] then [] else Kept(lines[0]) + Content(lines[1..])
  }

  /** The stripped lines before the first heading. */
  function BeforeHeading(lines: seq<string>): seq<string>
  {
    if lines == [] || IsHeading(lines[0]) then [] else [lines[0]] + BeforeHeading(lines[1..])
  }

  /** At most the first `n` items. */
  function Prefix(s: seq<string>, n: nat): (r: seq<string>)
    ensures |r| <= n && r <= s
    ensures |s| <= n ==> r == s
  {
    if |s| <= n then s else s[..n]
  }

  /** Summary lines can no longer be added. */
  predicate Frozen(acc: Sorted)
  {
    acc.inDetails || |acc.summary| >= SummaryLineLimit
  }

  /** Detail lines exist only once the summary is frozen, and it has at most three lines. */
  predicate SortInvariant(acc: Sorted)
  {
    |acc.summary| <= SummaryLineLimit && (acc.details != [] ==> Frozen(acc))
  }

  /** The loop over the reply's lines, from an empty start. */
  function SortLines(lines: seq<string>): (r: Sorted)
    ensures |r.summary| <= SummaryLineLimit
    ensures r.summary + r.details == Content(StripAll(lines))
    ensures r.summary == Prefix(Content(BeforeHeading(StripAll(lines))), SummaryLineLimit)
  {
    var start := Sorted([], [], false);
    var stripped := StripAll(lines);
    SortKeepsEveryLine(start, stripped);
    SortSummary(start, stripped);
    assert start.summary + start.details + Content(stripped) == Content(stripped);
    assert start.summary + Content(BeforeHeading(stripped)) == Content(BeforeHeading(stripped));
    SortFrom(start, stripped)
  }

  /** One step appends the line's content to the summary lines followed by the detail
      lines, and keeps the invariant. */
  lemma StepKeeps(acc: Sorted, l: string)
    requires SortInvariant(acc)
    ensures SortInvariant(Step(acc, l))
    ensures Step(acc, l).summary + Step(acc, l).details == acc.summary + acc.details + Kept(l)
  {
  }

  /** Every content line ends up exactly once, in order, among the summary lines followed
      by the detail lines. */
  lemma {:induction false} SortKeepsEveryLine(acc: Sorted, lines: seq<string>)
    requires SortInvariant(acc)
    ensures var r := SortFrom(acc, lines);
      SortInvariant(r) && r.summary + r.details == acc.summary + acc.details + Content(lines)
    decreases |lines|
  {
    if lines != [] {
      var next := Step(acc, lines[0]);
      var done := acc.summary + acc.details;
      StepKeeps(acc, lines[0]);
      SortKeepsEveryLine(next, lines[1..]);
      assert SortFrom(acc, lines) == SortFrom(next, lines[1..]);
      assert Content(lines) == Kept(lines[0]) + Content(lines[1..]);
      PrependAssoc(done + Content(lines), done + Kept(lines[0]), done, Kept(lines[0]), Content(lines[1..]));
    }
  }

  /** Once frozen, the summary lines stay as they are. */
  lemma {:induction false} SortFrozen(acc: Sorted, lines: seq<string>)
    requires Frozen(acc)
    ensures SortFrom(acc, lines).summary == acc.summary
    decreases |lines|
  {
    if lines != [] {
      SortFrozen(Step(acc, lines[0]), lines[1..]);
    }
  }

  /** The summary lines are the first content lines before the first heading, at most
      three of them. */
  lemma {:induction false} SortSummary(acc: Sorted, lines: seq<string>)
    requires SortInvariant(acc) && !acc.inDetails
    ensures SortFrom(acc, lines).summary
      == Prefix(acc.summary + Content(BeforeHeading(lines)), SummaryLineLimit)
    decreases |lines|
  {
    if lines == [] {
      assert acc.summary + Content(BeforeHeading(lines)) == acc.summary;
    } else {
      var l := lines[0];
      var next := Step(acc, lines[0]);
      var before := BeforeHeading(lines[1..]);
      if l == [] {
        SortSummary(next, lines[1..]);
        assert BeforeHeading(lines) == [lines[0]] + before;
        assert Content(BeforeHeading(lines)) == Content(before);
      } else if IsHeading(l) {
        SortFrozen(next, lines[1..]);
        assert acc.summary + Content(BeforeHeading(lines)) == acc.summary;
      } else if |acc.summary| < SummaryLineLimit {
        SortSummary(next, lines[1..]);
        assert BeforeHeading(lines) == [lines[0]] + before;
        assert Content(BeforeHeading(lines)) == [l] + Content(before);
        assert acc.summary + Content(BeforeHeading(lines)) == next.summary + Content(before);
      } else {
        SortFrozen(next, lines[1..]);
        assert Prefix(acc.summary + Content(BeforeHeading(lines)), SummaryLineLimit)[..|acc.summary|]
          == acc.summary;
      }
    }
  }

  // ---------------------------------------------------------------------------
  // The result record

  const GeminiMetadata := Metadata("gemini-1.5-flash", "nlp", Some("google"), false)
  const GeminiErrorMetadata := Metadata("gemini-1.5-flash", "nlp", Some("google"), true)
  const Unexplained := "performs programming operations."
  const Apology := "Sorry, there was an error analyzing your code."

  /** The first two summary lines joined by a space; with none, the first 200 characters
      of the reply followed by "...", however short the reply. */
  function GeminiSummary(explanation: string, summaryLines: seq<string>): (r: string)
    ensures summaryLines == [] ==> r == Take(explanation, SummaryCutoff) + Ellipsis
    ensures |summaryLines| == 1 ==> r == summaryLines[0]
    ensures |summaryLines| >= 2 ==> r == summaryLines[0] + " " + summaryLines[1]
  {
    if summaryLines == [] then Take(explanation, SummaryCutoff) + Ellipsis
    else
      var kept := Prefix(summaryLines, 2);
      JoinUpToTwo(summaryLines, kept);
      Join(kept, " ")
  }

  lemma JoinUpToTwo(lines: seq<string>, kept: seq<string>)
    requires lines != [] && kept == Prefix(lines, 2)
    ensures |lines| == 1 ==> Join(kept, " ") == lines[0]
    ensures |lines| >= 2 ==> Join(kept, " ") == lines[0] + " " + lines[1]
  {
    if |lines| >= 2 {
      assert kept == [lines[0], lines[1]];
      assert kept[1..] == [lines[1]];
    }
  }

  /** "In simple terms, this <language> code " and the first summary line lower-cased,
      with no period added, or the generic clause. */
  function FriendlySummary(language: string, summaryLines: seq<string>): (r: string)
    ensures summaryLines != [] ==> r == "In simple terms, this " + language + " code " + Lower(summaryLines[0])
    ensures summaryLines == [] ==> r == "In simple terms, this " + language + " code " + Unexplained
  {
    "In simple terms, this " + language + " code "
    + (if summaryLines != [] then Lower(summaryLines[0]) else Unexplained)
  }

  /** `_structure_gemini_response`: the reply split on "\n" and sorted; the detail lines
      joined by spaces are the details; the whole reply is the full explanation. */
  function StructureGemini<F, C, V, I>(explanation: string, language: string): (r: Envelope<F, C, V, I>)
    ensures r.full == explanation && r.language == language && r.metadata == GeminiMetadata
    ensures r.functions == [] && r.classes == [] && r.variables == [] && r.imports == []
    ensures var sorted := SortLines(SplitOn(explanation, "\n"));
      && r.summary == GeminiSummary(explanation, sorted.summary)
      && r.details == Join(sorted.details, " ")
      && r.userFriendly == Some(FriendlySummary(language, sorted.summary))
  {
    var sorted := SortLines(SplitOn(explanation, "\n"));
    Envelope(GeminiSummary(explanation, sorted.summary), Some(FriendlySummary(language, sorted.summary)),
             Join(sorted.details, " "), explanation, [], [], [], [], language, GeminiMetadata)
  }

  /** With three summary lines the third reaches neither the summary, which keeps two,
      nor the details, which are the content lines after it. */
  lemma ThirdSummaryLineDropped<F, C, V, I>(explanation: string, language: string)
    requires |SortLines(SplitOn(explanation, "\n")).summary| == 3
    ensures var content := Content(StripAll(SplitOn(explanation, "\n")));
      var r: Envelope<F, C, V, I> := StructureGemini(explanation, language);
      && r.summary == content[0] + " " + content[1]
      && r.details == Join(content[3..], " ")
  {
    var sorted := SortLines(SplitOn(explanation, "\n"));
    var content := Content(StripAll(SplitOn(explanation, "\n")));
    assert content[..3] == sorted.summary;
    assert content[3..] == sorted.details;
  }

  /** A reply without summary lines (all headings, or empty) gets the cut-off reply
      followed by "..." as its summary, at most 203 characters long. */
  lemma NoSummaryLines<F, C, V, I>(explanation: string, language: string)
    requires SortLines(SplitOn(explanation, "\n")).summary == []
    ensures var r: Envelope<F, C, V, I> := StructureGemini(explanation, language);
      && EndsWith(r.summary, Ellipsis) && StartsWith(explanation, r.summary[..|r.summary| - 3])
      && |r.summary| <= SummaryCutoff + 3
      && r.userFriendly == Some("In simple terms, this " + language + " code " + Unexplained)
  {
    var r: Envelope<F, C, V, I> := StructureGemini(explanation, language);
    var head := Take(explanation, SummaryCutoff);
    assert r.summary == head + Ellipsis;
    assert r.summary[..|r.summary| - 3] == head;
    assert r.summary[|r.summary| - 3..] == Ellipsis;
  }

  /** `_create_error_response`. */
  function GeminiError<F, C, V, I>(message: string): (r: Envelope<F, C, V, I>)
    ensures IsErrorEnvelope(r) && r.metadata == GeminiErrorMetadata
    ensures r.language == "unknown" && r.details == "" && r.userFriendly == Some(Apology)
    ensures r.summary == "Error: " + message && r.full == "Analysis failed: " + message
  {
    Envelope("Error: " + message, Some(Apology), "", "Analysis failed: " + message, [], [], [], [],
             "unknown", GeminiErrorMetadata)
  }

  /** What the service did: nothing, a reply (possibly with empty text), or an exception. */
  datatype Reply = NoReply | Answered(text: string) | Raised(message: string)

  /** `analyze_code` once the service has been called: no reply, an empty text or an
      exception give an error record, any other text is stripped and structured. */
  function AnalyzeReply<F, C, V, I>(reply: Reply, language: string): (r: Envelope<F, C, V, I>)
    ensures r.metadata.error <==> !(reply.Answered? && reply.text != "")
    ensures reply.Answered? && reply.text != "" ==> r == StructureGemini(Strip(reply.text), language)
    ensures reply.NoReply? ==> r == GeminiError("Gemini did not generate a response")
    ensures reply.Answered? && reply.text == "" ==> r == GeminiError("Gemini response is empty")
    ensures reply.Raised? ==> r == GeminiError("Error during Gemini analysis: " + reply.message)
  {
    match reply
    case NoReply => GeminiError("Gemini did not generate a response")
    case Answered(text) =>
      if text == "" then GeminiError("Gemini response is empty") else StructureGemini(Strip(text), language)
    case Raised(message) => GeminiError("Error during Gemini analysis: " + message)
  }
}
