/** The transformer-backed explainer: its per-model settings, the prompt it builds from
    the code, how it structures the generated text into summary and details, its keyword
    summary, and the cache that hands out one model object per model name. Loading and
    running the network is outside the model; the generated text is an input. */
module NlpModel {
  import opened Core
  import opened Text
  import opened Assembly

  // ---------------------------------------------------------------------------
  // Model settings

  /** The name's last "/"-separated segment, used as the directory of the saved copy. */
  function ShortName(name: string): (r: string)
    ensures '/' !in r
    ensures EndsWith(name, r)
    ensures '/' !in name ==> r == name
  {
    if '/' in name then
      var pieces := SplitOn(name, "/");
      var last := pieces[|pieces| - 1];
      assert '/' !in last by {
        if '/' in last {
          ContainsChar(last, '/');
        }
      }
      JoinSplit(name, "/");
      JoinEndsWithLast(pieces, "/");
      last
    else
      assert EndsWith(name, name) by { assert name[|name| - |name|..] == name; }
      name
  }

  /** Generation limits: the input length the prompt is cut to and the new tokens allowed. */
  datatype Limits = Limits(maxInputLength: nat, maxNewTokens: nat)

  const CodebertLimits := Limits(350, 50)
  const DefaultLimits := Limits(450, 200)

  /** Models whose name mentions "codebert", in any letter case, get the tighter limits. */
  predicate IsCodebert(name: string)
  {
    Contains(Lower(name), "codebert")
  }

  function Settings(name: string): (r: Limits)
    ensures r.maxNewTokens < r.maxInputLength
    ensures r == CodebertLimits || r == DefaultLimits
    ensures r == CodebertLimits <==> IsCodebert(name)
  {
    if IsCodebert(name) then CodebertLimits else DefaultLimits
  }

  /** The choice of limits does not depend on the letter case of the model name. */
  lemma SettingsIgnoreCase(name: string)
    ensures Settings(Lower(name)) == Settings(name)
    ensures IsCodebert(Lower(name)) <==> IsCodebert(name)
  {
    LowerIsLower(name);
  }

  /** `os.path.join` of two components. */
  function PathJoin(a: string, b: string): (r: string)
    ensures EndsWith(r, b)
    ensures StartsWith(b, "/") ==> r == b
    ensures !StartsWith(b, "/") ==> StartsWith(r, a)
  {
    if StartsWith(b, "/") then
      assert EndsWith(b, b) by { assert b[|b| - |b|..] == b; }
      b
    else
      var r := if a == [] || EndsWith(a, "/") then a + b else a + "/" + b;
      assert r[|r| - |b|..] == b;
      StartsWithLeft(a, r[|a|..]);
      assert r == a + r[|a|..];
      r
  }

  /** The directory below the module's own directory where models are saved. */
  const SavedModels := "saved_models"

  /** The default location of a model's saved copy: `<module dir>/saved_models/<short name>`. */
  function SavedModelPath(moduleDir: string, name: string): (r: string)
    ensures StartsWith(r, moduleDir)
    ensures EndsWith(r, ShortName(name))
  {
    var dir := PathJoin(moduleDir, SavedModels);
    assert !StartsWith(SavedModels, "/") by { assert SavedModels[0] == 's'; }
    var short := ShortName(name);
    assert !StartsWith(short, "/") by {
      if short != [] { assert short[0] in short; }
    }
    var r := PathJoin(dir, short);
    assert r[..|moduleDir|] == r[..|dir|][..|moduleDir|];
    r
  }

  /** Joining onto a non-empty directory not ending in "/" a relative component puts
      exactly one "/" between them. */
  lemma PathJoinPlain(a: string, b: string)
    requires a != [] && !EndsWith(a, "/") && !StartsWith(b, "/")
    ensures PathJoin(a, b) == a + "/" + b
  {
  }

  /** With a module directory that is not empty and does not end in "/", the default
      location is that directory, "/saved_models/" and the short name. */
  lemma SavedModelPathShape(moduleDir: string, name: string)
    requires moduleDir != [] && !EndsWith(moduleDir, "/")
    ensures SavedModelPath(moduleDir, name) == moduleDir + "/" + SavedModels + "/" + ShortName(name)
  {
    var short := ShortName(name);
    assert !StartsWith(SavedModels, "/") by { assert SavedModels[0] == 's'; }
    PathJoinPlain(moduleDir, SavedModels);
    var dir := moduleDir + "/" + SavedModels;
    assert !EndsWith(dir, "/") by { assert dir[|dir| - 1] == 's'; }
    assert !StartsWith(short, "/") by {
      if short != [] {
        assert short[0] in short;
      }
    }
    PathJoinPlain(dir, short);
  }

  /** A model object as `__init__` leaves it: name, saved-copy location and limits. */
  datatype ExplanationModel = ExplanationModel(name: string, localPath: string, limits: Limits)

  function NewModel(name: string, localPath: Option<string>, moduleDir: string): (r: ExplanationModel)
    ensures r.name == name && r.limits == Settings(name)
    ensures Truthy(localPath) ==> r.localPath == localPath.value
    ensures !Truthy(localPath) ==> r.localPath == SavedModelPath(moduleDir, name)
  {
    ExplanationModel(name, if Truthy(localPath) then localPath.value else SavedModelPath(moduleDir, name),
                     Settings(name))
  }

  // ---------------------------------------------------------------------------
  // The model cache

  /** The class-level table of model objects, keyed by model name. */
  type ModelCache = map<string, ExplanationModel>

  datatype Lookup = Lookup(model: ExplanationModel, cache: ModelCache)

  /** `ModelManager.get_model`: the cached object for the name, or a new one that is
      cached from then on. */
  function GetModel(cache: ModelCache, name: string, localPath: Option<string>, moduleDir: string): (r: Lookup)
    ensures name in r.cache && r.cache[name] == r.model
    ensures r.model.name == name || name in cache
    ensures name in cache ==> r == Lookup(cache[name], cache)
    ensures name !in cache ==> r.model == NewModel(name, localPath, moduleDir)
    ensures r.cache.Keys == cache.Keys + {name}
    ensures forall n :: n in cache ==> r.cache[n] == cache[n]
  {
    if name in cache then Lookup(cache[name], cache)
    else
      var model := NewModel(name, localPath, moduleDir);
      Lookup(model, cache[name := model])
  }

  /** Asking twice for the same name gives the same object, whatever location the second
      call passes: the first call's location wins. */
  lemma FirstPathWins(cache: ModelCache, name: string, first: Option<string>, second: Option<string>,
                      moduleDir: string)
    ensures var one := GetModel(cache, name, first, moduleDir);
      var two := GetModel(one.cache, name, second, moduleDir);
      two.model == one.model && two.cache == one.cache
    ensures name !in cache && Truthy(first) ==>
      GetModel(GetModel(cache, name, first, moduleDir).cache, name, second, moduleDir).model.localPath
        == first.value
  {
  }

  /** Fetching one model never changes another name's object. */
  lemma OtherModelsKept(cache: ModelCache, name: string, other: string, localPath: Option<string>,
                        moduleDir: string)
    requires other != name && other in cache
    ensures GetModel(cache, name, localPath, moduleDir).cache[other] == cache[other]
  {
  }

  // ---------------------------------------------------------------------------
  // Prompt

  const TruncationLimit: nat := 1500
  const TruncationMarker := "\n# ... code truncated for brevity ...\n"

  /** Code longer than 1500 characters keeps its first 1500, followed by a marker line. */
  function Truncated(code: string): (r: string)
    ensures |code| <= TruncationLimit ==> r == code
    ensures |code| > TruncationLimit ==>
      && |r| == TruncationLimit + |TruncationMarker|
      && StartsWith(code, r[..TruncationLimit])
      && EndsWith(r, TruncationMarker)
  {
    if |code| > TruncationLimit then
      var r := code[..TruncationLimit] + TruncationMarker;
      assert r[..TruncationLimit] == code[..TruncationLimit];
      assert r[|r| - |TruncationMarker|..] == TruncationMarker;
      r
    else code
  }

  const CodebertLead := "Explain what this code does: "
  const CodebertExcerpt: nat := 200
  const CodebertTail := "...\nAnswer:"
  const CodegenHead := " code:\n"
  const CodegenTail := "\n\nWhat does this code do?\nThis code"

  /** The prompt for a CodeBERT model: at most 200 characters of the stripped code. */
  function CodebertPrompt(code: string): (r: string)
    ensures StartsWith(r, CodebertLead) && EndsWith(r, CodebertTail)
    ensures |CodebertLead| + |CodebertTail| <= |r| <= |CodebertLead| + CodebertExcerpt + |CodebertTail|
    ensures StartsWith(Strip(code), r[|CodebertLead|..|r| - |CodebertTail|])
    ensures r[|CodebertLead|..|r| - |CodebertTail|] == Take(Strip(code), CodebertExcerpt)
  {
    var excerpt := Take(Strip(code), CodebertExcerpt);
    Framed(CodebertLead, excerpt, CodebertTail);
    assert (CodebertLead + excerpt + CodebertTail)[|CodebertLead|..|CodebertLead| + |excerpt|] == excerpt;
    CodebertLead + excerpt + CodebertTail
  }

  /** The prompt for any other model: the language, the whole stripped code and an open
      sentence the model completes. */
  function CodegenPrompt(code: string, language: string): (r: string)
    ensures StartsWith(r, language + CodegenHead) && EndsWith(r, CodegenTail)
    ensures Contains(r, Strip(code))
    ensures |r| == |language| + |CodegenHead| + |Strip(code)| + |CodegenTail|
    ensures r[|language + CodegenHead|..|r| - |CodegenTail|] == Strip(code)
  {
    var body := Strip(code);
    var head := language + CodegenHead;
    Framed(head, body, CodegenTail);
    ContainsInfix(head, body, CodegenTail);
    assert (head + body + CodegenTail)[|head|..|head| + |body|] == body;
    head + body + CodegenTail
  }

  /** `_preprocess_code`: truncate, then build the prompt the model kind calls for. */
  function PreprocessCode(code: string, language: string, modelName: string): (r: string)
    ensures IsCodebert(modelName) ==> r == CodebertPrompt(Truncated(code))
    ensures !IsCodebert(modelName) ==> r == CodegenPrompt(Truncated(code), language)
  {
    if IsCodebert(modelName) then CodebertPrompt(Truncated(code))
    else CodegenPrompt(Truncated(code), language)
  }

  /** A CodeBERT prompt is bounded whatever the length of the code. */
  lemma CodebertPromptBounded(code: string, language: string, modelName: string)
    requires IsCodebert(modelName)
    ensures |PreprocessCode(code, language, modelName)| <= 240
  {
  }

  /** Code within the limit reaches any other model's prompt whole, apart from the
      surrounding whitespace. */
  lemma ShortCodeKept(code: string, language: string, modelName: string)
    requires !IsCodebert(modelName) && |code| <= TruncationLimit
    ensures Contains(PreprocessCode(code, language, modelName), Strip(code))
  {
  }

  // ---------------------------------------------------------------------------
  // Structuring the generated text

  /** Text that is not empty and neither starts nor ends with whitespace. */
  predicate Stripped(s: string)
  {
    s != [] && !IsSpace(s[0]) && !IsSpace(s[|s| - 1])
  }

  /** The non-blank pieces, each stripped, in order. */
  function NonBlank(pieces: seq<string>): (r: seq<string>)
    ensures |r| <= |pieces|
    ensures forall k :: 0 <= k < |r| ==> Stripped(r[k])
  {
    if pieces == [] then []
    else
      var p := Strip(pieces[0]);
      var rest := NonBlank(pieces[1..]);
      if p == [] then rest else ConsStripped(p, rest)
  }

  function ConsStripped(p: string, rest: seq<string>): (r: seq<string>)
    requires Stripped(p) && forall k :: 0 <= k < |rest| ==> Stripped(rest[k])
    ensures |r| == |rest| + 1 && r[0] == p && r[1..] == rest
    ensures forall k :: 0 <= k < |r| ==> Stripped(r[k])
  {
    [p] + rest
  }

  /** Every piece is blank exactly when none survives. */
  lemma {:induction false} NonBlankEmpty(pieces: seq<string>)
    ensures NonBlank(pieces) == [] <==> forall k :: 0 <= k < |pieces| ==> AllSpace(pieces[k])
    decreases |pieces|
  {
    if pieces != [] {
      NonBlankEmpty(pieces[1..]);
      assert forall k :: 1 <= k < |pieces| ==> pieces[k] == pieces[1..][k - 1];
    }
  }

  const ParagraphBreak := "\n\n"

  /** The paragraphs of a text: its non-blank pieces between blank-line breaks. */
  function Paragraphs(text: string): (r: seq<string>)
    ensures forall k :: 0 <= k < |r| ==> Stripped(r[k])
  {
    NonBlank(SplitOn(text, ParagraphBreak))
  }

  /** A text without paragraphs is all whitespace. */
  lemma NoParagraphsBlank(text: string)
    requires Paragraphs(text) == []
    ensures AllSpace(text)
  {
    var pieces := SplitOn(text, ParagraphBreak);
    NonBlankEmpty(pieces);
    assert AllSpace(ParagraphBreak) by {
      assert IsSpace(ParagraphBreak[0]) && IsSpace(ParagraphBreak[1]);
    }
    JoinAllSpace(pieces, ParagraphBreak);
    JoinSplit(text, ParagraphBreak);
  }

  /** A stripped text has no paragraphs exactly when it is empty. */
  lemma NoParagraphsIffEmpty(raw: string)
    ensures Paragraphs(Strip(raw)) == [] <==> AllSpace(raw)
    ensures AllSpace(raw) <==> Strip(raw) == []
  {
    var cleaned := Strip(raw);
    if Paragraphs(cleaned) == [] {
      NoParagraphsBlank(cleaned);
      StripIdempotent(raw);
    }
  }

  const CodePrefix := "This code "
  const NoParagraphSummary := CodePrefix + "performs programming operations."
  const LongSummary: nat := 150

  /** The first paragraph as the summary begins it: prefixed with "This code " and
      lower-cased unless, lower-cased, it already opens with "this". */
  function Lead(first: string): (r: string)
    ensures StartsWith(Lower(r), "this")
    ensures StartsWith(Lower(first), "this") ==> r == first
    ensures !StartsWith(Lower(first), "this") ==> r == CodePrefix + Lower(first)
  {
    if StartsWith(Lower(first), "this") then first
    else
      PrefixedOpensWithThis(Lower(first));
      CodePrefix + Lower(first)
  }

  /** "This code " lower-cases to a text opening with "this". */
  lemma PrefixedOpensWithThis(x: string)
    ensures StartsWith(Lower(CodePrefix + x), "this")
  {
    var s := CodePrefix + x;
    assert s[0] == 'T' && s[1] == 'h' && s[2] == 'i' && s[3] == 's';
    var l := Lower(s);
    assert l[0] == 't' && l[1] == 'h' && l[2] == 'i' && l[3] == 's';
    assert l[..4] == "this";
  }

  /** The summary drawn from the first paragraph: its lead, cut to the first sentence
      when over 150 characters. */
  function OpeningSummary(first: string): (r: string)
    ensures StartsWith(Lower(r), "this")
    ensures |Lead(first)| <= LongSummary ==> r == Lead(first)
    ensures |Lead(first)| > LongSummary ==>
      && EndsWith(r, ".") && !Contains(r, SentenceSep) && StartsWith(Lead(first), r[..|r| - 1])
      && (|r| - 1 == |Lead(first)| || OccursAt(Lead(first), SentenceSep, |r| - 1))
  {
    var lead := Lead(first);
    if |lead| > LongSummary then
      var r := FirstSentence(lead);
      assert |r| >= 1 && (|r| - 1 == |lead| || OccursAt(lead, SentenceSep, |r| - 1));
      r
    else lead
  }

  /** `s.split('. ')[0] + '.'`: the text up to its first ". ", closed with a ".". */
  function FirstSentence(s: string): (r: string)
    requires StartsWith(Lower(s), "this")
    ensures StartsWith(Lower(r), "this")
    ensures EndsWith(r, ".") && !Contains(r, SentenceSep)
    ensures StartsWith(s, r[..|r| - 1])
    ensures |r| - 1 == |s| || OccursAt(s, SentenceSep, |r| - 1)
  {
    var piece := SplitOn(s, SentenceSep)[0];
    FirstPieceKeepsThis(s);
    SplitFirst(s, SentenceSep);
    var r := piece + ".";
    assert r[..|r| - 1] == piece;
    assert r[..|piece|] == piece;
    LowerPrefix(r, piece, 4);
    assert r[|r| - 1..] == ".";
    ClosedPieceOneSentence(piece);
    r
  }

  /** No ". " can start inside a leading "this", so the first piece keeps it. */
  lemma FirstPieceKeepsThis(s: string)
    requires StartsWith(Lower(s), "this")
    ensures var piece := SplitOn(s, SentenceSep)[0];
      StartsWith(s, piece) && StartsWith(Lower(piece), "this") && !Contains(piece, SentenceSep)
  {
    var piece := SplitOn(s, SentenceSep)[0];
    SplitFirst(s, SentenceSep);
    FirstPieceLong(s);
    assert piece[..4] == s[..4];
    LowerPrefix(piece, s, 4);
  }

  lemma FirstPieceLong(s: string)
    requires StartsWith(Lower(s), "this")
    ensures |SplitOn(s, SentenceSep)[0]| >= 4
  {
    var piece := SplitOn(s, SentenceSep)[0];
    SplitFirst(s, SentenceSep);
    if piece != s {
      var j := |piece|;
      assert s[j..j + 2] == SentenceSep;
      if j < 4 {
        assert s[j] == SentenceSep[0] == '.';
        assert Lower(s)[j] == LowerChar(s[j]) == '.';
        ThisHasNoDot(Lower(s), j);
      }
    }
  }

  /** None of the first four characters of a text opening with "this" is a '.'. */
  lemma ThisHasNoDot(l: string, j: nat)
    requires StartsWith(l, "this") && j < 4
    ensures l[j] != '.'
  {
    assert l[..4][j] == l[j];
  }

  /** Texts that agree on their first `n` characters agree on them lower-cased too. */
  lemma LowerPrefix(a: string, b: string, n: nat)
    requires n <= |a| && n <= |b| && a[..n] == b[..n]
    ensures Lower(a)[..n] == Lower(b)[..n]
  {
    forall i | 0 <= i < n
      ensures Lower(a)[i] == Lower(b)[i]
    {
      assert a[i] == a[..n][i] == b[..n][i] == b[i];
    }
  }

  /** A piece without ". ", closed with a ".", still has no ". ". */
  lemma ClosedPieceOneSentence(piece: string)
    requires !Contains(piece, SentenceSep)
    ensures !Contains(piece + ".", SentenceSep)
  {
    var r := piece + ".";
    forall i: nat | i <= |r|
      ensures !OccursAt(r, SentenceSep, i)
    {
      if i + 2 <= |r| {
        if i + 2 <= |piece| {
          assert r[i..i + 2] == piece[i..i + 2];
          assert !OccursAt(piece, SentenceSep, i);
        } else {
          assert r[i + 1] == '.';
        }
      }
    }
  }

  /** Summary and details when at least one paragraph exists. */
  function ParagraphSplit(cleaned: string, paragraphs: seq<string>): (r: Split)
    requires paragraphs != []
    ensures |paragraphs| > 1 ==>
      r.summary == OpeningSummary(paragraphs[0]) && r.details == Join(paragraphs[1..], ParagraphBreak)
    ensures |paragraphs| == 1 && |SplitOn(cleaned, SentenceSep)| > 2 ==>
      && cleaned == r.summary + " " + r.details
      && r.summary == SplitOn(cleaned, SentenceSep)[0] + SentenceSep + SplitOn(cleaned, SentenceSep)[1] + "."
    ensures |paragraphs| == 1 && |SplitOn(cleaned, SentenceSep)| <= 2 ==> r == Split(OpeningSummary(paragraphs[0]), "")
  {
    if |paragraphs| > 1 then SeveralParagraphs(paragraphs) else LoneParagraph(cleaned, paragraphs[0])
  }

  /** Several paragraphs: the summary comes from the first and the later ones, separated
      by blank lines, are the details, so each of them appears there. */
  function SeveralParagraphs(paragraphs: seq<string>): (r: Split)
    requires |paragraphs| > 1
    ensures r.summary == OpeningSummary(paragraphs[0])
    ensures r.details == Join(paragraphs[1..], ParagraphBreak)
    ensures forall k :: 1 <= k < |paragraphs| ==> Contains(r.details, paragraphs[k])
  {
    var details := Join(paragraphs[1..], ParagraphBreak);
    JoinMentionsEach(paragraphs[1..], ParagraphBreak);
    assert forall k :: 1 <= k < |paragraphs| ==> paragraphs[k] == paragraphs[1..][k - 1];
    Split(OpeningSummary(paragraphs[0]), details)
  }

  /** A lone paragraph: with more than two sentences the unprefixed text is split after
      its second sentence, so summary, a space and details give the text back; otherwise
      the summary comes from the paragraph and there are no details. */
  function LoneParagraph(cleaned: string, paragraph: string): (r: Split)
    ensures |SplitOn(cleaned, SentenceSep)| > 2 ==>
      && cleaned == r.summary + " " + r.details && EndsWith(r.summary, ".")
      && r.summary == SplitOn(cleaned, SentenceSep)[0] + SentenceSep + SplitOn(cleaned, SentenceSep)[1] + "."
    ensures |SplitOn(cleaned, SentenceSep)| <= 2 ==> r == Split(OpeningSummary(paragraph), "")
  {
    if |SplitOn(cleaned, SentenceSep)| > 2 then
      SentenceSplitReconstructs(cleaned, 2);
      SentenceSplitSummary(cleaned, 2);
      var r := SentenceSplit(cleaned, 2);
      assert r.summary[|r.summary| - 1..] == ".";
      r
    else Split(OpeningSummary(paragraph), "")
  }

  /** Summary and details of a stripped explanation; with no paragraph at all the summary
      is a fixed sentence and the (empty) text is the details. */
  function ExplanationSplit(cleaned: string): (r: Split)
    ensures Paragraphs(cleaned) == [] ==> r == Split(NoParagraphSummary, cleaned)
    ensures |Paragraphs(cleaned)| > 1 ==>
      r.summary == OpeningSummary(Paragraphs(cleaned)[0]) && r.details == Join(Paragraphs(cleaned)[1..], ParagraphBreak)
    ensures |Paragraphs(cleaned)| == 1 && |SplitOn(cleaned, SentenceSep)| > 2 ==>
      && cleaned == r.summary + " " + r.details
      && r.summary == SplitOn(cleaned, SentenceSep)[0] + SentenceSep + SplitOn(cleaned, SentenceSep)[1] + "."
    ensures |Paragraphs(cleaned)| == 1 && |SplitOn(cleaned, SentenceSep)| <= 2 ==>
      r == Split(OpeningSummary(Paragraphs(cleaned)[0]), "")
  {
    var paragraphs := Paragraphs(cleaned);
    if paragraphs == [] then Split(NoParagraphSummary, cleaned) else ParagraphSplit(cleaned, paragraphs)
  }

  /** The structured explanation `_structure_explanation` returns. */
  datatype Sections = Sections(
    summary: string,
    details: string,
    full: string,
    userFriendly: string,
    functions: seq<string>,
    classes: seq<string>,
    variables: seq<string>,
    patterns: seq<string>)

  function StructureExplanation(raw: string): (r: Sections)
    ensures r.full == Strip(raw) && r.userFriendly == UserFriendlySummary(r.full)
    ensures Split(r.summary, r.details) == ExplanationSplit(r.full)
    ensures r.functions == [] && r.classes == [] && r.variables == [] && r.patterns == []
  {
    var cleaned := Strip(raw);
    var split := ExplanationSplit(cleaned);
    Sections(split.summary, split.details, cleaned, UserFriendlySummary(cleaned), [], [], [], [])
  }

  /** Blank model output gets the fixed summary, and its details, being the stripped
      text, are empty. */
  lemma BlankExplanation(raw: string)
    requires AllSpace(raw)
    ensures ExplanationSplit(Strip(raw)) == Split(NoParagraphSummary, "")
  {
    NoParagraphsIffEmpty(raw);
  }

  /** Except where a lone paragraph is split by sentences, the summary opens with "this"
      in some letter case: either the model's text already did, or "This code " was put
      in front of it, or the text was empty. */
  lemma SummaryOpensWithThis(cleaned: string)
    requires |Paragraphs(cleaned)| != 1 || |SplitOn(cleaned, SentenceSep)| <= 2
    ensures StartsWith(Lower(ExplanationSplit(cleaned).summary), "this")
  {
    var paragraphs := Paragraphs(cleaned);
    if paragraphs == [] {
      PrefixedOpensWithThis("performs programming operations.");
    } else {
      assert ExplanationSplit(cleaned).summary == OpeningSummary(paragraphs[0]);
    }
  }

  // ---------------------------------------------------------------------------
  // Keyword summary

  /** The keywords looked for in the lower-cased explanation, in the order they are tried. */
  const FeatureKeywords: seq<string> := ["function", "class", "variable", "loop", "condition", "import", "print",
                                         "input", "calculate", "process", "file", "database", "api", "web"]

  /** The phrase each keyword contributes, at the same position. */
  const FeaturePhrases: seq<string> := [
    "defines functions that can be called to perform specific tasks",
    "creates classes which are blueprints for objects",
    "stores data in variables for later use",
    "repeats certain operations multiple times",
    "makes decisions based on certain conditions",
    "brings in external libraries or modules",
    "displays output or information to the user",
    "gets information from the user",
    "performs mathematical calculations",
    "processes or manipulates data",
    "works with files (reading, writing, or managing)",
    "interacts with databases to store or retrieve information",
    "communicates with external services or APIs",
    "creates web applications or handles web requests"]

  const GenericPurpose := "performs programming operations to accomplish a specific task."
  const ThisCode := "this code"

  /** Which keywords occur in the lower-cased text. */
  function KeywordsFound(text: string): (r: seq<bool>)
    ensures |r| == |FeatureKeywords|
    ensures forall k :: 0 <= k < |r| ==> (r[k] <==> Contains(Lower(text), FeatureKeywords[k]))
  {
    var lower := Lower(text);
    seq(|FeatureKeywords|, k requires 0 <= k < |FeatureKeywords| => Contains(lower, FeatureKeywords[k]))
  }

  function FoundPhrases(text: string): (r: seq<string>)
    ensures |r| <= |FeaturePhrases|
  {
    Selected(FeaturePhrases, KeywordsFound(text))
  }

  /** `_create_user_friendly_summary`. */
  function UserFriendlySummary(text: string): (r: string)
    ensures StartsWith(r, "In simple terms, " + ThisCode + " ")
    ensures FoundPhrases(text) == [] ==> r == "In simple terms, " + ThisCode + " " + GenericPurpose
    ensures FoundPhrases(text) != [] ==> EndsWith(r, ".")
  {
    FeatureSummaryFrame(ThisCode, GenericPurpose, FoundPhrases(text));
    FeatureSummary(ThisCode, GenericPurpose, FoundPhrases(text))
  }

  /** The phrases differ in length, or else at one position. */
  lemma FeaturePhrasesDistinct()
    ensures Distinct(FeaturePhrases)
  {
    var t := FeaturePhrases;
    assert |t[0]| == 62 && |t[1]| == 48 && |t[2]| == 38 && |t[3]| == 41 && |t[4]| == 43;
    assert |t[5]| == 39 && |t[6]| == 42 && |t[7]| == 30 && |t[8]| == 34 && |t[9]| == 29;
    assert |t[10]| == 48 && |t[11]| == 57 && |t[12]| == 43 && |t[13]| == 48;
    assert t[1][8] != t[13][8];
    assert t[1][47] != t[10][47] && t[10][47] != t[13][47];
    assert t[4][41] != t[12][41];
  }

  /** A keyword's phrase is in the summary's list exactly when the keyword occurs in the
      text, in any letter case; no phrase is listed twice. */
  lemma PhraseIffKeyword(text: string, k: nat)
    requires k < |FeatureKeywords|
    ensures FeaturePhrases[k] in FoundPhrases(text) <==> Contains(Lower(text), FeatureKeywords[k])
    ensures Distinct(FoundPhrases(text))
  {
    FeaturePhrasesDistinct();
    SelectedExactlyFired(FeaturePhrases, KeywordsFound(text));
  }

  /** The phrases follow the order of the keyword table. */
  lemma PhrasesInTableOrder(text: string)
    ensures var found := FiredIndices(KeywordsFound(text));
      && |FoundPhrases(text)| == |found|
      && forall n :: 0 <= n < |found| ==> FoundPhrases(text)[n] == FeaturePhrases[found[n]]
  {
    SelectedByIndices(FeaturePhrases, KeywordsFound(text));
  }

  /** The summary names every phrase found, and falls back to the generic sentence when
      no keyword occurs. */
  lemma UserFriendlyShape(text: string)
    ensures forall k :: 0 <= k < |FoundPhrases(text)| ==> Contains(UserFriendlySummary(text), FoundPhrases(text)[k])
    ensures (forall k :: 0 <= k < |FeatureKeywords| ==> !Contains(Lower(text), FeatureKeywords[k]))
      ==> UserFriendlySummary(text) == "In simple terms, " + ThisCode + " " + GenericPurpose
  {
    FeatureSummaryMentions(ThisCode, GenericPurpose, FoundPhrases(text));
  }

  /** Keywords are matched case-insensitively: lower-casing the text first changes nothing. */
  lemma UserFriendlyIgnoresCase(text: string)
    ensures UserFriendlySummary(Lower(text)) == UserFriendlySummary(text)
  {
    LowerIsLower(text);
    assert KeywordsFound(Lower(text)) == KeywordsFound(text);
  }
}
