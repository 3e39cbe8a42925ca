/** The entry points of the model-backed path: routing a request to Gemini or to a
    transformer model, normalising the language name, turning what the model produced
    into a result dictionary, and reshaping that dictionary for the front end. What the
    Gemini service and the transformer produced arrive as inputs. */
module NlpApi {
  import opened Core
  import opened Text
  import opened Assembly
  import opened Envelopes
  import opened NlpModel
  import opened GeminiAnalyzer

  // ---------------------------------------------------------------------------
  // Routing and language names

  /** The model names that select the Gemini explainer, compared lower-cased. */
  const GeminiNames: seq<string> := ["gemini", "gemini-1.5-flash", "gemini-flash", "google-gemini"]

  predicate WantsGemini(modelName: Option<string>): (r: bool)
    ensures r ==> modelName.Some? && |modelName.value| >= 6
    ensures r <==> modelName.Some? && Lower(modelName.value) in GeminiNames
  {
    Truthy(modelName) && Lower(modelName.value) in GeminiNames
  }

  /** The choice of Gemini does not depend on the letter case of the name. */
  lemma WantsGeminiIgnoresCase(name: string)
    ensures WantsGemini(Some(Lower(name))) <==> WantsGemini(Some(name))
  {
    LowerIsLower(name);
    assert Lower(name) != "" <==> name != "";
  }

  /** The language keys with a standard name; any other key stands for itself. */
  const LanguageAliases: map<string, string> := map[
    "python" := "python", "py" := "python",
    "javascript" := "javascript", "js" := "javascript",
    "typescript" := "javascript", "ts" := "javascript",
    "java" := "java", "c++" := "cpp", "cpp" := "cpp"]

  /** Characters that are not upper-case ASCII letters, so lower-casing keeps them. */
  predicate NoUpper(s: string)
  {
    forall i :: 0 <= i < |s| ==> !IsUpperAscii(s[i])
  }

  lemma LowerKeepsNoUpper(s: string)
    requires NoUpper(s)
    ensures Lower(s) == s
  {
  }

  /** The standard names, each its own key. */
  const StandardNames: seq<string> := ["python", "javascript", "java", "cpp"]

  /** Every standard name is lower-case and is its own key, and every key maps to one. */
  lemma StandardNamesFixed()
    ensures forall k :: k in LanguageAliases ==> LanguageAliases[k] in StandardNames
    ensures forall v :: v in StandardNames ==> v in LanguageAliases && LanguageAliases[v] == v && NoUpper(v)
  {
    var python := "python";
    assert !IsUpperAscii(python[0]) && !IsUpperAscii(python[1]) && !IsUpperAscii(python[2]);
    assert !IsUpperAscii(python[3]) && !IsUpperAscii(python[4]) && !IsUpperAscii(python[5]);
    var js := "javascript";
    assert !IsUpperAscii(js[0]) && !IsUpperAscii(js[1]) && !IsUpperAscii(js[2]) && !IsUpperAscii(js[3]);
    assert !IsUpperAscii(js[4]) && !IsUpperAscii(js[5]) && !IsUpperAscii(js[6]) && !IsUpperAscii(js[7]);
    assert !IsUpperAscii(js[8]) && !IsUpperAscii(js[9]);
    var java := "java";
    assert !IsUpperAscii(java[0]) && !IsUpperAscii(java[1]) && !IsUpperAscii(java[2]) && !IsUpperAscii(java[3]);
    var cpp := "cpp";
    assert !IsUpperAscii(cpp[0]) && !IsUpperAscii(cpp[1]) && !IsUpperAscii(cpp[2]);
  }

  /** The standard name of a language: a known alias of the lower-cased name maps to its
      standard name, anything else to its own lower-case form. */
  function NormalizeLanguage(language: string): (r: string)
    ensures Lower(language) in LanguageAliases ==> r == LanguageAliases[Lower(language)]
    ensures Lower(language) !in LanguageAliases ==> r == Lower(language)
    ensures NoUpper(r)
  {
    var key := Lower(language);
    LowerIsLower(language);
    StandardNamesFixed();
    if key in LanguageAliases then LanguageAliases[key] else key
  }

  /** Normalising twice is normalising once. */
  lemma NormalizeIdempotent(language: string)
    ensures NormalizeLanguage(NormalizeLanguage(language)) == NormalizeLanguage(language)
  {
    var r := NormalizeLanguage(language);
    LowerKeepsNoUpper(r);
    StandardNamesFixed();
  }

  /** The letter case of the language name does not matter. */
  lemma NormalizeIgnoresCase(language: string)
    ensures NormalizeLanguage(Lower(language)) == NormalizeLanguage(language)
  {
    LowerIsLower(language);
  }

  // ---------------------------------------------------------------------------
  // The result dictionary

  /** The `structured_explanation` object; a missing key is `None`, and a missing list
      reads as the empty list, as `.get(key, [])` makes it. */
  datatype Fields = Fields(
    summary: Option<string>,
    userFriendly: Option<string>,
    details: Option<string>,
    full: Option<string>,
    functions: seq<string>,
    classes: seq<string>,
    variables: seq<string>)

  const NoFields := Fields(None, None, None, None, [], [], [])

  /** The keys a structured explanation fills. */
  function SectionFields(s: Sections): (r: Fields)
    ensures r.summary == Some(s.summary) && r.details == Some(s.details) && r.full == Some(s.full)
    ensures r.userFriendly == Some(s.userFriendly)
    ensures r.functions == s.functions && r.classes == s.classes && r.variables == s.variables
  {
    Fields(Some(s.summary), Some(s.userFriendly), Some(s.details), Some(s.full), s.functions, s.classes,
           s.variables)
  }

  /** The dictionary `explain_code` or the Gemini fallback returns; a missing key is `None`
      and a missing `structured_explanation` is `NoFields`. */
  datatype ResultDict = ResultDict(
    error: Option<string>,
    raw: Option<string>,
    structured: Fields,
    language: Option<string>,
    modelUsed: Option<string>)

  function ErrorDict(message: string): (r: ResultDict)
    ensures r.error == Some(message) && r.raw.None? && r.structured == NoFields
  {
    ResultDict(Some(message), None, NoFields, None, None)
  }

  /** What the transformer run ended with: the model could not be loaded, no token was
      generated, generation raised, or the decoded and cleaned text. */
  datatype Generation = NotLoaded | NoNewTokens | GenerationFailed(message: string) | Generated(text: string)

  /** Fewer stripped characters than this count as no explanation. */
  const MinimumExplanation: nat := 10

  /** Enough text once surrounding whitespace is removed. */
  predicate LongEnough(text: string)
  {
    |Strip(text)| >= MinimumExplanation
  }

  /** `explain_code` after generation: each failure is a dictionary with only an error,
      and a long enough text is returned raw and structured with the language and the
      model's name. */
  function ExplainCode(model: ExplanationModel, language: string, generation: Generation): (r: ResultDict)
    ensures r.error.None? <==> generation.Generated? && LongEnough(generation.text)
    ensures r.error.Some? ==> r.raw.None? && r.structured == NoFields && r.language.None? && r.modelUsed.None?
    ensures r.error.None? ==> && r.raw == Some(generation.text)
                              && r.structured == SectionFields(StructureExplanation(generation.text))
                              && r.language == Some(language) && r.modelUsed == Some(model.name)
    ensures generation.NotLoaded? ==> r.error == Some("Failed to load NLP model")
    ensures generation.NoNewTokens? ==> r.error == Some("Model did not generate any explanation")
    ensures generation.GenerationFailed? ==> r.error == Some("Error generating explanation: " + generation.message)
    ensures generation.Generated? && !LongEnough(generation.text) ==>
      r.error == Some("Generated explanation is too short or empty")
  {
    match generation
    case NotLoaded => ErrorDict("Failed to load NLP model")
    case NoNewTokens => ErrorDict("Model did not generate any explanation")
    case GenerationFailed(message) => ErrorDict("Error generating explanation: " + message)
    case Generated(text) =>
      if !LongEnough(text) then ErrorDict("Generated explanation is too short or empty")
      else ResultDict(None, Some(text), SectionFields(StructureExplanation(text)), Some(language), Some(model.name))
  }

  /** A successful explanation always has a paragraph, so the structuring never takes its
      branch for text without paragraphs. */
  lemma ExplainedHasParagraphs(model: ExplanationModel, language: string, generation: Generation)
    requires ExplainCode(model, language, generation).error.None?
    ensures Paragraphs(Strip(generation.text)) != []
    ensures generation.text != [] && Strip(generation.text) != []
  {
    NoParagraphsIffEmpty(generation.text);
  }

  // ---------------------------------------------------------------------------
  // Choosing the explainer

  const DefaultModelName := "Salesforce/codegen-350M-mono"

  /** The requested model name, or the default one when none (or an empty one) is given. */
  function ModelName(modelName: Option<string>): (r: string)
    ensures Truthy(modelName) ==> r == modelName.value
    ensures !Truthy(modelName) ==> r == DefaultModelName
    ensures r != ""
  {
    if Truthy(modelName) then modelName.value else DefaultModelName
  }

  /** What `analyze_code_with_gemini` met: the analyzer was built and the service gave
      `reply` (which `analyze_code` turns into a record, catching its own exceptions), or
      building the analyzer raised. */
  datatype GeminiOutcome = GeminiReplied(reply: Reply)
                         | GeminiRaised(message: string)

  type GeminiRecord = Envelope<string, string, string, string>

  /** The answer to a model-backed request: Gemini's own record or a result dictionary. */
  datatype Answer = GeminiAnswer(envelope: GeminiRecord) | Dictionary(result: ResultDict)

  datatype Served = Served(answer: Answer, cache: ModelCache)

  /** The dictionary a raised Gemini call becomes: the error, an empty raw explanation and
      an empty structured explanation. */
  function GeminiFailure(message: string): (r: ResultDict)
    ensures r.error == Some("Gemini analysis failed: " + message)
    ensures r.raw == Some("") && r.structured == NoFields && r.language.None? && r.modelUsed.None?
  {
    ResultDict(Some("Gemini analysis failed: " + message), Some(""), NoFields, None, None)
  }

  /** `analyze_code_nlp`: a Gemini name goes to Gemini with the language as given, and an
      exception out of it becomes an error dictionary; any other request fetches the named (or default) model from the cache,
      with its saved copy as the location, and explains the code in the normalised
      language. */
  function AnalyzeNlp(language: string, modelName: Option<string>, cache: ModelCache, moduleDir: string,
                      gemini: GeminiOutcome, generation: Generation): (r: Served)
    ensures WantsGemini(modelName) ==> r.cache == cache
    ensures WantsGemini(modelName) && gemini.GeminiReplied? ==>
      r.answer == GeminiAnswer(AnalyzeReply<string, string, string, string>(gemini.reply, language))
    ensures WantsGemini(modelName) && gemini.GeminiRaised? ==> r.answer == Dictionary(GeminiFailure(gemini.message))
    ensures !WantsGemini(modelName) ==>
      var name := ModelName(modelName);
      var lookup := GetModel(cache, name, Some(SavedModelPath(moduleDir, name)), moduleDir);
      r.cache == lookup.cache && r.answer == Dictionary(ExplainCode(lookup.model, NormalizeLanguage(language), generation))
  {
    if WantsGemini(modelName) then
      match gemini
      case GeminiReplied(reply) => Served(GeminiAnswer(AnalyzeReply(reply, language)), cache)
      case GeminiRaised(message) => Served(Dictionary(GeminiFailure(message)), cache)
    else
      var name := ModelName(modelName);
      var lookup := GetModel(cache, name, Some(SavedModelPath(moduleDir, name)), moduleDir);
      Served(Dictionary(ExplainCode(lookup.model, NormalizeLanguage(language), generation)), lookup.cache)
  }

  /** Every cached model object is stored under its own name. */
  predicate CacheConsistent(cache: ModelCache)
  {
    forall n :: n in cache ==> cache[n].name == n
  }

  /** A request keeps every cached model stored under its own name. */
  lemma CacheStaysConsistent(language: string, modelName: Option<string>, cache: ModelCache, moduleDir: string,
                             gemini: GeminiOutcome, generation: Generation)
    requires CacheConsistent(cache)
    ensures CacheConsistent(AnalyzeNlp(language, modelName, cache, moduleDir, gemini, generation).cache)
  {
    if !WantsGemini(modelName) {
      var name := ModelName(modelName);
      GetModelConsistent(cache, name, Some(SavedModelPath(moduleDir, name)), moduleDir);
    }
  }

  lemma GetModelConsistent(cache: ModelCache, name: string, localPath: Option<string>, moduleDir: string)
    requires CacheConsistent(cache)
    ensures CacheConsistent(GetModel(cache, name, localPath, moduleDir).cache)
    ensures GetModel(cache, name, localPath, moduleDir).model.name == name
  {
    var r := GetModel(cache, name, localPath, moduleDir);
    forall n | n in r.cache
      ensures r.cache[n].name == n
    {
      if n != name {
        assert r.cache[n] == cache[n];
      }
    }
  }

  /** With a consistent cache, a model explanation reports the requested (or default)
      model and the normalised language. */
  lemma ExplanationReportsModel(language: string, modelName: Option<string>, cache: ModelCache,
                                moduleDir: string, gemini: GeminiOutcome, generation: Generation)
    requires CacheConsistent(cache)
    ensures var r := AnalyzeNlp(language, modelName, cache, moduleDir, gemini, generation);
      r.answer.Dictionary? && r.answer.result.error.None? ==>
        && r.answer.result.modelUsed == Some(ModelName(modelName))
        && r.answer.result.language == Some(NormalizeLanguage(language))
  {
    if !WantsGemini(modelName) {
      var name := ModelName(modelName);
      GetModelConsistent(cache, name, Some(SavedModelPath(moduleDir, name)), moduleDir);
    }
  }

  /** A request without a model name uses the default model, cached under its name, and
      a first request for it stores the default model at its saved-copy location. */
  lemma DefaultModelChosen(language: string, cache: ModelCache, moduleDir: string, gemini: GeminiOutcome,
                           generation: Generation)
    ensures var r := AnalyzeNlp(language, None, cache, moduleDir, gemini, generation);
      && DefaultModelName in r.cache
      && (DefaultModelName !in cache ==>
            r.cache[DefaultModelName].localPath == SavedModelPath(moduleDir, DefaultModelName))
  {
    var path := SavedModelPath(moduleDir, DefaultModelName);
    assert path != "" by {
      assert EndsWith(path, ShortName(DefaultModelName));
      assert DefaultModelName[|DefaultModelName| - 1] == 'o';
    }
  }

  /** Every name in the Gemini list, in any letter case, selects Gemini. */
  lemma GeminiNameChosen(name: string)
    requires Lower(name) in GeminiNames
    ensures WantsGemini(Some(name))
  {
    assert Lower(name) != [];
  }

  /** A Gemini request never fetches or creates a transformer model. */
  lemma GeminiLeavesCache(language: string, name: string, cache: ModelCache, moduleDir: string,
                          gemini: GeminiOutcome, generation: Generation)
    requires Lower(name) in GeminiNames
    ensures AnalyzeNlp(language, Some(name), cache, moduleDir, gemini, generation).cache == cache
    ensures AnalyzeNlp(language, Some(name), cache, moduleDir, gemini, generation).answer.GeminiAnswer?
      <==> gemini.GeminiReplied?
  {
    GeminiNameChosen(name);
  }

  /** With a Gemini name, the service's reply reaches the caller as the record
      `analyze_code` builds: an error record exactly when the reply is missing or empty,
      and otherwise one whose full explanation is the stripped reply. */
  lemma GeminiReplyRecord(language: string, name: string, cache: ModelCache, moduleDir: string,
                          reply: Reply, generation: Generation)
    requires Lower(name) in GeminiNames
    ensures var r := AnalyzeNlp(language, Some(name), cache, moduleDir, GeminiReplied(reply), generation);
      && r.answer == GeminiAnswer(AnalyzeReply(reply, language))
      && (r.answer.envelope.metadata.error <==> !(reply.Answered? && reply.text != ""))
      && (reply.Answered? && reply.text != "" ==> r.answer.envelope.full == Strip(reply.text))
  {
    GeminiNameChosen(name);
  }

  // ---------------------------------------------------------------------------
  // Reshaping for the front end

  /** `format_explanation`'s answer: only the error, or the front end's record with the
      raw explanation alongside. */
  datatype Formatted = ErrorOnly(error: string)
                     | Shaped(envelope: Envelope<string, string, string, string>, raw: string)

  /** A default for a missing key. */
  function Or(value: Option<string>, default: string): (r: string)
    ensures value.Some? ==> r == value.value
    ensures value.None? ==> r == default
  {
    if value.Some? then value.value else default
  }

  /** The summary a front-end record falls back on when the model gave none. */
  const FallbackFriendly := NoParagraphSummary

  /** `format_explanation`: a dictionary with an error becomes just that error; otherwise
      each text comes from the structured explanation or its default (the raw text cut
      to 200 characters, the generic sentence, "", the raw text), the three lists are
      copied in order, there are no imports and the analysis type is "nlp". */
  function FormatExplanation(d: ResultDict): (r: Formatted)
    ensures d.error.Some? <==> r.ErrorOnly?
    ensures d.error.Some? ==> r.error == d.error.value
    ensures d.error.None? ==>
      var raw := Or(d.raw, "");
      && r.raw == raw
      && r.envelope.summary == Or(d.structured.summary, Take(raw, SummaryCutoff))
      && r.envelope.userFriendly == Some(Or(d.structured.userFriendly, FallbackFriendly))
      && r.envelope.details == Or(d.structured.details, "")
      && r.envelope.full == Or(d.structured.full, raw)
      && r.envelope.functions == d.structured.functions
      && r.envelope.classes == d.structured.classes
      && r.envelope.variables == d.structured.variables
      && r.envelope.imports == []
      && r.envelope.language == Or(d.language, "")
      && r.envelope.metadata == Metadata(Or(d.modelUsed, ""), "nlp", None, false)
  {
    if d.error.Some? then ErrorOnly(d.error.value)
    else
      var raw := Or(d.raw, "");
      var s := d.structured;
      Shaped(Envelope(Or(s.summary, Take(raw, SummaryCutoff)), Some(Or(s.userFriendly, FallbackFriendly)),
                      Or(s.details, ""), Or(s.full, raw), s.functions, s.classes, s.variables, [],
                      Or(d.language, ""), Metadata(Or(d.modelUsed, ""), "nlp", None, false)), raw)
  }

  /** Every error, whatever else the dictionary holds, passes through alone. */
  lemma ErrorPassesThrough(d: ResultDict)
    requires d.error.Some?
    ensures FormatExplanation(d) == ErrorOnly(d.error.value)
  {
  }

  /** A failed Gemini call, though it carries an empty raw and structured explanation,
      formats to its error alone. */
  lemma GeminiFailureFormatted(message: string)
    ensures FormatExplanation(GeminiFailure(message)) == ErrorOnly("Gemini analysis failed: " + message)
  {
  }

  /** A model explanation survives the reshaping: the front end sees the structured
      summary, details and full text, the keyword summary, and the raw text. */
  lemma FormatKeepsExplanation(model: ExplanationModel, language: string, text: string)
    requires LongEnough(text)
    ensures var s := StructureExplanation(text);
      var r := FormatExplanation(ExplainCode(model, language, Generated(text)));
      && r.Shaped? && r.raw == text
      && r.envelope.summary == s.summary && r.envelope.details == s.details
      && r.envelope.full == Strip(text) && r.envelope.userFriendly == Some(UserFriendlySummary(Strip(text)))
      && r.envelope.functions == [] && r.envelope.imports == []
      && r.envelope.language == language && r.envelope.metadata.modelUsed == model.name
  {
  }

  /** A dictionary with neither an error nor any explanation key gets every default:
      the raw text cut to 200 characters as summary, the generic sentence, no details,
      the raw text as full explanation, and empty lists. */
  lemma EmptyDictionaryDefaults(raw: string)
    ensures var r := FormatExplanation(ResultDict(None, Some(raw), NoFields, None, None));
      && r.Shaped?
      && r.envelope.summary == Take(raw, 200) && StartsWith(raw, r.envelope.summary)
      && r.envelope.userFriendly == Some(CodePrefix + "performs programming operations.")
      && r.envelope.details == "" && r.envelope.full == raw
      && r.envelope.functions == [] && r.envelope.classes == [] && r.envelope.variables == []
      && r.envelope.language == "" && r.envelope.metadata.modelUsed == ""
  {
  }
}
