# Code explainer: rule-based analyzers and text post-processing

This project models, in Dafny, the deterministic core of a code-explanation back end. It has two parts.

**The rule-based analyzers.** There is one analyzer per language: Python, and the "full" and "simple" analyzers for JavaScript, Java and C++. Each turns the constructs found in a piece of code into a fixed-shape result record. The record holds:

- ordered sentence fragments joined into `full_explanation`;
- a `summary`/`details` split, chosen by that analyzer's own policy;
- feature tags, joined Oxford-comma style into `user_friendly_summary`;
- the lists of functions, classes, variables and imports;
- the metadata.

Every analyzer also has an error record.

**The text post-processing of the model-backed path.** This covers:

- the transformer explainer's settings, prompt, paragraph and sentence structuring, and keyword summary;
- its per-name model cache;
- how the Gemini explainer sorts its reply into summary and detail lines and builds its records;
- the API layer that routes a request, normalises the language name and reshapes the result for the front end.

What the outside world decides becomes an input:

- **Regular expressions.** A rule's match is one boolean per rule. A name-extracting rule gives the sequence of names it matched, in match order.
- **Python parsing.** The parsed module is a small abstract syntax: imports, function and class nodes in `ast.walk` order, and the top-level statements. A module docstring is found only in a leading string-expression statement, which stays in the body as an `Other` statement. `PythonAnalyzer.WellFormed` states this; the analyzer itself accepts any module.
- **Generation.** The transformer's generated text, or its failure, is an input.
- **Gemini.** The Gemini service's reply, or the exception it raised, is an input.

Files:

| file | module | contents |
|---|---|---|
| `core.dfy` | `Core` | `Option`, the detection outcome (a scan, or an exception message), Python truthiness of an optional string |
| `text.dfy` | `Text` | `str` operations over `seq<char>`: ASCII `lower`/`upper`, `startswith`/`endswith`/`in`, `split` and `join` (with their round trip), `strip`, slicing, decimal rendering |
| `envelope.dfy` | `Envelopes` | the result record, its metadata, and the list entries |
| `assembly.dfy` | `Assembly` | the Oxford-comma feature summary, the 200-character cutoff split, the first-fragment split, the ". " sentence split, selection of the fired rules in table order |
| `rules.dfy` | `Rules` | rule tables (fragment plus optional tag), the fragments and tags of the fired rules, the shared record of the simple analyzers, the shared error record |
| `python_analyzer.dfy` | `PythonAnalyzer` | `analyze_python`, `analyze_function`, `analyze_class`, `analyze_function_body`, `analyze_statement` |
| `js_analyzer.dfy`, `java_analyzer.dfy`, `cpp_analyzer.dfy` | `JsAnalyzer`, `JavaAnalyzer`, `CppAnalyzer` | the full pattern analyzers |
| `js_analyzer_simple.dfy`, `java_analyzer_simple.dfy`, `cpp_analyzer_simple.dfy` | `JsAnalyzerSimple`, `JavaAnalyzerSimple`, `CppAnalyzerSimple` | the simple pattern analyzers |
| `nlp_model.dfy` | `NlpModel` | the transformer explainer: model settings, the model cache, `_preprocess_code`, `_structure_explanation`, `_create_user_friendly_summary` |
| `gemini_analyzer.dfy` | `GeminiAnalyzer` | the prompt's language context, `_structure_gemini_response`, `_create_error_response`, what `analyze_code` does with the reply |
| `nlp_api.dfy` | `NlpApi` | `analyze_code_nlp` (Gemini routing, language normalisation, model choice), what `explain_code` returns after generation, `format_explanation` |

## Model

| member | source | states |
|---|---|---|
| PythonAnalyzer.ImportNaming | backend/app/analyzers/python_analyzer.py:41-59 | each alias of `import m` is recorded as plain `m` with its alias; a from-import is named "module.name", or just "name" when there is no module, and keeps its module |
| PythonAnalyzer.NodeImports | backend/app/analyzers/python_analyzer.py:42-59 | one import record per alias, in order, each carrying that alias's `asname` |
| PythonAnalyzer.ImportInfos | backend/app/analyzers/python_analyzer.py:40-61 | no imports are found exactly when no import node has any alias; the list opens with the first node's records |
| PythonAnalyzer.ImportInfosOne | backend/app/analyzers/python_analyzer.py:40-59 | a single import node contributes exactly its own per-alias records |
| PythonAnalyzer.ImportInfosConcat | backend/app/analyzers/python_analyzer.py:40-59 | the records of a sequence of nodes are those of each part in turn, so they follow the walk order node by node |
| PythonAnalyzer.ImportNames | backend/app/analyzers/python_analyzer.py:62 | the names listed in the imports sentence are the records' names, one for one, in order |
| PythonAnalyzer.BodyStatements | backend/app/analyzers/python_analyzer.py:282-314 | at most one description per body statement; the list is empty exactly when no statement is of a described kind |
| PythonAnalyzer.DescriptionMentionsCall | backend/app/analyzers/python_analyzer.py:307-312 | a statement description contains "Calls function" exactly when the statement is a call by plain name |
| PythonAnalyzer.FixedDescriptionLacksMarker | backend/app/analyzers/python_analyzer.py:289-306 | none of the fixed descriptions (return, assign, update, if, for, while, try, raise, assert) contains "Calls function" |
| PythonAnalyzer.DescriptionNotBareReturn | backend/app/analyzers/python_analyzer.py:290 | no statement description equals "Returns a value", so the membership test at line 228 never holds |
| PythonAnalyzer.FunctionBehaviour | backend/app/analyzers/python_analyzer.py:227-233 | "returns a calculated result" is never emitted; "calls other functions" appears iff some body statement is a call by plain name; "performs various operations" appears iff there is none but some statement is described; no clause appears iff nothing is described |
| PythonAnalyzer.BodyStatementsFacts | backend/app/analyzers/python_analyzer.py:228-230 | "Returns a value" is never in the statement list, and some entry contains "Calls function" iff a body statement calls by plain name |
| PythonAnalyzer.NoBareReturn | backend/app/analyzers/python_analyzer.py:228 | the statement list of any body lacks the entry "Returns a value" |
| PythonAnalyzer.MentionsIffCalls | backend/app/analyzers/python_analyzer.py:230 | `any('Calls function' in s …)` holds exactly when some body statement is a call by plain name |
| PythonAnalyzer.NameClause | backend/app/analyzers/python_analyzer.py:212-217 | `main` gets "This defines the main function that serves as the program's entry point"; any other name starting with "__" gets "This defines a special method '<name>' that handles specific object behavior"; every other name gets "This defines a function called '<name>'" |
| PythonAnalyzer.ParamClause | backend/app/analyzers/python_analyzer.py:219-225 | no parameters gives " that doesn't require any input parameters"; one gives " that takes one input parameter called '<p>'"; two or more give " that takes <n> input parameters: " followed by the names joined by ", " |
| PythonAnalyzer.DescribeBodyStmt | backend/app/analyzers/python_analyzer.py:288-312 | a call statement of a plain name is described as "Calls function '<name>'."; `with`, imports, `def`s, classes, unlisted statements and calls of anything but a plain name get no description |
| PythonAnalyzer.BehaviourClause | backend/app/analyzers/python_analyzer.py:227-233 | the clause is one of the three behaviour phrases or empty; it is empty exactly when there are no statement descriptions; the "calls other functions" phrase is chosen only when some description contains "Calls function" |
| PythonAnalyzer.AnalyzeFunction | backend/app/analyzers/python_analyzer.py:194-243 | the record keeps the name, the positional parameters and the docstring; the description is the name clause, then the parameter clause, then the behaviour clause of the body's statement descriptions, then "." |
| PythonAnalyzer.FunctionNaming | backend/app/analyzers/python_analyzer.py:212-217 | every function other than `main` has its name, quoted, in its description |
| PythonAnalyzer.ParamListRoundTrip | backend/app/analyzers/python_analyzer.py:222-223 | with two or more parameters, none containing ", ", the clause states their count in decimal, and splitting the rest on ", " gives back the parameter names |
| PythonAnalyzer.PlainBases | backend/app/analyzers/python_analyzer.py:252-255 | the recorded bases are the bases written as plain names, each as often as it is written |
| PythonAnalyzer.PlainBasesConcat | backend/app/analyzers/python_analyzer.py:253-255 | the bases of a concatenation are the bases of each part, in order, so the written order is kept |
| PythonAnalyzer.MethodNames | backend/app/analyzers/python_analyzer.py:261-264 | the methods are the `def` statements directly in the class body, each name as often as it is defined |
| PythonAnalyzer.MethodNamesConcat | backend/app/analyzers/python_analyzer.py:262-264 | the methods of a concatenated body are those of each part, in order, so the body's order is kept |
| PythonAnalyzer.AnalyzeClass | backend/app/analyzers/python_analyzer.py:245-280 | the record keeps the name and docstring; its bases are the plain-name bases and its methods the direct `def`s, in order and with repeats |
| PythonAnalyzer.ClassDescriptionShape | backend/app/analyzers/python_analyzer.py:266-271 | the description is "Class '<name>'", then " inherits from " and the bases joined by ", " when there are bases, then " with <n> method(s): " and the methods joined by ", " (or "none") and ".", then " Docstring: '<doc>'" exactly when the docstring is non-empty, with nothing else in between |
| PythonAnalyzer.AnalyzeStatement | backend/app/analyzers/python_analyzer.py:316-345 | every module-level statement gets a non-empty clause; a call of any other plain name gets "calls the '<name>' function" |
| PythonAnalyzer.CodeStatements | backend/app/analyzers/python_analyzer.py:93-94 | the module-level code statements are the top-level statements that are not imports, `def`s or classes, each as often as it occurs |
| PythonAnalyzer.CodeStatementsOne | backend/app/analyzers/python_analyzer.py:93-94 | a single statement is kept exactly when it is not an import, `def` or class |
| PythonAnalyzer.CodeStatementsConcat | backend/app/analyzers/python_analyzer.py:93-110 | the code statements of a concatenated body are those of each part in turn, so the clauses follow the body's order |
| PythonAnalyzer.MainCodeParts | backend/app/analyzers/python_analyzer.py:93-110 | exactly one non-empty clause per module-level code statement, in order |
| PythonAnalyzer.NameTargets | backend/app/analyzers/python_analyzer.py:96-104 | an assignment records one variable per plain-name target, each name as often as it is a target |
| PythonAnalyzer.NameTargetsConcat | backend/app/analyzers/python_analyzer.py:96-104 | targets are recorded in the order written: those of a concatenation are those of each part in turn |
| PythonAnalyzer.ModuleVariables | backend/app/analyzers/python_analyzer.py:93-104 | the module variables are exactly the plain names some top-level assignment assigns, each recorded as often as the assignments name it |
| PythonAnalyzer.ModuleVariablesOne | backend/app/analyzers/python_analyzer.py:95-104 | a single statement contributes its plain-name targets when it is an assignment, and nothing otherwise |
| PythonAnalyzer.ModuleVariablesConcat | backend/app/analyzers/python_analyzer.py:93-104 | the variables of a concatenated body are those of each part in turn, so they follow statement order |
| PythonAnalyzer.FunctionInfos | backend/app/analyzers/python_analyzer.py:66-71 | one function record per `FunctionDef` node, in walk order |
| PythonAnalyzer.ClassInfos | backend/app/analyzers/python_analyzer.py:78-83 | one class record per `ClassDef` node, in walk order |
| PythonAnalyzer.FunctionDescriptions | backend/app/analyzers/python_analyzer.py:73-75 | the function fragments are the function descriptions, in walk order |
| PythonAnalyzer.ClassDescriptions | backend/app/analyzers/python_analyzer.py:85-87 | the class fragments are the class descriptions, in walk order |
| PythonAnalyzer.FragmentOrder | backend/app/analyzers/python_analyzer.py:31-117 | the fragments are, in order: the docstring sentence, one imports sentence, the function descriptions, the class descriptions, and last the main-code sentence |
| PythonAnalyzer.LeadingFragments | backend/app/analyzers/python_analyzer.py:34-63 | the docstring sentence comes first and the imports sentence follows it |
| PythonAnalyzer.FunctionFragments | backend/app/analyzers/python_analyzer.py:73-75 | function descriptions sit right after the docstring and imports sentences |
| PythonAnalyzer.ClassFragments | backend/app/analyzers/python_analyzer.py:85-87 | class descriptions sit right after the function descriptions |
| PythonAnalyzer.MainFragmentLast | backend/app/analyzers/python_analyzer.py:112-117 | whenever some module-level code statement exists, the last fragment is the main-code sentence built from its clauses |
| PythonAnalyzer.PythonTags | backend/app/analyzers/python_analyzer.py:132-142 | each of the five tags is present exactly when its kind of construct was found, and no tag appears twice |
| PythonAnalyzer.VariablesFound | backend/app/analyzers/python_analyzer.py:137 | variables are found iff some top-level assignment has a plain-name target |
| PythonAnalyzer.MainCodeFound | backend/app/analyzers/python_analyzer.py:141 | main-code clauses exist iff some top-level statement is not an import, `def` or class |
| PythonAnalyzer.DocstringAddsMainCode | backend/app/analyzers/python_analyzer.py:90-142 | in a module with a docstring, the docstring's own statement (line 34 reads it from there) is module-level code: the first clause is "Contains executable code.", the main-code sentence is the last fragment, and the "executes main program logic" tag is present |
| PythonAnalyzer.LeadingOtherClause | backend/app/analyzers/python_analyzer.py:345 | a body led by a statement no branch of `analyze_statement` recognises has "Contains executable code." as its first main-code clause |
| PythonAnalyzer.PythonError | backend/app/analyzers/python_analyzer.py:161-192 | a syntax error gives summary "Python syntax error: …" and full "Python syntax error at line N: …"; any other failure gives "Analysis error: …"; both have error set, empty lists and no `user_friendly_summary` |
| PythonAnalyzer.PythonReport | backend/app/analyzers/python_analyzer.py:15-159 | full is the fragments joined by " "; summary and details are the two-sentence split; the friendly summary is the Oxford list of tags; the lists are the records found |
| PythonAnalyzer.AnalyzePython | backend/app/analyzers/python_analyzer.py:4-192 | the error flag is set exactly when parsing or analysis failed; a parsed module gets the fragments, the split and the tag summary; the language is always "python" |
| Assembly.OxfordListAsJoin | backend/app/analyzers/python_analyzer.py:150 | three or more tags are all but the last joined by ", ", then ", and " and the last |
| Assembly.FeatureSummaryGrammar | backend/app/analyzers/python_analyzer.py:144-152 | no tags gives the generic sentence; one gives "…code X."; two give "X and Y."; three or more give "A, B, and C." |
| Assembly.FeatureSummaryMentions | backend/app/analyzers/js_analyzer.py:150-158 | every tag appears in the user-friendly summary |
| Assembly.OxfordListMentionsEach | backend/app/analyzers/cpp_analyzer.py:69-77 | every item of the Oxford list appears in it |
| Assembly.JoinMentionsEach | backend/app/analyzers/python_analyzer.py:120 | every part appears in the join |
| Assembly.JoinMentions | backend/app/analyzers/js_analyzer.py:141 | the k-th part appears in the parts joined by any separator |
| Assembly.CutoffSplit | backend/app/analyzers/cpp_analyzer.py:79-82 | up to 200 characters: summary is the text and details are empty; longer: summary is 203 characters ending in "...", and its first 200 characters followed by the details give back the text |
| Assembly.LeadSplit | backend/app/analyzers/js_analyzer.py:141-163 | no fragments gives the fallback summary and empty details; otherwise summary is the first fragment, and with two or more, full == summary + " " + details |
| Assembly.SentenceSplitReconstructs | backend/app/analyzers/java_analyzer.py:91-94 | when the text has more ". " pieces than the summary takes, full == summary + " " + details |
| Assembly.SentenceSplitSummary | backend/app/analyzers/python_analyzer.py:123-126 | the summary is the first piece (Java) or the first two pieces rejoined by ". " (Python), followed by "." |
| Assembly.LeadSentence | backend/app/analyzers/java_analyzer.py:91-94 | when the first fragment is one sentence ending in ".", the one-sentence split returns it as the summary and the rest as the details |
| Assembly.SentenceSplitWhole | backend/app/analyzers/python_analyzer.py:124-126 | with exactly two pieces the summary is the whole text plus "." and the details are empty |
| Assembly.SentenceSplitFallsBack | backend/app/analyzers/python_analyzer.py:127-129 | a text with no ". " has fewer than two pieces and gets the 200-character cutoff split |
| Assembly.Selected | backend/app/analyzers/cpp_analyzer.py:28-61 | the fired entries of a table, each fired entry present, nothing else, empty iff nothing fired |
| Assembly.SelectedByIndices | backend/app/analyzers/cpp_analyzer.py:28-61 | the n-th selected entry is the table entry at the n-th fired position, so table order is kept |
| Assembly.SelectedExactlyFired | backend/app/analyzers/java_analyzer.py:64-85 | with distinct entries, an entry is selected exactly when its rule fired, and nothing is selected twice |
| Assembly.Excluding | backend/app/analyzers/js_analyzer.py:96 | the kept names are exactly those not among the excluded ones |
| Assembly.ExcludingNone | backend/app/analyzers/js_analyzer.py:96 | with nothing to exclude every name is kept, in order |
| Assembly.ExcludingCounts | backend/app/analyzers/js_analyzer.py:94-97 | a name not excluded is kept as often as it occurs; an excluded name never is |
| Assembly.ExcludingOne | backend/app/analyzers/js_analyzer.py:96-97 | a single name is kept exactly when it is not excluded |
| Assembly.ExcludingConcat | backend/app/analyzers/js_analyzer.py:92-97 | filtering a concatenation filters each part and keeps the parts in order |
| Assembly.Counted | backend/app/analyzers/js_analyzer.py:62 | "This defines <n> <noun>: " carries the count in decimal at a fixed position, and that decimal reads back as the count |
| Assembly.FeatureSummaryFrame | backend/app/nlp/model.py:367-375 | the summary opens with "In simple terms, " and the subject, and ends with "." when there are phrases |
| Rules.Table | backend/app/analyzers/cpp_analyzer.py:28-61 | a rule table pairs each fragment with the tag at the same position |
| Rules.Present | backend/app/analyzers/cpp_analyzer.py:32-33 | the tags present are exactly the tags of rules that carry one |
| Rules.FiredFragments | backend/app/analyzers/java_analyzer_simple.py:26-45 | the n-th fragment is that of the n-th rule that fired |
| Rules.FiredTags | backend/app/analyzers/cpp_analyzer.py:28-61 | a tag is present exactly when some fired rule carries it |
| Rules.FragmentIffFired | backend/app/analyzers/cpp_analyzer_simple.py:26-48 | with distinct fragments, a rule's fragment is in the explanation exactly when the rule fired, and none appears twice |
| Rules.TagIffFired | backend/app/analyzers/js_analyzer.py:112-138 | with distinct tags, a rule's tag is among the features exactly when the rule fired |
| Rules.NoTagsWhenUntagged | backend/app/analyzers/cpp_analyzer.py:32-33 | when only untagged rules fired there are no tags |
| Rules.FiredTagsInOrder | backend/app/analyzers/java_analyzer.py:64-85 | when every rule has a tag, the tags follow the fired rules one for one, in table order |
| Rules.SimpleParts | backend/app/analyzers/cpp_analyzer_simple.py:50-51 | the fallback sentence alone exactly when no rule fired, otherwise the fired fragments |
| Rules.SimpleReport | backend/app/analyzers/cpp_analyzer_simple.py:53-58 | full is the fragments joined by " ", summary and details are its cutoff split, the lists are empty and there is no user-friendly summary |
| Rules.SimpleFallback | backend/app/analyzers/js_analyzer_simple.py:44-50 | with no rule fired, full and summary are the fallback sentence and details are empty |
| Rules.SimpleFullNonEmpty | backend/app/analyzers/java_analyzer_simple.py:47-50 | a simple analyzer's explanation opens with its first fragment and is never empty |
| Rules.AnalysisError | backend/app/analyzers/java_analyzer.py:118-133 | an error record has error set, empty lists, and full "Error during analysis: " + message |
| Envelopes.RuleError | backend/app/analyzers/cpp_analyzer_simple.py:60-75 | an error record has error set, all four lists empty, and rule-based metadata |
| Envelopes.Described | backend/app/analyzers/js_analyzer.py:41-45 | one entry per matched name, in order, described as "<Kind> '<name>'" |
| Envelopes.Noted | backend/app/analyzers/js_analyzer.py:98-102 | one entry per name, in order, with the fixed scope note |
| JsAnalyzer.VariableNames | backend/app/analyzers/js_analyzer.py:92-102 | a name that is not a function name is recorded as often as the let, const and var patterns matched it together; a function name never is |
| JsAnalyzer.VariablesInOrder | backend/app/analyzers/js_analyzer.py:92-97 | the variables are the unexcluded let matches, then the const matches, then the var matches, each in match order |
| JsAnalyzer.VariablesExcludeFunctions | backend/app/analyzers/js_analyzer.py:96 | a declared name is a variable exactly when it is not a function name |
| JsAnalyzer.PurposeIdentifiesGroup | backend/app/analyzers/js_analyzer.py:51-60 | a lone function's phrase is chosen by priority: calculate, then get/fetch, then set/update, then show/display, then the default |
| JsAnalyzer.PurposeIgnoresCase | backend/app/analyzers/js_analyzer.py:51-57 | the phrase does not depend on the letter case of the name |
| JsAnalyzer.PhraseLengths | backend/app/analyzers/js_analyzer.py:52-60 | the five phrases have different lengths, so they are pairwise different |
| JsAnalyzer.LoneFunctionSentence | backend/app/analyzers/js_analyzer.py:48-60 | the single-function sentence quotes the name and ends with its purpose phrase |
| JsAnalyzer.SeveralFunctionsSentence | backend/app/analyzers/js_analyzer.py:61-62 | with two or more functions, cutting off the count head and the tail and splitting the rest on ", " gives back the first three names at most; the sentence ends in "..." plus the tail exactly when there are more than three |
| JsAnalyzer.Purpose | backend/app/analyzers/js_analyzer.py:51-60 | the phrase is one of the five; it is the generic "performs specific operations" exactly when the lower-cased name contains none of the seven keywords |
| JsAnalyzer.FunctionsFragment | backend/app/analyzers/js_analyzer.py:47-62 | one function gives "This defines a function called '<name>'" and its purpose phrase; any other count gives "This defines <n> functions: " and ends " that work together to accomplish tasks." |
| JsAnalyzer.ClassesFragment | backend/app/analyzers/js_analyzer.py:77-81 | one class gives "This defines a class called '<name>'" ending " that serves as a blueprint for creating objects."; any other count opens with "This defines <n> classes: " and ends " that create different types of objects." |
| JsAnalyzer.SeveralClassesSentence | backend/app/analyzers/js_analyzer.py:80-81 | with two or more classes, the text between the count head and the tail splits on ", " back into all the class names, in order |
| JsAnalyzer.VariablesFragment | backend/app/analyzers/js_analyzer.py:104-108 | one variable gives "This creates a variable called '<name>'" ending " to store data."; any other count gives "This creates <n> variables to store different pieces of data." with the count readable back from its decimal |
| JsAnalyzer.Shown | backend/app/analyzers/js_analyzer.py:62 | at most the first three names are shown, all of them when there are three or fewer |
| JsAnalyzer.JsTable | backend/app/analyzers/js_analyzer.py:47-138 | ten rules, in source order: the functions sentence of the function names, the classes sentence, the variables sentence of the kept variables, then the seven fixed sentences; the tags are the ten JavaScript tags in the same order |
| JsAnalyzer.JsReport | backend/app/analyzers/js_analyzer.py:140-165 | full is the fired sentences joined by " " or the fallback; summary is the first sentence, or "This is a JavaScript code file."; the lists are the names found, and imports are empty |
| JsAnalyzer.AnalyzeJavaScript | backend/app/analyzers/js_analyzer.py:3-183 | the error flag is set exactly when analysis raised; the error record keeps a `user_friendly_summary` and has empty lists |
| JsAnalyzer.JsTagsFollowSentences | backend/app/analyzers/js_analyzer.py:63-138 | there is one tag per sentence, in sentence order, and a rule's tag is present exactly when it fired |
| JsAnalyzer.JsTagsDistinct | backend/app/analyzers/js_analyzer.py:63-138 | no two JavaScript rules share a tag |
| JsAnalyzer.JsNothingFound | backend/app/analyzers/js_analyzer.py:141-158 | with nothing found, full is the fallback sentence while the summary is "This is a JavaScript code file.", details are empty, and the friendly summary is the generic one |
| JsAnalyzer.NothingFired | backend/app/analyzers/js_analyzer.py:141-147 | with no rule fired there are no sentences and no tags |
| JavaAnalyzer.KeptMethods | backend/app/analyzers/java_analyzer.py:49-52 | the methods are the matched names other than main, if, for and while, each kept as often as it matched |
| JavaAnalyzer.KeptMethodsInOrder | backend/app/analyzers/java_analyzer.py:49-52 | one match is kept exactly when it is not excluded, and filtering a concatenation filters each part in order, so match order is kept |
| JavaAnalyzer.ClassFragment | backend/app/analyzers/java_analyzer.py:39-43 | one class gives "This defines a Java class called '<name>'" ending " that serves as a blueprint for creating objects."; any other count opens with "This defines <n> Java classes: " and ends " that create different types of objects." |
| JavaAnalyzer.SeveralJavaClasses | backend/app/analyzers/java_analyzer.py:42-43 | with two or more classes, the text between the count head and the tail splits on ", " back into all the class names, in order |
| JavaAnalyzer.MethodFragment | backend/app/analyzers/java_analyzer.py:59-60 | the methods sentence is "This defines ", the count in decimal (readable back as the count), and " method(s) that perform specific operations." |
| JavaAnalyzer.MethodsFire | backend/app/analyzers/java_analyzer.py:59-61 | the methods sentence appears exactly when some matched name is not excluded |
| JavaAnalyzer.JavaTable | backend/app/analyzers/java_analyzer.py:39-85 | seven rules, in source order: the class sentence, the methods sentence with the number of kept methods, then the five fixed sentences; the tags are the seven Java tags in the same order |
| JavaAnalyzer.Fired | backend/app/analyzers/java_analyzer.py:39 | the class sentence fires exactly when some class was matched |
| JavaAnalyzer.AnalyzeJava | backend/app/analyzers/java_analyzer.py:3-133 | full is the fired sentences joined by " " or the fallback; summary and details are the one-sentence split; the lists are the classes and kept methods; the error record has no `user_friendly_summary` |
| JavaAnalyzer.JavaTagsFollowSentences | backend/app/analyzers/java_analyzer.py:39-85 | one tag per fired sentence, in sentence order; a rule's tag is present exactly when it fired |
| JavaAnalyzer.JavaTagsDistinct | backend/app/analyzers/java_analyzer.py:39-85 | no two Java rules share a tag |
| JavaAnalyzer.JavaNothingFound | backend/app/analyzers/java_analyzer.py:88-108 | with nothing found, full and summary are the fallback sentence, details are empty, and the friendly summary is the generic one |
| JavaAnalyzer.FallbackSentence | backend/app/analyzers/java_analyzer.py:88 | the fallback is a single sentence, so the sentence split leaves it whole |
| JavaAnalyzer.JavaLeadSentence | backend/app/analyzers/java_analyzer.py:91-94 | when the first sentence has no ". " inside, it is the summary and full == summary + " " + details |
| CppAnalyzer.AnalyzeCpp | backend/app/analyzers/cpp_analyzer.py:3-102 | full is the fired fragments joined by " ", with no fallback; summary and details are the cutoff split; the language is "c++"; the lists are empty; the error record has no `user_friendly_summary` |
| CppAnalyzer.CppFragmentsFire | backend/app/analyzers/cpp_analyzer.py:28-61 | each fragment appears exactly when its rule fired, and at most once |
| CppAnalyzer.CppTagsFire | backend/app/analyzers/cpp_analyzer.py:28-61 | each tagged rule's tag appears exactly when the rule fired |
| CppAnalyzer.CppNamespaceUntagged | backend/app/analyzers/cpp_analyzer.py:32-33 | the namespace rule alone adds a fragment but no tag, so the friendly summary is the generic one |
| CppAnalyzer.CppFragmentsDistinct | backend/app/analyzers/cpp_analyzer.py:28-61 | the C++ fragments are pairwise different |
| CppAnalyzer.CppTagsDistinct | backend/app/analyzers/cpp_analyzer.py:28-61 | the tags of the tagged C++ rules are pairwise different |
| CppAnalyzer.CppNothingFound | backend/app/analyzers/cpp_analyzer.py:64-83 | with no rule fired, the fallback at line 64 is overwritten at line 79, so full, summary and details are all empty |
| CppAnalyzerSimple.AnalyzeCpp | backend/app/analyzers/cpp_analyzer_simple.py:3-75 | the fired fragments, or the fallback, joined by " " with the cutoff split; language "c++"; no user-friendly summary; lists empty in both records |
| CppAnalyzerSimple.CppSimpleRulesFire | backend/app/analyzers/cpp_analyzer_simple.py:26-48 | each fragment appears exactly when its rule fired, at most once |
| CppAnalyzerSimple.CppSimpleFragmentsDistinct | backend/app/analyzers/cpp_analyzer_simple.py:26-48 | the simple C++ fragments are pairwise different |
| CppAnalyzerSimple.CppSimpleExplanation | backend/app/analyzers/cpp_analyzer_simple.py:50-56 | full is never empty; with no rule fired, full and summary are the fallback sentence and details are empty |
| JavaAnalyzerSimple.AnalyzeJava | backend/app/analyzers/java_analyzer_simple.py:3-72 | the fired fragments, or the fallback, joined by " " with the cutoff split; language "java"; no user-friendly summary; lists empty |
| JavaAnalyzerSimple.JavaSimpleRulesFire | backend/app/analyzers/java_analyzer_simple.py:26-45 | each fragment appears exactly when its rule fired, at most once |
| JavaAnalyzerSimple.JavaSimpleFragmentsDistinct | backend/app/analyzers/java_analyzer_simple.py:26-45 | the simple Java fragments are pairwise different |
| JavaAnalyzerSimple.JavaSimpleExplanation | backend/app/analyzers/java_analyzer_simple.py:47-53 | full is never empty; with no rule fired, full and summary are the fallback sentence and details are empty |
| JsAnalyzerSimple.AnalyzeJavascript | backend/app/analyzers/js_analyzer_simple.py:3-69 | the fired fragments, or the fallback, joined by " " with the cutoff split; language "javascript"; no user-friendly summary; lists empty |
| JsAnalyzerSimple.JsSimpleRulesFire | backend/app/analyzers/js_analyzer_simple.py:26-42 | each fragment appears exactly when its rule fired, at most once |
| JsAnalyzerSimple.JsSimpleFragmentsDistinct | backend/app/analyzers/js_analyzer_simple.py:26-42 | the simple JavaScript fragments are pairwise different |
| JsAnalyzerSimple.JsSimpleExplanation | backend/app/analyzers/js_analyzer_simple.py:44-50 | full is never empty; with no rule fired, full and summary are the fallback sentence and details are empty |
| NlpModel.ShortName | backend/app/nlp/model.py:35 | the short name has no "/", ends the full name, and is the whole name when that has no "/" |
| NlpModel.Settings | backend/app/nlp/model.py:42-47 | the limits are 350/50 exactly when the lower-cased name contains "codebert", otherwise 450/200; the input limit always exceeds the generation limit |
| NlpModel.SettingsIgnoreCase | backend/app/nlp/model.py:42 | the limits do not depend on the letter case of the name |
| NlpModel.SavedModelPathShape | backend/app/nlp/model.py:36 | the default location is the module directory, "/saved_models/" and the short name |
| NlpModel.PathJoin | backend/app/nlp/model.py:36 | the joined path ends with the second component; an absolute second component replaces the first, otherwise the path starts with the first |
| NlpModel.SavedModelPath | backend/app/nlp/model.py:34-36 | the default location lies under the module directory and ends with the short name |
| NlpModel.NewModel | backend/app/nlp/model.py:33-47 | a new model keeps its name, takes the given location when it is non-empty and the default one otherwise, and gets its name's limits |
| NlpModel.GetModel | backend/app/nlp/model.py:449-452 | a cached name returns its cached object and leaves the cache unchanged; a new name gets a new object, cached from then on; other entries are kept |
| NlpModel.FirstPathWins | backend/app/nlp/model.py:449-452 | asking twice for a name returns the same object, and the first call's location wins |
| NlpModel.OtherModelsKept | backend/app/nlp/model.py:450-451 | fetching one model never changes another name's object |
| NlpModel.Truncated | backend/app/nlp/model.py:259-261 | code of up to 1500 characters is unchanged; longer code becomes its first 1500 characters followed by the truncation marker |
| NlpModel.CodebertPrompt | backend/app/nlp/model.py:264-267 | the prompt is the fixed lead, exactly the first 200 characters of the stripped code (all of it when shorter), and the fixed tail |
| NlpModel.CodegenPrompt | backend/app/nlp/model.py:268-274 | the prompt is the language, " code:" and a line break, exactly the stripped code, and the fixed question |
| NlpModel.PreprocessCode | backend/app/nlp/model.py:258-276 | a CodeBERT model gets the CodeBERT prompt of the truncated code, any other the CodeGen prompt |
| NlpModel.CodebertPromptBounded | backend/app/nlp/model.py:264-267 | a CodeBERT prompt is at most 240 characters long, however long the code |
| NlpModel.ShortCodeKept | backend/app/nlp/model.py:259-274 | a CodeGen prompt for code of up to 1500 characters contains the whole stripped code |
| NlpModel.NonBlank | backend/app/nlp/model.py:292 | the paragraphs are stripped, non-empty, and no more than the pieces |
| NlpModel.NonBlankEmpty | backend/app/nlp/model.py:292 | there are no paragraphs exactly when every piece is whitespace |
| NlpModel.NoParagraphsIffEmpty | backend/app/nlp/model.py:289-292 | the stripped text has no paragraphs exactly when the text is all whitespace, which is exactly when the stripped text is empty |
| NlpModel.Lead | backend/app/nlp/model.py:304 | a paragraph that starts with "this" in any case is kept verbatim; any other becomes "This code " + its lower-cased form; either way the result starts with "this" |
| NlpModel.OpeningSummary | backend/app/nlp/model.py:304-309 | up to 150 characters the lead is kept; a longer one is cut where its first ". " begins (or at its end when it has none), closed with ".", and still starts with "this" |
| NlpModel.FirstSentence | backend/app/nlp/model.py:308-309 | the result less its final "." is a prefix of the text with no ". " inside, ending where the text's first ". " begins or at the text's end; it still starts with "this" |
| NlpModel.SeveralParagraphs | backend/app/nlp/model.py:301-313 | with several paragraphs the summary comes from the first, and the details are the later paragraphs joined by a blank line, so every later paragraph appears in them |
| NlpModel.LoneParagraph | backend/app/nlp/model.py:315-321 | for a single paragraph, when the text has more than two ". " pieces the summary is the first two pieces of the unprefixed text rejoined by ". " plus ".", and the text == summary + " " + details; otherwise the summary is the paragraph's opening summary and details are empty |
| NlpModel.StructureExplanation | backend/app/nlp/model.py:278-338 | full is the stripped text; summary and details are its paragraph split; the friendly summary is the keyword summary; the lists are empty |
| NlpModel.ExplanationSplit | backend/app/nlp/model.py:301-324 | no paragraph gives the fixed summary with the text as details; several give the first paragraph's opening summary and the later paragraphs joined by a blank line; one paragraph whose text has more than two ". " pieces gives the first two pieces rejoined plus "." as summary, with text == summary + " " + details; one paragraph with at most two pieces gives its opening summary and empty details |
| NlpModel.ParagraphSplit | backend/app/nlp/model.py:301-321 | with several paragraphs, the first one's opening summary and the rest joined by a blank line; with one, the sentence override when the text has more than two ". " pieces, otherwise the opening summary and empty details |
| NlpModel.BlankExplanation | backend/app/nlp/model.py:322-324 | text that is all whitespace gets the fixed summary and empty details |
| NlpModel.SummaryOpensWithThis | backend/app/nlp/model.py:301-313 | unless the single-paragraph override applies, the summary starts with "this" in some letter case |
| NlpModel.KeywordsFound | backend/app/nlp/model.py:362-365 | a keyword counts as found exactly when it occurs in the lower-cased text |
| NlpModel.FeaturePhrasesDistinct | backend/app/nlp/model.py:345-360 | the fourteen phrases are pairwise different |
| NlpModel.PhraseIffKeyword | backend/app/nlp/model.py:362-365 | a phrase is in the summary list exactly when its keyword occurs in the lower-cased text, and none twice |
| NlpModel.PhrasesInTableOrder | backend/app/nlp/model.py:363-365 | the phrases follow the keyword table's order |
| NlpModel.UserFriendlyShape | backend/app/nlp/model.py:367-375 | every found phrase appears in the summary; with no keyword found the summary is the fixed generic sentence |
| NlpModel.UserFriendlySummary | backend/app/nlp/model.py:340-375 | the summary opens with "In simple terms, this code "; with no keyword found it is the fixed generic sentence, otherwise it ends with "." |
| NlpModel.UserFriendlyIgnoresCase | backend/app/nlp/model.py:342 | the keyword summary does not depend on the letter case of the text |
| GeminiAnalyzer.ContextFor | backend/app/nlp/gemini_analyzer.py:58 | a known lower-cased language gets its own context; any other gets the Python context |
| GeminiAnalyzer.ContextIgnoresCase | backend/app/nlp/gemini_analyzer.py:58 | the context does not depend on the letter case of the language |
| GeminiAnalyzer.UnknownLanguageGetsPython | backend/app/nlp/gemini_analyzer.py:58 | an unknown language is explained with the Python context |
| GeminiAnalyzer.ExpertPrompt | backend/app/nlp/gemini_analyzer.py:58-66 | the prompt is filled with the language's context, the upper-cased language in the heading, and the code verbatim |
| GeminiAnalyzer.SortLines | backend/app/nlp/gemini_analyzer.py:150-170 | at most three summary lines; the summary lines followed by the detail lines are exactly the stripped non-blank, non-heading lines, in order; the summary lines are the first three such lines before the first heading |
| GeminiAnalyzer.StepKeeps | backend/app/nlp/gemini_analyzer.py:157-170 | one turn of the loop appends the line's content to summary followed by details and keeps details empty until the summary is frozen |
| GeminiAnalyzer.Step | backend/app/nlp/gemini_analyzer.py:158-170 | one line only extends the two lists; the summary grows only by that line, only when it is non-blank, before any heading and with fewer than three lines taken; once a heading is seen it stays seen |
| GeminiAnalyzer.SortFrom | backend/app/nlp/gemini_analyzer.py:157-170 | the loop never shortens either list, and never takes more than three summary lines |
| GeminiAnalyzer.SortKeepsEveryLine | backend/app/nlp/gemini_analyzer.py:157-170 | no content line is lost, duplicated or reordered by the loop |
| GeminiAnalyzer.SortFrozen | backend/app/nlp/gemini_analyzer.py:163-170 | once a heading is passed or three lines are taken, the summary lines never change |
| GeminiAnalyzer.SortSummary | backend/app/nlp/gemini_analyzer.py:157-168 | from a state still taking summary lines, the summary ends as the first three of the lines taken so far followed by the content lines before the first heading |
| GeminiAnalyzer.GeminiSummary | backend/app/nlp/gemini_analyzer.py:173 | with no summary lines, the first 200 characters plus "..."; with one, that line; with more, the first two joined by a space |
| GeminiAnalyzer.FriendlySummary | backend/app/nlp/gemini_analyzer.py:174 | "In simple terms, this <language> code " followed by the first summary line lower-cased with no period added, or the generic clause |
| GeminiAnalyzer.StructureGemini | backend/app/nlp/gemini_analyzer.py:146-191 | full is the reply; summary, details and the friendly summary come from the sorted lines; the lists are empty; the metadata names Gemini with provider "google" |
| GeminiAnalyzer.ThirdSummaryLineDropped | backend/app/nlp/gemini_analyzer.py:167-180 | with three summary lines, the third is in neither the summary (the first two) nor the details (the content lines after it) |
| GeminiAnalyzer.NoSummaryLines | backend/app/nlp/gemini_analyzer.py:173-174 | with no summary lines, the summary is a prefix of the reply followed by "...", at most 203 characters, and the friendly summary is the generic one |
| GeminiAnalyzer.GeminiError | backend/app/nlp/gemini_analyzer.py:193-211 | the error record has summary "Error: " + message, full "Analysis failed: " + message, language "unknown", empty details, error set, empty lists, and the apology as friendly summary |
| GeminiAnalyzer.AnalyzeReply | backend/app/nlp/gemini_analyzer.py:123-144 | no reply, an empty text, or an exception give the matching error record; any other text is stripped and structured; the error flag is set exactly in the failure cases |
| NlpApi.WantsGeminiIgnoresCase | backend/app/nlp/api.py:27 | the Gemini choice does not depend on the letter case of the model name |
| NlpApi.WantsGemini | backend/app/nlp/api.py:27 | Gemini is chosen exactly when a model name is given whose lower-cased form is one of the four Gemini names, which rules out a missing or empty name |
| NlpApi.NormalizeLanguage | backend/app/nlp/api.py:38-51 | a known alias maps to its standard name, any other language to its lower-case form; the result has no upper-case letter |
| NlpApi.StandardNamesFixed | backend/app/nlp/api.py:38-48 | every alias maps to one of python, javascript, java and cpp, and each of those is lower-case and maps to itself |
| NlpApi.NormalizeIdempotent | backend/app/nlp/api.py:51 | normalising twice is normalising once |
| NlpApi.NormalizeIgnoresCase | backend/app/nlp/api.py:51 | the standard name does not depend on the letter case |
| NlpApi.ModelName | backend/app/nlp/api.py:54-64 | a non-empty requested name is used, otherwise "Salesforce/codegen-350M-mono" |
| NlpApi.AnalyzeNlp | backend/app/nlp/api.py:14-69 | a Gemini name leaves the cache alone and returns the record `analyze_code` builds from the service's reply with the language as given, or the error dictionary if building the analyzer raised; any other request fetches the named model with its saved-copy location and explains the code in the normalised language |
| NlpApi.GeminiFailure | backend/app/nlp/api.py:30-35 | a raised Gemini call becomes "Gemini analysis failed: " + message, with an empty raw explanation and an empty structured explanation |
| NlpApi.GeminiLeavesCache | backend/app/nlp/api.py:27-35 | any of the Gemini names never touches the model cache; the answer is Gemini's record exactly when the analyzer was built |
| NlpApi.GeminiNameChosen | backend/app/nlp/api.py:27 | any listed Gemini name, in any letter case, routes the request to Gemini |
| NlpApi.GeminiReplyRecord | backend/app/nlp/api.py:27-29 | a Gemini request answers with the record `analyze_code` builds from the reply: an error record exactly when the reply is missing or empty, otherwise one whose full explanation is the stripped reply |
| NlpApi.CacheStaysConsistent | backend/app/nlp/api.py:54-64 | every request keeps each cached model stored under its own name |
| NlpApi.ExplanationReportsModel | backend/app/nlp/api.py:54-69 | a model explanation reports the requested (or default) model name and the normalised language |
| NlpApi.DefaultModelChosen | backend/app/nlp/api.py:60-64 | without a model name, the default model is cached, and a first request stores it at its saved-copy location |
| NlpApi.ExplainCode | backend/app/nlp/model.py:147-235 | a model that did not load, no new tokens, an exception, or a stripped text under 10 characters each give a dictionary with only the matching error; other text is returned raw and structured, with the language and the model name |
| NlpApi.ExplainedHasParagraphs | backend/app/nlp/model.py:223-229 | text that passed the length check always has a paragraph, so the no-paragraph branch of the structuring is not reached from here |
| NlpApi.FormatExplanation | backend/app/nlp/api.py:72-118 | a dictionary with an error becomes exactly that error; otherwise each text comes from the structured explanation or its default, the three lists are copied in order, imports are empty, and the analysis type is "nlp" |
| NlpApi.ErrorPassesThrough | backend/app/nlp/api.py:82-83 | any dictionary with an error, whatever else it holds, formats to that error alone |
| NlpApi.GeminiFailureFormatted | backend/app/nlp/api.py:30-35 | the Gemini failure dictionary formats to its error alone |
| NlpApi.FormatKeepsExplanation | backend/app/nlp/api.py:89-116 | a model explanation survives the reshaping: the front end sees the structured summary and details, the stripped text, the keyword summary, the raw text, the language and the model name |
| NlpApi.EmptyDictionaryDefaults | backend/app/nlp/api.py:89-103 | a dictionary without an error or structured keys gets the defaults: the raw text cut to 200 characters, the generic sentence, empty details, the raw text as full explanation, empty lists |

## Left out

- Regular-expression matching and Python's `ast.parse`/`ast.walk` are not modelled. Their results (one boolean per rule, the matched names per name-extracting rule in match order, an abstract syntax of the module in walk order) are inputs. Backtracking behaviour such as the Java method pattern in backend/app/analyzers/java_analyzer.py:47 is therefore not modelled.
- The code after the `return` in backend/app/analyzers/js_analyzer.py:185-222 cannot run and is not modelled.
- The Flask routes in backend/app/main.py (HTTP handling, CORS, JSON, the rule-based dispatch by language) are HTTP plumbing and are not part of this model.
- `load_model`, the tokenizer, the transformer's generation (device choice, sampling parameters, token counting) and `_clean_explanation`'s regular-expression rewriting are not modelled. What generation ends with is an input to `NlpApi.ExplainCode`: a failure kind, or the decoded text after cleaning.
- The Gemini service call and the `GeminiCodeAnalyzer` constructor are not modelled. `NlpApi.AnalyzeNlp` takes as input either the service's reply, which `GeminiAnalyzer.AnalyzeReply` turns into a record, or the message of the exception the constructor raised. The constructor reads a `GEMINI_API_KEY` name that backend/app/nlp/gemini_analyzer.py never defines, so as written every Gemini request raises and `NlpApi.GeminiFailure` is the answer. The model keeps both outcomes possible.
- GeminiAnalyzer.ExpertPrompt: the fixed prose of the prompt template is left out; only the values filled into it are modelled.
- Model training and download (backend/app/nlp/training.py, backend/app/nlp/setup.py) and the scripts that call a live server are not part of this model.
- Printing and logging side effects are dropped.
- `Text.Lower` and `Text.Upper` change only the ASCII letters; Python's `str.lower()`/`str.upper()` also map other Unicode letters.
- JavaAnalyzer.JavaLeadSentence requires the first sentence to contain no ". ". This always holds for the fixed sentences, but the class-sentence names are free strings in the model, whereas the source's `\w+` names never contain ". ".
- The `summary[:150] + '...'` alternative at backend/app/nlp/model.py:309 is unreachable, because `str.split` never returns an empty list. The model has only the first-sentence branch.
- NlpApi.FormatExplanation: a key present with a non-string value (such as `None`) is not modelled; a key is either missing or holds a string.
