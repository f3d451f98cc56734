# aumai-bug2bench in Dafny

A verified model of the core of aumai-bug2bench. The library turns free-text or GitHub bug
reports into pytest regression benchmarks, in four steps:

- `BugParser.parse` splits a report into sections. It uses Markdown headings, or
  `Label: value` lines when there is no heading.
- `BugParser.parse_github_issue` wraps `parse` for a GitHub issue payload.
- `BenchmarkGenerator.convert` does three things:
  - scores how complete a report is;
  - notes the fields it lacks;
  - renders a pytest module from two templates.
- `BenchmarkSuite` collects cases and exports them as test files.

The three record types from `models.py` are also modelled. They trim every string as it is
stored and reject empty identifiers. Their trim is not `str.strip`: it removes only the
ASCII characters with the Unicode White_Space property, so it keeps the separators
'\x1c' to '\x1f' that `str.strip` removes.

## Modules

Each module is one file:

- `Wrappers`: `Option` and `Result`.
- `Text`: ASCII character classes and the Python string operations the code uses:
  - `strip`, `lstrip`, `strip(c)`, `lower`, `splitlines`, `join`, `in` and `str(int)`;
  - the record types' own whitespace trim.
- `Assign`: building a dictionary from a sequence of candidate entries, in two ways:
  - `d[k] = v`, where the last entry for a key wins;
  - `d.setdefault(k, v)`, where the first entry wins.
- `Models`: `BugReport`, `BenchmarkCase` and `ConversionResult`. Each has:
  - a validity predicate;
  - a constructor that trims fields and reports a failed constraint.
- `Patterns`: hand-written matchers for the heading, inline-label, list-item and key/value
  regular expressions. They give `re`'s answers on ASCII text.
- `Extract`:
  - `_extract_steps` and `_extract_env`, as loops proved against folds;
  - `_sanitise_identifier`.
- `Parser`:
  - `parse`, as a method built from its loops, proved equal to a functional specification;
  - `parse_github_issue`.
- `Generator`: `convert`, as phase methods proved equal to `ConvertSpec`.
- `Suite`: the `BenchmarkSuite` class. It exports into a directory modelled as a map from file
  name to content.

Three behaviours of the code are easy to miss; the model follows the code in each:

- **Heading line kept.** A section heading preceded by a blank line is matched from the start
  of that blank line. `\s*` in `^\s*#+` also consumes the '\n'. The "skip the heading line"
  step then drops only the blank line, so the heading text stays in the section's content.
  `Patterns.BlankLineHeading` and `Parser.HeadingLineKept` state this.
- **One-character environment keys.** A key can be a single character.
  `Extract.EnvOneCharKey` shows this, because the lazy key group may end in whitespace that
  stripping removes.
- **Trimmed test code.** The stored `test_code` and `setup_code` are trimmed, because the
  record type trims all strings. So the exported file content has no trailing newline.

## Model

| member | source | states |
|---|---|---|
| Text.LowerChar | src/aumai_bug2bench/core.py:94 | lower-casing maps exactly the ASCII capitals to their small letters, and keeps whitespace and word characters as they are |
| Text.Lower | src/aumai_bug2bench/core.py:94 | lower-casing preserves length and works character by character |
| Text.LowerNoUpper | src/aumai_bug2bench/core.py:103 | text without capitals is its own lower-case form |
| Text.Strip | src/aumai_bug2bench/core.py:154 | the stripped string neither starts nor ends with whitespace and is no longer than the input |
| Text.StripSpec | src/aumai_bug2bench/core.py:154 | stripping removes only whitespace at the two ends; the result is the slice of the input between them |
| Text.StripFixpoint | src/aumai_bug2bench/core.py:154 | a string is unchanged by stripping exactly when it is already stripped |
| Text.StripEmpty | src/aumai_bug2bench/core.py:82 | a string strips to the empty string exactly when it is all whitespace |
| Text.StripKeepsFirst | src/aumai_bug2bench/core.py:94 | stripping a string whose first character is not whitespace keeps that character first |
| Text.Trim | src/aumai_bug2bench/models.py:41 | the record types' trim leaves no trim whitespace at either end and never lengthens the string |
| Text.TrimSpec | src/aumai_bug2bench/models.py:41 | the trim removes only trim whitespace at the two ends; the result is the slice of the input between them |
| Text.TrimFixpoint | src/aumai_bug2bench/models.py:41 | a string is unchanged by the trim exactly when it is already trimmed |
| Text.StrippedIsTrimmed | src/aumai_bug2bench/models.py:41 | a string that `str.strip` returns is already trimmed, so storing it changes nothing |
| Text.TrimKeepsSeparator | src/aumai_bug2bench/models.py:41 | a lone '\x1f' survives the trim but not `str.strip` |
| Text.TrimKeepsPrefix | src/aumai_bug2bench/core.py:207 | trimming keeps a prefix that neither starts nor ends with trim whitespace |
| Text.TrimKeepsMiddle | src/aumai_bug2bench/models.py:41 | trimming keeps any text that lies between two characters that are not trim whitespace |
| Text.LStripChar | src/aumai_bug2bench/core.py:104 | `lstrip('_')` removes exactly the leading underscores and leaves a suffix |
| Text.RStripChar | src/aumai_bug2bench/core.py:104 | `rstrip('_')` removes exactly the trailing underscores and leaves a prefix |
| Text.IndexOf | src/aumai_bug2bench/core.py:151 | `find("\n")`: the first occurrence, or the length when there is none |
| Text.SplitLines | src/aumai_bug2bench/core.py:78 | no line holds a newline, and only the empty text has no lines |
| Text.JoinSplitLines | src/aumai_bug2bench/core.py:175 | joining the lines with '\n' gives the text back, less the '\n' that ended it, if any |
| Text.SplitLinesJoin | src/aumai_bug2bench/core.py:175 | lines without '\n' whose last is non-empty, joined with '\n', split back into themselves |
| Text.NatToString | src/aumai_bug2bench/core.py:306 | `str(n)` is a non-empty string of decimal digits with no leading zero, unless it is "0" |
| Text.NatToStringValue | src/aumai_bug2bench/core.py:306 | the decimal digits of `str(n)` read back as n |
| Text.JoinHasPart | src/aumai_bug2bench/core.py:305-307 | a joined text contains each of its parts |
| Assign.AssignLastWins | src/aumai_bug2bench/core.py:154 | with `d[k] = v`, a key is present exactly when some entry sets it, and it holds the last such entry's value |
| Assign.SetDefaultFirstWins | src/aumai_bug2bench/core.py:161 | with `setdefault`, a key is present exactly when some entry sets it, and it holds the first such entry's value |
| Assign.AssignConcat | src/aumai_bug2bench/core.py:147-154 | assigning two runs of entries is assigning their concatenation |
| Assign.SetDefaultConcat | src/aumai_bug2bench/core.py:157-161 | the same for `setdefault` |
| Assign.AssignIgnoresNone | src/aumai_bug2bench/core.py:93-96 | a line that matches nothing leaves the dictionary unchanged, wherever it stands |
| Assign.AssignFrom | src/aumai_bug2bench/core.py:96 | every key present was there before or was set by an entry carrying its value |
| Assign.SetDefaultKeeps | src/aumai_bug2bench/core.py:161 | `setdefault` never changes a key once it is present |
| Assign.AssignUnset | src/aumai_bug2bench/core.py:96 | a key no entry sets keeps its old value, or stays absent |
| Assign.AssignLastAt | src/aumai_bug2bench/core.py:406 | the last entry for a key decides it, whatever the map held before |
| Assign.SetDefaultFirstAt | src/aumai_bug2bench/core.py:161 | under `setdefault` the first entry for a key decides it, whatever follows |
| Assign.FlatMapConcat | src/aumai_bug2bench/core.py:157-158 | the candidates of two runs of lines are those of each run in turn |
| Models.TrimEach | src/aumai_bug2bench/models.py:46 | every list item is stored trimmed, one for one |
| Models.TrimEachTrimmed | src/aumai_bug2bench/models.py:41 | storing items that are already trimmed changes nothing |
| Models.NewBugReport | src/aumai_bug2bench/models.py:41-49 | a BugReport is built exactly when the trimmed bug id is non-empty, with every string field trimmed and the report valid; otherwise the bug_id error |
| Models.BugReportDefaults | src/aumai_bug2bench/models.py:44-49 | fields left out default to the empty string, list or mapping |
| Models.AssignBugText | src/aumai_bug2bench/models.py:41 | assigning a field re-validates: exactly that field changes, to the trimmed value; an id that trims to nothing is refused; steps, environment and validity are kept |
| Models.AssignCaseText | src/aumai_bug2bench/models.py:67-74 | assigning a string field of a case re-validates: exactly that field changes, to the trimmed value; a case or source id that trims to nothing is refused, naming that field; tags and validity are kept |
| Models.NewBenchmarkCase | src/aumai_bug2bench/models.py:67-74 | a BenchmarkCase is built exactly when both trimmed ids are non-empty; the error names exactly the empty ones |
| Models.BenchmarkCaseDefaults | src/aumai_bug2bench/models.py:71-74 | code, expected result and tags default to empty |
| Models.NewConversionResult | src/aumai_bug2bench/models.py:90-95 | a ConversionResult is built exactly when 0 <= confidence <= 1, with the notes trimmed |
| Models.AssignConfidence | src/aumai_bug2bench/models.py:90-95 | assigning the confidence succeeds exactly when 0 <= value <= 1, changes only the confidence and keeps validity; otherwise the confidence error |
| Models.ShortUuidIsId | src/aumai_bug2bench/core.py:184 | a twelve-character uuid prefix is a valid, already trimmed identifier |
| Patterns.SkipSpaces | src/aumai_bug2bench/core.py:28 | `\s*` consumes exactly the maximal run of whitespace |
| Patterns.SkipDigits | src/aumai_bug2bench/core.py:69 | `\d+` consumes exactly the maximal run of digits |
| Patterns.MatchToks | src/aumai_bug2bench/core.py:30-57 | a keyword match ends inside the text, after where it started |
| Patterns.HeadingAt | src/aumai_bug2bench/core.py:27-57 | a heading match starts at a line start and ends inside the text |
| Patterns.BlankLineHeading | src/aumai_bug2bench/core.py:28 | a heading below a blank line also matches from the start of the blank line |
| Patterns.FindIter | src/aumai_bug2bench/core.py:141 | `finditer` offsets are strictly increasing and inside the text |
| Patterns.FindIterSound | src/aumai_bug2bench/core.py:141-142 | every reported offset is a position where the pattern matches |
| Patterns.FindIterEmpty | src/aumai_bug2bench/core.py:140-146 | `finditer` reports nothing exactly when the pattern matches nowhere |
| Patterns.FindIterComplete | src/aumai_bug2bench/core.py:141 | every position where the pattern matches is reported, or lies inside the match of a reported offset before it |
| Patterns.FindIterCover | src/aumai_bug2bench/core.py:141 | the reported offset whose match covers a given matching position: at or before it, and ending after it when before |
| Patterns.HeadingKeywordIsPrefix | src/aumai_bug2bench/core.py:27 | the title heading pattern matches "## Titles", since it checks only a prefix of the heading word |
| Patterns.SpacesThenRest | src/aumai_bug2bench/core.py:62-69 | the `(.+)` group is a non-empty suffix of the line after the separator |
| Patterns.LabelMatch | src/aumai_bug2bench/core.py:62-65 | an inline match means the lower-cased line starts with one of the labels |
| Patterns.MarkerEnd | src/aumai_bug2bench/core.py:69 | a list marker ends after where it starts |
| Patterns.LazyKeyEnd | src/aumai_bug2bench/core.py:72 | the lazy key group ends at the first place where the separator and value match, with only key-class characters before it |
| Patterns.EnvMatch | src/aumai_bug2bench/core.py:72 | a key/value match has a key group of at least two characters, starting with a word character, and a non-empty value that ends the line |
| Extract.ReadStepLine | src/aumai_bug2bench/core.py:79-84 | one line: an item starts a step, another non-blank line extends the last step |
| Extract.ExtractSteps | src/aumai_bug2bench/core.py:75-85 | the loop yields the fold of the lines |
| Extract.StepsOfLinesFold | src/aumai_bug2bench/core.py:78-84 | reading the lines one by one is the fold over their classification |
| Extract.StepsMatchItems | src/aumai_bug2bench/core.py:79-81 | one step per list item, in order, each beginning with its item's text |
| Extract.StepsFoldConcat | src/aumai_bug2bench/core.py:78-84 | reading lines in two parts is reading them in one |
| Extract.StepsNoItems | src/aumai_bug2bench/core.py:82 | lines without list items give no step |
| Extract.StepsIgnorePreamble | src/aumai_bug2bench/core.py:82-84 | lines before the first item are dropped |
| Extract.StepsContinue | src/aumai_bug2bench/core.py:82-84 | non-item lines extend the last step by a space and the line, skipping blank ones |
| Extract.StepsOneGroup | src/aumai_bug2bench/core.py:79-84 | an item and the plain lines after it make one step |
| Extract.FoldFirstGroup | src/aumai_bug2bench/core.py:79-84 | reading a leading group adds its step |
| Extract.StepsFromItem | src/aumai_bug2bench/core.py:78-84 | from a list item on, the fold appends the grouped steps |
| Extract.StepsByGroupSkips | src/aumai_bug2bench/core.py:82 | the grouping definition also skips a preamble |
| Extract.StepsFoldIsGrouping | src/aumai_bug2bench/core.py:75-85 | the loop's fold equals the front-to-back grouping definition |
| Extract.NextItem | src/aumai_bug2bench/core.py:79 | the first list item at or after a line, with only plain lines before it |
| Extract.ReplaceSpaces | src/aumai_bug2bench/core.py:94 | `replace(" ", "_")` works character by character |
| Extract.ExtractEnv | src/aumai_bug2bench/core.py:88-97 | the loop yields the entries assigned in line order |
| Extract.EnvEntryWellFormed | src/aumai_bug2bench/core.py:92-95 | a matching line gives a well-formed key and a non-empty stripped value |
| Extract.NormaliseKeyWellFormed | src/aumai_bug2bench/core.py:94 | a normalised key is non-empty and lower case, with no spaces or surrounding whitespace |
| Extract.EnvWellFormed | src/aumai_bug2bench/core.py:88-97 | every key of the environment is well formed and every value is non-empty and stripped |
| Extract.EnvLastWins | src/aumai_bug2bench/core.py:96 | a later line with the same normalised key overwrites an earlier one |
| Extract.EnvOnlyGivenKeys | src/aumai_bug2bench/core.py:91-96 | a key no line gives is absent |
| Extract.EnvOneCharKey | src/aumai_bug2bench/core.py:92-94 | the line "a  : c" gives the one-character key "a" |
| Extract.CollapseSpec | src/aumai_bug2bench/core.py:103 | collapsing yields only `[a-z0-9_]`, no doubled underscore, and the same alphanumerics in order |
| Extract.CollapseFixpoint | src/aumai_bug2bench/core.py:103 | text that is already collapsed is unchanged |
| Extract.CollapseAppend | src/aumai_bug2bench/core.py:103 | text that starts with an alphanumeric collapses independently of what precedes it |
| Extract.CollapseRun | src/aumai_bug2bench/core.py:103 | a run without alphanumerics after an alphanumeric becomes exactly one underscore |
| Extract.CollapseWords | src/aumai_bug2bench/core.py:103 | words of `[a-z0-9]` with separator runs between them collapse to the words joined by single underscores |
| Extract.CollapseFramed | src/aumai_bug2bench/core.py:103-104 | separator runs before and after such text collapse to underscores that `strip('_')` removes |
| Extract.NoAlnumAlnums | src/aumai_bug2bench/core.py:105 | a text has no alphanumerics exactly when their list is empty |
| Extract.TrimmedIdSpec | src/aumai_bug2bench/core.py:103-104 | the trimmed identifier is empty exactly when there is no alphanumeric, and otherwise starts with the first one |
| Extract.SanitiseIdentifier | src/aumai_bug2bench/core.py:100-105 | 1 to 60 characters of `[a-z0-9_]`, no `__`, no leading `_`; "bug" without alphanumerics, else starting with the first one |
| Extract.TrimmedIdentifier | src/aumai_bug2bench/core.py:104 | trimming underscores keeps the alphanumerics and starts at the first of them |
| Extract.SanitiseFixpoint | src/aumai_bug2bench/core.py:100-105 | a valid identifier that does not end in `_` is its own sanitised form |
| Extract.SanitiseNotIdempotent | src/aumai_bug2bench/core.py:104-105 | 59 alphanumerics, a space and "b" sanitise to a name ending in `_`, which a second pass trims |
| Extract.SanitiseWords | src/aumai_bug2bench/core.py:100-105 | words of `[a-z0-9]` separated by other characters, after lower-casing, give the words joined by single underscores, cut to 60 characters |
| Extract.SanitiseSpace | src/aumai_bug2bench/core.py:102-103 | "a b" gives "a_b" |
| Parser.RuleHits | src/aumai_bug2bench/core.py:140-142 | every collected hit lies inside the text |
| Parser.NoHits | src/aumai_bug2bench/core.py:140-146 | there are no hits exactly when no heading pattern matches anywhere |
| Parser.Insert | src/aumai_bug2bench/core.py:144 | inserting keeps the hits as a multiset and keeps them sorted |
| Parser.SortByOffset | src/aumai_bug2bench/core.py:144 | sorting is a permutation ordered by offset |
| Parser.SortedHitsInText | src/aumai_bug2bench/core.py:144-148 | sorted hits still lie inside the text |
| Parser.SectionEnd | src/aumai_bug2bench/core.py:148 | a section ends at or after its hit and within the text |
| Parser.HeadingLineKept | src/aumai_bug2bench/core.py:150-154 | a hit on a blank line loses only that line, and the heading line stays in the content |
| Parser.HeadingLineSkipped | src/aumai_bug2bench/core.py:150-154 | otherwise the content starts after the first newline of the span |
| Parser.HeadingEntries | src/aumai_bug2bench/core.py:147-154 | one section entry per hit |
| Parser.LineInlineEntries | src/aumai_bug2bench/core.py:158-161 | one candidate per inline pattern for each line |
| Parser.SortedHits | src/aumai_bug2bench/core.py:144-146 | the sorted hits are ordered, and empty exactly when there are no hits |
| Parser.FirstNonEmptySpec | src/aumai_bug2bench/core.py:166-170 | the first non-empty string is empty only when all are, and otherwise has only empty ones before it |
| Parser.NonBlankSpec | src/aumai_bug2bench/core.py:176 | the kept lines are non-blank lines of the input |
| Parser.NonBlankAppend | src/aumai_bug2bench/core.py:176 | the filter distributes over concatenation, so it keeps the input's order |
| Parser.NonBlankKeeps | src/aumai_bug2bench/core.py:176 | every non-blank line is kept, at the position counted by the non-blank lines before it |
| Parser.Take | src/aumai_bug2bench/core.py:177 | `[:n]` is a prefix of at most n items |
| Parser.ParseSpec | src/aumai_bug2bench/core.py:123-193 | a parsed report is valid and carries the given id |
| Parser.CollectHits | src/aumai_bug2bench/core.py:140-142 | the loop collects every match of every heading pattern, pattern by pattern |
| Parser.HeadingSectionMap | src/aumai_bug2bench/core.py:147-154 | the section loop assigns each hit's stripped section body in offset order |
| Parser.HeadingStep | src/aumai_bug2bench/core.py:147-154 | one more hit assigns its stripped section |
| Parser.InlineSectionMap | src/aumai_bug2bench/core.py:157-161 | the inline loop applies `setdefault` to the candidates line by line, pattern by pattern |
| Parser.FallbackTitle | src/aumai_bug2bench/core.py:165-170 | the fallback loop yields the first line that is non-empty once cleaned |
| Parser.Parse | src/aumai_bug2bench/core.py:123-193 | the parse method yields the specified report |
| Parser.SectionLastWins | src/aumai_bug2bench/core.py:146-154 | with headings, a section's content comes from its last heading, up to the next hit |
| Parser.SectionWithoutHeading | src/aumai_bug2bench/core.py:146-161 | with headings present, a section without a heading is empty and inline labels are not consulted |
| Parser.InlineNoMatch | src/aumai_bug2bench/core.py:157-161 | lines where a pattern does not match give no candidate for its section |
| Parser.InlineEarlierRules | src/aumai_bug2bench/core.py:158 | the patterns tried earlier on a line are for other sections |
| Parser.InlineSections | src/aumai_bug2bench/core.py:61-66 | inline candidates only ever name title, description, expected or actual |
| Parser.InlineFirstWinsLines | src/aumai_bug2bench/core.py:157-161 | the first line matching a label decides its section |
| Parser.InlineFirstWins | src/aumai_bug2bench/core.py:155-161 | without headings, a labelled field takes its value from the first line carrying the label |
| Parser.InlineModeNoStepsNoEnv | src/aumai_bug2bench/core.py:155-182 | without headings, steps and environment are always empty |
| Parser.ParsedTitle | src/aumai_bug2bench/core.py:163-170 | the title is the title section, or else the first line non-empty once cleaned; it is empty only when there is neither |
| Parser.FallbackDescriptionSpec | src/aumai_bug2bench/core.py:172-177 | the fallback description joins with spaces, in order, the first five non-blank lines after the first line (all when fewer), each at its place, and nothing else |
| Parser.ParseEmpty | src/aumai_bug2bench/core.py:123-193 | the empty text parses to a report with every field empty |
| Parser.ParseGithubIssue | src/aumai_bug2bench/core.py:195-222 | the issue's report is valid and its id starts with "gh-" |
| Parser.GithubBodyAsParsed | src/aumai_bug2bench/core.py:212-221 | all fields but id and title are those of parsing the body |
| Parser.GithubTitle | src/aumai_bug2bench/core.py:208-216 | the issue's non-empty title wins, trimmed; otherwise the body's parsed title is used |
| Parser.GithubId | src/aumai_bug2bench/core.py:206-207 | the id uses the number, else the id, else the random token |
| Parser.GithubNumberFortyTwo | src/aumai_bug2bench/core.py:206-207 | issue number 42 gives the id "gh-42" |
| Generator.Escape | src/aumai_bug2bench/core.py:311 | every quote is preceded by a backslash, and text without quotes is unchanged |
| Generator.UnescapeEscape | src/aumai_bug2bench/core.py:311-314 | escaping can be undone: no information is lost |
| Generator.FieldText | src/aumai_bug2bench/core.py:312-313 | an empty behaviour shows as "see description"; any other is escaped and reads back as itself |
| Generator.StepsComments | src/aumai_bug2bench/core.py:305-307 | the placeholder exactly when there are no steps; otherwise the numbered comment lines `    # <i+1>. <step i>` joined by '\n' |
| Generator.StepsCommentsLines | src/aumai_bug2bench/core.py:305-307 | split back into lines, the block is one numbered comment per step in order (when no step spans lines), or the placeholder alone |
| Generator.Completeness | src/aumai_bug2bench/core.py:286-302 | at most four fields count towards completeness |
| Generator.NotesTrimmed | src/aumai_bug2bench/core.py:289-299 | the notes are stored as written |
| Generator.TagsTrimmed | src/aumai_bug2bench/core.py:334-338 | the tags are stored as written |
| Generator.BenchmarkFor | src/aumai_bug2bench/core.py:340-347 | the case is valid, with the given case id, the bug id as source, the tags, expected or "no error", and the trimmed setup and test code |
| Generator.BenchmarkWith | src/aumai_bug2bench/core.py:340-347 | the same, for already rendered test code |
| Generator.ConvertSpec | src/aumai_bug2bench/core.py:268-354 | the result is valid, holds the bug and its case, a quarter per filled field as confidence, and the missing-field notes |
| Generator.ScoreAndNotes | src/aumai_bug2bench/core.py:283-302 | the scoring loop gives the quarter count and the notes |
| Generator.Tags | src/aumai_bug2bench/core.py:334-338 | the tagging code yields the specified tags |
| Generator.RenderTestCode | src/aumai_bug2bench/core.py:304-331 | the module opens with the header, the imports, two blank lines and `def test_<name>() -> None:`; it carries the docstring lines with the escaped title, the bug id, and expected and actual as `FieldText` shows them, and the steps block under its heading |
| Generator.TestModuleContents | src/aumai_bug2bench/core.py:230-255 | whatever fills the two templates, the module opens with header, imports, blank lines and signature, and contains the four docstring lines and the steps block |
| Generator.MakeBenchmark | src/aumai_bug2bench/core.py:340-347 | the built case is the specified one |
| Generator.Convert | src/aumai_bug2bench/core.py:268-354 | `convert` yields the specified result |
| Generator.ConfidenceSpec | src/aumai_bug2bench/core.py:284-302 | confidence lies in [0, 1]; it is 1.0 exactly for a full report and 0.0 exactly for an empty one |
| Generator.ConfidenceHalf | src/aumai_bug2bench/core.py:284-302 | steps and expected alone give 0.5 |
| Generator.NotesSpec | src/aumai_bug2bench/core.py:286-299 | one note per missing field among steps, expected and actual, in that order, and none for the description |
| Generator.TagsSpec | src/aumai_bug2bench/core.py:334-338 | "regression" comes first; "error-handling" and "exception" appear exactly when the lower-cased actual behaviour contains them |
| Generator.TestCodeHeader | src/aumai_bug2bench/core.py:326-331 | the stored test module opens with the header, whose title is not escaped, followed by the imports |
| Generator.ModuleHeaderKept | src/aumai_bug2bench/core.py:230-236 | trimming the module keeps its header and imports, whatever the function |
| Generator.StoredModuleMiddle | src/aumai_bug2bench/core.py:230-255 | trimming the module keeps the function from its signature to its steps block, whatever fills the templates |
| Generator.StoredModuleContents | src/aumai_bug2bench/core.py:230-255 | the trimmed module contains the signature, the four docstring lines and the steps block |
| Generator.StoredTestCodeContents | src/aumai_bug2bench/core.py:304-347 | the stored test code contains `def test_<name>() -> None:`, the docstring lines with the escaped title and behaviours, the steps block and every numbered step |
| Generator.TestFunctionOpens | src/aumai_bug2bench/core.py:238-239 | the rendered function opens with `def test_<name>() -> None:` |
| Generator.TestNameIsIdentifier | src/aumai_bug2bench/core.py:304 | the test name is a valid identifier of at most 60 characters |
| Suite.SafeId | src/aumai_bug2bench/core.py:403 | each character of the lower-cased id is kept if in `[a-z0-9_]`, else replaced by `_`, one for one |
| Suite.FileWrites | src/aumai_bug2bench/core.py:402-406 | one write per case, in order, of `setup + "\n\n" + test` to `test_<safe id>.py` |
| Suite.BenchmarkSuite.constructor | src/aumai_bug2bench/core.py:372-373 | a new suite is empty |
| Suite.BenchmarkSuite.AddCase | src/aumai_bug2bench/core.py:375-381 | appends exactly the one case |
| Suite.BenchmarkSuite.Cases | src/aumai_bug2bench/core.py:408-411 | returns a fresh copy holding the cases in order |
| Suite.BenchmarkSuite.ExportPytest | src/aumai_bug2bench/core.py:383-406 | the directory after export: conftest if absent, then each case's file in order |
| Suite.CaseFileNotConftest | src/aumai_bug2bench/core.py:395-404 | a case file is never conftest.py |
| Suite.ExportConftest | src/aumai_bug2bench/core.py:395-400 | an existing conftest.py is kept as it was; otherwise the standard one is created |
| Suite.ExportCaseFile | src/aumai_bug2bench/core.py:402-406 | each case's file holds its setup and test code unless a later case writes the same file |
| Suite.ExportLeavesOthers | src/aumai_bug2bench/core.py:392-406 | other files are left alone |
| Suite.ExportFiles | src/aumai_bug2bench/core.py:392-406 | every exported file was there before, is conftest.py, or is a case's file |
| Suite.ExportEmpty | src/aumai_bug2bench/core.py:395-400 | an empty suite exported into an empty directory yields only conftest.py |
| Suite.ExportCollision | src/aumai_bug2bench/core.py:403-406 | the ids "Ab-1" and "ab_1" share a file, and the later case wins |
| Suite.SafeShortUuid | src/aumai_bug2bench/core.py:403 | a generated case id keeps its hex digits and has its hyphen replaced |

## Left out

- Unicode: lower-casing, whitespace, `\w` and case-insensitive matching are ASCII only.
  Lines are split only at '\n', not at '\r' or other Unicode line breaks.
- Random identifiers: the uuid-based bug ids, case ids and GitHub fallback tokens are
  parameters. They are constrained only to their shape (`ShortUuid`, `ShortHex`).
  Uniqueness across calls rests on randomness and is not modelled.
- Generator.ConvertSpec: the confidence is the exact real `count / 4`. The float additions
  and `round(confidence, 4)` give the same five values, which is not shown in the model.
- `textwrap.dedent` in `convert` is the constant `Generator.SetupTemplate` it yields.
- The real filesystem in `export_pytest` (`mkdir`, `exists`, `write_text` and encodings)
  is a map from file name to content. Failing writes are not modelled.
- Pydantic machinery: `model_dump` and JSON output are not modelled, and nor is any
  coercion beyond trimming.
- Models.NewBugReport: the keys of `environment` are stored as given, while the record type
  also trims string keys. Trimming two keys to the same one would keep one of them by the
  dictionary's order, which a map does not have. Parsed reports are unaffected, because
  `Extract.EnvWellFormed` shows their keys are already stripped, hence trimmed.
- The `environment` field holds string values only, not arbitrary objects.
- Assigning the list, mapping and record fields (`steps_to_reproduce`, `environment`, `tags`,
  `bug`, `benchmark`, `notes`) after construction is not modelled; only string fields and
  the confidence are re-validated on assignment.
- Parser.ParseGithubIssue: issue payload values are a missing key, null, an integer or a
  string. Booleans, floats, lists and objects, and their `str()` forms, are not modelled.
- The command-line interface (`cli.py`) and the example scripts are not part of this model.
