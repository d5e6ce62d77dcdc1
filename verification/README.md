# EduGen VN — a Dafny model of content generation and export

EduGen VN is a web application for Vietnamese teachers. A teacher fills in a
request: a subject, a grade, a topic and a mode, which is exercises, a lesson
plan or a slide deck. The application asks a generative model for Markdown
text and streams it onto the page. It then exports the text in one of two ways:

- a PowerPoint deck, when the mode is slides;
- a Word document, for exercises and lesson plans.

This project models the logic behind that flow as functions, and two loop
methods, over immutable data:

- `Request` holds the request record, its enumerations and the form's field
  update (`handleInputChange`).
- `GeminiService` covers the generation service:
  - the API key check;
  - the system instruction and user prompt for each mode;
  - the filter that forwards only chunks with text;
  - the classification of failures into the quota message and the
    invalid-key message.
- `Streaming` is the generation handler. It covers:
  - the empty-topic guard;
  - the session reset;
  - the append-only accumulator with its 50 ms publish throttle;
  - the final flush;
  - the error path.

  The clock is an input: each chunk carries the time at which it is handled.
- `Palette` holds the colour tables of the slide view and of the deck export,
  and the lookup of a theme name with its fallback to `'Default'`.
- `Slides` covers the deck side of the display component:
  - the `[THEME: …]` tag, which sets the theme and is cut out of the text;
  - the cut of the text into slides at `---`, keeping segments longer than
    five UTF-16 units once trimmed;
  - `cleanSlideText`;
  - the removal of `### Slide n:`;
  - the title and body lines of a slide;
  - the bold runs between `**` markers;
  - the bullet and line-break layout of the body;
  - the slide descriptors handed to the deck library.
- `WordExport` reads the text line by line into a heading, paragraphs and
  tables. The paragraphs have their `$…$` formula runs split out. In the
  tables, separator rows are skipped and the first kept row is the header.
- `Text` provides the JavaScript string primitives the code relies on:
  - `trim` with the ECMAScript whitespace set;
  - literal `split` and its inverse `join`;
  - `startsWith`, `endsWith` and `includes`;
  - `length` in UTF-16 code units;
  - `String(n)`.

  `Wrappers` provides `Option` and `Result`.

Regular expressions are written out by hand. A lookup function gives the end
of a match at a position, and a generic "first match" search is proved to
find the leftmost one:

- `/\[THEME:\s*([^\]]+)\]/` is `Slides.ThemeTagAt`;
- `/### Slide \d+:/` is `Slides.SlideNumberAt`;
- `/(\$.*?\$)/g` is `WordExport.MathSpanAt`.

## Model

| member | source | states |
|---|---|---|
| Request.HandleInputChange | App.tsx:25-27 | the edited field holds the new value afterwards and every other field of the request keeps its previous value |
| Request.FieldsDetermineRequest | types.ts:52-64 | two requests that agree on every field are the same request, so a request is exactly its eleven fields |
| Request.RewriteIsIdentity | App.tsx:25-27 | writing back the value a field already holds leaves the request unchanged |
| Request.EditsCommute | App.tsx:25-27 | two edits to different fields give the same request in either order |
| GeminiService.GetApiKey | services/geminiService.ts:9-15 | succeeds exactly when a non-empty key is configured and then returns it; otherwise fails with the missing-key message |
| GeminiService.TextOr | services/geminiService.ts:33 | a present, non-empty text is kept; an absent or empty one gives the fallback |
| GeminiService.AdditionalSuffix | services/geminiService.ts:27-29 | empty exactly when no additional instructions are given or they are empty; otherwise the "YÊU CẦU BỔ SUNG" heading followed by them |
| GeminiService.ShownQuestionCount | services/geminiService.ts:38-40 | the exercise prompt asks for one question for literature and for the requested count in every other subject |
| GeminiService.DataText | services/geminiService.ts:33-40 | the specific requirements when given; otherwise "N/A" for lesson plans and slides and nothing for exercises |
| GeminiService.BuildPrompt | services/geminiService.ts:24-41 | each mode gets its own system instruction, and every user prompt ends with the mode's data label, the data and the additional instructions |
| GeminiService.LessonPlanPrompt | services/geminiService.ts:33 | the lesson-plan prompt is "CHẾ ĐỘ: Giáo án NLS." with the subject, the grade and the lesson, followed by ". Dữ liệu: ", the data and the additional instructions |
| GeminiService.PresentationPrompt | services/geminiService.ts:36 | the slide prompt is "CHẾ ĐỘ: Thiết kế Slide." with the subject, the grade and the topic, followed by ". Dữ liệu giáo án: ", the data and the additional instructions |
| GeminiService.ExercisePrompt | services/geminiService.ts:38-40 | the exercise prompt names the subject, the grade, the topic, the question type, the difficulty and the shown count in decimal, followed by ". Dữ liệu: ", the data and the additional instructions |
| GeminiService.SuffixComesLast | services/geminiService.ts:27-40 | the additional instructions are appended after the rest of the prompt, which is the prompt of the same request without them |
| GeminiService.NonExercisePromptIgnoresExerciseFields | services/geminiService.ts:31-36 | lesson-plan and slide prompts do not depend on the question type, the difficulty or the question count |
| GeminiService.ExercisePromptStatesCount | services/geminiService.ts:38-40 | an exercise prompt states the shown question count, written as its decimal digits, right after the difficulty and before the data label |
| GeminiService.Forward | services/geminiService.ts:54-58 | the forwarded chunks are never more than the stream's chunks and never empty |
| GeminiService.ForwardAppend | services/geminiService.ts:54-58 | forwarding works chunk by chunk: the result for two parts of a stream is the two results one after the other |
| GeminiService.ForwardOne | services/geminiService.ts:55-57 | a single chunk is passed on exactly when its text is present and non-empty |
| GeminiService.ForwardKeepsText | services/geminiService.ts:54-58 | dropping chunks without text loses no text: the delivered text is the whole text of the stream |
| GeminiService.LowerString | services/geminiService.ts:63 | lower-casing keeps the length and maps every character on its own, with `A`-`Z` moved to `a`-`z` |
| GeminiService.Kind | services/geminiService.ts:60-66 | a failure is a quota error exactly when its message contains "429"; an invalid-key error exactly when it does not, and its lower-cased message contains "api key not valid" |
| GeminiService.Classify | services/geminiService.ts:59-67 | a quota error becomes the quota message, an invalid-key error becomes the invalid-key message, and any other error is rethrown unchanged |
| GeminiService.QuotaStaysQuota | services/geminiService.ts:60-62 | the quota message contains the code it is chosen for, so classifying it again keeps it a quota error |
| GeminiService.Contains | services/geminiService.ts:60 | `includes` holds exactly when the pattern occurs at some position of the text |
| GeminiService.OccurrenceIsFound | services/geminiService.ts:60 | `includes` finds an occurrence wherever it lies at or after the search start |
| GeminiService.GenerateExamStream | services/geminiService.ts:17-68 | a missing key throws before any prompt or chunk; otherwise the request's prompt is sent, the non-empty chunks are forwarded in order, and a failure of the stream is rethrown as classified |
| Streaming.Begin | App.tsx:35-40 | a session starts generating, with empty content, no error and an empty accumulator |
| Streaming.OnChunk | App.tsx:43-50 | every chunk is appended to the accumulator; the accumulator is published only when more than 50 ms have passed since the last publish; the published content stays a prefix of the accumulator and only grows |
| Streaming.Feed | App.tsx:43-50 | handling chunks in order extends the accumulator by exactly their concatenated text and leaves the generating flag and the error as they were |
| Streaming.FeedKeepsInvariants | App.tsx:43-50 | streaming keeps the published content a prefix of the accumulator, only extends it, and leaves the generating flag and the error unchanged |
| Streaming.FeedAppend | App.tsx:43-50 | handling two runs of chunks one after the other equals handling them together |
| Streaming.PublishedMonotone | App.tsx:46-48 | within a session, the content published after fewer chunks is a prefix of the content published after more |
| Streaming.FirstChunkPublished | App.tsx:40-48 | since the last publish time starts at 0, a first chunk stamped later than 50 ms is published at once, and it stays at the head of the content from then on |
| Streaming.ErrorText | App.tsx:53 | the error shown is the thrown message when it is non-empty, otherwise the fallback message |
| Streaming.HandleGenerate | App.tsx:29-57 | a blank topic only sets the empty-topic error; any other topic ends with generation stopped |
| Streaming.SuccessPublishesEverything | App.tsx:51-55 | when the stream completes, the final content is the whole streamed text with no error, whatever the timing of the chunks |
| Streaming.SnapshotIsPrefix | App.tsx:43-52 | the content published before a failure is a prefix of the streamed text |
| Streaming.FailureView | App.tsx:52-55 | after a failure the view keeps the last published snapshot, stops generating and shows the classified error |
| Streaming.FailureKeepsSnapshot | App.tsx:43-55 | after a failure the content is the last throttled snapshot, a prefix of the text received, and the error is the classified message |
| Streaming.MissingKeyClearsContent | App.tsx:35-55 | without a key the content stays cleared, generation stops and the missing-key message is shown |
| Palette.OrDefaultAsWritten | components/ExamDisplay.tsx:72-73 | the `or` lookup as written: an own entry is returned; a name the table lacks but `Object.prototype` defines gives that inherited member; any other name falls back to the default entry |
| Palette.InheritedNameSelectsNoPalette | components/ExamDisplay.tsx:72-73 | on the screen and in the export, the theme name "constructor" selects the inherited constructor function, not a palette |
| Palette.OwnOrDefault | components/ExamDisplay.tsx:72-73 | the intended lookup: an own entry when there is one, the default entry otherwise |
| Palette.ScreenPaletteFor | components/ExamDisplay.tsx:27-33 | the corrected screen lookup: the four known themes get their own on-screen palette; every other name, inherited ones included, gets the default one |
| Palette.PptxPaletteFor | components/ExamDisplay.tsx:35-41 | the corrected export lookup: the four known themes get their own export colours; every other name, inherited ones included, gets the default ones |
| Palette.ScreenPaletteAsWritten | components/ExamDisplay.tsx:72 | the screen lookup as written: a known theme gets its palette, a name `Object.prototype` defines gets the inherited member, and any other name the default palette |
| Palette.PptxPaletteAsWritten | components/ExamDisplay.tsx:73 | the export lookup as written: a known theme gets its colours, a name `Object.prototype` defines gets the inherited member, and any other name the default colours |
| Palette.CorrectedAgreesOutsideInherited | components/ExamDisplay.tsx:72-73 | on the screen and in the export, the corrected lookup agrees with the lookup as written on every name that `Object.prototype` does not define |
| Palette.KnownThemesAreDistinct | components/ExamDisplay.tsx:27-41 | the known themes have pairwise different palettes, different from the default, on screen and in the export |
| Slides.ThemeTagAt | components/ExamDisplay.tsx:51 | a tag matches at a position exactly when `[THEME:` stands there and a `]` follows with at least one character in between; the match ends at the first such `]` |
| Slides.ApplyContent | components/ExamDisplay.tsx:49-58 | outside slide mode the text is shown as is and the theme stays; in slide mode the theme is the trimmed name in the first tag ("Xanh Dương" without one), and the tag and the blanks after it are cut out |
| Slides.UntaggedContentUnchanged | components/ExamDisplay.tsx:52-55 | slide text without a tag keeps its content and gets the default theme |
| Slides.LeadingTagSetsTheme | components/ExamDisplay.tsx:51-55 | text opening with `[THEME: name]` gets the trimmed name as its theme, and the slides are those of the text after the tag with its leading blanks removed |
| Slides.SlideSegments | components/ExamDisplay.tsx:62-65 | no slides outside slide mode; in slide mode the slides are exactly the `---`-separated segments longer than five units once trimmed |
| Slides.SegmentsInOrder | components/ExamDisplay.tsx:64 | a segment before the first delimiter comes first, followed by the slides of the rest |
| Slides.UndelimitedTextIsOneSlide | components/ExamDisplay.tsx:64 | text without a delimiter is one slide if it is long enough and none otherwise |
| Slides.FourDashesCutOnce | components/ExamDisplay.tsx:64 | a line of four dashes is cut once, leaving a stray "-" |
| Slides.CleanSlideText | components/ExamDisplay.tsx:67-70 | the result is the text with every `$` removed and then cut at both ends: it is the part of the `$`-free text between a leading and a trailing run of blanks, and it neither starts nor ends with a blank |
| Slides.CleanSlideTextIdempotent | components/ExamDisplay.tsx:67-70 | cleaning twice is the same as cleaning once |
| Slides.SlideNumberAt | components/ExamDisplay.tsx:120 | `### Slide ` followed by one or more digits and a colon matches, ending after the colon |
| Slides.TitleText | components/ExamDisplay.tsx:120 | a title has no `$` and no surrounding blanks; a heading without a slide number is only cleaned, so it keeps its `### ` |
| Slides.NumberedHeadingTitle | components/ExamDisplay.tsx:120 | the title of `### Slide n:` followed by a text is that text, cleaned, for every number n |
| Slides.SlideLines | components/ExamDisplay.tsx:113-118 | a slide has at least one line, and every line has no blank at either end |
| Slides.SlideLinesOfJoin | components/ExamDisplay.tsx:113-118 | trimmed lines without a line feed, the first and last not empty, are read back from their join unchanged |
| Slides.StripSlideNumber | components/ExamDisplay.tsx:120 | without a slide-number heading the line is kept; otherwise the first one is removed and the text around it kept |
| Slides.StripNumberedHeading | components/ExamDisplay.tsx:120 | `### Slide n:` in front of a title is removed, for every number n |
| Slides.LastHeadingIsTitle | components/ExamDisplay.tsx:117-120 | when several lines start with `### `, the last one gives the title |
| Slides.NoHeadingDefaultTitle | components/ExamDisplay.tsx:114 | a slide without a `### ` line is titled "BÀI GIẢNG" |
| Slides.SlideBody | components/ExamDisplay.tsx:121-123 | every kept line is a line of the slide that is non-empty and not a heading, and every such line is kept |
| Slides.SlideBodyStep | components/ExamDisplay.tsx:117-123 | the body grows line by line, in order: a new line is appended exactly when it is non-empty and not a heading |
| Slides.SlideTitleStep | components/ExamDisplay.tsx:117-124 | one more line changes the title exactly when it is a heading |
| Slides.ScanLines | components/ExamDisplay.tsx:113-124 | the loop over the lines computes the title of the last heading and the body lines in order |
| Slides.PieceRuns | components/ExamDisplay.tsx:88-98 | the runs carry the pieces' text in order; a run is bold and in the highlight colour exactly when its piece has an odd index |
| Slides.PieceRunsAreTaggedPieces | components/ExamDisplay.tsx:88-98 | the runs are the pieces numbered by position with the empty ones dropped |
| Slides.ParseTextForPptx | components/ExamDisplay.tsx:85-100 | the runs of a line spell out the cleaned line without its `**` markers, in the plain or the highlight colour |
| Slides.ParsedRunsAreTaggedPieces | components/ExamDisplay.tsx:85-100 | the runs are the `**`-separated pieces of the cleaned line, with bold on odd pieces and empty pieces dropped |
| Slides.Bulleted | components/ExamDisplay.tsx:133 | only the first run of a line gets the bullet, and everything else is kept |
| Slides.LineRuns | components/ExamDisplay.tsx:130-133 | the runs of a body line spell out the cleaned line without its `**` markers; none is empty, only the first carries the bullet, and the colour is the highlight exactly on bold runs |
| Slides.LineGroups | components/ExamDisplay.tsx:130-131 | one group of runs per body line, in order |
| Slides.FlatBody | components/ExamDisplay.tsx:130-137 | the flattened body is empty exactly when every line has no runs, and otherwise ends with a break |
| Slides.PopBreak | components/ExamDisplay.tsx:139-141 | one trailing break is removed, and nothing is removed when the last object is not a break |
| Slides.BodyObjects | components/ExamDisplay.tsx:130-141 | the body is the flattened body without its final break, which is always there when the flattened body is not empty |
| Slides.FlatBodyTerminated | components/ExamDisplay.tsx:130-137 | before the trailing break is removed, the body is the non-empty lines' runs, each followed by a break |
| Slides.BodyObjectsJoinGroups | components/ExamDisplay.tsx:130-141 | the body is the runs of the non-empty lines joined by line breaks |
| Slides.JoinGroupsEndsWithRun | components/ExamDisplay.tsx:139-141 | a body of non-empty lines never ends with a line break |
| Slides.SlideBodyLayout | components/ExamDisplay.tsx:130-141 | the body joins the non-empty lines' runs by breaks and ends with a run |
| Slides.BuildSlide | components/ExamDisplay.tsx:109-148 | a slide has the palette's background, the footer, a title in the title colours, and a body that does not end with a break |
| Slides.BuildSlideParts | components/ExamDisplay.tsx:113-141 | the title runs come from the last heading and the body from the non-empty lines, in order |
| Slides.BuildDeck | components/ExamDisplay.tsx:109 | one slide per segment, in order, all in one palette |
| Slides.ExportDeck | components/ExamDisplay.tsx:62-65 | outside slide mode the export has no slides |
| Slides.UnknownThemeUsesDefaultBackground | components/ExamDisplay.tsx:73 | a theme outside the four known ones gives every slide the default background |
| Slides.TaggedDeck | components/ExamDisplay.tsx:49-148 | text opening with a tag exports one slide per long enough segment of the text after it, leading blanks removed, in the palette the tag names |
| WordExport.DocTitle | components/ExamDisplay.tsx:159-161 | lesson plans get the lesson-plan title and every other mode the exercise title |
| WordExport.RowCells | components/ExamDisplay.tsx:193 | the cells are the trimmed pieces between the first and the last vertical bar |
| WordExport.IsDashCell | components/ExamDisplay.tsx:194 | a cell is a separator cell exactly when it holds a dash and nothing but dashes and colons |
| WordExport.IsSeparatorRow | components/ExamDisplay.tsx:194 | a row is a separator row exactly when every cell holds a dash and only dashes and colons; a row without cells is one |
| WordExport.AddRow | components/ExamDisplay.tsx:194-201 | a separator row leaves the rows unchanged; any other row is appended with its cells, as the header exactly when no row came before |
| WordExport.AddRowWellFormed | components/ExamDisplay.tsx:194-201 | adding a row keeps the table well formed: the header flag only on the first row and no separator rows |
| WordExport.MathSpanAt | components/ExamDisplay.tsx:176 | a formula span matches at a position exactly when `$` stands there and another `$` follows with no line break in between; a match is a span from `$` to `$` |
| WordExport.SplitMathFrom | components/ExamDisplay.tsx:176 | the pieces alternate between plain text and formula spans and together give back the line |
| WordExport.SplitMathCutsLeftmost | components/ExamDisplay.tsx:176 | the split cuts at the leftmost formula span, scanning from the left: no text piece contains the start of a span |
| WordExport.LeftmostCutsUnique | components/ExamDisplay.tsx:176 | any cut of a line into text pieces and leftmost formula spans that gives back the line is the split |
| WordExport.ParagraphSplitIsLeftmost | components/ExamDisplay.tsx:172-176 | the pieces of a paragraph are a leftmost cut of the trimmed line that gives it back |
| WordExport.ConcatDropsEmpty | components/ExamDisplay.tsx:176 | dropping the empty pieces loses no text |
| WordExport.ParagraphFor | components/ExamDisplay.tsx:171-179 | a blank line gives an empty paragraph, any other line gives a paragraph of non-empty runs |
| WordExport.ParagraphKeepsText | components/ExamDisplay.tsx:171-179 | the runs of a paragraph spell out the trimmed line |
| WordExport.ParagraphCutsAtFormulas | components/ExamDisplay.tsx:171-178 | the runs of a paragraph are the non-empty pieces of the one leftmost cut of the trimmed line |
| WordExport.NoFormulaOneRun | components/ExamDisplay.tsx:176-178 | a line without `$` becomes one run holding the trimmed line |
| WordExport.ReadLine | components/ExamDisplay.tsx:187-194 | a line is a table line exactly when, once trimmed, it starts and ends with a vertical bar; otherwise it is read as its paragraph |
| WordExport.TableThenStep | components/ExamDisplay.tsx:188-201 | inside a table, a table line adds its row, or nothing if it is a separator row |
| WordExport.TableThenClose | components/ExamDisplay.tsx:202-211 | a text line closes the open table, even one with no rows, and is followed by its paragraph |
| WordExport.TableThenAtEnd | components/ExamDisplay.tsx:215-220 | at the end of the text a table is emitted only if it has rows |
| WordExport.BuildBlocks | components/ExamDisplay.tsx:186-220 | the loop with its `inTable` flag and row buffer computes the recursive reading of the lines |
| WordExport.BuildWordDocument | components/ExamDisplay.tsx:159-220 | the document opens with the mode's title heading, followed by the blocks read from the lines of the content |
| WordExport.DocumentTablesWellFormed | components/ExamDisplay.tsx:186-220 | in every table of the document the header flag is on the first row only, and no separator row is kept |
| WordExport.DocumentText | components/ExamDisplay.tsx:202-211 | the paragraphs of the document are those of the non-table lines, in order: no text is lost or reordered |
| WordExport.AddRowCells | components/ExamDisplay.tsx:194-201 | adding a row appends its cells unless it is a separator row |
| WordExport.DocumentRows | components/ExamDisplay.tsx:186-220 | the rows of the document's tables are the non-separator table lines, in order |
| Text.Trim | App.tsx:30 | `trim` removes exactly the leading and trailing ECMAScript whitespace and keeps what is between |
| Text.TrimIdempotent | components/ExamDisplay.tsx:118 | trimming twice is the same as trimming once |
| Text.TrimEmptyIff | App.tsx:30 | a text trims to nothing exactly when it is all whitespace |
| Text.TrimKeepsCharacters | components/ExamDisplay.tsx:69 | trimming adds no character |
| Text.Split | components/ExamDisplay.tsx:167 | `split` cuts at every occurrence of the separator, and joining the pieces back gives the input |
| Text.SplitJoin | components/ExamDisplay.tsx:64 | splitting the join of separator-free pieces gives the pieces back |
| Text.SplitCons | components/ExamDisplay.tsx:64 | a piece before the first separator becomes the first piece of the split |
| Text.Filter | components/ExamDisplay.tsx:64 | the kept elements satisfy the test, come from the input, and include every element that passes |
| Text.FilterAppend | components/ExamDisplay.tsx:176 | filtering works part by part |
| Text.FilterIdentity | components/ExamDisplay.tsx:176 | filtering keeps a sequence unchanged exactly when every element passes |
| Text.RemoveChar | components/ExamDisplay.tsx:69 | `replace(/c/g, '')` keeps exactly the characters other than c |
| Text.RemoveCharAppend | components/ExamDisplay.tsx:69 | removing a character works part by part |
| Text.RemoveCharAbsent | components/ExamDisplay.tsx:69 | removing a character that does not occur changes nothing |
| Text.FindFrom | services/geminiService.ts:60 | the search returns the first occurrence at or after the start, or none when there is none |
| Text.FirstMatch | components/ExamDisplay.tsx:51 | a non-global regex match is the leftmost position where the pattern matches |
| Text.FirstMatchFound | components/ExamDisplay.tsx:51-54 | the search fails exactly when the pattern matches nowhere, and otherwise finds the leftmost match |
| Text.Utf16Len | components/ExamDisplay.tsx:64 | `length` counts UTF-16 units: between one and two per character, and exactly one per character when none is outside the Basic Multilingual Plane |
| Text.NatToStringRoundTrip | services/geminiService.ts:40 | the decimal rendering of a count reads back as the same number |
| Text.IntToString | services/geminiService.ts:40 | a number renders as a minus sign exactly when it is negative, followed by the shortest decimal digits that read back as its magnitude |

## Left out

- User interface: rendering, the on-screen slide viewer and its navigation, the form component, the loading states and `isExporting`. The reset of the slide index to 0 is left out too.
- Layout of the exported files: coordinates, fonts, sizes, alignments, cell shading, table width and the timestamped file names. The descriptors keep only the colours, the texts and the run options.
- The deck, Word and generative-model libraries themselves: the model stops at the data handed to them. `Date.now()`, the network, `async` and React state scheduling are not modelled. The clock becomes a time stamp on each chunk. The configured key becomes a parameter. The stream becomes a list of chunks that completes or breaks.
- The text of the three system instructions: they are in constants.ts, which is not part of this model. `BuildPrompt` picks between them by name. The model name and the temperature are left out.
- The Word export as wired: App.tsx:97-101 passes no `request` prop to the display component. So `request.mode` at components/ExamDisplay.tsx:159 throws, the error is caught and only logged at components/ExamDisplay.tsx:234-235, and no document is produced. The model takes the `mode` the prop would carry as a parameter, and states what the export builds once it has one.
- Request.HandleInputChange: form values are typed per field, so an edit cannot store a number in a text field. The source's `string | number` values allow that, but the form never does it.
- JavaScript numbers are modelled as unbounded integers, and `questionCount` is printed as an integer.
- Strings are sequences of Unicode scalar values. Lone surrogates cannot be represented.
- GeminiService.LowerString: it lower-cases only `A`-`Z` and the Kelvin sign; the other mappings of `toLowerCase` are left out. Those keep every other ASCII character as it is, turn every other non-ASCII character into non-ASCII text, and turn `İ` (U+0130) into `i` followed by U+0307. Every `i` of "api key not valid" is followed by another character of the phrase, never by U+0307, so an `i` made from `İ` cannot be part of a match, and the check for the phrase gives the same answer.
- Palette.ScreenPaletteFor: it is the corrected lookup, not the one at components/ExamDisplay.tsx:72. The two differ only on names `Object.prototype` defines, as `CorrectedAgreesOutsideInherited` states; `ScreenPaletteAsWritten` models the line as written.
- Slides.ExportDeck: its own contract covers only the non-slide case. The slide case is stated by `TaggedDeck`, `UnknownThemeUsesDefaultBackground` and `BuildDeck`. The deck and every slide in it use the corrected export lookup `PptxPaletteFor`, not the one at components/ExamDisplay.tsx:73, which `PptxPaletteAsWritten` models.
- Slides.UnknownThemeUsesDefaultBackground: it is stated for the corrected export lookup. As written, a name `Object.prototype` defines gives no palette and so no background colour at all.
- Streaming.HandleGenerate: its own contract states only the guard and the final generating flag. Success, failure and a missing key are each stated by their own lemma.

## Findings

| source | as written | input that shows it | evidently intended | confidence | as-written member | corrected member |
|---|---|---|---|---|---|---|
| components/ExamDisplay.tsx:72 | The screen palette lookup falls back to `'Default'` only on `undefined`. A theme that names an `Object.prototype` member returns that member, which is not a palette. | slide text opening with `[THEME: constructor]` | every name outside the table falls back to the `'Default'` palette | medium, not executed | Palette.InheritedNameSelectsNoPalette | Palette.ScreenPaletteFor |
| components/ExamDisplay.tsx:73 | The export palette lookup falls back to `'Default'` only on `undefined`. A theme that names an `Object.prototype` member returns that member, which is not a palette. | slide text opening with `[THEME: constructor]` | every name outside the table falls back to the `'Default'` palette | medium, not executed | Palette.InheritedNameSelectsNoPalette | Palette.PptxPaletteFor |
