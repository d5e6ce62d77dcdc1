/**
 * The generation service (`services/geminiService.ts`): the credential check,
 * the choice of system instruction and user prompt, the filter that forwards
 * stream chunks, and the classification of failures.
 *
 * The network call is not modelled: the response stream is an input, a finite
 * sequence of chunks that either completes or breaks with an error.
 */
module GeminiService {
  import opened Wrappers
  import opened Text
  import opened Request

  /** The three instruction texts, treated as opaque. */
  datatype Instruction = SystemInstruction | LessonPlanInstruction | PresentationInstruction

  datatype Prompt = Prompt(system: Instruction, user: string)

  /** A thrown value as its catcher sees it: `err.message`, possibly undefined. */
  datatype Thrown = Thrown(message: Option<string>)

  const MissingKeyMessage: string := "Không tìm thấy API Key hệ thống. Vui lòng kiểm tra lại cấu hình."
  /** The status code the quota test looks for; the quota message quotes it. */
  const QuotaCode: string := "429"
  const QuotaMessage: string := "Lỗi " + QuotaCode + ": Hết hạn ngạch API. Hệ thống miễn phí có thể đang quá tải, vui lòng thử lại sau ít phút."
  const InvalidKeyMessage: string := "API Key hệ thống không hợp lệ. Vui lòng liên hệ quản trị viên."
  const AdditionalPrefix: string := "\n\nYÊU CẦU BỔ SUNG QUAN TRỌNG: "
  const LiteratureSubject: string := "Ngữ văn / Tiếng Việt"

  // ------------------------------------------------------------ credential

  /** `getApiKey()`: the configured key, or a throw when it is missing or empty. */
  function GetApiKey(configured: Option<string>): (r: Result<string, Thrown>)
    ensures r.Success? <==> configured.Some? && configured.value != ""
    ensures r.Success? ==> r.value == configured.value
    ensures r.Failure? ==> r.error == Thrown(Some(MissingKeyMessage))
  {
    if configured.Some? && configured.value != "" then Success(configured.value)
    else Failure(Thrown(Some(MissingKeyMessage)))
  }

  // --------------------------------------------------------------- prompt

  /** `x || fallback` on an optional string: absent and empty both fall back. */
  function TextOr(x: Option<string>, fallback: string): (r: string)
    ensures x.Some? && x.value != "" ==> r == x.value
    ensures x.None? || x.value == "" ==> r == fallback
  {
    if x.Some? && x.value != "" then x.value else fallback
  }

  /** The additional-instructions suffix. */
  function AdditionalSuffix(r: ExamRequest): (s: string)
    ensures s == "" <==> r.additionalInstructions.None? || r.additionalInstructions.value == ""
    ensures s != "" ==> s == AdditionalPrefix + r.additionalInstructions.value
  {
    if r.additionalInstructions.Some? && r.additionalInstructions.value != "" then
      AdditionalPrefix + r.additionalInstructions.value
    else ""
  }

  /** The number of questions an exercise prompt asks for. */
  function ShownQuestionCount(r: ExamRequest): (n: int)
    ensures r.subject == LiteratureSubject ==> n == 1
    ensures r.subject != LiteratureSubject ==> n == r.questionCount
  {
    if r.subject == LiteratureSubject then 1 else r.questionCount
  }

  /** The label that introduces the source data in each mode's prompt. */
  function DataLabel(m: WorkMode): string {
    match m
    case LessonPlan => ". Dữ liệu: "
    case Presentation => ". Dữ liệu giáo án: "
    case Exercise => ". Dữ liệu: "
  }

  /** The source data as the prompt shows it: `'N/A'` when missing, except in exercises. */
  function DataText(r: ExamRequest): (d: string)
    ensures r.specificRequirements.Some? && r.specificRequirements.value != "" ==> d == r.specificRequirements.value
    ensures (r.specificRequirements.None? || r.specificRequirements.value == "") ==>
              d == (if r.mode == Exercise then "" else "N/A")
  {
    TextOr(r.specificRequirements, if r.mode == Exercise then "" else "N/A")
  }

  /** The exercise prompt's fragment that states the question count. */
  function CountClause(r: ExamRequest): string {
    ", Số câu: " + IntToString(ShownQuestionCount(r))
  }

  /** The part of the user prompt that precedes the data label. */
  function PromptHead(r: ExamRequest): string {
    match r.mode
    case LessonPlan =>
      "CHẾ ĐỘ: Giáo án NLS. Môn: " + r.subject + ", Lớp: " + GradeValue(r.grade)
      + ", Bài: " + r.topic
    case Presentation =>
      "CHẾ ĐỘ: Thiết kế Slide. Môn: " + r.subject + ", Lớp: " + GradeValue(r.grade)
      + ", Chủ đề: " + r.topic
    case Exercise => ExerciseSettings(r) + CountClause(r)
  }

  /** The exercise prompt's settings before the question count. */
  function ExerciseSettings(r: ExamRequest): string {
    "Tạo bài tập: " + r.subject + ", Lớp: " + GradeValue(r.grade) + ", Chủ đề: " + r.topic
    + ", Loại: " + r.questionType.Value() + ", Mức độ: " + r.difficulty.Value()
  }

  /** The system instruction and the user prompt for a request. */
  function BuildPrompt(r: ExamRequest): (p: Prompt)
    ensures r.mode == LessonPlan ==> p.system == LessonPlanInstruction
    ensures r.mode == Presentation ==> p.system == PresentationInstruction
    ensures r.mode == Exercise ==> p.system == SystemInstruction
    ensures EndsWith(p.user, DataLabel(r.mode) + DataText(r) + AdditionalSuffix(r))
  {
    var system := match r.mode
      case LessonPlan => LessonPlanInstruction
      case Presentation => PresentationInstruction
      case Exercise => SystemInstruction;
    var tail := DataLabel(r.mode) + DataText(r) + AdditionalSuffix(r);
    var user := PromptHead(r) + tail;
    assert user[|user| - |tail|..] == tail;
    Prompt(system, user)
  }

  /** The lesson-plan prompt names the subject, the grade and the lesson, then the data. */
  lemma LessonPlanPrompt(r: ExamRequest)
    requires r.mode == LessonPlan
    ensures BuildPrompt(r).user
            == "CHẾ ĐỘ: Giáo án NLS. Môn: " + r.subject + ", Lớp: " + GradeValue(r.grade)
               + ", Bài: " + r.topic + ". Dữ liệu: " + DataText(r) + AdditionalSuffix(r)
  {
  }

  /** The slide prompt names the subject, the grade and the topic, then the lesson-plan data. */
  lemma PresentationPrompt(r: ExamRequest)
    requires r.mode == Presentation
    ensures BuildPrompt(r).user
            == "CHẾ ĐỘ: Thiết kế Slide. Môn: " + r.subject + ", Lớp: " + GradeValue(r.grade)
               + ", Chủ đề: " + r.topic + ". Dữ liệu giáo án: " + DataText(r) + AdditionalSuffix(r)
  {
  }

  /** The exercise prompt names the subject, the grade, the topic, the question
      type, the difficulty and the shown count, then the data. */
  lemma ExercisePrompt(r: ExamRequest)
    requires r.mode == Exercise
    ensures BuildPrompt(r).user
            == "Tạo bài tập: " + r.subject + ", Lớp: " + GradeValue(r.grade) + ", Chủ đề: " + r.topic
               + ", Loại: " + r.questionType.Value() + ", Mức độ: " + r.difficulty.Value()
               + ", Số câu: " + IntToString(ShownQuestionCount(r)) + ". Dữ liệu: " + DataText(r) + AdditionalSuffix(r)
  {
    var settings := ExerciseSettings(r);
    var count := IntToString(ShownQuestionCount(r));
    var dataLabel := ". Dữ liệu: ";
    ConcatAssoc(settings, ", Số câu: ", count);
    var head := settings + ", Số câu: " + count;
    ConcatAssoc(head, dataLabel + DataText(r), AdditionalSuffix(r));
    ConcatAssoc(head, dataLabel, DataText(r));
  }

  /** The additional instructions only ever extend the prompt at its end. */
  lemma SuffixComesLast(r: ExamRequest)
    ensures BuildPrompt(r).user == BuildPrompt(r.(additionalInstructions := None)).user + AdditionalSuffix(r)
    ensures EndsWith(BuildPrompt(r).user, AdditionalSuffix(r))
  {
    var tail := DataLabel(r.mode) + DataText(r);
    var plain := r.(additionalInstructions := None);
    assert PromptHead(plain) == PromptHead(r) && DataText(plain) == DataText(r) && AdditionalSuffix(plain) == "";
    assert tail + "" == tail;
    ConcatAssoc(PromptHead(r), tail, AdditionalSuffix(r));
    EndsWithAppended(PromptHead(r) + tail, AdditionalSuffix(r));
  }

  /** Lesson plans and presentations do not read the exercise-only fields. */
  lemma NonExercisePromptIgnoresExerciseFields(r: ExamRequest, t: QuestionType, d: Difficulty, n: int)
    requires r.mode != Exercise
    ensures BuildPrompt(r.(questionType := t, difficulty := d, questionCount := n)) == BuildPrompt(r)
  {
  }

  /** An exercise prompt states the shown question count right after its other
      settings: 1 for literature, otherwise the requested count. */
  lemma ExercisePromptStatesCount(r: ExamRequest)
    requires r.mode == Exercise
    ensures OccursAt(BuildPrompt(r).user,
                     ", Số câu: " + IntToString(ShownQuestionCount(r)) + ". Dữ liệu: ",
                     |ExerciseSettings(r)|)
  {
    var head := ExerciseSettings(r);
    var count := ", Số câu: " + IntToString(ShownQuestionCount(r));
    var dataLabel := ". Dữ liệu: ";
    assert BuildPrompt(r).user == (head + count) + ((dataLabel + DataText(r)) + AdditionalSuffix(r));
    ConcatRegroup(head, count, dataLabel, DataText(r), AdditionalSuffix(r));
    OccursBetween(head, count + dataLabel, DataText(r) + AdditionalSuffix(r));
  }

  // ----------------------------------------------------- chunk forwarding

  /** One element of the response stream; `text` is undefined for chunks without text.
      `receivedAt` is the clock reading when the application handles the chunk. */
  datatype StreamChunk = StreamChunk(text: Option<string>, receivedAt: nat)

  /** A chunk handed to the caller's `onChunk`. */
  datatype Delivery = Delivery(text: string, receivedAt: nat)

  /** `if (chunk.text) onChunk(chunk.text)` over the whole stream. */
  function Forward(chunks: seq<StreamChunk>): (ds: seq<Delivery>)
    ensures |ds| <= |chunks|
    ensures forall i :: 0 <= i < |ds| ==> ds[i].text != ""
  {
    if |chunks| == 0 then []
    else
      var c := chunks[0];
      var rest := Forward(chunks[1..]);
      if c.text.Some? && c.text.value != "" then [Delivery(c.text.value, c.receivedAt)] + rest
      else rest
  }

  /** Forwarding works chunk by chunk and keeps stream order. */
  lemma {:induction false} ForwardAppend(a: seq<StreamChunk>, b: seq<StreamChunk>)
    ensures Forward(a + b) == Forward(a) + Forward(b)
  {
    if |a| == 0 {
      assert a + b == b;
    } else {
      assert (a + b)[1..] == a[1..] + b;
      ForwardAppend(a[1..], b);
    }
  }

  /** A single chunk is forwarded exactly when its text is non-empty. */
  lemma ForwardOne(c: StreamChunk)
    ensures Forward([c]) == if c.text.Some? && c.text.value != "" then [Delivery(c.text.value, c.receivedAt)] else []
  {
    assert [c][1..] == [];
  }

  /** The text a stream carries, undefined chunks counting as empty. */
  function StreamText(chunks: seq<StreamChunk>): string {
    if |chunks| == 0 then "" else chunks[0].text.GetOr("") + StreamText(chunks[1..])
  }

  /** The text the caller receives. */
  function DeliveredText(ds: seq<Delivery>): string {
    if |ds| == 0 then "" else ds[0].text + DeliveredText(ds[1..])
  }

  /** Dropping empty chunks loses no text. */
  lemma {:induction false} ForwardKeepsText(chunks: seq<StreamChunk>)
    ensures DeliveredText(Forward(chunks)) == StreamText(chunks)
  {
    if |chunks| > 0 {
      ForwardKeepsText(chunks[1..]);
    }
  }

  // --------------------------------------------------- error classification

  /** Lower-casing as far as a search for an ASCII pattern can tell: `A`-`Z` and
      the Kelvin sign lower to ASCII letters; every other code point lowers to
      non-ASCII text (U+0130 to `i` plus U+0307, which cannot sit inside an
      ASCII pattern), so keeping it unchanged decides the search the same way. */
  function LowerForAscii(c: char): (l: char)
    ensures 'A' <= c <= 'Z' ==> l as int == c as int + 32
  {
    if 'A' <= c <= 'Z' then (c as int + 32) as char
    else if c == '\U{212A}' then 'k'
    else c
  }

  function LowerString(s: string): (r: string)
    ensures |r| == |s|
    ensures forall i :: 0 <= i < |s| ==> r[i] == LowerForAscii(s[i])
  {
    if |s| == 0 then "" else [LowerForAscii(s[0])] + LowerString(s[1..])
  }

  /** `s.includes(pat)`: some position of `s` starts a copy of `pat`. */
  predicate Contains(s: string, pat: string): (b: bool)
    ensures b <==> exists k :: OccursAt(s, pat, k)
  {
    var r := FindFrom(s, pat, 0);
    r.Some?
  }

  datatype ErrorKind = QuotaExceeded | InvalidKey | OtherError

  /** Which of the three handlers a failure reaches; the quota test comes first. */
  function Kind(e: Thrown): (k: ErrorKind)
    ensures k == QuotaExceeded <==> e.message.Some? && Contains(e.message.value, QuotaCode)
    ensures k == InvalidKey <==>
              e.message.Some? && !Contains(e.message.value, QuotaCode)
              && Contains(LowerString(e.message.value), "api key not valid")
  {
    if e.message.Some? && Contains(e.message.value, QuotaCode) then QuotaExceeded
    else if e.message.Some? && Contains(LowerString(e.message.value), "api key not valid") then InvalidKey
    else OtherError
  }

  /** The error the service rethrows for a failure of the stream. */
  function Classify(e: Thrown): (r: Thrown)
    ensures Kind(e) == QuotaExceeded ==> r == Thrown(Some(QuotaMessage))
    ensures Kind(e) == InvalidKey ==> r == Thrown(Some(InvalidKeyMessage))
    ensures Kind(e) == OtherError ==> r == e
  {
    match Kind(e)
    case QuotaExceeded => Thrown(Some(QuotaMessage))
    case InvalidKey => Thrown(Some(InvalidKeyMessage))
    case OtherError => e
  }

  /** An occurrence anywhere is found by the search. */
  lemma {:induction false} OccurrenceIsFound(s: string, pat: string, from: nat, k: nat)
    requires from <= k && OccursAt(s, pat, k)
    ensures FindFrom(s, pat, from).Some?
    decreases k - from
  {
    if from < k && !OccursAt(s, pat, from) {
      OccurrenceIsFound(s, pat, from + 1, k);
    }
  }

  /** Re-classifying a quota error keeps it a quota error: the quota message
      itself carries the code the first test looks for. */
  lemma QuotaStaysQuota(e: Thrown)
    requires Kind(e) == QuotaExceeded
    ensures Kind(Classify(e)) == QuotaExceeded
  {
    var prefix := "Lỗi ";
    assert QuotaMessage == prefix + QuotaCode + QuotaMessage[7..];
    assert QuotaMessage[4..7] == QuotaCode;
    OccurrenceIsFound(QuotaMessage, QuotaCode, 0, 4);
  }

  // ------------------------------------------------------------- one call

  datatype StreamEnd = Completed | Broke(error: Thrown)

  /** What the generation service would produce: chunks, then completion or a failure. */
  datatype ResponseStream = ResponseStream(chunks: seq<StreamChunk>, end: StreamEnd)

  /** The observable effect of `generateExamStream`: the prompt it sends (none when
      it throws before building one), the chunks it forwards, and what it throws. */
  datatype Generation = Generation(prompt: Option<Prompt>, delivered: seq<Delivery>, failure: Option<Thrown>)

  function GenerateExamStream(configuredKey: Option<string>, r: ExamRequest, stream: ResponseStream): (g: Generation)
    ensures GetApiKey(configuredKey).Failure? ==>
              g == Generation(None, [], Some(Thrown(Some(MissingKeyMessage))))
    ensures GetApiKey(configuredKey).Success? ==>
              && g.prompt == Some(BuildPrompt(r))
              && g.delivered == Forward(stream.chunks)
              && (stream.end.Completed? <==> g.failure.None?)
              && (stream.end.Broke? ==> g.failure == Some(Classify(stream.end.error)))
  {
    match GetApiKey(configuredKey)
    case Failure(e) => Generation(None, [], Some(e))
    case Success(_) =>
      var failure := match stream.end
        case Completed => None
        case Broke(e) => Some(Classify(e));
      Generation(Some(BuildPrompt(r)), Forward(stream.chunks), failure)
  }
}
