/**
 * The generation request a teacher configures (the `ExamRequest` record and
 * the enumerations it uses) and the form's field update, `handleInputChange`.
 */
module Request {
  import opened Wrappers
  import Text

  datatype WorkMode = Exercise | LessonPlan | Presentation {
    /** The enumeration's string value. */
    function Value(): string {
      match this
      case Exercise => "exercise"
      case LessonPlan => "lesson_plan"
      case Presentation => "presentation"
    }
  }

  /** School grades 1 to 12; the enumeration's value is the number as text. */
  type Grade = n: nat | 1 <= n <= 12 witness 12

  function GradeValue(g: Grade): string {
    Text.NatToString(g)
  }

  datatype QuestionType = MultipleChoice | TrueFalse | ShortAnswer | Essay | Mixed {
    function Value(): string {
      match this
      case MultipleChoice => "Trắc nghiệm (4 lựa chọn)"
      case TrueFalse => "Trắc nghiệm Đúng - Sai"
      case ShortAnswer => "Điền đáp án / Trả lời ngắn"
      case Essay => "Bài tự luận"
      case Mixed => "Kết hợp (Khuyên dùng)"
    }
  }

  datatype Difficulty = Recall | Understanding | Application | AdvancedApplication | Mixed {
    function Value(): string {
      match this
      case Recall => "Nhận biết"
      case Understanding => "Thông hiểu"
      case Application => "Vận dụng"
      case AdvancedApplication => "Vận dụng cao"
      case Mixed => "Kết hợp"
    }
  }

  datatype LiteratureAnswerType = Outline | FullEssay

  type LiteraturePageCount = n: nat | 1 <= n <= 5 witness 1

  /** What to generate. Optional text fields are `None` when the property is absent. */
  datatype ExamRequest = ExamRequest(
    mode: WorkMode,
    subject: string,
    grade: Grade,
    topic: string,
    specificRequirements: Option<string>,
    additionalInstructions: Option<string>,
    questionType: QuestionType,
    difficulty: Difficulty,
    questionCount: int,
    literatureAnswerType: Option<LiteratureAnswerType>,
    literaturePageCount: Option<LiteraturePageCount>)

  /** The request the application starts with. */
  const InitialRequest: ExamRequest :=
    ExamRequest(Exercise, "Toán", 12, "", Some(""), Some(""),
                QuestionType.Mixed, Difficulty.Mixed, 10, None, None)

  /** The keys of `ExamRequest`. */
  datatype Field =
    | ModeField | SubjectField | GradeField | TopicField
    | SpecificRequirementsField | AdditionalInstructionsField
    | QuestionTypeField | DifficultyField | QuestionCountField
    | LiteratureAnswerTypeField | LiteraturePageCountField

  /** The value a field holds, tagged by its type. */
  datatype FieldValue =
    | ModeValue(mode: WorkMode)
    | TextValue(text: string)
    | OptionalTextValue(optText: Option<string>)
    | GradeValueOf(grade: Grade)
    | QuestionTypeValue(questionType: QuestionType)
    | DifficultyValue(difficulty: Difficulty)
    | NumberValue(number: int)
    | AnswerTypeValue(answerType: Option<LiteratureAnswerType>)
    | PageCountValue(pageCount: Option<LiteraturePageCount>)

  /** One call `onChange(field, value)` from the form, with a value of the field's type. */
  datatype Edit =
    | SetMode(mode: WorkMode)
    | SetSubject(subject: string)
    | SetGrade(grade: Grade)
    | SetTopic(topic: string)
    | SetSpecificRequirements(specific: string)
    | SetAdditionalInstructions(additional: string)
    | SetQuestionType(questionType: QuestionType)
    | SetDifficulty(difficulty: Difficulty)
    | SetQuestionCount(count: int)
    | SetLiteratureAnswerType(answerType: LiteratureAnswerType)
    | SetLiteraturePageCount(pageCount: LiteraturePageCount)
  {
    function Target(): Field {
      match this
      case SetMode(_) => ModeField
      case SetSubject(_) => SubjectField
      case SetGrade(_) => GradeField
      case SetTopic(_) => TopicField
      case SetSpecificRequirements(_) => SpecificRequirementsField
      case SetAdditionalInstructions(_) => AdditionalInstructionsField
      case SetQuestionType(_) => QuestionTypeField
      case SetDifficulty(_) => DifficultyField
      case SetQuestionCount(_) => QuestionCountField
      case SetLiteratureAnswerType(_) => LiteratureAnswerTypeField
      case SetLiteraturePageCount(_) => LiteraturePageCountField
    }

    /** The value the target field holds after the edit. */
    function NewValue(): FieldValue {
      match this
      case SetMode(m) => ModeValue(m)
      case SetSubject(s) => TextValue(s)
      case SetGrade(g) => GradeValueOf(g)
      case SetTopic(s) => TextValue(s)
      case SetSpecificRequirements(s) => OptionalTextValue(Some(s))
      case SetAdditionalInstructions(s) => OptionalTextValue(Some(s))
      case SetQuestionType(t) => QuestionTypeValue(t)
      case SetDifficulty(d) => DifficultyValue(d)
      case SetQuestionCount(n) => NumberValue(n)
      case SetLiteratureAnswerType(t) => AnswerTypeValue(Some(t))
      case SetLiteraturePageCount(p) => PageCountValue(Some(p))
    }
  }

  /** `request[field]`. */
  function Get(r: ExamRequest, f: Field): FieldValue {
    match f
    case ModeField => ModeValue(r.mode)
    case SubjectField => TextValue(r.subject)
    case GradeField => GradeValueOf(r.grade)
    case TopicField => TextValue(r.topic)
    case SpecificRequirementsField => OptionalTextValue(r.specificRequirements)
    case AdditionalInstructionsField => OptionalTextValue(r.additionalInstructions)
    case QuestionTypeField => QuestionTypeValue(r.questionType)
    case DifficultyField => DifficultyValue(r.difficulty)
    case QuestionCountField => NumberValue(r.questionCount)
    case LiteratureAnswerTypeField => AnswerTypeValue(r.literatureAnswerType)
    case LiteraturePageCountField => PageCountValue(r.literaturePageCount)
  }

  /** Two requests that agree on every field are the same request. */
  lemma FieldsDetermineRequest(r1: ExamRequest, r2: ExamRequest)
    requires forall f :: Get(r1, f) == Get(r2, f)
    ensures r1 == r2
  {
    assert Get(r1, ModeField) == Get(r2, ModeField);
    assert Get(r1, SubjectField) == Get(r2, SubjectField);
    assert Get(r1, GradeField) == Get(r2, GradeField);
    assert Get(r1, TopicField) == Get(r2, TopicField);
    assert Get(r1, SpecificRequirementsField) == Get(r2, SpecificRequirementsField);
    assert Get(r1, AdditionalInstructionsField) == Get(r2, AdditionalInstructionsField);
    assert Get(r1, QuestionTypeField) == Get(r2, QuestionTypeField);
    assert Get(r1, DifficultyField) == Get(r2, DifficultyField);
    assert Get(r1, QuestionCountField) == Get(r2, QuestionCountField);
    assert Get(r1, LiteratureAnswerTypeField) == Get(r2, LiteratureAnswerTypeField);
    assert Get(r1, LiteraturePageCountField) == Get(r2, LiteraturePageCountField);
  }

  /** `handleInputChange(field, value)`: `{ ...prev, [field]: value }`. */
  function HandleInputChange(prev: ExamRequest, e: Edit): (next: ExamRequest)
    ensures Get(next, e.Target()) == e.NewValue()
    ensures forall f :: f != e.Target() ==> Get(next, f) == Get(prev, f)
  {
    match e
    case SetMode(m) => prev.(mode := m)
    case SetSubject(s) => prev.(subject := s)
    case SetGrade(g) => prev.(grade := g)
    case SetTopic(s) => prev.(topic := s)
    case SetSpecificRequirements(s) => prev.(specificRequirements := Some(s))
    case SetAdditionalInstructions(s) => prev.(additionalInstructions := Some(s))
    case SetQuestionType(t) => prev.(questionType := t)
    case SetDifficulty(d) => prev.(difficulty := d)
    case SetQuestionCount(n) => prev.(questionCount := n)
    case SetLiteratureAnswerType(t) => prev.(literatureAnswerType := Some(t))
    case SetLiteraturePageCount(p) => prev.(literaturePageCount := Some(p))
  }

  /** Writing back the value a field already holds leaves the request as it was. */
  lemma RewriteIsIdentity(r: ExamRequest, e: Edit)
    requires Get(r, e.Target()) == e.NewValue()
    ensures HandleInputChange(r, e) == r
  {
    FieldsDetermineRequest(HandleInputChange(r, e), r);
  }

  /** Edits to different fields commute. */
  lemma EditsCommute(r: ExamRequest, e1: Edit, e2: Edit)
    requires e1.Target() != e2.Target()
    ensures HandleInputChange(HandleInputChange(r, e1), e2)
         == HandleInputChange(HandleInputChange(r, e2), e1)
  {
    var a := HandleInputChange(HandleInputChange(r, e1), e2);
    var b := HandleInputChange(HandleInputChange(r, e2), e1);
    forall f ensures Get(a, f) == Get(b, f) {
    }
    FieldsDetermineRequest(a, b);
  }
}
