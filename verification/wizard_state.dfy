/**
 * The interview-configuration wizard's client-held state: the draft the form
 * edits, the loading stage that replaces the form with a progress text, and
 * the step the stepper opens on.
 */
module WizardState {
  import opened Optional
  import opened JsStrings

  /** What the page is busy with; anything but `Idle` hides the form. */
  datatype Stage = Idle | Upload | Parse | Create

  /**
   * The page's state. `selectedFile` is the chosen resume file, by name;
   * `questions` is the question count as the select element's string value.
   */
  datatype Draft = Draft(
    candidateName: string,
    selectedFile: Option<string>,
    resumeUrl: Option<string>,
    mode: string,
    difficulty: string,
    skills: string,
    topic: string,
    questions: string,
    loadingStage: Stage,
    initialStep: int)

  /** Option values of the three select elements of the form. */
  const ModeOptions: seq<string> := ["HR", "Technical"]
  const DifficultyOptions: seq<string> := ["easy", "medium", "hard"]
  const QuestionOptions: seq<string> := ["2", "5", "10", "15", "20"]

  const DefaultMode: string := "Technical"
  const DefaultDifficulty: string := "medium"
  const DefaultQuestions: string := "10"

  /** The step the stepper opens on before and after a successful resume analysis. */
  const FirstStep: int := 1
  const CoreSetupStep: int := 2

  /**
   * What every state the page can reach satisfies: mode and difficulty are
   * never empty, the question count is one of the offered options, a stored
   * resume URL is never the empty string, and the opening step is 1 or 2.
   */
  predicate WellFormed(d: Draft) {
    && Truthy(d.mode)
    && Truthy(d.difficulty)
    && d.questions in QuestionOptions
    && (d.resumeUrl.Some? ==> Truthy(d.resumeUrl.value))
    && (d.initialStep == FirstStep || d.initialStep == CoreSetupStep)
  }

  /** A well-formed draft showing the form rather than a loading screen. */
  predicate Settled(d: Draft) {
    WellFormed(d) && d.loadingStage == Idle
  }

  /** The state when the page mounts. */
  function Initial(): (d: Draft)
    ensures Settled(d)
    ensures d.mode == DefaultMode && d.difficulty == DefaultDifficulty && d.questions == DefaultQuestions
    ensures d.mode in ModeOptions && d.difficulty in DifficultyOptions
    ensures !Truthy(d.candidateName) && !Truthy(d.skills) && !Truthy(d.topic)
    ensures d.selectedFile.None? && d.resumeUrl.None? && d.initialStep == FirstStep
  {
    Draft("", None, None, DefaultMode, DefaultDifficulty, "", "", DefaultQuestions, Idle, FirstStep)
  }

  /**
   * The text shown instead of the form while a stage is in progress; `None`
   * means the form is shown.
   */
  function LoadingText(stage: Stage): (text: Option<string>)
    ensures text.None? <==> stage == Idle
    ensures text.Some? ==> Truthy(text.value)
  {
    match stage
    case Idle => None
    case Upload => Some("Uploading Resume")
    case Parse => Some("Analyzing Resume")
    case Create => Some("Creating Interview")
  }

  /** Each busy stage has its own text. */
  lemma LoadingTextDistinguishesStages(a: Stage, b: Stage)
    ensures LoadingText(a) == LoadingText(b) <==> a == b
  {
  }

  /** One change the user makes through an input or select element of the form. */
  datatype Edit =
    | TypeCandidateName(value: string)
    | SelectMode(value: string)
    | SelectDifficulty(value: string)
    | TypeSkills(value: string)
    | TypeTopic(value: string)
    | SelectQuestions(value: string)

  /** A select element can only produce one of its option values. */
  predicate Offered(e: Edit) {
    match e
    case SelectMode(v) => v in ModeOptions
    case SelectDifficulty(v) => v in DifficultyOptions
    case SelectQuestions(v) => v in QuestionOptions
    case _ => true
  }

  /** The field an `onChange` handler writes; nothing else changes. */
  function ApplyEdit(d: Draft, e: Edit): (r: Draft)
    ensures r.selectedFile == d.selectedFile && r.resumeUrl == d.resumeUrl
    ensures r.loadingStage == d.loadingStage && r.initialStep == d.initialStep
    ensures e.TypeCandidateName? ==> r == d.(candidateName := e.value)
    ensures e.SelectMode? ==> r == d.(mode := e.value)
    ensures e.SelectDifficulty? ==> r == d.(difficulty := e.value)
    ensures e.TypeSkills? ==> r == d.(skills := e.value)
    ensures e.TypeTopic? ==> r == d.(topic := e.value)
    ensures e.SelectQuestions? ==> r == d.(questions := e.value)
    ensures WellFormed(d) && Offered(e) ==> WellFormed(r)
  {
    match e
    case TypeCandidateName(v) => d.(candidateName := v)
    case SelectMode(v) => d.(mode := v)
    case SelectDifficulty(v) => d.(difficulty := v)
    case TypeSkills(v) => d.(skills := v)
    case TypeTopic(v) => d.(topic := v)
    case SelectQuestions(v) => d.(questions := v)
  }
}
