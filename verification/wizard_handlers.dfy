/**
 * The wizard's two asynchronous handlers, each taken as one atomic step: the
 * file-selection pipeline (upload, then resume extraction, then prefill) and
 * the final submission (guard chain, then creation of the interview record).
 * The network, the toast notifier, the router and the session provider are not
 * modelled: their answers are inputs and the requests made of them are effects.
 */
module WizardHandlers {
  import opened Optional
  import opened JsStrings
  import opened JsNumbers
  import opened WizardState

  datatype ToastKind = SuccessToast | ErrorToast

  /** The record sent to the content backend's `create("interviews", …)`. */
  datatype Payload = Payload(
    resume: Option<string>,
    mode: string,
    difficulty: string,
    skills: string,
    details: string,
    numberOfQuestions: Option<int>,
    user: string,
    candidateName: string)

  /** A request the page makes of the outside world, in the order it makes them. */
  datatype Effect =
    | UploadRequest(file: string)
    | ExtractRequest(imageUrl: string)
    | Toast(kind: ToastKind, message: string)
    | CreateRequest(collection: string, payload: Payload)
    | Navigate(path: string)

  /** A handler's outcome: the new state, the stages set on the way, the effects. */
  datatype Transition = Transition(draft: Draft, stages: seq<Stage>, effects: seq<Effect>)

  /** The fields of the extraction response the page reads; `None` is a missing key. */
  datatype ExtractedFields = ExtractedFields(
    candidateName: Option<string>,
    skills: Option<string>,
    topic: Option<string>,
    difficulty: Option<string>,
    mode: Option<string>)

  /**
   * The decoded extraction response: the request or its decoding threw, it
   * decoded to a falsy value such as `null`, or it decoded to an object.
   */
  datatype Extraction = ExtractionFailed | ExtractedFalsy | Extracted(fields: ExtractedFields)

  /** The signed-in user, when the session has one. */
  datatype User = User(id: string)

  /**
   * The create call's outcome: it threw, it answered without a `data` member
   * (reading the document id then throws), or it answered with the new id.
   */
  datatype CreateResponse = CreateThrew | CreatedWithoutData | Created(documentId: string)

  const UploadedMessage: string := "Resume uploaded successfully"
  const AnalyzedMessage: string := "Resume analyzed successfully"
  const PipelineErrorMessage: string := "Error uploading or parsing resume"
  const NameMissingMessage: string := "Please provide candidate name"
  const LoginMissingMessage: string := "You must be logged in"
  const SkillsMissingMessage: string := "Please provide skills"
  const TopicMissingMessage: string := "Please provide job role"
  const CreatedMessage: string := "Interview Created Successfully"
  const CreateErrorMessage: string := "Something went wrong"
  const InterviewsCollection: string := "interviews"
  const InterviewPathPrefix: string := "/interview/"

  /** The upload answered with a truthy `result`, the stored file's URL. */
  predicate UploadSucceeded(upload: Option<string>) {
    upload.Some? && Truthy(upload.value)
  }

  /**
   * Copies the extracted fields into the draft with `value || default`, and
   * opens the stepper on the core-setup step.
   */
  function Prefill(d: Draft, f: ExtractedFields): (r: Draft)
    ensures r.candidateName == f.candidateName.GetOr("")
    ensures r.skills == f.skills.GetOr("")
    ensures r.topic == f.topic.GetOr("")
    ensures Truthy(r.difficulty) && (r.difficulty == DefaultDifficulty || f.difficulty == Some(r.difficulty))
    ensures Truthy(r.mode) && (r.mode == DefaultMode || f.mode == Some(r.mode))
    ensures f.difficulty.Some? && Truthy(f.difficulty.value) ==> r.difficulty == f.difficulty.value
    ensures f.mode.Some? && Truthy(f.mode.value) ==> r.mode == f.mode.value
    ensures r.initialStep == CoreSetupStep
    ensures r.selectedFile == d.selectedFile && r.resumeUrl == d.resumeUrl
    ensures r.questions == d.questions && r.loadingStage == d.loadingStage
  {
    d.(candidateName := OrElse(f.candidateName, ""),
       skills := OrElse(f.skills, ""),
       topic := OrElse(f.topic, ""),
       difficulty := OrElse(f.difficulty, DefaultDifficulty),
       mode := OrElse(f.mode, DefaultMode),
       initialStep := CoreSetupStep)
  }

  /**
   * `handleFileChange`: with no file, nothing happens. Otherwise the file is
   * recorded and uploaded; without a truthy URL the pipeline stops with an
   * error toast. With one, the URL is stored, the extraction is requested, and
   * its answer prefills the draft. The stage returns to `Idle` on every path
   * that started the pipeline.
   */
  function HandleFileChange(d: Draft, file: Option<string>, upload: Option<string>, extraction: Extraction)
    : (r: Transition)
    ensures file.None? ==> r == Transition(d, [], [])
    ensures file.Some? ==> r.draft.loadingStage == Idle && r.draft.selectedFile == file
    ensures file.Some? ==> |r.stages| >= 2 && r.stages[0] == Upload && r.stages[|r.stages| - 1] == Idle
    ensures file.Some? ==> |r.effects| >= 2 && r.effects[0] == UploadRequest(file.value)
    ensures file.Some? && !UploadSucceeded(upload) ==>
      && r.draft == d.(selectedFile := file, loadingStage := Idle)
      && r.stages == [Upload, Idle]
      && r.effects == [UploadRequest(file.value), Toast(ErrorToast, PipelineErrorMessage)]
    ensures file.Some? && UploadSucceeded(upload) ==>
      && r.draft.resumeUrl == upload
      && r.stages == [Upload, Parse, Idle]
      && |r.effects| == 4
      && r.effects[..3] == [UploadRequest(file.value), Toast(SuccessToast, UploadedMessage), ExtractRequest(upload.value)]
    ensures file.Some? && UploadSucceeded(upload) ==>
      r.effects[3] ==
        if extraction.ExtractionFailed? then Toast(ErrorToast, PipelineErrorMessage)
        else Toast(SuccessToast, AnalyzedMessage)
    ensures file.Some? && UploadSucceeded(upload) ==>
      var uploaded := d.(selectedFile := file, resumeUrl := upload);
      r.draft ==
        if extraction.Extracted? then Prefill(uploaded, extraction.fields).(loadingStage := Idle)
        else uploaded.(loadingStage := Idle)
    ensures r.draft.initialStep ==
      if file.Some? && UploadSucceeded(upload) && extraction.Extracted? then CoreSetupStep else d.initialStep
    ensures r.draft.questions == d.questions
    ensures WellFormed(d) ==> WellFormed(r.draft)
    ensures forall i :: 0 <= i < |r.effects| ==> !r.effects[i].CreateRequest? && !r.effects[i].Navigate?
  {
    if file.None? then Transition(d, [], [])
    else
      var uploading := d.(selectedFile := file, loadingStage := Upload);
      var requested := [UploadRequest(file.value)];
      if !UploadSucceeded(upload) then
        Transition(uploading.(loadingStage := Idle), [Upload, Idle],
                   requested + [Toast(ErrorToast, PipelineErrorMessage)])
      else
        var url := upload.value;
        var parsing := uploading.(resumeUrl := Some(url), loadingStage := Parse);
        var extracting := requested + [Toast(SuccessToast, UploadedMessage), ExtractRequest(url)];
        match extraction
        case ExtractionFailed =>
          Transition(parsing.(loadingStage := Idle), [Upload, Parse, Idle],
                     extracting + [Toast(ErrorToast, PipelineErrorMessage)])
        case ExtractedFalsy =>
          Transition(parsing.(loadingStage := Idle), [Upload, Parse, Idle],
                     extracting + [Toast(SuccessToast, AnalyzedMessage)])
        case Extracted(fields) =>
          Transition(Prefill(parsing, fields).(loadingStage := Idle), [Upload, Parse, Idle],
                     extracting + [Toast(SuccessToast, AnalyzedMessage)])
  }

  /**
   * The submission guard chain, checked in order name, signed-in user, skills,
   * topic: the message of the first guard that fails, `None` when all pass.
   */
  function FirstGuardFailure(d: Draft, session: Option<User>): (failure: Option<string>)
    ensures failure.None? <==> Truthy(d.candidateName) && session.Some? && Truthy(d.skills) && Truthy(d.topic)
    ensures failure.Some? ==>
      failure.value in [NameMissingMessage, LoginMissingMessage, SkillsMissingMessage, TopicMissingMessage]
  {
    if !Truthy(d.candidateName) then Some(NameMissingMessage)
    else if session.None? then Some(LoginMissingMessage)
    else if !Truthy(d.skills) then Some(SkillsMissingMessage)
    else if !Truthy(d.topic) then Some(TopicMissingMessage)
    else None
  }

  /** `resumeUrl || null`. */
  function ResumeOrNull(resumeUrl: Option<string>): (r: Option<string>)
    ensures r.Some? ==> Truthy(r.value) && r == resumeUrl
    ensures UploadSucceeded(resumeUrl) ==> r == resumeUrl
  {
    if resumeUrl.Some? && Truthy(resumeUrl.value) then resumeUrl else None
  }

  /** The record the create call receives for draft `d` and signed-in user `user`. */
  function BuildPayload(d: Draft, user: User): (p: Payload)
    ensures p.candidateName == d.candidateName && p.mode == d.mode && p.difficulty == d.difficulty
    ensures p.details == d.topic && p.user == user.id
    ensures p.resume == ResumeOrNull(d.resumeUrl)
    ensures |p.skills| == |d.skills| && ' ' !in p.skills
    ensures forall i :: 0 <= i < |d.skills| ==> p.skills[i] == (if d.skills[i] == ' ' then ',' else d.skills[i])
    ensures p.numberOfQuestions == ParseInt(d.questions)
  {
    Payload(ResumeOrNull(d.resumeUrl), d.mode, d.difficulty, NormaliseSkills(d.skills),
            d.topic, ParseInt(d.questions), user.id, d.candidateName)
  }

  /** The payloads of the create requests among `effects`, in order. */
  function CreatedPayloads(effects: seq<Effect>): (ps: seq<Payload>)
    ensures |ps| <= |effects|
    ensures (forall i :: 0 <= i < |effects| ==> !effects[i].CreateRequest?) <==> ps == []
  {
    if |effects| == 0 then []
    else (if effects[0].CreateRequest? then [effects[0].payload] else []) + CreatedPayloads(effects[1..])
  }

  /** The navigation targets among `effects`, in order. */
  function NavigationTargets(effects: seq<Effect>): (paths: seq<string>)
    ensures |paths| <= |effects|
    ensures (forall i :: 0 <= i < |effects| ==> !effects[i].Navigate?) <==> paths == []
  {
    if |effects| == 0 then []
    else (if effects[0].Navigate? then [effects[0].path] else []) + NavigationTargets(effects[1..])
  }

  /**
   * `handleSubmitFinal`: the stage is `Create` while the guards run; a failing
   * guard shows its message and nothing is created. Otherwise the record is
   * created and, once the backend answers with its id, the page navigates to
   * the interview. The stage returns to `Idle` on every path and the draft
   * is otherwise left as it was.
   */
  function HandleSubmitFinal(d: Draft, session: Option<User>, response: CreateResponse): (r: Transition)
    ensures r.draft == d.(loadingStage := Idle)
    ensures WellFormed(d) ==> Settled(r.draft)
    ensures r.stages == [Create, Idle]
    ensures FirstGuardFailure(d, session).Some? ==>
      r.effects == [Toast(ErrorToast, FirstGuardFailure(d, session).value)]
    ensures FirstGuardFailure(d, session).None? ==>
      |r.effects| >= 2 && r.effects[0] == CreateRequest(InterviewsCollection, BuildPayload(d, session.value))
    ensures FirstGuardFailure(d, session).None? ==>
      r.effects[1..] ==
        match response
        case CreateThrew => [Toast(ErrorToast, CreateErrorMessage)]
        case CreatedWithoutData => [Toast(SuccessToast, CreatedMessage), Toast(ErrorToast, CreateErrorMessage)]
        case Created(id) => [Toast(SuccessToast, CreatedMessage), Navigate(InterviewPathPrefix + id)]
    ensures |CreatedPayloads(r.effects)| <= 1
    ensures |CreatedPayloads(r.effects)| == 1 <==> FirstGuardFailure(d, session).None?
    ensures NavigationTargets(r.effects) ==
      if FirstGuardFailure(d, session).None? && response.Created?
      then [InterviewPathPrefix + response.documentId] else []
  {
    var creating := d.(loadingStage := Create);
    var failure := FirstGuardFailure(creating, session);
    var effects :=
      if failure.Some? then [Toast(ErrorToast, failure.value)]
      else
        var request := CreateRequest(InterviewsCollection, BuildPayload(creating, session.value));
        var answered :=
          match response
          case CreateThrew =>
            [Toast(ErrorToast, CreateErrorMessage)]
          case CreatedWithoutData =>
            [Toast(SuccessToast, CreatedMessage), Toast(ErrorToast, CreateErrorMessage)]
          case Created(id) =>
            [Toast(SuccessToast, CreatedMessage), Navigate(InterviewPathPrefix + id)];
        assert ([request] + answered)[1..] == answered;
        assert CreatedPayloads(answered) == [];
        assert NavigationTargets([request] + answered) == NavigationTargets(answered);
        assert response.Created? ==>
          var target := Navigate(InterviewPathPrefix + response.documentId);
          && answered[1..] == [target]
          && NavigationTargets([target]) == [target.path];
        [request] + answered;
    Transition(creating.(loadingStage := Idle), [Create, Idle], effects)
  }
}
