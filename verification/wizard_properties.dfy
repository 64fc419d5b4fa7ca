/**
 * Properties of the wizard that relate several calls or hold of every state
 * the page can reach from the moment it mounts.
 */
module WizardProperties {
  import opened Optional
  import opened JsStrings
  import opened JsNumbers
  import opened WizardState
  import opened WizardHandlers

  /** Something the user does on the page; each handler runs to completion. */
  datatype Event =
    | FileSelected(file: Option<string>, upload: Option<string>, extraction: Extraction)
    | Edited(edit: Edit)
    | FinalStepCompleted(session: Option<User>, response: CreateResponse)

  function Dispatch(d: Draft, ev: Event): Transition
  {
    match ev
    case FileSelected(file, upload, extraction) => HandleFileChange(d, file, upload, extraction)
    case Edited(edit) => Transition(ApplyEdit(d, edit), [], [])
    case FinalStepCompleted(session, response) => HandleSubmitFinal(d, session, response)
  }

  /** The events' transitions one after the other, stages and effects concatenated. */
  function Run(d: Draft, events: seq<Event>): Transition
    decreases |events|
  {
    if |events| == 0 then Transition(d, [], [])
    else
      var first := Dispatch(d, events[0]);
      var rest := Run(first.draft, events[1..]);
      Transition(rest.draft, first.stages + rest.stages, first.effects + rest.effects)
  }

  /** Every select-element edit among the events carries an offered option value. */
  predicate OfferedEvents(events: seq<Event>) {
    forall i :: 0 <= i < |events| && events[i].Edited? ==> Offered(events[i].edit)
  }

  /** Both handlers leave the page settled, whichever way they end. */
  lemma DispatchKeepsSettled(d: Draft, ev: Event)
    requires Settled(d)
    requires ev.Edited? ==> Offered(ev.edit)
    ensures Settled(Dispatch(d, ev).draft)
    ensures |Dispatch(d, ev).stages| > 0 ==> Dispatch(d, ev).stages[|Dispatch(d, ev).stages| - 1] == Idle
  {
  }

  /**
   * Whatever the user does and whatever the outside world answers, the page
   * is settled after every handler: mode and difficulty are non-empty, the
   * question count is an offered option, and no loading screen is left up.
   */
  lemma {:induction false} RunKeepsSettled(d: Draft, events: seq<Event>)
    requires Settled(d)
    requires OfferedEvents(events)
    ensures Settled(Run(d, events).draft)
    decreases |events|
  {
    if |events| > 0 {
      DispatchKeepsSettled(d, events[0]);
      var first := Dispatch(d, events[0]);
      assert OfferedEvents(events[1..]) by {
        forall i | 0 <= i < |events[1..]| && events[1..][i].Edited?
          ensures Offered(events[1..][i].edit)
        {
          assert events[1..][i] == events[i + 1];
        }
      }
      RunKeepsSettled(first.draft, events[1..]);
    }
  }

  /** Every state reachable from the mounted page is settled. */
  lemma ReachableStatesAreSettled(events: seq<Event>)
    requires OfferedEvents(events)
    ensures Settled(Run(Initial(), events).draft)
  {
    RunKeepsSettled(Initial(), events);
  }

  /** Each offered question count is the decimal spelling of its number. */
  lemma QuestionOptionIsDecimal(q: string) returns (n: nat)
    requires q in QuestionOptions
    ensures n in {2, 5, 10, 15, 20} && q == DecimalString(n)
  {
    if q == "2" { n := 2; }
    else if q == "5" { n := 5; }
    else if q == "10" { n := 10; assert DecimalString(1) == "1"; }
    else if q == "15" { n := 15; assert DecimalString(1) == "1"; }
    else { n := 20; assert DecimalString(2) == "2"; }
  }

  /** `parseInt` of each offered question count is that count. */
  lemma QuestionOptionsParse(q: string)
    requires q in QuestionOptions
    ensures ParseInt(q).Some?
    ensures ParseInt(q).value in {2, 5, 10, 15, 20}
    ensures q == DecimalString(ParseInt(q).value)
  {
    var n := QuestionOptionIsDecimal(q);
    ParseIntDecimalString(n);
  }

  /**
   * A submission from a settled page with every guard passing creates exactly
   * one record; its question count is the selected option's number and its
   * resume is the uploaded URL, or `null` when nothing was uploaded.
   */
  lemma SettledSubmissionPayload(d: Draft, user: User, response: CreateResponse)
    requires Settled(d)
    requires Truthy(d.candidateName) && Truthy(d.skills) && Truthy(d.topic)
    ensures
      var r := HandleSubmitFinal(d, Some(user), response);
      && CreatedPayloads(r.effects) == [BuildPayload(d, user)]
      && BuildPayload(d, user).numberOfQuestions.Some?
      && BuildPayload(d, user).numberOfQuestions.value in {2, 5, 10, 15, 20}
      && BuildPayload(d, user).resume == d.resumeUrl
      && Truthy(BuildPayload(d, user).mode) && Truthy(BuildPayload(d, user).difficulty)
  {
    QuestionOptionsParse(d.questions);
    var r := HandleSubmitFinal(d, Some(user), response);
    assert r.effects[0] == CreateRequest(InterviewsCollection, BuildPayload(d, user));
    assert |CreatedPayloads(r.effects)| == 1;
    assert CreatedPayloads(r.effects) ==
      [BuildPayload(d, user)] + CreatedPayloads(r.effects[1..]);
  }

  /**
   * The guards run in the order name, signed-in user, skills, topic; the first
   * failing one alone is reported and no record is created.
   */
  lemma SubmitGuardOrder(d: Draft, session: Option<User>, response: CreateResponse)
    ensures
      var r := HandleSubmitFinal(d, session, response);
      && (!Truthy(d.candidateName) ==> r.effects == [Toast(ErrorToast, NameMissingMessage)])
      && (Truthy(d.candidateName) && session.None? ==> r.effects == [Toast(ErrorToast, LoginMissingMessage)])
      && (Truthy(d.candidateName) && session.Some? && !Truthy(d.skills) ==>
            r.effects == [Toast(ErrorToast, SkillsMissingMessage)])
      && (Truthy(d.candidateName) && session.Some? && Truthy(d.skills) && !Truthy(d.topic) ==>
            r.effects == [Toast(ErrorToast, TopicMissingMessage)])
  {
  }

  /**
   * Whitespace-only name, skills and topic pass their guards, since only the
   * empty string is falsy; skills made of spaces alone are sent as commas.
   */
  lemma WhitespacePassesGuards(d: Draft, user: User, response: CreateResponse)
    requires |d.candidateName| > 0 && AllSpaces(d.candidateName)
    requires |d.skills| > 0 && AllSpaces(d.skills)
    requires |d.topic| > 0 && AllSpaces(d.topic)
    ensures |CreatedPayloads(HandleSubmitFinal(d, Some(user), response).effects)| == 1
    ensures (forall i :: 0 <= i < |d.skills| ==> d.skills[i] == ' ') ==>
      BuildPayload(d, user).skills == seq(|d.skills|, _ => ',')
  {
    var p := BuildPayload(d, user);
    if forall i :: 0 <= i < |d.skills| ==> d.skills[i] == ' ' {
      assert forall i :: 0 <= i < |p.skills| ==> p.skills[i] == ',';
    }
  }

  /** Navigation happens only after a create request that the backend answered with an id. */
  lemma NavigationFollowsCreate(d: Draft, session: Option<User>, response: CreateResponse)
    ensures
      var r := HandleSubmitFinal(d, session, response);
      |NavigationTargets(r.effects)| == 1 <==>
        |CreatedPayloads(r.effects)| == 1 && response.Created?
  {
  }

  /**
   * An upload without a URL leaves every field but the chosen file as it was,
   * requests no extraction and reports an error.
   */
  lemma UploadFailureChangesNothingElse(d: Draft, file: string, upload: Option<string>, extraction: Extraction)
    requires !UploadSucceeded(upload)
    ensures
      var r := HandleFileChange(d, Some(file), upload, extraction);
      && r.draft.(selectedFile := d.selectedFile, loadingStage := d.loadingStage) == d
      && r.draft.loadingStage == Idle
      && (forall i :: 0 <= i < |r.effects| ==> !r.effects[i].ExtractRequest?)
      && Toast(ErrorToast, PipelineErrorMessage) in r.effects
  {
  }

  /**
   * After a successful upload, an extraction that failed or decoded to a falsy
   * value keeps the uploaded URL and leaves the other fields and the opening
   * step as they were; a failure ends with the error toast, a falsy answer
   * still with the success toast.
   */
  lemma ExtractionWithoutFieldsKeepsUrl(d: Draft, file: string, url: string, extraction: Extraction)
    requires Truthy(url) && !extraction.Extracted?
    ensures
      var r := HandleFileChange(d, Some(file), Some(url), extraction);
      && r.draft == d.(selectedFile := Some(file), resumeUrl := Some(url), loadingStage := Idle)
      && r.effects[|r.effects| - 1] ==
           if extraction.ExtractionFailed? then Toast(ErrorToast, PipelineErrorMessage)
           else Toast(SuccessToast, AnalyzedMessage)
  {
  }

  /**
   * An extraction object without the fields the page reads, such as the
   * relay's `{error: …}` body, still counts as a success: name, skills and
   * topic become empty, difficulty and mode take their defaults, and the
   * stepper opens on the core-setup step.
   */
  lemma EmptyExtractionResetsToDefaults(d: Draft, file: string, url: string)
    requires Truthy(url)
    ensures
      var r := HandleFileChange(d, Some(file), Some(url), Extracted(ExtractedFields(None, None, None, None, None)));
      && r.draft.candidateName == "" && r.draft.skills == "" && r.draft.topic == ""
      && r.draft.difficulty == DefaultDifficulty && r.draft.mode == DefaultMode
      && r.draft.initialStep == CoreSetupStep && r.draft.resumeUrl == Some(url)
      && r.effects[|r.effects| - 1] == Toast(SuccessToast, AnalyzedMessage)
  {
  }

  /** Running two events is dispatching one after the other. */
  lemma RunTwo(d: Draft, e1: Event, e2: Event)
    ensures
      var first := Dispatch(d, e1);
      var second := Dispatch(first.draft, e2);
      Run(d, [e1, e2]) ==
        Transition(second.draft, first.stages + second.stages, first.effects + second.effects)
  {
    var first := Dispatch(d, e1);
    var second := Dispatch(first.draft, e2);
    assert [e1, e2][1..] == [e2];
    assert [e2][1..] == [];
    assert Run(first.draft, [e2]) == Transition(second.draft, second.stages + [], second.effects + []);
    assert second.stages + [] == second.stages && second.effects + [] == second.effects;
  }

  /** The record a signed-in submission of a fully prefilled, untouched draft is sent as. */
  lemma PrefilledPayload(d: Draft, url: string, f: ExtractedFields, user: User)
    requires f.candidateName.Some? && f.skills.Some? && f.topic.Some? && f.difficulty.Some? && f.mode.Some?
    requires Truthy(f.difficulty.value) && Truthy(f.mode.value) && ' ' !in f.skills.value
    requires d.candidateName == f.candidateName.value && d.skills == f.skills.value && d.topic == f.topic.value
    requires d.difficulty == f.difficulty.value && d.mode == f.mode.value
    requires d.questions == DefaultQuestions && d.resumeUrl == Some(url) && Truthy(url)
    ensures BuildPayload(d, user) ==
      Payload(Some(url), f.mode.value, f.difficulty.value, f.skills.value, f.topic.value,
              Some(10), user.id, f.candidateName.value)
  {
    ParseIntTen(d.questions);
    NormaliseSkillsFixedPoints(d.skills);
  }

  lemma ParseIntTen(q: string)
    requires q == "10"
    ensures ParseInt(q) == Some(10)
  {
    assert DecimalString(1) == "1";
    assert q == DecimalString(10);
    ParseIntDecimalString(10);
  }

  /**
   * Uploading a resume on a freshly mounted page, getting every field back
   * from the extraction, and completing the final step signed in creates the
   * prefilled record with the default ten questions and navigates to it.
   */
  lemma UploadThenSubmit(file: string, url: string, f: ExtractedFields, user: User, id: string)
    requires Truthy(url)
    requires f.candidateName.Some? && f.skills.Some? && f.topic.Some? && f.difficulty.Some? && f.mode.Some?
    requires Truthy(f.candidateName.value) && Truthy(f.skills.value) && Truthy(f.topic.value)
    requires Truthy(f.difficulty.value) && Truthy(f.mode.value) && ' ' !in f.skills.value
    ensures
      var r := Run(Initial(), [FileSelected(Some(file), Some(url), Extracted(f)),
                               FinalStepCompleted(Some(user), Created(id))]);
      && CreatedPayloads(r.effects) ==
           [Payload(Some(url), f.mode.value, f.difficulty.value, f.skills.value, f.topic.value,
                    Some(10), user.id, f.candidateName.value)]
      && NavigationTargets(r.effects) == [InterviewPathPrefix + id]
      && Settled(r.draft)
  {
    var e1 := FileSelected(Some(file), Some(url), Extracted(f));
    var e2 := FinalStepCompleted(Some(user), Created(id));
    RunTwo(Initial(), e1, e2);
    var first := Dispatch(Initial(), e1);
    var d := first.draft;
    var second := Dispatch(d, e2);
    PrefilledPayload(d, url, f, user);
    SettledSubmissionPayload(d, user, Created(id));
    var r := Run(Initial(), [e1, e2]);
    assert r.effects == first.effects + second.effects;
    assert CreatedPayloads(first.effects) == [];
    assert NavigationTargets(first.effects) == [];
    CreatedPayloadsConcat(first.effects, second.effects);
    NavigationTargetsConcat(first.effects, second.effects);
  }

  /**
   * The end-to-end run: upload `resume.png`, get `https://cdn/x.png`, extract
   * Jane Doe's fields, complete the final step signed in; the create call gets
   * the prefilled record with ten questions and the page navigates to the new
   * interview.
   */
  lemma EndToEndScenario(user: User, id: string)
    ensures
      var fields := ExtractedFields(Some("Jane Doe"), Some("react,node"), Some("Frontend Developer"),
                                    Some("medium"), Some("Technical"));
      var r := Run(Initial(), [FileSelected(Some("resume.png"), Some("https://cdn/x.png"), Extracted(fields)),
                               FinalStepCompleted(Some(user), Created(id))]);
      && CreatedPayloads(r.effects) ==
           [Payload(Some("https://cdn/x.png"), "Technical", "medium", "react,node", "Frontend Developer",
                    Some(10), user.id, "Jane Doe")]
      && NavigationTargets(r.effects) == ["/interview/" + id]
  {
    var fields := ExtractedFields(Some("Jane Doe"), Some("react,node"), Some("Frontend Developer"),
                                  Some("medium"), Some("Technical"));
    assert ' ' !in fields.skills.value;
    UploadThenSubmit("resume.png", "https://cdn/x.png", fields, user, id);
  }

  /**
   * Completing the final step with an empty skills field shows the skills
   * message, makes no create request and leaves the draft as it was.
   */
  lemma EmptySkillsScenario(d: Draft, user: User, response: CreateResponse)
    requires Truthy(d.candidateName) && d.skills == ""
    ensures
      var r := HandleSubmitFinal(d, Some(user), response);
      && r.effects == [Toast(ErrorToast, SkillsMissingMessage)]
      && CreatedPayloads(r.effects) == []
      && r.draft == d.(loadingStage := Idle)
  {
  }

  lemma {:induction false} CreatedPayloadsConcat(a: seq<Effect>, b: seq<Effect>)
    ensures CreatedPayloads(a + b) == CreatedPayloads(a) + CreatedPayloads(b)
    decreases |a|
  {
    if |a| > 0 {
      assert (a + b)[1..] == a[1..] + b;
      CreatedPayloadsConcat(a[1..], b);
    } else {
      assert a + b == b;
    }
  }

  lemma {:induction false} NavigationTargetsConcat(a: seq<Effect>, b: seq<Effect>)
    ensures NavigationTargets(a + b) == NavigationTargets(a) + NavigationTargets(b)
    decreases |a|
  {
    if |a| > 0 {
      assert (a + b)[1..] == a[1..] + b;
      NavigationTargetsConcat(a[1..], b);
    } else {
      assert a + b == b;
    }
  }
}
