# Interview-configuration wizard: a Dafny model

This project models the state logic of the NeuraView interview-configuration
wizard, the client page that sets up a mock interview
(`frontend/app/create-interview/page.tsx`). The page holds a draft interview
record and a loading stage. It runs two asynchronous handlers:

- **File selection** (`handleFileChange`) uploads a resume image. It then asks
  the resume-extraction endpoint to read the image and prefills the draft from
  the answer.
- **Final submission** (`handleSubmitFinal`) runs a chain of guards. It then
  creates the interview record in the content backend and navigates to the new
  interview.

The model is functional. The draft is an immutable datatype and each handler is
a pure function. A handler returns a `Transition`: the new draft, the loading
stages it set in order, and the effects it requested in order. The effects are
an upload, an extraction, a toast, a create call and a navigation. The answers
of the outside world are inputs:

- the upload's `result` URL (`Option<string>`);
- the decoded extraction answer (`Extraction`);
- the session user (`Option<User>`);
- the create call's outcome (`CreateResponse`).

Each handler runs as one atomic step.

JavaScript semantics are written out where the page relies on them:

- `JsStrings.Truthy`: only the empty string is falsy, so a whitespace-only value
  passes a guard.
- `JsStrings.OrElse`: `value || fallback`.
- `JsStrings.NormaliseSkills`: `skills.split(" ").join(",")`, modelled literally
  with `Split` and `Join`, and proved equal to a per-character replacement.
- `JsNumbers.ParseInt`: `parseInt(text)` with no radix. It skips leading
  whitespace, reads an optional sign, honours a `0x` prefix, reads the leading
  digit run and ignores what follows. No digits gives NaN, written `None`.

Files:

- `optional.dfy`: the `Option` type.
- `js_strings.dfy`: truthiness, `||`, split/join and skills normalisation.
- `js_numbers.dfy`: `parseInt`, and the decimal spelling of a number.
- `wizard_state.dfy`: the draft, the stages, the initial state, the loading
  text, the form's edits and the well-formedness invariant.
- `wizard_handlers.dfy`: effects, the file pipeline, the guard chain, the
  payload and the final submission.
- `wizard_properties.dfy`: properties that span several calls, an event-driven
  `Run` of the page, and the end-to-end scenarios.

Behaviour worth knowing, all proved:

- `"React, Node"` normalises to `"React,,Node"`. A comma followed by a space
  becomes an empty piece in the list.
- A falsy extraction answer (`null`) still shows "Resume analyzed
  successfully". It changes no field and no step.
- The page does not check the extraction endpoint's HTTP status. The relay's
  `{error: …}` body, sent with status 500, decodes to an object without the
  fields. So it clears name, skills and topic, resets difficulty and mode to
  their defaults, and moves the stepper to step 2.
- A create answer without `data` shows the success toast first. Reading
  `res.data.documentId` then throws, so the error toast follows and there is no
  navigation.

Three behaviours of the page are easy to miss; the model follows the code:

- On an upload failure the page still records the chosen file (`setResume`
  runs before the upload). So "nothing changes" holds for every field except
  `selectedFile`.
- A missing extracted field does not keep the field's prior value. It is
  overwritten with `""`, `"medium"` or `"Technical"`.
- Mode and difficulty are not restricted to the select options. An extracted
  value is copied as it is, so the invariant only says they are never empty.

## Model

| member | source | states |
|---|---|---|
| WizardState.Initial | frontend/app/create-interview/page.tsx:12-24 | the mounted page is settled (well-formed and idle), with mode "Technical", difficulty "medium" and question count "10" (each among the select options), empty name/skills/topic, no file, no URL and opening step 1 |
| WizardState.LoadingText | frontend/app/create-interview/page.tsx:134-145 | a progress text replaces the form exactly when the stage is not idle, and every progress text is non-empty |
| WizardState.LoadingTextDistinguishesStages | frontend/app/create-interview/page.tsx:140-145 | two stages show the same text only if they are the same stage |
| WizardState.ApplyEdit | frontend/app/create-interview/page.tsx:193-296 | each input or select writes only its own field; an edit that carries an offered option keeps the draft well-formed |
| JsStrings.Truthy | frontend/app/create-interview/page.tsx:100-103 | a string passes `!x` and `x ||` exactly when it has at least one character, so whitespace counts as a value and only the empty string is falsy |
| JsStrings.OrElse | frontend/app/create-interview/page.tsx:79-83 | JavaScript's `or` operator on a value and a fallback is the value when it is present and non-empty and the fallback otherwise, so a non-empty fallback gives a non-empty result |
| JsStrings.Split | frontend/app/create-interview/page.tsx:109 | `split` on one character gives one more piece than there are separators, and no piece contains the separator |
| JsStrings.Join | frontend/app/create-interview/page.tsx:109 | `join` on one character begins with the first piece, and when no piece contains the separator it holds exactly one separator fewer than there are pieces |
| JsStrings.SplitJoinInverse | frontend/app/create-interview/page.tsx:109 | splitting a join of at least one piece, none containing the separator, gives the pieces back, so `split` and `join` are inverse both ways |
| JsStrings.ReplaceChar | frontend/app/create-interview/page.tsx:109 | reference definition: same length, each occurrence of `a` becomes `b`, every other character stays in place |
| JsStrings.JoinSplitIsReplace | frontend/app/create-interview/page.tsx:109 | splitting on `a` and joining with `b` is the same as replacing `a` by `b`, for every string |
| JsStrings.SplitJoinRoundTrip | frontend/app/create-interview/page.tsx:109 | joining the pieces of a split with the same separator gives back the input |
| JsStrings.NormaliseSkills | frontend/app/create-interview/page.tsx:109 | the normalised skills have the input's length and no space; each space becomes a comma and every other character stays in place |
| JsStrings.NormaliseSkillsIdempotent | frontend/app/create-interview/page.tsx:109 | normalising twice is the same as normalising once |
| JsStrings.NormaliseSkillsFixedPoints | frontend/app/create-interview/page.tsx:109 | normalisation leaves a string unchanged if and only if it contains no space |
| JsStrings.NormaliseSkillsConcat | frontend/app/create-interview/page.tsx:109 | normalising a concatenation is concatenating the normalised parts |
| JsStrings.NormaliseSkillsDoublesCommaAfterSpace | frontend/app/create-interview/page.tsx:109 | for space-free `a` and `b`, `a + ", " + b` normalises to `a + ",," + b` (so "React, Node" gives "React,,Node") |
| JsNumbers.ParseInt | frontend/app/create-interview/page.tsx:111 | `parseInt` is NaN when no decimal digit follows the whitespace and sign, and a negative result needs a leading `-`; its value on numbers is stated by `ParseIntReadsLeadingNumber` and `ParseIntReadsHexNumber` |
| JsNumbers.ValueOfDecimalString | frontend/app/create-interview/page.tsx:111 | the digits of a number's decimal spelling read back as that number |
| JsNumbers.ParseIntReadsLeadingNumber | frontend/app/create-interview/page.tsx:111 | `parseInt` skips leading whitespace, applies an optional sign, reads the decimal number and ignores a tail that does not start with a digit (or, after `0`, with a hex `x`) |
| JsNumbers.ParseIntDecimalString | frontend/app/create-interview/page.tsx:111 | `parseInt(String(n))` is `n` for every natural number |
| JsNumbers.ParseIntWithoutDigitsIsNaN | frontend/app/create-interview/page.tsx:111 | without a digit after the whitespace and sign, `parseInt` is NaN |
| JsNumbers.ParseIntReadsHexNumber | frontend/app/create-interview/page.tsx:111 | after whitespace, an optional sign and a `0x` or `0X` prefix, `parseInt` reads the hexadecimal digit run, ignores a tail that does not extend it, and negates after a `-` |
| WizardProperties.QuestionOptionsParse | frontend/app/create-interview/page.tsx:286-296 | each offered question count parses to its number, one of 2, 5, 10, 15, 20 |
| WizardHandlers.Prefill | frontend/app/create-interview/page.tsx:78-85 | name, skills and topic take the extracted value or `""`; difficulty and mode take a non-empty extracted value or their defaults and are never empty; the stepper opens on step 2; the URL, file, question count and stage are kept |
| WizardHandlers.HandleFileChange | frontend/app/create-interview/page.tsx:30-94 | no file: no change, no stage, no effect. Otherwise the stages start with upload and end idle, parse is set exactly when the upload returned a truthy URL, the URL is stored, the extraction is requested only for that URL, a failed upload changes nothing but the chosen file, an extracted object prefills the draft exactly as `Prefill` does while a failed or falsy extraction keeps every field but the file and URL, step 2 is set only after an extracted object, the last toast is the error toast after a failed extraction and "Resume analyzed successfully" otherwise, no create or navigation is requested, and well-formedness is kept |
| WizardHandlers.FirstGuardFailure | frontend/app/create-interview/page.tsx:100-103 | no guard fails if and only if the name is non-empty, a user is signed in, and skills and topic are non-empty; a failure is one of the four guard messages |
| WizardHandlers.ResumeOrNull | frontend/app/create-interview/page.tsx:106 | `resumeUrl`-or-null is a non-empty URL equal to the stored one, or null; an uploaded URL is kept |
| WizardHandlers.BuildPayload | frontend/app/create-interview/page.tsx:105-114 | the payload copies name, mode and difficulty, sets details to the topic, user to the session id and resume to the URL or null, normalises skills position by position, and sets the question count to `parseInt` of the selected option |
| WizardHandlers.HandleSubmitFinal | frontend/app/create-interview/page.tsx:96-124 | the stages are create then idle, and the draft is otherwise unchanged on every path. A failing guard gives exactly its error toast. Exactly one create request is made if and only if every guard passes, and it is the first effect. After the create request come "Interview Created Successfully" then the navigation to `/interview/<id>` when an id came back, "Something went wrong" alone when the call threw, and the success toast followed by "Something went wrong" when the answer had no `data`. Navigation happens exactly when the create call returned an id |
| WizardProperties.SubmitGuardOrder | frontend/app/create-interview/page.tsx:100-103 | the guards run in the order name, signed-in user, skills, topic, and only the first failing one is reported |
| WizardProperties.WhitespacePassesGuards | frontend/app/create-interview/page.tsx:100-109 | any non-empty whitespace-only name, skills and topic pass their guards and create a record; skills made of spaces alone are sent as the same number of commas |
| WizardProperties.NavigationFollowsCreate | frontend/app/create-interview/page.tsx:105-117 | a navigation happens if and only if a create request was made and the backend answered with an id |
| WizardProperties.EmptySkillsScenario | frontend/app/create-interview/page.tsx:102 | with a name and empty skills, only the skills message appears, nothing is created and the draft is left as it was |
| WizardProperties.UploadFailureChangesNothingElse | frontend/app/create-interview/page.tsx:34-49 | an upload without a URL leaves every field but the chosen file and the stage as it was, requests no extraction, returns to idle and shows the error toast |
| WizardProperties.ExtractionWithoutFieldsKeepsUrl | frontend/app/create-interview/page.tsx:51-90 | after an upload, an extraction that failed or decoded to a falsy value keeps the URL, every other field and the opening step; a failure ends with the error toast and a falsy answer with the success toast |
| WizardProperties.EmptyExtractionResetsToDefaults | frontend/app/create-interview/page.tsx:75-87 | an extracted object without the read fields clears name, skills and topic, sets the default difficulty and mode, opens step 2 and reports success |
| WizardProperties.DispatchKeepsSettled | frontend/app/create-interview/page.tsx:30-124 | every handler and offered edit keeps the page settled, and a handler that set stages ends idle |
| WizardProperties.RunKeepsSettled | frontend/app/create-interview/page.tsx:30-124 | any sequence of file selections, offered edits and submissions, with any answers from outside, keeps a settled page settled |
| WizardProperties.ReachableStatesAreSettled | frontend/app/create-interview/page.tsx:12-124 | every state reachable from the mounted page has non-empty mode and difficulty, an offered question count, a non-empty URL if any, opening step 1 or 2, and no loading screen |
| WizardProperties.SettledSubmissionPayload | frontend/app/create-interview/page.tsx:105-114 | from a settled page whose guards pass, exactly one record is created; its question count is one of 2, 5, 10, 15, 20, its resume is the stored URL, and its mode and difficulty are non-empty |
| WizardProperties.UploadThenSubmit | frontend/app/create-interview/page.tsx:30-124 | on a fresh page, an upload whose extraction returns every field, followed by a signed-in submission, creates the prefilled record with 10 questions and navigates to it |
| WizardProperties.EndToEndScenario | frontend/app/create-interview/page.tsx:30-124 | `resume.png` uploaded to `https://cdn/x.png`, Jane Doe's fields extracted, and a signed-in submission create the expected record and navigate to `/interview/<id>` |

## Left out

- Network, notification and navigation calls are not modelled. The `fetch`
  calls, the JSON decoding of their answers, `toast`, `router.push`,
  `strapi.create` and `useSession` appear only as handler inputs and as emitted
  effects.
- Logging with `console.log` and `console.error` is left out. It has no effect
  on the page's state.
- Rendering, styling and the `TrueFocus` animation are left out. The `Stepper`'s
  internal current step is also left out: only the `initialStep` the page passes
  to it is modelled.
- Concurrency is left out. Overlapping file selections and the interleaving of
  async handlers are not guarded in the page, and each handler is one atomic
  step here.
- The chosen `File` object is represented by its name only. The page displays
  its name and uploads it; the upload request carries that name.
- Extracted fields are taken to be strings or missing. A non-string JSON value,
  such as a number, is not modelled. The extra fields `experience`, `education`
  and `projects` are not read by the page.
- The session user is taken to carry an id. A user object without `id`, which
  would send `user: undefined`, is not modelled.
- A create answer whose `data` lacks `documentId` is not modelled. It would
  navigate to `/interview/undefined`.
- JsNumbers.ParseInt: covers the whitespace characters listed in
  `JsNumbers.JsSpaces` but not the other Unicode space separators. It does not
  model the loss of precision above 2^53 or the negative zero of `parseInt("-0")`.
- The SDK's serialisation of a NaN question count is left out. The model keeps
  NaN as `None` in the payload.
- The landing page, the reports page and the resume-extraction relay are not
  part of this model. The relay matters only through the answers it gives,
  which are inputs here.
