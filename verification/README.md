# Candidate application wizard — a Dafny model

This project models the candidate-facing application wizard of the sales-manager
position site, together with the two evaluator answer sheets. Each piece below
is a pure function over immutable datatypes, with contracts, and lemmas relate
it to an independent reference definition or to its inverse:

- **Input masks** (`Formatters`). The CPF, date and WhatsApp masks, plus the empty case of the salary mask. Each one is proved equal to filling a digit template (`Fill` over a `Mask` of groups).
- **Field validators** (`Validators`). Each validator is proved equivalent to an explicit meaning: a digit count; a calendar-range date with the current year as a parameter; an email scan equivalent to the regular expression; a trimmed name containing a space; a salary with a non-zero digit.
- **Single-slot modal** (`Modal`). It holds one state: the last `showModal` wins and `closeModal` only hides.
- **The aggregate** (`Application`). The five step slices and the step counter. The eight outcomes form one record read by key. The competency list allows JavaScript holes (`None`). Step 4 carries the optional `photo` and `socialMedia` that the components and the service use.
- **The wizard controller** (`ApplicationForm`). The counter clamped to `[0, 5]`; the scoped updates; the draft save transform and load merge over an abstract key-value store; `clearForm`; the always-successful `submitApplication` stub that the page calls.
- **Step gates** (`StepGates`, `Step4Form`). Steps 0–3 each return `Advance | Blocked(reason)` from first-failure-wins chains with the 300/150/200 character thresholds. Step 4 has its eight-field submit chain, file and photo admission, and social-media list edits.
- **The submission service** (`Api`). The row transform, file-name sanitising and storage paths, the insert/photo/documents/update decision logic against an abstract backend, and the statistics counting.
- **The page** (`ApplicationPage`). Screen dispatch, the progress bar, "next"/"back"/"submit" handling, and navigation invariants over any sequence of clicks.
- **Evaluator sheets** (`AnswerSheet`, `InterviewSheet`, `ScreeningSheet`). One generic validate/edit/submit/save-draft model instantiated for the interview (no trim; the "why did you leave" question is skipped for an employed candidate) and for the screening (trimmed).

`Wrappers`, `Seqs` and `Text` hold the `Option`/`Result` types, sequence filtering and counting, and the string primitives (`replace(/\D/g, '')`, `trim`, `split`, decimal parsing and rendering) the rest is built on.

Strings are `seq<char>`. The current year, `Date.now()`, the backend's answers and JSON serialisation are parameters.

Some behaviour is kept exactly as the code has it:

- **Full name.** `validateFullName` splits the trimmed name on the space character only, so a tab between two names does not count (`Validators.ValidateFullNameMeaning`).
- **Draft lifetime.** `ApplicationPage` never calls `clearForm`, so the draft outlives a submission. Once the aggregate has been updated since mount, even `clearForm`'s removal is undone by the next save effect (`ApplicationForm.ClearedFormIsSavedAgain`). Only while no draft was loaded and nothing was edited is the aggregate still the initial object, so React skips the unchanged state and the key stays removed; a draft merged at mount is already a new object.
- **Stub submission.** `ApplicationPage` submits through the hook's stub, which always succeeds, so the page's error branch is unreachable from it. `Api.SubmitApplication` is modelled on its own.
- **Which step components.** The page imports steps 0–3 from `src/components/application/steps/`, and those files are not part of this model. The gates follow the `src/components/form-position/steps/` components. Step 4 is modelled from both variants, whose submit chains are identical.

Three behaviours are corrected, and the code as written is modelled beside each (see Findings):

- **Draft load.** The load merge as written (`LoadMergeAsWritten`, `MountAsWritten`) resets `step4.files` only, so a stored photo comes back as the placeholder `{}`. `LoadMerge` and `Mount`, which the rest of the model uses, also reset the photo; `MountsDifferInPhotoOnly` proves this is the only difference.
- **Step 3 lookup.** `getCompetency` as written (`StepGates.GetCompetencyAsWritten`) throws on a hole that precedes the looked-up entry, already while step 3 renders. `StepGates.GetCompetency` skips holes, and `StepGates.Step3Gate`, `StepGates.Step3GateNamesFirst` and step 3 of `ApplicationPage.PressGate` read answers through it. `StepGates.RenderThrowsIffHole` states when the code throws instead, and `StepGates.AnswersAsWrittenWithoutHoles` that without holes both lookups give the gate the same answers.
- **Transform.** `transformFormDataToDatabase` as written (`Api.TransformAsWritten`) throws when the social-media list was never set. `Api.Transform`, which `Api.SubmitApplication` uses, stores null instead; `Api.TransformExtendsAsWritten` proves the two agree wherever the one as written succeeds.

## Model

| member | source | states |
|---|---|---|
| Formatters.FormatCpfMatchesMask | src/lib/formatters.ts:1-11 | formatCPF is the digit template `###.###.###-##` filled with the input's digits, a separator appearing only once a digit follows it |
| Formatters.CpfDigitsAndLength | src/lib/formatters.ts:1-11 | the digits of the masked CPF are exactly the first min(n, 11) digits of the input, in order, and the output has at most 14 characters |
| Formatters.CpfIdempotent | src/lib/formatters.ts:1-11 | masking a masked CPF changes nothing |
| Formatters.CpfSeparators | src/lib/formatters.ts:4-10 | the output is empty iff there is no digit; it has a dot iff more than 3 digits were typed and a dash iff more than 9 |
| Formatters.FormatDateMatchesMask | src/lib/formatters.ts:13-22 | formatDate is the template `##/##/####` filled with the input's digits |
| Formatters.DateDigitsAndLength | src/lib/formatters.ts:13-22 | the masked date keeps the first min(n, 8) digits in order, in at most 10 characters |
| Formatters.DateIdempotent | src/lib/formatters.ts:13-22 | masking a masked date changes nothing |
| Formatters.DateSeparators | src/lib/formatters.ts:16-21 | the output is empty iff there is no digit, and has a slash iff more than 2 digits were typed |
| Formatters.FormatWhatsAppMatchesMask | src/lib/formatters.ts:24-35 | formatWhatsApp is the template `(##) #####-####` filled with the input's digits |
| Formatters.WhatsAppDigitsAndLength | src/lib/formatters.ts:24-35 | the masked phone keeps the first min(n, 11) digits in order, in at most 15 characters |
| Formatters.WhatsAppIdempotent | src/lib/formatters.ts:24-35 | masking a masked phone changes nothing |
| Formatters.WhatsAppSeparators | src/lib/formatters.ts:27-34 | the output is empty iff there is no digit; it opens with `(` from the first digit, has `)` iff more than 2 digits and `-` iff more than 7 |
| Formatters.MaskKeepsLeadingDigits | src/lib/formatters.ts:1-35 | any well-formed digit template keeps exactly the first `Capacity` digits of its input, in order |
| Formatters.MaskIdempotent | src/lib/formatters.ts:1-35 | filling any well-formed template from its own output gives the output back |
| Formatters.CpfMaskShape | src/lib/formatters.ts:10 | the CPF template holds 11 digits in 14 characters and no separator holds a digit |
| Formatters.DateMaskShape | src/lib/formatters.ts:21 | the date template holds 8 digits in 10 characters |
| Formatters.WhatsAppMaskShape | src/lib/formatters.ts:34 | the phone template holds 11 digits in 15 characters |
| Formatters.FormatSalary | src/lib/formatters.ts:37-49 | the salary field is blank iff the input has no digit; otherwise it shows the typed digits read as cents |
| Validators.DigitValidatorsIgnoreNonDigits | src/lib/validators.ts:1-39 | the CPF, date, WhatsApp and salary checks give the same verdict on a string and on its digits alone |
| Validators.ValidateMaskedCpf | src/lib/validators.ts:1-4 | a CPF field passes after masking iff at least 11 digits were typed (the mask drops the rest) |
| Validators.CpfAcceptsAnyElevenDigits | src/lib/validators.ts:1-4 | any eleven digits pass: there is no check-digit verification |
| Validators.ValidateDateMeaning | src/lib/validators.ts:6-19 | a date passes iff its digits are exactly DDMMYYYY with day 1..31, month 1..12 and year 1900..current year |
| Validators.FebruaryThirtyFirstAccepted | src/lib/validators.ts:10-18 | there is no days-in-month check: 31/02/2020 passes |
| Validators.ValidateMaskedDate | src/lib/validators.ts:6-19 | a masked date field is judged on the first eight digits typed |
| Validators.ValidateEmailMeaning | src/lib/validators.ts:21-24 | the email regular expression accepts exactly the strings with no white space, exactly one `@`, a non-empty local part and a `.` in the domain that is neither its first nor its last character |
| Validators.ValidateMaskedWhatsApp | src/lib/validators.ts:26-29 | masking a phone field does not change the verdict of the at-least-10-digits check |
| Validators.ValidateFullNameMeaning | src/lib/validators.ts:31-34 | a name passes iff its trimmed form contains the space character (no other white space counts) |
| Validators.ValidFullNameHasTwoParts | src/lib/validators.ts:31-34 | a passing name has a non-empty part on each side of some space |
| Validators.ValidateSalaryMeaning | src/lib/validators.ts:36-39 | a salary passes iff some character of it is a digit other than 0 |
| Modal.InitialModal | src/hooks/useModal.ts:11-16 | the modal starts closed, with empty title and message and type info |
| Modal.ShowModal | src/hooks/useModal.ts:18-29 | the modal opens with the given message and type (info by default); the given title, or when it is absent or empty the title for the type, which is never empty |
| Modal.CloseModal | src/hooks/useModal.ts:31-33 | closing hides the modal and keeps title, message and type |
| Modal.LastShowWins | src/hooks/useModal.ts:18-33 | there is no queue: after any events, the state is the last `showModal`'s, hidden if a close followed it |
| Modal.ClosesOnlyHide | src/hooks/useModal.ts:31-33 | closes alone change nothing but visibility |
| Application.OutcomesExtensional | src/types/application.ts:1-58 | two outcome records that agree under every key are equal |
| ApplicationForm.NextStep | src/hooks/useApplicationForm.ts:135-140 | the counter becomes min(step + 1, 5), so a counter at or past 5 lands on 5, and nothing else changes |
| ApplicationForm.PreviousStep | src/hooks/useApplicationForm.ts:142-147 | the counter becomes max(step - 1, 0), so a counter at or below 0 lands on 0, and nothing else changes |
| ApplicationForm.StepRoundTrips | src/hooks/useApplicationForm.ts:135-147 | forward and back undo each other away from the clamps, keep the counter in range and stop at 5 and 0 |
| ApplicationForm.ForwardClamps | src/hooks/useApplicationForm.ts:135-140 | n presses of next land on min(step + n, 5) and change nothing else |
| ApplicationForm.UpdateStep0 | src/hooks/useApplicationForm.ts:76-81 | only step 0's confirmation changes |
| ApplicationForm.UpdateStep1 | src/hooks/useApplicationForm.ts:83-91 | the keys given overwrite step 1's, the others stay, and no other slice changes |
| ApplicationForm.UpdateOutcome | src/hooks/useApplicationForm.ts:93-106 | the patch is merged into outcome k only; the seven other outcomes and every other slice stay |
| ApplicationForm.UpdateOutcomesCommute | src/hooks/useApplicationForm.ts:93-106 | updates of two different outcomes commute |
| ApplicationForm.UpdateCompetency | src/hooks/useApplicationForm.ts:108-121 | the entry at index i is merged, or created blank and overlaid, writing past the end leaves holes, and every other index stays |
| ApplicationForm.UpdateStep4 | src/hooks/useApplicationForm.ts:123-133 | personal and contact data are merged field by field when given and kept otherwise, other given step-4 keys overwrite, steps 0–3 stay |
| ApplicationForm.UpdatesKeepStep | src/hooks/useApplicationForm.ts:76-133 | an empty patch changes nothing and no update moves the counter |
| ApplicationForm.SaveDraft | src/hooks/useApplicationForm.ts:67-74 | the draft stores the file names in place of the files, and a photo object exactly when the photo is not null; a null photo and an absent key load alike |
| ApplicationForm.LoadMergeAsWritten | src/hooks/useApplicationForm.ts:49-64 | as written, the load resets the files only: the counter is restored and the photo comes back as the placeholder exactly when the draft stored one |
| ApplicationForm.PhotoSurvivesAsPlaceholder | src/hooks/useApplicationForm.ts:49-64 | as written, a saved photo reloads as the placeholder `{}` |
| ApplicationForm.LoadMerge | src/hooks/useApplicationForm.ts:49-64 | the corrected load restores the saved counter, falls back to the initial step 4, and starts with no files and no photo |
| ApplicationForm.DraftRoundTrip | src/hooks/useApplicationForm.ts:49-74 | save then load gives back the aggregate, less its files and photo |
| ApplicationForm.MountAsWritten | src/hooks/useApplicationForm.ts:49-64 | as written: loading always ends; a missing, empty or unparsable draft leaves the initial aggregate; a parsed one is merged by `LoadMergeAsWritten`, keeping a stored photo as the placeholder |
| ApplicationForm.Mount | src/hooks/useApplicationForm.ts:49-64 | loading always ends; a missing, empty or unparsable draft leaves the initial aggregate; a parsed one is merged by the corrected `LoadMerge`, which also drops the photo |
| ApplicationForm.MountsDifferInPhotoOnly | src/hooks/useApplicationForm.ts:49-64 | the corrected mount equals the mount as written with the photo reset; the one as written holds no photo or the placeholder |
| ApplicationForm.Persist | src/hooks/useApplicationForm.ts:67-74 | nothing is saved while loading; otherwise the serialised draft is written under the storage key and no other key changes |
| ApplicationForm.ReloadRestoresDraft | src/hooks/useApplicationForm.ts:49-74 | given a faithful serialiser and parser, a save then a reload through the corrected mount restores the aggregate less its files and photo |
| ApplicationForm.ReloadAsWrittenKeepsPlaceholder | src/hooks/useApplicationForm.ts:49-74 | as written, a save then a reload restores the aggregate less its files, and the photo comes back as the placeholder exactly when one was saved |
| ApplicationForm.ClearForm | src/hooks/useApplicationForm.ts:149-152 | the stored draft is removed, no other key changes, and the aggregate is reset with the counter at 0 |
| ApplicationForm.ClearedFormIsSavedAgain | src/hooks/useApplicationForm.ts:149-152 | once the aggregate has been updated since mount, the save effect that follows a clear writes the initial aggregate back under the storage key |
| ApplicationForm.SubmitStub | src/hooks/useApplicationForm.ts:155-171 | the hook's submission always reports success and returns the form |
| StepGates.Step0Gate | src/components/form-position/steps/Step0.tsx:12-27 | step 0 advances iff its box is confirmed, and otherwise blocks with the introduction warning |
| StepGates.Step1Gate | src/components/form-position/steps/Step1.tsx:24-52 | step 1 advances iff confirmed and the reflection has at least 300 characters; confirmation is checked first; a short reflection is reported with its length |
| StepGates.ReflectionFlagMatchesGate | src/components/form-position/steps/Step1.tsx:99 | once confirmed, the inline flag is raised iff the gate blocks on length and the field is not empty; an empty field is not flagged |
| StepGates.OutcomeNamesDistinct | src/components/form-position/steps/Step2.tsx:29-49 | the label and id maps name each of the eight outcomes differently, so do the comment targets |
| StepGates.FirstUnconfirmed | src/components/form-position/steps/Step2.tsx:51-53 | the first outcome in key order not confirmed: none iff all are confirmed |
| StepGates.FirstShortComment | src/components/form-position/steps/Step2.tsx:69-71 | the first outcome in key order whose comment is under 150 characters: none iff all are long enough |
| StepGates.Step2Gate | src/components/form-position/steps/Step2.tsx:51-87 | step 2 advances iff every outcome is confirmed with a comment of 150 or more; an unconfirmed one blocks first; comments are checked only when all are confirmed, and the first short one is reported with its length |
| StepGates.DefinitionNames | src/components/form-position/steps/Step3.tsx:13-77 | there are nine definitions, named comp31 to comp39 in order, all distinct |
| StepGates.GetCompetencyAsWritten | src/components/form-position/steps/Step3.tsx:80-83 | the lookup as written fails exactly when a hole precedes every entry named so |
| StepGates.RatingOutOfOrderBreaksLookup | src/components/form-position/steps/Step3.tsx:80-83 | rating the second competency first leaves a hole at index 0 on which the lookup as written fails |
| StepGates.GetCompetency | src/components/form-position/steps/Step3.tsx:80-83 | the corrected lookup always answers with an entry of the requested name |
| StepGates.LookupFindsFirst | src/components/form-position/steps/Step3.tsx:80-83 | the corrected lookup gives the first entry of that name, or a blank answer when there is none |
| StepGates.LookupsAgreeWithoutHoles | src/components/form-position/steps/Step3.tsx:80-83 | without holes the lookup as written and the corrected one agree |
| StepGates.FirstFailingCorrect | src/components/form-position/steps/Step3.tsx:86-108 | `find` over the definitions yields the first definition, in display order, whose answer fails the test |
| StepGates.Step3Gate | src/components/form-position/steps/Step3.tsx:85-126 | with answers read through the corrected lookup, step 3 advances iff all nine are rated with examples of 200 or more; an unrated one blocks first; examples are checked only when all are rated |
| StepGates.Step3GateNamesFirst | src/components/form-position/steps/Step3.tsx:85-126 | with answers read through the corrected lookup, a blocked step 3 names the first unrated competency in display order, or, when all are rated, the first whose example is under 200 characters, with that example's length |
| StepGates.RenderThrowsIffHole | src/components/form-position/steps/Step3.tsx:148-149 | in a list whose entries sit at their definition's index, rendering step 3 throws (some lookup as written fails) iff one of the nine slots is a hole |
| StepGates.AnswersAsWrittenWithoutHoles | src/components/form-position/steps/Step3.tsx:80-83 | without holes every answer the gate reads is what the lookup as written returns |
| StepGates.EditCompetency | src/components/form-position/steps/Step3.tsx:148-160 | an edit of definition i writes index i under that definition's name and touches no other slice |
| StepGates.EditIsVisible | src/components/form-position/steps/Step3.tsx:148-160 | edits keep each entry at its definition's index; the edited answer shows the new value and the others are unchanged |
| Step4Form.FirstFailingField | src/components/form-position/steps/Step4.tsx:160-237 | the first field, in the order name, CPF, birth date, city, state, email, WhatsApp, salary, that fails its check: none iff all pass |
| Step4Form.HandleSubmit | src/components/application/steps/Step4.tsx:55-116 | submits iff every field passes, clearing the marks; otherwise only the first failing field is marked and its warning shown |
| Step4Form.SubmitIgnoresAttachments | src/components/application/steps/Step4.tsx:55-116 | documents, photo and social media never affect the submit chain |
| Step4Form.AdmitDocuments | src/components/form-position/steps/Step4.tsx:77-94 | the chosen files of 10 MiB or less are appended in order after the existing ones |
| Step4Form.UploadFiles | src/components/application/steps/Step4.tsx:34-47 | the upload stores the admitted files and warns about an oversized one |
| Step4Form.UploadAccountsForEveryFile | src/components/application/steps/Step4.tsx:34-47 | every chosen file is either attached or rejected, never both |
| Step4Form.RemoveFile | src/components/application/steps/Step4.tsx:49-53 | every file with that name goes and the others stay; the result is shorter by exactly the number of files with that name, so each kept file keeps its multiplicity (the order is fixed by `RemoveFileLaws`) |
| Step4Form.RemoveFileLaws | src/components/form-position/steps/Step4.tsx:96-100 | removing twice is removing once, and removal distributes over an append |
| Step4Form.UploadPhoto | src/components/form-position/steps/Step4.tsx:102-134 | a photo over 5 MiB is refused before its type is checked, a non-image is refused, otherwise it is set; an admissible photo stays admissible |
| Step4Form.UploadPhotoAccepts | src/components/form-position/steps/Step4.tsx:102-125 | an image within 5 MiB is always set and shows no warning |
| Step4Form.RemovePhoto | src/components/form-position/steps/Step4.tsx:136-139 | removing the photo sets it to null and changes nothing else |
| Step4Form.AddSocial | src/components/form-position/steps/Step4.tsx:141-145 | an empty entry is appended to the social-media list |
| Step4Form.RemoveSocial | src/components/form-position/steps/Step4.tsx:147-151 | only the entry at the index goes |
| Step4Form.ChangeSocial | src/components/form-position/steps/Step4.tsx:153-158 | one field of one entry changes; every other entry and field stays |
| Step4Form.RemoveUndoesAdd | src/components/form-position/steps/Step4.tsx:141-151 | removing the entry just added restores the list |
| Api.ColumnStemsDistinct | src/service/api.ts:17-47 | no two outcomes share a column name |
| Api.OutcomeColumnsOf | src/service/api.ts:17-47 | one pair of accepted/comment columns per outcome, in key order, holding that outcome's answer |
| Api.ColumnsKeepEveryOutcome | src/service/api.ts:17-47 | looking an outcome up by column name in the row gives back exactly its answer |
| Api.Row | src/service/api.ts:7-73 | social media is null iff the list is empty, documents are the file names in order, status is pending |
| Api.RowKeepsAnswers | src/service/api.ts:7-73 | every other answer of the form is copied into the row unchanged |
| Api.TransformAsWritten | src/service/api.ts:64 | as written, the transform throws exactly when the social-media list was never set |
| Api.UntouchedSocialMediaThrows | src/service/api.ts:64 | the initial form, saved and reloaded or not, makes the transform as written throw |
| Api.Transform | src/service/api.ts:7-73 | the corrected transform always yields a row, with null social media iff the list is absent or empty |
| Api.TransformExtendsAsWritten | src/service/api.ts:7-73 | where the transform as written succeeds, the corrected one gives the same row |
| Api.Sanitize | src/service/api.ts:189 | the sanitised name has the same length; a safe character is kept and every other one becomes `_` |
| Api.SanitizeIdempotent | src/service/api.ts:189 | sanitising twice is sanitising once |
| Api.SanitizedHasNoSlash | src/service/api.ts:189 | a sanitised name contains no `/` |
| Api.DocumentPath | src/service/api.ts:187-206 | a document's path is the application's folder followed by a name with no further `/` |
| Api.ExtensionIsLastPiece | src/service/api.ts:111 | the photo extension is the last dot-free piece of the name: all of it without a dot, otherwise what follows the last dot |
| Api.PhotoPath | src/service/api.ts:112 | the photo path lies in the application's photo folder |
| Api.DocumentPaths | src/service/api.ts:187-208 | one path per file, in input order |
| Api.UploadDocuments | src/service/api.ts:178-215 | an empty input succeeds with no upload; otherwise every upload is started, and the result succeeds, with the paths in order, iff the storage accepts every path and no two files get the same path (`upsert: false` refuses the second) |
| Api.SameInstantCopiesFail | src/service/api.ts:187-200 | two files of the same name whose uploads read the same millisecond share a path, so the documents fail even when the storage accepts every path |
| Api.PhotoPathIsNoDocumentPath | src/service/api.ts:111-112 | the photo path never equals a document path, so the photo and document uploads never compete for one path |
| Api.SubmitRow | src/service/api.ts:79-173 | a throwing transform makes no call; a failed insert stops there; success iff the insert succeeds and the photo is not the reloaded placeholder |
| Api.AfterPhoto | src/service/api.ts:129-168 | after the insert and photo, the result is success; with no files nothing more is called |
| Api.SubmitApplication | src/service/api.ts:79-173 | with the corrected transform, success iff the insert succeeds and the photo is not the placeholder, the insert being the first call |
| Api.AsWrittenDropsUntouchedSocialMedia | src/service/api.ts:79-173 | as written, an untouched social-media list fails the submission before any call, where the corrected one goes through |
| Api.UpdateOnlyAfterAllDocuments | src/service/api.ts:129-166 | the row is written back iff there are documents and all of them were stored (every path accepted, none repeated), with their paths; a failed document reports success with an error |
| Api.ReloadedPhotoFailsAfterInsert | src/service/api.ts:109-126 | as written, a photo carried through a draft reload makes the submission fail after the row was inserted |
| Api.StatsConsistent | src/service/api.ts:409-418 | active plus archived is total, and pending, approved and rejected, counted among active rows, add up to at most active |
| Api.CountStats | src/service/api.ts:398-425 | one pass over the rows gives the same counts as the reference definition |
| Api.StatsAsCounts | src/service/api.ts:409-418 | each statistic is the number of rows satisfying its predicate |
| ApplicationPage.Render | src/pages/ApplicationPage.tsx:44-142 | the loading view while loading; the success screen iff the counter is at least 5; otherwise the step whose number is the counter |
| ApplicationPage.ProgressBarHiddenOnSuccess | src/pages/ApplicationPage.tsx:82-88 | once loaded, the progress bar shows iff the success screen does not, and with every step |
| ApplicationPage.AfterSubmit | src/pages/ApplicationPage.tsx:35-42 | success moves to the next step; failure keeps the step and shows the error modal titled Erro |
| ApplicationPage.PressGate | src/pages/ApplicationPage.tsx:91-131 | on steps 0–3 the step's gate either advances the counter or keeps the step and shows its warning |
| ApplicationPage.PressSubmit | src/pages/ApplicationPage.tsx:134-141 | on step 4 a passing form reaches the success screen with the modal untouched; a failing one stays, showing the chain's warning |
| ApplicationPage.PressNext | src/pages/ApplicationPage.tsx:87-142 | only the counter changes; screens without a step do nothing; from a step the counter stays in range |
| ApplicationPage.PressBack | src/pages/ApplicationPage.tsx:100-141 | back moves one step down on steps 1–4 only, and never touches the modal |
| ApplicationPage.NavigationKeepsRange | src/pages/ApplicationPage.tsx:35-142 | over any sequence of clicks the counter stays within 0..5 and no answer changes |
| ApplicationPage.SuccessScreenIsFinal | src/pages/ApplicationPage.tsx:87-88 | no sequence of clicks leaves the success screen |
| AnswerSheet.Validate | src/pages/InterviewPage.tsx:130-162 | the marks are exactly the present, checked, blank keys, and the form is valid iff there is none |
| AnswerSheet.ValidateComputesFailing | src/pages/ScreeningPage.tsx:100-124 | the validation's marks are the reference set of failing keys |
| AnswerSheet.ChangeField | src/pages/InterviewPage.tsx:120-128 | one answer is set and only its mark is cleared; other answers and marks stay |
| AnswerSheet.ChangeThenValidate | src/pages/ScreeningPage.tsx:93-124 | after an edit, the next validation changes its verdict on the edited key only |
| AnswerSheet.Submit | src/pages/InterviewPage.tsx:164-191 | an incomplete sheet or a missing id is refused with its alert; the draft is removed and success shown only when the awaited send does not throw (its result is ignored); a thrown send alerts and keeps everything |
| AnswerSheet.SaveEffect | src/pages/ScreeningPage.tsx:86-91 | the draft is written only with an id, once initialised and before success |
| AnswerSheet.SentDraftStaysRemoved | src/pages/ScreeningPage.tsx:126-153 | after a send that did not throw the draft is gone and the save effect does not write it back |
| AnswerSheet.FailedAttemptKeepsDraft | src/pages/InterviewPage.tsx:113-191 | a refused attempt or a send that threw removes nothing, so an earlier draft stays stored, and it changes none of the save effect's inputs (answers, id, success flag), so the effect has nothing new to write |
| InterviewSheet.InitialInterview | src/pages/InterviewPage.tsx:39-56 | the sheet starts employed, with every question present and empty and nothing marked |
| InterviewSheet.InterviewValidIff | src/pages/InterviewPage.tsx:130-147 | the interview validates iff every question is answered non-empty, the leaving question being skipped for an employed candidate |
| InterviewSheet.InitialInterviewMarks | src/pages/InterviewPage.tsx:130-147 | validating the fresh sheet marks every question but the skipped one |
| InterviewSheet.WhitespaceAnswerAccepted | src/pages/InterviewPage.tsx:143 | an answer of white space is accepted: there is no trim |
| InterviewSheet.ChangeEmployment | src/pages/InterviewPage.tsx:120-128 | the employment flag is never validated and toggling it changes no answer and no mark |
| ScreeningSheet.ScreeningValidIff | src/pages/ScreeningPage.tsx:100-124 | the screening validates iff every answer has a character that is not white space |
| ScreeningSheet.WhitespaceAnswerRejected | src/pages/ScreeningPage.tsx:105 | an answer of white space is missing |
| Text.TrimEmptyIffBlank | src/pages/ScreeningPage.tsx:105 | `trim` gives the empty string iff every character is white space |
| Text.SplitJoin | src/service/api.ts:111 | `split` loses nothing: joining the pieces gives the string back |
| Text.DecimalRoundTrip | src/service/api.ts:188-190 | a rendered timestamp reads back as itself |

## Left out

- Effects: `localStorage`, the DOM (`scrollIntoView`, `setTimeout`, body-scroll locking, the Escape handler), `FileReader` previews and `alert` are not modelled as effects. Storage is a map; alerts, warnings and scroll targets are data.
- The clock and the calendar: `Date.now()` and `new Date().getFullYear()` are parameters (`Backend.clock`, `currentYear`).
- JSON: `JSON.stringify`/`JSON.parse` fidelity is an abstract serialiser/parser pair. A stored draft of the wrong shape is not modelled: a parsed draft is a record whose keys may be missing.
- Floating point: the currency rendering of `formatSalary` (`Intl.NumberFormat`, the division by 100), the `ProgressBar` percentage and the MB figures in warnings.
- Text encoding: strings are sequences of code points, not UTF-16 units. `length`, `slice` and `Sanitize` differ on characters outside the Basic Multilingual Plane.
- Backend plumbing: the Supabase client, `getFileUrl`/`getFileUrls` and the admin CRUD wrappers. Insert, upload and update are abstract success or failure results. The result of the final row update is only logged by the source and is not modelled.
- Concurrency: the `Promise.all` of `uploadDocuments` is an all-or-nothing result over the sequence of uploads.
- The evaluator pages' loading order (draft versus server data), their `isSubmitting` flag, authentication, routing and the admin list and detail views.
- The landing and marketing components hold no logic and are not part of this model.
- ApplicationForm.Mount: merges with the corrected `LoadMerge`, so a stored photo does not come back as the placeholder `{}` as it does in the code; `ApplicationForm.MountAsWritten` models the code as written.
- ApplicationForm.ReloadRestoresDraft: is about the corrected mount, which drops the photo; the reload as written is `ApplicationForm.ReloadAsWrittenKeepsPlaceholder`.
- ApplicationForm.ClearedFormIsSavedAgain: does not model React's bail-out on an unchanged state, which applies only while no draft was loaded and nothing was edited; it describes a clear after the aggregate has been updated since mount.
- StepGates.Step3Gate: is stated over the corrected lookup that skips holes; as written, a hole before the looked-up entry throws, already when step 3 renders, so no warning is shown and the step does not advance (`StepGates.RenderThrowsIffHole`).
- StepGates.Step3GateNamesFirst: names a competency on lists with holes, where the code as written throws instead.
- ApplicationPage.PressGate: on step 3 it inherits `StepGates.Step3Gate`'s corrected lookup.
- Step4Form.HandleSubmit: the `errors` map of the Step 4 components is component-local state and not part of `ApplicationPage.PageState`; `HandleSubmit` returns it but the page drops it.
- Api.SubmitRow: it does not distinguish a thrown error's payload; an exception yields `success = false` without a value.

## Findings

| source | as written | input that shows it | evidently intended | confidence | as-written member | corrected member |
|---|---|---|---|---|---|---|
| src/components/form-position/steps/Step3.tsx:80-83 | `competencies.find(c => c.name === name)` reads `name` of every slot, and `updateCompetency` (src/hooks/useApplicationForm.ts:108-121) leaves holes when an index past the end is written | rate the second competency before the first: index 0 is a hole and the lookup throws a TypeError | holes are skipped; a missing competency reads as blank | medium, not executed | StepGates.GetCompetencyAsWritten | StepGates.GetCompetency |
| src/hooks/useApplicationForm.ts:55 | the load merge keeps `step4.photo` from the draft, where a `File` was serialised as `{}` | choose a photo, reload the page, submit: `photo.name.split` at src/service/api.ts:111 throws after the row was inserted | the photo is reset on load like the files | low (the page submits through the stub), not executed | ApplicationForm.LoadMergeAsWritten | ApplicationForm.LoadMerge |
| src/service/api.ts:64 | `formData.step4.socialMedia.length` is read although the initial form (src/hooks/useApplicationForm.ts:25-40) has no `socialMedia` | submit without ever adding or removing a social link: the transform throws and nothing is inserted | an absent list is stored as null | medium, not executed | Api.TransformAsWritten | Api.Transform |
