# Recruitment backend core, modelled in Dafny

This project models the business logic of a FastAPI recruitment backend:

- **Skill tests.** A test is started for a candidate by selecting at most `limit` questions of one category. It is submitted once: each answer whose question exists is scored and stored as an item, and the test is closed. It is read back item by item.
- **AI interviews.** Beginning an interview stores an `Interview` row and resets the chatbot transcript of its session. Chatting is allowed only on a known session, and each turn appends the message and the reply to its transcript. Evaluating an answer picks the job description (JD) to judge it against. Ending an interview closes it once and drops its transcript.
- **CV/JD uploads.** Both files are extracted, dispatched on the file-name suffix. The candidate is found or created by e-mail and the two texts are stored. One match result is appended, with defaults for missing model fields.
- **Reading a candidate.** The candidate comes back with its results, and stored suggestion lists are decoded.
- **Sending an offer.** The guard chain of the send-offer endpoint.

The relational store is one map from id to record per table. Each table has a next-id counter that stands for its auto-increment key (`Database.DbState`, and the class `Database.Db` whose fields the handlers change in place).

The invariant `Database.ValidDb` collects the schema's promises:
- every id lies below its counter;
- candidate e-mails are unique;
- interview session ids are unique;
- every foreign key names an existing row;
- every skill test follows its lifecycle: an open test has no score and no items, and a closed test's score is the number of its items marked correct.

Every state-changing handler is a method that keeps `Valid()`. Its new state equals a pure function of the old state (`Opened`, `Submitted`, `Begun`, `Ended`, `Uploaded`, ...), and lemmas state what those functions do.

The chatbot's process-wide transcript dictionary is the class `ChatbotService.SessionStore`.

The following are method parameters:
- language-model replies (a parsed reply, or `None` when the call raised);
- what the PDF/DOCX libraries read from a file (page texts, paragraph texts, or `None` when the library raises);
- the clock (`now`);
- the random session UUID;
- the outcome of mail delivery.

Modules follow the source files: `Models` (app/models.py), `Database` (the session over the tables), `SkillTests` (app/routers/tests.py), `ChatbotService` (app/services/chatbot_service.py), `InterviewRouter` (app/routers/interview.py), `CvJdProcessor` (app/services/cv_jd_processor.py) and `CandidatesRouter` (app/routers/candidates.py).

The system's design description differs from the code in a few places. The model follows the code:
- The model replies have no retry policy; a failed call yields the fixed fallback at once.
- The match score is not clamped to 0..100.
- A double submit or a double end is answered with 400, not a separate conflict status.
- Submit stores an item only for answers whose question exists, not one per answered question.

## Model

| member | source | states |
|---|---|---|
| Models.EncodeList | app/models.py:40 | A suggestion list is stored as a serialised value, never as the empty column |
| Models.DecodeEncode | app/routers/candidates.py:115 | Reading back a stored suggestion list gives the list that was stored |
| Models.DecodeList | app/routers/candidates.py:61-63 | A stored list reads back as the list that was encoded, and an empty column as no suggestions |
| Models.NewInterview | app/models.py:43-52 | A new interview has the given candidate, session id and start time; end time, overall score and feedback are unset |
| Models.NewSkillTestResult | app/models.py:63-71 | A new test has its candidate, start time and question count; end time and score are unset |
| Database.Rows | app/routers/tests.py:66-68 | A filtered select returns only existing rows that satisfy the filter, below the id bound, in strictly ascending id order |
| Database.RowsComplete | app/routers/tests.py:66-68 | A filtered select misses no row that satisfies the filter |
| Database.RowsFrame | app/routers/candidates.py:118-120 | Inserting at an id at or above the bound does not change what a select below the bound returns |
| Database.RowsInsert | app/routers/candidates.py:118-120 | Inserting at the next free id appends that row to a select exactly when it satisfies the filter |
| Database.RowsNone | app/routers/tests.py:70-71 | A select with no qualifying row returns nothing |
| Database.InsertedAt | app/routers/tests.py:119-125 | Adding records in bulk at consecutive fresh ids keeps every old row and puts each new record at its own id, and nothing else |
| Database.Inserted | app/routers/tests.py:119-125 | A bulk insert adds exactly one consecutive id per new record, starting at `base`, and the id `base + i` holds the `i`-th new record |
| Database.RowsInserted | app/routers/tests.py:119-131 | After a bulk insert, a select returns the old rows followed by the new records that satisfy the filter, in order |
| Database.ItemsOf | app/models.py:73 | A test's items all belong to that test |
| Database.Filter | app/routers/tests.py:119-125 | Filtering keeps only elements that satisfy the predicate and never lengthens the list |
| Database.FilterAppend | app/routers/tests.py:119-125 | Filtering distributes over concatenation |
| Database.FilterAllOrNone | app/routers/tests.py:119-125 | Filtering keeps a list whose elements all qualify and empties one whose elements none qualify |
| Database.Records | app/routers/tests.py:157-164 | Dropping ids keeps every record, in order |
| Database.RecordsAppend | app/routers/tests.py:157-164 | Dropping ids distributes over concatenation |
| Database.CountCorrect | app/routers/tests.py:114-116 | The number of items marked correct is at most the number of items |
| Database.CountCorrectAppend | app/routers/tests.py:110-125 | Counting correct items distributes over concatenation |
| Database.EmptyDbValid | app/models.py:22 | The empty database satisfies every schema invariant |
| Database.Db.constructor | app/models.py:16-84 | A fresh session is valid and holds the empty database |
| Database.Db.FindCandidateByEmail | app/routers/candidates.py:90 | Returns the one candidate with the e-mail when there is one, and none exactly when no candidate has it |
| Database.Db.FindInterviewBySession | app/routers/interview.py:88 | Returns the one interview with the session id when there is one, and none exactly when no interview has it |
| SkillTests.SelectQuestions | app/routers/tests.py:66-68 | At most `limit` questions are selected, all existing, all of the category, in id order; when fewer than `limit` are selected, they are the whole category |
| SkillTests.SelectEmpty | app/routers/tests.py:66-71 | Selection is empty exactly when the limit is 0 or no question has the category, which is when start answers not-found |
| SkillTests.PublicQuestions | app/routers/tests.py:83-90 | Each selected question is shown with its id, text, options and category, in selection order, with no correct answer |
| SkillTests.Graded | app/routers/tests.py:111-125 | Submitting stores at most one item per answer, each for this test and an existing question |
| SkillTests.GradedExact | app/routers/tests.py:110-125 | Exactly one item per answer whose question exists, in answer order; each records the selected answer and is marked correct exactly when it equals the question's correct answer |
| SkillTests.ItemFor | app/routers/tests.py:112-125 | An answer yields one item exactly when its question exists; the item is for this test and that question, records the selected answer, and is correct exactly when the answer scores |
| SkillTests.Score | app/routers/tests.py:110-116 | The score is at most the number of answers; it equals it when every answer scores and is 0 when none does |
| SkillTests.ScoreCountsCorrectItems | app/routers/tests.py:110-125 | The score equals the number of stored items marked correct and is at most the number of answers |
| SkillTests.GradedSkipsMissing | app/routers/tests.py:111-113 | Answers that all name existing questions give one item each; answers that all name missing questions store nothing and score 0 |
| SkillTests.ScoreCanExceedTotal | app/routers/tests.py:110-137 | A correct answer counts every time it is sent: the same answer submitted `n` times scores `n`, whatever the test's question count |
| SkillTests.CountCorrectPublicAgrees | app/routers/tests.py:156-173 | Counting correct items on the shown items gives the same number as on the stored items |
| SkillTests.QuestionAddedValid | app/routers/tests.py:23-31 | Storing a question at the next free id keeps the database valid and puts the question at a previously unused id |
| SkillTests.QuestionAdded | app/routers/tests.py:23-31 | Adding a question adds exactly one id, the next free one, holding the question; every other table and question is unchanged |
| SkillTests.CreateQuestion | app/routers/tests.py:15-34 | Stores the question at a fresh id, keeps the database valid, and changes nothing else |
| SkillTests.OpenedValid | app/routers/tests.py:74-80 | Opening a test for an existing candidate keeps the database valid; the new test id is unused and has no items |
| SkillTests.Opened | app/routers/tests.py:72-80 | Opening adds exactly one test at the next free id, for the candidate, with the question count and start time, unscored and open; nothing else changes |
| SkillTests.OpenTest | app/routers/tests.py:74-80 | The insert stores an open test with the question count at the next free id |
| SkillTests.StartSkillTest | app/routers/tests.py:52-92 | With `limit` defaulting to 10: unknown candidate or empty selection is not-found and changes nothing; otherwise one open test with the selected count is stored, and the public selected questions are returned under the new id |
| SkillTests.ScoreAnswers | app/routers/tests.py:110-125 | The scoring loop computes the score and the staged items of the submission, and the score is the count of staged items marked correct |
| SkillTests.SubmitSkillTest | app/routers/tests.py:95-138 | Unknown test is not-found; a closed test is a bad request; errors change nothing; otherwise the test is closed with its score, its items are stored, and the score and unchanged question count are returned |
| SkillTests.CommitSubmission | app/routers/tests.py:125-131 | The commit stores the staged items at fresh ids and sets the end time and score |
| SkillTests.SubmitKeepsValid | app/routers/tests.py:119-131 | Closing an open test keeps the database valid, so the closed test's score is the count of its correct items; its items are exactly the staged ones |
| SkillTests.Submitted | app/routers/tests.py:119-131 | Submitting closes the test with its end time and score, keeping its candidate, count and start time; the staged items sit at consecutive fresh ids; no other test and no other table changes |
| SkillTests.SubmitScoredAt | app/routers/tests.py:128-131 | Closing one test keeps the lifecycle invariant of every test |
| SkillTests.SubmittedItems | app/routers/tests.py:119-125 | After submission the test's items are exactly the staged items, in order |
| SkillTests.SubmitKeepsKeys | app/models.py:75-84 | Stored items refer to an existing test and an existing question, and every id stays below its counter |
| SkillTests.SubmitItemsOf | app/routers/tests.py:119-125 | Storing a submission's items extends that test's items by them and leaves other tests' items unchanged |
| SkillTests.ResultViewFaithful | app/routers/tests.py:156-173 | In a valid database each shown item carries its real question text; an open test shows no score and no items; a closed test's score is the number of items shown correct |
| SkillTests.ItemView | app/routers/tests.py:158-163 | A shown item carries the stored answer and mark, and its question's text, or "N/A" when the question is missing |
| SkillTests.ItemsView | app/routers/tests.py:156-164 | One shown item per stored item, in order, with the same answer and mark |
| SkillTests.ResultView | app/routers/tests.py:166-174 | The view shows the test's id, candidate, score, count, start and end time, and one item per stored item |
| SkillTests.GetTestResults | app/routers/tests.py:140-174 | Not-found exactly for an unknown test; otherwise the test with its items in id order, each with its question text or "N/A" |
| SkillTests.ItemsReferenceQuestions | app/routers/tests.py:160 | In a valid database every item of a test names an existing question |
| ChatbotService.Started | app/services/chatbot_service.py:54-68 | After a start the session holds exactly the opening AI message, and every other session is unchanged |
| ChatbotService.StartedIdempotent | app/services/chatbot_service.py:54-68 | Starting a session twice leaves the same store as starting it once |
| ChatbotService.StartedCommute | app/services/chatbot_service.py:54-68 | Starts of two sessions commute |
| ChatbotService.SessionStore.constructor | app/services/chatbot_service.py:38 | The store starts empty |
| ChatbotService.SessionStore.GetSessionHistory | app/services/chatbot_service.py:40-44 | An unknown session is inserted with an empty history and returned; a known one is returned unchanged; no other session changes |
| ChatbotService.SessionStore.ClearHistory | app/routers/interview.py:29-30 | A present transcript becomes empty and an absent one stays absent |
| ChatbotService.SessionStore.DropHistory | app/routers/interview.py:102-103 | The session's transcript is removed and every other transcript is unchanged |
| ChatbotService.SessionStore.StartInterview | app/services/chatbot_service.py:54-68 | The session holds exactly the opening message, whatever it held before, and that same message is returned |
| ChatbotService.SessionStore.ChatWithChatbot | app/services/chatbot_service.py:70-76 | The model's reply is returned, and the store becomes the chatted store: the session's transcript (created empty if absent) gains the message and the reply |
| ChatbotService.Chatted | app/services/chatbot_service.py:72-75 | After a turn the session's old transcript is kept as a prefix and followed by exactly the human message and the AI reply; an unknown session ends with just those two; every other session is unchanged |
| ChatbotService.StartedThenChatted | app/services/chatbot_service.py:54-75 | The first turn after a start leaves the opening prompt, the message and the reply, in that order |
| ChatbotService.ChattedCommute | app/services/chatbot_service.py:72-75 | Turns in two different sessions commute |
| ChatbotService.EvaluateCandidateResponse | app/services/chatbot_service.py:105-117 | A parsed reply is passed through; a failed call gives score 0 and the fixed non-empty explanation |
| InterviewRouter.CandidateAt | app/routers/interview.py:21 | The lookup finds a candidate exactly when the id is in use, and returns that row |
| InterviewRouter.BegunValid | app/routers/interview.py:33-36 | Storing an interview for an existing candidate under an unused session id keeps the database valid |
| InterviewRouter.Begun | app/routers/interview.py:33-36 | Beginning adds exactly one interview at the next free id, open, with the candidate, session id and start time; nothing else changes |
| InterviewRouter.BegunSession | app/models.py:48 | After a begin, the new row is the only interview with that session id |
| InterviewRouter.AddInterview | app/routers/interview.py:33-36 | The insert stores a new open interview at the next free id |
| InterviewRouter.BeginInterview | app/routers/interview.py:14-41 | Unknown candidate is not-found and changes nothing; a session-id collision is a server error with the database unchanged; otherwise one open interview is stored, the transcript holds only the opening message, and the response and first message are both that message |
| InterviewRouter.ClearThenStart | app/routers/interview.py:29-39 | Clearing a transcript before starting it leaves the same store as starting it alone |
| InterviewRouter.ContinueInterviewChat | app/routers/interview.py:43-58 | An unknown session is not-found before the chatbot is called, with no store change; otherwise the model's reply is returned and the turn is appended to that session's transcript |
| InterviewRouter.ChooseJd | app/routers/interview.py:69-72 | Bad request exactly when the candidate has no non-empty JD and the request's JD is empty; otherwise the candidate's JD is preferred and the request's is the fallback |
| InterviewRouter.ToEvaluationResponse | app/routers/interview.py:78 | The response is built exactly when both score and feedback are present; otherwise a server error |
| InterviewRouter.EvaluationOutcomes | app/routers/interview.py:66-78 | Evaluation is a bad request exactly when no JD is available; otherwise the model is asked with the chosen JD; a failed call gives score 0 with the fixed explanation; a reply missing a field is a server error |
| InterviewRouter.Evaluation | app/routers/interview.py:66-78 | Evaluation is a bad request exactly when no JD can be chosen, so never when the request has its own JD; any other failure is a server error |
| InterviewRouter.EvaluateInterviewResponse | app/routers/interview.py:60-78 | The handler, with the candidate looked up by id, answers as the evaluation rule says, and a request carrying its own JD is never a bad request |
| InterviewRouter.EvaluationAsWritten | app/routers/interview.py:68 | As written, every evaluation request ends in a server error |
| InterviewRouter.EvaluationFinding | app/routers/interview.py:68 | A request with its own JD and a well-formed model reply succeeds as intended but fails as written |
| InterviewRouter.EndGuard | app/routers/interview.py:88-93 | No interview found is not-found; an ended interview is a bad request; only an open interview passes |
| InterviewRouter.EndResponse | app/routers/interview.py:88-105 | Ending succeeds, with the fixed message, exactly for an open interview; no interview is not-found; an ended one is a bad request |
| InterviewRouter.EndResponseAsWritten | app/routers/interview.py:88-96 | As written ending never succeeds: the guards answer as intended and an open interview gets a server error |
| InterviewRouter.EndFinding | app/routers/interview.py:96 | As written every end fails; on an open interview it gives a server error where success was intended; the guards agree with the intended version |
| InterviewRouter.InterviewFor | app/routers/interview.py:88 | The interview found for a session id is the unique row with that id, or none exactly when no row has it |
| InterviewRouter.EndedValid | app/routers/interview.py:92-99 | Ending an interview keeps the database valid, and a second end of the same session is refused with a bad request |
| InterviewRouter.Ended | app/routers/interview.py:96-99 | Ending sets that interview's end time and keeps its candidate, session id and start time; no other interview and no other table changes |
| InterviewRouter.CloseInterview | app/routers/interview.py:96-99 | The update sets the interview's end time and changes nothing else |
| InterviewRouter.EndInterview | app/routers/interview.py:81-105 | Not-found or bad request leave database and transcripts unchanged; success sets the end time of that interview only and removes only that session's transcript |
| InterviewRouter.EndInterviewAsWritten | app/routers/interview.py:88-96 | As written the handler answers as its guards say and otherwise with a server error, changing nothing |
| CvJdProcessor.KindOf | app/services/cv_jd_processor.py:38-43 | A name ending in `.pdf` goes to the PDF reader, otherwise one ending in `.docx` goes to the DOCX reader, otherwise it is unsupported |
| CvJdProcessor.SuffixesDisjoint | app/services/cv_jd_processor.py:38-41 | No file name ends with both suffixes, so testing `.pdf` first hides no `.docx` file |
| CvJdProcessor.UpperCaseUnsupported | app/services/cv_jd_processor.py:38-40 | The suffix test is case-sensitive: `CV.PDF` and `JD.DOCX` are unsupported, while `cv.pdf` and `jd.docx` are dispatched |
| CvJdProcessor.PageText | app/services/cv_jd_processor.py:18 | A page without text contributes the empty string; a page with text contributes that text |
| CvJdProcessor.PdfText | app/services/cv_jd_processor.py:16-19 | The PDF text is at least as long as the text of any one page |
| CvJdProcessor.DocxText | app/services/cv_jd_processor.py:28-31 | The DOCX text has at least one character per paragraph and is longer than any one paragraph |
| CvJdProcessor.PdfTextAppend | app/services/cv_jd_processor.py:16-19 | The PDF text of concatenated page lists is the concatenation of their texts |
| CvJdProcessor.PdfTextEmpty | app/services/cv_jd_processor.py:16-19 | The PDF text is empty exactly when no page yields text |
| CvJdProcessor.DocxTextShape | app/services/cv_jd_processor.py:28-31 | The DOCX text is empty exactly when there are no paragraphs, ends with a newline otherwise, and is at least one character per paragraph |
| CvJdProcessor.ExtractTextFromPdf | app/services/cv_jd_processor.py:12-22 | None when the reader raises; otherwise the page texts concatenated in order, a page without text adding nothing |
| CvJdProcessor.ExtractTextFromDocx | app/services/cv_jd_processor.py:24-34 | None when the reader raises; otherwise every paragraph followed by a newline, in order |
| CvJdProcessor.ExtractedText | app/services/cv_jd_processor.py:36-43 | Only a PDF or DOCX name can yield text, and it yields none exactly when its reader raises |
| CvJdProcessor.ProcessUploadedFile | app/services/cv_jd_processor.py:36-43 | Unsupported names give None; a PDF or DOCX gives None exactly when its reader raises, and otherwise its text |
| CvJdProcessor.ReadableFiles | app/routers/candidates.py:81-87 | An upload file passes the text check exactly when it is a PDF with a page that yields text or a DOCX with at least one paragraph |
| CvJdProcessor.MatchingScoreAndFeedback | app/services/cv_jd_processor.py:66-78 | A parsed reply is passed through; a failed call gives score 0 and the fixed non-empty explanation |
| CvJdProcessor.ImprovementSuggestions | app/services/cv_jd_processor.py:108-120 | A parsed reply is passed through; a failed call gives exactly one fixed suggestion |
| CandidatesRouter.AnalysisOf | app/routers/candidates.py:106-108 | A missing score is 0, missing feedback the fixed text, missing suggestions the empty list; present fields are kept |
| CandidatesRouter.AnalysisWhenModelsFail | app/routers/candidates.py:102-108 | When both model calls fail the stored analysis is score 0, the matching fallback text and the one fallback suggestion |
| CandidatesRouter.ExistingCandidate | app/routers/candidates.py:90 | The candidate found by e-mail is the unique one with it, or none exactly when no candidate has it |
| CandidatesRouter.WithTextsValid | app/routers/candidates.py:90-99 | Storing the texts on the found or new candidate keeps the database valid, and e-mails stay unique |
| CandidatesRouter.WithTexts | app/routers/candidates.py:90-98 | A found candidate keeps every field but gets the two texts, and no candidate is added; otherwise one candidate is added at the next free id from the form fields and texts; other candidates and tables are unchanged |
| CandidatesRouter.CandidateEmailAfter | app/models.py:22 | After the candidate step the target is the only candidate with the e-mail |
| CandidatesRouter.WithMatchValid | app/routers/candidates.py:111-120 | Storing a match result for an existing candidate keeps the database valid |
| CandidatesRouter.WithMatch | app/routers/candidates.py:111-119 | Exactly one match result is added at the next free id for the candidate, with the score, feedback and time, no JD id, and suggestions that decode to the given list; nothing else changes |
| CandidatesRouter.UploadedValid | app/routers/candidates.py:89-120 | A successful upload keeps the database valid |
| CandidatesRouter.Uploaded | app/routers/candidates.py:89-120 | The new match result belongs to an existing candidate that has the uploaded e-mail and holds the two uploaded texts |
| CandidatesRouter.UploadedCandidates | app/routers/candidates.py:90-96 | An existing candidate is reused: only its CV and JD texts change and no candidate is added. Otherwise exactly one candidate is added from the form fields and texts. Every other candidate is untouched |
| CandidatesRouter.UploadedMatches | app/routers/candidates.py:111-120 | An upload appends exactly one match result for the candidate at a fresh id, keeping the earlier ones; a new candidate has only that one |
| CandidatesRouter.WithMatchRows | app/routers/candidates.py:111-120 | Storing a match result appends it to that candidate's results |
| CandidatesRouter.NoMatchesYet | app/models.py:34 | A candidate id not in use has no match results |
| CandidatesRouter.SaveCandidate | app/routers/candidates.py:90-99 | The candidate step updates the found candidate's texts or inserts the new candidate at the next free id |
| CandidatesRouter.AddMatchResult | app/routers/candidates.py:111-120 | The insert stores one match result with serialised suggestions at the next free id |
| CandidatesRouter.UploadCvJd | app/routers/candidates.py:67-130 | An unreadable CV, then an unreadable JD, is a bad request with nothing written; otherwise the database is the uploaded state, and the response reports both texts extracted and the same score, feedback and suggestions that were stored |
| CandidatesRouter.StoreUpload | app/routers/candidates.py:89-120 | The writes find or create the candidate, apply the defaults to the model replies, store one match result, and keep the database valid |
| CandidatesRouter.ReadCandidate | app/routers/candidates.py:40-65 | Not-found exactly for an unknown id; otherwise the candidate with its match results (suggestions decoded, empty as none), interviews and tests in id order |
| CandidatesRouter.MatchPublic | app/routers/candidates.py:61-63 | A shown match result keeps its id, score, feedback and time, and shows its suggestions decoded, an empty column as none |
| CandidatesRouter.MatchesView | app/routers/candidates.py:61-63 | One shown result per stored result, in order, each with its id and decoded suggestions |
| CandidatesRouter.CandidateView | app/routers/candidates.py:47-65 | The view shows the candidate's id, name and e-mail, one entry per match result of that candidate, and only interviews and tests of that candidate |
| CandidatesRouter.ReadAfterUpload | app/routers/candidates.py:57-63 | After an upload, reading the candidate shows the earlier match results followed by one with the returned score, feedback and suggestions |
| CandidatesRouter.SendOffer | app/routers/candidates.py:139-155 | Unknown candidate is not-found, then e-mail mismatch is a bad request, both before any delivery; a delivery attempt succeeds exactly when the mail is delivered, else a server error |
| CandidatesRouter.SendOfferAsWritten | app/services/email_service.py:31-48 | As written, the offer helper returns nothing, so every offer request fails, and a delivery attempt is always a server error |
| CandidatesRouter.OfferFinding | app/routers/candidates.py:147-153 | The two versions agree on the guards and differ exactly on a delivered offer, which the code as written reports as a failure |

## Left out

- Authentication (`app/routers/auth.py`), application wiring (`app/main.py`), engine and settings (`app/database.py`, `app/config.py`) and the browser script (`static/js/main.js`) hold no logic of this core.
- `create_candidate`, `read_candidates` and `get_questions_by_category` are plain CRUD. The last runs the same query as `SkillTests.SelectQuestions`.
- The language-model calls (OpenAI client, LangChain chain) are parameters. A chat turn is modelled as the history wrapper's effect on success: the human message and the reply are appended. A chat call that raises propagates as a server error, and what the wrapper has recorded by then is not modelled.
- ChatbotService.SessionStore.ChatWithChatbot, InterviewRouter.ContinueInterviewChat: the reply is a string parameter, so a failing model call is outside these members.
- CandidatesRouter.UploadCvJd, CandidatesRouter.StoreUpload, CvJdProcessor.MatchingScoreAndFeedback, CvJdProcessor.ImprovementSuggestions, ChatbotService.EvaluateCandidateResponse and InterviewRouter.ToEvaluationResponse take each field of a model reply as either absent or well-typed. The code's `.get` and `**` accept any JSON, and the model does not cover a null or ill-typed field. Three effects go uncovered. `{"score": null}` would fail the NOT NULL commit of the match result (app/models.py:37) after the candidate's texts were already committed (app/routers/candidates.py:98). `{"suggestions": null}` would be stored as the text `null` and read back as no list. An ill-typed evaluation field would make the response construction raise a server error.
- PDF and DOCX parsing are modelled by what the libraries read (page texts, paragraph texts), with `None` standing for a library exception.
- Mail delivery (`send_email`, SMTP) is a boolean parameter. `send_onboarding_email` is not part of this model.
- JSON encoding of options and suggestions is abstracted. Options are stored as a list, and suggestions as a stored list that is either encoded or blank.
- Timestamps are an opaque `now` parameter. The session UUID is a parameter, and a collision with an existing session is modelled as the commit failing with a server error.
- Request validation by pydantic (422 answers, type coercion, `EmailStr`) is not modelled. Path ids are integers; a negative id finds nothing.
- SkillTests.StartSkillTest: `limit` is a natural number. It defaults to `DefaultLimit` (10), as the query parameter does. A negative SQL `LIMIT` is not modelled.
- Results of unordered selects and relationship loads are taken in ascending id order.
- `read_candidate` rewrites each loaded match result's `suggestions` in place on the ORM object. The model builds the decoded view instead and does not capture that in-memory mutation.
- `app/routers/candidates.py:6` imports a module `app.schemas.match_results_schemas`, and line 9 imports `SendOfferRequest`. `app/schemas.py` defines neither. The model assumes the imports resolve, and takes the fields of the offer request from their uses at lines 139-150.
- `app/models.py:98-103` redefines `User` as a plain model and prints at import time. This is not logic of the core.
- A database commit failing for other reasons (connection loss) is not modelled.

## Findings

| source | as written | input that shows it | evidently intended | confidence | as-written member | corrected member |
|---|---|---|---|---|---|---|
| app/routers/interview.py:96 | `end_interview` calls `datetime.utcnow()`, but the module never imports `datetime`, so every end of an open interview raises (500) before the commit and before the transcript is dropped | an interview with `end_time` unset, ended by its session id | set the end time, commit, drop the transcript, answer with the success message | high (not executed) | InterviewRouter.EndInterviewAsWritten, InterviewRouter.EndFinding | InterviewRouter.EndInterview |
| app/services/email_service.py:48 | `send_offer_email` awaits `send_email` but returns nothing, so `send_offer_to_candidate` always sees a falsy result and answers 500 | an existing candidate whose e-mail matches the request, with delivery succeeding | return the delivery result, so a delivered offer answers with the success message | high (not executed) | CandidatesRouter.SendOfferAsWritten, CandidatesRouter.OfferFinding | CandidatesRouter.SendOffer |
| app/routers/interview.py:68 | `evaluate_interview_response` reads `request.candidate_id`, a field `InterviewEvaluationRequest` does not have (`app/schemas.py:66-69`), so every request raises (500) | any evaluation request, e.g. one with a non-empty `jd_text` | look the candidate up by an id the request carries, prefer its JD, and fall back to the request's | high (not executed) | InterviewRouter.EvaluationAsWritten, InterviewRouter.EvaluationFinding | InterviewRouter.EvaluateInterviewResponse |
