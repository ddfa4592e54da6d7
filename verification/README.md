# Smart-Study core, modelled in Dafny

Smart-Study is a study web application. A React front end offers:

- a study timer that earns bonus points;
- an AI tutor chat;
- a generated quiz;
- a marksheet risk analyzer;
- a translator.

A small Express user API stores the accounts and awards the points. This project models the logic of that application that is not delegated to the AI service, and proves properties of it. The model has one module per source file:

| module | file | what it models |
|---|---|---|
| `UserRoutes` | `server/routes/user.js` | The account table (`UserStore`, a map from object id to account). It holds the register, login, get-user and update-time handlers with their status codes. |
| `Auth` | `frontend/src/contexts/AuthContext.jsx` | The client session (`AuthProvider`): the two storage entries, the Authorization header, the cached user and the loading flag. |
| `StudyTimer` | `frontend/src/components/TimerPopup.jsx` | The timer (`TimerPopup`): tick, toggle, reset, the award effect and `formatTime`. |
| `StudySession` | all three above | The award protocol end to end: one interval callback, the server's handlers and the client's refresh. Across any number of seconds it proves that every 30-second boundary is rewarded exactly once and the account gains exactly 10 points per boundary. |
| `RiskPredictor` | `frontend/src/pages/RiskPredictor.jsx` | The manual-entry table, its filter and defaults, `calculatePerformanceMetrics`, the performance label ladder, the JSON slice of an AI reply and the page state. |
| `Assessment` | `frontend/src/pages/AIAssessment.jsx` | The quiz configuration, the answer table, marking, the score and `formatTime`. |
| `Tutor` | `frontend/src/pages/AITutor.jsx` | `escapeHtml`, `sendMessage` and the typing loop of `typeBotMessage`. |
| `Translation` | `frontend/src/pages/AITranslation.jsx` | The guards of `handleTranslate`, language lookup, quote escaping, fence stripping and the error mapping. |
| `Text`, `Wrappers` | — | Shared string helpers: JavaScript `trim` whitespace, `replace`, `includes`, `padStart`, decimal rendering, object-id syntax and ASCII lower-casing. Also `Option` and `Result`. |

Every external effect is a parameter of the operation that uses it:

- The AI service's answer is a `Result` or an `Option`.
- A server reply becomes a `Result`, a `FetchReply` or an `AwardReply`.
- `parseFloat` is `parse: string -> Option<real>`, where None stands for NaN.
- bcrypt is `hash`, and a password matches when `hash(password)` equals the stored hash.
- Signing a token is `sign(id, username)`.
- `jwtDecode` is a partial function `decode`.
- The clock is `now`.
- The id a new account gets is `freshId`.

State that the source updates in place is a class with `modifies` clauses. Pure computations are functions with lemmas.

The code and the design intent of the study timer disagree in three places. The model follows the code in each:

- After an award the client does not take the balance from the award reply. It re-fetches the user (`getUser`) and installs whatever that fetch returns.
- There is no separate start or pause; `toggleTimer` flips the running flag.
- A reset does not cancel an in-flight award. Its late success writes the old boundary back (see Left out).

## Model

| member | source | states |
|---|---|---|
| UserRoutes.UserStore.Register | server/routes/user.js:11-33 | A taken email gives 400 and leaves the table unchanged. Otherwise exactly one account is added with the hash of the password and 0 points, and the reply holds the signed token and the account without its password. A clash on the generated id gives 500. Email uniqueness and non-decreasing points are kept. |
| UserRoutes.UserStore.Login | server/routes/user.js:36-57 | Succeeds iff some account has the email and the password hashes to its stored hash. Every failure is the same 400 "Invalid credentials". A success returns that account's token and view. |
| UserRoutes.UserStore.GetUser | server/routes/user.js:60-78 | A string that is not 24 hex digits gives 500. Otherwise the id is matched in any letter case: 404 when it names no account, else 200 with that account's view under its stored lower-case id. |
| UserRoutes.CastIgnoresCase | server/routes/user.js:62 | Two spellings of an id that differ only in letter case cast to the same id, or both fail to cast |
| UserRoutes.CastOfId | server/routes/user.js:88 | A stored id casts to itself |
| UserRoutes.UserStore.UpdateTime | server/routes/user.js:81-105 | A missing or empty id gives 400, one that is not 24 hex digits 500, and one that names no account in any letter case 404, each with the table unchanged. Otherwise the account it names, and it alone, gains exactly 10 points and the reply returns the new balance. Email uniqueness and non-decreasing points are kept. |
| Auth.AuthProvider.constructor | frontend/src/contexts/AuthContext.jsx:8-9 | Starts with no user and loading |
| Auth.AuthProvider.InitializeAuth | frontend/src/contexts/AuthContext.jsx:12-37 | Without both entries nothing but loading changes. An undecodable or expired token (`exp*1000 <= now`) removes both entries and leaves no user. A live token sets the header and the token's user, then the fetched record if the fetch succeeded. Loading always ends false. |
| Auth.AuthProvider.StoreSession | frontend/src/contexts/AuthContext.jsx:48-56 | A failed request changes nothing. Otherwise both entries and the header are written; the user becomes the token's id and name with the reply's points, or stays as it was when the token cannot be decoded. |
| Auth.AuthProvider.Login | frontend/src/contexts/AuthContext.jsx:42-61 | Same contract as StoreSession, for the login reply |
| Auth.AuthProvider.Register | frontend/src/contexts/AuthContext.jsx:63-83 | Same contract as StoreSession, for the register reply |
| Auth.AuthProvider.Logout | frontend/src/contexts/AuthContext.jsx:85-90 | Both entries and the header are removed and the user is null; loading is kept |
| Auth.AuthProvider.GetUser | frontend/src/contexts/AuthContext.jsx:92-107 | A successful fetch overwrites the user from the server record. A failure or `success == false` leaves it alone. Nothing else changes. |
| StudyTimer.ClockArithmetic | frontend/src/components/TimerPopup.jsx:25-27 | minutes < 60 and hours*3600 + minutes*60 + secs == seconds |
| StudyTimer.FormatTimeRoundTrip | frontend/src/components/TimerPopup.jsx:24-31 | Specifies `FormatTime`: HH:MM:SS reads back: separators at fixed places and digit fields. Minutes and seconds have exactly two digits and are below 60, and the fields recompose the input. |
| StudyTimer.TimerPopup.constructor | frontend/src/components/TimerPopup.jsx:10-20 | Zero time, stopped, guard 0, invariant established |
| StudyTimer.TimerPopup.Toggle | frontend/src/components/TimerPopup.jsx:33-35 | Flips only the running flag; the invariant is kept |
| StudyTimer.TimerPopup.Reset | frontend/src/components/TimerPopup.jsx:37-41 | From any state: time 0, stopped, guard 0, reward history cleared |
| StudyTimer.TimerPopup.Tick | frontend/src/components/TimerPopup.jsx:43-47 | While running, time grows by exactly one and nothing else changes; the invariant is kept |
| StudyTimer.TimerPopup.AwardEffect | frontend/src/components/TimerPopup.jsx:54-89 | Each outcome is characterised by an iff over the guard (user, running, time >= 30, boundary, not yet rewarded), the 24-hex id check and the reply. Only a successful reply moves the guard to the boundary, shows +10 and refreshes the user. A bad id or a failed request raises the single error toast with the guard unchanged. The guard stays 0 or the last rewarded boundary, a multiple of 30 not beyond time, and rewarded boundaries strictly increase. |
| StudySession.Boundaries | frontend/src/components/TimerPopup.jsx:55-57 | There are hi/30 - lo/30 reward boundaries in (lo, hi], none when hi <= lo |
| StudySession.BoundariesShape | frontend/src/components/TimerPopup.jsx:55-57 | Each boundary is a multiple of 30 in (lo, hi], and they strictly increase |
| StudySession.PostUpdateTime | frontend/src/components/TimerPopup.jsx:66-71 | Posting an id to the server's update-time route: when the id names an account (in any letter case) the client sees `success` with that account's old points plus 10 and the award message, and the account is credited 10 points. For an empty, malformed or unknown id the request fails and the table is unchanged. |
| StudySession.FetchUser | frontend/src/contexts/AuthContext.jsx:94-95 | Fetching an id from the server's get-user route: when the id names an account the client receives `success` and that account's view under its stored id; otherwise the fetch fails |
| StudySession.Second | frontend/src/components/TimerPopup.jsx:43-89 | One second of a running timer with the award protocol. The history grows by the new time iff it is a boundary, and the server credits that account 10 points exactly then. |
| StudySession.RunInterval | frontend/src/components/TimerPopup.jsx:43-89 | After any number of seconds, the rewarded boundaries are exactly the boundaries crossed, in order, each once. The account has gained 10 points per boundary and no other account changed. |
| StudySession.SixtyFiveSeconds | frontend/src/components/TimerPopup.jsx:55-57 | From 0 to 65 seconds the boundaries are 30 and 60, so RunInterval credits 20 points |
| RiskPredictor.WithField | frontend/src/pages/RiskPredictor.jsx:92 | Only the named field of the row changes |
| RiskPredictor.ToSubject | frontend/src/pages/RiskPredictor.jsx:104-109 | A missing or zero total becomes 100. A missing or zero passing mark becomes 40% of the entered total, or 40 when that is missing or zero. The total is never zero. |
| RiskPredictor.ManualData | frontend/src/pages/RiskPredictor.jsx:102-109 | Every row with a subject and a numeric obtained mark is mapped into the data; each subject has a name and a non-zero total |
| RiskPredictor.ManualDataSound | frontend/src/pages/RiskPredictor.jsx:102-109 | Every subject comes from a row that passed the filter |
| RiskPredictor.ManualDataAppend | frontend/src/pages/RiskPredictor.jsx:102-109 | Filtering keeps row order: it distributes over concatenation |
| RiskPredictor.ManualDataEmpty | frontend/src/pages/RiskPredictor.jsx:102-114 | No analysis runs iff no row passes the filter |
| RiskPredictor.CalculatePerformanceMetrics | frontend/src/pages/RiskPredictor.jsx:120-159 | The counting loop computes exactly `MetricsOf`: pass/fail counts, the three risk counts, the mean percentage (None when empty) and the overall risk |
| RiskPredictor.MetricsPartition | frontend/src/pages/RiskPredictor.jsx:120-159 | Of `MetricsOf`: high + medium + low == total; passed + failed == total with failed >= 0 |
| RiskPredictor.RiskIsRatioTest | frontend/src/pages/RiskPredictor.jsx:129-142 | With a positive total: high iff obtained*100 < 50*total, medium iff 50*total <= obtained*100 < 75*total, low otherwise |
| RiskPredictor.LabelMonotone | frontend/src/pages/RiskPredictor.jsx:220-227 | Of `LabelOf`: a higher percentage never gets a lower label |
| RiskPredictor.LabelAgreesWithRisk | frontend/src/pages/RiskPredictor.jsx:220-227 | Of `LabelOf`: Average or better iff not high risk; Very Good or better iff low risk |
| RiskPredictor.IndexOf | frontend/src/pages/RiskPredictor.jsx:55 | -1 iff the character is absent, otherwise its first position |
| RiskPredictor.LastIndexOf | frontend/src/pages/RiskPredictor.jsx:56 | -1 iff the character is absent, otherwise its last position |
| RiskPredictor.JsSliceInRange | frontend/src/pages/RiskPredictor.jsx:57 | Within bounds, `slice` is the plain subsequence |
| RiskPredictor.ExtractFirstToLast | frontend/src/pages/RiskPredictor.jsx:55-57 | Of `ExtractJsonArray`: with a `[` before the last `]`, the slice runs from the first `[` to the last `]` inclusive |
| RiskPredictor.ExtractWithoutClose | frontend/src/pages/RiskPredictor.jsx:55-57 | Of `ExtractJsonArray`: without any `]` the slice is empty |
| RiskPredictor.CountRiskPositive | frontend/src/pages/RiskPredictor.jsx:123-142 | A risk count is positive iff some subject falls in that band |
| RiskPredictor.FallbackAdvice | frontend/src/pages/RiskPredictor.jsx:206-216 | Specifies `FallbackRecommendations`: the heading and the three general tips always; the high-risk tip iff some subject is below 50%; the medium-risk tip iff some subject is from 50% up to 75%; in that order |
| RiskPredictor.RiskPredictorPage.constructor | frontend/src/pages/RiskPredictor.jsx:6-11 | Input view, no data, one blank row |
| RiskPredictor.RiskPredictorPage.HandleManualInputChange | frontend/src/pages/RiskPredictor.jsx:89-95 | One field of one row changes. The length, the other rows and the other fields stay. |
| RiskPredictor.RiskPredictorPage.AddSubject | frontend/src/pages/RiskPredictor.jsx:97-99 | Exactly one blank row is appended |
| RiskPredictor.RiskPredictorPage.AnalyzeManualData | frontend/src/pages/RiskPredictor.jsx:101-118 | Analyzed iff some row passes the filter; otherwise nothing changes. When analyzed, the data is the filtered rows, the view is the results, and the recommendations are the generated text or the fallback advice for the metrics. |
| RiskPredictor.RiskPredictorPage.ResetAnalysis | frontend/src/pages/RiskPredictor.jsx:244-250 | One blank row, no data, no recommendations, input view |
| Assessment.Without | frontend/src/pages/AIAssessment.jsx:36 | Removes every occurrence and keeps everything else |
| Assessment.WithoutAppend | frontend/src/pages/AIAssessment.jsx:36 | Removal distributes over concatenation (order kept) |
| Assessment.CheckThenUncheck | frontend/src/pages/AIAssessment.jsx:31-38 | Unchecking after checking leaves the list as unchecking alone would |
| Assessment.WithField | frontend/src/pages/AIAssessment.jsx:41 | Only the named field changes |
| Assessment.InitialRow | frontend/src/pages/AIAssessment.jsx:108-114 | Answer '', verdict null, correct answer and explanation (or '') from the question |
| Assessment.MarkingAgreesWithoutCapitals | frontend/src/pages/AIAssessment.jsx:154-158 | Of `IsCorrect`: without capitals, the case-insensitive rule is exact equality |
| Assessment.CaseOnlyMattersForChoices | frontend/src/pages/AIAssessment.jsx:154-158 | Of `IsCorrect`: a lower-cased answer is accepted for a short answer, and for a choice question only if lower-casing changed nothing |
| Assessment.Graded | frontend/src/pages/AIAssessment.jsx:153-160 | The row with only its verdict set, by the marking rule |
| Assessment.CountCorrect | frontend/src/pages/AIAssessment.jsx:320 | At most the number of rows |
| Assessment.CountCorrectAll | frontend/src/pages/AIAssessment.jsx:320 | All rows correct gives the number of rows |
| Assessment.CountCorrectNone | frontend/src/pages/AIAssessment.jsx:320 | No row correct gives 0 |
| Assessment.Score | frontend/src/pages/AIAssessment.jsx:321 | None (NaN) exactly for an empty test, otherwise non-negative |
| Assessment.ScoreIsNearest | frontend/src/pages/AIAssessment.jsx:321 | The intended score: the exact percentage rounded to the nearest integer, halves up (the source's floating-point product can fall just below a half; see Left out) |
| Assessment.ScoreBounds | frontend/src/pages/AIAssessment.jsx:320-321 | The score is in 0..100; it is 100 when all are correct and 0 when none are |
| Assessment.ResultsScore | frontend/src/pages/AIAssessment.jsx:320-321 | When the marking rule accepts every answer, the results show 100 |
| Assessment.FormatTimeRoundTrip | frontend/src/pages/AIAssessment.jsx:134-138 | Specifies `FormatTime`: MM:SS reads back as s div 60 and s mod 60; the seconds have two digits |
| Assessment.AssessmentPage.constructor | frontend/src/pages/AIAssessment.jsx:4-16 | Default configuration, no test, config view |
| Assessment.AssessmentPage.HandleConfigChange | frontend/src/pages/AIAssessment.jsx:28-43 | Checking appends the type at the end and unchecking removes every occurrence. Any other input replaces only its field. |
| Assessment.AssessmentPage.GenerateTest | frontend/src/pages/AIAssessment.jsx:98-123 | No types selected: no request and nothing changes. A generated list gives one fresh row per question, the test view and a running timer. A failure keeps the old test. |
| Assessment.AssessmentPage.HandleAnswerChange | frontend/src/pages/AIAssessment.jsx:140-146 | Only the answer at that index changes |
| Assessment.AssessmentPage.GradeTest | frontend/src/pages/AIAssessment.jsx:148-165 | Same length. Each row changes only in its verdict, which is set by its question's type. The count is the number of correct rows. Timer stopped, results view. |
| Assessment.AssessmentPage.ResetTest | frontend/src/pages/AIAssessment.jsx:167-173 | No timer, duration 0, no test, no answers, config view |
| Assessment.AssessmentPage.ReviewAnswers | frontend/src/pages/AIAssessment.jsx:175-177 | Back to the test view with everything else kept |
| Tutor.EscapeHtmlAppend | frontend/src/pages/AITutor.jsx:22-29 | Escaping distributes over concatenation |
| Tutor.EscapeHtmlChar | frontend/src/pages/AITutor.jsx:22-29 | One character becomes its entity (`&amp; &lt; &gt; &quot; &#039;`) or itself |
| Tutor.EscapeHtmlIsPerChar | frontend/src/pages/AITutor.jsx:24-28 | Of `EscapeHtml`: replacing `&` first makes the chain the per-character encoding; no entity is escaped twice |
| Tutor.EscapeHtmlSafe | frontend/src/pages/AITutor.jsx:22-29 | The output has no `<`, `>`, `"` or `'` |
| Tutor.EscapeHtmlPlain | frontend/src/pages/AITutor.jsx:22-29 | Text without the five characters is unchanged |
| Tutor.EscapeRoundTrip | frontend/src/pages/AITutor.jsx:22-29 | Of `EscapeHtml`: decoding the entities gives the input back |
| Tutor.EscapeInjective | frontend/src/pages/AITutor.jsx:22-29 | Distinct inputs give distinct outputs |
| Tutor.TypingSteps | frontend/src/pages/AITutor.jsx:109-119 | The smallest k with 3k >= n |
| Tutor.TutorChat.constructor | frontend/src/pages/AITutor.jsx:4-8 | Only the greeting, empty input, not typing |
| Tutor.TutorChat.TypeBotMessage | frontend/src/pages/AITutor.jsx:103-120 | Appends one tutor message whose text ends as the whole reply; earlier messages are untouched (for one send at a time; see Left out). It takes ceil(n/3) steps, and the ghost record `shown` holds, for each step k (from 1), the text then on screen: the prefix of length min(3k, n). |
| Tutor.TutorChat.SendMessage | frontend/src/pages/AITutor.jsx:122-138 | Blank input changes nothing. Otherwise it appends exactly the escaped student message, clears the input, and appends either the typed reply or one "❌ Error: " message. Typing ends. |
| Translation.Find | frontend/src/pages/AITranslation.jsx:46 | None iff no entry has the code; otherwise an entry with that code |
| Translation.LanguageName | frontend/src/pages/AITranslation.jsx:46 | An unknown code is shown as itself |
| Translation.CodesUnique | frontend/src/pages/AITranslation.jsx:16-26 | No code is listed twice and every language has a name |
| Translation.FindListed | frontend/src/pages/AITranslation.jsx:46 | In a list without repeated codes, looking up a listed code finds that entry |
| Translation.LanguageNameKnown | frontend/src/pages/AITranslation.jsx:16-26 | A listed code is shown by its listed name |
| Translation.EscapeQuotesRoundTrip | frontend/src/pages/AITranslation.jsx:46 | Decoding `\"` gives the input back |
| Translation.PromptRecoversText | frontend/src/pages/AITranslation.jsx:46 | Specifies `Prompt` for listed languages: the head, both language names, the instructions, the quoted input and the tail, in order; cutting away that frame and decoding the rest gives the input back |
| Translation.EscapeQuotesPlain | frontend/src/pages/AITranslation.jsx:46 | No quotes: unchanged. Every quote in the output is preceded by a backslash. |
| Translation.StripFences | frontend/src/pages/AITranslation.jsx:78 | Stripping never lengthens the reply |
| Translation.StripFencesPlain | frontend/src/pages/AITranslation.jsx:78 | A reply without backticks is unchanged |
| Translation.StripFencedBlock | frontend/src/pages/AITranslation.jsx:78 | Of `CleanReply`: a fenced JSON block comes out as its content, then trimmed |
| Translation.ErrorMessage | frontend/src/pages/AITranslation.jsx:112-115 | The shown message is never empty |
| Translation.Unauthorized | frontend/src/pages/AITranslation.jsx:112-115 | A 401 failure is always shown as the credentials hint |
| Translation.ErrorMessagePassThrough | frontend/src/pages/AITranslation.jsx:112-115 | A message with neither keyword passes through, or becomes the default when empty |
| Translation.TranslationPage.constructor | frontend/src/pages/AITranslation.jsx:8-13 | English to Spanish, empty, no error |
| Translation.TranslationPage.StartTranslate | frontend/src/pages/AITranslation.jsx:94-106 | The blank check comes first, then the same-language check; each refusal sets only its error. Otherwise loading is set, the error and the translation are cleared, and the request text is returned. |
| Translation.TranslationPage.FinishTranslate | frontend/src/pages/AITranslation.jsx:108-120 | The translation or the mapped error is shown; loading ends |
| Translation.TranslationPage.HandleTranslate | frontend/src/pages/AITranslation.jsx:94-121 | A request is made iff the input is not blank and the languages differ. Afterwards the page shows the translation, or the mapped error with no translation, and loading is false. |
| Text.TrimStart | frontend/src/pages/AITranslation.jsx:95 | Removes exactly a whitespace prefix |
| Text.TrimEnd | frontend/src/pages/AITranslation.jsx:95 | Removes exactly a whitespace suffix |
| Text.TrimEmptyIffBlank | frontend/src/pages/AITutor.jsx:123 | `trim()` is empty iff the text is all whitespace |
| Text.Replace | frontend/src/pages/AITutor.jsx:24 | Identity without the character; the character cannot survive unless the replacement holds it |
| Text.ReplaceAppend | frontend/src/pages/AITutor.jsx:24-28 | Replacement distributes over concatenation |
| Text.ContainsAt | frontend/src/pages/AITranslation.jsx:113 | An occurrence at any position makes `includes` true |
| Text.Decimal | frontend/src/components/TimerPopup.jsx:28 | Rendering gives digits, at most two below 100 |
| Text.ParseDecimalOfDecimal | frontend/src/components/TimerPopup.jsx:28 | Parsing the decimal rendering gives the number back |
| Text.PadStart2 | frontend/src/components/TimerPopup.jsx:28 | Pads with zeros in front up to two characters and keeps longer text |
| Text.TwoDigits | frontend/src/components/TimerPopup.jsx:28-30 | Below 100 the padded rendering is exactly two digits and reads back |
| Text.PaddedValue | frontend/src/components/TimerPopup.jsx:28 | Any padded rendering reads back |
| Text.Lower | frontend/src/pages/AIAssessment.jsx:157 | Same length, each letter lower-cased |
| Text.LowerIdempotent | frontend/src/pages/AIAssessment.jsx:157 | Lower-casing twice is lower-casing once |

## Left out

- The AI service requests (`fetch`) and their three-attempt 429 retry loops are left out. So are `JSON.parse`, Tesseract OCR and the marksheet image upload (`handleImageUpload`). Their results are parameters: a question list, a reply text, a translation or an error message.
- Tutor.TutorChat.SendMessage: takes the reply already formatted. `formatResponse` depends on regular-expression multiline anchors and a closure that reads the text being replaced, and is not modelled.
- RiskPredictor.CalculatePerformanceMetrics: requires every total to be non-zero. In the source a zero total gives IEEE Infinity or NaN, and floating point is not modelled. Every subject built from manual rows has a non-zero total (ToSubject); data from the image path could break this.
- RiskPredictor.MetricsOf: keeps the mean percentage unrounded. `Math.round(x * 10) / 10` and the other display roundings are float formatting.
- RiskPredictor.FallbackRecommendations: the fallback advice keeps its items but not the template's indentation and line breaks. The AI-generated recommendations are the `generated` parameter.
- RiskPredictor.RiskPredictorPage: the inline `setView('manual')` and back buttons only switch the view and are not modelled as operations.
- RiskPredictor.LabelOf: `getPerformanceLabel` is never called by the page. It is modelled because its ladder states the performance bands.
- UserRoutes.UserStore.GetUser: the store's cast also accepts 12-character raw ids; only the 24-hex-digit form is modelled, in either letter case. Any other string gives 500, as a failed cast does. The same holds for UpdateTime.
- UserRoutes.UserStore.Register: a failed save is modelled only as a clash of the generated id (500). The account schema and its validation (server/models/User.js) are not part of this model, so its default of 0 points is taken as given.
- UserRoutes.UserStore: bcrypt's salting and cost factor are left out (`hash` is a deterministic function), as is the token's one-hour expiry inside `sign`. `decode` is not tied to `sign`. The authentication middleware is not part of this model.
- Concurrent award requests and storage-level atomic increments are left out: every operation is one sequential step.
- StudyTimer.TimerPopup.AwardEffect: the award is one atomic step. In the source the request is asynchronous. A reset while it is in flight lets its later success write the old boundary back, which breaks `lastRewardedTime <= time`; the model does not capture that interleaving. Re-running the effect because `getUser` is a new function on every render is framework timing and is not modelled.
- StudyTimer.TimerPopup: `setInterval`/`setTimeout` timing is left out; ticks are explicit calls. Also left out: hiding the +10 after three seconds, the toast texts and the draggable position kept in `localStorage`.
- Assessment.AssessmentPage: the `Date.now`-based elapsed time of a test is left out, and `testDuration` only changes on reset. `questionCount` is kept as the text of its input, starting as "5".
- Translation.TranslationPage: the plain setters of the input and of the two languages, and the logged-in render guard, are UI.
- Assessment.Score: computed on exact rationals, as the percentage rounded halves up. The source rounds the floating-point product `correct / total * 100`, which can land just below a half. For 23 correct of 40 the product is 57.49999999999999, so the source shows 57 where the model gives 58; 46 of 80 and 29 of 200 behave alike. ScoreIsNearest states the intended value, not the floating-point one. The bounds in ScoreBounds hold of both.
- Tutor.TutorChat.TypeBotMessage: each call is one sequential step. In the source, `sendMessage` has no typing guard and the send control stays enabled. Each typing step waits 10 ms, so a second send during typing can append a student message; the loop then overwrites that message, now the last one, with the reply's prefix. The first call's `finally` also clears `isTyping` early. The model does not capture this interleaving, and "earlier messages are untouched" holds only without it.
- Text.Lower: lower-cases ASCII letters only, not the full Unicode mapping of `toLowerCase`.
- Strings are sequences of characters. JavaScript lengths count UTF-16 code units, so for text outside the Basic Multilingual Plane the typing chunks differ.
- JSX rendering, navigation and the UI-only components (navigation bar, profile, sign-up form, landing sections, theme) are not modelled.
