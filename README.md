# StudyMate front-end: quiz session and page helpers in Dafny

This project models the logic inside the StudyMate student learning-tracker front-end:

- **Quiz session** (`quiz.dfy`, module `Quiz`). This is the timed walk through an ordered list of questions on the quiz page. Its five state cells are the current index, the selected option, the score, the completed flag and the seconds left. Pressing Next/Submit, or the countdown reaching zero, runs `handleNext`. That scores the current question, then either moves to the next one or completes the quiz. Moving to a new question clears the selection and restarts the 30-second countdown. The transitions are stated as functions over a `State` value (`HandleNext`, `Select`, `Second`). The class `Quiz.Session` carries the five fields and changes them in place through `SelectOption`, `Advance`, `Tick` and `Retake`. Each method is proved equal to its function, and the invariant `Inv` plus `Ticking` is preserved throughout.
- **Course search** (`courses.dfy`, module `Courses`). The course list shows a course when its lower-cased name contains the lower-cased search term.
- **Study-time figures** (`dashboard.dfy`, module `Dashboard`):
  - the total minutes studied, a left fold over the sessions;
  - the total split into hours and minutes;
  - the list of study days, normalised to midnight;
  - the calendar's test of whether a day had a session.
- **Module cards** (`home.dfy`, module `Home`):
  - the first module flagged as last accessed;
  - the incomplete modules;
  - which "continue" cards are visible;
  - the `/courses/<id>` links, together with the route pattern `courses/:moduleId` that reads them back.

`common.dfy` holds `Option`, the order-preserving subsequence relation that `filter` produces, and ASCII lower-casing (`LowerChar`, `Lower`), which the search filter and the route matcher share.

How the quiz model follows the page:

- **Countdown.** The clock is an explicit `Tick`, one call per elapsed second. When the pending timeout lowers the counter to zero, the effect runs again at once and calls `handleNext`. So the second that reaches zero also advances. While a question is on screen the counter is therefore never zero (`Ticking`).
- **Next button.** The button is disabled while `selectedOption` is falsy. That covers no selection, and also a selection that is the empty string (`NextEnabled`).
- **Errors.** The page has no error results. It never checks for an empty quiz, a foreign option, or an advance after completion. The model expresses these as preconditions that match what the page's interface allows:
  - the constructor needs a non-empty quiz;
  - `SelectOption` takes only one of the current question's options, the only values the radio group offers;
  - `Advance` is only called before completion, because the Next button is not rendered afterwards.
- **Time limit.** The limit is the constant 30 from the page. It is not a parameter.

## Model

| member | source | states |
|---|---|---|
| `Quiz.Session.constructor` | src/pages/Quiz.tsx:23-27 | A fresh session is at question 0, with no selection, score 0, not completed and 30 seconds left, and satisfies the invariant. |
| `Quiz.Session.SelectOption` | src/pages/Quiz.tsx:92 | Choosing an option records it as the selection and changes nothing else. The invariant is kept. |
| `Quiz.Session.Advance` | src/pages/Quiz.tsx:29-52 | The score rises by exactly 1 when the selection equals the current answer, and is unchanged otherwise, including with no selection. Below the last question, the index rises by 1, the selection clears and the timer resets to 30. On the last question the session completes and index, selection and timer stay unchanged. The invariant is kept. |
| `Quiz.Session.Tick` | src/pages/Quiz.tsx:34-41 | One second equals the corrected `Second` transition on the fields. The invariant is kept. |
| `Quiz.Session.Retake` | src/pages/Quiz.tsx:64 | After completion, Retake returns every field to the initial state. |
| `Quiz.Select` | src/pages/Quiz.tsx:92 | The selection becomes the chosen option and every other cell is unchanged. |
| `Quiz.HandleNext` | src/pages/Quiz.tsx:43-52 | The index stays in bounds. The score grows by the question's credit. The session completes exactly when leaving the last question. Otherwise it moves to index+1 with selection cleared and a full timer. From a valid uncompleted state it keeps `Inv`, keeps a countdown pending, and counts one more answered question. |
| `Quiz.SecondAsWritten` | src/pages/Quiz.tsx:34-41 | The countdown as the page has it. With time above 1, the time drops by exactly 1 and nothing else changes. At 1 it becomes `handleNext` with the counter at 0. At 0 no timeout is pending and nothing changes. There is no completed guard. |
| `Quiz.Second` | src/pages/Quiz.tsx:34-41 | The corrected countdown. A completed session is unchanged, otherwise it is the same as the page's countdown. It keeps `Inv` and `Ticking`. |
| `Quiz.NextLabel` | src/pages/Quiz.tsx:103 | The label is "Next" or "Submit". It reads "Submit" exactly when pressing would complete the quiz, and "Next" exactly when pressing would move to the next index. |
| `Quiz.Credit` | src/pages/Quiz.tsx:44-46 | A question earns at most one point. It earns one exactly when an option is selected and it equals the answer, so no selection earns nothing. |
| `Quiz.NextEnabled` | src/pages/Quiz.tsx:102 | The button is enabled exactly when a selection is present and is not the empty string; an empty-string selection leaves it disabled. |
| `Quiz.EnabledMeansOption` | src/pages/Quiz.tsx:92-102 | In a valid state, an enabled Next button means the selection is one of the current question's options. |
| `Quiz.Position` | src/pages/Quiz.tsx:82 | The "Question i/N" heading shows a position in 1..N, one more than the index. |
| `Quiz.StartInv` | src/pages/Quiz.tsx:23-27 | The initial state satisfies the session invariant, with a countdown pending. |
| `Quiz.SelectInv` | src/pages/Quiz.tsx:92-98 | Selecting one of the current question's options keeps the invariant. |
| `Quiz.ScoreBounded` | src/pages/Quiz.tsx:62 | In every valid state 0 ≤ score ≤ N, and a completed session has answered all N questions. |
| `Quiz.CountdownRunsDown` | src/pages/Quiz.tsx:39 | Fewer seconds than remain only lower the counter by that many. |
| `Quiz.TimeoutAdvances` | src/pages/Quiz.tsx:34-41 | Letting the whole countdown run out is the same as one `handleNext` with the selection in effect. The question is advanced exactly once. |
| `Quiz.TimeoutWithoutSelectionNoCredit` | src/pages/Quiz.tsx:44-46 | A question that times out with nothing selected earns no point. |
| `Quiz.CompletedIsFinal` | src/pages/Quiz.tsx:34-41 | With the corrected timer, any number of seconds leaves a completed session unchanged. |
| `Quiz.SecondsKeepInv` | src/pages/Quiz.tsx:34-41 | With the corrected timer, any number of seconds keeps the invariant, so the score never exceeds the question count. |
| `Quiz.LastQuestionScoredTwice` | src/pages/Quiz.tsx:34-41 | As written: after Submit on the last question with the right answer selected, the remaining seconds add the last question's point a second time. |
| `Quiz.CountCorrect` | src/pages/Quiz.tsx:44-46 | The number of questions whose selection matched the answer never exceeds the number answered. |
| `Quiz.Play` | src/pages/Quiz.tsx:43-52 | After k < N answered questions the session is at index k, with no selection, a full timer, not completed, and a score equal to the correct picks. After N it is completed on the last index with that score. |
| `Quiz.PlayCompletesAtEnd` | src/pages/Quiz.tsx:47-51 | A run completes exactly after N advances. It visits indices 0..N-1 once each, in order. Its final score is the number of correct picks, at most N. |
| `Quiz.SampleAllCorrect` | src/pages/Quiz.tsx:8-20 | On the page's two questions, answering Paris then Mars completes the quiz with score 2. |
| `Quiz.SampleTimeout` | src/pages/Quiz.tsx:8-20 | Paris then Next gives score 1 at question 2 with a fresh timer. Thirty silent seconds then complete the quiz at 1/2. |
| `Quiz.SampleScoreExceedsTotal` | src/pages/Quiz.tsx:62 | On the page's data, a correct run followed by waiting reaches score 3 of 2 as written, and stays at 2 with the corrected timer. |
| `Common.Lower` | src/pages/Courses.tsx:26 | Lower-casing keeps the length and lower-cases each character. |
| `Courses.Includes` | src/pages/Courses.tsx:26 | `includes` holds exactly when the term occurs at some position of the name. |
| `Courses.FilterBy` | src/pages/Courses.tsx:25-27 | The filter keeps exactly the courses that match, as an order-preserving subsequence of the list. Every matching course keeps all its occurrences and every other course has none. |
| `Courses.FilteredCourses` | src/pages/Courses.tsx:25-27 | A course is shown exactly when its lower-cased name contains the lower-cased term. The result is an order-preserving subsequence of the course list, and each shown course appears as often as in the list. |
| `Courses.FilteredNoLonger` | src/pages/Courses.tsx:25-27 | The filtered list is never longer than the course list. |
| `Courses.EmptySearchShowsAll` | src/pages/Courses.tsx:16-27 | With the initial empty term, every course is shown, in order. |
| `Courses.CaseInsensitive` | src/pages/Courses.tsx:26 | Two search terms that differ only in letter case show the same courses. |
| `Courses.NameFindsCourse` | src/pages/Courses.tsx:25-27 | Typing a course's name, in any case, shows that course. |
| `Dashboard.TotalStudyTime` | src/pages/Dashboard.tsx:99 | `totalStudyTime`, the `reduce` from 0, equals the sum of all session durations. |
| `Dashboard.ReduceIsSum` | src/pages/Dashboard.tsx:99 | The `reduce` fold equals its start value plus the sum of all durations. |
| `Dashboard.TotalCoversEachSession` | src/pages/Dashboard.tsx:99 | `totalStudyTime` is the sum of all durations. With non-negative durations it is at least each single duration. |
| `Dashboard.Hours` | src/pages/Dashboard.tsx:225 | The hours shown are the largest whole number h with h×60 ≤ total, so total − h×60 lies in [0, 60). |
| `Dashboard.Minutes` | src/pages/Dashboard.tsx:225-227 | JavaScript's `%` gives minutes in (-60, 60). For a non-negative total, hours×60 + minutes = total and 0 ≤ minutes < 60. |
| `Dashboard.NegativeTotalMisSplit` | src/pages/Dashboard.tsx:225-227 | For a negative total the displayed split does not add back up: -30 shows as -1 h -30 min. |
| `Dashboard.StudyDays` | src/pages/Dashboard.tsx:100-102 | There is one entry per session, in session order, each the session's day at midnight. |
| `Dashboard.HasStudySession` | src/pages/Dashboard.tsx:110-113 | A date is marked exactly when some session has the same year, month and day. |
| `Dashboard.TimeOfDayIgnored` | src/pages/Dashboard.tsx:111 | The time of day of the asked date never changes the answer. |
| `Dashboard.SampleDashboard` | src/pages/Dashboard.tsx:91-113 | On the page's sessions, the total is 285 minutes, shown as 4 hours 45 minutes. 4 March is marked and 3 March is not. |
| `Home.LastAccessedModule` | src/pages/Home.tsx:26 | The result is absent exactly when no module is flagged. Otherwise it is the first flagged module. |
| `Home.ShowsResumeCard` | src/pages/Home.tsx:49 | The resume card is rendered exactly when some module is flagged as last accessed. |
| `Home.IncompleteModules` | src/pages/Home.tsx:29 | Keeps exactly the modules with progress below 100, in original order, each incomplete module as often as in the list and no finished one. |
| `Home.NoneFinishedKeepsAll` | src/pages/Home.tsx:29 | When no module has reached 100%, the incomplete list is the whole module list. |
| `Home.ContinueCardVisible` | src/pages/Home.tsx:74-75 | A continue card is visible exactly when its module is in the list, is below 100%, and is not flagged as last accessed. |
| `Home.VisibleIffNotResumed` | src/pages/Home.tsx:74-75 | With at most one flagged module, a continue card is visible exactly when its module is incomplete and is not the resumed one. |
| `Home.ModuleIdOfPath` | src/App.tsx:17 | Any id the `courses/:moduleId` route reads is non-empty and has no `/`. The path starts with `/courses/` in some letter case, and the rest of the path is the id followed by a run of zero or more `/`. |
| `Home.TrimSlashes` | src/App.tsx:17 | Removing the trailing slashes leaves a prefix of the path that does not end in `/`, and everything cut off is `/`. |
| `Home.TrimAddedSlashes` | src/App.tsx:17 | A segment not ending in `/`, followed by any number of slashes, trims back to exactly that segment. |
| `Home.RouteReadsTail` | src/App.tsx:17 | The prefix in any letter case, followed by a tail that trims to a non-empty segment without `/`, routes to that segment. |
| `Home.SegmentRoutes` | src/App.tsx:17 | The prefix in any letter case, a non-empty segment without `/` and any run of slashes route to that segment. |
| `Home.SegmentTrims` | src/App.tsx:17 | A non-empty segment without `/`, followed by any number of slashes, trims back to the segment. |
| `Home.CoursePath` | src/pages/Home.tsx:87 | The link target `/courses/${id}`, shared by the Resume and Continue buttons, routes back to that same id, for an id that is non-empty, is not `.` or `..`, has no `/`, `?`, `#`, `%`, backslash, tab or line break, and does not end in a space or control character. |
| `Home.PrefixLowerCase` | src/App.tsx:17 | The route prefix is lower case already, and `/Courses/` lower-cases to it. |
| `Home.CoursePathRoundTrip` | src/pages/Home.tsx:87 | A path made of the prefix in any letter case plus a plain id, with or without any number of trailing `/`, routes back to that same id. |
| `Home.ResumeLink` | src/pages/Home.tsx:64 | A Resume link exists exactly when the resume card is shown. It is `/courses/` followed by the first flagged module's id. |
| `HomeSamples.SampleResume` | src/pages/Home.tsx:18-26 | On the page's modules, Algebra Basics is resumed, through the link `/courses/1`. |
| `HomeSamples.SampleIncomplete` | src/pages/Home.tsx:18-29 | All four of the page's modules are incomplete, so the continue list keeps them all. |
| `HomeSamples.SampleContinue` | src/pages/Home.tsx:74-75 | Module 1's continue card is hidden; modules 2, 3 and 4 show theirs. |
| `HomeSamples.SampleRoute` | src/App.tsx:17 | The route reads id `1` from `/courses/1`. |
| `HomeSamples.SampleRouteCase` | src/App.tsx:17 | The route reads id `1` from `/Courses/1` too. |

## Left out

- Rendering is not modelled: JSX, styling, cards, progress bars, recharts charts, the circular progress bar, the calendar widget and the radio-group component. These are presentation built on foreign libraries.
- `setTimeout`/`clearTimeout` scheduling and the exact timing of React effect re-runs are not modelled. One `Tick` stands for one elapsed second. Sub-second offsets are not modelled, for example a Next pressed during a question's first second, when the reset does not restart the pending timeout.
- `window.location.reload()` is modelled only as the state reset it causes (`Quiz.Session.Retake`).
- Floating-point percentages are not modelled: the quiz progress bar (src/pages/Quiz.tsx:76) and the pie-chart labels (src/pages/Dashboard.tsx:369).
- JavaScript `Date` internals are not modelled: time zones, and the rollover of out-of-range month or day values. A date is (year, month, day, milliseconds into the day). `getTime()` of a midnight date is taken to identify its calendar day.
- Unicode case mapping is not modelled: `toLowerCase` is modelled on ASCII letters only.
- The session count "Across N study sessions" (src/pages/Dashboard.tsx:231) is the list's length itself, so it has no member of its own.
- Routing and layout are not modelled: src/App.tsx, src/components/Layout.tsx, src/components/FloatingChatButton.tsx, and the menu and active-link state of src/components/Navbar.tsx. The one exception is the `courses/:moduleId` route, used as the reading side of the course links. The module page src/pages/Module.tsx is also left out. These hold only trivial display state.
- The page's course list is not used as a concrete instance; the quiz questions, study sessions and module list are.
- Quiz.Session.Tick: stops the countdown once the quiz is completed, which the page does not do (see Findings). The page's own behaviour is `Quiz.SecondAsWritten`.
- Quiz.Session.Advance: requires an uncompleted session, because the Next button is not rendered after completion. The page's unguarded timeout path is `Quiz.SecondAsWritten`.
- Home.VisibleIffNotResumed: assumes at most one module carries the `lastAccessed` flag, as in the page's data. The page hides every flagged module, so a second flagged, incomplete module would appear on neither card.
- Home.ModuleIdOfPath: the route's case folding is modelled on ASCII letters only, and the parameter is not percent-decoded, so an id read from a path holding `%` escapes is the raw text.
- Home.CoursePathRoundTrip: ids holding `?`, `#` or `%` are excluded, because the link splits a query or fragment off the path and the router percent-decodes the parameter, so such ids do not come back unchanged. The dot segments `.` and `..` are excluded too, because a browser resolves them out of the path before routing. So are ids holding a backslash (the browser reads it as `/`), a tab or line break (removed) or ending in a space or control character (stripped). The route matcher itself does not model the browser's URL clean-up. The page's ids are plain digits.
- Home.CoursePath: states the round trip only for plain ids, for the same reason.
- Durations, totals and progress values are JavaScript numbers and are modelled as integers. Fractional durations (and the fractional remainder `%` would then give) and the loss of precision above 2^53 are not modelled.
- Dashboard.Minutes: the hours/minutes identity holds only for non-negative totals. For negative totals the truncating `%` and the flooring `Math.floor` disagree (`Dashboard.NegativeTotalMisSplit`).

## Findings

| source | as written | input that shows it | evidently intended | confidence | as-written member | corrected member |
|---|---|---|---|---|---|---|
| src/pages/Quiz.tsx:34-41 | The countdown effect has no `quizCompleted` guard. After Submit on the last question the counter keeps falling. At zero it calls `handleNext` again, and the selection is still set, so the last question is scored twice. | The page's two questions: pick Paris, Next, pick Mars, Submit, then wait 30 seconds. The page shows "Your Score: 3/2". | The countdown stops once the quiz is completed, so the score never exceeds the number of questions. | high; not executed | `Quiz.LastQuestionScoredTwice` | `Quiz.SecondsKeepInv` |
