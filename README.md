# EcoTrack rule layer in Dafny

EcoTrack is a browser-resident carbon-footprint tracker. Users register and
sign in, enter their electricity use, car and public-transport distances and
diet, get a monthly emissions estimate in kg CO2, save it to a per-user
history, and see statistics (current footprint, reduction since the first
entry, trees equivalent, day streak) and a recent-activity feed on a
dashboard. A chat widget answers canned sustainability questions.

This project models the rule layer of `js/script.js`, the part that the
rendering code calls into:

- `footprint.dfy` (module `Footprint`): the calculator's arithmetic, with the
  emission factors, the weekly-to-monthly multiplier and the diet table with
  its fallback of 200. Quantities are exact `real`s.
- `history.dfy` (module `History`): the shared footprint log, the per-user
  filter and the "last five, newest first" activity feed.
- `streak.dfy` (module `Streaks`): the day streak. The sorted copy is a stable
  insertion sort by date, newest first (`SortByDateDesc`); the scan with its
  early exit is the method `CalculateStreak`, proved equal to the function
  `Streak`.
- `dashboard.dfy` (module `Dashboard`): the statistics cards and the data one
  dashboard load derives from the log. The reduction percentage keeps
  JavaScript's division by zero visible: `NotANumber`, `PositiveInfinity` or
  `NegativeInfinity` when the first footprint is 0.
- `passwords.dfy` (module `Passwords`): the strength meter's 0-6 score and
  its weak/medium/strong levels.
- `accounts.dfy` (module `Accounts`): the registration checks in their order,
  the exact-match login lookup, and the email-uniqueness invariant.
- `chatbot.dfy` (module `Chatbot`): the ordered reply rules on the
  lower-cased, trimmed message, returning the kind of reply.
- `app.dfy` (module `App`): the class `AppState`, holding what the script
  keeps in globals and local storage (the account list, the signed-in
  account, the last calculation and the footprint log), with methods for
  calculate, save, register, login and logout. Its invariant `Valid()`
  holds three facts. Emails are unique. The signed-in account is a
  registered one. Every logged footprint belongs to a registered account.
- `options.dfy` (module `Options`): `Option`, `Outcome` and `Result`.

Dates are integer day numbers. The clock, the generated user id and the
registration time are parameters.

Behaviour of `js/script.js` worth knowing, which the model keeps:

- A history on days d, d+1 and d+3 has streak 1. The scan starts at the
  newest entry and stops at once at the two-day gap, so the consecutive
  pair d, d+1 further back is never counted (`Streaks.GapAfterPairExample`).
- When the first footprint is 0 the code does not report 0%. It divides by
  zero (`Dashboard.Reduction`).
- The diet fallback is JavaScript's `||`. The table value is used when the
  category is listed and its value is non-zero. All listed values are
  non-zero, so every listed category gets its own value.

## Model

| member | source | states |
|---|---|---|
| `Footprint.DietFactor` | js/script.js:401-410 | a listed diet category gets its table value and any other category gets 200; the factor is always between 50 and 400 |
| `Footprint.CalculateFootprint` | js/script.js:381-429 | the total is exactly the sum of the four components; each metered component is quantity × factor × 4 for "weekly", × 1 for any other period; the diet component is the diet factor whatever the period; the raw inputs and period are kept |
| `Footprint.Multiplier` | js/script.js:389 | 4 exactly for the "weekly" period and 1 for every other period |
| `Footprint.WeeklyIsFourTimesMonthly` | js/script.js:389-399 | for the same inputs, weekly electricity, car and transport components are 4× the monthly ones, the diet component is equal, and the total differs by 3× the metered sum |
| `Footprint.NonNegativeInputs` | js/script.js:397-413 | with non-negative quantities every component is non-negative, the diet component is at least 50 and the total is at least 50 |
| `Footprint.DietTable` | js/script.js:402-410 | vegan 50, vegetarian 100, meat-low 150, meat-medium 250, meat-high 400, anything else 200 |
| `Footprint.MonthlyExample` | js/script.js:389-413 | 200 kWh, 100 km, 50 km, meat-medium, monthly gives 100 / 21 / 2.5 / 250, total 373.5 |
| `Footprint.WeeklyExample` | js/script.js:389-413 | the same inputs weekly give 400 / 84 / 10 / 250, total 744 |
| `History.UserHistory` | js/script.js:180-181 | the result holds exactly the log's entries with that user id, and no more entries than the log |
| `History.UserHistoryConcat` | js/script.js:181 | filtering keeps log order: the filter of a concatenation is the concatenation of the filters |
| `History.UserHistoryAppend` | js/script.js:181 | appending an entry for a user makes it the last entry of that user's history and leaves every other user's history unchanged |
| `History.UserHistoryNone` | js/script.js:180-181 | a log with no entry for the user gives an empty history |
| `History.UserHistoryLast` | js/script.js:180-181 | a user's history ends with that user's last entry in the log |
| `History.UserHistoryEnds` | js/script.js:180-187 | the feed built from a user's history holds only that user's log entries; the history is empty when the log has no entry for the user, and otherwise both the history's last entry and the feed's first are the user's last entry in the log |
| `History.Reverse` | js/script.js:261 | the result has the same length and holds the elements in reverse order |
| `History.RecentActivity` | js/script.js:261 | the feed has min(5, n) entries and its i-th entry is the log's i-th entry from the end (newest first) |
| `Streaks.SortByDateDesc` | js/script.js:230 | the sorted copy has the history's length; the three lemmas below prove it a permutation of the history, with the same dates, newest first |
| `Streaks.SortByDateDescPermutes` | js/script.js:230 | the sorted copy holds the same entries as the history (a permutation) |
| `Streaks.SortByDateDescDates` | js/script.js:230 | the sorted copy holds the same multiset of dates |
| `Streaks.SortByDateDescSorted` | js/script.js:230 | the sorted copy is newest first |
| `Streaks.Streak` | js/script.js:226-249 | a history of fewer than 2 entries gives its length; otherwise the streak is between 1 and the number of entries |
| `Streaks.CalculateStreak` | js/script.js:226-249 | the loop over the sorted copy, with its break at the first step that is not one day, returns `Streak(history)`, hence its length below 2 entries and a value in [1, n] otherwise |
| `Streaks.StreakIgnoresOrder` | js/script.js:230 | two histories with the same multiset of dates have the same streak, whatever order they list entries in |
| `Streaks.StreakIsNewestRun` | js/script.js:232-246 | on the dates sorted newest first, the first k = streak dates are newest, newest−1, …, newest−k+1, and the next date (if any) is not newest−k |
| `Streaks.StreakBeyondOne` | js/script.js:238-245 | with 2 or more entries the streak exceeds 1 exactly when the newest day has a single entry and the day before has one; a same-day pair or a gap over one day at the top gives 1 |
| `Streaks.ConsecutiveDaysExample` | js/script.js:241-242 | two entries on consecutive days give streak 2 in either input order |
| `Streaks.GapAfterPairExample` | js/script.js:241-245 | days d, d+1, d+3 give streak 1 |
| `Dashboard.Reduction` | js/script.js:211-213 | the result is finite exactly when the first footprint is non-zero, and then the reduction times the first footprint is (first − current) × 100; at first = 0 it is NaN when current is 0 and +∞ when current is negative |
| `Dashboard.CalculateStats` | js/script.js:197-223 | an empty history gives all-zero stats; otherwise current is the last entry's emissions, trees × 21 = current × 12, the reduction compares the first entry with the current one, and the streak is `Streak(history)` |
| `Dashboard.LoadUserData` | js/script.js:179-187 | every card and the feed come from the user's own entries (`mine`, the log filtered to the user): the feed is the last min(5, n) of them, n being their number, newest first (`IsFeedOf`); the streak is `Streak(mine)`; when `mine` is non-empty the current footprint is its last entry's emissions and the reduction is measured against its first entry; trees × 21 = current × 12; each feed entry is a log entry of this user; a user with no entry in the log sees all-zero statistics and an empty feed; otherwise the user's last entry in the log gives the current footprint and heads the feed |
| `Dashboard.SingleEntryStats` | js/script.js:207-213 | a single non-zero entry shows itself as current, reduction 0 and streak 1 |
| `Dashboard.ReductionOfPositiveHistory` | js/script.js:211-213 | when all footprints are positive, the reduction is finite, below 100, and positive exactly when the current footprint is below the first |
| `Dashboard.SavedEntryIsShown` | js/script.js:179-187 | after an entry is appended for a user, that user's dashboard shows it as the current footprint and first in the activity feed |
| `Passwords.Score` | js/script.js:780-790 | the score is at most 6, at most 5 below 12 characters, at most 4 below 8 characters, and 0 for the empty password |
| `Passwords.CheckPasswordStrength` | js/script.js:779-799 | weak iff score ≤ 2, medium iff score is 3 or 4, strong iff score ≥ 5 |
| `Passwords.ShortPasswordNeverStrong` | js/script.js:783-797 | a password under 8 characters is never strong; the empty password is weak |
| `Passwords.FullScore` | js/script.js:780-790 | score 6 iff length ≥ 12 and the password has a lower-case letter, an upper-case letter, a digit and another character |
| `Passwords.StrengthExamples` | js/script.js:779-799 | "abc" is weak and "Abcdef12!" is strong |
| `Accounts.EmailTaken` | js/script.js:646 | true iff some stored account has exactly this email |
| `Accounts.RegisterCheck` | js/script.js:616-651 | registration passes iff all four fields are non-empty, the passwords match, the terms are accepted, the password is not weak, and no account has exactly that email |
| `Accounts.RegisterReportsFirstFailure` | js/script.js:616-651 | each error is reported exactly when every earlier check passed and its own failed, in the order empty field, mismatch, terms, weak password, duplicate email |
| `Accounts.AcceptedPasswordIsNotWeak` | js/script.js:632-637 | an accepted password scores at least 3: length ≥ 8 or three kinds of character |
| `Accounts.RegisterKeepsEmailsUnique` | js/script.js:644-665 | appending the account of a successful registration keeps emails unique |
| `Accounts.EmailCaseSensitive` | js/script.js:646 | with one account stored as "ana@mail.org", "Ana@mail.org" is not taken |
| `Accounts.FindUser` | js/script.js:578 | the result is the first account matching both email and password exactly, or none when no account matches |
| `Accounts.Authenticate` | js/script.js:565-578 | an empty field is refused first; otherwise login succeeds iff some account matches both fields exactly, returning the first stored account that matches (`FindUser`); with both fields filled, every failure is `InvalidCredentials` |
| `Accounts.AuthenticateByEmail` | js/script.js:577-584 | with unique emails the correct password returns that email's account and a wrong password gives invalid credentials |
| `Chatbot.ToLower` | js/script.js:1050 | same length; every ASCII capital becomes its small letter, no ASCII capital remains, and every other character is kept |
| `Chatbot.Contains` | js/script.js:1053-1074 | a contained pattern is no longer than the text, and a prefix is always contained |
| `Chatbot.ContainsAt` | js/script.js:1053-1074 | the text contains the pattern iff the pattern starts at some position of the text |
| `Chatbot.FirstQuestion` | js/script.js:1063-1067 | the result is the position of the first listed question the message contains, or none when it contains none |
| `Chatbot.GenerateResponse` | js/script.js:1049-1080 | greeting iff a greeting keyword occurs; farewell iff no greeting and a farewell keyword; an answer iff neither and some question occurs, and then it is the first listed one; thanks, help and default likewise in that order |
| `Chatbot.CaseInsensitive` | js/script.js:1050 | lower-casing the message first gives the same reply |
| `Chatbot.HiIsAlwaysGreeting` | js/script.js:1053-1055 | any message with "hi" anywhere, in any letter case, gets a greeting, before any question is tried |
| `Chatbot.WhichQuestionExample` | js/script.js:1053 | "Which diet is best?" gets a greeting |
| `Chatbot.Trim` | js/script.js:963 | the result is a slice of the input with only white space before and after it; it is empty iff the input is all white space, and otherwise starts and ends with other characters |
| `Chatbot.LeadingWhitespace` | js/script.js:963 | the count covers only white space and stops at the first other character |
| `Chatbot.TrailingWhitespace` | js/script.js:963 | the count covers only white space at the end and stops at the last other character |
| `Chatbot.TrimBounds` | js/script.js:963 | the cut points are ordered, everything after the end cut is white space, they meet only for an all-white-space input, and otherwise the characters just inside them are not white space |
| `Chatbot.SendMessage` | js/script.js:962-979 | an all-white-space input gets no reply; any other gets the reply to its trimmed text |
| `App.NewEntry` | js/script.js:502-508 | the entry carries the signed-in user's id and name, the calculation's total as its emissions, the calculation's details, and today's date |
| `App.AppState.constructor` | js/script.js:6-7 | a first start has no accounts, no session, no calculation and an empty log |
| `App.AppState.Calculate` | js/script.js:415-429 | the current calculation becomes the calculator's result; nothing else changes |
| `App.AppState.SaveFootprint` | js/script.js:489-513 | no session: refused, log unchanged; no calculation: refused, log unchanged; otherwise exactly one entry is appended, earlier entries untouched, with the session's user id and name, the calculation's total and details, and today's date |
| `App.AppState.Register` | js/script.js:606-680 | the verdict is `RegisterCheck` on the stored accounts; on success exactly one account is appended and signed in, otherwise accounts and session are unchanged; the invariant is kept |
| `App.AppState.Login` | js/script.js:558-603 | the verdict is `Authenticate`; on success the session is the matched account, otherwise it is unchanged |
| `App.AppState.Logout` | js/script.js:106-112 | the session is cleared and nothing else changes |

## Left out

- Rendering: DOM updates, Chart.js charts, alerts, page navigation, dark mode, the mobile menu, the password-visibility toggle and the strength bar are not modelled. They only display results.
- Storage: local storage and JSON serialisation are replaced by the fields of `AppState`. An absent key reads as an empty list (`JSON.parse(null)` is `null`, then `|| []`), so the model starts from an empty state. A corrupt stored value makes `JSON.parse` throw; nothing catches it and the handler stops. That uncaught exception is not modelled. Restoring a saved session at start-up (`checkAuthentication`) is not modelled.
- Timers: the delays before the register, login and chat results are not modelled, so each operation is atomic. The window between the duplicate-email check and the delayed append, in which a second registration could slip in, is therefore not captured.
- Randomness: the generated user id is a parameter. The random choice among canned greeting or farewell texts becomes the reply kind. The canned reply texts themselves are not modelled.
- Dates: dates are integer day numbers. Locale-formatted date strings, their re-parsing, the millisecond-to-day rounding (which can misbehave across daylight-saving changes) and unparseable dates are not modelled.
- Numbers: quantities are exact reals. Floating-point rounding and the `toFixed` display rounding are not modelled. Parsing the form fields (`parseFloat(...) || 0`) is left to the caller.
- Footprint.DietFactor: a category naming an inherited object property, such as "toString", would yield a non-number in the script. The model treats it as unlisted. Categories come from a fixed select list.
- Chatbot.ToLower: only ASCII letters are lower-cased, whereas JavaScript lower-cases all of Unicode.
- Passwords.Score: lengths count characters, whereas JavaScript counts UTF-16 code units, so the two differ for characters outside the Basic Multilingual Plane.
- Other features: the following are not modelled: `displayPersonalizedTips`, `createDashboardChart`, `downloadResults`, `shareProgress`, the calculator's tip highlighting, `getTimeBasedGreeting` and `updateUIForLoggedInUser`. They are presentation, or they use the clipboard, file download or the clock.
- Passwords are stored and compared in plain text, as in the script.
