# OtterCMS core, modelled in Dafny

OtterCMS is a desktop application for following individuals. Each individual has a unique number, a person in charge, and extra fields grouped into categories. Data is imported from spreadsheets, assigned to users in bulk, and audited field by field. This project models the application's logic that can be stated without the user interface, the database or the network. Each part is proved against specification functions and lemmas.

The model has four parts.

- **The data-access core (Rust).**
  - `Retry` is the exponential-backoff loop `execute_with_retry` and the way database commands feed it.
  - `Sync` is the `SyncManager` class. Its pending-changes flag and its change count come from an audit log, held as a sequence of rows with integer timestamps. A sync appends one marker row.
- **Parsers and normalisers.**
  - `SafeExpression` is the formula parser and evaluator. Recursive specification functions define the parser, and imperative methods with `while` loops are proved equal to them. A printer is proved to round-trip through the parser.
  - `InferType` turns a spreadsheet cell into a typed value. `DateFormat` writes `DD.MM.YYYY`. Both build on `Calendar`, which models `Date.UTC` with its roll-over of months and days, and on `JsValue`.
- **The main process** (`src/main.js`).
  - `IndividuAudit` covers creation and update of an individual and the audit entries they write.
  - `CategoryFields` covers `ensureFieldInCategorySync`.
  - `MassAssignment` covers distributing individuals to users by percentages.
  - `WindowsLogin` covers Windows single sign-on: lookup, auto-login, association, and the version number.
  - `main.js` at the root is an older copy of `src/main.js`. Where the two agree, the model follows `src/main.js`. They differ in two places. The login lookup has its own members. The individus table declares `numero_unique TEXT UNIQUE` in `src/main.js` but plain `TEXT` in `main.js`; the flag `IndividuAudit.IndividuStore.uniqueNumero` selects which.
- **The renderer's validators and state machines.**
  - `ImportMapping` and `ImportValidation` model the import screen.
  - `CategoryForm` models the category form.
  - `BorderTemplate` models the window-border service. `ConfigService` models the main process's border store.
  - `IndividuFiche` models edit rights and the monthly history of a field. `IndividusList` models the list: widths, filters, sort, column picker and paging. `DataTable` models the generic table's paging.
  - `PasswordStrength`, `OperationQueue` and `Permissions` each model one component. `Permissions` covers `hasPermission`, the tab lists of the layout and the sidebar, and the sidebar flag.
  - `MainContent` and `LegacyMainContent` model the navigation.
  - `NouvelIndividu` models the creation form. `MassAttributionWizard` models the bulk-assignment wizard.

Some screens exist twice: in the renderer and in an older copy under `src/components`.
- Where the copies differ, a `Copy` parameter (`Renderer` or `Legacy`) or separate members follow each one. This covers `ImportValidation`, `CategoryForm`, `IndividusList` paging and `LegacyMainContent`.
- Where the older copy is line for line the same, one member models both copies. The rows below cite the renderer's lines. The identical parts are:
  - the column widths, user names, filters and sort of `src/components/IndividusList.jsx` (lines 57-79, 121-130, 139-180 and 324-331);
  - the column action switch, options and template save of `src/components/ImportData.jsx` (lines 208-220, 236-239 and 249-259);
  - the tab click of `src/components/MainContent.jsx` (lines 199-211).

State follows the source's own form:
- Objects whose fields the source updates become classes with `modifies` clauses:
  - `Sync.SyncManager`, `Sync.AuditLog`, `BorderTemplate.BorderTemplateService`;
  - `MainContent.Navigation`, `NouvelIndividu.Form`, `MassAttributionWizard.Wizard`;
  - `OperationQueue.Queue`, `Permissions.Sidebar`.
- Loops become methods with invariants, proved against specification functions. Examples are the retry loop, the parser levels, the column scan of an import, the category checks, `computeHistory`, the list's filter pipeline and the mass-assignment slices.
- Pure code becomes functions and lemmas.

Foreign inputs are explicit parameters: the clock, `Math.random`, the preload bridge, the ids present in the tables that foreign keys reference, driver failures (as fault sets, where the model has them) and the replies of IPC calls. Strings are sequences of characters.

## Model

| member | source | states |
|---|---|---|
| Retry.ExecuteWithRetry | src-tauri/src/database/retry.rs:21-56 | At most `max_attempts` calls, and none (with "Max retries exceeded") when that is 0. The result is the last call's outcome. Every earlier call was lock contention, a stop before the limit means success or a non-retryable error, and the sleeps are exactly `calls − 1` delays `Delay(k)`. |
| Retry.DelayMonotone | src-tauri/src/database/retry.rs:41-44 | The delay `min(base·2^k, max)` never decreases with the attempt number and never exceeds `max_delay_ms`. |
| Retry.DefaultDelays | src-tauri/src/database/retry.rs:11-19 | With the default configuration (5, 100, 5000) the four possible sleeps are 100, 200, 400 and 800 ms. |
| Retry.LockedMessageRetryable | src-tauri/src/database/retry.rs:35-37 | "database is locked" is classified as contention. |
| Retry.BusyMessageRetryable | src-tauri/src/database/retry.rs:35-37 | "SQLITE_BUSY" is classified as contention whatever its case, since the message is lower-cased first. |
| Retry.IoErrorNotRetryable | src-tauri/src/database/retry.rs:48-50 | Any other message, such as a disk I/O error, is not retried. |
| Retry.Attempt | src-tauri/src/commands/mod.rs:11-16 | A connection failure inside the retried closure is the attempt's error; otherwise the attempt is the command run on that connection. |
| Retry.DbCommandWithRetry | src-tauri/src/commands/mod.rs:6-19 | Between 1 and 5 attempts. The result is the last attempt's outcome: the connection error, or what the command returned on the connection. The sleeps are the default delays 100, 200, 400, 800 ms, one before each retry. Each retried attempt failed on contention, whether from the connection or from the command, and a stop before 5 attempts means the last outcome was not contention. |
| Sync.LastSyncTime | src-tauri/src/commands/sync.rs:39 | `MAX(date_modif)` over the 'sync' rows: absent iff there is no such row, otherwise the time of one of them and at least the time of each. |
| Sync.After | src-tauri/src/commands/sync.rs:39 | Keeps exactly the rows strictly after the boundary, each at most as often as in the table. |
| Sync.SyncQuery | src-tauri/src/commands/sync.rs:58-66 | The sync query returns the pending rows, all of them and nothing else, sorted ascending by `date_modif`. |
| Sync.PendingIff | src-tauri/src/commands/sync.rs:37-47 | Rows are pending iff some row's `date_modif` is strictly greater than the boundary (the last sync, or 1970-01-01). |
| Sync.EmptyTableNotPending | src-tauri/src/commands/sync.rs:39 | An empty table has nothing pending. |
| Sync.Marker | src-tauri/src/commands/sync.rs:71-74 | The marker row has individu_id 0, champ 'sync', action 'sync' and the current time. |
| Sync.MarkerClearsPending | src-tauri/src/commands/sync.rs:39-75 | After a marker at least as late as every row, the boundary is the marker's time, nothing is pending, and a second sync selects no row. |
| Sync.AfterNone | src-tauri/src/commands/sync.rs:39 | No row is after a bound that every row's time reaches. |
| Sync.AuditLog.constructor | src-tauri/src/commands/sync.rs:21-24 | The table starts with the given rows and next id. |
| Sync.FirstFailure | src-tauri/src/commands/sync.rs:55-75 | The error reported is that of the first failing step in execution order, and there is none iff no step fails. |
| Sync.SyncManager.constructor | src-tauri/src/commands/sync.rs:27-32 | A new manager has no last sync. |
| Sync.SyncManager.GetSyncStatus | src-tauri/src/commands/sync.rs:34-53 | Each failing `?` step is returned as the error, in order. On success it reports `last_sync` unchanged, no error, and `pending_changes` iff rows are pending and the first-row read did not fail. |
| Sync.SyncManager.PerformSync | src-tauri/src/commands/sync.rs:55-83 | A failure before COMMIT completes returns that error and leaves the table and `last_sync` unchanged. Otherwise exactly one marker row is appended, `last_sync` is set, and `changes_count` is the number of pending rows, cut short at a failed row read. |
| SafeExpression.SkipSpaces | src/renderer/utils/safeExpression.js:4-6 | Moves past spaces, tabs and newlines only: the index never goes back or past the end, and it stops at the end or at a character that is none of those. |
| SafeExpression.DigitRun | src/renderer/utils/safeExpression.js:29 | Counts the decimal digits from `j`, stopping at the end or at a non-digit. |
| SafeExpression.NumberLength | src/renderer/utils/safeExpression.js:29 | The length of the match of the number pattern at `j`: digits, then a point and more digits only when both are there. It stays within the text, and it is 0 exactly when no digit stands at `j`. |
| SafeExpression.DigitRunDigits | src/renderer/utils/safeExpression.js:29 | The characters counted are all digits. |
| SafeExpression.FindQuote | src/renderer/utils/safeExpression.js:22-24 | The first closing quote at or after `k`, or the end when there is none. |
| SafeExpression.MatchOp | src/renderer/utils/safeExpression.js:53-124 | A recognised operator is one to three characters long, lies within the text, belongs to the level whose loop tests it, and starts with a character of that level. |
| SafeExpression.ParsePrimary | src/renderer/utils/safeExpression.js:8-39 | A primary that parses is a literal and consumes at least one character. |
| SafeExpression.StringAt | src/renderer/utils/safeExpression.js:18-28 | A string literal runs from its quote to the same quote and is a literal. |
| SafeExpression.KeywordAt | src/renderer/utils/safeExpression.js:34-38 | True, false, null and undefined are matched as prefixes in that order, and each yields a literal. |
| SafeExpression.ParseUnary | src/renderer/utils/safeExpression.js:41-46 | A unary that parses consumes at least one character. |
| SafeExpression.ParseLevel | src/renderer/utils/safeExpression.js:48-130 | Each binary level (logical or, logical and, equality, comparison, additive, multiplicative) reads one operand and then runs its loop. A success ends after the start and within the text. |
| SafeExpression.LevelLoop | src/renderer/utils/safeExpression.js:50-57 | The `while (true)` of a level never moves the index backwards or past the end. |
| SafeExpression.ParseTernary | src/renderer/utils/safeExpression.js:132-145 | The ternary level consumes at least one character when it parses. |
| SafeExpression.LevelNormal | src/renderer/utils/safeExpression.js:48-130 | Every tree a level returns obeys the precedence ladder and is at that level or tighter. |
| SafeExpression.LoopNormal | src/renderer/utils/safeExpression.js:50-57 | Each turn of a loop wraps the tree built so far as `left`, so the result stays left-associative. |
| SafeExpression.ParseNormal | src/renderer/utils/safeExpression.js:1-151 | Whatever the parser returns uses known operators, nests them by precedence and associativity, and holds no conditional. |
| SafeExpression.MatchOpExact | src/renderer/utils/safeExpression.js:78-100 | Longer operators are matched first: a printed `>=`, `===` or `!==` is read as itself, not as a shorter prefix. |
| SafeExpression.StringRoundTrip | src/renderer/utils/safeExpression.js:18-28 | A quoted text with no quote inside reads back as the same string literal. |
| SafeExpression.NumberRoundTrip | src/renderer/utils/safeExpression.js:29-33 | A whole number's digits read back as the same number. |
| SafeExpression.KeywordRoundTrip | src/renderer/utils/safeExpression.js:34-37 | Each keyword reads back as its literal. |
| SafeExpression.PrimaryRoundTrip | src/renderer/utils/safeExpression.js:8-39 | A printed literal is read back as that literal, ending where its text ends. |
| SafeExpression.UnaryRoundTrip | src/renderer/utils/safeExpression.js:41-46 | A printed chain of `!` and `-` over a literal reads back as the same tree. |
| SafeExpression.OperandRoundTrip | src/renderer/utils/safeExpression.js:48-130 | A level reads its printed operand back as the same tree. |
| SafeExpression.OperatorAt | src/renderer/utils/safeExpression.js:48-130 | A printed operator followed by a printed operand is recognised as that operator by its own level and stops every tighter level. |
| SafeExpression.LevelRoundTrip | src/renderer/utils/safeExpression.js:48-130 | A level parses a printed tree of that level or tighter back to the same tree. |
| SafeExpression.RoundTrip | src/renderer/utils/safeExpression.js:1-151 | Every normal tree with whole-number literals is parsed back from its printed text, which fixes the precedence ladder and left associativity. |
| SafeExpression.LeftAssociative | src/renderer/utils/safeExpression.js:61-72 | `1-2-3` parses as `(1-2)-3`. |
| SafeExpression.MultiplicationBindsTighter | src/renderer/utils/safeExpression.js:48-72 | `1+2*3` parses as `1+(2*3)`. |
| SafeExpression.LeadingErrorPropagates | src/renderer/utils/safeExpression.js:48-130 | An error in the first operand is the error of every level above it. |
| SafeExpression.LeadingParenthesisFails | src/renderer/utils/safeExpression.js:11-16 | An input that starts with `(` always fails, because the inner `parseExpression()` has no argument. |
| SafeExpression.TernaryFails | src/renderer/utils/safeExpression.js:135-142 | A `?` after the condition makes `parseExpression` be called with no argument, so the whole parse fails with that error rather than building a conditional. |
| SafeExpression.UnclosedStringFails | src/renderer/utils/safeExpression.js:25 | `'abc` fails with "Unclosed string". |
| SafeExpression.SingleOperand | src/renderer/utils/safeExpression.js:48-130 | An operand followed by text that starts no operator is the whole result of every level. |
| SafeExpression.TrailingInputFails | src/renderer/utils/safeExpression.js:147-149 | For all whole numbers m and n, `m n` (such as `1 2`) fails with "Unexpected input" at the index of `n`: the whole input must be consumed. |
| SafeExpression.Evaluate | src/renderer/utils/safeExpression.js:153-191 | A literal evaluates to its value, and an unknown node type throws "Unknown node type". |
| SafeExpression.AndShortCircuits | src/renderer/utils/safeExpression.js:182 | `&&` with a falsy left operand returns it, whatever the right operand is, even one that would fail. |
| SafeExpression.OrShortCircuits | src/renderer/utils/safeExpression.js:183 | A logical or whose left operand evaluates to a truthy value returns that value, whatever the right operand is. |
| SafeExpression.LogicalTakesRight | src/renderer/utils/safeExpression.js:182-183 | Otherwise both operators return the right operand's outcome. |
| SafeExpression.ConditionalChoosesOneBranch | src/renderer/utils/safeExpression.js:186-187 | A conditional evaluates only the chosen branch; the other one may even fail. |
| SafeExpression.UnknownOperatorsFail | src/renderer/utils/safeExpression.js:158-184 | An unknown unary or logical operator throws before its operands are evaluated. An unknown binary operator throws only after both operands succeed, and a failing left operand's error comes first. |
| SafeExpression.SpellingInjective | src/renderer/utils/safeExpression.js:164-184 | The binary and logical operators are told apart by their strings alone: two well-spelled operators, whose `OtherOp` never holds one of the fifteen known strings, have the same spelling exactly when they are the same operator. |
| SafeExpression.UnarySpellingInjective | src/renderer/utils/safeExpression.js:158-160 | The same for unary operators: `!`, `-`, and any other string. |
| SafeExpression.NormalEvaluates | src/renderer/utils/safeExpression.js:153-191 | A tree of known operators never reaches an evaluator error. |
| SafeExpression.ParsedEvaluates | src/renderer/utils/safeExpression.js:153-191 | Every tree the parser returns evaluates without an evaluator error. |
| SafeExpression.SkipSpacesAt | src/renderer/utils/safeExpression.js:4-6 | The `while` loop that skips spaces stops where `SkipSpaces` does. |
| SafeExpression.ReadString | src/renderer/utils/safeExpression.js:22-24 | The loop collecting a string literal reads exactly the characters up to the closing quote. |
| SafeExpression.ParsePrimaryAt | src/renderer/utils/safeExpression.js:8-39 | The imperative `parsePrimary` returns what `ParsePrimary` specifies. |
| SafeExpression.ParseUnaryAt | src/renderer/utils/safeExpression.js:41-46 | The imperative `parseUnary` returns what `ParseUnary` specifies. |
| SafeExpression.OperandAt | src/renderer/utils/safeExpression.js:48-130 | The operand of each level is read as specified. |
| SafeExpression.ParseLevelAt | src/renderer/utils/safeExpression.js:48-130 | Each level's `while (true)` over a shared index returns what `ParseLevel` specifies. |
| SafeExpression.ParseExpression | src/renderer/utils/safeExpression.js:1-151 | `parseExpression` with its shared mutable index returns exactly `Parse(s)`, so every property proved of `Parse` holds of it. |
| Calendar.DaysInMonth | utils/inferType.js:55 | A month has 28 to 31 days, February has 29 exactly in leap years, and December and January have 31. |
| Calendar.RollDays | utils/inferType.js:55 | A day past the month's end or below 1 rolls into the following or preceding months and always yields a valid date. A day within the month is kept. |
| Calendar.FromParts | utils/inferType.js:55 | The date a `Date` built from a year, a 0-based month index and a day shows is always a valid calendar date. |
| Calendar.UtcYear | utils/inferType.js:55 | `Date.UTC` reads a year of 0..99 as 1900 plus that year and keeps every other year. |
| Calendar.DateUtc | utils/inferType.js:55 | `new Date(Date.UTC(y, m, d))` always shows a valid date. |
| Calendar.FromValidParts | utils/inferType.js:55 | A valid date built from its own parts comes back unchanged. |
| Calendar.DateUtcValid | utils/inferType.js:55 | `Date.UTC` of a valid date outside the years 0..99 is that date. |
| Calendar.DateUtcEarly | utils/inferType.js:55 | `Date.UTC` of a valid date in the years 0..99 is the same day 1900 years later. |
| Calendar.RollStaysInYear | utils/inferType.js:54-55 | A day of 1..31 never leaves its year: it is kept or moves into the next month of the same year. |
| Calendar.LeapRollOver | utils/inferType.js:55 | 30 February rolls over to 1 March in 2024 and to 2 March in 2023. |
| Calendar.RollBackwards | utils/inferType.js:55 | Day 0 is the last day of the previous month, and month index -1 is the December before. |
| Calendar.PivotYear | utils/inferType.js:43 | A two-digit year below 50 is in the 2000s and one from 50 to 99 in the 1900s. Larger years are kept, so the result is at least 100. |
| Calendar.DayMonth | utils/inferType.js:45-52 | The first part is the day when it is over 12; otherwise the second part is the day when it is over 12; otherwise the first part is the day. |
| Calendar.DayMonthChoice | utils/inferType.js:45-52 | Day and month are the two parts in one order or the other, and they are swapped exactly when only the second part is over 12. |
| Calendar.Pad4 | utils/inferType.js:34 | A year below 10000 prints as four digits. |
| Calendar.IsoText | utils/inferType.js:30 | `YYYY-MM-DD` text is ten characters long: the zero-padded year, month and day separated by dashes. |
| Calendar.FourDigitYear | utils/inferType.js:34 | A year of 1000..9999 prints the same way with or without padding. |
| Calendar.IsoDate | utils/inferType.js:34 | `toISOString().split('T')[0]` of a valid date is ten characters: the padded month and day in positions 5-6 and 8-9. |
| Calendar.SplitDotted | utils/inferType.js:38 | The pieces found are two groups of one or two digits and one group of two to four digits, joined by `.`, `/` or `-`, and they make up the whole text. |
| Calendar.MatchDotted | utils/inferType.js:38-42 | A match is the `parseInt` of the three groups of a text of that shape. |
| Calendar.SplitOfText | utils/inferType.js:38 | Text of the dotted shape is always matched, into its own pieces. |
| Calendar.DottedOfText | utils/inferType.js:38-42 | Text of the dotted shape always matches, with its own three numbers. |
| Calendar.IsoPrefix | src/renderer/utils/date.js:13 | A match exists exactly when the text starts with four digits, a dash, two digits, a dash and two digits, and it holds those three numbers. |
| Calendar.IsoTextParts | utils/inferType.js:30 | `YYYY-MM-DD` text reads back as its own year, month and day. |
| JsValue.Unsigned | utils/inferType.js:25 | An optional leading `-` is split off. |
| JsValue.MatchDecimal | utils/inferType.js:25-27 | `/^-?\d+(\.\d+)?$/` with `Number`: a match is an optional sign, a run of digits and an optional fraction, and its value is the signed decimal they spell. |
| JsValue.MatchDecimalText | utils/inferType.js:25-27 | Every text of that shape matches, with that value. |
| JsValue.MatchNatText | utils/inferType.js:25-27 | The digits of a natural number read back as that number. |
| JsValue.NotDecimal | utils/inferType.js:25 | Digits followed by a character other than a digit, and another non-digit later, form no number. |
| InferType.MatchIso | utils/inferType.js:30 | Ten characters of the `\d{4}-\d{2}-\d{2}` shape match, and only those, with their three numbers. |
| InferType.IsoDateOf | utils/inferType.js:31-35 | `new Date(t + 'T00:00:00Z')` is valid exactly when the month is 1..12 and the day 1..31. It keeps the year, and it keeps the whole date when the date is real. |
| InferType.DottedDate | utils/inferType.js:39-59 | A dotted date is produced exactly when day and month are within 1..31 and 1..12. Its year is the pivoted year, which lies in 100..9999. |
| InferType.TextDate | utils/inferType.js:30-60 | The ISO test runs first, then the dotted test. A date found has a year of 0..9999. |
| InferType.InferText | utils/inferType.js:17-62 | Blank text gives `null`. A null result means blank text or a null word, and a boolean means the trimmed lower-cased text was `true` or `false`. A number comes from the decimal pattern. A string is the input itself or the ISO form of the date it spells. |
| InferType.InferType | utils/inferType.js:1-15 | `null` and `undefined` give `null`. Numbers, booleans and other non-strings are returned as they are, strings go through the text rules, and a `Date` gives a string. |
| InferType.DigitLeadNoWord | utils/inferType.js:20-23 | Text that starts with a digit is never one of the words. |
| InferType.Words | utils/inferType.js:21-23 | `true` and `false` in any case give booleans, and `null`, `undefined`, `vide`, `na` and `n/a` give `null`. |
| InferType.NaturalIsNumber | utils/inferType.js:25-27 | The digits of any natural number give that number. |
| InferType.DecimalIsNumber | utils/inferType.js:17-28 | The converse of the number rule: every trimmed text matching `-?\d+(\.\d+)?`, such as `-3.5` or `1.25`, becomes the number it spells. Its sign or leading digit rules out the words tested before it. |
| InferType.NumberBranch | utils/inferType.js:17-28 | Non-blank trimmed text that is none of the words and matches the decimal pattern becomes its number. |
| InferType.YearIsNumber | utils/inferType.js:25-31 | `2024` is a number, not a date. |
| InferType.InferIso | utils/inferType.js:30-36 | `YYYY-MM-DD` becomes the ISO form of that date, rolled over, when the month is 1..12 and the day 1..31; otherwise it stays as it is. |
| InferType.TextDateIso | utils/inferType.js:30-36 | ISO text takes the ISO branch. |
| InferType.IsoIdempotent | utils/inferType.js:30-36 | The ISO form of a valid date is returned unchanged. |
| InferType.IsoRollOver | utils/inferType.js:30-36 | `2024-02-30` becomes `2024-03-01`, while `2024-13-01` stays as it is. |
| InferType.DateTests | utils/inferType.js:30-62 | Digit-led text that is no number becomes the date it spells, or stays as it is. |
| InferType.InferDotted | utils/inferType.js:38-62 | Dotted text becomes the ISO form of its pivoted, day-first date when day and month are in range; otherwise it stays as it is. |
| InferType.TextDateDotted | utils/inferType.js:38-59 | Dotted text takes the dotted branch. |
| InferType.DottedValidDate | utils/inferType.js:38-59 | Dotted text of a real date becomes that date's ISO text. |
| InferType.PlainText | utils/inferType.js:62 | Text that starts with neither a digit, a `-` nor a space, and is none of the words, comes back unchanged. |
| InferType.InvalidDateText | utils/inferType.js:62 | `Invalid Date` is returned as it is. |
| InferType.InferTypeIdempotent | utils/inferType.js:1-62 | Inferring twice gives what inferring once gives. |
| InferType.InferTextIdempotent | utils/inferType.js:17-62 | Whatever the text rules give is a fixed point of `inferType`. |
| InferType.InferDateIdempotent | utils/inferType.js:5-13 | A valid `Date` gives its local `YYYY-MM-DD` text, and that text is a fixed point. |
| DateFormat.DottedDay | src/renderer/utils/date.js:39-43 | The output is `DD.MM.YYYY`: the padded day, a dot, the padded month, a dot and the year. |
| DateFormat.TextDate | src/renderer/utils/date.js:11-37 | Text with an ISO prefix always gives a date. Text matching neither pattern is left to the host's `new Date(text)`. |
| DateFormat.DateOf | src/renderer/utils/date.js:4-38 | `null`, `undefined`, booleans and other values give no date. A `Date` gives one only when it is valid. |
| DateFormat.FormatDate | src/renderer/utils/date.js:3-46 | Empty values and non-dates are returned as they are. Whatever has a date becomes its `DD.MM.YYYY` text. |
| DateFormat.IsoPrefixOf | src/renderer/utils/date.js:13 | An ISO prefix is matched whatever text follows it. |
| DateFormat.FormatText | src/renderer/utils/date.js:11-45 | A non-empty string becomes the `DD.MM.YYYY` of its date, or stays as it is when it has none. |
| DateFormat.FormatIso | src/renderer/utils/date.js:13-15 | An ISO-prefixed string is formatted through `Date.UTC`, so an out-of-range day rolls over. |
| DateFormat.FormatValidIso | src/renderer/utils/date.js:13-15 | A real ISO date of the years 100..9999 keeps its day, month and year. |
| DateFormat.FormatIsoEarlyYear | src/renderer/utils/date.js:15 | An ISO date of the years 0..99 is moved 1900 years later. |
| DateFormat.FormatDotted | src/renderer/utils/date.js:18-32 | Dotted text is formatted as its pivoted, day-first date through `Date.UTC`, with no range test. |
| DateFormat.DottedRollOver | src/renderer/utils/date.js:25-32 | `31.02.2024` becomes the 2nd of March. |
| DateFormat.FormatDayIdempotent | src/renderer/utils/date.js:18-43 | `DD.MM.YYYY` output is formatted to itself. |
| DateFormat.DottedDayParts | src/renderer/utils/date.js:13-18 | `DD.MM.YYYY` output has no ISO prefix and matches the dotted pattern with its own numbers. |
| DateFormat.FormatIdempotent | src/renderer/utils/date.js:3-46 | Formatting twice gives what formatting once gives, for four-digit years. |
| IndividuAudit.Keys | src/main.js:1175-1176 | `Object.keys` lists every property's key, in order. |
| IndividuAudit.Get | src/main.js:1182-1183 | A property lookup is `undefined` exactly when the key is absent; otherwise it is that key's value. |
| IndividuAudit.ShowMissing | src/main.js:1182-1183 | `String(v === undefined ? '' : v)`: a missing value shows as the empty string, a present one as its text. |
| IndividuAudit.IdOf | src/main.js:1157-1158 | An id is `null` or an integer. It is an integer exactly when the value is not `''` and `parseInt` reads a number from it, and the integer is that number. |
| IndividuAudit.UpdatedRow | src/main.js:1156-1164 | An update keeps each absent column and stores the trimmed number, the parsed person in charge, the parsed category and the new extras (`{}` when missing). The deleted flag is kept. |
| IndividuAudit.CoreEntry | src/main.js:1168-1170 | A core column is audited exactly when the texts of its old and new values differ, with both texts; two falsy values are never audited. |
| IndividuAudit.SetAddContents | src/main.js:1173-1176 | Adding keys to a `Set` keeps the order of first insertion, holds no duplicates and holds exactly the old and the new keys. |
| IndividuAudit.SetAddDistinct | src/main.js:1175 | Adding distinct keys to an empty `Set` keeps them in their order. |
| IndividuAudit.UnionKeysContents | src/main.js:1173-1176 | The keys walked are distinct and are exactly those of the new or the old extras. |
| IndividuAudit.ExtraEntry | src/main.js:1181-1185 | At most one entry per key, for that key. |
| IndividuAudit.ExtraEntriesMembers | src/main.js:1181-1185 | An entry is written exactly for a walked key whose old and new texts differ, and it carries those two texts. |
| IndividuAudit.UpdateExtraEntry | src/main.js:1167-1185 | An update audits an extra field, other than the three core columns, exactly when the field is old or new and its text changed. |
| IndividuAudit.ExtraEntriesChamps | src/main.js:1181-1185 | Every entry names a walked key. |
| IndividuAudit.ExtraEntriesDistinct | src/main.js:1181-1185 | No key is audited twice. |
| IndividuAudit.ExtraEntriesSame | src/main.js:1181-1185 | Identical extras give no entries. |
| IndividuAudit.UpdateUnchanged | src/main.js:1167-1185 | Writing a row onto itself audits nothing. |
| IndividuAudit.DiffUpdate | src/main.js:1167-1185 | The `push` sequence for an update builds exactly the specified entries. |
| IndividuAudit.CollectKeys | src/main.js:1173-1176 | The two `forEach` loops build exactly the specified key union. |
| IndividuAudit.DiffExtras | src/main.js:1181-1185 | The loop over the keys builds exactly the specified extra entries. |
| IndividuAudit.CreatedRow | src/main.js:1195-1208 | A creation stores a number string, the parsed person in charge or `null`, the parsed category or `null`, and the extras (`{}` when missing), and the row is not deleted. |
| IndividuAudit.CreatedNumeroTrimmed | src/main.js:1195 | The stored number is already trimmed. |
| IndividuAudit.CreatedExtrasMembers | src/main.js:1220-1225 | A creation audits exactly the extra properties that are neither `null` nor empty text, with their text. |
| IndividuAudit.CreationEntriesShape | src/main.js:1214-1225 | Every creation entry has no old value and a non-empty new value. |
| IndividuAudit.CreatedRowEntries | src/main.js:1195-1225 | This holds for every row a creation builds. |
| IndividuAudit.DiffCreate | src/main.js:1214-1228 | The `push` sequence for a creation builds exactly the specified entries. |
| IndividuAudit.DiffCreatedExtras | src/main.js:1220-1225 | The `Object.entries` loop builds exactly the specified extra entries. |
| IndividuAudit.AuditRows | src/main.js:1189-1192 | One audit row per entry, in order, with the individual's id, the user, the action and the import file. |
| IndividuAudit.Inserted | src/main.js:1188-1191 | The audit loop writes the rows whose insert does not throw, skipping the others, in order: all of them when none throws, none when all throw. |
| IndividuAudit.IndividuStore.constructor | src/main.js:510-524 | An empty table, with the `UNIQUE` constraint on the number or without it, over the given ids of users and categories that the foreign keys reference. |
| IndividuAudit.IndividuStore.Live | src/main.js:1139-1140 | The row read by id exists and is not deleted. |
| IndividuAudit.IndividuStore.Logged | src/main.js:1188-1191 | A user id naming no user makes every audit insert fail, so nothing is written; with a known user and no other failure every row is written. |
| IndividuAudit.IndividuStore.AddOrUpdate | src/main.js:1128-1244 | A failure leaves both tables as they were. An id that is not live fails with "non trouvé ou supprimé". Otherwise the update or the creation is done as specified, and a failed audit insert is skipped without failing the call. |
| IndividuAudit.IndividuStore.Update | src/main.js:1138-1193 | A `UNIQUE` clash fails, then a person in charge or a category that does not exist fails with "FOREIGN KEY constraint failed"; both change nothing. Otherwise the row is replaced, and one audit row per changed field, action `update` or `import_update`, is written unless its insert fails. The result is one change of type `update`. |
| IndividuAudit.IndividuStore.Create | src/main.js:1194-1235 | A number already taken fails with "existe déjà", then a `UNIQUE` clash fails, then a person in charge or a category that does not exist fails with "FOREIGN KEY constraint failed"; all change nothing. Otherwise the new row is stored under the new id with its creation audit rows, action `create` or `import_create`, less those whose insert fails. |
| IndividuAudit.WriteKeepsNumerosDistinct | src/main.js:510-517 | Writing a row whose number no other row holds keeps the numbers distinct. |
| CategoryFields.OrFalse | src/main.js:1275 | `obligatoire` falls back to `false`: the result is truthy exactly when the given value is. |
| CategoryFields.Normalise | src/main.js:1270-1281 | The new definition has the trimmed key, the trimmed label (the key when the label is falsy), a truthy type, `ordre` 0 when missing, and `visible` true when missing. Options appear only for lists and a `maxLength` only for text types with a `maxLength`. |
| CategoryFields.ByOrdre | src/main.js:1290 | The sort comparator orders by `ordre` and is a total preorder. |
| CategoryFields.Ensure | src/main.js:1266-1292 | A definition is added exactly when no field has the raw key. Otherwise the list is unchanged. When it is added, the new list is the old one plus the normalised definition, as a multiset. |
| CategoryFields.EnsureSorted | src/main.js:1289-1291 | A list that changed is written sorted by `ordre`. |
| CategoryFields.HasKeyAfter | src/main.js:1266-1283 | After the call a key is present exactly when it was before or it is the new definition's key. |
| CategoryFields.HasKeyPermutation | src/main.js:1290 | Sorting does not change which keys are present. |
| CategoryFields.HasKeyAppend | src/main.js:1282 | Appending a definition adds exactly its key. |
| CategoryFields.EnsureTwice | src/main.js:1266-1293 | For an already trimmed key a second call finds the field and changes nothing. |
| CategoryFields.SpacedKeyAppendedAgain | src/main.js:1266-1271 | A key with surrounding spaces is stored trimmed but looked up raw, so every call appends it again. |
| CategoryFields.CategoryTable.constructor | src/main.js:1252 | The table holds the given categories. |
| CategoryFields.CategoryTable.EnsureFieldInCategory | src/main.js:1248-1294 | A missing category fails with "not found during field creation". A `champs` that is not an array fails in `findIndex`. Otherwise the call reports whether a definition was added and writes back exactly the specified list. A failure or no addition changes nothing. |
| MassAssignment.ActiveRules | src/main.js:1786 | The active rules are, in order, the rules with a defined user and a positive percentage, and every such rule is among them. |
| MassAssignment.TotalPositive | src/main.js:1796-1798 | Active rules have a positive total percentage, so the `total > 0` test always passes. |
| MassAssignment.RuleUser | src/main.js:1802-1806 | `''` means no user. An integer id is that user. `null` or undefined is an invalid rule. |
| MassAssignment.Shares | src/main.js:1801-1802 | Each active rule is paired with its parsed user, in order. |
| MassAssignment.Run | src/main.js:1809-1812 | A rule takes the next consecutive positions of the shuffled list for its user. |
| MassAssignment.Slices | src/main.js:1801-1813 | The percentage pass takes consecutive positions from the current index onward and never goes past the list's end. |
| MassAssignment.Remainder | src/main.js:1814-1824 | The round-robin pass assigns positions left after the percentage pass, in increasing order. |
| MassAssignment.Distribute | src/main.js:1796-1824 | Both passes together assign each position of the list at most once, in increasing order. |
| MassAssignment.AtPositions | src/main.js:1810 | Each assignment gives the individual at its position in the shuffled list to its step's user. |
| MassAssignment.AtMostOnce | src/main.js:1786-1830 | No individual is assigned twice. |
| MassAssignment.RemainderCovers | src/main.js:1814-1824 | When every rule is valid, the round-robin pass assigns every remaining position exactly once. |
| MassAssignment.SlicesNoErrors | src/main.js:1803-1806 | Valid rules record no error. |
| MassAssignment.AllValidCovered | src/main.js:1796-1824 | With valid active rules no error is recorded and every position of the list is assigned once. |
| MassAssignment.SliceLoop | src/main.js:1801-1813 | The `for ... of` over the rules builds exactly the specified assignments and errors. |
| MassAssignment.SliceRule | src/main.js:1802-1812 | One turn of that loop handles its rule as specified: the `continue` for an invalid user, otherwise a run of positions. |
| MassAssignment.TakeRun | src/main.js:1809-1812 | The inner loop takes `min(count, remaining)` positions, or none for a count below 1. |
| MassAssignment.RemainderLoop | src/main.js:1814-1824 | The `while` loop assigns exactly the specified remainder; invalid users are skipped while the index still moves on. |
| MassAssignment.ComputeAssignments | src/main.js:1783-1830 | The assignment phase computes exactly the specified assignments and errors. |
| MassAssignment.EnChargeText | src/main.js:1848 | A `null` person in charge shows as the empty string, any other as its text. |
| MassAssignment.UserText | src/main.js:1848 | No user shows as the empty string, a user as its id. |
| MassAssignment.UserJson | src/main.js:1834 | The stored value shows as the assigned user. |
| MassAssignment.ApplyAll | src/main.js:1844-1857 | Applying the assignments keeps the set of rows and the deleted flags. |
| MassAssignment.Logging | src/main.js:1837-1838 | A manager id naming no user makes the audit insert of every found individual fail; a known manager leaves the given faults as they are. |
| MassAssignment.ApplyCounts | src/main.js:1832-1857 | At most one audit row per update: exactly one when no audit insert fails, none when every one fails, and a failed insert still counts the update. At most one update or error per assignment. Earlier audit rows and errors are kept as a prefix. |
| MassAssignment.ApplyFrame | src/main.js:1844-1857 | An individual no assignment names is left as it was. |
| MassAssignment.ApplyReaches | src/main.js:1832-1857 | Each assigned live individual without a fault ends with the assigned user. |
| MassAssignment.ApplyOneWrites | src/main.js:1832-1842 | One assignment writes its user to a live row without a fault. |
| MassAssignment.ApplyAssignments | src/main.js:1844-1857 | The loop over the assignments leaves the store, count and errors exactly as specified. |
| MassAssignment.ApplyAssignment | src/main.js:1832-1857 | One assignment runs its own transaction against the store. The rows, audit, count and errors change exactly as the specified step says; a failed audit insert is skipped. |
| MassAssignment.Summary | src/main.js:1859-1862 | The call succeeds exactly when there are no errors or at least one update, and it reports the update count and the errors. |
| MassAssignment.Before | src/main.js:1771-1781 | The snapshot holds the previous person in charge of every selected live individual. |
| MassAssignment.NoneFound | src/main.js:1772-1777 | The `SELECT` of the selected live rows returns nothing exactly when no selected id names a live row. |
| MassAssignment.Mass | src/main.js:1761-1868 | With the found ids being the selected live rows, an empty selection, a missing manager and a selection without a live individual each fail with their own message and change nothing. A failure never reports updates. |
| MassAssignment.AttribuerEnMasse | src/main.js:1761-1868 | The imperative handler returns and stores exactly what `Mass` specifies. |
| MassAssignment.AssignmentsFromFound | src/main.js:1780-1830 | Only individuals that were found are assigned. |
| MassAssignment.MassApplies | src/main.js:1780-1857 | Once the checks pass, the table is the result of applying the computed assignments to the snapshot. |
| MassAssignment.MassReaches | src/main.js:1761-1857 | Every assigned individual without a fault ends with the assigned user. |
| MassAssignment.UnassignAllClears | src/main.js:1787-1793 | With no distribution, or one of null users at 0 %, every found individual without a fault ends with no person in charge. |
| MassAssignment.UnknownManagerLogsNothing | src/main.js:1765-1838 | A manager id that is neither missing nor a known user passes the check, and then no audit row is written at all. |
| MassAssignment.KnownManagerLogsEach | src/main.js:1832-1838 | With a known manager and no other failing insert, the audit grows by exactly the number of updates. |
| MassAssignment.AllValidAssignsEveryone | src/main.js:1794-1824 | With valid active rules every found individual is assigned, and no error is recorded. |
| WindowsLogin.LoginKey | src/main.js:847-856 | The lookup key is non-empty, holds no backslash and is lower case. There is no lookup exactly when nothing follows the last backslash of the trimmed name. |
| WindowsLogin.LegacyLoginKey | main.js:302-307 | The older copy's key is the trimmed, lower-cased name. There is no lookup exactly when the name is blank. |
| WindowsLogin.StoredLogin | src/main.js:985-993 | The stored login is non-empty, trimmed and holds no backslash. It is `null` exactly when the part after the last backslash is blank. |
| WindowsLogin.StoredLoginIdempotent | src/main.js:988-992 | Associating a stored login again stores the same login. |
| WindowsLogin.FindUser | src/main.js:856 | A user found is live and has a login equal to the key, ignoring case. No user is found only when there is no key or no live user matches. |
| WindowsLogin.Associate | src/main.js:993-997 | It fails with "User not found or Windows login already up to date." exactly when no live user has the id. Otherwise only that user's login changes, to the stored form. |
| WindowsLogin.AutoLogin | src/main.js:880-902 | An empty name fails with "Windows username not provided". A user logged in is live, in the table, and has a stored login whose lower-cased form is the key of the name without its domain. Otherwise a non-empty name fails with "No user associated with this Windows account", exactly when no live user's lower-cased login is that key. |
| WindowsLogin.LegacyAutoLogin | main.js:319-334 | The same for the older copy, whose key is the whole name trimmed and lower-cased. |
| WindowsLogin.AutoLoginKeyMatchesStored | src/main.js:884-890 | The key auto-login looks up is the lower-cased login `associer` stores. |
| WindowsLogin.FindUserFinds | src/main.js:856 | A live user whose login matches the key is found. |
| WindowsLogin.AssociateThenAutoLogin | src/main.js:880-1002 | After an association, auto-login with the same Windows name succeeds, with a user whose login is the stored one. |
| WindowsLogin.AssociateKeepsNoDomain | src/main.js:988-993 | Associations never store a domain-qualified login. |
| WindowsLogin.LegacyMissesDomainLogin | main.js:302-307 | In the older copy a `DOMAIN\\user` name is looked up whole, so it never matches the logins `associer` stores. |
| WindowsLogin.DomainLoginFound | src/main.js:847-856 | In the current copy `D\\u` logs in after it has been associated. |
| WindowsLogin.GetWindowsVersion | src/main.js:32-43 | The build is the third dot-separated part of the release. Windows 10 is builds 10240..21999 and Windows 11 is builds from 22000, never both, and coloured borders are supported on either. |
| WindowsLogin.BuildOfRelease | src/main.js:33-35 | A release `major.minor.build` followed by anything that starts with a dot has that build. |
| ImportMapping.WithoutApostrophes | src/renderer/components/ImportData.jsx:19 | The text loses every apostrophe and nothing else; text without any is unchanged. |
| ImportMapping.SwissNumber | src/renderer/components/ImportData.jsx:21-25 | `/^-?\d*\.?\d+$/` with `parseFloat`: a match is an optional sign, optional digits and an optional point followed by digits, and its value is the decimal they spell. |
| ImportMapping.SwissNumberText | src/renderer/components/ImportData.jsx:21-25 | Every text of that shape is read as its value. |
| ImportMapping.CleanSwiss | src/renderer/components/ImportData.jsx:17-31 | Non-strings are returned as they are. A string becomes the number its apostrophe-free text spells, when it spells one, and is kept otherwise. |
| ImportMapping.CleanSwissIdempotent | src/renderer/components/ImportData.jsx:17-31 | Cleaning twice is cleaning once. |
| ImportMapping.WithoutApostrophesAppend | src/renderer/components/ImportData.jsx:19 | Apostrophes are removed piece by piece. |
| ImportMapping.CleanSwissSeparator | src/renderer/components/ImportData.jsx:19-24 | `1'234` is read as `1234`: a thousands apostrophe is dropped. |
| ImportMapping.SeparatorDropped | src/renderer/components/ImportData.jsx:19 | An apostrophe between two pieces is removed. |
| ImportMapping.DecimalTextEndsWithDigit | src/renderer/components/ImportData.jsx:21 | Every accepted number ends with a digit. |
| ImportMapping.CleanSwissTrailingPoint | src/renderer/components/ImportData.jsx:21 | Text that ends with a point is not a number. |
| ImportMapping.TypeName | src/renderer/components/ImportData.jsx:42 | The field type falls back to `null`: an empty type gives none, any other type is kept. |
| ImportMapping.FindExisting | src/renderer/components/ImportData.jsx:46 | The field found has the key, and nothing is found only when no field has it. |
| ImportMapping.FieldTypeCases | src/renderer/components/ImportData.jsx:35-50 | No config has no type. The create actions take the configured type. A column mapped to `numero_unique` is text. Another mapped column takes its target field's type when that field exists with a non-empty type. Ignored and unset columns have none. |
| ImportMapping.CleanRow | src/renderer/components/ImportData.jsx:53-87 | The cleaned row has as many cells as the raw row. |
| ImportMapping.CleanRowCells | src/renderer/components/ImportData.jsx:59-86 | A cell without a header or config, or in an ignored column, is kept. Number columns are Swiss-cleaned, date columns formatted as `DD.MM.YYYY`, and the rest kept. |
| ImportMapping.CleanRowIdempotent | src/renderer/components/ImportData.jsx:53-87 | Cleaning a cleaned row changes nothing, for four-digit years. |
| ImportMapping.KeyChar | src/renderer/components/ImportData.jsx:264 | Every character becomes one of `a-z`, `0-9` and `_`, never upper case. Characters already allowed are kept. |
| ImportMapping.DefaultKey | src/renderer/components/ImportData.jsx:264 | The default key of a header is its first 50 characters, each lower-cased and replaced by `_` when not allowed. An empty header takes the fallback. |
| ImportMapping.LegacyDefaultKey | src/components/ImportData.jsx:153 | Without the fallback, the key is empty exactly for an empty header and then fails the key test; otherwise both copies propose the same key. |
| ImportMapping.FallbackKey | src/renderer/components/ImportData.jsx:264 | `champ_<now>` is a valid key. |
| ImportMapping.DefaultKeyValid | src/renderer/components/ImportData.jsx:264 | Default keys are valid and contain no upper case. Computing the key of a key gives the same key. |
| ImportMapping.NonEmpty | src/renderer/components/ImportData.jsx:337 | The filter keeps only non-empty options from the list. |
| ImportMapping.TrimAll | src/renderer/components/ImportData.jsx:337 | Each option is trimmed. |
| ImportMapping.ParseOptionsClean | src/renderer/components/ImportData.jsx:337 | Every parsed option is non-empty, trimmed and free of commas. |
| ImportMapping.ParseOptionsJoin | src/renderer/components/ImportData.jsx:336-339 | Joining clean options with commas and parsing them back gives the same list. |
| ImportMapping.Drop | src/renderer/components/ImportData.jsx:361 | `filter(t => t.name !== name)` keeps, in order, exactly the templates of other names. |
| ImportMapping.Upsert | src/renderer/components/ImportData.jsx:361 | Saving puts the new template last, after the templates of other names. |
| ImportMapping.SaveTemplate | src/renderer/components/ImportData.jsx:354-367 | A blank name saves nothing. Otherwise the template is stored under the trimmed name, that name is selected and the input is cleared. |
| ImportMapping.DeleteTemplate | src/renderer/components/ImportData.jsx:369-378 | Without confirmation nothing changes. With it, the named templates go and the selection is cleared when it was the deleted one. |
| ImportMapping.CountDropped | src/renderer/components/ImportData.jsx:361 | No template keeps the dropped name. |
| ImportMapping.UpsertUnique | src/renderer/components/ImportData.jsx:361 | After saving, exactly one template has the name, and the other templates are kept. |
| ImportMapping.DropAbsent | src/renderer/components/ImportData.jsx:372 | Deleting a name no template has changes nothing. |
| ImportMapping.DropDrop | src/renderer/components/ImportData.jsx:372 | Deleting twice is deleting once. |
| ImportMapping.UpsertLaws | src/renderer/components/ImportData.jsx:354-372 | A second save under a name replaces the first, and deleting after saving is deleting. |
| ImportMapping.ColumnActionChange | src/renderer/components/ImportData.jsx:313-323 | The action is recorded, and only this header's mapping can change or appear. |
| ImportMapping.ColumnActionTarget | src/renderer/components/ImportData.jsx:315-322 | Ignoring maps the column to `ignorer` and creating maps it to `''`. Mapping clears a previous `ignorer` and keeps any other target. Repeating the change changes nothing. |
| ImportValidation.BeforeKey | src/renderer/components/ImportData.jsx:430-438 | A new field has no category, new-category-name or label error exactly when it has a category, a non-blank name when the category is `__new__`, and a non-blank label. |
| ImportValidation.AfterKey | src/renderer/components/ImportData.jsx:447-449 | A list field has an options error exactly when it has no options. |
| ImportValidation.ScanStepErrors | src/renderer/components/ImportData.jsx:411-481 | One header only appends errors. It appends none exactly when the column is correct by itself, its target is not already mapped (`numero_unique` excepted), and its new key is not already used. It adds its target and its key to the sets seen. |
| ImportValidation.ScanSets | src/renderer/components/ImportData.jsx:403-445 | The targets and keys collected are exactly those of the headers. |
| ImportValidation.ScanNoErrors | src/renderer/components/ImportData.jsx:411-486 | The pass finds no error exactly when every column is correct by itself and no two columns clash. |
| ImportValidation.ScanErrorsGrow | src/renderer/components/ImportData.jsx:411-481 | The errors of a prefix of the headers are a prefix of all the errors. |
| ImportValidation.Normalised | src/renderer/components/ImportData.jsx:458-475 | A new field's config is stored with its key and label trimmed, and a `maxLength` only for text with a non-zero one. Everything else is kept. |
| ImportValidation.FindCategory | src/renderer/components/ImportData.jsx:454 | The category found has the name, ignoring case; none is found only when no category has it. |
| ImportValidation.NewCategoryName | src/renderer/components/ImportData.jsx:451-452 | A new category is named only by a create column, with the trimmed non-blank name. |
| ImportValidation.GroupIndex | src/renderer/components/ImportData.jsx:461-464 | The group found has the lower-cased name, and none is found only when no group has it. |
| ImportValidation.AddToGroup | src/renderer/components/ImportData.jsx:461-466 | A group is created only for a name not seen before, at the end. Other groups are kept. |
| ImportValidation.AddToGroupColumns | src/renderer/components/ImportData.jsx:461-466 | Group names stay distinct. The column joins exactly the group of its name, and earlier columns stay where they were. |
| ImportValidation.BuildConfig | src/renderer/components/ImportData.jsx:411-481 | The instructions hold exactly the headers that have one, each with its own instruction. |
| ImportValidation.BuildGroups | src/renderer/components/ImportData.jsx:405-487 | The new categories have distinct names. Each lists exactly the columns that create a field in it. |
| ImportValidation.ExistingCategoryReused | src/renderer/components/ImportData.jsx:451-471 | A new category whose name, ignoring case, is an existing one reuses that category's id with the trimmed key. Any other joins the group of its lower-cased name. |
| ImportValidation.ValidateColumns | src/renderer/components/ImportData.jsx:401-487 | The `forEach` over the headers computes exactly the specified errors, instructions and groups. |
| ImportValidation.ScanColumn | src/renderer/components/ImportData.jsx:412-448 | The checks on one header give exactly the specified errors, mapped targets and new keys. |
| ImportValidation.BuildColumn | src/renderer/components/ImportData.jsx:412-484 | One header gives exactly the specified instruction, and the new-category group when it has one. |
| ImportValidation.CreateInstruction | src/renderer/components/ImportData.jsx:428-477 | The create branch records the specified instruction and group. |
| ImportValidation.HandleImport | src/renderer/components/ImportData.jsx:382-487 | The checks before sending give exactly the specified plan or refusal. |
| ImportValidation.ImportAccepted | src/renderer/components/ImportData.jsx:382-486 | An import is sent exactly when a file is loaded and the number column is mapped to `numero_unique`. The renderer also needs at least one header. Every column must be correct and no two may clash. The older copy never creates categories. |
| ImportValidation.NumeroTargetRepeats | src/components/ImportData.jsx:279-293 | Two non-numéro columns mapped to `numero_unique` clash in the older copy, while the renderer exempts that target (src/renderer/components/ImportData.jsx:422). |
| CategoryForm.MaxOrdre | src/renderer/components/AdminCategories.jsx:97 | `Math.max(0, ...ordres)`: at least 0 and every `ordre`, and equal to one of them unless it is 0. |
| CategoryForm.NextOrdre | src/renderer/components/AdminCategories.jsx:97-98 | With no order it is 0. Otherwise it is at least 10 and 10 above every order, and equal to 10 more than the largest or to 10. |
| CategoryForm.Ordres | src/renderer/components/AdminCategories.jsx:116 | The orders of the fields, in order. |
| CategoryForm.ResetForm | src/renderer/components/AdminCategories.jsx:94-101 | A reset empties the name and the fields, leaves edit mode, and proposes the next category order. |
| CategoryForm.ResetOrderAfterAll | src/renderer/components/AdminCategories.jsx:94-98 | The proposed order is above every active and hidden category, and 0 when there is none. |
| CategoryForm.NewKey | src/renderer/components/AdminCategories.jsx:107 | `champ_<now>_<count>` is a valid key. |
| CategoryForm.AjouterChamp | src/renderer/components/AdminCategories.jsx:104-118 | Adding a field keeps the old ones and appends an empty visible text field with a valid key and the next order. |
| CategoryForm.AjouterChampOrdre | src/renderer/components/AdminCategories.jsx:116 | The first field has order 0, and every later one is at least 10 above every existing order. |
| CategoryForm.Updated | src/renderer/components/AdminCategories.jsx:120-131 | In the renderer, choosing the `dynamic` type also makes the field read-only. Every other edit just sets its property. |
| CategoryForm.UpdateChamp | src/renderer/components/AdminCategories.jsx:120-131 | Only the field at the index changes, as specified; an index out of range changes nothing. |
| CategoryForm.UpdateChampTwice | src/renderer/components/AdminCategories.jsx:120-131 | A second edit of the same property overrides the first. |
| CategoryForm.ReadonlyCoupling | src/renderer/components/AdminCategories.jsx:125-127 | Only an edit of `readonly` or the renderer's `dynamic` type changes read-only. The older copy (src/components/AdminCategories.jsx) never couples them. |
| CategoryForm.UpdateOptions | src/renderer/components/AdminCategories.jsx:133-139 | Only the field at the index gets the parsed, trimmed, non-empty options. |
| CategoryForm.SupprimerChamp | src/renderer/components/AdminCategories.jsx:141-143 | Removing the field at an index keeps the others in order; an index out of range removes nothing. |
| CategoryForm.AddThenRemove | src/renderer/components/AdminCategories.jsx:104-143 | Removing the field just added restores the list. |
| CategoryForm.FieldCheck | src/renderer/components/AdminCategories.jsx:152-175 | A missing formula is an error only in the renderer, and a duplicate key is one already seen. |
| CategoryForm.ErrorFrom | src/renderer/components/AdminCategories.jsx:152-175 | The first error the loop reports names a field from the current position on. |
| CategoryForm.FieldCheckDuplicate | src/renderer/components/AdminCategories.jsx:161-164 | A field is reported as a duplicate exactly when its label and key pass and its trimmed key was already seen. |
| CategoryForm.FieldCheckSeen | src/renderer/components/AdminCategories.jsx:152-175 | A field passes exactly when it is correct by itself and its key is new. |
| CategoryForm.ErrorFromNone | src/renderer/components/AdminCategories.jsx:152-175 | No error from a position on exactly when every later field is correct and new, and their keys are distinct. |
| CategoryForm.FieldsPass | src/renderer/components/AdminCategories.jsx:151-175 | The loop finds no error exactly when every field is correct and the trimmed keys are distinct. |
| CategoryForm.ErrorFromNamesField | src/renderer/components/AdminCategories.jsx:152-175 | The error reported is that field's own check against the keys seen before it. |
| CategoryForm.ErrorFromAfterPassed | src/renderer/components/AdminCategories.jsx:152-175 | Every field before the one reported is correct by itself. |
| CategoryForm.KeysBetweenMembers | src/renderer/components/AdminCategories.jsx:165 | The keys seen are exactly the trimmed keys of the fields passed. |
| CategoryForm.Saved | src/renderer/components/AdminCategories.jsx:182-189 | A saved field has its key and label trimmed, and a `maxLength` only for text with a non-zero one. Type, order, options and formula are kept. |
| CategoryForm.SavedAll | src/renderer/components/AdminCategories.jsx:182-189 | Every field is saved this way, in order. |
| CategoryForm.ByOrdre | src/renderer/components/AdminCategories.jsx:190 | Fields are sorted by `ordre`, a total preorder. |
| CategoryForm.SaveAccepted | src/renderer/components/AdminCategories.jsx:145-192 | A category is sent exactly when its name is not blank, every field is correct and the keys are distinct. |
| CategoryForm.SavedFieldOk | src/renderer/components/AdminCategories.jsx:153-189 | A correct field is still correct once saved. |
| CategoryForm.SavedShape | src/renderer/components/AdminCategories.jsx:178-192 | The category sent has the trimmed, non-empty name and the order, and its fields are the saved fields sorted by order, with distinct keys. |
| CategoryForm.SentFieldsOk | src/renderer/components/AdminCategories.jsx:178-192 | Every field sent is correct. |
| CategoryForm.HandleSaveCategory | src/renderer/components/AdminCategories.jsx:145-192 | The loop of checks returns exactly the specified category or error. |
| CategoryForm.LegacyFieldCheck | src/components/AdminCategories.jsx:176-196 | The older copy checks label, key, duplicates and length as the renderer does and never asks for a formula. |
| CategoryForm.LegacyAcceptsRendererCategory | src/components/AdminCategories.jsx:170-212 | Every category the renderer sends is sent by the older copy too, with the same content. |
| BorderTemplate.Full | src/renderer/services/borderTemplateService.js:11-48 | A template literal carries every property given. |
| BorderTemplate.Message | src/renderer/services/borderTemplateService.js:187-197 | Every validation error has a non-empty message. |
| BorderTemplate.NameErrors | src/renderer/services/borderTemplateService.js:188 | The name check adds at most the one name error. |
| BorderTemplate.ColorErrors | src/renderer/services/borderTemplateService.js:189-193 | The colour check adds either nothing, "obligatoire" or the format error. |
| BorderTemplate.WidthErrors | src/renderer/services/borderTemplateService.js:194-198 | The width check adds either nothing, "obligatoire" or the format error. |
| BorderTemplate.ValidateTemplate | src/renderer/services/borderTemplateService.js:185-200 | A missing template throws. A result is valid exactly when it has no errors, and holds "Template invalide" exactly for a non-object. An object gets at most three errors. |
| BorderTemplate.ValidIff | src/renderer/services/borderTemplateService.js:185-200 | A template is valid exactly when it is an object with a non-blank name, a colour that is `transparent` or `#` followed by six hex digits, and a width of digits followed by `px`. |
| BorderTemplate.CollectsEveryError | src/renderer/services/borderTemplateService.js:186-199 | Every failing check adds its own error, in order, and each check adds at most one. |
| BorderTemplate.Passes | src/renderer/services/borderTemplateService.js:185-200 | A template passing all three checks validates with no errors. |
| BorderTemplate.DevelopmentValid | src/renderer/services/borderTemplateService.js:12-20 | The development template is valid. |
| BorderTemplate.StagingValid | src/renderer/services/borderTemplateService.js:21-29 | The staging template is valid. |
| BorderTemplate.ProductionValid | src/renderer/services/borderTemplateService.js:30-38 | The production template is valid. |
| BorderTemplate.DefaultValid | src/renderer/services/borderTemplateService.js:39-47 | The default template is valid. |
| BorderTemplate.EnvironmentTemplatesValid | src/renderer/services/borderTemplateService.js:11-48 | Every built-in template is valid. |
| BorderTemplate.JoinMessages | src/renderer/services/borderTemplateService.js:122 | The joined messages are empty exactly when there is no error. |
| BorderTemplate.OrElse | src/renderer/services/borderTemplateService.js:103-106 | A present, truthy property is used as it is; otherwise the fallback (`0px`, `transparent`, `none`) is used. |
| BorderTemplate.CssFor | src/renderer/services/borderTemplateService.js:103-106 | The CSS always has a solid style and non-empty width, colour and glow, taken from the template when it has them. |
| BorderTemplate.ValidTemplateCss | src/renderer/services/borderTemplateService.js:103-106 | A valid template's own width and colour are applied. |
| BorderTemplate.Added | src/renderer/services/borderTemplateService.js:163 | `Set.add` holds the id and the old members, and keeps members distinct. |
| BorderTemplate.Without | src/renderer/services/borderTemplateService.js:164 | `Set.delete` holds exactly the other members. |
| BorderTemplate.WithoutNoDuplicates | src/renderer/services/borderTemplateService.js:164 | Deleting keeps members distinct. |
| BorderTemplate.WithoutAbsent | src/renderer/services/borderTemplateService.js:164 | Deleting an absent id changes nothing. |
| BorderTemplate.SubscribeThenUnsubscribe | src/renderer/services/borderTemplateService.js:161-165 | Calling the unsubscribe function a subscription returns restores the listeners. |
| BorderTemplate.Deliveries | src/renderer/services/borderTemplateService.js:167-171 | Each listener receives the template, in subscription order. |
| BorderTemplate.SavePrecheck | src/renderer/services/borderTemplateService.js:116-123 | A save goes to the main process exactly when the bridge exists and the template is valid. No bridge answers "Service non disponible en mode dégradé", and a missing template throws. The early answers always fail. |
| BorderTemplate.SaveRefusesInvalid | src/renderer/services/borderTemplateService.js:120-123 | An invalid template is refused with "Erreurs de validation: " and its joined messages. |
| BorderTemplate.FailureMessage | src/renderer/services/borderTemplateService.js:83 | A failed answer has an error message (`no data` when none is given). |
| BorderTemplate.FirstLoaded | src/renderer/services/borderTemplateService.js:74-89 | The attempt that loads is the first of attempts 1..3 whose answer succeeds with data; when none does, there is none. |
| BorderTemplate.Waits | src/renderer/services/borderTemplateService.js:87 | Before attempt k+1 the wait is `1000 * k` ms. |
| BorderTemplate.BorderTemplateService.constructor | src/renderer/services/borderTemplateService.js:2-9 | No template, no listeners, not initialised, not degraded. |
| BorderTemplate.BorderTemplateService.CurrentTemplate | src/renderer/services/borderTemplateService.js:173-175 | The current template, or the default when there is none. |
| BorderTemplate.BorderTemplateService.NotifyListeners | src/renderer/services/borderTemplateService.js:167-171 | Every listener receives the template; nothing else changes. |
| BorderTemplate.BorderTemplateService.ApplyTemplate | src/renderer/services/borderTemplateService.js:99-114 | The CSS of the template, or of the default when none is given, is set and the listeners are notified. |
| BorderTemplate.BorderTemplateService.LoadWithRetry | src/renderer/services/borderTemplateService.js:73-90 | On the first loading attempt the template, the degraded flag and the CSS are taken from it, after the waits before it. After three failures the last error is thrown and nothing changes. |
| BorderTemplate.BorderTemplateService.HandleInitializationError | src/renderer/services/borderTemplateService.js:92-97 | Degraded mode with the default template applied, and initialised. |
| BorderTemplate.BorderTemplateService.Initialize | src/renderer/services/borderTemplateService.js:54-71 | A second call changes nothing. A successful load applies its template and subscribes to the main process. Without a bridge or after three failures the default template is applied in degraded mode. Either way the service ends initialised. |
| BorderTemplate.BorderTemplateService.SetupRealTimeUpdates | src/renderer/services/borderTemplateService.js:151-159 | The service subscribes to main-process changes exactly when the bridge offers them. |
| BorderTemplate.BorderTemplateService.OnBorderTemplateChanged | src/renderer/services/borderTemplateService.js:153-158 | A template pushed by the main process becomes current and is applied; an empty push changes nothing. |
| BorderTemplate.BorderTemplateService.SaveTemplate | src/renderer/services/borderTemplateService.js:116-130 | Refused saves are answered by the precheck. A sent save returns the main process's reply, and only a successful one makes the template current and applies it. |
| BorderTemplate.BorderTemplateService.RepairConfiguration | src/renderer/services/borderTemplateService.js:139-149 | No bridge, a failed repair or a failed reload leaves the template, the flag, the CSS and the deliveries as they were; a failed reload rejects. A successful repair reloads the template, sets its CSS, delivers it to every listener and leaves degraded mode. |
| BorderTemplate.BorderTemplateService.Subscribe | src/renderer/services/borderTemplateService.js:161-165 | Only a function is added. It gets an unsubscribe function that removes it, and anything else gets a no-op. |
| BorderTemplate.BorderTemplateService.CallUnsubscribe | src/renderer/services/borderTemplateService.js:164 | Calling the returned function removes exactly that listener. |
| BorderTemplate.BorderTemplateService.Destroy | src/renderer/services/borderTemplateService.js:202-206 | No listeners, not initialised, unsubscribed from the main process. |
| ConfigService.Rank | src/main/services/configService.js:66-71 | Each required property has its place in the order the checks test them. |
| ConfigService.ErrorText | src/main/services/configService.js:66-95 | Every refusal has a non-empty error message. |
| ConfigService.FirstMissing | src/main/services/configService.js:66-71 | The position of the first required property that is missing, every earlier one being present. |
| ConfigService.CheckTemplate | src/main/services/configService.js:66-77 | A refusal is a missing field, a bad colour or a bad width. Acceptance means every required property is present. |
| ConfigService.CheckOrder | src/main/services/configService.js:66-77 | A template is accepted exactly when all fields are present, the colour is `transparent` or `#` with six hex digits, and the width is digits followed by `px`. The colour is checked before the width, and the missing field reported is the first in order. |
| ConfigService.BlankNameAccepted | src/main/services/configService.js:66-77 | The main process accepts a blank name, which the renderer refuses. |
| ConfigService.RendererValidAccepted | src/main/services/configService.js:66-77 | A template the renderer finds valid is accepted unless it lacks `template`. |
| ConfigService.StoredValue | src/main/services/configService.js:78-86 | The stored value has a name. |
| ConfigService.StoredValueShape | src/main/services/configService.js:78-86 | It keeps template, colour and width, sets a present environment (kept when given), trims the name and drops an empty glow. |
| ConfigService.StoredValueStable | src/main/services/configService.js:78-86 | A stored value is accepted again and stored unchanged. |
| ConfigService.DefaultStoredUnchanged | src/main/services/configService.js:25-35 | The default template is accepted and stored as it is. |
| ConfigService.ConfigStore.constructor | src/main/services/configService.js:4-23 | The store starts with the table found or not, its rows, and no events. |
| ConfigService.ConfigStore.GetBorderTemplate | src/main/services/configService.js:37-53 | A missing table answers the default in degraded mode. A missing row answers the default. A stored row answers its value and author. A row that does not parse is a failure. |
| ConfigService.ConfigStore.SetBorderTemplate | src/main/services/configService.js:55-96 | The table is created when missing, and a failed creation refuses. A template failing the checks is refused with its error, and a failed write with its message. Otherwise exactly the stored value is written under the key, emitted, and read back. |
| ConfigService.ConfigStore.ConfigHistory | src/main/services/configService.js:118-130 | A missing table answers an empty degraded history. A missing row or a limit of 0 answers an empty history. A row with a null configuration answers an empty history marked failed, because parsing it throws. Otherwise the single row gives exactly one entry: its configuration and its author. |
| ConfigService.ConfigStore.Author | src/main/services/configService.js:125 | The author is the user's name when one is known and non-empty, else 'Système'; it is never empty. |
| ConfigService.ConfigStore.CheckAndRepairConfig | src/main/services/configService.js:132-144 | A present table is left as it is. A missing one is created and the default written, unless the creation or the write fails. |
| IndividuFiche.AccountId | src/renderer/components/IndividuFiche.jsx:300 | The user's `id` when it is truthy, otherwise its `userId`. |
| IndividuFiche.InfoOf | src/renderer/components/IndividuFiche.jsx:296-297 | A user is passed to the permission check exactly when one is logged in. |
| IndividuFiche.UserCanEdit | src/renderer/components/IndividuFiche.jsx:294-304 | Nobody edits without a user and an individual. Otherwise a user edits exactly with `edit_all`, or with `edit_assigned` when the individual's person in charge is strictly equal to the user's id. |
| IndividuFiche.NoEditWithoutPermission | src/renderer/components/IndividuFiche.jsx:294-304 | Without either permission a user edits nothing. |
| IndividuFiche.OwnerComparedStrictly | src/renderer/components/IndividuFiche.jsx:301 | With `edit_assigned` only, a person in charge stored as the text of the id does not match, while the number does. |
| IndividuFiche.FieldReadOnly | src/renderer/components/IndividuFiche.jsx:226-228 | A field is read-only whenever the individual cannot be edited. With `edit_readonly_fields`, or for a field not configured read-only, it is read-only exactly then. |
| IndividuFiche.ReadOnlyIff | src/renderer/components/IndividuFiche.jsx:226-228 | For an editor, a field configured read-only is read-only exactly when they lack `edit_readonly_fields`. Only the value `true` counts as configured. |
| IndividuFiche.InputRequired | src/renderer/components/IndividuFiche.jsx:236 | An input is required exactly when the field is mandatory and not read-only. |
| IndividuFiche.FindKey | src/renderer/components/IndividuFiche.jsx:46 | `find`: the first field with the key, or the end. |
| IndividuFiche.FirstCategory | src/renderer/components/IndividuFiche.jsx:44-51 | The first category holding the key, or the end. |
| IndividuFiche.ChampLabel | src/renderer/components/IndividuFiche.jsx:40-42 | `en_charge` and `numero_unique` have fixed labels. |
| IndividuFiche.ChampLabelLookup | src/renderer/components/IndividuFiche.jsx:44-51 | Any other key takes the label of its first definition, category by category. |
| IndividuFiche.ChampLabelFallback | src/renderer/components/IndividuFiche.jsx:52 | A key defined nowhere is its own label. |
| IndividuFiche.UserNameCases | src/renderer/components/IndividuFiche.jsx:288-292 | An empty person in charge is "Non assigné". A known id gives that user's name, and an unknown id gives `Utilisateur #<id>`. |
| IndividuFiche.OrZero | src/renderer/components/IndividuFiche.jsx:322 | The `parseFloat` result falls back to 0: the result is always a finite number, and a finite non-zero value is kept. |
| IndividuFiche.Put | src/renderer/components/IndividuFiche.jsx:317-318 | Writing a month creates the year's 12 empty months when the year is missing, sets that one month, and changes nothing else. |
| IndividuFiche.Place | src/renderer/components/IndividuFiche.jsx:313-319 | Placing values gives a map of twelve-month years. |
| IndividuFiche.LastValue | src/renderer/components/IndividuFiche.jsx:318 | The value a month holds is that of one of its entries, and it is empty only when no entry falls in it. |
| IndividuFiche.PlaceKeys | src/renderer/components/IndividuFiche.jsx:314-317 | A year appears exactly when an entry falls in it. |
| IndividuFiche.PlaceLastWins | src/renderer/components/IndividuFiche.jsx:314-319 | Each month holds the value of its last entry in date order. |
| IndividuFiche.PlaceSnoc | src/renderer/components/IndividuFiche.jsx:314-319 | One turn of the `forEach` places one more entry. |
| IndividuFiche.Matching | src/renderer/components/IndividuFiche.jsx:308 | The audit entries kept are exactly those of the field. |
| IndividuFiche.ByTime | src/renderer/components/IndividuFiche.jsx:310 | Entries are compared by date. |
| IndividuFiche.Entries | src/renderer/components/IndividuFiche.jsx:307-310 | The entries are those of the field, sorted by date, as a permutation. |
| IndividuFiche.Raw | src/renderer/components/IndividuFiche.jsx:313-322 | Before filling, the current year is always present and its current month holds the current value, with 0 for `NaN`. |
| IndividuFiche.RawSlots | src/renderer/components/IndividuFiche.jsx:314-322 | Every other month holds the last value recorded for it. |
| IndividuFiche.FillForward | src/renderer/components/IndividuFiche.jsx:323-329 | Filling keeps the number of months. |
| IndividuFiche.FillAt | src/renderer/components/IndividuFiche.jsx:325-328 | Each filled month is the value carried to it. |
| IndividuFiche.CarryAppend | src/renderer/components/IndividuFiche.jsx:323-329 | The carried value runs on from one year into the next. |
| IndividuFiche.FillAppend | src/renderer/components/IndividuFiche.jsx:324-329 | Filling the years one after the other is filling them as one sequence. |
| IndividuFiche.CarryFromNull | src/renderer/components/IndividuFiche.jsx:323-328 | Starting from `null`, nothing is carried exactly when every month is empty. Otherwise the value carried is the last one set. |
| IndividuFiche.FillSpec | src/renderer/components/IndividuFiche.jsx:323-329 | A filled month is empty exactly when it and every earlier month are empty. Otherwise it holds the latest value at or before it, and set months are kept. |
| IndividuFiche.FlattenIndex | src/renderer/components/IndividuFiche.jsx:324-325 | Month j of year k is at position 12k + j of the years laid end to end. |
| IndividuFiche.FlattenLength | src/renderer/components/IndividuFiche.jsx:324-325 | That sequence holds twelve months per year. |
| IndividuFiche.PermutationNoDuplicates | src/renderer/components/IndividuFiche.jsx:324 | Sorting the years keeps them distinct. |
| IndividuFiche.YearOrder | src/renderer/components/IndividuFiche.jsx:324 | `sort()` compares the year keys as text. |
| IndividuFiche.YearOrderTotal | src/renderer/components/IndividuFiche.jsx:324 | That order is a total preorder. |
| IndividuFiche.PlaceEntries | src/renderer/components/IndividuFiche.jsx:313-319 | The `forEach` places exactly the specified values and lists each year once. |
| IndividuFiche.FillYear | src/renderer/components/IndividuFiche.jsx:325-328 | The inner `for` fills one year from the carried value, returns the value carried out of it, and leaves the other years alone. |
| IndividuFiche.SortYears | src/renderer/components/IndividuFiche.jsx:324 | The years come back sorted as text, each once. |
| IndividuFiche.SetCurrent | src/renderer/components/IndividuFiche.jsx:320-322 | The current month is written as specified. |
| IndividuFiche.FillAll | src/renderer/components/IndividuFiche.jsx:323-329 | The outer loop fills all the years, in sorted order, as one filled sequence starting from `null`. |
| IndividuFiche.ComputeHistory | src/renderer/components/IndividuFiche.jsx:306-331 | The history has exactly the years of the raw data, the current one included, sorted as text and each once. Laid end to end, its months are the raw months filled forward from `null`. |
| IndividuFiche.FillStep | src/renderer/components/IndividuFiche.jsx:324-329 | One turn of the outer loop extends the filled prefix by one year. |
| IndividusList.FindChamp | src/renderer/components/IndividusList.jsx:27 | The field found has the column's key and comes from the list; none is found exactly when no field has that key. |
| IndividusList.FindField | src/renderer/components/IndividusList.jsx:77 | The offered field found carries the key; none is found exactly when no offered field has it. |
| IndividusList.LabelLength | src/renderer/components/IndividusList.jsx:40 | The label's length when the label is present and non-empty, otherwise the fallback 12; never zero. |
| IndividusList.ColumnWidth | src/renderer/components/IndividusList.jsx:22-44 | 80 for actions, 120 for the number, 150 for the person in charge; every width lies between 80 and 250. |
| IndividusList.ColumnWidthByType | src/renderer/components/IndividusList.jsx:30-43 | Date 110, boolean 80, number 100, list 140; any other type gets 8 per label character plus 40, at least 120 and at most 250. |
| IndividusList.UnknownColumnWidth | src/renderer/components/IndividusList.jsx:27-28 | A key that is not a field gets the width 130. |
| IndividusList.WidthKeys | src/renderer/components/IndividusList.jsx:69-84 | The widths map holds the three fixed columns and exactly the displayed keys that name an offered field. |
| IndividusList.ColumnWidths | src/renderer/components/IndividusList.jsx:69-84 | The map's keys are those keys and every entry is the width computed for its key. |
| IndividusList.CollectFields | src/renderer/components/IndividusList.jsx:242-251 | The loop over categories and fields produces the offered fields of the reference definition. |
| IndividusList.CollectChampsKeeps | src/renderer/components/IndividusList.jsx:245-249 | One category's pass keeps the keys distinct, keeps every earlier field and offers every visible field with a non-empty key. |
| IndividusList.AvailableFieldsSpec | src/renderer/components/IndividusList.jsx:242-251 | The offered fields have distinct keys, are all visible with a key, and every visible keyed field of any category is offered. |
| IndividusList.Prune | src/renderer/components/IndividusList.jsx:269 | Keeps, in order, exactly the configured keys that name an offered field. |
| IndividusList.PruneSameLength | src/renderer/components/IndividusList.jsx:277-280 | When pruning drops nothing, the pruned list is the list itself, so the state is left as it was. |
| IndividusList.DefaultColumns | src/renderer/components/IndividusList.jsx:272 | Exactly the keys of the offered fields marked as shown by default. |
| IndividusList.ColumnsAfterLoad | src/renderer/components/IndividusList.jsx:260-281 | An empty selection takes the stored configuration, pruned, or else the default columns; a non-empty one is pruned against the new fields. |
| IndividusList.ColumnsAfterLoadValid | src/renderer/components/IndividusList.jsx:260-281 | After a load with fields, every displayed column names an offered field. |
| IndividusList.ToggleColumn | src/renderer/components/IndividusList.jsx:342-348 | Flips the key's membership, leaves every other key alone, and appends a key that was absent. |
| IndividusList.RemoveKey | src/renderer/components/IndividusList.jsx:344 | Removes exactly the key and keeps a list without it unchanged. |
| IndividusList.ToggleTwice | src/renderer/components/IndividusList.jsx:342-348 | Showing then hiding a column restores the column list exactly. |
| IndividusList.RemoveLast | src/renderer/components/IndividusList.jsx:344-345 | Removing the key just appended gives back the list before it was appended. |
| IndividusList.NextSort | src/renderer/components/IndividusList.jsx:350-357 | A new key sorts ascending, then descending, then the sort is cleared. |
| IndividusList.SortCycle | src/renderer/components/IndividusList.jsx:350-357 | Three clicks on the same header return to the starting sort. |
| IndividusList.NumberOf | src/renderer/components/IndividusList.jsx:90 | A number stays itself and null becomes 0, as Number does. |
| IndividusList.FindUser | src/renderer/components/IndividusList.jsx:91 | The user found has the id and comes from the list; none is found exactly when no user has it. |
| IndividusList.UserNameCases | src/renderer/components/IndividusList.jsx:86-95 | No one assigned gives "Non assigné"; otherwise the known user's name, or the row's stored name, or "Utilisateur #" and the id. |
| IndividusList.UserIdText | src/renderer/components/IndividusList.jsx:67 | String(currentUserId) is the decimal text of the id. |
| IndividusList.ActiveIffNotBlank | src/renderer/components/IndividusList.jsx:164 | A search or column filter applies exactly when its text is not blank. |
| IndividusList.ColumnsMatchAll | src/renderer/components/IndividusList.jsx:174-184 | A row passes the column filters exactly when it passes each one. |
| IndividusList.ColumnsMatchSnoc | src/renderer/components/IndividusList.jsx:174-184 | Adding a filter adds its own test and nothing else. |
| IndividusList.KeepColumnStep | src/renderer/components/IndividusList.jsx:175-183 | One forEach step narrows by an active filter and leaves the rows unchanged for a blank one. |
| IndividusList.RowOrder | src/renderer/components/IndividusList.jsx:186-196 | Rows compare by the lower-cased text of the sort key, reversed for descending. |
| IndividusList.RowOrderTotal | src/renderer/components/IndividusList.jsx:186-196 | That comparison is a total preorder, so the sort is well defined. |
| IndividusList.FilterIndividus | src/renderer/components/IndividusList.jsx:158-199 | The filtering pipeline computes the reference result: the "mine" view, then the search, the column filters and the sort. |
| IndividusList.ApplyColumnFilters | src/renderer/components/IndividusList.jsx:174-184 | The loop over column filters keeps exactly the rows that pass all of them. |
| IndividusList.FilteredMembers | src/renderer/components/IndividusList.jsx:158-199 | A row is listed exactly when nothing is loading, it is in the data, it is the user's own in the "mine" view, it matches an active search and it passes every column filter. |
| IndividusList.FilteredOrdered | src/renderer/components/IndividusList.jsx:158-199 | The list is a sub-multiset of the data and is sorted by the chosen order when a sort is set. |
| IndividusList.WithCore | src/renderer/components/IndividusList.jsx:293 | The row's extra values gain numero_unique and en_charge and keep every other value. |
| IndividusList.RendererSearchFindsRawId | src/renderer/components/IndividusList.jsx:166-172 | Since en_charge is copied into the extra values, a search for the raw id of the person in charge finds the row. |
| IndividusList.LegacyTotalPages | src/components/IndividusList.jsx:187 | At least one page, enough pages for every row, and no empty last page. |
| IndividusList.LegacyPage | src/components/IndividusList.jsx:182-185 | No more than 20 rows, and for a page number of at least 1 the same slice the table shows. |
| IndividusList.LegacyPrevious | src/components/IndividusList.jsx:450 | Never below page 1, and one page back otherwise. |
| IndividusList.LegacyNext | src/components/IndividusList.jsx:452 | Never past the last page, and one page on otherwise. |
| IndividusList.LegacyPagingStaysInRange | src/components/IndividusList.jsx:450-452 | From a valid page, both buttons land on a valid page. |
| IndividusList.LegacyPageNonEmpty | src/components/IndividusList.jsx:182-187 | Every valid page of a non-empty list shows rows. |
| IndividusList.LegacyStalePage | src/components/IndividusList.jsx:182-187 | A page past the end, left after the list shrinks, shows nothing, and Next goes back to the last page. |
| IndividusList.RendererPageChangeAsWritten | src/renderer/components/IndividusList.jsx:443 | Called with one argument, the handler sets the page to NaN. |
| IndividusList.RendererPageChange | src/renderer/components/IndividusList.jsx:443 | The corrected handler sets the page to the requested index plus one. |
| IndividusList.RendererRows | src/renderer/components/IndividusList.jsx:441-443 | With a NaN page the table shows no rows. |
| IndividusList.RendererPaginationEmptiesTable | src/renderer/components/IndividusList.jsx:441-443 | Every click on the table's page controls empties the table. |
| IndividusList.RendererPaginationShowsPage | src/renderer/components/IndividusList.jsx:441-443 | With the corrected handler a click on page button i shows page i, which is not empty. |
| DataTable.SliceIndex | src/renderer/components/common/DattaDataTable.jsx:35-38 | A slice bound as Array.prototype.slice reads it: clamped to the length, and a negative bound counted from the end. |
| DataTable.JsSlice | src/renderer/components/common/DattaDataTable.jsx:35-38 | The rows between the two resolved bounds, or nothing when the end comes before the start. |
| DataTable.TotalPages | src/renderer/components/common/DattaDataTable.jsx:31 | Math.ceil(total / rowsPerPage): enough pages for every row and no empty last page. |
| DataTable.CurrentRows | src/renderer/components/common/DattaDataTable.jsx:35-38 | At most one page of rows; page p shows the rows from p * rowsPerPage on, and nothing once past the end. |
| DataTable.Requested | src/renderer/components/common/DattaDataTable.jsx:112-131 | Previous asks for page - 1, Next for page + 1 and button i for i, whether or not the control is shown disabled. |
| DataTable.PageButtons | src/renderer/components/common/DattaDataTable.jsx:118-126 | One button per page, the i-th requesting page i. |
| DataTable.FilterChange | src/renderer/components/common/DattaDataTable.jsx:24-28 | The filters with the key set to the new value and every other filter kept. |
| DataTable.PagesPartition | src/renderer/components/common/DattaDataTable.jsx:30-38 | The pages from 0 to totalPages - 1, put end to end, are exactly the data. |
| DataTable.PagesNonEmpty | src/renderer/components/common/DattaDataTable.jsx:30-38 | Every page below totalPages has rows and every page from totalPages on has none. |
| DataTable.BannerCountsRows | src/renderer/components/common/DattaDataTable.jsx:32-33 | On a valid page the "Affichage de … à …" banner counts exactly the rows shown, within 1 and the total. |
| DataTable.PreviousFromFirstPage | src/renderer/components/common/DattaDataTable.jsx:112-117 | On page 0, Previous is only styled disabled: it still requests page -1, which shows nothing and a banner from 1 - rowsPerPage to 0. |
| DataTable.TwoBackShowsTail | src/renderer/components/common/DattaDataTable.jsx:35-38 | Two clicks on Previous from page 0 reach page -2, whose negative slice bounds show the second-to-last block of rows. |
| DataTable.NextFromLastPage | src/renderer/components/common/DattaDataTable.jsx:127-132 | On the last page, Next is styled disabled and still requests a page that shows nothing. |
| DataTable.PaginationIffSeveralPages | src/renderer/components/common/DattaDataTable.jsx:106 | The paging controls appear exactly when there are at least two pages. |
| DataTable.FilterChangeLaws | src/renderer/components/common/DattaDataTable.jsx:24-28 | Setting a key twice keeps the last value, and changes to two different keys commute. |
| PasswordStrength.Score | src/renderer/components/common/DattaPasswordStrength.jsx:4-11 | At most 4; 4 exactly when the password has 8 characters or more, a capital, a digit and a symbol; 0 exactly when it has none of these. |
| PasswordStrength.StrengthLabel | src/renderer/components/common/DattaPasswordStrength.jsx:14-22 | "Faible" for a score of 0, otherwise the label of rank score - 1. |
| PasswordStrength.StrengthColor | src/renderer/components/common/DattaPasswordStrength.jsx:15-22 | "danger" for a score of 0, otherwise the colour of rank score - 1. |
| PasswordStrength.Width | src/renderer/components/common/DattaPasswordStrength.jsx:20 | The bar is score / 4 of the full width: 0 for score 0 and 100 exactly for score 4. |
| PasswordStrength.ScoreMonotone | src/renderer/components/common/DattaPasswordStrength.jsx:4-11 | Typing more characters never lowers the score. |
| OperationQueue.NewEntry | src/renderer/components/common/DattaOperationQueue.jsx:18 | The record carries the given id and the start time, and every other field of the operation. |
| OperationQueue.UpdateEntries | src/renderer/components/common/DattaOperationQueue.jsx:22-24 | The same number of records; the ones with the id get the updates merged over them, the others are untouched. |
| OperationQueue.RemoveEntries | src/renderer/components/common/DattaOperationQueue.jsx:26-28 | No record with the id remains, every remaining record was there before, and every other record stays. |
| OperationQueue.RemoveAppend | src/renderer/components/common/DattaOperationQueue.jsx:26-28 | Removal distributes over concatenation, so it keeps the order of the queue. |
| OperationQueue.AddThenRemove | src/renderer/components/common/DattaOperationQueue.jsx:16-28 | Adding an operation with a fresh id and then removing that id gives back the queue. |
| OperationQueue.RemoveNone | src/renderer/components/common/DattaOperationQueue.jsx:26-28 | Removing an id no record carries changes nothing. |
| OperationQueue.Queue.constructor | src/renderer/components/common/DattaOperationQueue.jsx:14 | The queue starts empty. |
| OperationQueue.Queue.Add | src/renderer/components/common/DattaOperationQueue.jsx:16-20 | Appends the new record and returns its id. |
| OperationQueue.Queue.Update | src/renderer/components/common/DattaOperationQueue.jsx:22-24 | The queue becomes the updated entries. |
| OperationQueue.Queue.Remove | src/renderer/components/common/DattaOperationQueue.jsx:26-28 | The queue becomes the remaining entries. |
| OperationQueue.Queue.Shown | src/renderer/components/common/DattaOperationQueue.jsx:48 | The display appears exactly when the queue is not empty. |
| Permissions.HasPermission | src/utils/permissions.js:1-4 | False without a user or without a permission array; otherwise true exactly when the permission is listed. |
| Permissions.RoleIgnored | src/utils/permissions.js:1-4 | The role plays no part: the same permission list grants the same things. |
| Permissions.Visible | src/renderer/components/layout/LayoutManager.jsx:42-63 | Every tab kept is allowed. |
| Permissions.BuildTabs | src/renderer/components/layout/LayoutManager.jsx:42-63 | The seven conditional pushes build the tab list of the reference definition. |
| Permissions.VisibleAll | src/renderer/components/layout/DattaSidebar.jsx:33-54 | Filtering the fixed list of tabs is the same as the seven conditional pushes. |
| Permissions.VisibleSnoc | src/renderer/components/layout/LayoutManager.jsx:42-63 | One more tab in the list is one more conditional push. |
| Permissions.VisibleOrdered | src/renderer/components/layout/LayoutManager.jsx:42-63 | Filtering keeps the order of the pushes and keeps only listed tabs. |
| Permissions.VisibleHas | src/renderer/components/layout/LayoutManager.jsx:42-63 | A tab is kept exactly when it is listed and allowed. |
| Permissions.TabsSpec | src/renderer/components/layout/LayoutManager.jsx:42-63 | The tabs come in the fixed order, a tab is shown exactly when the user holds its permission (users: user or role management), and settings is never pushed. |
| Permissions.FixedListSpec | src/renderer/components/layout/DattaSidebar.jsx:33-54 | The sidebar's list is in the fixed order and holds exactly the allowed tabs other than settings. |
| Permissions.TabsDistinct | src/renderer/components/layout/LayoutManager.jsx:42-63 | No tab appears twice. |
| Permissions.Sidebar.constructor | src/renderer/components/layout/LayoutManager.jsx:65-76 | Mounting runs the resize handler: open exactly when the window is wider than 1025 pixels. |
| Permissions.Sidebar.Toggle | src/renderer/components/layout/LayoutManager.jsx:27-29 | The toggle flips the open flag. |
| Permissions.Sidebar.Resize | src/renderer/components/layout/LayoutManager.jsx:66-72 | After a resize the sidebar is open exactly when the window is wider than 1025 pixels. |
| MainContent.EffectTab | src/renderer/components/MainContent.jsx:36-85 | A pending request forces the individuals tab, the individuals tab and the kept tabs are left alone, and the result is always the tab itself, the individuals or the dashboard. |
| MainContent.EffectRoleDefault | src/renderer/components/MainContent.jsx:76-84 | Off the kept tabs with no request, admins and managers go to the dashboard and everyone else to the individuals. |
| MainContent.EffectIdempotent | src/renderer/components/MainContent.jsx:36-85 | Running the effect on its own result changes nothing, so the effect settles after one correction. |
| MainContent.RendererContent | src/renderer/components/MainContent.jsx:101-140 | The dashboard is rendered exactly for an id that is not one of the seven other tabs. |
| MainContent.RendererUnknownIsDashboard | src/renderer/components/MainContent.jsx:131-138 | An unknown id renders the dashboard. |
| MainContent.RendererKeptTabsRender | src/renderer/components/MainContent.jsx:119-130 | Every tab the effect keeps renders its own page, neither the dashboard nor the individuals. |
| MainContent.Navigation.constructor | src/renderer/components/MainContent.jsx:19-20 | The first render is on the dashboard with no requested view. |
| MainContent.Navigation.RunEffect | src/renderer/components/MainContent.jsx:36-85 | One run of the effect sets the tab the reference decision gives and keeps the request. |
| MainContent.Navigation.Navigate | src/renderer/components/MainContent.jsx:87-95 | A dashboard shortcut opens the individuals tab with its view requested. |
| MainContent.Navigation.RequestedViewConsumed | src/renderer/components/MainContent.jsx:97-99 | Consuming the request clears it and keeps the tab. |
| MainContent.Navigation.TabChange | src/renderer/components/MainContent.jsx:148-153 | A click on another tab switches to it and clears the request; a click on the active tab changes nothing. |
| MainContent.ShortcutSurvivesEffect | src/renderer/components/MainContent.jsx:40-54 | After a shortcut, both while its view is pending and once consumed, the effect stays on the individuals. |
| MainContent.ClickedTabSurvives | src/renderer/components/MainContent.jsx:63-84 | A clicked tab survives the effect exactly when it is the individuals, a kept tab, or the dashboard for an admin or manager. |
| LegacyMainContent.TemplateNotKept | src/components/MainContent.jsx:68 | 'template' is kept by the renderer's effect but not by this copy's, which sends an admin or manager to the dashboard and others to the individuals. |
| LegacyMainContent.SameDecisionElsewhere | src/components/MainContent.jsx:38-98 | Off 'template', the two effects decide the same tab. |
| LegacyMainContent.Tabs | src/components/MainContent.jsx:158-176 | Dashboard and individuals first; import and attribution exactly for admins and managers; categories and users exactly for admins; no tab twice. The tabs come in that order. |
| LegacyMainContent.Content | src/components/MainContent.jsx:119-156 | Never the template page; the dashboard exactly for an id outside the six other tabs. |
| LegacyMainContent.UnknownIsDashboard | src/components/MainContent.jsx:147-154 | An unknown id renders the dashboard. |
| LegacyMainContent.ContentAgrees | src/components/MainContent.jsx:119-156 | Both copies render the same page for every id but 'template', which this copy renders as the dashboard. |
| NouvelIndividu.ChampsOf | src/renderer/components/NouvelIndividu.jsx:74 | A category without fields contributes none. |
| NouvelIndividu.Lookup | src/renderer/components/NouvelIndividu.jsx:76 | A value is found exactly when the key was entered. |
| NouvelIndividu.CheckboxNeverBlocks | src/renderer/components/NouvelIndividu.jsx:77-89 | A blank value is never false, so a mandatory checkbox never stops the submission. |
| NouvelIndividu.OtherFieldsBlockWhenBlank | src/renderer/components/NouvelIndividu.jsx:77-89 | Any other checked field stops it exactly when its value is missing, null or blank, and a number never does. |
| NouvelIndividu.FirstBlocking | src/renderer/components/NouvelIndividu.jsx:73-92 | The nested scan finds the first blocking field in category-then-field order, or reports that none blocks. |
| NouvelIndividu.EnChargeOf | src/renderer/components/NouvelIndividu.jsx:99 | No one exactly when the selection is empty, and the number for a selection of digits. |
| NouvelIndividu.TabOf | src/renderer/components/NouvelIndividu.jsx:32 | The tab id is "cat-" followed by the category's id. |
| NouvelIndividu.Failure | src/renderer/components/NouvelIndividu.jsx:131 | "Erreur: " and the reported error, or "Problème inconnu" when none is reported. |
| NouvelIndividu.Form.constructor | src/renderer/components/NouvelIndividu.jsx:31-46 | Empty inputs, the user as person in charge and the first category's tab open. |
| NouvelIndividu.Form.ValeurChange | src/renderer/components/NouvelIndividu.jsx:60-62 | Sets the one value and changes nothing else. |
| NouvelIndividu.Form.Submit | src/renderer/components/NouvelIndividu.jsx:64-138 | A blank number is refused first; otherwise the first blocking field in category-then-field order opens its category's tab with its message, keeping the number, the values and the person in charge; otherwise the trimmed payload is sent, and success resets the form while failure keeps it with the error message. |
| NouvelIndividu.BlockingIsNoCheckbox | src/renderer/components/NouvelIndividu.jsx:78-88 | The field that stops the submission is never a checkbox, so the "doit être coché" message is never shown. |
| MassAttributionWizard.Filtered | src/renderer/components/MassAttribution.jsx:61-63 | Exactly the individuals whose lower-cased "prenom nom" contains the lower-cased search term. |
| MassAttributionWizard.Ids | src/renderer/components/MassAttribution.jsx:66 | Exactly the ids carried by the listed individuals. |
| MassAttributionWizard.Toggled | src/renderer/components/MassAttribution.jsx:53-59 | Flips the id's membership and no other. |
| MassAttributionWizard.ToggleTwice | src/renderer/components/MassAttribution.jsx:53-59 | Two clicks on the same individual restore the selection. |
| MassAttributionWizard.NextDisabled | src/renderer/components/MassAttribution.jsx:203-207 | Next is disabled on step 0 exactly with no selection, on step 1 exactly with no field, on step 2 exactly with a blank value, and never later. |
| MassAttributionWizard.Wizard.constructor | src/renderer/components/MassAttribution.jsx:22-32 | The first step, no selection, no search, field or value. |
| MassAttributionWizard.Wizard.Next | src/renderer/components/MassAttribution.jsx:41-45 | One step forward unless on the last step, nothing else changes. |
| MassAttributionWizard.Wizard.Back | src/renderer/components/MassAttribution.jsx:47-51 | One step back unless on the first step, nothing else changes. |
| MassAttributionWizard.Wizard.Toggle | src/renderer/components/MassAttribution.jsx:53-59 | The selection becomes the toggled set. |
| MassAttributionWizard.Wizard.SelectAll | src/renderer/components/MassAttribution.jsx:65-67 | The selection becomes exactly the ids of the listed individuals. |
| MassAttributionWizard.Wizard.DeselectAll | src/renderer/components/MassAttribution.jsx:69-71 | The selection becomes empty. |
| MassAttributionWizard.SelectAllExact | src/renderer/components/MassAttribution.jsx:61-67 | After "select all", an id is selected exactly when a listed individual matching the search carries it. |

## Left out

- I/O is not modelled. This covers SQL execution, IPC, the file system, `localStorage` and console logging. The model only sees the data these return, which arrives as parameters or class fields.
- React rendering, hooks and timers are not modelled. This includes the `setTimeout` that clears messages in `NouvelIndividu` and the other forms, and the re-render keys in `IndividusList`. Each handler is modelled as one state change.
- Concurrency is not modelled. `Sync.SyncManager.last_sync` is a plain field rather than a `tokio::Mutex`, and concurrent syncs are left out. So are async interleavings in the renderer.
- Retry.ExecuteWithRetry: `base_delay_ms · 2^attempt` is unbounded here, while the source computes it in `u64`. The two agree while that product stays below 2^64. With the default base of 100 that holds up to attempt 57, which covers every attempt the default `max_attempts` of 5 allows.
- The sleep in `Retry` is recorded as a list of delays. No time actually passes.
- Floating point is left out.
  - Decimal numbers from `parseFloat` and the formula parser are exact rationals (`real`), so binary rounding is not followed.
  - Mass-assignment percentages are integers, and their slices use exact division.
  - In `computeHistory`, a NaN from `parseFloat(e.nouvelle_valeur)` is carried (`Num.NaN`), but an Invalid Date from `new Date(e.date_modif)` is not: each point arrives with a year that is an integer and a month below 12.
- The arithmetic, relational and loose-equality operators of `evaluateAst`, and unary minus, are a parameter of `SafeExpression.Evaluate` (`Primitives`), so their JavaScript coercions are not modelled. Only literals, strict equality, the logical operators, `!` and the conditional are written out.
- `Date` is modelled only through its calendar fields.
  - The host's own date parser in `formatDateToDDMMYYYY`, numeric timestamps and the local time zone are parameters or fixed fields of a `JsValue` date.
  - The clock of `computeHistory`, the current value of the field, and `Date.now()` in the default keys and operation ids are parameters.
- The shuffle in mass assignment (`Math.random`) is a parameter: the order the individuals arrive in after shuffling.
- `Text.Lower`, and every member built on it, lower-cases only A-Z. The source's Unicode `toLowerCase` is not modelled. Trimming does follow the ECMAScript white-space set.
- ImportValidation.HandleImport, ImportValidation.ImportAccepted and the other `ImportValidation` members require that every 'create' column has new-field settings. The screen builds these settings for every header, and a column without them makes the source throw a TypeError, which is not modelled.
- CategoryForm: `ordre` and the category's order are integers. The inputs at `AdminCategories.jsx:303` and `:343` go through `Number(e.target.value)` on a number input, which also accepts a fraction such as 2.5; fractional orders are not modelled.
- IndividusList.NumberOf reads text as `Number()` does only for blank text and an optional sign followed by decimal digits. JavaScript also reads `"1.0"` as 1, `"1e2"` as 100 and `"0x10"` as 16, and these give `None` here, so `getUserName` with such an id does not find the user the source would find.
- NouvelIndividu.EnChargeOf: `Number(enChargeId)` is modelled for the empty text and for digit strings. Any other text, such as text with spaces or a sign, is modelled as not a number. The selector only offers user ids.
- `NouvelIndividu`'s `loadInitialData` is not modelled. That means the category filter and sort, and the loading of users. The constructor takes the loaded categories.
- `MassAttributionWizard` does not model the wizard's mock data or the alert of its last step. The individuals are a constructor parameter.
- `IndividusList` does not evaluate dynamic fields during `loadData`, because `evaluateDynamicField` runs formulas through `new Function`. It also leaves out the hash-based view mode (`getViewModeFromUrl`, `handleViewChange`) and the effect that consumes a requested view.
- `BorderTemplate` does not model `applyTemplate`'s effects on the page: the CSS variables it sets are returned as a value, and the `border-changing` class, its timer and the `applyBorderTemplate` IPC call are left out. `getHistory` only forwards an IPC call and is not modelled.
- `ConfigService` does not model JSON encoding: a stored value that does not parse is `None`. It also leaves out the `updatedAt` and `modified_at` timestamps. `setBorderTemplate` always receives an object. A `null` payload, on which the source throws inside its checks and reports a save error, is not modelled.
- The renderer imports `utils/permissions` relative to `src/renderer`: `../utils/permissions` from its components and `../../utils/permissions` from `components/layout`. `src/renderer/utils/permissions.js` is not part of this model. The model follows `src/utils/permissions.js`.
- The sorts (`Sorting.SortBy`) are proved sorted, a permutation, and the identity on input already in order. That elements with equal keys keep their relative order, as `Array.prototype.sort` promises since ECMAScript 2019, is not proved in general.
- Strings are sequences of characters here, while JavaScript strings are sequences of UTF-16 code units. Text outside the Basic Multilingual Plane would give a different `.length`, `substring(0, 50)` cut and `<` order on text.
- Sync.SyncManager.PerformSync relies on the libsql connection from `db.connect()` being dropped with the transaction it opened with `BEGIN TRANSACTION` still open, and on closing it rolling that transaction back: every `?` before `COMMIT` returns without a `ROLLBACK`. A failure before COMMIT is modelled as leaving the table unchanged, without the rollback being a step of its own.
- NouvelIndividu.Form.Submit does not model the `catch` path, where a thrown error shows `Erreur: ` followed by the error's message (`NouvelIndividu.jsx:133-134`). The reply of the creation call arrives as the `accepted` and `error` parameters.
- NouvelIndividu.Form.Submit does not model the `userId: user.id || user.userId` sent with the payload. The person in charge after a reset arrives already computed as the `ownId` parameter.
- IndividuAudit.IndividuStore.AddOrUpdate, IndividuAudit.IndividuStore.Update and IndividuAudit.IndividuStore.Create: the ids of `users` and `categories` are fixed for the store's life; deleting a user or a category, and the `ON DELETE SET NULL` it triggers, are not modelled. Only an integer user id is checked against `users`; a user id given as text reaches the audit through SQLite's type affinity, and its failures arrive only through `auditFails`.

## Findings

| source | as written | input that shows it | evidently intended | confidence | as-written member | corrected member |
|---|---|---|---|---|---|---|
| main.js:302-307 | The older copy's lookup trims and lower-cases the Windows name but keeps the domain. `associer-login-windows` stores only the part after the last backslash. | Associate `CORP\alice`, which stores `alice`. Then auto-login as `CORP\alice`: the lookup compares `corp\alice` with `alice` and finds no user. | Strip the domain before the lookup, as `src/main.js:847-856` does. Both `Auth.jsx` copies strip it before the call (`src/components/Auth.jsx:22-25`, `src/renderer/components/Auth.jsx:23-26`); only a direct IPC call shows the miss. | not executed | WindowsLogin.LegacyMissesDomainLogin | WindowsLogin.DomainLoginFound |
| src/renderer/components/IndividusList.jsx:441-443 | The list passes `onPageChange={(e, p) => setCurrentPage(p + 1)}`. `DattaDataTable` calls `onPageChange(i)` with one argument, so `p` is undefined and the page becomes NaN. | A list of 21 rows, then a click on page button 2: the page becomes NaN and the table shows no rows. | `onPageChange={(p) => setCurrentPage(p + 1)}`, which shows the page that was clicked. | not executed | IndividusList.RendererPaginationEmptiesTable | IndividusList.RendererPaginationShowsPage |
