# Gatekeeper core, modelled in Dafny

Gatekeeper is an event check-in application. This project models four of its
parts and proves properties about them:

- **City search** (`app/services/RegionService.ts`). The service loads a
  list of provinces (`provinsi`) with their cities (`kota`) and flattens it
  into trimmed (city, province) places. `searchKota` scores every place
  against a query. A case-insensitive containment match on the city scores
  1.0. A containment match on the province scores 0.8. Otherwise the place
  gets the better Levenshtein similarity of city and province, if that
  reaches the threshold. The results are stably sorted by descending score
  and cut with `slice(0, limit)`. Modules `EditDistance` and `Regions`.
- **CSV import** (`parseCSV` in `app/controllers/AttendeeController.ts`).
  It splits lines on `\n` and cells on `,`, with no quoting. The first line
  names the columns. Every later line with a non-empty name becomes an
  attendee record. Module `AttendeeImport`.
- **Check-in desk** (`checkin` and `undo` in
  `app/controllers/CheckInController.ts`). They act on three tables: the
  attendees, the check-in rows and the event settings. Module `CheckIn`.
- **Onboarding wizard** (`app/controllers/OnboardingController.ts`). It
  covers the slug rule for organization and event names and the guard of
  the step page. It also covers the three `submit` steps and `skip`, which
  create an organization, its first event and its team, and which move the
  organization's `onboarding_step` and `onboarding_completed` columns.
  Module `Onboarding`.

Module `JsString` models the JavaScript built-ins these parts rely on:
`trim`, `toLowerCase`, `includes`, `split`/`join` and `parseInt`. Module
`Wrappers` holds `Option`.

The database is modelled as its tables. Keyed lookups are `map`s and
insertion-ordered tables are `seq`s. Each handler is a `method` of a class
whose fields are those tables. Each method is proved equal to a pure
function of the old tables (`AfterCheckin`, `AfterStep2`, ...), and the
properties are lemmas about those functions. Fresh ids (`uuidv7()`) enter
as a function `newId: nat -> Uuid` and the clock (`Date.now()`) as a
parameter `now`. The bundled `region.json` is the constructor's
parameter.

The comments at `OnboardingController.ts:113` and `:188` say steps 2 and 3
pick the newest organization "not completed onboarding". The queries below
those comments do not filter on completion. The model follows the queries.
`Onboarding.Step2ReopensCompleted` shows the consequence: step 2 on an
already completed organization sets its step back to 3.

## Model

| member | source | states |
|---|---|---|
| `Regions.RegionService.constructor` | app/services/RegionService.ts:20-22 | the service holds the given region list and its flattened place list is that list's flattening |
| `Regions.RegionService.LoadRegions` | app/services/RegionService.ts:24-40 | after loading, the regions are the given list and the place list is one trimmed place per city, region by region |
| `Regions.FlattenLength` | app/services/RegionService.ts:29-36 | the flattened list has exactly one place per city of every region |
| `Regions.FlattenAt` | app/services/RegionService.ts:29-36 | city `k` of region `r` sits at position "cities before `r`, plus `k`", trimmed and paired with its own province |
| `Regions.RegionService.LevenshteinDistance` | app/services/RegionService.ts:42-70 | the matrix method returns the edit distance of the two strings |
| `Regions.RegionService.FillRow` | app/services/RegionService.ts:56-66 | filling one row leaves every cell of that row equal to the recurrence and every other row unchanged |
| `EditDistance.CellUnfold` | app/services/RegionService.ts:55-67 | an inner cell copies the diagonal on equal characters, and otherwise is one more than the least of its three neighbours |
| `EditDistance.CellUpper` | app/services/RegionService.ts:42-70 | a matrix cell never exceeds the longer of its two prefixes |
| `EditDistance.CellLower` | app/services/RegionService.ts:42-70 | a matrix cell is never below the difference of its prefixes' lengths |
| `EditDistance.DistanceBounds` | app/services/RegionService.ts:42-70 | the distance lies between the length difference and the longer length |
| `EditDistance.DistanceFromEmpty` | app/services/RegionService.ts:48-53 | the distance to or from the empty string is the other string's length |
| `EditDistance.CellSymmetric` | app/services/RegionService.ts:42-70 | cell `(i, j)` for `(a, b)` equals cell `(j, i)` for `(b, a)` |
| `EditDistance.CellSymmetricBorder` | app/services/RegionService.ts:48-53 | row 0 and column 0 are symmetric |
| `EditDistance.CellSymmetricMatch` | app/services/RegionService.ts:57-58 | the equal-character case keeps symmetry |
| `EditDistance.CellSymmetricStep` | app/services/RegionService.ts:59-65 | the minimum-of-three case keeps symmetry |
| `EditDistance.DistanceSymmetric` | app/services/RegionService.ts:42-70 | the distance does not depend on argument order |
| `EditDistance.CellDiagonalSelf` | app/services/RegionService.ts:42-70 | a string is at distance 0 from itself on every prefix |
| `EditDistance.CellZeroIff` | app/services/RegionService.ts:42-70 | a cell is 0 exactly when the two prefixes are equal |
| `EditDistance.DistanceZeroIff` | app/services/RegionService.ts:42-70 | the distance is 0 exactly when the strings are equal |
| `EditDistance.KittenSitting` | app/services/RegionService.ts:42-70 | the distance from "kitten" to "sitting" is 3 |
| `Regions.Similarity` | app/services/RegionService.ts:72-83 | the similarity always lies in [0, 1] |
| `Regions.RatioInUnit` | app/services/RegionService.ts:81 | distance over the longer length lies in [0, 1] |
| `Regions.RegionService.CalculateSimilarity` | app/services/RegionService.ts:72-83 | the method computes the similarity, 1 for two empty strings, and its value lies in [0, 1] |
| `Regions.SimilaritySymmetric` | app/services/RegionService.ts:72-83 | the similarity does not depend on argument order |
| `Regions.SimilarityOneIff` | app/services/RegionService.ts:72-83 | the similarity is 1 exactly when the strings agree once lower-cased |
| `Regions.SimilarityIgnoresCase` | app/services/RegionService.ts:73-74 | lower-casing either argument first does not change the similarity |
| `Regions.BandngBandung` | app/services/RegionService.ts:72-83 | "bandng" against "Bandung" has similarity 1 - 1/7 |
| `Regions.BandngDistance` | app/services/RegionService.ts:42-70 | "bandng" is one edit from "bandung" |
| `Regions.BandngRow2` | app/services/RegionService.ts:55-67 | row 2 of the "bandng"/"bandung" matrix, cell by cell |
| `Regions.BandngRow4` | app/services/RegionService.ts:55-67 | row 4 of the "bandng"/"bandung" matrix, cell by cell |
| `Regions.ContainsSubstringIff` | app/services/RegionService.ts:85-89 | containment holds exactly when one lower-cased string occurs inside the other |
| `Regions.ContainsSubstringSymmetric` | app/services/RegionService.ts:85-89 | containment is symmetric and ignores case |
| `Regions.ContainsEmpty` | app/services/RegionService.ts:88 | every string contains the empty string |
| `Regions.SameLowerContains` | app/services/RegionService.ts:85-89 | strings equal up to case contain each other |
| `Regions.Score` | app/services/RegionService.ts:103-118 | a place's score lies in [0, 1] |
| `Regions.ScoreOneIff` | app/services/RegionService.ts:103-118 | a place scores 1.0 exactly when its city and the query contain one another: the similarity tier never reaches 1.0 |
| `Regions.EmptyCityAlwaysScoresOne` | app/services/RegionService.ts:107-113 | a place with an empty city scores 1.0 for every query |
| `Regions.KeptSound` | app/services/RegionService.ts:99-127 | every kept result is a listed place with its own positive score |
| `Regions.KeptComplete` | app/services/RegionService.ts:120-126 | every place with a positive score is kept |
| `Regions.CityMatchScoresOne` | app/services/RegionService.ts:112-113 | a city containment match is kept with score 1.0 |
| `Regions.ProvinceMatchScoresPointEight` | app/services/RegionService.ts:114-115 | a match through the province alone is kept with score 0.8 |
| `Regions.InsertMultiset` | app/services/RegionService.ts:129 | one insertion step adds exactly the inserted result |
| `Regions.InsertElements` | app/services/RegionService.ts:129 | an insertion holds only the inserted result and the old ones |
| `Regions.InsertSorted` | app/services/RegionService.ts:129 | inserting into a sorted list keeps it sorted |
| `Regions.SortByScoreSorted` | app/services/RegionService.ts:129 | the sort yields non-increasing scores and a permutation of its input |
| `Regions.InsertStable` | app/services/RegionService.ts:129 | insertion keeps the relative order of equal scores |
| `Regions.SortByScoreStable` | app/services/RegionService.ts:129 | the sort is stable: the results of each score stay in input order |
| `Regions.SliceEnd` | app/services/RegionService.ts:131 | `slice(0, limit)` ends at `min(limit, n)` for a non-negative limit, and at `n + limit` clamped at 0 for a negative one |
| `Regions.PrefixOfSorted` | app/services/RegionService.ts:131 | a prefix of a sorted list is sorted and drawn from that list |
| `Regions.SearchSound` | app/services/RegionService.ts:91-132 | a short query gives nothing; otherwise at most `limit` results (for a non-negative limit), sorted, each a listed place with its own score in (0, 1] |
| `Regions.SearchCut` | app/services/RegionService.ts:129-131 | for a query of two or more characters the result is the first `min(limit, k)` of the `k` kept results once sorted, or all but the last `-limit` for a negative limit |
| `Regions.SortLength` | app/services/RegionService.ts:129 | sorting keeps the number of results |
| `Regions.SearchKeepsBest` | app/services/RegionService.ts:129-131 | a kept result left out by the cut scores no higher than any returned one |
| `Regions.CutScores` | app/services/RegionService.ts:131 | every element past the cut of a sorted list scores no higher than those before it |
| `Regions.BelowThresholdExcluded` | app/services/RegionService.ts:116-120 | a place with no containment match and both similarities below the threshold is never returned |
| `Regions.RegionService.SearchKota` | app/services/RegionService.ts:91-132 | the method returns the search of its place list: empty for a short query, exactly `min(limit, k)` of the `k` kept results for a non-negative limit, sorted, only listed places with scores in (0, 1] |
| `Regions.RegionService.GetAllProvinces` | app/services/RegionService.ts:134-136 | one province name per region, in order |
| `Regions.FindProvince` | app/services/RegionService.ts:139-141 | the index found is the first region whose province matches ignoring case, and none means no region matches |
| `Regions.RegionService.GetKotaByProvince` | app/services/RegionService.ts:138-143 | the cities of the first region matching ignoring case, or nothing when none matches |
| `Regions.KotaByProvinceIgnoresCase` | app/services/RegionService.ts:140 | names that agree up to case look up the same cities |
| `Regions.RegionService.GetAllKota` | app/services/RegionService.ts:145-147 | the place list is the flattening of the loaded regions |
| `JsString.LowerChar` | app/services/RegionService.ts:73-74 | a lower-cased character is not upper-case, other characters are unchanged, and whitespace is preserved |
| `JsString.Lower` | app/services/RegionService.ts:73-74 | `toLowerCase` keeps the length and lower-cases each character |
| `JsString.LowerIdempotent` | app/services/RegionService.ts:73-74 | lower-casing twice is lower-casing once |
| `JsString.LowerIdentity` | app/controllers/OnboardingController.ts:64 | a string with no upper-case letter is its own lower-case form |
| `JsString.TrimStartSpec` | app/controllers/AttendeeController.ts:22 | dropping leading whitespace leaves the suffix after the whitespace run |
| `JsString.TrimEndSpec` | app/controllers/AttendeeController.ts:22 | dropping trailing whitespace leaves the prefix before the whitespace run |
| `JsString.TrimSpec` | app/controllers/AttendeeController.ts:22 | `trim` leaves a slice that starts and ends with non-whitespace, with only whitespace cut off |
| `JsString.TrimIdempotent` | app/controllers/AttendeeController.ts:29 | trimming twice is trimming once |
| `JsString.IncludesIff` | app/services/RegionService.ts:88 | `includes` holds exactly when the pattern occurs somewhere |
| `JsString.IncludesEmpty` | app/services/RegionService.ts:88 | every string includes the empty string |
| `JsString.Split` | app/controllers/AttendeeController.ts:22 | a split has at least one piece and no piece holds the separator |
| `JsString.JoinSplit` | app/controllers/AttendeeController.ts:25 | joining the pieces of a split gives back the string |
| `JsString.SplitNoSeparator` | app/controllers/AttendeeController.ts:22-23 | a string without the separator splits into itself alone |
| `JsString.SplitPrefix` | app/controllers/AttendeeController.ts:22 | a separator-free piece before a separator splits off first |
| `JsString.SplitJoin` | app/controllers/AttendeeController.ts:29 | splitting a join of separator-free pieces gives back the pieces |
| `JsString.DigitValue` | app/controllers/OnboardingController.ts:29 | a digit's value is at most 36 |
| `JsString.DigitRun` | app/controllers/OnboardingController.ts:29 | `parseInt` reads the longest prefix of digits of the radix |
| `JsString.DecimalDigit` | app/controllers/OnboardingController.ts:29 | the numeral character of a digit has that digit's value |
| `JsString.Decimal` | app/controllers/OnboardingController.ts:29 | the decimal numeral is non-empty, all digits, with no leading zero |
| `JsString.DecimalValue` | app/controllers/OnboardingController.ts:29 | a decimal numeral denotes its number |
| `JsString.DigitRunAll` | app/controllers/OnboardingController.ts:29 | a string of digits is read in full |
| `JsString.ParseIntDecimal` | app/controllers/OnboardingController.ts:29 | `parseInt` reads back the numeral of every integer, sign included |
| `AttendeeImport.CellAt` | app/controllers/AttendeeController.ts:33-37 | `values[index]` is the cell exactly when the line has that many cells, and absent past the end |
| `AttendeeImport.Assign` | app/controllers/AttendeeController.ts:33-37 | a known header overwrites only its own field, and an unknown header changes nothing |
| `AttendeeImport.HeaderRow` | app/controllers/AttendeeController.ts:25 | one header per cell of the first line |
| `AttendeeImport.ValueRow` | app/controllers/AttendeeController.ts:29 | one value per cell of a data line |
| `AttendeeImport.ReadLine` | app/controllers/AttendeeController.ts:29-38 | the loop over the headers builds the line's record |
| `AttendeeImport.ParseCSV` | app/controllers/AttendeeController.ts:21-46 | the loop yields the parse of the content: nothing without a data line, only named records, at most one per data line |
| `AttendeeImport.ParseBounds` | app/controllers/AttendeeController.ts:21-46 | a single line gives nothing, every record is named, and there is at most one record per data line |
| `AttendeeImport.RowsBounds` | app/controllers/AttendeeController.ts:28-43 | at most one record per line, each one named |
| `AttendeeImport.RowsSnoc` | app/controllers/AttendeeController.ts:28-43 | one more line appends its record exactly when the record is named |
| `AttendeeImport.SingleLineEmpty` | app/controllers/AttendeeController.ts:22-23 | content that is one line once trimmed gives no records |
| `AttendeeImport.FillUnmatched` | app/controllers/AttendeeController.ts:32-38 | a field whose header labels no column stays absent |
| `AttendeeImport.FillLastMatch` | app/controllers/AttendeeController.ts:32-38 | a field takes the cell under the last column with its header, absent when the line is too short |
| `AttendeeImport.FillIgnoresOtherColumns` | app/controllers/AttendeeController.ts:32-38 | cells under unknown headers do not affect the record |
| `AttendeeImport.RowsOrder` | app/controllers/AttendeeController.ts:28-43 | every record comes from a data line, records keep line order, and every named line contributes its record |
| `CheckIn.HasRow` | app/controllers/CheckInController.ts:179-181 | the attendee has a row exactly when some check-in row names it |
| `CheckIn.RowsWithout` | app/controllers/CheckInController.ts:244-246 | the delete keeps exactly the rows of other attendees, and never adds a row |
| `CheckIn.AfterCheckin` | app/controllers/CheckInController.ts:147-219 | each rejection happens exactly under its guard (login, not found in this event, already checked in, duplicate forbidden with an existing row) and changes nothing |
| `CheckIn.AfterUndo` | app/controllers/CheckInController.ts:221-258 | each rejection happens exactly under its guard (login, not found in this event, not checked in) and changes nothing |
| `CheckIn.CheckInTables.Checkin` | app/controllers/CheckInController.ts:147-219 | the handler's outcome and new tables are those of the check-in function on the old tables |
| `CheckIn.CheckInTables.Undo` | app/controllers/CheckInController.ts:221-258 | the handler's outcome and new tables are those of the undo function on the old tables |
| `CheckIn.CheckInTables.constructor` | app/controllers/CheckInController.ts:147-258 | the tables start as given |
| `CheckIn.CheckinEffect` | app/controllers/CheckInController.ts:192-208 | a check-in appends exactly one `qr` row by this user and changes only this attendee's status and check-in columns |
| `CheckIn.UndoEffect` | app/controllers/CheckInController.ts:244-255 | an undo deletes every row of the attendee and no other, and resets only this attendee |
| `CheckIn.CountWithout` | app/controllers/CheckInController.ts:244-246 | after the delete the attendee has no rows and every other attendee keeps its count |
| `CheckIn.CountAppend` | app/controllers/CheckInController.ts:192-199 | the insert adds one row to this attendee's count and none to others |
| `CheckIn.HasRowCount` | app/controllers/CheckInController.ts:179-183 | an existing row is the same as a positive row count |
| `CheckIn.CheckinThenUndo` | app/controllers/CheckInController.ts:147-258 | a check-in then an undo of a fresh registered attendee restore the tables, apart from `updated_at` |
| `CheckIn.UndoAppended` | app/controllers/CheckInController.ts:244-246 | the delete after a first check-in removes exactly the row it appended |
| `CheckIn.RowsWithoutAbsent` | app/controllers/CheckInController.ts:244-246 | deleting the rows of an attendee without rows changes nothing |
| `CheckIn.UndoThenCheckin` | app/controllers/CheckInController.ts:166-190 | after an undo the attendee can be checked in again, even where duplicates are forbidden |
| `CheckIn.RowsBelong` | app/controllers/CheckInController.ts:192-199 | in consistent tables an unknown attendee has no rows |
| `CheckIn.RowsBelongHelper` | app/controllers/CheckInController.ts:192-199 | rows that all name known attendees give an unknown one a count of 0 |
| `CheckIn.CheckinPreservesConsistent` | app/controllers/CheckInController.ts:147-219 | a check-in keeps rows, statuses and check-in columns in agreement |
| `CheckIn.UndoPreservesConsistent` | app/controllers/CheckInController.ts:221-258 | an undo keeps rows, statuses and check-in columns in agreement |
| `CheckIn.DuplicateRejectionUnreachable` | app/controllers/CheckInController.ts:178-190 | in consistent tables the duplicate check-in rejection never fires, because the status guard covers every repeat |
| `Onboarding.KeepSlugChars` | app/controllers/OnboardingController.ts:64 | only `[a-z0-9-]` characters are left |
| `Onboarding.Slug` | app/controllers/OnboardingController.ts:64 | a slug holds only `[a-z0-9-]` characters |
| `Onboarding.DashRunsRemovesWhitespace` | app/controllers/OnboardingController.ts:64 | no whitespace survives the dashing |
| `Onboarding.DashRunsNoWhitespace` | app/controllers/OnboardingController.ts:64 | a string without whitespace passes the dashing unchanged |
| `Onboarding.KeepSlugCharsIdentity` | app/controllers/OnboardingController.ts:64 | a string already in slug characters is kept whole |
| `Onboarding.KeepSlugCharsAppend` | app/controllers/OnboardingController.ts:64 | the character filter works piece by piece |
| `Onboarding.SlugOfSlug` | app/controllers/OnboardingController.ts:64 | a name already in slug form is its own slug |
| `Onboarding.SlugIdempotent` | app/controllers/OnboardingController.ts:128 | deriving a slug twice gives the same slug |
| `Onboarding.DashRunsWord` | app/controllers/OnboardingController.ts:64 | a word passes the dashing and ends any whitespace run |
| `Onboarding.DashRunsSpaces` | app/controllers/OnboardingController.ts:64 | a whitespace run of any length becomes one dash |
| `Onboarding.SlugExampleRun` | app/controllers/OnboardingController.ts:64 | "My  Org!" has slug "my-org" |
| `Onboarding.LowerExample` | app/controllers/OnboardingController.ts:64 | the lower-cased form of "My  Org!" |
| `Onboarding.DashExample` | app/controllers/OnboardingController.ts:64 | the dashed form of "my  org!" |
| `Onboarding.KeepExample` | app/controllers/OnboardingController.ts:64 | the filtered form of "my-org!" |
| `Onboarding.SlugExampleDash` | app/controllers/OnboardingController.ts:128 | "a - b" has slug "a---b": existing dashes are kept next to the new ones |
| `Onboarding.OrNone` | app/controllers/OnboardingController.ts:80 | `x \|\| null` keeps a value exactly when it is a non-empty string |
| `Onboarding.NewestOwned` | app/controllers/OnboardingController.ts:114-117 | the organization found is the user's last in `created_at` order (in onboarding, for `skip`), and none means the user has none |
| `Onboarding.UserByEmail` | app/controllers/OnboardingController.ts:206 | the user found is the first with that e-mail, and none means no user has it |
| `Onboarding.StepPageAsWritten` | app/controllers/OnboardingController.ts:24-44 | as written, the page shows the parsed step to a logged-in user |
| `Onboarding.StepPageShowsNaN` | app/controllers/OnboardingController.ts:29-33 | as written, the parameter "abc" reaches the page with step `NaN` |
| `Onboarding.StepPage` | app/controllers/OnboardingController.ts:29-33 | corrected guard: only steps 1 to 3 reach the page, and anything else goes to step 1 |
| `Onboarding.StepPageAgreesOnNumbers` | app/controllers/OnboardingController.ts:29-33 | the corrected guard answers like the written one on every numeric parameter |
| `Onboarding.AfterStep1` | app/controllers/OnboardingController.ts:55-102 | a missing name and a taken slug are rejected with their messages, with no change |
| `Onboarding.AfterStep2` | app/controllers/OnboardingController.ts:104-183 | missing required fields are rejected with their message, and every reply but the step 3 redirect leaves the tables unchanged |
| `Onboarding.AfterStep3` | app/controllers/OnboardingController.ts:185-239 | a user without an organization is sent to step 1 with no change |
| `Onboarding.AfterSubmit` | app/controllers/OnboardingController.ts:46-55 | logged out goes to login; a step other than 1 to 3, `NaN` included, goes to step 1 with no change |
| `Onboarding.AfterSkip` | app/controllers/OnboardingController.ts:250-272 | logged out goes to login; without an organization in onboarding nothing changes |
| `Onboarding.OnboardingTables.constructor` | app/controllers/OnboardingController.ts:46-248 | the tables start as given |
| `Onboarding.OnboardingTables.Submit` | app/controllers/OnboardingController.ts:46-248 | the handler's reply and new tables are those of the submit function on the old tables |
| `Onboarding.OnboardingTables.SubmitStep1` | app/controllers/OnboardingController.ts:55-102 | the handler's step 1 matches the step 1 function |
| `Onboarding.OnboardingTables.SubmitStep2` | app/controllers/OnboardingController.ts:104-183 | the handler's step 2 matches the step 2 function |
| `Onboarding.OnboardingTables.SubmitStep3` | app/controllers/OnboardingController.ts:185-239 | the loop over the team list matches the step 3 function |
| `Onboarding.OnboardingTables.Skip` | app/controllers/OnboardingController.ts:250-272 | the handler's reply and new tables are those of the skip function |
| `Onboarding.Step1Effect` | app/controllers/OnboardingController.ts:76-101 | step 1 appends one organization at step 2, not completed, under the name's slug, plus its admin membership, and nothing else |
| `Onboarding.Step2KeepsEventSlugsUnique` | app/controllers/OnboardingController.ts:128-154 | step 2 keeps event slugs unique |
| `Onboarding.Step2Effect` | app/controllers/OnboardingController.ts:125-182 | step 2 moves the newest organization to step 3 and leaves every other one alone; a new event belongs to it, under the name's slug, with settings forbidding duplicate check-ins |
| `Onboarding.Step2ReopensCompleted` | app/controllers/OnboardingController.ts:113-117 | step 2 on a completed organization keeps it completed but sets its step back to 3 |
| `Onboarding.Step3Effect` | app/controllers/OnboardingController.ts:200-238 | step 3 marks the newest organization completed at step 4 and only appends staff memberships of it |
| `Onboarding.AddTeamAppends` | app/controllers/OnboardingController.ts:202-228 | the team loop only appends staff memberships of the organization |
| `Onboarding.AddTeamKeepsUnique` | app/controllers/OnboardingController.ts:209-225 | the team loop never adds a second membership of a user in the organization |
| `Onboarding.AddTeamCovers` | app/controllers/OnboardingController.ts:203-227 | every listed address with `@` that belongs to a user makes that user a member |
| `Onboarding.IncludesNonEmpty` | app/controllers/OnboardingController.ts:204 | a string containing `@` is not empty |
| `Onboarding.SkipEffect` | app/controllers/OnboardingController.ts:255-269 | skip marks the newest organization in onboarding completed at step 5 and leaves the rest alone |
| `Onboarding.SetProgressEvolves` | app/controllers/OnboardingController.ts:175-180 | setting one organization's step to a value from 2 to 5 without clearing completion is an allowed change |
| `Onboarding.Step1Evolves` | app/controllers/OnboardingController.ts:55-102 | step 1 is an allowed change of the organization table |
| `Onboarding.Step2Evolves` | app/controllers/OnboardingController.ts:104-183 | step 2 is an allowed change of the organization table |
| `Onboarding.Step3Evolves` | app/controllers/OnboardingController.ts:185-239 | step 3 is an allowed change of the organization table |
| `Onboarding.SubmitEvolves` | app/controllers/OnboardingController.ts:46-272 | every submit and every skip is an allowed change: at most one new organization at step 2 under a free slug, slugs and completion kept, steps moved only within 2 to 5 |
| `Onboarding.EvolvesKeepsSlugsUnique` | app/controllers/OnboardingController.ts:64-74 | unique organization slugs stay unique |
| `Onboarding.EvolvesKeepsCompletion` | app/controllers/OnboardingController.ts:230-236 | no submit or skip clears `onboarding_completed` |
| `Onboarding.EvolvesKeepsStepRange` | app/controllers/OnboardingController.ts:175-180 | steps stay within 1 to 5 |

## Left out

- The database is modelled as plain tables. Queries are exact lookups with no concurrency, and each handler runs alone, with no partial failure between its writes.
- `uuidv7()` and `Date.now()` are parameters. Every call to `Date.now()` within one request is taken to return the same `now`.
- Responses are reduced to an outcome or a redirect target with its flashed error. JSON bodies, the Inertia pages and HTTP status codes are not modelled.
- `JsString.Lower`: lower-cases ASCII letters only, because full Unicode case mapping is out of scope.
- `JsString`: a Dafny `char` is a Unicode scalar value, so the model counts scalar values where JavaScript counts UTF-16 code units. For a string with a character outside the Basic Multilingual Plane, JavaScript's `.length` and indexing see two units where the model sees one. Lengths, edit distances and similarities then differ: `"😀a"` against `"a"` has similarity 1 - 2/3 in JavaScript and 1 - 1/2 here. This costs `Regions.Similarity` and `Regions.RegionService.LevenshteinDistance` their agreement with the source on such strings.
- `JsString.IsWhitespace`: holds the six ASCII whitespace characters. The non-ASCII characters that JavaScript's `trim` and `\s` also strip are not included.
- `JsString.ParseInt`: omits the radix argument, `Infinity` and float precision beyond 2^53. `-0` is folded into `0`.
- `Regions.RegionService.LoadRegions`: the `try`/`catch` and its `console.error` are not modelled, because loading a value in memory cannot throw here.
- `Regions.RegionService.SearchKota`: the defaults `limit = 10` and `threshold = 0.5` are not applied, so both are explicit parameters. Scores are exact reals rather than IEEE doubles. The unused `normalizedQuery` is computed and discarded, as in the source. RegionController's parameter handling is not part of this model.
- `Regions.RegionService.GetKotaByProvince` and `GetAllKota`: return the stored sequences. Aliasing of the returned JavaScript arrays with the service's own arrays is not modelled.
- `AttendeeImport.ParseCSV`: only the five copied columns are modelled. The way `import` uses the records (validation, insert) is not part of this model.
- `CheckIn`: the attendee table keeps only the columns the two handlers read or write.
- `CheckIn.AfterCheckin`: assumes the database supplies the check-in row's `id` and that the insert succeeds. The insert at `CheckInController.ts:192-199` gives no `id`. The migration `20250120000007_create_check_ins_table.ts:5` declares `id` as a non-null primary key with no default. Against that schema the insert fails, and the handler throws after its guards and before the attendee update at `:201-208`. The success branch of the model, with one row appended and the attendee checked in, is therefore what the handler does only where the database fills in the id.
- `CheckIn.CheckInTables.Checkin`: the `org_uuid` route parameter is not checked against the event, neither by the source nor by the model.
- `Onboarding`: `welcome` and `complete` only render pages and are not modelled. The step page's user lookup is modelled; the page data is not.
- `Onboarding.AfterStep2`: the start and end dates are stored as submitted, because converting them with `dayjs(...).utc().valueOf()` is not modelled.
- `Onboarding.AfterSubmit`: the `try`/`catch` is not modelled. It flashes a generic error and redirects to the same step when a database call throws.
- `Onboarding.NewestOwned`: takes the tables' order as `created_at` order. Ties between equal timestamps are not modelled.

## Findings

| source | as written | input that shows it | evidently intended | confidence | as-written member | corrected member |
|---|---|---|---|---|---|---|
| app/controllers/OnboardingController.ts:29-33 | the guard redirects when `step < 1 \|\| step > 3`, and both comparisons are false for `NaN` | `GET /onboarding/step/abc`: `parseInt("abc")` is `NaN`, so the step page is rendered with step `NaN` | any parameter that is not an integer from 1 to 3 redirects to step 1 | medium, not executed | `Onboarding.StepPageShowsNaN` | `Onboarding.StepPage` |
