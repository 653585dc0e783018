# IM-Telligence backend: a verified model

IM-Telligence is the backend of a teaching platform: schools, teachers who take one or more classes of a grade, lessons opened one after another, an AI assistant with a rolling allowance, and accounts that must survive guessing. Several of its services are state machines over database rows. This project models those services in Dafny and proves what each of them is for, over every input or every run.

Check it with `dafny verify dfyconfig.toml`.

## How the model is laid out

Where the service edits rows in place, the model has a class whose methods do the same, each proved against a function of the old state; the theorems are about those functions.

- **Classes of a grade** (`SectionTables`, `HoldingLabels`, `SectionRenames`, `SectionEdits`, `Sections`). The history of a class lives in three tables under its label. The session of the service does not autoflush, so every query selects by the labels the database holds while assignments wait in memory; `Sections.Records` keeps both pictures.
- **Lesson sequencing** (`LessonAccess`, `AccessRules`, `ProgressBook`, `ProgressRuns`, `RequestRules`). The walk along each track, the rule it computes, and everything that writes a progress row or a request.
- **Sign-in** (`AccountLockout`, `NetworkThrottle`, `NetworkCycles`, `SessionProtocol`). The account lockout, the throttle of a network address with its bans, and refreshes racing with the ending of all sessions: the check, the rotation, the sweep, the cutoff and each commit are steps of their own, interleaved at will.
- **The assistant** (`AiQuota`, `AiQuotaRuns`, `ProviderChain`, `AnswerStream`). The allowance, requests racing for it, the chain of providers, and one question from its charge to its last frame.
- **Assignments** (`Assignments`, `AssignmentRules`, `BulkEdits`). The grade, language and year rule, its smart strip, and edits by hand with their preview.
- **The database itself** (`BackupCodec`, `Backup`, `BackupSchema`, `BackupRules`, `Migrations`, `MigrationRules`). The JSON backup and its restore, the service's own tables, and levelling an unstamped database.
- `Clock` and `Sets` are shared helpers. One integer clock stands for all timestamps.

## What the proofs found

The model keeps the code's behaviour where it falls short of its comments. Each line below names what is proved of it: a concrete input or run where a single one shows it, and the condition under which it happens.

- Swapping two classes is accepted, but when the one named first in the swap is the grade's first class, the picture used by the following step folds it back to its old name, and the other class's history is filed under the wrong one (`SectionEdits.SwapMisfiles`; exact condition, wherever the two stand, `SectionEdits.SwapExactly`; for any accepted edit, `SectionEdits.EditRelabels`).
- Dropping or reordering a grade's first class, with no rename at all, files its history under the class that is first now, wherever that one holds none, although the same step promises that rows of classes that went away are left alone (`SectionEdits.DroppedFirstIsRefiled`; exact condition `SectionEdits.NoRenameExactly`).
- Renaming two classes to one label is accepted and merges their messages about a lesson, although one move by itself never merges (`SectionEdits.TwoToOneMerges`; `SectionTables.OneMoveKeepsRooms`; `SectionRenames.RoomsKeptExactly`).
- Rows a blocked rename left under a holding label are swept up by a later edit's rename, of whatever class (`SectionEdits.LeftoversAreAdopted`, a run of two edits; exact condition `SectionRenames.LeftoversExactly`).
- Normalising stored labels again changes one that was cut just after a blank (`Sections.CutLabelChanges`; exact condition `Sections.NormalizeTwice`).
- Saving a slide in a finished lesson that was reopened takes its completion back, and closes every later lesson that was open only because of it (`ProgressRuns.SlideLocksNextLesson`; exact condition `ProgressRuns.ReportLocksExactly`).
- At the shipped settings the doubling of account locks is unreachable (`AccountLockout.DefaultsNeverEscalate`). A longer lock than the first can happen exactly when the cap leaves room for one and a threshold's worth of first locks is shorter than the counting window (`AccountLockout.EscalationReachable`).
- The windows of the network throttle do not slide: as many failures as one holds, within moments of each other, need not fill one, when the first of them still belong to the window before (`NetworkCycles.StraddlingFailuresPass`); one short of twice as many always do (`NetworkCycles.BurstFillsWindow`).
- The cutoff check lets a token stamped at the cutoff itself through, so a token issued, swept and exchanged in one instant outlives the sweep (`SessionProtocol.TieLetsOneThrough`; exact condition `SessionProtocol.LateRefresh`). Access tokens of the cutoff's own second are still accepted (`SessionProtocol.OldAccessTokens`). A refresh does not look at `revoked` again under the lock, so two requests that read one token both rotate it (`SessionProtocol.OneTokenSpentTwice`; exact condition `SessionProtocol.TwoReadersBothRotate`). The account's lock is needed for the rest: without it a token committed after the sweep chose its rows outlives the ending with no tie (`SessionProtocol.WithoutTheLock`).
- Storing a slide reading commits between the check and the charge and gives the account's lock up; every window still holds at most its limit and the charges made in it without the lock, and at every limit one such commit is enough to reach that bound (`AiQuotaRuns.NoWindowHoldsTooMany`, `AiQuotaRuns.StoredReadingOvercharges`).
- A window holding more than its limit refuses past its reported reset time (`AiQuota.OverfullRefusesLonger`; exact condition `AiQuota.ResetIsExact`).
- A reader who is gone before the first frame is asked for leaves the charge standing: the code that hands it back never starts (`AnswerStream.Ask`).
- Removing assignments by hand leaves requests open on lessons the teacher no longer holds, which the automatic strip takes care to delete (`BulkEdits.RequestIsStranded`; exact condition `BulkEdits.EditStrandsRequests`).
- When the upgrade of an unstamped database fails, the columns added to level it stay: that step commits by itself (`Migrations.Engine.RunMigrations`).

## Model

| member | source | states |
|---|---|---|
| `SectionTables.HoldsAfterPass` | app/services/sections.py:194-266 | after a list of moves a lesson is held under exactly the labels its old labels landed on, in progress, chat and requests together |
| `SectionTables.PassRooms` | app/services/sections.py:221-266 | the three tables keep each class's record of a lesson together and apart from every other class's exactly when no two held labels land on one |
| `SectionTables.OneMoveKeepsRooms` | app/services/sections.py:221-266 | one rename by itself, whatever the tables hold, never merges two classes or splits one |
| `SectionTables.RoomsKeepUnique` | app/services/sections.py:221-266 | keeping classes apart keeps (teacher, lesson, section) unique in progress and at most one pending request per class |
| `HoldingLabels.HoldingInjective` | app/routers/users.py:270-274 | the holding labels of one edit are all different |
| `SectionRenames.TwoPassesRelabel` | app/routers/users.py:265-281 | the two passes equal one simultaneous relabelling of every row of all three tables exactly when, for every lesson, no earlier edit's leftovers are swept up and every renamed class has its holding label free and its new name not held by a class that stays; with no leftovers, exactly when no new name is held by a class that is not itself renamed |
| `SectionRenames.MisplacedPerMove` | app/routers/users.py:265-281 | when no class is renamed twice, that condition move by move: a held source has its holding label free and its target not held by a class that stays, and a held holding label has its target held by one |
| `SectionRenames.LeftoversExactly` | app/routers/users.py:270-281 | rows left under a holding label are swept up exactly when its rename is one of the lesson's grade and no class stays under the rename's target |
| `SectionRenames.OrderIrrelevant` | app/routers/users.py:265-281 | two orders of one rename list give the same tables exactly when they end every stored label alike; with no class renamed twice and nothing left over, exactly when every blocked class has the same place in both |
| `SectionRenames.RoomsKept` | app/routers/users.py:265-281 | with distinct targets per grade every row survives with only its label changed, and no lesson's records of one class are split or folded into another's, whatever the tables hold |
| `SectionRenames.RoomsKeptExactly` | app/routers/users.py:213-283 | for any list of renames, chains and repeated sources included, classes stay apart in every state of the tables if and only if the targets are distinct per grade |
| `SectionEdits.AdoptKeepsRooms` | app/services/sections.py:269-334 | the sync step moves each lesson's rows all together or not at all and never puts two classes under one label |
| `SectionEdits.AdoptOrderIrrelevant` | app/services/sections.py:269-334 | the order the grades are walked in does not matter |
| `SectionEdits.AdoptRoundTrip` | app/services/sections.py:269-334 | syncing to new labels and back restores every row exactly when no lesson had history only under the new first label |
| `SectionEdits.RewriteAgreesExactly` | app/routers/users.py:260-263 | the picture folded one rename at a time agrees with the simultaneous relabelling of labels exactly when no rename's target is a later rename's source |
| `SectionEdits.PlanRewrites` | app/routers/users.py:224-263 | an accepted plan has only real renames, each onto a label the edit kept, and its picture is the fold of those renames |
| `SectionEdits.PlanAcceptsExactly` | app/routers/users.py:224-263 | a list of renames is accepted exactly when each goes to a class the edit kept from one that the renames before it have left in the picture |
| `SectionEdits.RenamedOnce` | app/routers/users.py:250-254 | one class cannot be renamed twice unless another was renamed to it in between |
| `SectionEdits.EditRelabels` | app/routers/users.py:213-283 | every accepted edit, renames and sync step together, carries each class's history straight to the class's new name if and only if the renames misplace nothing and, where a grade's first class in the rewritten picture is not the one it ends with, no lesson has history for the former alone |
| `SectionEdits.PlainEditRests` | app/routers/users.py:213-283 | for an edit without chains that keeps each grade's first class, the sync step moves nothing, whatever the tables hold |
| `SectionEdits.NoRenameExactly` | app/services/sections.py:269-334 | an edit that renames nothing leaves every row alone exactly when no lesson has history for a replaced first class alone |
| `SectionEdits.SwapExactly` | app/routers/users.py:260-263 | a swap of any two classes of a grade is accepted, and is right exactly when nothing left over is in the way and the one named first is not the grade's first class or no lesson has history for the other alone |
| `SectionEdits.EditKeepsRooms` | app/routers/users.py:213-283 | an accepted edit with distinct targets keeps every row, every class and both uniqueness rules |
| `SectionEdits.SwapMisfiles` | app/routers/users.py:260-263 | swapping two classes files one's history under the other |
| `SectionEdits.DroppedFirstIsRefiled` | app/services/sections.py:278-334 | dropping the first class of two, with nothing renamed, files its message under the other |
| `SectionEdits.TwoToOneMerges` | app/routers/users.py:270-281 | two renames onto one label merge two classes' messages |
| `SectionEdits.LeftoversAreAdopted` | app/routers/users.py:270-281 | two accepted edits, the first of them blocked, that end with one class's message filed under another |
| `Sections.NormalizeLabels` | app/services/sections.py:62-78 | the loop keeps exactly the specified list of cleaned labels, first spelling first |
| `Sections.StripTakesBlanks` | app/services/sections.py:62-78 | nothing but the blanks around a label is taken off it |
| `Sections.CleanedLabels` | app/services/sections.py:47-78 | stored labels are bounded in number and length, non-empty, and distinct even up to case |
| `Sections.CleanedComplete` | app/services/sections.py:47-78 | every class typed is stored unless the list was full |
| `Sections.NormalizeTwice` | app/services/sections.py:47-78 | normalising again changes nothing exactly when no stored label was cut right after a blank |
| `Sections.CutLabelChanges` | app/services/sections.py:47-78 | a label cut to end in a blank is stored with it, and is shorter once it is stored again |
| `Sections.ResolveSection` | app/services/sections.py:102-113 | a request resolves to the class it names when that is one of this grade's, to the first when it names none, and is refused otherwise |
| `Sections.Records.LessonsAlreadyKeyed` | app/services/sections.py:194-218 | the lessons with history under a label in any of the three tables, as the database holds them |
| `Sections.Records.RenameSection` | app/services/sections.py:221-266 | every row whose lesson the rename carries, and no other, moves; the count is of the rows carried in all three tables |
| `Sections.CarriedAreCounted` | app/services/sections.py:221-266 | the count of a rename is of its teacher's rows under the old label whose lesson is of the grade and has nothing under the new one |
| `Sections.Records.Flush` | app/routers/users.py:275-281 | labels are written out exactly when progress stays unique, and otherwise nothing is |
| `Sections.Records.ApplySectionRenames` | app/routers/users.py:213-283 | either the edit is refused with nothing changed or the tables are the two passes of the accepted plan |
| `Sections.Records.SyncProgressSections` | app/services/sections.py:269-334 | the loop over grades is the specified pass of adopt moves |
| `Sections.Records.EditClasses` | app/routers/users.py:287-325 | the whole class edit: refused with nothing changed, or accepted with the exact final tables |
| `LessonAccess.WalkTrack` | app/services/lesson_access.py:158-230 | the loop with its carried gate enters for every lesson of a track what the position-wise rule says |
| `LessonAccess.GateDecides` | app/services/lesson_access.py:69-91 | the gate carried so far decides a lesson as the rule does: by the lessons before it and its immediate predecessor's stamp |
| `LessonAccess.ComputeAccess` | app/services/lesson_access.py:117-232 | every taught lesson and class gets exactly the access the rule gives, and nothing else is entered |
| `LessonAccess.OneTrackPerKey` | app/services/lesson_access.py:98-102 | a lesson and class belong to one track only, at one place |
| `AccessRules.SharesTrack` | app/services/lesson_access.py:98-102 | a track is exactly the assigned lessons of one grade, language and year |
| `AccessRules.TaughtExactly` | app/services/lesson_access.py:136-156 | a lesson is taught to each class named for its grade, or to the one without a name when none is |
| `AccessRules.AccessSpelledOut` | app/services/lesson_access.py:69-230 | the access of a lesson on the fields of the lessons alone: finished and not unlocked is closed; behind an unfinished earlier lesson of its grade, language and year is locked; right after one whose wait still runs waits until that ends; the rest is open |
| `AccessRules.OtherRowsDoNotMatter` | app/services/lesson_access.py:98-151 | nothing but the class's own rows of the lessons of that grade, language and year decides |
| `AccessRules.OneCurrentLesson` | app/services/lesson_access.py:158-230 | a track has at most one lesson, not unlocked, that is open or counting down |
| `AccessRules.OverrideIsLocal` | app/services/lesson_access.py:167-230 | an override changes the access of its lesson and class only: set, that is open; cleared, it is what the gate alone gives, whether or not it was set before |
| `AccessRules.TimeOnlyOpens` | app/services/lesson_access.py:69-91 | with progress unchanged, time removes no access; a countdown ends exactly when it said; locked and completed stay |
| `AccessRules.NextLesson` | app/routers/lessons.py:216-264 | the next lesson of a class is its first that is not completed, all before it are completed, and it is never locked |
| `ProgressBook.ResolvePercent` | app/routers/progress.py:60-74 | at most 100, and 100 exactly on an explicit completion |
| `ProgressBook.Register.UpdateProgress` | app/routers/progress.py:93-173 | the reply and the new rows of a report, for every refusal and every accepted report |
| `ProgressBook.WriteRow` | app/routers/progress.py:123-166 | the field-by-field write is the specified row |
| `ProgressBook.Register.CreateRequest` | app/routers/access_requests.py:81-156 | asking reuses a pending request for the same class and is refused when the lesson is open already |
| `ProgressBook.Register.ResolveRequest` | app/routers/access_requests.py:193-217 | only a pending request is settled; granting it unlocks its own lesson and class |
| `ProgressBook.Register.SetLessonOverride` | app/routers/lessons.py:791-864 | one class's override set or cleared, and its pending requests settled when set |
| `ProgressBook.Register.ResetProgress` | app/services/progress_reset.py:53-101 | exactly the rows in scope return to fresh, and the counts are those of the rows before |
| `ProgressRuns.RunsKeepRecords` | app/routers/progress.py:123-166 | after any run of reports, requests, decisions, overrides and resets, completed, 100 percent and a completion stamp go together in every row, and each class has at most one pending request |
| `ProgressRuns.CompletionIsEarned` | app/routers/progress.py:39-57 | a lesson becomes completed only by an explicit completion in its turn, at least the wait after its predecessor, or when unlocked |
| `ProgressRuns.ReportRecords` | app/routers/progress.py:60-173 | a report that reaches an open lesson leaves the nearest percentage, its slide, stamp and status in that one row, and any other report changes nothing |
| `ProgressRuns.ReportAnswered` | app/routers/progress.py:93-121 | which refusal a report meets, and that a finished lesson is answered with its row |
| `ProgressRuns.ReportLocksExactly` | app/routers/progress.py:93-173 | a report closes another open lesson exactly when it takes a completion back and that lesson is later in the same track and not unlocked |
| `ProgressRuns.SlideLocksNextLesson` | app/routers/progress.py:123-166 | a desk of two lessons where saving a slide in the first, finished and reopened, closes the second |
| `ProgressRuns.TeachingStaysInOrder` | app/services/lesson_access.py:158-230 | from a fresh start, after any run of reports the completed lessons of every track are a prefix with stamps at least the wait apart |
| `RequestRules.SettlingIsLocal` | app/routers/access_requests.py:193-217 | a grant opens the request's own lesson to its own class and a denial opens nothing; no other access changes |
| `RequestRules.SettledAsDecided` | app/routers/access_requests.py:193-217 | a pending request is recorded as it was decided, it alone, and any other answer changes nothing |
| `RequestRules.AskRecords` | app/routers/access_requests.py:81-156 | a class that is not open gets one pending request of its own when it asks, unless it has one, and nothing else changes |
| `RequestRules.OverrideSettles` | app/routers/lessons.py:791-864 | setting an override grants exactly what its class has pending on that lesson; clearing it settles nothing |
| `RequestRules.GrantedRequestOpens` | app/routers/access_requests.py:81-217 | a request asked and then granted leaves its lesson open from then on, cannot be asked again, and cannot be settled again either way |
| `RequestRules.ResetTwice` | app/services/progress_reset.py:53-101 | resetting twice is resetting once, and the second run reports nothing cleared |
| `RequestRules.ResetReports` | app/services/progress_reset.py:53-101 | the rows a reset reaches are as created, every other stays, and the five numbers it reports are of those rows as they were |
| `RequestRules.ResetStartsOver` | app/services/progress_reset.py:53-101 | after a whole reset exactly the first lesson of every track is open and the rest are locked |
| `RequestRules.ResetClosesExactly` | app/services/progress_reset.py:53-101 | resetting one finished lesson changes nothing before it in its track and locks exactly what comes after it, neither finished nor unlocked |
| `AccountLockout.Account.RecordFailure` | app/routers/auth.py:338-375 | one wrong password: ignored while locked, counted in its window, locked at the threshold |
| `AccountLockout.RunsStayPaced` | app/routers/auth.py:338-375 | after any run, the count past the threshold, in first locks, fits inside the counting window |
| `AccountLockout.EscalationReachable` | app/routers/auth.py:89-92 | some run leads to a longer lock than the first if and only if the cap is above the base lock and a threshold's worth of first locks is shorter than the window |
| `AccountLockout.LockDoubles` | app/routers/auth.py:89-92 | below twice the threshold a lock is the base or the cap, and each further threshold of failures doubles it up to the cap |
| `AccountLockout.DefaultsNeverEscalate` | app/config.py:45-54 | at the shipped settings, however fine the clock, no count passes eight and every lock is fifteen minutes |
| `AccountLockout.GuessesAreBounded` | app/routers/auth.py:338-375 | without a success, the wrong passwords that met no lock over any stretch are bounded by the windows that fit in it |
| `NetworkThrottle.Throttle.EnforceThrottle` | app/routers/auth.py:153-191 | refuse, or admit and lift exactly what has run out |
| `NetworkThrottle.Throttle.Fail` | app/routers/auth.py:194-245 | one failure: counted, completing a cycle, locking or banning |
| `NetworkThrottle.RunsAreBacked` | app/routers/auth.py:194-245 | in every run the counters are backed by the run's history: the window in progress and the first counted cycle by failures within a failure window, the other cycles by failures after the first was completed, and any sign-in since is remembered |
| `NetworkThrottle.BanIsSound` | app/routers/auth.py:225-245 | whenever a step bans, some failure within the cycle window ended a first cycle whose failures lie within one failure window of it, the failures of every other cycle a ban needs came after it, and no sign-in did |
| `NetworkThrottle.SignInBetweenCycles` | app/routers/auth.py:225-245 | a history with a sign-in between its two cycles justifies no ban |
| `NetworkThrottle.RefusalsEndOnTime` | app/routers/auth.py:153-191 | refused attempts change nothing, so a lock or ban ends at its fixed time and the next attempt is admitted |
| `NetworkThrottle.AdmittedExactly` | app/routers/auth.py:153-191 | an attempt is refused exactly before the lock or the ban ends |
| `NetworkThrottle.BansStandAlone` | app/routers/auth.py:237-245 | a reachable ban carries no lock beside it |
| `NetworkCycles.FilledWindowShutsOut` | app/routers/auth.py:237-245 | from the failure that fills a window on, an attempt is admitted exactly once the lockout, or the time of the ban, has passed |
| `NetworkCycles.FailuresFillWindow` | app/routers/auth.py:194-223 | as many failures as a window holds, the first of them starting one, fill it with the last and not before |
| `NetworkCycles.BurstFillsWindow` | app/routers/auth.py:194-223 | from any state, one short of twice as many failures within less than a window fill one |
| `NetworkCycles.StraddlingFailuresPass` | app/routers/auth.py:194-223 | three failures in three moments that fill no window of three |
| `NetworkCycles.SignInForgives` | app/routers/auth.py:248-270 | after a sign-in nothing is shut out, it takes a whole new window of failures to, and the cycles ended stay counted |
| `NetworkCycles.SeriesIsCounted` | app/routers/auth.py:209-223 | after any run the row's cycles are the windows filled since the series began, and its start is the first of them |
| `NetworkCycles.BansExactly` | app/routers/auth.py:225-245 | the failure that ends a cycle bans the address exactly when enough cycles have ended since the series began and nobody signed in since then |
| `NetworkCycles.BanningEndsCycle` | app/routers/auth.py:225-245 | an attempt bans exactly when it is a failure that ends a cycle and leaves the row banned |
| `SessionProtocol.Sessions.EndAllSessions` | app/services/sessions.py:13-59 | every token revoked, the cutoff moved, and the number of live ones counted |
| `SessionProtocol.Sessions.Refresh` | app/routers/auth.py:500-519 | under the lock: refused for an inactive account or a token older than the cutoff, and otherwise rotated |
| `SessionProtocol.LiveAreCounted` | app/services/sessions.py:13-59 | what an ending reports is how many tokens were not revoked |
| `SessionProtocol.PresentedExactly` | app/routers/auth.py:496-498 | a token is read exactly while it is neither revoked nor expired |
| `SessionProtocol.SpentForGood` | app/routers/auth.py:496-519 | a revoked token stays revoked through every run, with or without the lock, and nobody presents it who had not read it before |
| `SessionProtocol.LogOutSpends` | app/routers/auth.py:522-531 | logging out revokes the token presented and no other |
| `SessionProtocol.SwitchedOffIsRefused` | app/routers/auth.py:503-505 | a refresh gets nothing exactly when the account is switched off |
| `SessionProtocol.InterleavingsAreSafe` | app/services/sessions.py:30-59 | in every interleaving of the separate steps under the lock: no token of before the last ending is live; only one stamped at the cutoff itself can have been exchanged since; every token since descends from a sign-in since or shares one with such a token; and without such a tie every live token descends from a sign-in since |
| `SessionProtocol.RefreshAtOnce` | app/routers/auth.py:500-519 | lock, check, rotation and commit, with nothing between them, are the refresh written as one step |
| `SessionProtocol.EndingAtOnce` | app/services/sessions.py:13-59 | lock, sweep, cutoff and commit, with nothing between them, are the ending written as one step |
| `SessionProtocol.WithoutTheLock` | app/services/sessions.py:30-38 | were the lock not waited for, a token committed after the sweep chose its rows is live after the ending, on an older sign-in, with no tie, and can be exchanged again |
| `SessionProtocol.LateRefresh` | app/routers/auth.py:507-513 | a refresh that read its token before the ending is refused exactly when the token is older than the cutoff |
| `SessionProtocol.TieLetsOneThrough` | app/routers/auth.py:511-513 | a run in which a token stamped at the cutoff is exchanged after the sweep, and a live token then descends from a sign-in of before the ending |
| `SessionProtocol.TwoReadersBothRotate` | app/routers/auth.py:496-519 | of two requests that read one token, the second is given a token exactly when the first was |
| `SessionProtocol.OneTokenSpentTwice` | app/routers/auth.py:496-519 | a run in which one token is exchanged for two live ones |
| `SessionProtocol.OldAccessTokens` | app/deps.py:56-67 | of the access tokens issued before the ending, exactly those of its own second are still accepted |
| `SessionProtocol.AccessRefusedExactly` | app/deps.py:56-67 | an access token is refused exactly when a whole second starts after it was issued and no later than the cutoff |
| `SessionProtocol.NewAccessTokensPass` | app/deps.py:56-67 | in every interleaving each access token issued since the last ending is let through |
| `AiQuota.UsageLog.Enforce` | app/services/ai_usage.py:58-79 | refuses for a spent hour, then for a spent day, and admits otherwise |
| `AiQuota.UsageLog.Refund` | app/services/ai_usage.py:102-118 | exactly the row with that id goes, every other stays where it stood, and nothing happens when there is none |
| `AiQuota.RefundUndoesCharge` | app/services/ai_usage.py:82-118 | a refund undoes its charge whatever was charged or refunded in between |
| `AiQuota.QuotaAgreesWithCheck` | app/services/ai_usage.py:388-422 | a question is admitted exactly when neither remaining count is 0, the counts used are those of the check, what is left is the limit less those, and a reset time is given exactly for a full window |
| `AiQuota.RefusedExactly` | app/services/ai_usage.py:41-79 | each assistant's own two limits decide, on the number of the account's charges for it in the last hour and in the last day |
| `AiQuota.ResetIsExact` | app/services/ai_usage.py:405-410 | a full window refuses up to its reset time, which is its last refusal exactly when fewer charges than the limit came after the oldest one; always so at exactly the limit |
| `AiQuota.OverfullRefusesLonger` | app/services/ai_usage.py:405-410 | three charges against a limit of two: a question just after the reported reset is refused |
| `AiQuotaRuns.NoWindowHoldsTooMany` | app/services/ai_usage.py:41-79 | in every interleaving every closed hour and day on the time line holds at most the limit and the charges made in that same window without the lock |
| `AiQuotaRuns.LockKeepsLimits` | app/services/ai_usage.py:41-79 | with no commit between check and charge, every closed hour and day holds at most its limit |
| `AiQuotaRuns.StoredReadingOvercharges` | app/services/slide_vision.py:152-170 | whatever the limits, a run with a single commit between check and charge makes one charge without the lock and puts one charge more than the tighter limit into one window |
| `AiQuotaRuns.QuestionComesAndGoes` | app/services/ai_usage.py:41-118 | whatever ran before, a question leaves its one row and frees its lock, a refund of it leaves no trace, and one abandoned before its charge leaves neither row nor lock |
| `AiQuotaRuns.OthersKeepTheLock` | app/services/ai_usage.py:41-57 | only the request that holds an account's lock gives it up |
| `AiQuotaRuns.SilenceMakesRoom` | app/services/ai_usage.py:58-79 | after more than a day without a charge everyone is admitted |
| `ProviderChain.Chain.ChatStream` | app/services/llm.py:603-635 | gives the whole reply of the first provider not passed over, or the last failure, and names who replied |
| `ProviderChain.Chain.ChatStreamVision` | app/services/llm.py:637-656 | only the first provider is asked, and silence is a failure |
| `ProviderChain.Chain.Chat` | app/services/llm.py:587-601 | the same for a whole answer |
| `ProviderChain.SilentOnlyIfNobodySpeaks` | app/services/llm.py:603-635 | something is said exactly when some provider speaks and all before it failed retryably |
| `ProviderChain.BackupsChangeNoAnswer` | app/services/llm.py:553-563 | added providers never change an answer or a final failure, and decide alone when all before them were passed over |
| `ProviderChain.FirstToHoldOutAnswers` | app/services/llm.py:553-635 | the reply is that of the first provider that speaks or fails in any but the six known ways; when all fail in those, the last failure is told |
| `ProviderChain.FirstToHoldOutWrites` | app/services/llm.py:553-601 | the same for a whole answer |
| `AnswerStream.StreamAnswer` | app/routers/ai.py:837-871 | vision first when it can be used, then the chain without the image: together one chain of attempts of which one decides; the source is corrected exactly when the image was given up |
| `AnswerStream.EventStream` | app/routers/ai.py:1024-1065 | a reader who leaves after any number of frames was sent that much of the one transcript, and what is stored matches it |
| `AnswerStream.Ask` | app/routers/ai.py:946-1065 | a refusal or a spent allowance charges nothing; otherwise a usage row is left exactly when a piece of the answer was sent, or the stream was never started |
| `AnswerStream.AskWhole` | app/routers/ai.py:899-937 | the answer given whole: a refusal or a spent allowance charges nothing; otherwise a row is left exactly when there was an answer |
| `AnswerStream.NothingIsSpliced` | app/routers/ai.py:837-871 | whatever a reader saw, whenever she left, is the beginning of what one attempt said |
| `AnswerStream.LastRefIsStored` | app/routers/ai.py:1039-1048 | the reference a reader who stayed is left with is the one stored |
| `AnswerStream.AnsweredFrom` | app/routers/ai.py:837-897 | the first provider alone answers while it looks at the image; when it drops out, or there is no image or nobody to see it, the whole chain does, by the prompt rebuilt without the image where there is one, and the source follows the prompt |
| `AnswerStream.WrittenFrom` | app/routers/ai.py:919-930 | a whole answer is asked for by the prompt rebuilt without the image whenever there is one |
| `AnswerStream.RefsTold` | app/routers/ai.py:1028-1048 | the references sent are the one announced, when there is anything to announce, and the one it was corrected to |
| `AnswerStream.StoredSource` | app/routers/ai.py:1024-1065 | a reader who leaves at the announcement has put the question to nobody and the announced source is stored; after one frame more it is the corrected one |
| `AnswerStream.FailureIsTold` | app/routers/ai.py:835-838 | a reader who stays is told of a failure exactly when there is one, by its kind and whether asking again may help |
| `Assignments.Register.EnsureProgress` | app/services/sections.py:129-177 | exactly the missing rows appear, one per lesson and class, and the count is theirs |
| `Assignments.Register.Sync` | app/services/auto_assign.py:145-185 | what matches is assigned, with its rows; nothing is taken away; the count is of new assignments |
| `Assignments.Register.Prune` | app/services/auto_assign.py:188-245 | exactly the rule's own, unmatched, untouched lessons go, with their rows and open requests |
| `Assignments.Register.Resync` | app/services/auto_assign.py:248-271 | every teacher synced and pruned, with the two totals |
| `AssignmentRules.SyncAndPruneCommute` | app/services/auto_assign.py:145-245 | sync then prune equals prune then sync |
| `AssignmentRules.ReconcileTwice` | app/services/auto_assign.py:145-245 | a second run changes nothing |
| `AssignmentRules.ChangesExactly` | app/services/auto_assign.py:101-245 | on the fields of teacher, lesson and rows: a lesson is newly given exactly when it is of her grades, language and year, and taken away exactly when the rule gave it, it is not, and no class has begun or opened it |
| `AssignmentRules.GivenIsTakenAgain` | app/services/auto_assign.py:101-245 | a lesson the rule has given is taken away again, rows and all, once it is no longer for her |
| `AssignmentRules.HoldsExactly` | app/services/auto_assign.py:122-245 | what a teacher holds afterwards is exactly what matches, what was given by hand, and what some class has touched |
| `AssignmentRules.RowsExactly` | app/services/auto_assign.py:133-245 | no touched row and no other teacher's row is lost or changed; new rows are fresh, and exactly one per class of each matching lesson |
| `AssignmentRules.ReconcileKeepsAnchors` | app/services/auto_assign.py:222-243 | requests still open stay on lessons the teacher holds, and settled ones stay |
| `AssignmentRules.ResyncIsPerTeacher` | app/services/auto_assign.py:248-271 | a school resync treats each teacher as if alone |
| `AssignmentRules.ResyncOrderIrrelevant` | app/services/auto_assign.py:266-271 | the order the teachers are walked in does not matter |
| `BulkEdits.PreviewBulk` | app/routers/lessons.py:433-490 | the loops of the preview count the specified pairs, lessons and started rows, with every validation error |
| `BulkEdits.AcceptedExactly` | app/routers/lessons.py:386-429 | an edit is accepted exactly when it names lessons, at most 500 different ones, and teachers, each on one side, all active in the school, and one of the lessons is there; otherwise it is refused for the first of these it fails |
| `BulkEdits.ApplyBulk` | app/routers/lessons.py:494-547 | lesson by lesson, the edit does the whole edit at once, and reports what the preview counts |
| `BulkEdits.PreviewIsEffect` | app/routers/lessons.py:432-547 | the counts of the preview are the differences the edit makes: assignments appearing and disappearing, lessons touched, started rows lost |
| `BulkEdits.EditReachesExactly` | app/routers/lessons.py:380-547 | every lesson the edit names that there is reaches every teacher it adds and leaves every teacher it removes, and no other pair changes |
| `BulkEdits.EditIsLocal` | app/routers/lessons.py:494-547 | pairs outside the selection are unchanged, and what is kept keeps its value |
| `BulkEdits.EditStrandsRequests` | app/routers/lessons.py:529-545 | an edit strands no request exactly when none is open on an assignment it removes |
| `BulkEdits.RequestIsStranded` | app/routers/lessons.py:529-545 | taking a teacher off a lesson she has asked for leaves her request open, whatever rows she has |
| `BulkEdits.GiveThenTake` | app/routers/lessons.py:512-545 | giving and then taking back restores everything exactly when no row was there before |
| `BackupCodec.ValueRoundTrip` | app/services/backup.py:74-101 | a value that fits its column survives being written and read exactly when it is not an object carrying the bytes mark |
| `BackupCodec.ReadFits` | app/services/backup.py:74-101 | a value that is read is of its column's type, or bytes; a choice outside the column's is refused |
| `BackupCodec.ServiceTreesArePlain` | app/services/grades.py:30-40 | what the service keeps in its JSON columns, lists of grades and the classes of each, is never such an object |
| `BackupSchema.ServiceSchemaIsSound` | app/models/__init__.py:14-28 | the service's seventeen tables, their keys and foreign keys, and the conversations a backup leaves out, are as snapshot and restore need them |
| `Backup.Database.Snapshot` | app/services/backup.py:111-139 | every included table, and no other, with each of its rows written once |
| `Backup.Database.Sweep` | app/services/backup.py:489-490 | emptying children before parents, no foreign key acts at any delete |
| `Backup.Database.Restore` | app/services/backup.py:468-518 | all or nothing: the specified restore, or an error and the database as it was |
| `BackupRules.RestorePutsBack` | app/services/backup.py:421-518 | a snapshot of a consistent database restores onto any other, included tables equal to the snapshot and each row of the others kept exactly when its own parents are there, if and only if no row in it keeps an object with the bytes mark; the result is consistent |
| `BackupRules.SnapshotThenRestore` | app/services/backup.py:111-139 | restoring a database's own snapshot changes nothing, chat included, on the same condition |
| `BackupRules.ServiceBackupsRestore` | app/services/backup.py:468-518 | with JSON values of the kinds the service stores, every backup restores, and onto its own database changes nothing |
| `BackupRules.RestoreKeepsConsistency` | app/services/backup.py:421-465 | whatever the file, an accepted restore leaves every foreign key satisfied |
| `BackupRules.AcceptedRowsAreSound` | app/services/backup.py:421-518 | whatever the file, each row of an accepted restore is whole, empty only where it may be, with its parents in place and a key of its own |
| `BackupRules.FitsExactly` | app/services/backup.py:468-518 | a row fits its table exactly when each cell is empty where it may be, or of the column's type |
| `BackupRules.ForeignFilesAreRefused` | app/services/backup.py:468-484 | a file of another format or version, or without users, is refused as invalid |
| `BackupRules.NamesAreOfTables` | app/services/backup.py:468-518 | what a restore reports are exactly the tables it found in the file, each once |
| `BackupRules.EmptyingOrphansNothing` | app/services/backup.py:489-490 | emptying a table nothing refers to orphans no row of another |
| `Migrations.LevelledRevision` | app/migrate.py:80-100 | the walk with its early exit stops at the last marker before the first that is missing |
| `Migrations.Engine.RunMigrations` | app/migrate.py:120-150 | level and stamp where there is no stamp, then upgrade; a failure leaves rows and stamp as they were and of the schema only the levelled columns |
| `MigrationRules.LevelsExactly` | app/migrate.py:46-100 | for a database built by any prefix of the chain the walk finds the last revision that changed its schema |
| `MigrationRules.UnstampedReachesHead` | app/migrate.py:120-150 | such a database, even one lacking old columns, ends at the newest schema with its rows as if every revision had run in order and the last revision recorded, and a second start-up changes nothing |
| `MigrationRules.EmptyReachesHead` | app/migrate.py:145-148 | the first start-up on an empty database runs every revision and records the last |
| `MigrationRules.StampedReachesHead` | app/migrate.py:120-150 | a database that records any revision of the chain runs exactly those after it and ends the same |
| `MigrationRules.LevellingAddsColumns` | app/migrate.py:131-140 | levelling touches only a database that records nothing and adds only columns, to tables that are there |
| `MigrationRules.LostExactly` | app/migrate.py:120-150 | a start-up gives up for want of a revision exactly when the one recorded is not in the chain |
| `MigrationRules.StampIsExact` | app/migrate.py:17-29 | a stamp leads to the whole schema exactly when no schema revision lies between it and where the database was built |
| `MigrationRules.ServiceChainIsSound` | app/migrate.py:69-77 | the service's nine revisions, its markers and its levelled columns meet what the three results above ask for |
| `MigrationRules.RepairLeavesReadable` | migrations/versions/b7e4c2915d30_repair_retired_late_values.py:34-42 | for every row whose two values are readable or retired, however far the earlier data revision got, the repair leaves both readable and what was readable unchanged |

## Left out

- A class that is itself named like a holding label (`~mv0~` and so on): the class edits are modelled for any other names.
- Password hashing, token signing, cookies, audit text, emails and device or location lookups: their outcomes are inputs.
- The percentage of a slide is rounded exactly, halves to even; the floating-point division it is computed with is not modelled.
- Teaching order is given: the sort by course and lesson number, and which of two equal lessons comes first, are not computed.
- `section_access`, the watchdog text on a progress row, and the access of a class a teacher does not take are not modelled.
- Conversion between grade tokens and numbers: a grade is one integer throughout.
- Timezone-naive stamps and their repair: one integer clock. Time zones of report days are not modelled.
- Fields of an account other than its classes, and their validation, in the account edit.
- Label text: case folding and what counts as a blank are parameters; the stripping and cutting are modelled.
- The network throttle's fields of one address are modelled; the creation race of its row and its database lock are taken as serial steps.
- The second check that an inactive account is refused by access tokens, and refresh token expiry beyond the check when it is read.
- The school totals, weekly statistics and per-teacher report of the usage log.
- Provider calls are whole replies known in advance: timeouts, payloads and the prompt's text are inputs. The model name and the display name of the provider that replied are its index.
- The stored conversation of an answer is its pieces and its source; the class it is filed under is not modelled.
- Attempts stamp their moment before they take the row lock (app/routers/auth.py:311-340), so stamps can reach the counters slightly out of order; the runs of attempts are taken to be stamped in the order they are counted.
- Upload of lesson files and its filename rule, single assignment and replacement of a lesson's teachers: they use the same steps as the edits that are modelled.
- The names in a bulk preview: the model lists the teachers themselves.
- The JSON text of a backup, and the order of rows in it; a column missing from a row is read as empty, where the database would use its default.
- The SQLite file backup and restore, and emptying the database by hand.
- The columns of the service's tables that are neither keys nor foreign keys are not listed in its schema.
- A foreign key's action on deletion: the model proves at each delete that none can act.
- Columns of the first schema that neither levelling nor a later revision adds; indexes and constraints of the migrations.
