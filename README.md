# Treasure-hunt progress engine and answer terminal, in Dafny

This project models the two pieces of logic inside a React "treasure hunt"
shell. In that shell a user completes programming puzzles ("missions"),
earns XP, levels and badges, and types answers into a simulated terminal.

- **Progress engine** (`App.tsx`, with the data of `constants.ts` and the
  types of `types.ts`). The completion transition takes the record
  `{level, currentXp, completedMissions, unlockedBadges, username}` and a
  mission id. An unknown id or an id already completed changes nothing.
  Otherwise the transition adds the mission's XP reward and makes one
  single-step level-up check against `LEVEL_THRESHOLDS[level]`. It appends
  the id and then tries three badge rules in order. Around it sit three
  read-only views: the mission status (Completed, Active or Locked), the
  dashboard's "next mission" and the XP shown for the next level (9999 when
  the table has no threshold).
- **Answer terminal** (`components/TerminalView.tsx`). A submission is
  accepted when the input and the mission's `answerHash` are equal after
  normalisation. Normalisation lowercases the text, turns each whitespace
  run into one space and trims both ends. The terminal is a small state
  machine over the input, the log, the status (idle, error, success) and the
  "hint in flight" flag. Success disables the input, the submit button and
  the hint button.

Files and modules:

| file | module | models |
|---|---|---|
| `types.dfy` | `Types` | `types.ts`: `Difficulty` (four cases), `MissionStatus` (three cases), `Mission` (optional `clueUrl`; `answerHash` is plain text), `UserState` (ordered id lists, not sets), `Badge` (no unlock condition) |
| `catalog.dfy` | `Catalog` | `constants.ts`: `INITIAL_STATE`, the `MISSIONS` and `BADGES` catalogs and `LEVEL_THRESHOLDS`, with facts about them |
| `progress.dfy` | `Progress` | `App.tsx`: lookup, status, next mission, threshold display, the transition as a function (`CompleteMission`), the state updater written step by step (`UpdateOnCompletion`), and class `App` that holds `gameState` |
| `reachability.dfy` | `Reachability` | what a record that starts from `INITIAL_STATE` can become under any sequence of completions |
| `answer_check.dfy` | `AnswerCheck` | `toLowerCase().replace(/\s+/g, ' ').trim()` and the comparison |
| `terminal.dfy` | `Terminal` | the terminal's handlers as step functions on a `Screen` value, and class `TerminalView` whose methods are proved to perform them |

Badge rules are written twice. The state updater `UpdateOnCompletion` has the
three inline conditions, in the order the source gives them. The
specification function `Rewarded` evaluates the declarative rule table
`BadgeRules` instead. The method's postcondition proves the two agree.

Facts this model proves about the catalog as shipped:
- All rewards together come to 550 XP, below the level-3 threshold of 600.
- Every record reachable from the initial one satisfies the invariant
  `Reachability.Consistent`. Its XP is the sum of the rewards of its
  completed missions. It has reached the threshold of the level below its
  own (`LEVEL_THRESHOLDS[level - 1] <= currentXp`), because a level is
  entered only when that threshold is reached. With at most 550 XP, such a
  record is at most at level 3 (`Reachability.ReachableFromStart`). The
  bound does not depend on level-ups being single-step: 550 XP reaches the
  level-2 threshold of 300 but not the level-3 threshold of 600.
- So badge b003 (level 5) can never be unlocked.
- No rule awards b004.

Notes on the code:
- The stored snapshot is read with `JSON.parse` (App.tsx:14), which throws
  on a corrupt snapshot; there is no fallback to the default record for that
  case. Loading is not modelled at all (see below).
- `completedMissions` and `unlockedBadges` are arrays, not sets. The guard
  at App.tsx:32 keeps the first free of repeats. The `!newBadges.includes`
  tests at App.tsx:43-45 keep the second free of repeats
  (`Progress.CompletionKeepsIdsDistinct`).
- The level-up is one `if` (App.tsx:37-39), not a loop: a completion that
  passes two thresholds still raises the level by one.
  `Progress.LevelUpDoesNotCascade` shows it for a record at level 1 with
  250 XP that completes m001 and reaches 350 XP.

## Model

| member | source | states |
|---|---|---|
| Types.DifficultyLabel | types.ts:1-6 | no contract of its own: the display label of each of the four difficulties (Iniciante, Intermediário, Avançado, Mestre) |
| Catalog.InitialStateFacts | constants.ts:3-9 | a new record is level 1, 0 XP, no completed missions, no badges, username Guest_Engineer |
| Catalog.MissionCatalogFacts | constants.ts:11-48 | mission ids are m001, m002, m003, distinct and in that order; rewards 100, 150, 300; required levels 1, 1, 2; no reward is negative |
| Catalog.BadgeCatalogFacts | constants.ts:50-55 | badge ids are b001 to b004 and distinct |
| Catalog.ThresholdsIncreasing | constants.ts:57 | the threshold table is [0,100,300,600,1000,1500] and strictly increasing |
| Catalog.TotalRewardBelowLevelThree | constants.ts:11-57 | all rewards together total 550, below the level-3 threshold 600 |
| Progress.FindMission | App.tsx:31 | the lookup fails exactly when no catalog entry has the id, and otherwise returns a catalog entry with that id |
| Progress.GetMissionStatus | App.tsx:24-28 | Completed exactly when the id is recorded, whatever the level; otherwise Active exactly when the required level is met, and Locked exactly when it is not |
| Progress.NextMission | App.tsx:113-129 | there is no next mission exactly when no catalog mission is Active; a next mission is a catalog mission whose status is Active |
| Progress.NextMissionIsFirstActive | App.tsx:113 | the next mission is the first Active mission in catalog order |
| Progress.ThresholdFor | App.tsx:37 | a threshold exists exactly for levels 1 to 5, and it is then the table entry for that level, which is positive; the entry 0 at index 0 counts as absent, as the JavaScript truthiness test makes it |
| Progress.NextLevelXp | App.tsx:191 | no contract of its own; `Progress.NextLevelXpShown` states what it shows |
| Progress.NextLevelXpShown | App.tsx:191 | the XP shown for the next level is the table entry for levels 1 to 5 (the entries that exist and are not 0) and 9999 otherwise |
| Progress.NextLevel | App.tsx:36-39 | the new level is the old one or one more, and one more exactly when the old level is 1 to 5 and the new XP reaches that level's threshold |
| Progress.ApplyRules | App.tsx:42-45 | no contract of its own; `Progress.ApplyRulesExtends` and `Progress.BadgeRulesInOrder` state what the three badge conditions do |
| Progress.Rewarded | App.tsx:34-53 | no contract of its own; `Progress.RewardedEffect` states every field of the updated record, and `Progress.UpdateOnCompletion` is proved to compute it step by step |
| Progress.CompleteMission | App.tsx:30-54 | no contract of its own; `Progress.CompleteIsNoOp`, `Progress.CompleteIsRewarded`, `Progress.CompletionEffect`, `Progress.CompleteIsIdempotent`, `Progress.CompletionLevelBounds` and `Reachability.ConsistentPreserved` state what the handler does |
| Progress.UpdateOnCompletion | App.tsx:34-53 | the step-by-step updater (add the reward, one threshold check, append the id, three badge conditions in order) yields exactly the specification record, whose badges come from the rule table |
| Progress.App.constructor | App.tsx:12-15 | the held record starts as the restored snapshot or the initial record, given as a parameter |
| Progress.App.HandleMissionComplete | App.tsx:30-54 | the guard on the current record and the updater together replace the record by the transition's result |
| Progress.ApplyRulesExtends | App.tsx:42-45 | the badge rules only append, never introduce a repeat, and add exactly the badges of the rules that fire |
| Progress.EarnedBadgesOfTable | App.tsx:43-45 | b001 fires for m001, b002 for m002, b003 from level 5 on (the new level); b004 never fires |
| Progress.BadgeRulesInOrder | App.tsx:42-45 | the new badge list is the old list followed by b001 if the mission is m001 and b001 is not held, then b002 likewise for m002, then b003 if the new level is at least 5 and b003 is not held |
| Progress.CompleteIsNoOp | App.tsx:31-32 | an id missing from the catalog or already completed leaves the record unchanged |
| Progress.CompleteIsIdempotent | App.tsx:31-32 | completing the same mission twice in a row equals completing it once |
| Progress.CompletionEffect | App.tsx:35-53 | a real completion adds exactly the reward, keeps the username, appends the id at the end, raises the level by one exactly when the current level is 1 to 5 and the new XP reaches its threshold and otherwise keeps it, and keeps the old badges as a prefix |
| Progress.RewardedEffect | App.tsx:35-53 | the updater's record: XP plus the reward, username kept, id appended, level raised by one exactly when the current level is 1 to 5 and the new XP reaches its threshold, old badges kept as a prefix, and a badge held exactly when it was held before or a rule fires for it |
| Progress.CompleteIsRewarded | App.tsx:30-54 | for a catalog mission not yet completed, the handler's result is the updater's record with that mission's reward |
| Progress.CompletionKeepsIdsDistinct | App.tsx:41-45 | if neither list has repeats before, neither has repeats after |
| Progress.CompletionLevelBounds | App.tsx:36-39 | the level never falls and rises by at most one; a level of at most 6 stays at most 6 |
| Progress.StatusNeverRegresses | App.tsx:24-54 | a Completed mission stays Completed, an Active one never becomes Locked, and the completed mission becomes Completed |
| Progress.FirstMissionFromStart | App.tsx:35-45 | from the initial record, completing m001 gives level 2, 100 XP, completed [m001], badges [b001] |
| Progress.LevelUpDoesNotCascade | App.tsx:36-39 | at level 1 with 250 XP, completing m001 gives 350 XP, past two thresholds, and only level 2 |
| Reachability.EarnedXpAppend | App.tsx:35 | recording a new catalog id adds exactly that mission's reward to the XP earned, when catalog ids are distinct |
| Reachability.EarnedXpBounds | constants.ts:11-48 | with non-negative rewards the XP earned lies between 0 and the sum of all rewards |
| Reachability.ConsistentPreserved | App.tsx:30-54 | the transition keeps the invariant: no repeated mission ids, only mission-catalog ids, XP equal to the rewards of the completed missions, the threshold of the level below already reached, no repeated badges, only badge-catalog ids, b003 only from level 5 |
| Reachability.RewardedConsistent | App.tsx:34-53 | rewarding a catalog mission not yet completed keeps the invariant |
| Reachability.RewardKeepsLevelAndBadges | App.tsx:35-53 | a reward that is not negative keeps the level inside the table and reached by the XP, and keeps the badge list free of repeats with b003 only from level 5 |
| Reachability.RewardKeepsBadgeIds | App.tsx:42-45 | the three badge conditions only ever add ids of the badge catalog (b001, b002, b003), so a badge list drawn from the catalog stays drawn from it |
| Reachability.LevelStaysReached | App.tsx:36-39 | the single-step level-up keeps the level between 1 and 6 and never above what the XP has reached |
| Reachability.BadgesStayConsistent | App.tsx:42-45 | the badge conditions never repeat a badge, and b003 is present only from level 5 on |
| Reachability.ConsistentBounds | constants.ts:11-57 | a record satisfying the invariant has at most 550 XP, level at most 3 and no b003 |
| Reachability.StepKeepsProgress | App.tsx:30-54 | one completion never lowers XP or level and keeps both id lists as prefixes |
| Reachability.RunKeepsProgress | App.tsx:30-54 | along any sequence of completions the invariant holds, XP and level never fall, and the earlier lists stay prefixes |
| Reachability.ReachableFromStart | App.tsx:30-54 | from the initial record, after any sequence of completions, the level is at most 3, the XP at most 550, and b003 is not unlocked |
| AnswerCheck.Trim | components/TerminalView.tsx:42 | no contract of its own; the contracts of `AnswerCheck.DropSpaces` and `AnswerCheck.TrimEnd` state its two halves, and `AnswerCheck.TrimEmptyIffBlank` says when it is empty |
| AnswerCheck.TrimEmptyIffBlank | components/TerminalView.tsx:42 | trimming leaves nothing exactly when every character is whitespace, so the blank-input test refuses exactly the whitespace-only inputs |
| AnswerCheck.Lower | components/TerminalView.tsx:46 | lowercasing keeps the length and maps each character on its own ('A' to 'Z' to their lower-case letters, everything else unchanged) |
| AnswerCheck.DropSpaces | components/TerminalView.tsx:42 | the front trim returns a suffix, removes only whitespace, stops at a non-whitespace character and keeps the other characters |
| AnswerCheck.TrimEnd | components/TerminalView.tsx:42 | the back trim returns a prefix, removes only whitespace and stops at a non-whitespace character |
| AnswerCheck.Collapse | components/TerminalView.tsx:46 | replacing each whitespace run by a space never lengthens the text, and the result starts with a space exactly when the input starts with whitespace |
| AnswerCheck.CollapseIsSingleSpaced | components/TerminalView.tsx:46 | after the replacement the only whitespace left is the plain space, and no two spaces are adjacent |
| AnswerCheck.CollapseKeepsText | components/TerminalView.tsx:46 | the replacement keeps every non-whitespace character in order and brings in no capital |
| AnswerCheck.Normalize | components/TerminalView.tsx:46-47 | no contract of its own; `AnswerCheck.NormalizeIsCanonical`, `AnswerCheck.NormalizeIdempotent` and `AnswerCheck.CanonicalIsFixed` state what it yields |
| AnswerCheck.NormalizeIsCanonical | components/TerminalView.tsx:46-47 | a normalised string has no whitespace but single spaces, no space at either end, no capital, and the non-whitespace characters of the lowercased input |
| AnswerCheck.CanonicalIsFixed | components/TerminalView.tsx:46-47 | a string already in that form normalises to itself |
| AnswerCheck.NormalizeIdempotent | components/TerminalView.tsx:46-47 | normalising twice equals normalising once |
| AnswerCheck.Accepts | components/TerminalView.tsx:49 | no contract of its own; `AnswerCheck.AcceptsUpToNormalForm`, `AnswerCheck.RunLengthIgnored` and `AnswerCheck.DistinctCanonicalRefused` state which inputs it accepts |
| AnswerCheck.AcceptsUpToNormalForm | components/TerminalView.tsx:46-49 | the verdict is the same for the input, its normal form and its lowercase form |
| AnswerCheck.RunLengthIgnored | components/TerminalView.tsx:46-49 | replacing a whitespace run by any other non-empty whitespace run does not change the normal form |
| AnswerCheck.DistinctCanonicalRefused | components/TerminalView.tsx:46-49 | two different strings that are already normalised are never accepted for one another |
| AnswerCheck.PresenceOfSpaceMatters | components/TerminalView.tsx:46-49 | "function soma(a, b){return a+b}" is refused against "function soma(a,b){return a+b}" |
| Terminal.MessageText | components/TerminalView.tsx:23-69 | no contract of its own: the Portuguese text of each log message (the boot line, the echo `> input`, the two success lines, the refusal, the hint request and the hint reply) |
| Terminal.Typed | components/TerminalView.tsx:139-143 | no contract of its own; `Terminal.StepAfterSuccess` and `Terminal.TerminalView.ChangeInput` state it |
| Terminal.Submitted | components/TerminalView.tsx:40-61 | no contract of its own; `Terminal.BlankInputIgnored` and `Terminal.SubmissionVerdict` state what a submission does |
| Terminal.Pressed | components/TerminalView.tsx:133-148 | no contract of its own; `Terminal.StepAfterSuccess` and `Terminal.TerminalView.Submit` state when the form reaches the handler |
| Terminal.HintRequested | components/TerminalView.tsx:63-65 | no contract of its own; `Terminal.StepAfterSuccess` and `Terminal.TerminalView.RequestHint` state it |
| Terminal.HintReceived | components/TerminalView.tsx:67-70 | no contract of its own; `Terminal.TerminalView.ReceiveHint` states it |
| Terminal.Step | components/TerminalView.tsx:40-70 | no contract of its own; `Terminal.StepFacts` and `Terminal.StepAfterSuccess` state what one event does |
| Terminal.Replay | components/TerminalView.tsx:40-70 | no contract of its own; `Terminal.SuccessIsAbsorbing` and `Terminal.CompletionReportedAtMostOnce` state what a sequence of events does |
| Terminal.ThirdMissionAnswer | constants.ts:44 | the third mission refuses its answer with a space added between the arguments |
| Terminal.SecondMissionAnswerInCapitals | constants.ts:32 | the second mission accepts "HTTP" |
| Terminal.BlankInputIgnored | components/TerminalView.tsx:42 | empty or whitespace-only input adds no log line, changes no status and reports no completion |
| Terminal.SubmissionVerdict | components/TerminalView.tsx:44-60 | for input that is not blank, the whole outcome: when the normalised input equals the normalised answer, status success, the echo and the two success lines appended, the input kept and this mission's id reported; otherwise status error, the echo and the refusal line appended, the input cleared and nothing reported |
| Terminal.StepFacts | components/TerminalView.tsx:36-70 | one event never shortens the log, and a completion is reported only with this mission's id and together with success |
| Terminal.StepAfterSuccess | components/TerminalView.tsx:139-153 | after success, typing, submitting and asking for a hint change neither the status nor the input and report nothing |
| Terminal.SuccessIsAbsorbing | components/TerminalView.tsx:143-153 | once the status is success, no sequence of typing, submitting or hint events changes the status or the input or reports a completion |
| Terminal.CompletionReportedAtMostOnce | components/TerminalView.tsx:49-55 | over any sequence of events the completion callback fires at most once, only with this mission's id, and the log only grows |
| Terminal.TerminalView.constructor | components/TerminalView.tsx:14-23 | the terminal opens with empty input, idle status, no hint in flight and the boot line as the only log entry |
| Terminal.TerminalView.AddLog | components/TerminalView.tsx:36-38 | a log line is appended at the end and nothing else changes |
| Terminal.TerminalView.ChangeInput | components/TerminalView.tsx:139-143 | typing replaces the input unless the status is success |
| Terminal.TerminalView.HandleSubmit | components/TerminalView.tsx:40-48 | the handler ignores blank input, echoes the rest and performs the submission step |
| Terminal.TerminalView.CheckAnswer | components/TerminalView.tsx:46-60 | on acceptance: status success, two success lines, this mission's id reported; on refusal: status error, one error line, input cleared |
| Terminal.TerminalView.Submit | components/TerminalView.tsx:133-148 | the form reaches the handler only while the status is not success and the input is not empty |
| Terminal.TerminalView.RequestHint | components/TerminalView.tsx:63-65 | when the hint button is enabled the flag is raised and a warning line is logged; otherwise nothing changes |
| Terminal.TerminalView.ReceiveHint | components/TerminalView.tsx:67-70 | the hint text is logged and the flag is lowered |
| Terminal.TerminalView.ChangeMission | components/TerminalView.tsx:20-23 | a new mission restarts the log with the boot line and keeps input and status |

## Left out

- FindMission: its contract says it returns an entry with the requested id, not that it is the first such entry. The catalog's ids are distinct (`Catalog.MissionCatalogFacts`), so there is only one.
- Loading and saving the record through local storage and JSON (App.tsx:12-22) are I/O. `App` receives the restored record as a constructor parameter.
- The timers are scheduling: the return to the dashboard after 2500 ms, the 2000 ms delay before `onComplete`, and the boot lines logged 400 to 1600 ms after mount. `onComplete` is modelled as the id the submit step returns. Only the first boot line is in the log.
- React's batching of state updates is not modelled. The guard at App.tsx:32 reads the rendered record and the update uses the latest one, so two calls before a re-render could both append. The model applies the guard to the record the transition receives, and it claims idempotence only for that.
- The log's time stamp (`toLocaleTimeString`) depends on the clock and locale. A log entry is its type and a message value. `Terminal.MessageText` gives each message's Portuguese text. The final line format, with the stamp and the upper-cased type, is not modelled.
- The hint service (services/geminiService.ts) is a network call through a third-party SDK. Its reply, or its fallback text, is a parameter of `ReceiveHint`.
- `toLowerCase` and `\s` are modelled on ASCII only. Only 'A' to 'Z' are lowercased. Whitespace is space, tab, line feed, vertical tab, form feed and carriage return. Non-ASCII letters and Unicode spaces (such as U+00A0) are treated as ordinary characters.
- Views, navigation, JSX and CSS classes are presentation. This covers Sidebar.tsx, MobileNav.tsx, MissionCard.tsx, BadgeItem.tsx and the dashboard counters. The sidebar's progress percentage uses floating-point division and rounding.
- Levels, XP and rewards are unbounded integers. JavaScript numbers are doubles, but the values here stay far from their precision limit.
