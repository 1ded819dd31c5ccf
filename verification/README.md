# Trawler: what its core logic promises

Trawler lets simulated people use a web product and report what they find. This project models the
parts of its repository where a small mistake would be hard to see, and proves what they promise.
Paths in this file are relative to the root of the repository.

- **Masking secrets** (`JsText`, `Occurrences`, `Runs`, `Secrets`, `Scrubber`, `Hiding`). Text goes through a
  scrubber before it is stored or shown. The scrubber has two matchers, one with the
  Knuth-Morris-Pratt tables and one that jumps by the needle's period. Both are proved to list
  exactly the maximal runs of text that occurrences cover, and the output is proved to be the text
  with one mask for each such run. `Hiding` says exactly which needles no output can hold.
- **Making a plan** (`PlayOrder`, `Setup`, `PlayMoves`, `Turns`, `Planning`, `Proposals`, `Asked`,
  `PlanNeeds`, `PlanFrom`, `FreeIds`, `GoalsPerPerson`, `CopyIds`, `Grouping`). A model proposes people, goals and what each goal needs. The plan
  puts the goals in an order, gives ids and cuts texts.
- **The lead's goals for a pull request** (`LeadPlan`, `LeadStore`, `LeadPeople`, `PlayedGoals`,
  `LeadRoundTrip`). Goals are
  settled, merged, stored as rows, read back and settled again.
- **Starting a run once** (`RunStart`). Requests with an idempotency key run at the same time, and
  each may be refused or stop anywhere.
- **The spend window of a connection** (`SpendWindow`, `SpendLimit`). Starts reserve money in a window
  of 24 hours.
- **Artifacts** (`Artifacts`, `Cleanup`). Uploads and cleanups run at the same time.
- **Reporting events and the session's tools** (`JobEvents`, `Session`).
- **Account notes and comparing runs** (`AccountNote`, `AccountRoundTrip`, `AccountFields`,
  `Matching`).

`Lists` and `Options` hold shared helpers. Code that changes things step by step is a method or a
class; what it computes is stated by a function or a predicate, and what is promised of that is
proved as lemmas, over inputs, outputs and sequences of steps. Concurrent code is a state machine: `Enabled` and `Step` describe one step, and the
main statements range over every sequence of steps.

## What turned out to need a condition

- Clipping a text twice is not always the same as clipping it once: two high surrogates in a row lose
  one each time (`JsText.ClipIsNotIdempotent`). So a stored plan reads back unchanged exactly when at
  most the allowed number of people have goals and no instruction ends in half a surrogate pair
  (`LeadRoundTrip.StoreAndReadBack`).
- For the same reason a person whose whole name is half a surrogate pair has a name when people are
  chosen and none in the plan, which the plan's rules then reject. `PlanFrom.Make` says exactly when
  the rules hold, and `PlanFrom.HalfCharacterFails` gives a proposal for which they do not.
- A needle that holds the mask's character is not always hidden. It is hidden in every output, beside
  whatever other needles, exactly when it neither starts nor ends with that character nor holds it
  three times in a row (`Hiding.HiddenExactly`). A second pass changes nothing under the same
  condition, and also when the needle is that character alone (`Hiding.SameTwiceExactly`). Needles
  are arbitrary in these statements; since a secret has at least 8 characters
  (packages/core/src/secrets.ts:124), that character alone does not become one in the program.
- An upload that reports success can leave a file without a row exactly when it put the file after
  the grace period (`Artifacts.LateFileExactly`). An artifact can open without its file within its
  retention exactly when its row was marked after the grace period, however early the time that was
  written had been taken (`Artifacts.LateMarkExactly`).
- The tolerance of 1e-9 can let a start in before the time that a refusal names
  (`SpendWindow.ToleranceMayBeEarlier`). `SpendWindow.RefusedUntilExactly` says when it does not.
  Without the tolerance the named time is exact but for being cut to a millisecond: at the named
  time a start can still be refused for less than that.
- A connection's runs can hold more than its limit and the tolerance. The cap is checked as it was
  asked for and stored with four decimals, which can raise it by up to 0.00005 dollars
  (`SpendLimit.RoundingExceedsTolerance`); `SpendLimit.RoundedUpExactly` and
  `SpendLimit.ReachableLiftExactly` say for which caps. This does not add up over several starts.
- Cost can also arrive after a run has ended and its money has been given to another start, and a
  finding of such a run can be judged again, which holds its whole cap once more, so that the window
  can hold twice the limit (`SpendLimit.JudgingAgainHoldsTwice`). `SpendLimit.AlwaysWithinLimit` bounds
  what is held by what came late, `SpendLimit.LateChargeExactly` shows that any amount can break the
  limit, and `SpendLimit.KeptWhenAllCovered` says which changes never do.
- An id made up for a copy of a shared goal can be too long for the goals table, but only when at
  least 99 ids are taken (`CopyIds.LongIdExactly`).
- The ids made up for a plan's own goals when they are played beside the lead's can repeat
  (`PlayedGoals.SameIdTwice`). `PlayedGoals.MergedWithinLimitsExactly` says when the merged plan is within
  its limits.
- A finished session can still gain a finding exactly when a submission is under way that repeats
  none of its findings (`Session.LateFindingExactly`); goals cannot change any more.
- An account note reads back for more records than the code's own labels need: labels may hold colons
  and surrounding spaces. `AccountRoundTrip.NoteReadsBack` gives the exact condition.

## Model

| member | source | states |
|---|---|---|
| `Occurrences.Borders` | packages/core/src/secrets.ts:59-67 | Every entry of the table is the longest proper border of that prefix: a border, and no border is longer. |
| `Occurrences.StrideOccurs` | packages/core/src/secrets.ts:73 | Where an occurrence is followed by the needle's part after one of its borders, the needle occurs again one stride on. This is why the matcher may jump by the tail. |
| `Secrets.EndOfStretch` | packages/core/src/secrets.ts:72-73 | The inner loop ends where the tail no longer follows; the last needle before the end occurs in the text, and everything between is covered. |
| `Secrets.NativeMatches` | packages/core/src/secrets.ts:69-78 | What it pushes after the ranges found before is the list of maximal runs of positions that occurrences of the needle cover, overlaps included. |
| `Secrets.Advance` | packages/core/src/secrets.ts:83-84 | The fallback loop finds the longest start of the needle, the whole needle included, that ends after this character. |
| `Secrets.KmpMatches` | packages/core/src/secrets.ts:80-91 | The same list of maximal runs as the other matcher, for every text and non-empty needle. |
| `Runs.RunsAreUnique` | packages/core/src/secrets.ts:139-161 | A set of positions has only one list of separated ranges, so the two matchers cannot differ. |
| `Scrubber.MatchersAgree` | packages/core/src/secrets.ts:69-91 | Run on one text and needle, both matchers push equal lists. |
| `Scrubber.SecretScrubber.Add` | packages/core/src/secrets.ts:123-129 | A secret of fewer than 8 characters is refused and nothing changes; otherwise exactly its non-empty forms are added, to the browser's needles only when asked; each then has a correct border table, and no earlier table changes. |
| `Scrubber.SecretScrubber.AllMatches` | packages/core/src/secrets.ts:139-146 | Whatever the order of the needles and whichever matcher each length selects, the ranges hold exactly the positions that some needle covers. |
| `Scrubber.PutMasks` | packages/core/src/secrets.ts:147-160 | Sorting and merging overlapping or touching ranges gives one mask for each maximal covered run, with every other character kept in order. |
| `Scrubber.SecretScrubber.ScrubText` | packages/core/src/secrets.ts:139-161 | The output is the text with each maximal covered run replaced by one mask: a function of the text and of the set of needles alone. |
| `Hiding.FrontOfOutputStandsInText` | packages/core/src/secrets.ts:148-160 | A needle that does not end with the mask's character nor holds it three times in a row, and can be read in the output from a kept character on, stands in the original text there. |
| `Hiding.OutputHidesSafeNeedle` | packages/core/src/secrets.ts:139-161 | A needle that neither starts nor ends with the mask's character nor holds it three times in a row occurs nowhere in any output, not even across a mask, whatever the other needles are. |
| `Hiding.HiddenExactly` | packages/core/src/secrets.ts:139-161 | And only such needles are always hidden: for any other there are a text and one more needle whose output holds it. |
| `Hiding.ScrubbingTwiceChangesNothing` | packages/core/src/secrets.ts:139-161 | Scrubbing the output again gives the same text when every needle is such a needle or is the mask's character alone. |
| `Hiding.SameTwiceExactly` | packages/core/src/secrets.ts:139-161 | Beside such needles, a needle never makes the second pass change the output exactly when it is one of them or the mask's character alone. |
| `Hiding.MarkerBecomesMask` | packages/core/src/secrets.ts:147-160 | For every needle and any two pieces shorter than it there is a text, with one more needle, whose output is the pieces with a mask between them. |
| `JsText.ClipAgain` | packages/core/src/setup.ts:125 | Clipping a clipped text again changes it exactly when it ends in half a surrogate pair. |
| `JsText.ClipIsNotIdempotent` | packages/core/src/setup.ts:59-63 | A text that clipping shortens twice. |
| `JsText.TrimIs` | packages/core/src/setup.ts:125 | Whatever white space stands around a text without white space at its ends, trimming gives that text. |
| `JsText.TrimSplits` | packages/core/src/setup.ts:125 | Every text is its trimmed form with white space around it. |
| `JsText.ClipIs` | packages/core/src/setup.ts:59-63 | A clipped text is the start of the trimmed one; of the characters that fit, only white space at the end is missing, and at most one high surrogate, when it would be the last. |
| `FreeIds.DigitsAreInjective` | packages/core/src/setup.ts:136 | Different numbers give different ids, which is what the pigeonhole argument needs. |
| `FreeIds.DigitsAreDecimal` | packages/core/src/setup.ts:136 | The digits of a number have that value, without a zero in front. |
| `FreeIds.FindFreeId` | packages/core/src/setup.ts:135-136 | The renaming loop ends for every finite set of taken ids, with the first id if it is free and otherwise the base with the first number from the given one on whose id is free. |
| `PlayOrder.OrderMeansAcyclic` | packages/core/src/setup.ts:291-311 | If the goals can be put in an order that respects what must come first, that relation has no cycle. |
| `PlayOrder.WaitingMeansCycle` | packages/core/src/setup.ts:305-306 | When every goal of a non-empty finite set waits for another goal of the set, there is a cycle. |
| `PlayOrder.StuckMeansCycle` | packages/core/src/setup.ts:304-306 | When the loop finds no goal that is ready, the relation has a cycle. |
| `PlayOrder.PredecessorsOf` | packages/core/src/setup.ts:294-301 | For each goal, exactly the person's previous goal and the needed goals of other people are recorded. |
| `PlayOrder.RecordedSuffices` | packages/core/src/setup.ts:295-296 | Recording only the previous goal of the same person is enough: all earlier ones come first too. |
| `PlayOrder.DependencyOrder` | packages/core/src/setup.ts:291-311 | No order is returned exactly when the relation has a cycle; otherwise the order is a permutation that respects the relation, and of all such orders the first one lexicographically by position in the input. |
| `PlayOrder.RespectedOrderStays` | packages/core/src/setup.ts:304-310 | Goals that already respect the relation keep their order. |
| `Setup.MovesSplit` | packages/core/src/setup.ts:265-272 | After any play order, the moved goals and those left are together all goals once, each person's in order. |
| `Setup.InPlayOrder` | packages/core/src/setup.ts:262-274 | The order is the moved goals and then those left, a permutation that keeps each person's goals in their proposed order, whatever the play order names, repeats or leaves out. |
| `Setup.ProposedOrderIsKept` | packages/core/src/setup.ts:262-274 | A play order that names every goal and keeps each person's goals in order is taken as it is. |
| `PlayMoves.PlayedIsSorted` | packages/core/src/setup.ts:262-274 | For every play order and distinct references: the goals are sorted by the first step that names them or a later goal of their person; those that no step reaches come last, and ties keep the order in which they were proposed. |
| `PlayMoves.ArrangementFollowsPlay` | packages/core/src/setup.ts:356-357 | Of all orders that put first what must come first, the order of the plan always takes next what goes first by the play order; when the needs go round in a circle it is sorted by the play order alone. |
| `Planning.UniqueIds` | packages/core/src/setup.ts:131-140 | Ids are distinct, and each is the slug's own unless it was taken before it. |
| `Planning.BaseIdIs` | packages/core/src/setup.ts:134 | The id starts from as much of the slug as 40 characters allow without a dash at the end, or from the fallback with a number when nothing is left. |
| `Planning.IdAfterIs` | packages/core/src/setup.ts:135-136 | The id is that one when it was not taken, and otherwise has the first number from 2 on that is free. |
| `Planning.SameRelation` | packages/core/src/setup.ts:262-302 | Reordering goals with distinct references, each person's in order, changes nothing about what must come first. |
| `Planning.SameCycles` | packages/core/src/setup.ts:262-302 | Nor does it make a cycle that was not there. |
| `Planning.Arrange` | packages/core/src/setup.ts:356-357 | The playing order and then the first order that respects the needs, or the playing order alone when that has a cycle; for distinct references and acyclic needs the result respects the needs as they were proposed. |
| `Planning.ProposedOrderPlays` | packages/core/src/setup.ts:356-357 | A playing order that names every goal, keeps each person's goals in order and respects the needs is the one that is played. |
| `Planning.PlanGoals` | packages/core/src/setup.ts:355-357 | The plan holds each proposed goal once under an id of its own, each person's in order, and for distinct references and acyclic needs each goal plays in a strictly later turn than every goal of another person it needs. |
| `Planning.LaterTurns` | packages/protocol/src/project.ts:29-40 | An order that respects the needs puts needed goals of other people into strictly earlier turns. |
| `PlanFrom.ClipVanishes` | packages/core/src/setup.ts:125 | Of a text that is not blank, clipping leaves nothing exactly when its trimmed form is half a surrogate pair. |
| `Asked.SameAsked` | packages/core/src/setup.ts:356-357 | Reordering that keeps each person's goals in order asks of everybody the same, in the same order. |
| `Proposals.FirstGoalsKept` | packages/core/src/setup.ts:355 | The goals kept of a person stand at increasing places of the proposal, have text, and any other goal with text comes after four of them. |
| `Proposals.FirstPeopleKept` | packages/core/src/setup.ts:352 | The same of the people that can be used. |
| `PlanNeeds.NeedsComeFirstIn` | packages/core/src/setup.ts:291-302 | For every order that respects the goals that are built: what must come first by the proposals does, at the places that their persons' goals have in the plan. |
| `PlanNeeds.CycleMeansRound` | packages/core/src/setup.ts:303-309 | A cycle among the goals that are built is a round of needs among the proposals. |
| `PlanNeeds.ScheduleIsPlayedIn` | packages/core/src/setup.ts:356-357 | A play order over the proposals that can be played is the order of the plan. |
| `PlanFrom.Make` | packages/core/src/setup.ts:350-370 | There is no plan exactly when no proposed person has a name, a brief and a goal with text. Every plan keeps the numbers, ids and owners that the schema demands and asks each person what was kept of their proposal, in that order, under ids made of their slugs. Stated over the proposals: when names are distinct and the needs do not go round in a circle, a person's m-th goal that another's j-th goal needs stands before it; and a play order that names all goals in an order that can be played is the one of the plan. It passes the length rules exactly when no kept text is half a surrogate pair. |
| `PlanFrom.TextsFitExactly` | packages/protocol/src/project.ts:5-18 | The length rules for names, briefs and instructions hold exactly when no kept text is half a surrogate pair. |
| `PlanFrom.PlanIsConsistent` | packages/protocol/src/project.ts:82-99 | The rules on duplicate ids, unknown owners, people without goals and people with too many goals hold of every plan that is made of what was kept. |
| `PlanFrom.HalfCharacterFails` | packages/core/src/setup.ts:354 | A usable person for whom no plan that asks what was proposed passes the length rules. |
| `Turns.RunLengthIsUnique` | packages/protocol/src/project.ts:33-38 | The goals in order decide the turns: no empty turn and no two neighbouring turns of one person leave only one possibility. |
| `Turns.TurnsGoForward` | packages/protocol/src/project.ts:33-38 | Later goals play in later or equal turns. |
| `Turns.TurnsOf` | packages/protocol/src/project.ts:29-40 | With an owner for every goal, the turns are the run-length form of the goals in order; with a shared goal, every person plays all that is theirs in one turn. |
| `GoalsPerPerson.CopiesOf` | apps/control-plane/src/projects/projects.ts:18-25 | A shared goal becomes one copy for each person, with its instruction: the first keeps the id; another has 30 characters of it and 26 of the person, with the first free number from 2 on if that is taken. |
| `GoalsPerPerson.CopiesAreOwn` | apps/control-plane/src/projects/projects.ts:18-25 | The copies ask the same of everybody under distinct ids that were not taken. |
| `GoalsPerPerson.OwnGoals` | apps/control-plane/src/projects/projects.ts:14-27 | Afterwards every goal has an owner and ids are distinct, goals with an owner are as before, and every person is asked the same instructions in the same order. |
| `CopyIds.CopyIdFitsExactly` | apps/control-plane/src/projects/projects.ts:20-22 | A made-up id has at most the 60 characters that the goals table takes (db/migrations/V4__projects.sql:50) exactly when the id without a number is free, or one with a number of few enough digits. |
| `CopyIds.LongIdExactly` | apps/control-plane/src/projects/projects.ts:20-22 | With so many ids taken, some made-up id can be too long exactly when they are 99 or more. |
| `GoalsPerPerson.OwnedAskTheSame` | packages/protocol/src/project.ts:20-22 | What `goalsFor` selects for a person has the same instructions before and after. |
| `Grouping.SettleGroups` | packages/protocol/src/runner.ts:52-62 | Any proposal becomes a partition of the keys into non-empty groups. Two keys end up together exactly when they are equal or first named in the same group, keys come in the order in which they were first named, and a proposal that is a partition stays as it is. |
| `Grouping.FirstTimesAre` | packages/protocol/src/runner.ts:52-62 | The keys come in the order in which they are first named, each known key once. |
| `Grouping.SettleTwice` | packages/protocol/src/runner.ts:52-62 | Settling settled groups changes nothing. |
| `LeadPlan.IdsAreOwn` | packages/core/src/pr-plan.ts:125-127 | The ids of settled goals are distinct and none was taken, and person and instruction of each goal stay. |
| `LeadPlan.KeepGoals` | packages/core/src/pr-plan.ts:118-130 | One turn keeps its goals in order while the limit lasts: every kept goal has text and does not leak, below the limit every such goal is kept, and kept and dropped goals are together all of them. |
| `LeadPlan.SettleTurns` | packages/core/src/pr-plan.ts:110-139 | The loop ends with turns in run-length form. Over the answer alone: the kept goals are its first eight offers for a person that is named by id or by a name that only one has, with text and without a leak, clipped, in order; all others are counted as dropped. Goal k is called `pr-goal-k`, or with the next free number. |
| `LeadPlan.PersonIdNames` | packages/core/src/pr-plan.ts:103-108 | A person is found exactly when the name is an id, or else the name or first name of exactly one person. |
| `LeadStore.WithLeadsGoals` | apps/control-plane/src/runs/pr-plan.ts:59-82 | The set of ids and the counts kept beside the loop admit exactly the goals that the plan as a whole does not refuse, and nothing is returned exactly when none is admitted. |
| `LeadStore.MergingKeepsLimits` | apps/control-plane/src/runs/pr-plan.ts:73-76 | After merging a plan has distinct ids, at most 20 goals for each person and at most 240 in all exactly when it had before. |
| `LeadStore.AddedWithinLimits` | apps/control-plane/src/runs/pr-plan.ts:73-76 | Whatever the plan was like, the added goals have distinct ids that it had not, and no person and no plan gets more goals than the limit or than before. |
| `LeadStore.NothingElsePassedOver` | apps/control-plane/src/runs/pr-plan.ts:73 | A goal that is offered is passed over only when the plan has its id, its person has 20 goals, or the plan has 240. |
| `LeadPeople.LeadIs` | apps/control-plane/src/runs/pr-plan.ts:60-65 | The goals offered are those of the turns of the plan's people, in `change` mode of those before whose turn fewer than `maxPeople` others had one, in order. |
| `PlayedGoals.PlayedGoals` | apps/control-plane/src/runs/pr-plan.ts:46-57 | A plan whose goals all have owners and distinct ids is played as it is; otherwise its turns are played goal by goal. |
| `PlayedGoals.PlayTurns` | apps/control-plane/src/runs/pr-plan.ts:49-55 | A goal keeps its person, and its id unless that was used before; then the id is made of goal and person and cut to 60 characters. |
| `PlayedGoals.OwnIdsExactly` | apps/control-plane/src/runs/pr-plan.ts:49-52 | The ids played are distinct exactly when, wherever a goal repeats, the id made up for it has not been used before. |
| `PlayedGoals.SameIdTwice` | apps/control-plane/src/runs/pr-plan.ts:52 | A plan for which it has. |
| `PlayedGoals.MergedWithinLimitsExactly` | apps/control-plane/src/runs/pr-plan.ts:59-82 | A plan in `both` mode is within its limits after merging exactly when no made-up id repeats and its own goals were within the counts. |
| `LeadStore.TurnsOfPlan` | apps/control-plane/src/runs/pr-plan-store.ts:46-56 | Rows read back in order give the run-length form of the goals that were stored. |
| `LeadStore.AllStored` | apps/control-plane/src/runs/pr-plan-store.ts:70-87 | When every added goal belongs to a person of the plan, every one of them is stored, in order. |
| `LeadStore.CandidatesOfStored` | apps/control-plane/src/runs/pr-plan.ts:84-92 | Stored turns taken as an answer propose the stored goals again, clipped once more. |
| `LeadStore.ReclippedSame` | apps/control-plane/src/runs/pr-plan.ts:84-92 | They are proposed unchanged exactly when clipping leaves each of them as it is. |
| `LeadRoundTrip.LeadOfMany` | apps/control-plane/src/runs/pr-plan.ts:62-65 | With more people than allowed, some goals are lost. |
| `LeadRoundTrip.SettlesAgain` | packages/core/src/pr-plan.ts:110-139 | Turns that hold all settled goals settle to the same goals exactly when no instruction ends in half a surrogate pair. |
| `LeadRoundTrip.StoreAndReadBack` | apps/control-plane/src/runs/pr-plan.ts:59-92 | Settling, merging in `change` mode, storing, reading back and settling again gives the same turns exactly when at most `maxPeople` people have goals and no instruction ends in half a surrogate pair. |
| `RunStart.StepKeepsInv` | apps/control-plane/src/run-api/service.ts:97-174 | Look-up, opening, claim, start, commit, refusal and crash each keep the invariant over committed rows, committed runs and open transactions. |
| `RunStart.AlwaysInv` | apps/control-plane/src/run-api/service.ts:97-174 | The invariant holds after every sequence of steps. |
| `RunStart.OneRunPerWindow` | apps/control-plane/src/run-api/idempotency.ts:29-45 | Two committed runs of one workspace, project and key were claimed at least 24 hours apart, and every committed key row carries its answer. |
| `RunStart.LiveKeyAnswer` | apps/control-plane/src/run-api/service.ts:92-95 | Whoever looks up or tries to claim a live key is answered with the recorded response or, for another request hash, the refusal; nothing is written, and the case of a live key without an answer cannot arise. |
| `RunStart.SameRunForSameKey` | apps/control-plane/src/run-api/service.ts:97-174 | Two requests with one key that were told of a run, by starting it or by a replay, were told of the same run, unless the two runs were claimed a window apart. |
| `RunStart.FreeKeyStarts` | apps/control-plane/src/run-api/service.ts:97-156 | From every reachable state, a request without a key, or whose key no open transaction has claimed and no committed run within its window has, also one used before, goes through look-up, claim, start and commit to the answer that it was started, with exactly one run more. |
| `RunStart.OnlyRefusedAreTold` | apps/control-plane/src/run-api/service.ts:157-170 | Over every sequence, only a client that was refused before is answered with a refusal. |
| `RunStart.RefusedAreTold` | apps/control-plane/src/run-api/service.ts:161-168 | And it is answered so unless its key is live by then. |
| `SpendWindow.SpendFreeAt` | apps/control-plane/src/mcp/limits.ts:51-58 | The loop that adds up freed amounts finds the first run with which enough has left. |
| `SpendWindow.Refuse` | apps/control-plane/src/mcp/limits.ts:68-82 | The number of runs is judged before the cap and the cap before the room, and a start is let in exactly when none of the three refuses it. |
| `SpendWindow.WindowShrinks` | apps/control-plane/src/mcp/limits.ts:84-91 | Later, the window holds no more runs and no more money. |
| `SpendWindow.RunsFreeAtIsExact` | apps/control-plane/src/mcp/limits.ts:35-50 | While the runs stay the same, a start is refused for their number before a time and not from then on; the refusal names that time cut to a millisecond. |
| `SpendWindow.SpendFreeAtIsExact` | apps/control-plane/src/mcp/limits.ts:51-58 | For a cap within the limit a time is always named; the start fits without the tolerance exactly from a time on, and is then not refused; the refusal names that time cut to a millisecond. |
| `SpendWindow.RefusedUntilExactly` | apps/control-plane/src/mcp/limits.ts:76-80 | A start stays refused until the named time exactly when what leaves before that time falls more than the tolerance short of what is needed. |
| `SpendWindow.ToleranceMayBeEarlier` | apps/control-plane/src/mcp/limits.ts:77 | Two runs of 1 dollar hold a limit of 2, and a start of half a tolerance more than 1 dollar is let in when the first leaves, before the named time. |
| `SpendLimit.StepKeepsInv` | apps/control-plane/src/mcp/limits.ts:98-104 | A guarded start whose cap is stored with four decimals, a cost at any time, the end of a run, judging again and time passing keep what is reserved within the limit, the tolerance and the rounding of one cap, also when a transaction's time is behind the clock. |
| `SpendLimit.AlwaysWithinLimit` | apps/control-plane/src/mcp/limits.ts:98-104 | In every reachable state the window holds at most `runsPerDay` runs, and at most `spendUsdPerDay` + 1e-9 + 0.00005 + what came late: tolerance and rounding never add up. |
| `SpendLimit.KeptWhenAllCovered` | apps/control-plane/src/mcp/limits.ts:34 | When every cost comes while its run's budget is held and stays within it, and nothing is judged again whose run then holds more, at most `spendUsdPerDay` + 1e-9 + 0.00005 is held. |
| `SpendLimit.CoveredExactly` | apps/control-plane/src/mcp/limits.ts:34 | These are exactly the changes with which a run does not hold more than before. |
| `SpendLimit.RoundedUpExactly` | apps/control-plane/src/runs/runs.ts:284 | In some window that was within the limit a start with this cap leads over the limit and the tolerance exactly when storing the cap rounds it up. |
| `SpendLimit.ReachableLiftExactly` | apps/control-plane/src/runs/runs.ts:284 | In some reachable window, where costs have six decimals and limits are whole cents, it does exactly when the cap is rounded up by a millionth of a dollar less the tolerance, or more. |
| `SpendLimit.RoundingExceedsTolerance` | apps/control-plane/src/runs/runs.ts:284 | A limit of 2 dollars, a run that cost 0.012345 and a start that asks for the rest: 2.000045 dollars are held. |
| `SpendLimit.LateChargeExactly` | apps/control-plane/src/runs/queue.ts:632-646 | So much may have come late when limit, tolerance and rounding together are exceeded, exactly when it is more than nothing. |
| `SpendLimit.JudgingAgainHoldsTwice` | apps/control-plane/src/runs/runs.ts:381-415 | For every limit in whole dollars: a run ends without cost, another start gets the whole limit, and then a finding of the first is judged again; twice the limit is held. |
| `Artifacts.StepKeepsInv` | apps/control-plane/src/artifacts/artifacts.ts:49-83 | Every step of an upload, of a cleanup and of forgetting a job's work keeps the invariant over rows, files, uploads and cleanups, on which the next rows rest. |
| `Artifacts.EveryFileHasARow` | apps/control-plane/src/artifacts/artifacts.ts:59-83 | However uploads and cleanups interleave and wherever they stop, a file that was put within the grace period has a row. |
| `Artifacts.EveryOpenArtifactHasItsFile` | apps/control-plane/src/artifacts/artifacts.ts:85-93 | A stored, undiscarded row within retention has its file when it was marked within the grace period; what counts is when the row was written, not the time written into it. |
| `Artifacts.DoneMeansStored` | apps/control-plane/src/artifacts/artifacts.ts:67-82 | Over every run of the system, an upload reports success only when it put its file without an error and then marked its row while the row was there. |
| `Artifacts.LostUploadFails` | apps/control-plane/src/artifacts/artifacts.ts:71-81 | An upload that finds its row gone never reports success, whatever happens then, and once it has removed its own file the file stays gone. |
| `Artifacts.UndisturbedUpload` | apps/control-plane/src/artifacts/artifacts.ts:59-82 | From every reachable state, an upload that nothing gets in the way of ends with its file there and its row stored. |
| `Artifacts.ThrownUpload` | apps/control-plane/src/artifacts/artifacts.ts:69-76 | And one whose put throws ends with its row discarded. |
| `Artifacts.LateFileExactly` | apps/control-plane/src/artifacts/cleanup.ts:18-42 | For every delay between making a row and putting its file: some run of the system leaves the file of an upload that reports success without a row exactly when the delay exceeds the grace period. |
| `Artifacts.LateMarkExactly` | apps/control-plane/src/artifacts/artifacts.ts:78 | For every delay between making a row and marking it, and whenever the written time was taken: some run opens an artifact within its retention whose file is gone exactly when the delay exceeds the grace period and not the retention. |
| `Cleanup.FewerFailuresThanRows` | apps/control-plane/src/artifacts/cleanup.ts:29-38 | Failures are distinct rows that are still there, which bounds the loop. |
| `Cleanup.ArtifactTable.RemoveBatch` | apps/control-plane/src/artifacts/cleanup.ts:31-42 | A batch removes only expired rows, each with its file, keeps those whose file cannot be removed, and makes progress unless it is empty. |
| `Cleanup.ArtifactTable.RemoveExpired` | apps/control-plane/src/artifacts/cleanup.ts:12-46 | The pass ends and returns how many rows it deleted. Only rows past retention, discarded longer ago than the grace period or never stored within it are gone, with exactly their files; and all of these whose file can be removed are gone, unless ten files could not be removed. |
| `JobEvents.NextBatch` | apps/runner/src/worker.ts:197-206 | The batch is the longest start of the queue within 200 events and the byte limit, and a non-empty queue gives a non-empty batch. |
| `JobEvents.BatchIsUnique` | apps/runner/src/worker.ts:197-206 | Only one batch fits that description. |
| `JobEvents.JobEvents.Emit` | apps/runner/src/worker.ts:160-169 | An event gets the next number and the end of the queue, also while a batch is under way; after a failure it is dropped. |
| `JobEvents.JobEvents.Acknowledge` | apps/runner/src/worker.ts:181-182 | Exactly the batch that was sent leaves the queue. |
| `JobEvents.JobEvents.Settle` | apps/runner/src/worker.ts:174-194 | A flush that settles without a failure has had everything acknowledged that was emitted before it was asked for. |
| `JobEvents.Delivery` | apps/runner/src/worker.ts:141-207 | Over every sequence of events, flushes and answers: the acknowledged batches joined are the first events in order, each batch is within the limits, until a failure the queue is exactly the rest, and only a failed call makes it fail. |
| `JobEvents.FlushesKeepPromises` | apps/runner/src/worker.ts:171-195 | Over every such sequence: flushes settle in the order in which they were asked for, and one that settled without a failure has had everything acknowledged that was emitted before it was asked for. |
| `JobEvents.EmptyFlush` | apps/runner/src/worker.ts:174-192 | After every sequence, a heartbeat that finds nothing to send makes exactly one call without events, and another flush makes none. |
| `JobEvents.FullFlush` | apps/runner/src/worker.ts:177-180 | A flush that finds events sends the longest batch that may go. |
| `JobEvents.Play` | apps/runner/src/worker.ts:160-206 | A sender to which a sequence of events, flushes and answers happens is in the state the two rows above speak of: batches, queue, failure and settled flushes are functions of that sequence. |
| `JobEvents.FlushThenComplete` | apps/runner/src/worker.ts:448-453 | The last flush ends; the completion reports an error exactly when the sender failed, and otherwise every event has been acknowledged. It reports none when one call for each event and each flush that is left is answered. |
| `Session.Session.SubmitEnds` | packages/core/src/session-tools.ts:203-218 | A finding is recorded exactly when it is well formed and differs from every finding in goal, kind or title; then findings and events grow by it, and otherwise nothing changes. |
| `Session.Session.SetGoalStatus` | packages/core/src/session-tools.ts:225-235 | Only an open session records a status, only for a known goal; then that goal has exactly the reported status and note, the event says the same, and otherwise nothing changes. |
| `Session.Session.FinishBegins` | packages/core/src/session-tools.ts:261-271 | A session ends, or asks who else works, only when every goal is reached or failed. |
| `Session.Session.FinishEnds` | packages/core/src/session-tools.ts:266-272 | While others work it stands by with its summary, otherwise it ends. |
| `Session.Session.ReadEnds` | packages/core/src/session-tools.ts:317-327 | Standby ends when the others are done or after four readings in a row without a message, with the summary it began with. |
| `Session.Session.OnStep` | packages/core/src/role-session.ts:120-126 | Standby ends at the twelfth step after its first one, or earlier on the other limits. |
| `Session.SessionIsSound` | packages/core/src/session-tools.ts:181-275 | Over every sequence of calls, split at their awaits: a session that has ended or stands by has every goal reached or failed, the emitted events rebuild goals and findings, and no two findings agree in goal, kind and title. |
| `Session.GoalsAreLastReported` | packages/core/src/session-tools.ts:225-235 | Over every sequence of calls, a goal has the status and note of the last call that reported it reached or failed while the session was open, or none. |
| `Session.EndIsFinal` | packages/core/src/session-tools.ts:181-275 | After the end, whatever is called, the session stays finished with its goals, no submission begins, and findings grow at most by what was under way. |
| `Session.StandbyEnds` | packages/core/src/role-session.ts:120-126 | Over every sequence of calls, standby leaves the session open for at most twelve steps. |
| `Session.EndsExactly` | packages/core/src/session-tools.ts:261-327 | Over every sequence of calls, an open session ends exactly with a finish that has to wait for nobody, with a finish that waited and found nobody at work, or in standby when the others are done, with the fourth reading in a row without a message, at the twelfth step after the first one in standby, or at another limit. |
| `Session.StandbyBeginsExactly` | packages/core/src/session-tools.ts:266-272 | Standby begins exactly when a finish that waited finds others at work, and a finish waits exactly when it has a summary, every goal is reported, others are in the run and the session neither stands by nor has ended. |
| `Session.Play` | packages/core/src/session-tools.ts:181-275 | A session on which the calls are made ends with the goals, findings, summary and events that the rows above speak of. |
| `Session.LateFindingExactly` | packages/core/src/session-tools.ts:197-217 | A finished session can still gain a finding exactly when a submission is under way that repeats none of its findings. |
| `Session.LateFindingHappens` | packages/core/src/session-tools.ts:197-217 | Calls that lead to such a session. |
| `AccountNote.JsonRoundTrip` | packages/core/src/account-note.ts:41 | A text printed as a JSON string (section 7 of RFC 8259), lone surrogates included, parses to itself. |
| `AccountNote.PlainTextStays` | packages/core/src/account-note.ts:41 | A text without quotes, backslashes, control characters and surrogates is printed as it is. |
| `AccountNote.ParseAccountNote` | packages/core/src/account-note.ts:48-60 | The loop over the matches gives the specified record, or nothing at the first string that is not JSON. |
| `AccountRoundTrip.StringEnds` | packages/core/src/account-note.ts:23 | A printed string ends at its own closing quote, whatever follows it. |
| `AccountRoundTrip.FieldReads` | packages/core/src/account-note.ts:23 | A printed field with a clean name is found as it was when nothing or the separator follows, whatever the value looks like. |
| `AccountRoundTrip.PartsWithPage` | packages/core/src/account-note.ts:22 | What reads as the page is never longer than the page written, and a page without whitespace is found whole although the search gives characters back. |
| `AccountRoundTrip.CutPageComesBack` | packages/core/src/account-note.ts:39-60 | A page without whitespace of any length comes back cut to 120 characters, exactly when the fields can be read. |
| `AccountRoundTrip.NoteReadsBack` | packages/core/src/account-note.ts:39-60 | A note reads back as its record exactly when there is a field, all names are non-empty, on one line and without quote or comma, no value holds U+2028 or U+2029, and the page is absent or at most 120 characters without whitespace. |
| `AccountFields.CleanLabelIsClean` | packages/core/src/account-note.ts:27 | A cleaned label is non-empty, trimmed, at most 24 characters, without quotes, commas and colons, and on one line. |
| `AccountFields.CleanLabelIs` | packages/core/src/account-note.ts:27 | A cleaned label is the words of the label, parted by white space, quotes, apostrophes, commas and colons, with one space between them, as much as 24 characters hold, and `field` exactly when there are none. |
| `AccountFields.ShortValueIs` | packages/core/src/account-note.ts:33 | A value keeps its words with one space between them, as much as 60 characters hold. |
| `AccountFields.KeptFieldsReadBack` | packages/core/src/account-note.ts:29-60 | Whatever a form's labels and values are, the note of any choice of its cleaned fields reads back. |
| `Matching.StillReported` | apps/control-plane/src/mcp/read-model.ts:253-261 | The pairs are a one-to-one matching of equal match text, each base finding taking the first free head finding, and no matching is larger. |
| `Matching.NoLargerMatching` | apps/control-plane/src/mcp/read-model.ts:253-261 | Any matching that leaves no two findings of equal text over is a largest one. |

## Left out

- Secrets: how a secret's forms are made (`forms`, `variants`, `credentialParts`) and the recursion over objects, buffers and errors; the forms are a list given to `Add`. `browserNeedles()` and `forProject` only pass values on.
- Texts of the model and of prompts, calls to models, and schema checks of their shape.
- `slug` is a value given with each goal and person, as is the reference made of two slugs; which playing order and needs the model proposes is arbitrary.
- PlanFrom.Make: leaves out the project's name, addresses, accounts and headers, the pattern and the length limit of ids, and which people sign in.
- Turns, plans and groups are sequences that methods reassign; that the code appends to the last turn in place is not visible in them.
- PlayOrder.DependencyOrder: goals are told apart by their position, not by object identity.
- GoalsPerPerson.OwnGoals: asks for distinct goal ids and persona ids, which the project's schema demands.
- CopyIds.LongIdExactly: which sets of taken ids a project's schema lets arise is left out.
- LeadPlan.SettleTurns: the comparison of names and `leaksPullRequest` are arbitrary functions, the same when a stored plan is read back; the text of the first dropped goal is left out.
- LeadStore.WithLeadsGoals: takes the goals played by a plan in `both` mode as persons and ids; their instructions are left out, also of PlayedGoals.PlayedGoals.
- LeadRoundTrip.StoreAndReadBack: versions, locks and pruning of stored plans, and the check of the pull request's hash. Rows keep texts unit for unit; a lone surrogate anywhere in an instruction would not survive storage as UTF-8, which is not modelled.
- RunStart.AlwaysInv: statements of a transaction are one step each, a claim and the reading of the row it met are one step, rows deleted with their workspace or project do not occur, and starting a run is any number and response. What a client that lost its answer does is a new request.
- SpendLimit.AlwaysWithinLimit: amounts are exact reals rather than doubles, and a charge is a whole number of millionths as the column keeps it. What stops a run at its cap, when a finding may be judged again, changing the limit by connecting again, and revoking are left out.
- SpendWindow.RunsFreeAtIsExact: cutting to a millisecond is modelled for times from 1970 on.
- Artifacts.EveryFileHasARow: asks that the file was put within the grace period, and Artifacts.EveryOpenArtifactHasItsFile that the row was marked within it; Artifacts.LateFileExactly and Artifacts.LateMarkExactly show that nothing less will do.
- Artifacts: the room a job has (`jobWithRoom`), rows deleted with their run, a file that lands after its put has failed and been given up, and a time that lies before a row when a job's work is forgotten. The clocks of the service and of the database are one.
- Cleanup.ArtifactTable.RemoveExpired: which files cannot be removed does not change during a pass, the clock stands still, and a batch is of at least one row.
- JobEvents.JobEvents.Emit: times, the timer that asks for a flush, cancelling, and what the control plane does with a batch sent twice.
- Session.Play: notes, signing in, passwords, screenshots, the texts of answers and of the channel, and the rules of the finding schema, which are one arbitrary yes or no.
- AccountNote.ParseAccountNote: the two regular expressions are scanners for the same language, and a string is unescaped by a function of its own.
- AccountFields.KeptFieldsReadBack: the ranking that picks at most three fields; the statement holds for any choice. `accountFromStory` and `identityOf` are left out.
- Matching.StillReported: the other parts of `compareRuns`, and how a finding's match text is made.
- The browser, the proxy, sign-in and consent, the user interface, and the demo shop.
