# Qulot automation-trigger job planning, in Dafny

The Qulot lottery is driven by an automation trigger: a registry of cron-like
jobs. Each job calls one lifecycle step of a lottery: close the round, draw
it, reward it, open the next one. This project models the tooling that
registers those jobs:

- `Cron` (`cron.dfy`) models `isEveryDay`. It decides whether a lottery's
  `periodDays` (weekday numbers, 0 = Sunday .. 6 = Saturday) covers the whole
  week.
- `AutomationTrigger` (`automation_trigger.dfy`) models the following:
  - the `JobType` enum and its numeric codes;
  - the job-id scheme `<lotteryId>:close|draw|reward|open`;
  - the choice between an "every day at" and an "on specific days at"
    schedule, with minute offsets 0, 5, 10 and 15;
  - the `init:QulotAutomationTrigger` task loop. For each lottery and each
    job type in step order, the loop adds a trigger job unless its id is
    already registered.
- `Wrappers` (`wrappers.dfy`) holds the `Option` type. It stands for a
  JavaScript `undefined` and for a parse that may fail.

The task's contract calls become inputs and outputs:

- The lotteries (`getLotteryIds` followed by `getLottery`) are an input
  sequence of `Lottery(id, periodDays, periodHourOfDays)`.
- The registered job ids (`getJobIds`) are an input sequence.
- The `addTriggerJob` calls are the output sequence of `TriggerJob` records,
  in the order they are issued.

The cron expression generator is abstracted as the datatype `CronSpec`.
Its constructor `EveryDayAt(hour, minute)` stands for `cronTime.everyDayAt`
and `OnSpecificDaysAt(days, hour, minute)` for `cronTime.onSpecificDaysAt`
(tasks/initQulotAutomationTrigger.ts:35-52). `GetJobCronSpec`'s contract
says which one is chosen and with which arguments.

`InitTriggerJobs` is the loop itself. Its postcondition ties its result to
the recursive specification `PlannedJobs`, and the lemmas about the task are
stated over `PlannedJobs`.

## Model

| member | source | states |
|---|---|---|
| `Cron.IsEveryDay` | utils/cron.ts:6-17 | The model of `isEveryDay` itself: defined, non-empty, and includes each of 0..6. It is a predicate with no contract of its own; the four lemmas below state what it means |
| `Cron.UndefinedOrEmptyIsNotEveryDay` | utils/cron.ts:8 | An undefined or empty day list is never every day |
| `Cron.IsEveryDayIffCoversWeek` | utils/cron.ts:6-17 | A defined list is every day exactly when each weekday 0..6 occurs in it, that is, when the set {0..6} is a subset of its values (both directions) |
| `Cron.IsEveryDayDependsOnlyOnValues` | utils/cron.ts:9-15 | Two lists with the same set of values give the same answer, so reordering or duplicating entries changes nothing |
| `Cron.IsEveryDayMonotone` | utils/cron.ts:9-15 | Any list whose values include those of an every-day list, extra values outside 0..6 included, is every day |
| `Cron.IsEveryDayNeedsSevenEntries` | utils/cron.ts:9-15 | An every-day list has at least seven entries, so a shorter list is never every day |
| `AutomationTrigger.Step` | tasks/initQulotAutomationTrigger.ts:10-13 | Steps are numbered 1..4: close, draw, reward, open |
| `AutomationTrigger.Code` | tasks/initQulotAutomationTrigger.ts:9-14 | The enum value is the step number modulo 4: Open=0, Close=1, Draw=2, Reward=3 |
| `AutomationTrigger.CodeIsInjective` | tasks/initQulotAutomationTrigger.ts:9-14 | The codes are below 4, and distinct job types have distinct codes |
| `AutomationTrigger.TriggerJobTypes` | tasks/initQulotAutomationTrigger.ts:92 | The task visits four job types, the i-th being step i+1, and every job type appears at the position given by its step |
| `AutomationTrigger.TriggerJobTypesComplete` | tasks/initQulotAutomationTrigger.ts:92 | Every job type is visited |
| `AutomationTrigger.Suffix` | tasks/initQulotAutomationTrigger.ts:19-28 | The suffix for each job type (`:close`, `:draw`, `:reward`, `:open`) starts with `:` and has 5 to 7 characters |
| `AutomationTrigger.GetJobId` | tasks/initQulotAutomationTrigger.ts:18-29 | The job id starts with the lottery id, then a `:`, then at least one more character |
| `AutomationTrigger.GetJobIdHasSuffix` | tasks/initQulotAutomationTrigger.ts:18-29 | Every job id is the lottery id followed by the suffix of its type |
| `AutomationTrigger.SuffixUnique` | tasks/initQulotAutomationTrigger.ts:20-27 | No id ends with two different type suffixes, because the suffixes end in distinct letters |
| `AutomationTrigger.StripJobType` | tasks/initQulotAutomationTrigger.ts:18-29 | Removing a type's suffix from an id that ends with it gives a lottery id from which `GetJobId` rebuilds that id |
| `AutomationTrigger.ParseJobId` | tasks/initQulotAutomationTrigger.ts:18-29 | Inverse of the id scheme: a successful parse gives back a lottery id and job type that rebuild the same id |
| `AutomationTrigger.ParseGetJobId` | tasks/initQulotAutomationTrigger.ts:18-29 | Round trip: parsing `GetJobId(lotteryId, t)` yields exactly `(lotteryId, t)` |
| `AutomationTrigger.GetJobIdInjective` | tasks/initQulotAutomationTrigger.ts:20-27 | Distinct (lottery id, job type) pairs never give the same job id |
| `AutomationTrigger.Minute` | tasks/initQulotAutomationTrigger.ts:35-52 | Minute offsets are 5 × (step − 1): 0, 5, 10 and 15 for close, draw, reward and open |
| `AutomationTrigger.MinuteIncreasesWithStep` | tasks/initQulotAutomationTrigger.ts:10-13 | A later step runs at a strictly later minute |
| `AutomationTrigger.GetJobCronSpec` | tasks/initQulotAutomationTrigger.ts:31-54 | The every-day form is chosen exactly when `isEveryDay(periodDays)` holds; otherwise the specific-days form passes `periodDays` through unchanged; the hour is always `periodHourOfDays` and the minute is the step's offset |
| `AutomationTrigger.CandidateFacts` | tasks/initQulotAutomationTrigger.ts:104-106 | The job that `Candidate` builds for a lottery and a type carries that lottery id and type, an id that parses back to them, the lottery's hour and the type's minute. `Candidate` itself has no contract: it only assembles the `addTriggerJob` arguments of lines 104-106 and 122-126 |
| `AutomationTrigger.JobsFor` | tasks/initQulotAutomationTrigger.ts:103-111 | Specification of the inner loop over job types: at most one job per visited type. Membership and distinctness are in the `JobsFor…` lemmas |
| `AutomationTrigger.PlannedJobs` | tasks/initQulotAutomationTrigger.ts:96-111 | Specification of the whole task loop: at most four jobs per lottery. What is added, and in what order, is in the `Planned…` lemmas and `InitTriggerJobs` |
| `AutomationTrigger.JobsForAppend` | tasks/initQulotAutomationTrigger.ts:103-111 | Visiting one more job type appends its job unless its id is already registered |
| `AutomationTrigger.InitTriggerJobs` | tasks/initQulotAutomationTrigger.ts:92-138 | The nested loops issue exactly the `addTriggerJob` calls that `PlannedJobs` specifies, in that order |
| `AutomationTrigger.JobsForMembership` | tasks/initQulotAutomationTrigger.ts:103-111 | A lottery's added jobs are exactly the candidates of the visited types whose ids are not registered |
| `AutomationTrigger.PlannedJobsSound` | tasks/initQulotAutomationTrigger.ts:96-122 | Every added job is the candidate of some lottery and job type, and its id was not registered |
| `AutomationTrigger.PlannedJobsComplete` | tasks/initQulotAutomationTrigger.ts:96-122 | Every candidate whose id is not registered is added |
| `AutomationTrigger.PlannedMembership` | tasks/initQulotAutomationTrigger.ts:96-122 | A job is added if and only if it is a candidate of some lottery and type and its id was not registered |
| `AutomationTrigger.PlannedJobsSkipExisting` | tasks/initQulotAutomationTrigger.ts:108-111 | No added job has a registered id. Each added job's id is `GetJobId` of its lottery and type, and its schedule is `GetJobCronSpec` of some lottery with that id |
| `AutomationTrigger.JobsForLength` | tasks/initQulotAutomationTrigger.ts:103-111 | One lottery gets at most one job per visited type, and exactly one per type when nothing is registered |
| `AutomationTrigger.PlannedJobsLength` | tasks/initQulotAutomationTrigger.ts:96-103 | At most four jobs are added per lottery, and exactly four per lottery when no job was registered |
| `AutomationTrigger.JobsForDistinct` | tasks/initQulotAutomationTrigger.ts:103-111 | Visiting distinct job types gives pairwise distinct job ids, all for that lottery |
| `AutomationTrigger.PlannedJobsDistinct` | tasks/initQulotAutomationTrigger.ts:96-138 | With pairwise distinct lottery ids, all job ids added in one run are pairwise distinct |
| `AutomationTrigger.RerunAddsNothing` | tasks/initQulotAutomationTrigger.ts:94 | Running the task again after the added ids are registered adds nothing, so a job is never added twice |
| `AutomationTrigger.LiteqJobIds` | tasks/initQulotAutomationTrigger.ts:20-27 | The four job ids of lottery `liteq` are `liteq:close`, `liteq:draw`, `liteq:reward` and `liteq:open` |
| `AutomationTrigger.LiteqCandidates` | tasks/initQulotAutomationTrigger.ts:18-54 | For lottery `liteq` at 17:00 every day, the close, draw and reward jobs are `liteq:close` at 17:00, `liteq:draw` at 17:05 and `liteq:reward` at 17:10, and the open job's id is `liteq:open` |
| `AutomationTrigger.LiteqExample` | test/QulotAutomationTrigger.test.ts:73-80 | Starts from the registry this test leaves behind: `liteq:open` registered, with enum value 0. The task would then add only the close, draw and reward jobs, in that order. The test itself never runs the task and does not assert this. Its cron string puts the open job at minute 5, not the task's 15, and is not used here |

## Left out

- `isEveryDay` returns a JavaScript value: `undefined`, `0` or a boolean. `Cron.IsEveryDay` models only its truthiness. That is all `getJobCronSpec` uses, in its `if`.
- Weekday numbers and the hour are JavaScript numbers made by `BigNumber.toNumber()`. They are modelled as unbounded integers. Non-integer values and conversion overflow are not modelled.
- The cron expression generator and the cron string syntax are not modelled. `CronSpec.EveryDayAt` and `CronSpec.OnSpecificDaysAt` stand for `cronTime.everyDayAt` and `cronTime.onSpecificDaysAt`.
- The task's contract calls are not modelled. Their data becomes inputs and outputs, as described above. These calls are:
  - `setQulotLottery`, when the `new` flag is set (tasks/initQulotAutomationTrigger.ts:74-86);
  - `getLotteryIds`, `getLottery` and `getJobIds`;
  - `addTriggerJob`.
- `InitTriggerJobs` assumes every `addTriggerJob` call succeeds. The trigger contract's own validation and reverts are outside this model.
- Signers, gas limits, gas price and console logging are I/O and are left out.
- `InitTriggerJobs`: the registered ids are read once, before the loops, and are not updated during the run, as in the source. If two lotteries had the same id, that job would be planned twice. The lottery contract keeps lottery ids unique, so `PlannedJobsDistinct` takes distinct lottery ids as its hypothesis.
- The lottery and automation-trigger contracts themselves are not part of this model. That covers the round lifecycle, ticket pricing, settlement and claims.
- The remaining tasks, deployment scripts and utilities (`utils/datetime.ts`, `utils/number.ts`, `utils/env.ts`) are not part of this model. They perform deployment, network I/O, date-library arithmetic or randomness.
