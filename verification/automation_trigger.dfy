/**
 * Registration of the automation jobs that drive each lottery's round
 * lifecycle (tasks/initQulotAutomationTrigger.ts).
 *
 * For every lottery, four jobs are planned, one per lifecycle step: close
 * the round, draw it, reward it, open the next one. Each job gets an id
 * derived from the lottery id and a cron schedule derived from the
 * lottery's `periodDays` and `periodHourOfDays`. Jobs whose id is already
 * registered with the trigger contract are skipped.
 */
module AutomationTrigger {
  import opened Wrappers
  import opened Cron

  /** The four kinds of trigger job, in the declaration order of the `JobType` enum. */
  datatype JobType =
    | TriggerCloseLottery
    | TriggerDrawLottery
    | TriggerRewardLottery
    | TriggerOpenLottery

  /** The lifecycle step a job type performs, as numbered in the enum's comments. */
  function Step(t: JobType): (s: nat)
    ensures 1 <= s <= 4
  {
    match t
    case TriggerCloseLottery => 1
    case TriggerDrawLottery => 2
    case TriggerRewardLottery => 3
    case TriggerOpenLottery => 4
  }

  /**
   * The numeric enum value sent to the trigger contract. Opening, the last
   * step of a cycle, has code 0, so the code is the step number modulo 4.
   */
  function Code(t: JobType): (c: nat)
    ensures c == Step(t) % 4
  {
    match t
    case TriggerOpenLottery => 0
    case TriggerCloseLottery => 1
    case TriggerDrawLottery => 2
    case TriggerRewardLottery => 3
  }

  /** Distinct job types have distinct codes below 4. */
  lemma CodeIsInjective(a: JobType, b: JobType)
    ensures Code(a) < 4
    ensures Code(a) == Code(b) ==> a == b
  {
  }

  /**
   * The job types the task iterates over, in the order the enum's member
   * names are enumerated: the declaration order, which is the step order.
   */
  function TriggerJobTypes(): (ts: seq<JobType>)
    ensures |ts| == 4
    ensures forall i :: 0 <= i < |ts| ==> Step(ts[i]) == i + 1
    ensures forall t: JobType :: ts[Step(t) - 1] == t
  {
    [TriggerCloseLottery, TriggerDrawLottery, TriggerRewardLottery, TriggerOpenLottery]
  }

  // ---------------------------------------------------------------- job ids

  /**
   * The suffix `GetJobId` appends for each job type: a colon and the step's
   * name. It restates the table in `GetJobId` once, for the proofs about
   * parsing ids; the four suffixes end in distinct letters.
   */
  function Suffix(t: JobType): (s: string)
    ensures 5 <= |s| <= 7 && s[0] == ':'
  {
    match t
    case TriggerCloseLottery => ":close"
    case TriggerDrawLottery => ":draw"
    case TriggerRewardLottery => ":reward"
    case TriggerOpenLottery => ":open"
  }

  /** The job id of a lottery's job of a given type: the lottery id followed by the type's suffix. */
  function GetJobId(lotteryId: string, t: JobType): (id: string)
    ensures |id| > |lotteryId| + 1
    ensures id[..|lotteryId|] == lotteryId
    ensures id[|lotteryId|] == ':'
  {
    match t
    case TriggerCloseLottery => lotteryId + ":close"
    case TriggerDrawLottery => lotteryId + ":draw"
    case TriggerRewardLottery => lotteryId + ":reward"
    case TriggerOpenLottery => lotteryId + ":open"
  }

  /** Every job id is the lottery id followed by its type's suffix. */
  lemma GetJobIdHasSuffix(lotteryId: string, t: JobType)
    ensures GetJobId(lotteryId, t) == lotteryId + Suffix(t)
  {
  }

  /** Removing a type's suffix from an id that ends with it leaves a lottery id that rebuilds the id. */
  lemma StripSuffix(id: string, t: JobType)
    requires HasSuffix(id, t)
    ensures GetJobId(id[..|id| - |Suffix(t)|], t) == id
  {
    var k := |id| - |Suffix(t)|;
    GetJobIdHasSuffix(id[..k], t);
    assert id == id[..k] + id[k..];
  }

  /** Whether `id` ends with the suffix of job type `t`. */
  predicate HasSuffix(id: string, t: JobType)
  {
    |id| >= |Suffix(t)| && id[|id| - |Suffix(t)|..] == Suffix(t)
  }

  /** The lottery id left when the suffix of `t` is removed from `id`. */
  function StripJobType(id: string, t: JobType): (lotteryId: string)
    requires HasSuffix(id, t)
    ensures GetJobId(lotteryId, t) == id
  {
    StripSuffix(id, t);
    id[..|id| - |Suffix(t)|]
  }

  /** Recovers the lottery id and job type from a job id, if it ends with one of the four suffixes. */
  function ParseJobId(id: string): (r: Option<(string, JobType)>)
    ensures r.Some? ==> GetJobId(r.value.0, r.value.1) == id
  {
    if HasSuffix(id, TriggerCloseLottery) then Some((StripJobType(id, TriggerCloseLottery), TriggerCloseLottery))
    else if HasSuffix(id, TriggerDrawLottery) then Some((StripJobType(id, TriggerDrawLottery), TriggerDrawLottery))
    else if HasSuffix(id, TriggerRewardLottery) then Some((StripJobType(id, TriggerRewardLottery), TriggerRewardLottery))
    else if HasSuffix(id, TriggerOpenLottery) then Some((StripJobType(id, TriggerOpenLottery), TriggerOpenLottery))
    else None
  }

  /** Round trip: a job id determines the lottery id and job type it was built from. */
  lemma ParseGetJobId(lotteryId: string, t: JobType)
    ensures ParseJobId(GetJobId(lotteryId, t)) == Some((lotteryId, t))
  {
    var id := GetJobId(lotteryId, t);
    GetJobIdHasSuffix(lotteryId, t);
    assert id[|lotteryId|..] == Suffix(t) && id[..|lotteryId|] == lotteryId;
    assert HasSuffix(id, t);
    // Suffixes tested before t's own do not match.
    if t != TriggerCloseLottery && HasSuffix(id, TriggerCloseLottery) {
      SuffixUnique(id, t, TriggerCloseLottery);
    }
    if t != TriggerDrawLottery && HasSuffix(id, TriggerDrawLottery) {
      SuffixUnique(id, t, TriggerDrawLottery);
    }
    if t != TriggerRewardLottery && HasSuffix(id, TriggerRewardLottery) {
      SuffixUnique(id, t, TriggerRewardLottery);
    }
  }

  /** An id ends with at most one suffix: the four suffixes end in distinct letters ('e', 'w', 'd', 'n'). */
  lemma SuffixUnique(id: string, t: JobType, u: JobType)
    requires HasSuffix(id, t) && HasSuffix(id, u)
    ensures t == u
  {
    assert Suffix(t)[|Suffix(t)| - 1] == id[|id| - 1] == Suffix(u)[|Suffix(u)| - 1];
  }

  /** Distinct (lottery id, job type) pairs never yield the same job id. */
  lemma GetJobIdInjective(l1: string, t1: JobType, l2: string, t2: JobType)
    requires GetJobId(l1, t1) == GetJobId(l2, t2)
    ensures l1 == l2 && t1 == t2
  {
    ParseGetJobId(l1, t1);
    ParseGetJobId(l2, t2);
  }

  // ---------------------------------------------------------- cron schedule

  /**
   * The schedules produced by the cron expression generator, kept abstract:
   * a job at `hour:minute` on every day, or on the listed weekdays only.
   */
  datatype CronSpec =
    | EveryDayAt(hour: int, minute: int)
    | OnSpecificDaysAt(days: seq<int>, hour: int, minute: int)

  /**
   * The minute past the scheduled hour at which each step runs; the steps
   * are five minutes apart, starting with closing at minute 0.
   */
  function Minute(t: JobType): (m: nat)
    ensures m == 5 * (Step(t) - 1)
  {
    match t
    case TriggerCloseLottery => 0
    case TriggerDrawLottery => 5
    case TriggerRewardLottery => 10
    case TriggerOpenLottery => 15
  }

  /** Later steps of a cycle run strictly later within the hour. */
  lemma MinuteIncreasesWithStep(a: JobType, b: JobType)
    requires Step(a) < Step(b)
    ensures Minute(a) < Minute(b)
  {
  }

  /**
   * The schedule of a job: every day at the lottery's hour when the lottery
   * runs on all seven weekdays, otherwise on its listed days at that hour.
   */
  function GetJobCronSpec(periodDays: seq<int>, periodHourOfDays: int, t: JobType): (spec: CronSpec)
    ensures spec.EveryDayAt? <==> IsEveryDay(Some(periodDays))
    ensures spec.OnSpecificDaysAt? ==> spec.days == periodDays
    ensures spec.hour == periodHourOfDays
    ensures spec.minute == Minute(t)
  {
    if IsEveryDay(Some(periodDays)) then
      match t
      case TriggerCloseLottery => EveryDayAt(periodHourOfDays, 0)
      case TriggerDrawLottery => EveryDayAt(periodHourOfDays, 5)
      case TriggerRewardLottery => EveryDayAt(periodHourOfDays, 10)
      case TriggerOpenLottery => EveryDayAt(periodHourOfDays, 15)
    else
      match t
      case TriggerCloseLottery => OnSpecificDaysAt(periodDays, periodHourOfDays, 0)
      case TriggerDrawLottery => OnSpecificDaysAt(periodDays, periodHourOfDays, 5)
      case TriggerRewardLottery => OnSpecificDaysAt(periodDays, periodHourOfDays, 10)
      case TriggerOpenLottery => OnSpecificDaysAt(periodDays, periodHourOfDays, 15)
  }

  // -------------------------------------------------------------- job plans

  /** What the lottery contract reports about one lottery: its id and its schedule. */
  datatype Lottery = Lottery(id: string, periodDays: seq<int>, periodHourOfDays: int)

  /** The arguments of one `addTriggerJob` call. */
  datatype TriggerJob = TriggerJob(jobId: string, lotteryId: string, cronSpec: CronSpec, jobType: JobType)

  /** The job the task builds for a lottery and a job type. */
  function Candidate(l: Lottery, t: JobType): (j: TriggerJob)
  {
    TriggerJob(GetJobId(l.id, t), l.id, GetJobCronSpec(l.periodDays, l.periodHourOfDays, t), t)
  }

  /** What the job built for a lottery and a job type carries: its id parses back to both, and its schedule has the lottery's hour and the type's minute. */
  lemma CandidateFacts(l: Lottery, t: JobType)
    ensures Candidate(l, t).lotteryId == l.id && Candidate(l, t).jobType == t
    ensures ParseJobId(Candidate(l, t).jobId) == Some((l.id, t))
    ensures Candidate(l, t).cronSpec.hour == l.periodHourOfDays
    ensures Candidate(l, t).cronSpec.minute == Minute(t)
  {
    ParseGetJobId(l.id, t);
  }

  /** The jobs added for one lottery when the given job types are visited in order. */
  function JobsFor(l: Lottery, types: seq<JobType>, existsJobIds: seq<string>): (r: seq<TriggerJob>)
    ensures |r| <= |types|
  {
    if types == [] then []
    else
      var t := types[|types| - 1];
      var prefix := JobsFor(l, types[..|types| - 1], existsJobIds);
      if GetJobId(l.id, t) in existsJobIds then prefix else prefix + [Candidate(l, t)]
  }

  /** The jobs the task adds, lottery by lottery, each in step order. */
  function PlannedJobs(lotteries: seq<Lottery>, existsJobIds: seq<string>): (r: seq<TriggerJob>)
    ensures |r| <= 4 * |lotteries|
  {
    if lotteries == [] then []
    else
      PlannedJobs(lotteries[..|lotteries| - 1], existsJobIds)
      + JobsFor(lotteries[|lotteries| - 1], TriggerJobTypes(), existsJobIds)
  }

  /** The ids of a sequence of jobs. */
  function JobIds(jobs: seq<TriggerJob>): (ids: seq<string>)
    ensures |ids| == |jobs|
    ensures forall i :: 0 <= i < |jobs| ==> ids[i] == jobs[i].jobId
  {
    if jobs == [] then [] else JobIds(jobs[..|jobs| - 1]) + [jobs[|jobs| - 1].jobId]
  }

  /** A prefix one element longer is the shorter prefix followed by that element. */
  lemma PrefixExtend<T>(s: seq<T>, k: nat)
    requires k < |s|
    ensures s[..k + 1] == s[..k] + [s[k]]
  {
  }

  /**
   * The task action: for each lottery, for each job type in step order,
   * skip the job if its id is already registered, otherwise add it. The
   * registered ids are read once, before the loops; the result lists the
   * `addTriggerJob` calls in the order they are issued.
   */
  method InitTriggerJobs(lotteries: seq<Lottery>, existsJobIds: seq<string>) returns (added: seq<TriggerJob>)
    ensures added == PlannedJobs(lotteries, existsJobIds)
  {
    var triggerJobTypes := TriggerJobTypes();
    added := [];
    for i := 0 to |lotteries|
      invariant added == PlannedJobs(lotteries[..i], existsJobIds)
    {
      var lottery := lotteries[i];
      ghost var before := added;
      for k := 0 to |triggerJobTypes|
        invariant added == before + JobsFor(lottery, triggerJobTypes[..k], existsJobIds)
      {
        var jobType := triggerJobTypes[k];
        var jobId := GetJobId(lottery.id, jobType);
        var jobCron := GetJobCronSpec(lottery.periodDays, lottery.periodHourOfDays, jobType);
        PrefixExtend(triggerJobTypes, k);
        JobsForAppend(lottery, triggerJobTypes[..k], jobType, existsJobIds);
        if jobId in existsJobIds {
          continue;
        }
        added := added + [TriggerJob(jobId, lottery.id, jobCron, jobType)];
      }
      assert triggerJobTypes[..|triggerJobTypes|] == triggerJobTypes;
      PlannedJobsAppend(lotteries[..i], lottery, existsJobIds);
      PrefixExtend(lotteries, i);
    }
    assert lotteries[..|lotteries|] == lotteries;
  }

  // -------------------------------------------------- properties of the plan

  /** No two jobs in the sequence share an id. */
  predicate DistinctIds(jobs: seq<TriggerJob>)
  {
    forall i, k :: 0 <= i < k < |jobs| ==> jobs[i].jobId != jobs[k].jobId
  }

  /** No two lotteries in the sequence share an id. */
  predicate DistinctLotteryIds(lotteries: seq<Lottery>)
  {
    forall i, k :: 0 <= i < k < |lotteries| ==> lotteries[i].id != lotteries[k].id
  }

  /** A lottery's jobs are the candidates of the visited types whose ids are not registered yet. */
  lemma {:induction false} JobsForMembership(l: Lottery, types: seq<JobType>, existsJobIds: seq<string>, j: TriggerJob)
    ensures j in JobsFor(l, types, existsJobIds)
      <==> exists t :: t in types && GetJobId(l.id, t) !in existsJobIds && j == Candidate(l, t)
  {
    if types != [] {
      var init, last := types[..|types| - 1], types[|types| - 1];
      assert types == init + [last];
      JobsForMembership(l, init, existsJobIds, j);
    }
  }

  /** Every job type occurs in the visiting order. */
  lemma TriggerJobTypesComplete(t: JobType)
    ensures t in TriggerJobTypes()
  {
    assert TriggerJobTypes()[Step(t) - 1] == t;
  }

  /** Every added job is the candidate of some lottery and job type, and its id was not registered. */
  lemma {:induction false} PlannedJobsSound(lotteries: seq<Lottery>, existsJobIds: seq<string>, j: TriggerJob)
    requires j in PlannedJobs(lotteries, existsJobIds)
    ensures exists i, t :: 0 <= i < |lotteries| && j == Candidate(lotteries[i], t) && j.jobId !in existsJobIds
  {
    var init, last := lotteries[..|lotteries| - 1], lotteries[|lotteries| - 1];
    if j in PlannedJobs(init, existsJobIds) {
      PlannedJobsSound(init, existsJobIds, j);
      var i, t :| 0 <= i < |init| && j == Candidate(init[i], t) && j.jobId !in existsJobIds;
      assert lotteries[i] == init[i];
    } else {
      JobsForMembership(last, TriggerJobTypes(), existsJobIds, j);
      var t :| t in TriggerJobTypes() && GetJobId(last.id, t) !in existsJobIds && j == Candidate(last, t);
      assert j == Candidate(lotteries[|lotteries| - 1], t);
    }
  }

  /** Every candidate whose id is not registered yet is added. */
  lemma {:induction false} PlannedJobsComplete(lotteries: seq<Lottery>, existsJobIds: seq<string>, i: nat, t: JobType)
    requires i < |lotteries|
    requires GetJobId(lotteries[i].id, t) !in existsJobIds
    ensures Candidate(lotteries[i], t) in PlannedJobs(lotteries, existsJobIds)
  {
    var init, last := lotteries[..|lotteries| - 1], lotteries[|lotteries| - 1];
    var batch := JobsFor(last, TriggerJobTypes(), existsJobIds);
    assert PlannedJobs(lotteries, existsJobIds) == PlannedJobs(init, existsJobIds) + batch;
    if i < |init| {
      assert init[i] == lotteries[i];
      PlannedJobsComplete(init, existsJobIds, i, t);
    } else {
      assert lotteries[i] == last;
      TriggerJobTypesComplete(t);
      JobsForMembership(last, TriggerJobTypes(), existsJobIds, Candidate(last, t));
      assert Candidate(last, t) in batch;
    }
  }

  /**
   * A job is added exactly when it is the candidate of some lottery and some
   * job type and its id was not already registered.
   */
  lemma PlannedMembership(lotteries: seq<Lottery>, existsJobIds: seq<string>, j: TriggerJob)
    ensures j in PlannedJobs(lotteries, existsJobIds)
      <==> exists i, t :: 0 <= i < |lotteries| && j == Candidate(lotteries[i], t) && j.jobId !in existsJobIds
  {
    if j in PlannedJobs(lotteries, existsJobIds) {
      PlannedJobsSound(lotteries, existsJobIds, j);
    }
    if exists i, t :: 0 <= i < |lotteries| && j == Candidate(lotteries[i], t) && j.jobId !in existsJobIds {
      var i, t :| 0 <= i < |lotteries| && j == Candidate(lotteries[i], t) && j.jobId !in existsJobIds;
      PlannedJobsComplete(lotteries, existsJobIds, i, t);
    }
  }

  /** A job whose id is already registered is never added, and every added job is well-formed. */
  lemma PlannedJobsSkipExisting(lotteries: seq<Lottery>, existsJobIds: seq<string>)
    ensures forall j :: j in PlannedJobs(lotteries, existsJobIds) ==>
      && j.jobId !in existsJobIds
      && j.jobId == GetJobId(j.lotteryId, j.jobType)
      && (exists i :: 0 <= i < |lotteries| && lotteries[i].id == j.lotteryId
           && j.cronSpec == GetJobCronSpec(lotteries[i].periodDays, lotteries[i].periodHourOfDays, j.jobType))
  {
    forall j | j in PlannedJobs(lotteries, existsJobIds)
      ensures j.jobId !in existsJobIds
      ensures j.jobId == GetJobId(j.lotteryId, j.jobType)
      ensures exists i :: (0 <= i < |lotteries| && lotteries[i].id == j.lotteryId
        && j.cronSpec == GetJobCronSpec(lotteries[i].periodDays, lotteries[i].periodHourOfDays, j.jobType))
    {
      PlannedJobsSound(lotteries, existsJobIds, j);
      var i, t :| 0 <= i < |lotteries| && j == Candidate(lotteries[i], t) && j.jobId !in existsJobIds;
    }
  }

  lemma {:induction false} JobsForLength(l: Lottery, types: seq<JobType>, existsJobIds: seq<string>)
    ensures |JobsFor(l, types, existsJobIds)| <= |types|
    ensures existsJobIds == [] ==> |JobsFor(l, types, existsJobIds)| == |types|
  {
    if types != [] {
      JobsForLength(l, types[..|types| - 1], existsJobIds);
    }
  }

  /**
   * Each lottery contributes at most four jobs, one per job type; with no
   * job registered beforehand it contributes exactly four.
   */
  lemma {:induction false} PlannedJobsLength(lotteries: seq<Lottery>, existsJobIds: seq<string>)
    ensures |PlannedJobs(lotteries, existsJobIds)| <= 4 * |lotteries|
    ensures existsJobIds == [] ==> |PlannedJobs(lotteries, existsJobIds)| == 4 * |lotteries|
  {
    if lotteries != [] {
      PlannedJobsLength(lotteries[..|lotteries| - 1], existsJobIds);
      JobsForLength(lotteries[|lotteries| - 1], TriggerJobTypes(), existsJobIds);
    }
  }

  /** Visiting distinct job types yields distinct job ids. */
  lemma {:induction false} JobsForDistinct(l: Lottery, types: seq<JobType>, existsJobIds: seq<string>)
    requires forall i, k :: 0 <= i < k < |types| ==> types[i] != types[k]
    ensures DistinctIds(JobsFor(l, types, existsJobIds))
    ensures forall j :: j in JobsFor(l, types, existsJobIds) ==> j.lotteryId == l.id
  {
    if types != [] {
      var init, last := types[..|types| - 1], types[|types| - 1];
      JobsForDistinct(l, init, existsJobIds);
      var prefix := JobsFor(l, init, existsJobIds);
      forall j | j in prefix ensures j.jobId != GetJobId(l.id, last) {
        JobsForMembership(l, init, existsJobIds, j);
        var t :| t in init && GetJobId(l.id, t) !in existsJobIds && j == Candidate(l, t);
        var p :| 0 <= p < |init| && init[p] == t;
        assert types[p] == t;
        if j.jobId == GetJobId(l.id, last) {
          GetJobIdInjective(l.id, t, l.id, last);
        }
      }
    }
  }

  /** With distinct lottery ids, all job ids added in one run are pairwise distinct. */
  lemma {:induction false} PlannedJobsDistinct(lotteries: seq<Lottery>, existsJobIds: seq<string>)
    requires DistinctLotteryIds(lotteries)
    ensures DistinctIds(PlannedJobs(lotteries, existsJobIds))
  {
    if lotteries != [] {
      var init, last := lotteries[..|lotteries| - 1], lotteries[|lotteries| - 1];
      PlannedJobsDistinct(init, existsJobIds);
      var prefix := PlannedJobs(init, existsJobIds);
      var batch := JobsFor(last, TriggerJobTypes(), existsJobIds);
      JobsForDistinct(last, TriggerJobTypes(), existsJobIds);
      forall a, b | a in prefix && b in batch ensures a.jobId != b.jobId {
        PlannedJobsSound(init, existsJobIds, a);
        var i, t :| 0 <= i < |init| && a == Candidate(init[i], t) && a.jobId !in existsJobIds;
        assert init[i] == lotteries[i];
        JobsForMembership(last, TriggerJobTypes(), existsJobIds, b);
        var u :| u in TriggerJobTypes() && GetJobId(last.id, u) !in existsJobIds && b == Candidate(last, u);
        if a.jobId == b.jobId {
          GetJobIdInjective(init[i].id, t, last.id, u);
        }
      }
      var all := prefix + batch;
      forall i, k | 0 <= i < k < |all| ensures all[i].jobId != all[k].jobId {
        if k < |prefix| {
          assert all[i] == prefix[i] && all[k] == prefix[k];
        } else if i >= |prefix| {
          assert all[i] == batch[i - |prefix|] && all[k] == batch[k - |prefix|];
        } else {
          assert all[i] in prefix && all[k] in batch;
        }
      }
    }
  }

  /** Running the task again, after the planned jobs were registered, adds nothing. */
  lemma RerunAddsNothing(lotteries: seq<Lottery>, existsJobIds: seq<string>)
    ensures PlannedJobs(lotteries, existsJobIds + JobIds(PlannedJobs(lotteries, existsJobIds))) == []
  {
    var first := PlannedJobs(lotteries, existsJobIds);
    var registered := existsJobIds + JobIds(first);
    var second := PlannedJobs(lotteries, registered);
    if second != [] {
      var j := second[0];
      PlannedJobsSound(lotteries, registered, j);
      var i, t :| 0 <= i < |lotteries| && j == Candidate(lotteries[i], t) && j.jobId !in registered;
      PlannedJobsComplete(lotteries, existsJobIds, i, t);
      assert false;
    }
  }

  /** Visiting one more job type appends its candidate, unless its id is registered. */
  lemma JobsForAppend(l: Lottery, types: seq<JobType>, t: JobType, existsJobIds: seq<string>)
    ensures JobsFor(l, types + [t], existsJobIds)
         == JobsFor(l, types, existsJobIds) + (if GetJobId(l.id, t) in existsJobIds then [] else [Candidate(l, t)])
  {
    assert (types + [t])[..|types|] == types;
  }

  /** Visiting one more lottery appends its jobs. */
  lemma PlannedJobsAppend(lotteries: seq<Lottery>, l: Lottery, existsJobIds: seq<string>)
    ensures PlannedJobs(lotteries + [l], existsJobIds)
         == PlannedJobs(lotteries, existsJobIds) + JobsFor(l, TriggerJobTypes(), existsJobIds)
  {
    assert (lotteries + [l])[..|lotteries|] == lotteries;
  }

  /** The three jobs the example below expects, built from the lottery and each job type. */
  lemma LiteqCandidates(l: Lottery)
    requires l == Lottery("liteq", [0, 1, 2, 3, 4, 5, 6], 17)
    ensures Candidate(l, TriggerCloseLottery) == TriggerJob("liteq:close", "liteq", EveryDayAt(17, 0), TriggerCloseLottery)
    ensures Candidate(l, TriggerDrawLottery) == TriggerJob("liteq:draw", "liteq", EveryDayAt(17, 5), TriggerDrawLottery)
    ensures Candidate(l, TriggerRewardLottery) == TriggerJob("liteq:reward", "liteq", EveryDayAt(17, 10), TriggerRewardLottery)
    ensures GetJobId(l.id, TriggerOpenLottery) == "liteq:open"
  {
    assert IsEveryDay(Some(l.periodDays));
    LiteqJobIds();
  }

  /** The job ids of lottery "liteq". */
  lemma LiteqJobIds()
    ensures GetJobId("liteq", TriggerCloseLottery) == "liteq:close"
    ensures GetJobId("liteq", TriggerDrawLottery) == "liteq:draw"
    ensures GetJobId("liteq", TriggerRewardLottery) == "liteq:reward"
    ensures GetJobId("liteq", TriggerOpenLottery) == "liteq:open"
  {
  }

  /**
   * Example: lottery "liteq", drawn every day at 17:00, with its opening job
   * already registered under "liteq:open" (enum value 0). The task adds the
   * close, draw and reward jobs, in that order, at minutes 0, 5 and 10.
   */
  lemma LiteqExample(l: Lottery, ex: seq<string>)
    requires l == Lottery("liteq", [0, 1, 2, 3, 4, 5, 6], 17)
    requires ex == ["liteq:open"]
    ensures Code(TriggerOpenLottery) == 0
    ensures PlannedJobs([l], ex)
         == [ TriggerJob("liteq:close", "liteq", EveryDayAt(17, 0), TriggerCloseLottery),
              TriggerJob("liteq:draw", "liteq", EveryDayAt(17, 5), TriggerDrawLottery),
              TriggerJob("liteq:reward", "liteq", EveryDayAt(17, 10), TriggerRewardLottery) ]
  {
    LiteqCandidates(l);
    assert "liteq:close" !in ex && "liteq:draw" !in ex && "liteq:reward" !in ex;
    JobsForAppend(l, [], TriggerCloseLottery, ex);
    JobsForAppend(l, [TriggerCloseLottery], TriggerDrawLottery, ex);
    JobsForAppend(l, [TriggerCloseLottery, TriggerDrawLottery], TriggerRewardLottery, ex);
    JobsForAppend(l, [TriggerCloseLottery, TriggerDrawLottery, TriggerRewardLottery], TriggerOpenLottery, ex);
    var ts := [TriggerCloseLottery, TriggerDrawLottery, TriggerRewardLottery, TriggerOpenLottery];
    assert TriggerJobTypes() == ts;
    assert JobsFor(l, [], ex) == [];
    assert [TriggerCloseLottery] == [] + [TriggerCloseLottery];
    assert [TriggerCloseLottery, TriggerDrawLottery] == [TriggerCloseLottery] + [TriggerDrawLottery];
    assert [TriggerCloseLottery, TriggerDrawLottery, TriggerRewardLottery]
        == [TriggerCloseLottery, TriggerDrawLottery] + [TriggerRewardLottery];
    assert ts == [TriggerCloseLottery, TriggerDrawLottery, TriggerRewardLottery] + [TriggerOpenLottery];
    assert JobsFor(l, ts, ex) == [
      Candidate(l, TriggerCloseLottery), Candidate(l, TriggerDrawLottery), Candidate(l, TriggerRewardLottery)];
    assert [l][..0] == [];
    assert PlannedJobs([l], ex) == PlannedJobs([], ex) + JobsFor(l, ts, ex);
  }
}
