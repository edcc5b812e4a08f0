/**
 * The job table registered with the background scheduler at start-up: one
 * cron job per hour of the day and per minute 00, 10, 20, 30, 40 and 50, each
 * calling the generation run with its hour and minute.
 */
module Scheduler {
  import opened Digits

  /** A registered job: the trigger's hour and minute (also the run's arguments) and the job id. */
  datatype Job = Job(hour: nat, minute: nat, id: string)

  /** The minutes of each hour at which a draw runs. */
  const Minutes: seq<nat> := [0, 10, 20, 30, 40, 50]

  const JobsPerDay: nat := 24 * 6

  /** `f"draw_{hour:02d}{minute:02d}"`. */
  function JobId(hour: nat, minute: nat): (id: string)
    requires hour < 24 && minute < 60
    ensures |id| == 9 && id[..5] == "draw_"
  {
    "draw_" + Pad2(hour) + Pad2(minute)
  }

  /** The job registered for the given hour and minute. */
  function JobFor(hour: nat, minute: nat): (job: Job)
    requires hour < 24 && minute < 60
  {
    Job(hour, minute, JobId(hour, minute))
  }

  /** A job id reads back as `draw_`, the hour's two digits, then the minute's. */
  lemma JobIdDigits(hour: nat, minute: nat)
    requires hour < 24 && minute < 60
    ensures var id := JobId(hour, minute);
      && AllDigits(id[5..7]) && AllDigits(id[7..])
      && DigitsValue(id[5..7]) == hour && DigitsValue(id[7..]) == minute
  {
    var id := JobId(hour, minute);
    assert id[5..7] == Pad2(hour) && id[7..] == Pad2(minute);
    PadDigitsRoundTrip(hour, 2);
    PadDigitsRoundTrip(minute, 2);
  }

  /** Job ids determine the hour and minute they were made from. */
  lemma JobIdInjective(h1: nat, m1: nat, h2: nat, m2: nat)
    requires h1 < 24 && m1 < 60 && h2 < 24 && m2 < 60
    ensures JobId(h1, m1) == JobId(h2, m2) <==> h1 == h2 && m1 == m2
  {
    if JobId(h1, m1) == JobId(h2, m2) {
      assert JobId(h1, m1)[5..7] == Pad2(h1) && JobId(h2, m2)[5..7] == Pad2(h2);
      assert JobId(h1, m1)[7..] == Pad2(m1) && JobId(h2, m2)[7..] == Pad2(m2);
      PadDigitsInjective(h1, h2, 2);
      PadDigitsInjective(m1, m2, 2);
    }
  }

  /**
   * The two nested loops that register the jobs, hours outer and minutes
   * inner. Each registration appends one job to the scheduler's list.
   */
  method RegisterJobs() returns (jobs: seq<Job>)
    ensures |jobs| == JobsPerDay
    ensures forall k :: 0 <= k < |jobs| ==> jobs[k] == JobFor(k / 6, Minutes[k % 6])
    ensures forall k :: 0 <= k < |jobs| ==> jobs[k].hour < 24 && jobs[k].minute in Minutes
    ensures forall k, l :: 0 <= k < l < |jobs| ==> jobs[k].id != jobs[l].id
  {
    jobs := [];
    for hour := 0 to 24
      invariant |jobs| == 6 * hour
      invariant forall k :: 0 <= k < |jobs| ==> jobs[k] == JobFor(k / 6, Minutes[k % 6])
    {
      for j := 0 to |Minutes|
        invariant |jobs| == 6 * hour + j
        invariant forall k :: 0 <= k < |jobs| ==> jobs[k] == JobFor(k / 6, Minutes[k % 6])
      {
        var minute := Minutes[j];
        jobs := jobs + [JobFor(hour, minute)];
      }
    }
    JobTableWellFormed(jobs);
  }

  /**
   * Every job fires at an hour of the day and at one of the six minutes, and
   * no two jobs share an id, so `replace_existing` never drops one of them.
   */
  lemma JobTableWellFormed(jobs: seq<Job>)
    requires |jobs| == JobsPerDay
    requires forall k :: 0 <= k < |jobs| ==> jobs[k] == JobFor(k / 6, Minutes[k % 6])
    ensures forall k :: 0 <= k < |jobs| ==> jobs[k].hour < 24 && jobs[k].minute in Minutes
    ensures forall k, l :: 0 <= k < l < |jobs| ==> jobs[k].id != jobs[l].id
  {
    forall k, l | 0 <= k < l < |jobs| ensures jobs[k].id != jobs[l].id {
      JobIdInjective(k / 6, Minutes[k % 6], l / 6, Minutes[l % 6]);
      if k / 6 == l / 6 && k % 6 != l % 6 {
        assert Minutes[k % 6] == 10 * (k % 6) && Minutes[l % 6] == 10 * (l % 6);
      }
    }
  }
  /**
   * The scheduler's job store after the jobs are added in order with
   * `replace_existing=True`: a job replaces any earlier one with its id.
   */
  function Scheduled(jobs: seq<Job>): (store: map<string, Job>)
    ensures |store| <= |jobs|
  {
    if jobs == [] then map[]
    else
      var last := jobs[|jobs| - 1];
      Scheduled(jobs[..|jobs| - 1])[last.id := last]
  }

  /** The store holds a job under every id added and under no other. */
  lemma {:induction false} ScheduledKeys(jobs: seq<Job>)
    ensures Scheduled(jobs).Keys == set k | 0 <= k < |jobs| :: jobs[k].id
  {
    if jobs != [] {
      var init := jobs[..|jobs| - 1];
      ScheduledKeys(init);
      assert forall k :: 0 <= k < |init| ==> init[k] == jobs[k];
    }
  }

  /** When ids are distinct, the store keeps every job added. */
  lemma {:induction false} ScheduledSize(jobs: seq<Job>)
    requires forall k, l :: 0 <= k < l < |jobs| ==> jobs[k].id != jobs[l].id
    ensures |Scheduled(jobs)| == |jobs|
  {
    if jobs != [] {
      var init := jobs[..|jobs| - 1];
      ScheduledSize(init);
      ScheduledKeys(init);
      assert jobs[|jobs| - 1].id !in Scheduled(init);
    }
  }

  /** When ids are distinct, each job added is stored under its id. */
  lemma {:induction false} ScheduledHas(jobs: seq<Job>, k: nat)
    requires forall k, l :: 0 <= k < l < |jobs| ==> jobs[k].id != jobs[l].id
    requires k < |jobs|
    ensures jobs[k].id in Scheduled(jobs) && Scheduled(jobs)[jobs[k].id] == jobs[k]
  {
    if k < |jobs| - 1 {
      var init := jobs[..|jobs| - 1];
      ScheduledHas(init, k);
      assert init[k] == jobs[k];
    }
  }

  /** The position of the job for hour `h` and the `j`-th minute in the registration order. */
  function JobIndex(h: nat, j: nat): (k: nat)
    requires h < 24 && j < |Minutes|
    ensures k < JobsPerDay && k / 6 == h && k % 6 == j
  {
    6 * h + j
  }

  /** The jobs in registration order: hours outer, minutes inner. */
  predicate JobTable(jobs: seq<Job>) {
    |jobs| == JobsPerDay && forall k :: 0 <= k < |jobs| ==> jobs[k] == JobFor(k / 6, Minutes[k % 6])
  }

  predicate DistinctIds(jobs: seq<Job>) {
    forall k, l :: 0 <= k < l < |jobs| ==> jobs[k].id != jobs[l].id
  }

  /** The job for hour `h` and the `j`-th minute is stored under its id. */
  lemma StartupHas(jobs: seq<Job>, h: nat, j: nat)
    requires JobTable(jobs) && DistinctIds(jobs)
    requires h < 24 && j < |Minutes|
    ensures JobId(h, Minutes[j]) in Scheduled(jobs) && Scheduled(jobs)[JobId(h, Minutes[j])] == JobFor(h, Minutes[j])
  {
    var k := JobIndex(h, j);
    assert jobs[k] == JobFor(h, Minutes[j]);
    ScheduledHas(jobs, k);
  }

  /** Start-up leaves 144 jobs in the scheduler, the one for each hour and minute under its own id. */
  lemma StartupSchedules(jobs: seq<Job>)
    requires JobTable(jobs)
    ensures |Scheduled(jobs)| == 144
    ensures forall h, j :: 0 <= h < 24 && 0 <= j < |Minutes| ==>
      JobId(h, Minutes[j]) in Scheduled(jobs) && Scheduled(jobs)[JobId(h, Minutes[j])] == JobFor(h, Minutes[j])
  {
    JobTableWellFormed(jobs);
    assert DistinctIds(jobs);
    ScheduledSize(jobs);
    forall h, j | 0 <= h < 24 && 0 <= j < |Minutes|
      ensures JobId(h, Minutes[j]) in Scheduled(jobs) && Scheduled(jobs)[JobId(h, Minutes[j])] == JobFor(h, Minutes[j])
    {
      StartupHas(jobs, h, j);
    }
  }
}
