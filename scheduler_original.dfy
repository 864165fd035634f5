/** The earlier scheduler (scheduler_original.py): the same directory
    state machine and store, with a linear priority over urgency, waiting
    time and requested memory, a HELD state that is also eligible, and no
    special case for the virtual device. Time is whole seconds `now`. */
module SchedulerOriginal {
  import opened Wrappers
  import opened Text
  import opened Sorting
  import opened Dirs
  import opened GpuMonitor
  import opened ProcessRunner
  import opened JobStores

  datatype JobStatus = Queued | Held | Running | Completed | Failed

  datatype Job = Job(
    id: string,
    scriptPath: Path,
    userId: string,
    urgency: int,
    vramRequired: int,
    createdAt: int,
    status: JobStatus,
    assignedGpu: Option<int>,
    pid: Option<int>,
    priorityScore: real)

  const DefaultUrgency: int := 5
  /** The default request as the source writes it, `2 * 1024**9` bytes. */
  const DefaultVramAsWritten: int := 2 * GiB * GiB * GiB
  /** The default request the later scheduler uses, `2 * 1024**3` bytes. */
  const DefaultVramRequired: int := 2 * GiB

  const UserWeight: real := 1.0
  const Alpha: real := 0.001
  const Beta: real := 0.000000000001

  /** `_compute_priority`: `w_user * urgency + alpha * wait - beta * vram`. */
  function Priority(job: Job, now: int): real {
    UserWeight * job.urgency as real + Alpha * (now - job.createdAt) as real - Beta * job.vramRequired as real
  }

  /** Each second of waiting adds exactly 0.001, so waiting longer strictly
      raises the priority. */
  lemma PriorityIncreasesWithWait(job: Job, now1: int, now2: int)
    requires now1 < now2
    ensures Priority(job, now1) < Priority(job, now2)
    ensures Priority(job, now2) - Priority(job, now1) == Alpha * (now2 - now1) as real
  {
  }

  /** A more urgent job scores higher, all else equal. */
  lemma PriorityIncreasesWithUrgency(job: Job, urgency: int, now: int)
    requires job.urgency < urgency
    ensures Priority(job, now) < Priority(job.(urgency := urgency), now)
  {
  }

  /** A larger request never scores higher, all else equal. */
  lemma PriorityNonIncreasingInVram(job: Job, vram: int, now: int)
    requires job.vramRequired <= vram
    ensures Priority(job.(vramRequired := vram), now) <= Priority(job, now)
  {
  }

  predicate Eligible(j: Job) {
    j.status == Queued || j.status == Held
  }

  /** The job after a rescoring pass: eligible jobs carry their fresh
      priority, others are left as they were. */
  function Rescored(now: int, j: Job): Job {
    if Eligible(j) then j.(priorityScore := Priority(j, now)) else j
  }

  /** The eligible jobs of `js`, rescored, in order. */
  ghost function RescoredEligible(now: int, js: seq<Job>): seq<Job> {
    if js == [] then []
    else
      var last := js[|js| - 1];
      RescoredEligible(now, js[..|js| - 1]) + (if Eligible(last) then [Rescored(now, last)] else [])
  }

  lemma RescoredEligibleStep(now: int, js: seq<Job>, i: nat)
    requires i < |js|
    ensures RescoredEligible(now, js[..i + 1])
         == RescoredEligible(now, js[..i]) + (if Eligible(js[i]) then [Rescored(now, js[i])] else [])
  {
    PrefixOfPrefix(js, i + 1, i);
  }

  lemma {:induction false} RescoredEligibleFrom(now: int, js: seq<Job>, c: Job) returns (p: nat)
    requires c in RescoredEligible(now, js)
    ensures p < |js| && Eligible(js[p]) && c == Rescored(now, js[p])
  {
    if c in RescoredEligible(now, js[..|js| - 1]) {
      p := RescoredEligibleFrom(now, js[..|js| - 1], c);
    } else {
      p := |js| - 1;
    }
  }

  lemma {:induction false} RescoredEligibleHas(now: int, js: seq<Job>, p: nat)
    requires p < |js| && Eligible(js[p])
    ensures Rescored(now, js[p]) in RescoredEligible(now, js)
  {
    if p < |js| - 1 {
      RescoredEligibleHas(now, js[..|js| - 1], p);
    }
  }

  /** Midway through the rescoring loop: the entries of the first `i` ids
      are rescored, the others are as they were. */
  ghost predicate RescoredUpTo(now: int, before: map<string, Job>, m: map<string, Job>, ids: seq<string>, i: nat) {
    i <= |ids|
    && (forall p :: 0 <= p < |ids| ==> ids[p] in before && ids[p] in m)
    && (forall p :: 0 <= p < i ==> m[ids[p]] == Rescored(now, before[ids[p]]))
    && (forall p :: i <= p < |ids| ==> m[ids[p]] == before[ids[p]])
  }

  /** One loop step: writing the rescored entry of the `i`-th id (which
      for an ineligible job is the entry itself) moves the midpoint on. */
  lemma RescoredUpToStep(now: int, before: map<string, Job>, m: map<string, Job>, m': map<string, Job>,
                          ids: seq<string>, i: nat)
    requires RescoredUpTo(now, before, m, ids, i) && i < |ids|
    requires forall p, q :: 0 <= p < q < |ids| ==> ids[p] != ids[q]
    requires m'.Keys == m.Keys && m'[ids[i]] == Rescored(now, before[ids[i]])
    requires forall id :: id in m && id != ids[i] ==> m'[id] == m[id]
    ensures RescoredUpTo(now, before, m', ids, i + 1)
  {
  }

  /** What the rescoring pass leaves: every entry rescored, and the
      candidates are exactly the eligible entries, each as stored. */
  ghost predicate RescoredStore(now: int, before: map<string, Job>, after: map<string, Job>, candidates: seq<Job>) {
    after.Keys == before.Keys
    && (forall id :: id in before ==> after[id] == Rescored(now, before[id]))
    && (forall c :: c in candidates ==> Eligible(c) && c.id in after && after[c.id] == c)
    && (forall id :: id in after && Eligible(after[id]) ==> after[id] in candidates)
  }

  /** After the rescoring loop: the candidates are exactly the eligible
      entries of the store, each as stored. */
  lemma CandidatesAreStored(now: int, before: map<string, Job>, ids: seq<string>, all: seq<Job>,
                            after: map<string, Job>, candidates: seq<Job>)
    requires forall id :: id in before <==> id in ids
    requires forall id :: id in before ==> before[id].id == id
    requires |all| == |ids| && forall p :: 0 <= p < |ids| ==> all[p] == before[ids[p]]
    requires after.Keys == before.Keys
    requires RescoredUpTo(now, before, after, ids, |ids|)
    requires candidates == RescoredEligible(now, all[..|all|])
    ensures RescoredStore(now, before, after, candidates)
  {
    TakeAll(all);
    forall id | id in before
      ensures after[id] == Rescored(now, before[id])
    {
      var p :| 0 <= p < |ids| && ids[p] == id;
    }
    forall c | c in candidates
      ensures Eligible(c) && c.id in after && after[c.id] == c
    {
      var p := RescoredEligibleFrom(now, all, c);
    }
    forall id | id in after && Eligible(after[id])
      ensures after[id] in candidates
    {
      var p :| 0 <= p < |ids| && ids[p] == id;
      RescoredEligibleHas(now, all, p);
    }
  }

  /** A rescoring pass that found no candidate saw no eligible job. */
  lemma NoneEligible(now: int, before: map<string, Job>, after: map<string, Job>)
    requires RescoredStore(now, before, after, [])
    ensures forall id :: id in before ==> !Eligible(before[id])
  {
    forall id | id in before
      ensures !Eligible(before[id])
    {
      assert after[id].status == before[id].status;
    }
  }

  function ScoreAtLeast(a: Job, b: Job): bool {
    a.priorityScore >= b.priorityScore
  }

  lemma ScoreOrderIsTotal()
    ensures TotalPreorder(ScoreAtLeast)
  {
  }

  /** `candidates.sort(key=priority_score, reverse=True)[0]`. */
  function HighestScore(candidates: seq<Job>): (best: Job)
    requires candidates != []
    ensures best in candidates
    ensures forall c :: c in candidates ==> c.priorityScore <= best.priorityScore
  {
    ScoreOrderIsTotal();
    var sorted := SortDesc(candidates, ScoreAtLeast);
    assert sorted[0] in multiset(candidates) by {
      assert sorted[0] in multiset(sorted);
    }
    assert forall c :: c in candidates ==> c.priorityScore <= sorted[0].priorityScore by {
      forall c | c in candidates
        ensures c.priorityScore <= sorted[0].priorityScore
      {
        assert c in multiset(sorted) by {
          assert c in multiset(candidates);
        }
        var q :| 0 <= q < |sorted| && sorted[q] == c;
        if q > 0 {
          assert ScoreAtLeast(sorted[0], sorted[q]);
        }
      }
    }
    sorted[0]
  }

  /** The sort is stable, so the job picked is the earliest candidate of
      the highest score: every candidate before it scores strictly lower. */
  lemma HighestScoreIsFirst(candidates: seq<Job>)
    requires candidates != []
    ensures exists k :: 0 <= k < |candidates| && candidates[k] == HighestScore(candidates)
              && forall j :: 0 <= j < k ==> candidates[j].priorityScore < HighestScore(candidates).priorityScore
  {
    ScoreOrderIsTotal();
    SortDescHeadFirst(candidates, ScoreAtLeast);
  }


  /** The `k`-th candidate is the rescoring of the eligible job at some
      position `p` of `js`, and every eligible job listed before `p` is
      among the candidates before `k`. */
  lemma {:induction false} RescoredEligibleOrder(now: int, js: seq<Job>, k: nat) returns (p: nat)
    requires k < |RescoredEligible(now, js)|
    ensures p < |js| && Eligible(js[p]) && RescoredEligible(now, js)[k] == Rescored(now, js[p])
    ensures forall q :: 0 <= q < p && Eligible(js[q]) ==> Rescored(now, js[q]) in RescoredEligible(now, js)[..k]
  {
    var init := js[..|js| - 1];
    var before := RescoredEligible(now, init);
    var res := RescoredEligible(now, js);
    assert res[..|before|] == before;
    if k < |before| {
      p := RescoredEligibleOrder(now, init, k);
      assert res[..k] == before[..k];
    } else {
      p := |js| - 1;
      forall q | 0 <= q < p && Eligible(js[q])
        ensures Rescored(now, js[q]) in res[..k]
      {
        assert init[q] == js[q];
        RescoredEligibleHas(now, init, q);
      }
    }
  }

  /** The job `_pick_next_job` takes from the jobs listed in `js`. */
  ghost function Pick(now: int, js: seq<Job>): Option<Job>
  {
    var cands := RescoredEligible(now, js);
    if cands == [] then None else Some(HighestScore(cands))
  }

  /** The job `_pick_next_job` takes is the rescoring of an eligible job
      that beats every eligible job listed before it and that no eligible
      job beats: ties go to the job submitted first. */
  lemma PickIsFirstHighest(now: int, js: seq<Job>)
    ensures Pick(now, js).None? <==> forall q :: 0 <= q < |js| ==> !Eligible(js[q])
    ensures Pick(now, js).Some? ==>
              exists p :: 0 <= p < |js| && Eligible(js[p]) && Pick(now, js).value == Rescored(now, js[p])
                && (forall q :: 0 <= q < p && Eligible(js[q]) ==>
                      Rescored(now, js[q]).priorityScore < Rescored(now, js[p]).priorityScore)
                && (forall q :: 0 <= q < |js| && Eligible(js[q]) ==>
                      Rescored(now, js[q]).priorityScore <= Rescored(now, js[p]).priorityScore)
  {
    var cands := RescoredEligible(now, js);
    if cands == [] {
      forall q | 0 <= q < |js|
        ensures !Eligible(js[q])
      {
        if Eligible(js[q]) {
          RescoredEligibleHas(now, js, q);
        }
      }
    } else {
      var best := HighestScore(cands);
      HighestScoreIsFirst(cands);
      var k :| 0 <= k < |cands| && cands[k] == best
               && forall j :: 0 <= j < k ==> cands[j].priorityScore < best.priorityScore;
      var p := RescoredEligibleOrder(now, js, k);
      EarlierEligibleLower(now, js, k, p, best);
      NoEligibleHigher(now, js, best);
      assert Rescored(now, js[p]) == best;
    }
  }

  /** Eligible jobs listed before the source of the `k`-th candidate score
      below it when every candidate before `k` does. */
  lemma EarlierEligibleLower(now: int, js: seq<Job>, k: nat, p: nat, best: Job)
    requires k < |RescoredEligible(now, js)| && p < |js|
    requires forall j :: 0 <= j < k ==> RescoredEligible(now, js)[j].priorityScore < best.priorityScore
    requires forall q :: 0 <= q < p && Eligible(js[q]) ==> Rescored(now, js[q]) in RescoredEligible(now, js)[..k]
    ensures forall q :: 0 <= q < p && Eligible(js[q]) ==> Rescored(now, js[q]).priorityScore < best.priorityScore
  {
    forall q | 0 <= q < p && Eligible(js[q])
      ensures Rescored(now, js[q]).priorityScore < best.priorityScore
    {
      var j := InPrefix(RescoredEligible(now, js), k, Rescored(now, js[q]));
    }
  }

  /** No eligible job's fresh score beats a score no candidate beats. */
  lemma NoEligibleHigher(now: int, js: seq<Job>, best: Job)
    requires forall c :: c in RescoredEligible(now, js) ==> c.priorityScore <= best.priorityScore
    ensures forall q :: 0 <= q < |js| && Eligible(js[q]) ==> Rescored(now, js[q]).priorityScore <= best.priorityScore
  {
    forall q | 0 <= q < |js| && Eligible(js[q])
      ensures Rescored(now, js[q]).priorityScore <= best.priorityScore
    {
      RescoredEligibleHas(now, js, q);
    }
  }


  /** The device test of `_find_available_gpu`; the virtual device is
      treated like any other. */
  predicate Fits(m: GpuMetrics, vramRequired: int) {
    && m.isHealthy
    && m.memoryTotal - m.memoryUsed >= vramRequired
    && m.memoryUsed < GiB
  }

  ghost predicate IsFirstFit(metrics: seq<GpuMetrics>, vramRequired: int, r: Option<int>) {
    && (r.None? <==> forall i :: 0 <= i < |metrics| ==> !Fits(metrics[i], vramRequired))
    && (r.Some? ==> exists i :: && 0 <= i < |metrics| && metrics[i].gpuId == r.value
                              && Fits(metrics[i], vramRequired)
                              && forall k :: 0 <= k < i ==> !Fits(metrics[k], vramRequired))
  }

  /** The scan of `_find_available_gpu` over one sample of the devices. */
  method FirstFitGpu(metrics: seq<GpuMetrics>, vramRequired: int) returns (r: Option<int>)
    ensures IsFirstFit(metrics, vramRequired, r)
  {
    for i := 0 to |metrics|
      invariant forall k :: 0 <= k < i ==> !Fits(metrics[k], vramRequired)
    {
      var m := metrics[i];
      var freeMem := m.memoryTotal - m.memoryUsed;
      if !m.isHealthy {
        continue;
      }
      if freeMem >= vramRequired && m.memoryUsed < GiB {
        assert Fits(metrics[i], vramRequired);
        return Some(m.gpuId);
      }
    }
    return None;
  }

  /** As written, the default request (2 * 1024^9 bytes) exceeds any device
      with under 2^91 bytes of memory, the virtual one included, so a job
      submitted with the default can never be placed. */
  lemma DefaultAsWrittenNeverFits(m: GpuMetrics)
    requires m.memoryTotal < DefaultVramAsWritten && m.memoryUsed >= 0
    ensures !Fits(m, DefaultVramAsWritten)
    ensures !Fits(VirtualGpu, DefaultVramAsWritten)
  {
  }

  /** What the as-written default does to the job that carries it: on any
      listing whose devices all have under 2^91 bytes, the placement scan
      of `LaunchJob` finds nothing, so the job never leaves the queue. */
  lemma DefaultAsWrittenNeverPlaced(nvmlAvailable: bool, readings: seq<DeviceReading>, r: Option<int>)
    requires forall i :: 0 <= i < |readings| ==> 0 <= readings[i].memoryUsed && readings[i].memoryTotal < DefaultVramAsWritten
    requires IsFirstFit(Listing(nvmlAvailable, readings), DefaultVramAsWritten, r)
    ensures r.None?
  {
    var ms := Listing(nvmlAvailable, readings);
    forall i | 0 <= i < |ms|
      ensures !Fits(ms[i], DefaultVramAsWritten)
    {
      if nvmlAvailable {
        DefaultAsWrittenNeverFits(ms[i]);
      } else {
        DefaultAsWrittenNeverFits(VirtualGpu);
      }
    }
  }

  /** A healthy device with 2 GiB free and under 1 GiB in use. */
  predicate RoomFor2GiB(r: DeviceReading) {
    Healthy(r.temperature) && r.memoryTotal - r.memoryUsed >= 2 * GiB && r.memoryUsed < GiB
  }

  /** With the corrected default, the job is placed on the virtual device
      and on any listing with a healthy device that has 2 GiB free and
      under 1 GiB in use. */
  lemma DefaultIntendedPlaced(nvmlAvailable: bool, readings: seq<DeviceReading>, r: Option<int>)
    requires IsFirstFit(Listing(nvmlAvailable, readings), DefaultVramRequired, r)
    requires !nvmlAvailable || exists i :: 0 <= i < |readings| && RoomFor2GiB(readings[i])
    ensures r.Some?
  {
    var ms := Listing(nvmlAvailable, readings);
    if nvmlAvailable {
      var i :| 0 <= i < |readings| && RoomFor2GiB(readings[i]);
      DefaultFits(ms[i]);
    } else {
      DefaultFits(VirtualGpu);
      assert ms[0] == VirtualGpu;
    }
  }

  /** The intended default, 2 GiB, fits the 16 GiB virtual device and any
      healthy device with at least 2 GiB free and under 1 GiB in use. */
  lemma DefaultFits(m: GpuMetrics)
    requires m.isHealthy && m.memoryTotal - m.memoryUsed >= 2 * GiB && m.memoryUsed < GiB
    ensures Fits(m, DefaultVramRequired)
    ensures Fits(VirtualGpu, DefaultVramRequired)
  {
  }

  datatype LaunchOutcome =
    | NoGpu
    | RenameFailed(gpu: int, error: FsError)
    | SpawnFailed(gpu: int, scriptPath: Path)
    | Launched(gpu: int, scriptPath: Path, proc: Process)
  {
    function Gpu(): Option<int> {
      if NoGpu? then None else Some(gpu)
    }
  }

  class GpuScheduler {
    const layout: DirLayout
    const monitor: GpuMonitor
    const runner: ProcessRunner
    const jobs: JobStore<Job>

    ghost predicate Valid()
      reads this, jobs
    {
      && jobs.Valid()
      && (forall id :: id in jobs.jobs ==> jobs.jobs[id].id == id)
    }

    constructor (resolvedRoot: string, fs: FileSystem, nvmlImportOk: bool, nvmlInitOk: bool)
      ensures Valid()
      ensures layout.root == resolvedRoot && layout.fs == fs && runner.logsDir == layout.out
      ensures monitor.nvmlAvailable <==> nvmlImportOk && nvmlInitOk
      ensures jobs.ids == [] && jobs.jobs == map[]
      ensures fresh(jobs) && fresh(runner) && fresh(monitor)
    {
      var l := new DirLayout(resolvedRoot, fs);
      layout := l;
      monitor := new GpuMonitor(nvmlImportOk, nvmlInitOk);
      runner := new ProcessRunner(l.out);
      jobs := new JobStore();
    }

    /** `submit_job`: moves the script into `to_run/` as `<jobId>.py` and
        stores a QUEUED job. An absent urgency or request takes its default;
        the request default is `2 * 1024**9` bytes, as written. */
    method SubmitJob(srcScript: Path, userId: string, urgency: Option<int>, vramRequired: Option<int>,
                     jobId: string, now: int)
      returns (r: Result<Job, FsError>)
      requires Valid()
      modifies layout.fs, jobs
      ensures Valid()
      ensures var before := WithDir(old(layout.fs.dirs), layout.toRun);
              r.Success? <==> srcScript.dir in before && srcScript.name in before[srcScript.dir]
      ensures r.Failure? ==> jobs.jobs == old(jobs.jobs) && jobs.ids == old(jobs.ids)
                             && layout.fs.dirs == WithDir(old(layout.fs.dirs), layout.toRun)
      ensures r.Success? ==> && r.value == Job(jobId, r.value.scriptPath, userId, urgency.GetOr(DefaultUrgency),
                                               vramRequired.GetOr(DefaultVramAsWritten), now, Queued, None, None, 0.0)
                             && r.value.scriptPath.dir == layout.toRun
                             && jobs.jobs == old(jobs.jobs)[jobId := r.value]
      ensures r.Success? ==> var before := WithDir(old(layout.fs.dirs), layout.toRun);
              && (exists k :: IsFirstFree(before[layout.toRun], jobId + ".py", k)
                               && r.value.scriptPath.name == Candidate(jobId + ".py", k))
              && layout.fs.dirs == Moved(before, srcScript, r.value.scriptPath)
    {
      var dst, k := layout.SafeRename(srcScript, layout.toRun, Some(jobId + ".py"));
      if dst.Failure? {
        return Failure(dst.error);
      }
      var u := if urgency.Some? then urgency.value else DefaultUrgency;
      var v := if vramRequired.Some? then vramRequired.value else DefaultVramAsWritten;
      var job := Job(jobId, dst.value, userId, u, v, now, Queued, None, None, 0.0);
      jobs.AddJob(jobId, job);
      r := Success(job);
    }

    /** `submit_job` with the request default corrected to 2 GiB: an
        absent request is submitted as an explicit 2 GiB one. */
    method SubmitJobIntended(srcScript: Path, userId: string, urgency: Option<int>, vramRequired: Option<int>,
                             jobId: string, now: int)
      returns (r: Result<Job, FsError>)
      requires Valid()
      modifies layout.fs, jobs
      ensures Valid()
      ensures var before := WithDir(old(layout.fs.dirs), layout.toRun);
              r.Success? <==> srcScript.dir in before && srcScript.name in before[srcScript.dir]
      ensures r.Failure? ==> jobs.jobs == old(jobs.jobs) && jobs.ids == old(jobs.ids)
      ensures r.Success? ==> && r.value == Job(jobId, r.value.scriptPath, userId, urgency.GetOr(DefaultUrgency),
                                               vramRequired.GetOr(DefaultVramRequired), now, Queued, None, None, 0.0)
                             && r.value.scriptPath.dir == layout.toRun
                             && jobs.jobs == old(jobs.jobs)[jobId := r.value]
    {
      r := SubmitJob(srcScript, userId, urgency, Some(vramRequired.GetOr(DefaultVramRequired)), jobId, now);
    }

    /** The `i`-th job of the rescoring pass: a QUEUED or HELD job gets its
        fresh score written back and joins the candidates; any other job is
        left alone. */
    method RescoreAt(now: int, ghost before: map<string, Job>, ghost ids: seq<string>, all: seq<Job>, i: nat,
                     candidates: seq<Job>)
      returns (candidates': seq<Job>)
      requires Valid() && jobs.ids == ids && jobs.jobs.Keys == before.Keys && i < |all|
      requires |all| == |ids| && forall p :: 0 <= p < |ids| ==> all[p] == before[ids[p]]
      requires forall id :: id in before ==> before[id].id == id
      requires RescoredUpTo(now, before, jobs.jobs, ids, i)
      requires candidates == RescoredEligible(now, all[..i])
      modifies jobs
      ensures Valid() && jobs.ids == ids && jobs.jobs.Keys == before.Keys
      ensures RescoredUpTo(now, before, jobs.jobs, ids, i + 1)
      ensures candidates' == RescoredEligible(now, all[..i + 1])
    {
      var j := all[i];
      RescoredEligibleStep(now, all, i);
      ghost var m := jobs.jobs;
      assert j == before[ids[i]] && j.id == ids[i] && m[j.id] == j;
      candidates' := candidates;
      if j.status == Queued || j.status == Held {
        var rescored := j.(priorityScore := Priority(j, now));
        Store(rescored);
        candidates' := candidates + [rescored];
      }
      RescoredUpToStep(now, before, m, jobs.jobs, ids, i);
    }

    /** The rescoring pass of `_pick_next_job` over QUEUED and HELD jobs. */
    method RescoreEligible(now: int) returns (candidates: seq<Job>)
      requires Valid()
      modifies jobs
      ensures Valid()
      ensures jobs.ids == old(jobs.ids)
      ensures RescoredStore(now, old(jobs.jobs), jobs.jobs, candidates)
      ensures candidates == RescoredEligible(now, Values(old(jobs.ids), old(jobs.jobs)))
    {
      ghost var before := jobs.jobs;
      ghost var ids := jobs.ids;
      assert forall id :: id in before <==> id in ids;
      assert forall id :: id in before ==> before[id].id == id;
      var all := jobs.ListJobs();
      ListingIsValues(all, ids, before);
      candidates := [];
      for i := 0 to |all|
        invariant Valid() && jobs.ids == ids && jobs.jobs.Keys == before.Keys
        invariant RescoredUpTo(now, before, jobs.jobs, ids, i)
        invariant candidates == RescoredEligible(now, all[..i])
      {
        candidates := RescoreAt(now, before, ids, all, i, candidates);
      }
      CandidatesAreStored(now, before, ids, all, jobs.jobs, candidates);
      TakeAll(all);
    }

    /** `_pick_next_job`: `None` when nothing is QUEUED or HELD, otherwise
        an eligible job whose fresh score no other eligible job beats. */
    method PickNextJob(now: int) returns (r: Option<Job>)
      requires Valid()
      modifies jobs
      ensures Valid()
      ensures jobs.ids == old(jobs.ids) && jobs.jobs.Keys == old(jobs.jobs).Keys
      ensures forall id :: id in old(jobs.jobs) ==> jobs.jobs[id] == Rescored(now, old(jobs.jobs)[id])
      ensures r.None? <==> forall id :: id in old(jobs.jobs) ==> !Eligible(old(jobs.jobs)[id])
      ensures r.Some? ==> r.value.id in jobs.jobs && jobs.jobs[r.value.id] == r.value && Eligible(r.value)
      ensures r.Some? ==> r.value.priorityScore == Priority(r.value, now)
      ensures r.Some? ==> forall id :: id in jobs.jobs && Eligible(jobs.jobs[id]) ==>
                            jobs.jobs[id].priorityScore <= r.value.priorityScore
      ensures r == Pick(now, Values(old(jobs.ids), old(jobs.jobs)))
    {
      var candidates := RescoreEligible(now);
      if candidates == [] {
        NoneEligible(now, old(jobs.jobs), jobs.jobs);
        return None;
      }
      var best := HighestScore(candidates);
      assert Eligible(old(jobs.jobs)[best.id]) by {
        assert jobs.jobs[best.id].status == old(jobs.jobs)[best.id].status;
      }
      r := Some(best);
    }

    /** `_find_available_gpu`. */
    method FindAvailableGpu(readings: seq<DeviceReading>, vramRequired: int) returns (r: Option<int>)
      ensures IsFirstFit(Listing(monitor.nvmlAvailable, readings), vramRequired, r)
    {
      var metrics := monitor.ListGpus(readings);
      r := FirstFitGpu(metrics, vramRequired);
    }

    /** `_launch_job` after a device has been chosen. */
    method StartOnGpu(job: Job, gpu: int, parentEnv: map<string, string>, spawned: Option<int>)
      returns (outcome: LaunchOutcome)
      requires Valid() && job.id in jobs.jobs && jobs.jobs[job.id] == job
      modifies layout.fs, jobs, runner
      ensures Valid()
      ensures !outcome.NoGpu? && outcome.gpu == gpu
      ensures jobs.ids == old(jobs.ids) && jobs.jobs.Keys == old(jobs.jobs).Keys
      ensures forall id :: id in jobs.jobs && id != job.id ==> jobs.jobs[id] == old(jobs.jobs)[id]
      ensures outcome.RenameFailed? ==> && jobs.jobs == old(jobs.jobs) && outcome.error == FileNotFound(job.scriptPath)
                                        && layout.fs.dirs == WithDir(old(layout.fs.dirs), layout.running)
                                        && runner.logs == old(runner.logs)
      ensures outcome.SpawnFailed? || outcome.Launched? ==>
                var before := WithDir(old(layout.fs.dirs), layout.running);
                && outcome.scriptPath.dir == layout.running
                && job.scriptPath.dir in before && job.scriptPath.name in before[job.scriptPath.dir]
                && outcome.scriptPath.name !in before[layout.running]
                && layout.fs.dirs == Moved(before, job.scriptPath, outcome.scriptPath)
                && runner.logs == old(runner.logs)[LogPath(runner.logsDir, job.id) := ""]
      ensures outcome.SpawnFailed? ==> && spawned.None?
                                       && jobs.jobs == old(jobs.jobs)[job.id := job.(scriptPath := outcome.scriptPath,
                                            status := JobStatus.Running, assignedGpu := Some(gpu))]
      ensures outcome.Launched? ==> && spawned.Some? && outcome.proc.pid == spawned.value
                                    && outcome.proc.argv == Command(outcome.scriptPath)
                                    && outcome.proc.logPath == LogPath(runner.logsDir, job.id)
                                    && outcome.proc.env == parentEnv["CUDA_DEVICE_ORDER" := "PCI_BUS_ID"]
                                                                    ["CUDA_VISIBLE_DEVICES" := IntToString(gpu)]
                                    && jobs.jobs == old(jobs.jobs)[job.id := job.(scriptPath := outcome.scriptPath,
                                         status := JobStatus.Running, assignedGpu := Some(gpu), pid := Some(spawned.value))]
    {
      var renamed, k := layout.SafeRename(job.scriptPath, layout.running, None);
      if renamed.Failure? {
        return RenameFailed(gpu, renamed.error);
      }
      var newPath := renamed.value;
      ghost var before := WithDir(old(layout.fs.dirs), layout.running);
      assert newPath.name !in before[layout.running];
      ghost var dirs := layout.fs.dirs;
      // The job object is shared with the store.
      var runningJob := job.(scriptPath := newPath, status := JobStatus.Running, assignedGpu := Some(gpu));
      Store(runningJob);
      var proc := runner.StartProcess(newPath, job.id, Some(gpu), parentEnv, spawned);
      assert layout.fs.dirs == dirs;
      if proc.None? {
        return SpawnFailed(gpu, newPath);
      }
      var launchedJob := runningJob.(pid := Some(proc.value.pid));
      Store(launchedJob);
      OverwriteTwice(old(jobs.jobs), job.id, runningJob, launchedJob);
      outcome := Launched(gpu, newPath, proc.value);
    }

    /** Writes back a job already in the store under its own id. */
    method Store(job: Job)
      requires Valid() && job.id in jobs.jobs
      modifies jobs
      ensures Valid()
      ensures jobs.ids == old(jobs.ids) && jobs.jobs == old(jobs.jobs)[job.id := job]
      ensures jobs.jobs.Keys == old(jobs.jobs).Keys
      ensures forall id :: id in jobs.jobs && id != job.id ==> jobs.jobs[id] == old(jobs.jobs)[id]
    {
      jobs.UpdateJob(job.id, job);
    }

    /** `_launch_job`: nothing changes when no device fits. */
    method LaunchJob(job: Job, readings: seq<DeviceReading>, parentEnv: map<string, string>, spawned: Option<int>)
      returns (outcome: LaunchOutcome)
      requires Valid() && job.id in jobs.jobs && jobs.jobs[job.id] == job
      modifies layout.fs, jobs, runner
      ensures Valid()
      ensures IsFirstFit(Listing(monitor.nvmlAvailable, readings), job.vramRequired, outcome.Gpu())
      ensures jobs.ids == old(jobs.ids) && jobs.jobs.Keys == old(jobs.jobs).Keys
      ensures forall id :: id in old(jobs.jobs) && id != job.id ==> jobs.jobs[id] == old(jobs.jobs)[id]
      ensures outcome.NoGpu? ==> jobs.jobs == old(jobs.jobs) && layout.fs.dirs == old(layout.fs.dirs)
                                 && runner.logs == old(runner.logs)
      ensures outcome.RenameFailed? ==> jobs.jobs == old(jobs.jobs)
      ensures outcome.SpawnFailed? || outcome.Launched? ==>
                && outcome.scriptPath.dir == layout.running
                && jobs.jobs[job.id].status.Running? && jobs.jobs[job.id].assignedGpu == Some(outcome.gpu)
                && forall id :: id in old(jobs.jobs) && id != job.id ==> jobs.jobs[id] == old(jobs.jobs)[id]
      ensures outcome.Launched? ==> jobs.jobs[job.id].pid == Some(outcome.proc.pid)
    {
      var gpu := FindAvailableGpu(readings, job.vramRequired);
      if gpu.None? {
        return NoGpu;
      }
      outcome := StartOnGpu(job, gpu.value, parentEnv, spawned);
    }

    /** `waiter` once the process has exited with `exitCode`: the script
        leaves `running/` for `complete/` (code 0) or `fail/`, and the job
        takes the matching status. */
    method Finish(job: Job, runningPath: Path, exitCode: int)
      returns (status: JobStatus, moved: Result<Path, FsError>)
      requires Valid()
      modifies layout.fs, jobs
      ensures Valid()
      ensures status == if exitCode == 0 then Completed else Failed
      ensures var dest := if exitCode == 0 then layout.complete else layout.fail;
              var before := WithDir(old(layout.fs.dirs), dest);
              && (moved.Success? <==> runningPath.dir in before && runningPath.name in before[runningPath.dir])
              && (moved.Failure? ==> && layout.fs.dirs == before && jobs.jobs == old(jobs.jobs) && jobs.ids == old(jobs.ids))
              && (moved.Success? ==> && moved.value.dir == dest
                                     && moved.value.name !in before[dest]
                                     && layout.fs.dirs == Moved(before, runningPath, moved.value)
                                     && jobs.jobs == old(jobs.jobs)[job.id := job.(status := status)])
    {
      ghost var k;
      if exitCode == 0 {
        moved, k := layout.SafeRename(runningPath, layout.complete, None);
        status := Completed;
      } else {
        moved, k := layout.SafeRename(runningPath, layout.fail, None);
        status := Failed;
      }
      ghost var dest := if exitCode == 0 then layout.complete else layout.fail;
      assert moved.Success? ==> moved.value.name !in WithDir(old(layout.fs.dirs), dest)[dest];
      if moved.Failure? {
        return;
      }
      ghost var dirs := layout.fs.dirs;
      jobs.UpdateJob(job.id, job.(status := status));
      assert layout.fs.dirs == dirs;
    }

    /** One iteration of `run_forever`: pick, then try to launch. */
    method Tick(readings: seq<DeviceReading>, now: int, parentEnv: map<string, string>, spawned: Option<int>)
      returns (picked: Option<Job>, outcome: Option<LaunchOutcome>)
      requires Valid()
      modifies layout.fs, jobs, runner
      ensures Valid()
      ensures jobs.jobs.Keys == old(jobs.jobs).Keys
      ensures picked.None? <==> forall id :: id in old(jobs.jobs) ==> !Eligible(old(jobs.jobs)[id])
      ensures picked.None? <==> outcome.None?
      ensures picked == Pick(now, Values(old(jobs.ids), old(jobs.jobs)))
      ensures forall id :: id in jobs.jobs && (picked.None? || id != picked.value.id) ==>
                jobs.jobs[id] == Rescored(now, old(jobs.jobs)[id])
    {
      picked := PickNextJob(now);
      if picked.None? {
        return picked, None;
      }
      var o := LaunchJob(picked.value, readings, parentEnv, spawned);
      outcome := Some(o);
    }
  }
}
