/** The SLURM-style scheduler (scheduler.py): jobs wait QUEUED in an
    in-memory store, each loop iteration rescores every QUEUED job with a
    weighted multi-factor priority, takes the best one and, if a device
    fits it, moves its script to `running/` and starts it; when the
    process exits, the user's usage is charged and the job ends COMPLETED
    or FAILED. Time is whole seconds passed in as `now`. */
module Scheduler {
  import opened Wrappers
  import opened Text
  import opened Sorting
  import opened Dirs
  import opened GpuMonitor
  import opened ProcessRunner
  import opened JobStores

  datatype JobStatus = Queued | Running | Completed | Failed

  datatype Job = Job(
    id: string,
    scriptPath: Path,
    userId: string,
    vramRequired: int,
    createdAt: int,
    partition: string,
    qos: string,
    status: JobStatus,
    assignedGpu: Option<int>,
    pid: Option<int>,
    priorityScore: real)

  /** Weights, fair-share normaliser and the partition and QoS tables. */
  datatype SlurmConfig = SlurmConfig(
    weightAge: real,
    weightFairshare: real,
    weightJobSize: real,
    weightPartition: real,
    weightQos: real,
    fairshareDecayNorm: real,
    partitions: map<string, real>,
    qosLevels: map<string, real>)

  /** `SlurmConfig()`, the only configuration the scheduler builds. */
  const DefaultConfig: SlurmConfig := SlurmConfig(
    1000.0, 10000.0, 500.0, 1000.0, 1000.0,
    36000.0,
    map["debug" := 1.0, "normal" := 0.5, "batch" := 0.1],
    map["admin" := 1.0, "premium" := 0.8, "standard" := 0.5, "guest" := 0.1])

  /** One week, the wait at which the age factor saturates. */
  const MaxAgeSec: real := 604800.0
  /** 80 GiB, the request at which the size factor saturates. */
  const MaxVramRef: real := 85899345920.0
  /** Factor for a partition or QoS name missing from its table. */
  const UnknownFactor: real := 0.5

  function Min(a: real, b: real): real {
    if a <= b then a else b
  }

  /** `min(wait / max_age_sec, 1.0)`. */
  function AgeFactor(wait: real): (f: real)
    ensures f <= 1.0
    ensures wait >= 0.0 ==> 0.0 <= f
    ensures wait >= MaxAgeSec ==> f == 1.0
  {
    Min(wait / MaxAgeSec, 1.0)
  }

  /** `1 / (1 + usage / norm)`; Python raises where the denominator is 0. */
  function FairShareFactor(usage: real, norm: real): (f: real)
    requires norm != 0.0 && 1.0 + usage / norm != 0.0
    ensures norm > 0.0 && usage >= 0.0 ==> 0.0 < f <= 1.0
    ensures usage == 0.0 ==> f == 1.0
  {
    1.0 / (1.0 + usage / norm)
  }

  /** `min(vram_required / max_vram_ref, 1.0)`. */
  function SizeFactor(vramRequired: int): (f: real)
    ensures f <= 1.0
    ensures vramRequired >= 0 ==> 0.0 <= f
    ensures vramRequired as real >= MaxVramRef ==> f == 1.0
  {
    Min(vramRequired as real / MaxVramRef, 1.0)
  }

  /** `table.get(name, 0.5)`. */
  function TableFactor(table: map<string, real>, name: string): (f: real)
    ensures name in table ==> f == table[name]
    ensures name !in table ==> f == UnknownFactor
  {
    if name in table then table[name] else UnknownFactor
  }

  /** `_calculate_slurm_priority`: the weighted sum of the five factors for
      a job that has waited `now - createdAt` seconds and whose user has
      used `usage` GPU-seconds. */
  function SlurmPriority(cfg: SlurmConfig, job: Job, usage: real, now: int): real
    requires cfg.fairshareDecayNorm != 0.0 && 1.0 + usage / cfg.fairshareDecayNorm != 0.0
  {
    WeightedSum(cfg, AgeFactor((now - job.createdAt) as real), FairShareFactor(usage, cfg.fairshareDecayNorm),
                SizeFactor(job.vramRequired), TableFactor(cfg.partitions, job.partition),
                TableFactor(cfg.qosLevels, job.qos))
  }

  /** The configured weights applied to the factors for age, fair share,
      size, partition and QoS, in that order. */
  function WeightedSum(cfg: SlurmConfig, age: real, fairshare: real, size: real, partition: real, qos: real): real {
    cfg.weightAge * age + cfg.weightFairshare * fairshare + cfg.weightJobSize * size
    + cfg.weightPartition * partition + cfg.weightQos * qos
  }

  /** With non-negative weights, raising any factor never lowers the sum. */
  lemma WeightedSumMonotone(cfg: SlurmConfig, a1: real, f1: real, s1: real, p1: real, q1: real,
                            a2: real, f2: real, s2: real, p2: real, q2: real)
    requires WellFormed(cfg)
    requires a1 <= a2 && f1 <= f2 && s1 <= s2 && p1 <= p2 && q1 <= q2
    ensures WeightedSum(cfg, a1, f1, s1, p1, q1) <= WeightedSum(cfg, a2, f2, s2, p2, q2)
  {
    var x1, x2, x3, x4, x5 := cfg.weightAge * a1, cfg.weightFairshare * f1, cfg.weightJobSize * s1,
                              cfg.weightPartition * p1, cfg.weightQos * q1;
    var y1, y2, y3, y4, y5 := cfg.weightAge * a2, cfg.weightFairshare * f2, cfg.weightJobSize * s2,
                              cfg.weightPartition * p2, cfg.weightQos * q2;
    ScaleMonotone(cfg.weightAge, a1, a2);
    ScaleMonotone(cfg.weightFairshare, f1, f2);
    ScaleMonotone(cfg.weightJobSize, s1, s2);
    ScaleMonotone(cfg.weightPartition, p1, p2);
    ScaleMonotone(cfg.weightQos, q1, q2);
    assert WeightedSum(cfg, a1, f1, s1, p1, q1) == x1 + x2 + x3 + x4 + x5;
    assert WeightedSum(cfg, a2, f2, s2, p2, q2) == y1 + y2 + y3 + y4 + y5;
  }

  /** Non-negative weights (fair-share strictly positive), a positive
      normaliser, and table factors between 0 and 1. */
  ghost predicate WellFormed(cfg: SlurmConfig) {
    && cfg.weightAge >= 0.0 && cfg.weightFairshare > 0.0 && cfg.weightJobSize >= 0.0
    && cfg.weightPartition >= 0.0 && cfg.weightQos >= 0.0
    && cfg.fairshareDecayNorm > 0.0
    && (forall p :: p in cfg.partitions ==> 0.0 <= cfg.partitions[p] <= 1.0)
    && (forall q :: q in cfg.qosLevels ==> 0.0 <= cfg.qosLevels[q] <= 1.0)
  }

  function TotalWeight(cfg: SlurmConfig): real {
    cfg.weightAge + cfg.weightFairshare + cfg.weightJobSize + cfg.weightPartition + cfg.weightQos
  }

  /** The default configuration is well formed and its weights sum to 13500. */
  lemma DefaultConfigWellFormed()
    ensures WellFormed(DefaultConfig) && TotalWeight(DefaultConfig) == 13500.0
  {
  }

  /** `w * f` for a weight `w` and a factor `f` between 0 and 1. */
  function ScaledFactor(w: real, f: real): (t: real)
    requires w >= 0.0 && 0.0 <= f <= 1.0
    ensures t == w * f && 0.0 <= t <= w
  {
    w * f
  }

  /** With non-negative wait, usage and request the priority is strictly
      positive and at most the sum of the weights (13500 by default). */
  lemma PriorityBounds(cfg: SlurmConfig, job: Job, usage: real, now: int)
    requires WellFormed(cfg) && usage >= 0.0 && now >= job.createdAt && job.vramRequired >= 0
    ensures 0.0 < SlurmPriority(cfg, job, usage, now) <= TotalWeight(cfg)
  {
    var age := AgeFactor((now - job.createdAt) as real);
    var fs := FairShareFactor(usage, cfg.fairshareDecayNorm);
    var size := SizeFactor(job.vramRequired);
    var part := TableFactor(cfg.partitions, job.partition);
    var qos := TableFactor(cfg.qosLevels, job.qos);
    WeightedSumBounds(cfg, age, fs, size, part, qos);
  }

  lemma WeightedSumBounds(cfg: SlurmConfig, f1: real, f2: real, f3: real, f4: real, f5: real)
    requires WellFormed(cfg)
    requires 0.0 <= f1 <= 1.0 && 0.0 < f2 <= 1.0 && 0.0 <= f3 <= 1.0 && 0.0 <= f4 <= 1.0 && 0.0 <= f5 <= 1.0
    ensures 0.0 < WeightedSum(cfg, f1, f2, f3, f4, f5) <= TotalWeight(cfg)
  {
    var t1 := ScaledFactor(cfg.weightAge, f1);
    var t2 := ScaledFactor(cfg.weightFairshare, f2);
    var t3 := ScaledFactor(cfg.weightJobSize, f3);
    var t4 := ScaledFactor(cfg.weightPartition, f4);
    var t5 := ScaledFactor(cfg.weightQos, f5);
    PositiveProduct(cfg.weightFairshare, f2);
    assert WeightedSum(cfg, f1, f2, f3, f4, f5) == t1 + t2 + t3 + t4 + t5;
  }

  lemma PositiveProduct(w: real, f: real)
    requires w > 0.0 && f > 0.0
    ensures w * f > 0.0
  {
  }

  /** The age factor never decreases as the wait grows. */
  lemma AgeFactorMonotone(w1: real, w2: real)
    requires w1 <= w2
    ensures AgeFactor(w1) <= AgeFactor(w2)
  {
  }

  lemma ReciprocalAntitone(a: real, b: real)
    requires 0.0 < a <= b
    ensures 1.0 / b <= 1.0 / a
  {
    assert 1.0 / b * b == 1.0;
    assert 1.0 / a * a == 1.0;
  }

  /** The fair-share factor never increases as usage grows. */
  lemma FairShareAntitone(u1: real, u2: real, norm: real)
    requires norm > 0.0 && 0.0 <= u1 <= u2
    ensures FairShareFactor(u2, norm) <= FairShareFactor(u1, norm)
  {
    assert u1 / norm <= u2 / norm by {
      assert u2 / norm - u1 / norm == (u2 - u1) / norm;
    }
    ReciprocalAntitone(1.0 + u1 / norm, 1.0 + u2 / norm);
  }

  /** Waiting longer never lowers the priority. */
  lemma PriorityMonotoneInWait(cfg: SlurmConfig, job: Job, usage: real, now1: int, now2: int)
    requires WellFormed(cfg) && usage >= 0.0 && now1 <= now2
    ensures SlurmPriority(cfg, job, usage, now1) <= SlurmPriority(cfg, job, usage, now2)
  {
    var a1 := AgeFactor((now1 - job.createdAt) as real);
    var a2 := AgeFactor((now2 - job.createdAt) as real);
    var f := FairShareFactor(usage, cfg.fairshareDecayNorm);
    var sz := SizeFactor(job.vramRequired);
    var p := TableFactor(cfg.partitions, job.partition);
    var q := TableFactor(cfg.qosLevels, job.qos);
    AgeFactorMonotone((now1 - job.createdAt) as real, (now2 - job.createdAt) as real);
    WeightedSumMonotone(cfg, a1, f, sz, p, q, a2, f, sz, p, q);
  }

  /** Using more never raises the priority. */
  lemma PriorityAntitoneInUsage(cfg: SlurmConfig, job: Job, u1: real, u2: real, now: int)
    requires WellFormed(cfg) && 0.0 <= u1 <= u2
    ensures SlurmPriority(cfg, job, u2, now) <= SlurmPriority(cfg, job, u1, now)
  {
    var a := AgeFactor((now - job.createdAt) as real);
    var f1 := FairShareFactor(u1, cfg.fairshareDecayNorm);
    var f2 := FairShareFactor(u2, cfg.fairshareDecayNorm);
    var sz := SizeFactor(job.vramRequired);
    var p := TableFactor(cfg.partitions, job.partition);
    var q := TableFactor(cfg.qosLevels, job.qos);
    FairShareAntitone(u1, u2, cfg.fairshareDecayNorm);
    WeightedSumMonotone(cfg, a, f2, sz, p, q, a, f1, sz, p, q);
  }

  /** Scaling by a non-negative weight keeps the order of two factors. */
  lemma ScaleMonotone(w: real, a: real, b: real)
    requires w >= 0.0 && a <= b
    ensures w * a <= w * b
  {
    assert w * b - w * a == w * (b - a);
    PositiveOrZeroProduct(w, b - a);
  }

  /** Under the default tables an unknown partition scores as "normal" and
      an unknown QoS as "standard": a missing name is not an error. */
  lemma UnknownNamesScoreAsDefaults(job: Job, usage: real, now: int)
    requires usage >= 0.0
    requires job.partition !in DefaultConfig.partitions && job.qos !in DefaultConfig.qosLevels
    ensures SlurmPriority(DefaultConfig, job, usage, now)
         == SlurmPriority(DefaultConfig, job.(partition := "normal", qos := "standard"), usage, now)
  {
  }

  /** `_usage.get(user, 0.0)`. */
  function UsageOf(usage: map<string, real>, user: string): (u: real)
    ensures user in usage ==> u == usage[user]
    ensures user !in usage ==> u == 0.0
    ensures NonNegative(usage) ==> u >= 0.0
  {
    if user in usage then usage[user] else 0.0
  }

  ghost predicate NonNegative(usage: map<string, real>) {
    forall u :: u in usage ==> usage[u] >= 0.0
  }

  /** GPU-seconds charged per user (`UserUsageTracker`). */
  class UsageTracker {
    var usage: map<string, real>

    constructor ()
      ensures usage == map[]
    {
      usage := map[];
    }

    /** `add_usage`: only `user`'s entry changes, growing by
        `durationSec * gpuCount` from its previous value or 0. */
    method AddUsage(user: string, durationSec: real, gpuCount: int)
      requires NonNegative(usage) && durationSec >= 0.0 && gpuCount >= 0
      modifies this
      ensures NonNegative(usage)
      ensures usage == old(usage)[user := UsageOf(old(usage), user) + durationSec * gpuCount as real]
      ensures usage[user] >= UsageOf(old(usage), user)
    {
      var current := if user in usage then usage[user] else 0.0;
      assert 0.0 <= durationSec * gpuCount as real by {
        PositiveOrZeroProduct(durationSec, gpuCount as real);
      }
      usage := usage[user := current + durationSec * gpuCount as real];
    }

    /** `get_usage`. */
    method GetUsage(user: string) returns (u: real)
      ensures u == UsageOf(usage, user)
    {
      u := if user in usage then usage[user] else 0.0;
    }
  }

  lemma PositiveOrZeroProduct(a: real, b: real)
    requires a >= 0.0 && b >= 0.0
    ensures a * b >= 0.0
  {
  }

  /** The job after a rescoring pass: a QUEUED job carries its fresh
      priority, any other job is left as it was. */
  function Rescored(cfg: SlurmConfig, usage: map<string, real>, now: int, j: Job): Job
    requires WellFormed(cfg) && NonNegative(usage)
  {
    if j.status == Queued then j.(priorityScore := SlurmPriority(cfg, j, UsageOf(usage, j.userId), now)) else j
  }

  /** The QUEUED jobs of `js`, rescored, in order. */
  ghost function RescoredQueued(cfg: SlurmConfig, usage: map<string, real>, now: int, js: seq<Job>): seq<Job>
    requires WellFormed(cfg) && NonNegative(usage)
  {
    if js == [] then []
    else
      var last := js[|js| - 1];
      RescoredQueued(cfg, usage, now, js[..|js| - 1]) + (if last.status == Queued then [Rescored(cfg, usage, now, last)] else [])
  }

  lemma RescoredQueuedStep(cfg: SlurmConfig, usage: map<string, real>, now: int, js: seq<Job>, i: nat)
    requires WellFormed(cfg) && NonNegative(usage) && i < |js|
    ensures RescoredQueued(cfg, usage, now, js[..i + 1])
         == RescoredQueued(cfg, usage, now, js[..i]) + (if js[i].status == Queued then [Rescored(cfg, usage, now, js[i])] else [])
  {
    PrefixOfPrefix(js, i + 1, i);
  }

  /** Every collected candidate is the rescoring of a QUEUED job of `js`;
      returns its position. */
  lemma {:induction false} RescoredQueuedFrom(cfg: SlurmConfig, usage: map<string, real>, now: int, js: seq<Job>, c: Job)
      returns (p: nat)
    requires WellFormed(cfg) && NonNegative(usage)
    requires c in RescoredQueued(cfg, usage, now, js)
    ensures p < |js| && js[p].status == Queued && c == Rescored(cfg, usage, now, js[p])
  {
    var last := js[|js| - 1];
    if c in RescoredQueued(cfg, usage, now, js[..|js| - 1]) {
      p := RescoredQueuedFrom(cfg, usage, now, js[..|js| - 1], c);
    } else {
      p := |js| - 1;
    }
  }

  /** Every QUEUED job of `js` is collected, rescored. */
  lemma {:induction false} RescoredQueuedHas(cfg: SlurmConfig, usage: map<string, real>, now: int, js: seq<Job>, p: nat)
    requires WellFormed(cfg) && NonNegative(usage)
    requires p < |js| && js[p].status == Queued
    ensures Rescored(cfg, usage, now, js[p]) in RescoredQueued(cfg, usage, now, js)
  {
    if p < |js| - 1 {
      RescoredQueuedHas(cfg, usage, now, js[..|js| - 1], p);
    }
  }

  /** Midway through the rescoring loop: the entries of the first `i` ids
      are rescored, the others are as they were. */
  ghost predicate RescoredUpTo(cfg: SlurmConfig, usage: map<string, real>, now: int, before: map<string, Job>,
                               m: map<string, Job>, ids: seq<string>, i: nat)
    requires WellFormed(cfg) && NonNegative(usage)
  {
    i <= |ids|
    && (forall p :: 0 <= p < |ids| ==> ids[p] in before && ids[p] in m)
    && (forall p :: 0 <= p < i ==> m[ids[p]] == Rescored(cfg, usage, now, before[ids[p]]))
    && (forall p :: i <= p < |ids| ==> m[ids[p]] == before[ids[p]])
  }

  /** One loop step: writing the rescored entry of the `i`-th id (which
      for a job that is not QUEUED is the entry itself) moves the midpoint
      on. */
  lemma RescoredUpToStep(cfg: SlurmConfig, usage: map<string, real>, now: int, before: map<string, Job>,
                         m: map<string, Job>, m': map<string, Job>, ids: seq<string>, i: nat)
    requires WellFormed(cfg) && NonNegative(usage)
    requires RescoredUpTo(cfg, usage, now, before, m, ids, i) && i < |ids|
    requires forall p, q :: 0 <= p < q < |ids| ==> ids[p] != ids[q]
    requires m'.Keys == m.Keys && m'[ids[i]] == Rescored(cfg, usage, now, before[ids[i]])
    requires forall id :: id in m && id != ids[i] ==> m'[id] == m[id]
    ensures RescoredUpTo(cfg, usage, now, before, m', ids, i + 1)
  {
  }

  /** What the rescoring pass leaves: every entry rescored, and the
      candidates are exactly the QUEUED entries, each as stored. */
  ghost predicate RescoredStore(cfg: SlurmConfig, usage: map<string, real>, now: int, before: map<string, Job>,
                                after: map<string, Job>, candidates: seq<Job>)
    requires WellFormed(cfg) && NonNegative(usage)
  {
    after.Keys == before.Keys
    && (forall id :: id in before ==> after[id] == Rescored(cfg, usage, now, before[id]))
    && (forall c :: c in candidates ==> c.status == Queued && c.id in after && after[c.id] == c)
    && (forall id :: id in after && after[id].status == Queued ==> after[id] in candidates)
  }

  /** After the rescoring loop: the candidates are exactly the QUEUED
      entries of the store, each as stored. */
  lemma CandidatesAreStored(cfg: SlurmConfig, usage: map<string, real>, now: int, before: map<string, Job>,
                            ids: seq<string>, all: seq<Job>, after: map<string, Job>, candidates: seq<Job>)
    requires WellFormed(cfg) && NonNegative(usage)
    requires forall id :: id in before <==> id in ids
    requires forall id :: id in before ==> before[id].id == id
    requires |all| == |ids| && forall p :: 0 <= p < |ids| ==> all[p] == before[ids[p]]
    requires after.Keys == before.Keys
    requires RescoredUpTo(cfg, usage, now, before, after, ids, |ids|)
    requires candidates == RescoredQueued(cfg, usage, now, all[..|all|])
    ensures RescoredStore(cfg, usage, now, before, after, candidates)
  {
    TakeAll(all);
    forall id | id in before
      ensures after[id] == Rescored(cfg, usage, now, before[id])
    {
      var p :| 0 <= p < |ids| && ids[p] == id;
    }
    forall c | c in candidates
      ensures c.status == Queued && c.id in after && after[c.id] == c
    {
      var p := RescoredQueuedFrom(cfg, usage, now, all, c);
    }
    forall id | id in after && after[id].status == Queued
      ensures after[id] in candidates
    {
      var p :| 0 <= p < |ids| && ids[p] == id;
      RescoredQueuedHas(cfg, usage, now, all, p);
    }
  }

  function ScoreAtLeast(a: Job, b: Job): bool {
    a.priorityScore >= b.priorityScore
  }

  lemma ScoreOrderIsTotal()
    ensures TotalPreorder(ScoreAtLeast)
  {
  }

  /** `candidates.sort(key=priority_score, reverse=True)[0]`: a candidate
      whose score no other candidate exceeds. */
  function HighestScore(candidates: seq<Job>): (best: Job)
    requires candidates != []
    ensures best in candidates
    ensures forall c :: c in candidates ==> c.priorityScore <= best.priorityScore
  {
    ScoreOrderIsTotal();
    var sorted := SortDesc(candidates, ScoreAtLeast);
    assert sorted[0] in multiset(candidates) by {
      assert sorted[0] in multiset(sorted);
    }
    assert forall c :: c in candidates ==> c.priorityScore <= sorted[0].priorityScore by {
      forall c | c in candidates
        ensures c.priorityScore <= sorted[0].priorityScore
      {
        assert c in multiset(sorted) by {
          assert c in multiset(candidates);
        }
        var q :| 0 <= q < |sorted| && sorted[q] == c;
        if q > 0 {
          assert ScoreAtLeast(sorted[0], sorted[q]);
        }
      }
    }
    sorted[0]
  }

  /** The sort is stable, so the job picked is the earliest candidate of
      the highest score: every candidate before it scores strictly lower. */
  lemma HighestScoreIsFirst(candidates: seq<Job>)
    requires candidates != []
    ensures exists k :: 0 <= k < |candidates| && candidates[k] == HighestScore(candidates)
              && forall j :: 0 <= j < k ==> candidates[j].priorityScore < HighestScore(candidates).priorityScore
  {
    ScoreOrderIsTotal();
    SortDescHeadFirst(candidates, ScoreAtLeast);
  }


  /** The `k`-th candidate is the rescoring of the QUEUED job at some
      position `p` of `js`, and every QUEUED job listed before `p` is
      among the candidates before `k`. */
  lemma {:induction false} RescoredQueuedOrder(cfg: SlurmConfig, usage: map<string, real>, now: int, js: seq<Job>, k: nat)
      returns (p: nat)
    requires WellFormed(cfg) && NonNegative(usage)
    requires k < |RescoredQueued(cfg, usage, now, js)|
    ensures p < |js| && js[p].status == Queued && RescoredQueued(cfg, usage, now, js)[k] == Rescored(cfg, usage, now, js[p])
    ensures forall q :: 0 <= q < p && js[q].status == Queued ==>
              Rescored(cfg, usage, now, js[q]) in RescoredQueued(cfg, usage, now, js)[..k]
  {
    var init := js[..|js| - 1];
    var before := RescoredQueued(cfg, usage, now, init);
    var res := RescoredQueued(cfg, usage, now, js);
    assert res[..|before|] == before;
    if k < |before| {
      p := RescoredQueuedOrder(cfg, usage, now, init, k);
      assert res[..k] == before[..k];
    } else {
      p := |js| - 1;
      forall q | 0 <= q < p && js[q].status == Queued
        ensures Rescored(cfg, usage, now, js[q]) in res[..k]
      {
        assert init[q] == js[q];
        RescoredQueuedHas(cfg, usage, now, init, q);
      }
    }
  }

  /** A rescoring pass that found no candidate saw no QUEUED job. */
  lemma NoneQueued(cfg: SlurmConfig, usage: map<string, real>, now: int, before: map<string, Job>,
                   after: map<string, Job>)
    requires WellFormed(cfg) && NonNegative(usage)
    requires RescoredStore(cfg, usage, now, before, after, [])
    ensures forall id :: id in before ==> before[id].status != Queued
  {
    forall id | id in before
      ensures before[id].status != Queued
    {
      assert after[id].status == before[id].status;
    }
  }

  /** One loop iteration's store: rescoring, then a launch that touches
      only the picked job. Every other job is just rescored, and no other
      job starts running. */
  lemma OnlyPickedChanges(cfg: SlurmConfig, usage: map<string, real>, now: int, before: map<string, Job>,
                          mid: map<string, Job>, after: map<string, Job>, picked: string)
    requires WellFormed(cfg) && NonNegative(usage)
    requires mid.Keys == before.Keys && after.Keys == mid.Keys
    requires forall id :: id in before ==> mid[id] == Rescored(cfg, usage, now, before[id])
    requires forall id :: id in mid && id != picked ==> after[id] == mid[id]
    ensures forall id :: id in after && id != picked ==> after[id] == Rescored(cfg, usage, now, before[id])
    ensures forall id :: id in after && after[id].status.Running? && !before[id].status.Running? ==> id == picked
  {
  }

  /** The job `_pick_next_job` takes from the jobs listed in `js`. */
  ghost function Pick(cfg: SlurmConfig, usage: map<string, real>, now: int, js: seq<Job>): Option<Job>
    requires WellFormed(cfg) && NonNegative(usage)
  {
    var cands := RescoredQueued(cfg, usage, now, js);
    if cands == [] then None else Some(HighestScore(cands))
  }

  /** The job `_pick_next_job` takes is the rescoring of a QUEUED job
      that beats every QUEUED job listed before it and that no QUEUED job
      beats: ties go to the job submitted first. */
  lemma PickIsFirstHighest(cfg: SlurmConfig, usage: map<string, real>, now: int, js: seq<Job>)
    requires WellFormed(cfg) && NonNegative(usage)
    ensures Pick(cfg, usage, now, js).None? <==> forall q :: 0 <= q < |js| ==> js[q].status != Queued
    ensures Pick(cfg, usage, now, js).Some? ==>
              exists p :: 0 <= p < |js| && js[p].status == Queued
                && Pick(cfg, usage, now, js).value == Rescored(cfg, usage, now, js[p])
                && (forall q :: 0 <= q < p && js[q].status == Queued ==>
                      Rescored(cfg, usage, now, js[q]).priorityScore < Rescored(cfg, usage, now, js[p]).priorityScore)
                && (forall q :: 0 <= q < |js| && js[q].status == Queued ==>
                      Rescored(cfg, usage, now, js[q]).priorityScore <= Rescored(cfg, usage, now, js[p]).priorityScore)
  {
    var cands := RescoredQueued(cfg, usage, now, js);
    if cands == [] {
      forall q | 0 <= q < |js|
        ensures js[q].status != Queued
      {
        if js[q].status == Queued {
          RescoredQueuedHas(cfg, usage, now, js, q);
        }
      }
    } else {
      var best := HighestScore(cands);
      HighestScoreIsFirst(cands);
      var k :| 0 <= k < |cands| && cands[k] == best
               && forall j :: 0 <= j < k ==> cands[j].priorityScore < best.priorityScore;
      var p := RescoredQueuedOrder(cfg, usage, now, js, k);
      EarlierQueuedLower(cfg, usage, now, js, k, p, best);
      NoQueuedHigher(cfg, usage, now, js, best);
      assert Rescored(cfg, usage, now, js[p]) == best;
    }
  }

  /** QUEUED jobs listed before the source of the `k`-th candidate score
      below it when every candidate before `k` does. */
  lemma EarlierQueuedLower(cfg: SlurmConfig, usage: map<string, real>, now: int, js: seq<Job>, k: nat, p: nat,
                           best: Job)
    requires WellFormed(cfg) && NonNegative(usage)
    requires k < |RescoredQueued(cfg, usage, now, js)| && p < |js|
    requires forall j :: 0 <= j < k ==> RescoredQueued(cfg, usage, now, js)[j].priorityScore < best.priorityScore
    requires forall q :: 0 <= q < p && js[q].status == Queued ==>
               Rescored(cfg, usage, now, js[q]) in RescoredQueued(cfg, usage, now, js)[..k]
    ensures forall q :: 0 <= q < p && js[q].status == Queued ==>
              Rescored(cfg, usage, now, js[q]).priorityScore < best.priorityScore
  {
    forall q | 0 <= q < p && js[q].status == Queued
      ensures Rescored(cfg, usage, now, js[q]).priorityScore < best.priorityScore
    {
      var j := InPrefix(RescoredQueued(cfg, usage, now, js), k, Rescored(cfg, usage, now, js[q]));
    }
  }

  /** No QUEUED job's fresh score beats a score no candidate beats. */
  lemma NoQueuedHigher(cfg: SlurmConfig, usage: map<string, real>, now: int, js: seq<Job>, best: Job)
    requires WellFormed(cfg) && NonNegative(usage)
    requires forall c :: c in RescoredQueued(cfg, usage, now, js) ==> c.priorityScore <= best.priorityScore
    ensures forall q :: 0 <= q < |js| && js[q].status == Queued ==>
              Rescored(cfg, usage, now, js[q]).priorityScore <= best.priorityScore
  {
    forall q | 0 <= q < |js| && js[q].status == Queued
      ensures Rescored(cfg, usage, now, js[q]).priorityScore <= best.priorityScore
    {
      RescoredQueuedHas(cfg, usage, now, js, q);
    }
  }

  const VirtualGpuName: string := "virtual-gpu-0"

  /** The device test of `_find_available_gpu`: healthy, not the virtual
      device while a job runs, enough free memory, and under 1 GiB in use. */
  predicate Fits(m: GpuMetrics, vramRequired: int, anyRunning: bool) {
    && m.isHealthy
    && !(m.name == VirtualGpuName && anyRunning)
    && m.memoryTotal - m.memoryUsed >= vramRequired
    && m.memoryUsed < GiB
  }

  /** `r` is the id of the first device in list order that fits, or `None`
      when none does. */
  ghost predicate IsFirstFit(metrics: seq<GpuMetrics>, vramRequired: int, anyRunning: bool, r: Option<int>) {
    && (r.None? <==> forall i :: 0 <= i < |metrics| ==> !Fits(metrics[i], vramRequired, anyRunning))
    && (r.Some? ==> exists i :: && 0 <= i < |metrics| && metrics[i].gpuId == r.value
                              && Fits(metrics[i], vramRequired, anyRunning)
                              && forall k :: 0 <= k < i ==> !Fits(metrics[k], vramRequired, anyRunning))
  }

  /** The scan of `_find_available_gpu` over one sample of the devices. */
  method FirstFitGpu(metrics: seq<GpuMetrics>, vramRequired: int, anyRunning: bool) returns (r: Option<int>)
    ensures IsFirstFit(metrics, vramRequired, anyRunning, r)
  {
    for i := 0 to |metrics|
      invariant forall k :: 0 <= k < i ==> !Fits(metrics[k], vramRequired, anyRunning)
    {
      var m := metrics[i];
      if !m.isHealthy {
        continue;
      }
      if m.name == VirtualGpuName && anyRunning {
        continue;
      }
      var freeMem := m.memoryTotal - m.memoryUsed;
      if freeMem >= vramRequired && m.memoryUsed < GiB {
        assert Fits(metrics[i], vramRequired, anyRunning);
        return Some(m.gpuId);
      }
    }
    return None;
  }

  ghost predicate AnyRunning(jobs: map<string, Job>) {
    exists id :: id in jobs && jobs[id].status.Running?
  }

  /** What became of one `_launch_job` call. Python raises where the model
      reports `RenameFailed` (the script is missing) or `SpawnFailed`
      (`Popen` failed); in the latter case the job has already been marked
      RUNNING. */
  datatype LaunchOutcome =
    | NoGpu
    | RenameFailed(gpu: int, error: FsError)
    | SpawnFailed(gpu: int, scriptPath: Path)
    | Launched(gpu: int, scriptPath: Path, proc: Process, startTime: int)
  {
    function Gpu(): Option<int> {
      if NoGpu? then None else Some(gpu)
    }
  }

  class GpuScheduler {
    const layout: DirLayout
    const monitor: GpuMonitor
    const runner: ProcessRunner
    const jobs: JobStore<Job>
    const usageTracker: UsageTracker
    const config: SlurmConfig

    ghost predicate Valid()
      reads this, jobs, usageTracker
    {
      && jobs.Valid()
      && NonNegative(usageTracker.usage)
      && WellFormed(config)
      && (forall id :: id in jobs.jobs ==> jobs.jobs[id].id == id)
    }

    /** `GpuScheduler(root_dir)`; `resolvedRoot` is the resolved root and
        `fs` the file system it lives on. Creating the directories is left
        to the file system. */
    constructor (resolvedRoot: string, fs: FileSystem, nvmlImportOk: bool, nvmlInitOk: bool)
      ensures Valid()
      ensures layout.root == resolvedRoot && layout.fs == fs && runner.logsDir == layout.out
      ensures monitor.nvmlAvailable <==> nvmlImportOk && nvmlInitOk
      ensures jobs.ids == [] && jobs.jobs == map[] && usageTracker.usage == map[]
      ensures config == DefaultConfig
      ensures fresh(jobs) && fresh(usageTracker) && fresh(runner) && fresh(monitor)
    {
      var l := new DirLayout(resolvedRoot, fs);
      layout := l;
      monitor := new GpuMonitor(nvmlImportOk, nvmlInitOk);
      runner := new ProcessRunner(l.out);
      jobs := new JobStore();
      usageTracker := new UsageTracker();
      config := DefaultConfig;
      DefaultConfigWellFormed();
    }

    /** `submit_job`: moves the script into `to_run/` as `<jobId>.py` and
        stores a QUEUED job with no device, no pid and score 0. `jobId`
        stands for `uuid4()` and `now` for `time.time()`. */
    method SubmitJob(srcScript: Path, userId: string, vramRequired: int, partition: string, qos: string,
                     jobId: string, now: int)
      returns (r: Result<Job, FsError>)
      requires Valid()
      modifies layout.fs, jobs
      ensures Valid()
      ensures var before := WithDir(old(layout.fs.dirs), layout.toRun);
              r.Success? <==> srcScript.dir in before && srcScript.name in before[srcScript.dir]
      ensures r.Failure? ==> jobs.jobs == old(jobs.jobs) && jobs.ids == old(jobs.ids)
                             && layout.fs.dirs == WithDir(old(layout.fs.dirs), layout.toRun)
      ensures r.Success? ==> && r.value == Job(jobId, r.value.scriptPath, userId, vramRequired, now, partition, qos,
                                               Queued, None, None, 0.0)
                             && r.value.scriptPath.dir == layout.toRun
                             && jobs.jobs == old(jobs.jobs)[jobId := r.value]
      ensures r.Success? ==> var before := WithDir(old(layout.fs.dirs), layout.toRun);
              && (exists k :: IsFirstFree(before[layout.toRun], jobId + ".py", k)
                               && r.value.scriptPath.name == Candidate(jobId + ".py", k))
              && layout.fs.dirs == Moved(before, srcScript, r.value.scriptPath)
    {
      var dst, k := layout.SafeRename(srcScript, layout.toRun, Some(jobId + ".py"));
      if dst.Failure? {
        return Failure(dst.error);
      }
      var job := Job(jobId, dst.value, userId, vramRequired, now, partition, qos, Queued, None, None, 0.0);
      jobs.AddJob(jobId, job);
      r := Success(job);
    }

    /** The `i`-th job of the rescoring pass: a QUEUED job gets its fresh
        score written back and joins the candidates; any other job is left
        alone. */
    method RescoreAt(usage: map<string, real>, now: int, ghost before: map<string, Job>, ghost ids: seq<string>,
                     all: seq<Job>, i: nat, candidates: seq<Job>)
      returns (candidates': seq<Job>)
      requires Valid() && usage == usageTracker.usage
      requires jobs.ids == ids && jobs.jobs.Keys == before.Keys && i < |all|
      requires |all| == |ids| && forall p :: 0 <= p < |ids| ==> all[p] == before[ids[p]]
      requires forall id :: id in before ==> before[id].id == id
      requires RescoredUpTo(config, usage, now, before, jobs.jobs, ids, i)
      requires candidates == RescoredQueued(config, usage, now, all[..i])
      modifies jobs
      ensures Valid() && jobs.ids == ids && jobs.jobs.Keys == before.Keys
      ensures RescoredUpTo(config, usage, now, before, jobs.jobs, ids, i + 1)
      ensures candidates' == RescoredQueued(config, usage, now, all[..i + 1])
    {
      var j := all[i];
      RescoredQueuedStep(config, usage, now, all, i);
      ghost var m := jobs.jobs;
      assert j == before[ids[i]] && j.id == ids[i] && m[j.id] == j;
      candidates' := candidates;
      if j.status == Queued {
        var rescored := Rescored(config, usage, now, j);
        Store(rescored);
        candidates' := candidates + [rescored];
      }
      RescoredUpToStep(config, usage, now, before, m, jobs.jobs, ids, i);
    }

    /** The rescoring pass of `_pick_next_job`: writes a fresh priority into
        every QUEUED job (the store holds the very objects being rescored)
        and collects them in store order. */
    method RescoreQueued(now: int) returns (candidates: seq<Job>)
      requires Valid()
      modifies jobs
      ensures Valid()
      ensures jobs.ids == old(jobs.ids)
      ensures RescoredStore(config, usageTracker.usage, now, old(jobs.jobs), jobs.jobs, candidates)
      ensures candidates == RescoredQueued(config, usageTracker.usage, now, Values(old(jobs.ids), old(jobs.jobs)))
    {
      ghost var before := jobs.jobs;
      ghost var ids := jobs.ids;
      assert forall id :: id in before <==> id in ids;
      assert forall id :: id in before ==> before[id].id == id;
      var usage := usageTracker.usage;
      var all := jobs.ListJobs();
      ListingIsValues(all, ids, before);
      candidates := [];
      for i := 0 to |all|
        invariant Valid() && jobs.ids == ids && jobs.jobs.Keys == before.Keys
        invariant RescoredUpTo(config, usage, now, before, jobs.jobs, ids, i)
        invariant candidates == RescoredQueued(config, usage, now, all[..i])
      {
        candidates := RescoreAt(usage, now, before, ids, all, i, candidates);
      }
      CandidatesAreStored(config, usage, now, before, ids, all, jobs.jobs, candidates);
      TakeAll(all);
    }

    /** `_pick_next_job`: after rescoring, `None` when nothing is QUEUED,
        otherwise a QUEUED job whose fresh score no other QUEUED job beats. */
    method PickNextJob(now: int) returns (r: Option<Job>)
      requires Valid()
      modifies jobs
      ensures Valid()
      ensures jobs.ids == old(jobs.ids) && jobs.jobs.Keys == old(jobs.jobs).Keys
      ensures forall id :: id in old(jobs.jobs) ==>
                jobs.jobs[id] == Rescored(config, usageTracker.usage, now, old(jobs.jobs)[id])
      ensures r.None? <==> forall id :: id in old(jobs.jobs) ==> old(jobs.jobs)[id].status != Queued
      ensures r.Some? ==> r.value.id in jobs.jobs && jobs.jobs[r.value.id] == r.value && r.value.status == Queued
      ensures r.Some? ==> forall id :: id in jobs.jobs && jobs.jobs[id].status == Queued ==>
                            jobs.jobs[id].priorityScore <= r.value.priorityScore
      ensures r == Pick(config, usageTracker.usage, now, Values(old(jobs.ids), old(jobs.jobs)))
    {
      var candidates := RescoreQueued(now);
      if candidates == [] {
        NoneQueued(config, usageTracker.usage, now, old(jobs.jobs), jobs.jobs);
        return None;
      }
      var best := HighestScore(candidates);
      assert old(jobs.jobs)[best.id].status == Queued by {
        assert jobs.jobs[best.id].status == old(jobs.jobs)[best.id].status;
      }
      r := Some(best);
    }

    /** `_find_available_gpu`: samples the devices and takes the first one
        that fits, treating the virtual device as busy while any job is
        RUNNING. */
    method FindAvailableGpu(readings: seq<DeviceReading>, vramRequired: int) returns (r: Option<int>)
      requires jobs.Valid()
      ensures IsFirstFit(Listing(monitor.nvmlAvailable, readings), vramRequired, AnyRunning(jobs.jobs), r)
    {
      var metrics := monitor.ListGpus(readings);
      var all := jobs.ListJobs();
      var anyRunning := exists i | 0 <= i < |all| :: all[i].status.Running?;
      assert anyRunning <==> AnyRunning(jobs.jobs) by {
        if AnyRunning(jobs.jobs) {
          var id :| id in jobs.jobs && jobs.jobs[id].status.Running?;
          var p :| 0 <= p < |jobs.ids| && jobs.ids[p] == id;
          assert all[p].status.Running?;
        }
      }
      r := FirstFitGpu(metrics, vramRequired, anyRunning);
    }

    /** `_launch_job`: with no fitting device nothing happens; otherwise the
        script moves to `running/`, the job is marked RUNNING on that device,
        its process is started and its pid recorded. */
    method LaunchJob(job: Job, readings: seq<DeviceReading>, now: int, parentEnv: map<string, string>,
                     spawned: Option<int>)
      returns (outcome: LaunchOutcome)
      requires Valid() && job.id in jobs.jobs && jobs.jobs[job.id] == job
      modifies layout.fs, jobs, runner
      ensures Valid()
      ensures IsFirstFit(Listing(monitor.nvmlAvailable, readings), job.vramRequired, AnyRunning(old(jobs.jobs)), outcome.Gpu())
      ensures jobs.ids == old(jobs.ids) && jobs.jobs.Keys == old(jobs.jobs).Keys
      ensures forall id :: id in jobs.jobs && id != job.id ==> jobs.jobs[id] == old(jobs.jobs)[id]
      ensures outcome.NoGpu? ==> jobs.jobs == old(jobs.jobs) && layout.fs.dirs == old(layout.fs.dirs)
                                 && runner.logs == old(runner.logs)
      ensures outcome.RenameFailed? ==> && jobs.jobs == old(jobs.jobs) && outcome.error == FileNotFound(job.scriptPath)
                                        && layout.fs.dirs == WithDir(old(layout.fs.dirs), layout.running)
                                        && runner.logs == old(runner.logs)
      ensures outcome.SpawnFailed? || outcome.Launched? ==>
                var before := WithDir(old(layout.fs.dirs), layout.running);
                && outcome.scriptPath.dir == layout.running
                && job.scriptPath.dir in before && job.scriptPath.name in before[job.scriptPath.dir]
                && outcome.scriptPath.name !in before[layout.running]
                && layout.fs.dirs == Moved(before, job.scriptPath, outcome.scriptPath)
                && runner.logs == old(runner.logs)[LogPath(runner.logsDir, job.id) := ""]
      ensures outcome.SpawnFailed? ==> && spawned.None?
                                       && jobs.jobs == old(jobs.jobs)[job.id := job.(scriptPath := outcome.scriptPath,
                                            status := JobStatus.Running, assignedGpu := Some(outcome.gpu))]
      ensures outcome.Launched? ==> && spawned.Some? && outcome.startTime == now
                                    && outcome.proc.pid == spawned.value
                                    && outcome.proc.argv == Command(outcome.scriptPath)
                                    && outcome.proc.logPath == LogPath(runner.logsDir, job.id)
                                    && outcome.proc.env == parentEnv["CUDA_DEVICE_ORDER" := "PCI_BUS_ID"]
                                                                    ["CUDA_VISIBLE_DEVICES" := IntToString(outcome.gpu)]
                                    && jobs.jobs == old(jobs.jobs)[job.id := job.(scriptPath := outcome.scriptPath,
                                         status := JobStatus.Running, assignedGpu := Some(outcome.gpu), pid := Some(spawned.value))]
    {
      var gpu := FindAvailableGpu(readings, job.vramRequired);
      if gpu.None? {
        return NoGpu;
      }
      outcome := StartOnGpu(job, gpu.value, now, parentEnv, spawned);
    }

    /** The part of `_launch_job` after a device has been chosen. */
    method StartOnGpu(job: Job, gpu: int, now: int, parentEnv: map<string, string>, spawned: Option<int>)
      returns (outcome: LaunchOutcome)
      requires Valid() && job.id in jobs.jobs && jobs.jobs[job.id] == job
      modifies layout.fs, jobs, runner
      ensures Valid()
      ensures !outcome.NoGpu? && outcome.gpu == gpu
      ensures jobs.ids == old(jobs.ids) && jobs.jobs.Keys == old(jobs.jobs).Keys
      ensures forall id :: id in jobs.jobs && id != job.id ==> jobs.jobs[id] == old(jobs.jobs)[id]
      ensures outcome.RenameFailed? ==> && jobs.jobs == old(jobs.jobs) && outcome.error == FileNotFound(job.scriptPath)
                                        && layout.fs.dirs == WithDir(old(layout.fs.dirs), layout.running)
                                        && runner.logs == old(runner.logs)
      ensures outcome.SpawnFailed? || outcome.Launched? ==>
                var before := WithDir(old(layout.fs.dirs), layout.running);
                && outcome.scriptPath.dir == layout.running
                && job.scriptPath.dir in before && job.scriptPath.name in before[job.scriptPath.dir]
                && outcome.scriptPath.name !in before[layout.running]
                && layout.fs.dirs == Moved(before, job.scriptPath, outcome.scriptPath)
                && runner.logs == old(runner.logs)[LogPath(runner.logsDir, job.id) := ""]
      ensures outcome.SpawnFailed? ==> && spawned.None?
                                       && jobs.jobs == old(jobs.jobs)[job.id := job.(scriptPath := outcome.scriptPath,
                                            status := JobStatus.Running, assignedGpu := Some(outcome.gpu))]
      ensures outcome.Launched? ==> && spawned.Some? && outcome.startTime == now
                                    && outcome.proc.pid == spawned.value
                                    && outcome.proc.argv == Command(outcome.scriptPath)
                                    && outcome.proc.logPath == LogPath(runner.logsDir, job.id)
                                    && outcome.proc.env == parentEnv["CUDA_DEVICE_ORDER" := "PCI_BUS_ID"]
                                                                    ["CUDA_VISIBLE_DEVICES" := IntToString(outcome.gpu)]
                                    && jobs.jobs == old(jobs.jobs)[job.id := job.(scriptPath := outcome.scriptPath,
                                         status := JobStatus.Running, assignedGpu := Some(outcome.gpu), pid := Some(spawned.value))]
    {
      var startTime := now;
      var renamed, k := layout.SafeRename(job.scriptPath, layout.running, None);
      if renamed.Failure? {
        return RenameFailed(gpu, renamed.error);
      }
      var newPath := renamed.value;
      ghost var before := WithDir(old(layout.fs.dirs), layout.running);
      assert newPath.name !in before[layout.running];
      ghost var dirs := layout.fs.dirs;
      // The job object is shared with the store, so these writes are
      // visible there before `update_job` runs.
      var runningJob := job.(scriptPath := newPath, status := JobStatus.Running, assignedGpu := Some(gpu));
      Store(runningJob);
      var proc := runner.StartProcess(newPath, job.id, Some(gpu), parentEnv, spawned);
      assert layout.fs.dirs == dirs;
      if proc.None? {
        return SpawnFailed(gpu, newPath);
      }
      var launchedJob := runningJob.(pid := Some(proc.value.pid));
      Store(launchedJob);
      OverwriteTwice(old(jobs.jobs), job.id, runningJob, launchedJob);
      outcome := Launched(gpu, newPath, proc.value, startTime);
    }

    /** Writes back a job already in the store under its own id. */
    method Store(job: Job)
      requires Valid() && job.id in jobs.jobs
      modifies jobs
      ensures Valid()
      ensures jobs.ids == old(jobs.ids) && jobs.jobs == old(jobs.jobs)[job.id := job]
      ensures jobs.jobs.Keys == old(jobs.jobs).Keys
      ensures forall id :: id in jobs.jobs && id != job.id ==> jobs.jobs[id] == old(jobs.jobs)[id]
    {
      jobs.UpdateJob(job.id, job);
    }

    /** `_wait_and_finalize` once the process has exited with `exitCode` at
        time `now`: the user is charged the run's duration on one GPU, the
        script moves to `complete/` (code 0) or `fail/`, and the job takes
        the matching status. The job keeps its `running/` script path. */
    method Finalize(job: Job, exitCode: int, startTime: int, now: int)
      returns (status: JobStatus, moved: Result<Path, FsError>)
      requires Valid() && startTime <= now
      modifies usageTracker, layout.fs, jobs
      ensures Valid()
      ensures status == if exitCode == 0 then Completed else Failed
      ensures usageTracker.usage == old(usageTracker.usage)[job.userId :=
                UsageOf(old(usageTracker.usage), job.userId) + (now - startTime) as real]
      ensures var dest := if exitCode == 0 then layout.complete else layout.fail;
              var before := WithDir(old(layout.fs.dirs), dest);
              && (moved.Success? <==> job.scriptPath.dir in before && job.scriptPath.name in before[job.scriptPath.dir])
              && (moved.Failure? ==> && layout.fs.dirs == before && jobs.jobs == old(jobs.jobs) && jobs.ids == old(jobs.ids))
              && (moved.Success? ==> && moved.value.dir == dest
                                     && moved.value.name !in before[dest]
                                     && layout.fs.dirs == Moved(before, job.scriptPath, moved.value)
                                     && jobs.jobs == old(jobs.jobs)[job.id := job.(status := status)])
    {
      ChargeRun(job.userId, startTime, now);
      ghost var charged := usageTracker.usage;
      status, moved := MoveFinished(job, exitCode);
      if moved.Failure? {
        return;
      }
      ghost var dirs := layout.fs.dirs;
      jobs.UpdateJob(job.id, job.(status := status));
      assert layout.fs.dirs == dirs && usageTracker.usage == charged;
    }

    /** The usage charge of `_wait_and_finalize`: the run's duration on one GPU. */
    method ChargeRun(user: string, startTime: int, now: int)
      requires NonNegative(usageTracker.usage) && startTime <= now
      modifies usageTracker
      ensures NonNegative(usageTracker.usage)
      ensures usageTracker.usage == old(usageTracker.usage)[user := UsageOf(old(usageTracker.usage), user) + (now - startTime) as real]
    {
      var duration := (now - startTime) as real;
      usageTracker.AddUsage(user, duration, 1);
      assert duration * 1 as real == duration;
    }

    /** The file move of `_wait_and_finalize`: `complete/` for exit code 0,
        `fail/` otherwise. */
    method MoveFinished(job: Job, exitCode: int) returns (status: JobStatus, moved: Result<Path, FsError>)
      modifies layout.fs
      ensures status == if exitCode == 0 then Completed else Failed
      ensures var dest := if exitCode == 0 then layout.complete else layout.fail;
              var before := WithDir(old(layout.fs.dirs), dest);
              && (moved.Success? <==> job.scriptPath.dir in before && job.scriptPath.name in before[job.scriptPath.dir])
              && (moved.Failure? ==> layout.fs.dirs == before)
              && (moved.Success? ==> && moved.value.dir == dest
                                     && moved.value.name !in before[dest]
                                     && layout.fs.dirs == Moved(before, job.scriptPath, moved.value))
    {
      ghost var k;
      if exitCode == 0 {
        moved, k := layout.SafeRename(job.scriptPath, layout.complete, None);
        status := Completed;
      } else {
        moved, k := layout.SafeRename(job.scriptPath, layout.fail, None);
        status := Failed;
      }
    }

    /** One iteration of `run_forever`: pick the best QUEUED job and try to
        launch it. At most one job changes beyond its rescoring, and only
        the picked job can become RUNNING. */
    method Tick(readings: seq<DeviceReading>, now: int, parentEnv: map<string, string>, spawned: Option<int>)
      returns (picked: Option<Job>, outcome: Option<LaunchOutcome>)
      requires Valid()
      modifies layout.fs, jobs, runner
      ensures Valid()
      ensures jobs.jobs.Keys == old(jobs.jobs).Keys
      ensures picked.None? <==> forall id :: id in old(jobs.jobs) ==> old(jobs.jobs)[id].status != Queued
      ensures picked.None? <==> outcome.None?
      ensures picked == Pick(config, usageTracker.usage, now, Values(old(jobs.ids), old(jobs.jobs)))
      ensures picked.Some? ==> picked.value.id in old(jobs.jobs) && old(jobs.jobs)[picked.value.id].status == Queued
      ensures forall id :: id in jobs.jobs && (picked.None? || id != picked.value.id) ==>
                jobs.jobs[id] == Rescored(config, usageTracker.usage, now, old(jobs.jobs)[id])
      ensures forall id :: id in jobs.jobs && jobs.jobs[id].status.Running? && !old(jobs.jobs)[id].status.Running? ==>
                picked.Some? && id == picked.value.id
    {
      picked := PickNextJob(now);
      if picked.None? {
        return picked, None;
      }
      ghost var mid := jobs.jobs;
      var o := LaunchJob(picked.value, readings, now, parentEnv, spawned);
      outcome := Some(o);
      OnlyPickedChanges(config, usageTracker.usage, now, old(jobs.jobs), mid, jobs.jobs, picked.value.id);
    }
  }
}
