/** The mock-SLURM priority engine (priority_engine.py): a weighted
    five-factor score for job records, a per-user usage tracker fed by
    completed jobs, and the ordering used for job listings. Job records are
    the JSON dictionaries of the mock cluster; an absent key is `None`, and
    timestamps are whole seconds. */
module PriorityEngine {
  import opened Wrappers
  import opened Text
  import opened Sorting
  import S = Scheduler

  /** One job dictionary. */
  datatype JobRecord = JobRecord(
    jobId: Option<string>,
    user: Option<string>,
    status: Option<string>,
    qos: Option<string>,
    partition: Option<string>,
    vramGb: Option<int>,
    submittedAt: Option<int>,
    startedAt: Option<int>,
    completedAt: Option<int>,
    priorityScore: Option<real>)

  // PriorityConfig
  const WeightAge: real := 1000.0
  const WeightFairshare: real := 10000.0
  const WeightJobSize: real := 500.0
  const WeightPartition: real := 1000.0
  const WeightQos: real := 10000.0
  const FairshareDecayNorm: real := 10.0
  const MaxVramRef: real := 80.0
  const PartitionScores: map<string, real> := map["debug" := 1.0, "normal" := 0.5, "batch" := 0.2]
  const QosScores: map<string, real> := map["hil" := 1.0, "high" := 0.8, "standard" := 0.5, "low" := 0.1]
  const DefaultVramGb: int := 2

  function User(j: JobRecord): string {
    j.user.GetOr("unknown")
  }

  function Status(j: JobRecord): string {
    j.status.GetOr("PENDING")
  }

  function VramGb(j: JobRecord): int {
    j.vramGb.GetOr(DefaultVramGb)
  }

  /** `job.get(key, fallback).lower() or fallback`. */
  function Normalised(value: Option<string>, fallback: string): (r: string)
    ensures fallback != [] ==> r != []
    ensures value.None? ==> r == (if Lower(fallback) == [] then fallback else Lower(fallback))
    ensures value.Some? && Lower(value.value) == [] ==> r == fallback
    ensures value.Some? && Lower(value.value) != [] ==> r == Lower(value.value)
  {
    var lowered := Lower(value.GetOr(fallback));
    if lowered == [] then fallback else lowered
  }

  /** Seconds since submission; a record without a submission time has
      waited zero seconds. */
  function WaitSeconds(j: JobRecord, now: int): int {
    if j.submittedAt.Some? then now - j.submittedAt.value else 0
  }

  /** `min(vram_gb / 80, 1.0)`. */
  function SizeFactor(vramGb: int): (f: real)
    ensures f <= 1.0
    ensures vramGb >= 0 ==> 0.0 <= f
    ensures vramGb >= 80 ==> f == 1.0
  {
    S.Min(vramGb as real / MaxVramRef, 1.0)
  }

  /** The fair-share denominator `1 + usage / 10` is not zero. */
  predicate FairShareDefined(usage: map<string, real>, user: string) {
    1.0 + S.UsageOf(usage, user) / FairshareDecayNorm != 0.0
  }

  /** Non-negative usage keeps every user's fair-share factor defined. */
  lemma NonNegativeDefined(usage: map<string, real>)
    requires S.NonNegative(usage)
    ensures forall user :: FairShareDefined(usage, user)
  {
    forall user ensures FairShareDefined(usage, user) {
      var u := S.UsageOf(usage, user);
      assert u / 10.0 >= 0.0;
    }
  }

  /** `calculate_priority` with the user's usage taken from `usage`. */
  function CalculatePriority(j: JobRecord, usage: map<string, real>, now: int): real
    requires FairShareDefined(usage, User(j))
  {
    Weighted(S.AgeFactor(WaitSeconds(j, now) as real),
             S.FairShareFactor(S.UsageOf(usage, User(j)), FairshareDecayNorm),
             SizeFactor(VramGb(j)),
             PartitionFactor(j.partition),
             QosFactor(j.qos))
  }

  /** The partition score, `"normal"` when the name is missing or empty. */
  function PartitionFactor(partition: Option<string>): (f: real)
    ensures 0.0 <= f <= 1.0
  {
    TableFactorInUnitRange(PartitionScores, Normalised(partition, "normal"));
    S.TableFactor(PartitionScores, Normalised(partition, "normal"))
  }

  /** The QoS score, `"standard"` when the name is missing or empty. */
  function QosFactor(qos: Option<string>): (f: real)
    ensures 0.0 <= f <= 1.0
  {
    TableFactorInUnitRange(QosScores, Normalised(qos, "standard"));
    S.TableFactor(QosScores, Normalised(qos, "standard"))
  }

  /** The five factors times their fixed weights, summed. */
  function Weighted(age: real, fs: real, size: real, part: real, qos: real): real {
    WeightAge * age + WeightFairshare * fs + WeightJobSize * size + WeightPartition * part + WeightQos * qos
  }

  /** With non-negative wait, usage and request the priority is strictly
      positive and at most 22500, the sum of the weights. */
  lemma PriorityBounds(j: JobRecord, usage: map<string, real>, now: int)
    requires S.NonNegative(usage) && WaitSeconds(j, now) >= 0 && VramGb(j) >= 0
    ensures 0.0 < CalculatePriority(j, usage, now) <= 22500.0
  {
    var age := S.AgeFactor(WaitSeconds(j, now) as real);
    var fs := S.FairShareFactor(S.UsageOf(usage, User(j)), FairshareDecayNorm);
    var size := SizeFactor(VramGb(j));
    WeightedSumBounds(age, fs, size, PartitionFactor(j.partition), QosFactor(j.qos));
  }

  /** A factor looked up in either score table lies between 0 and 1. */
  lemma TableFactorInUnitRange(table: map<string, real>, name: string)
    requires table == PartitionScores || table == QosScores
    ensures 0.0 <= S.TableFactor(table, name) <= 1.0
  {
    if name in table {
      assert name in PartitionScores ==> name == "debug" || name == "normal" || name == "batch";
      assert name in QosScores ==> name == "hil" || name == "high" || name == "standard" || name == "low";
    }
  }

  /** The fixed weights applied to factors in range give a value in (0, 22500]. */
  lemma WeightedSumBounds(age: real, fs: real, size: real, part: real, qos: real)
    requires 0.0 <= age <= 1.0 && 0.0 < fs <= 1.0 && 0.0 <= size <= 1.0
    requires 0.0 <= part <= 1.0 && 0.0 <= qos <= 1.0
    ensures 0.0 < Weighted(age, fs, size, part, qos) <= 22500.0
  {
  }

  /** A later `now` never lowers the priority. */
  lemma PriorityMonotoneInWait(j: JobRecord, usage: map<string, real>, now1: int, now2: int)
    requires FairShareDefined(usage, User(j)) && now1 <= now2
    ensures CalculatePriority(j, usage, now1) <= CalculatePriority(j, usage, now2)
  {
    S.AgeFactorMonotone(WaitSeconds(j, now1) as real, WaitSeconds(j, now2) as real);
  }

  /** More recorded usage for the job's user never raises its priority. */
  lemma PriorityAntitoneInUsage(j: JobRecord, u1: map<string, real>, u2: map<string, real>, now: int)
    requires S.NonNegative(u1) && S.NonNegative(u2)
    requires S.UsageOf(u1, User(j)) <= S.UsageOf(u2, User(j))
    ensures CalculatePriority(j, u2, now) <= CalculatePriority(j, u1, now)
  {
    S.FairShareAntitone(S.UsageOf(u1, User(j)), S.UsageOf(u2, User(j)), FairshareDecayNorm);
  }

  /** QoS and partition names are matched case-insensitively, and an empty
      or unknown name scores like the defaults ("standard" / "normal" score
      0.5, as does any unknown name). */
  lemma NamesAreNormalised(j: JobRecord, usage: map<string, real>, now: int, qos: string, partition: string)
    requires FairShareDefined(usage, User(j))
    ensures CalculatePriority(j.(qos := Some(qos), partition := Some(partition)), usage, now)
         == CalculatePriority(j.(qos := Some(Lower(qos)), partition := Some(Lower(partition))), usage, now)
    ensures Lower(qos) !in QosScores && Lower(partition) !in PartitionScores ==>
              CalculatePriority(j.(qos := Some(qos), partition := Some(partition)), usage, now)
              == CalculatePriority(j.(qos := None, partition := None), usage, now)
  {
    var j1 := j.(qos := Some(qos), partition := Some(partition));
    var j2 := j.(qos := Some(Lower(qos)), partition := Some(Lower(partition)));
    var j3 := j.(qos := None, partition := None);
    PriorityOfNames(j, usage, now, j1);
    PriorityOfNames(j, usage, now, j2);
    PriorityOfNames(j, usage, now, j3);
    NormalisedIgnoresCase(qos, "standard");
    NormalisedIgnoresCase(partition, "normal");
    if Lower(qos) !in QosScores && Lower(partition) !in PartitionScores {
      UnknownQosScoresAsDefault(qos);
      UnknownPartitionScoresAsDefault(partition);
    }
  }

  /** A record differing from `j` only in its names scores with the same
      age, fair-share and size factors. */
  lemma PriorityOfNames(j: JobRecord, usage: map<string, real>, now: int, j': JobRecord)
    requires FairShareDefined(usage, User(j))
    requires j' == j.(qos := j'.qos, partition := j'.partition)
    ensures FairShareDefined(usage, User(j'))
    ensures CalculatePriority(j', usage, now)
         == Weighted(S.AgeFactor(WaitSeconds(j, now) as real),
                     S.FairShareFactor(S.UsageOf(usage, User(j)), FairshareDecayNorm),
                     SizeFactor(VramGb(j)), PartitionFactor(j'.partition), QosFactor(j'.qos))
  {
  }

  lemma NormalisedIgnoresCase(name: string, fallback: string)
    ensures Normalised(Some(name), fallback) == Normalised(Some(Lower(name)), fallback)
  {
    LowerIdempotent(name);
  }

  /** An unknown QoS name scores like the default "standard". */
  lemma UnknownQosScoresAsDefault(qos: string)
    requires Lower(qos) !in QosScores
    ensures QosFactor(Some(qos)) == QosFactor(None) == 0.5
  {
    StandardIsLower();
  }

  /** An unknown partition name scores like the default "normal". */
  lemma UnknownPartitionScoresAsDefault(partition: string)
    requires Lower(partition) !in PartitionScores
    ensures PartitionFactor(Some(partition)) == PartitionFactor(None) == 0.5
  {
    NormalIsLower();
  }

  /** The fallback names are already lower case. */
  lemma NormalIsLower()
    ensures Lower("normal") == "normal"
  {
    LowerOfLowercase("normal");
  }

  lemma StandardIsLower()
    ensures Lower("standard") == "standard"
  {
    LowerOfLowercase("standard");
  }

  lemma LowerOfLowercase(s: string)
    requires forall i :: 0 <= i < |s| ==> !('A' <= s[i] <= 'Z')
    ensures Lower(s) == s
  {
    assert forall i :: 0 <= i < |s| ==> Lower(s)[i] == s[i];
  }

  lemma {:induction false} LowerIdempotent(s: string)
    ensures Lower(Lower(s)) == Lower(s)
  {
    if s != [] {
      LowerIdempotent(s[1..]);
      assert Lower(s) == [LowerChar(s[0])] + Lower(s[1..]);
    }
  }

  /** `usage_data` after `record_usage(user, vram_gb, duration)`. */
  function Recorded(usage: map<string, real>, user: string, vramGb: int, durationSec: real): (r: map<string, real>)
    ensures r.Keys == usage.Keys + {user}
    ensures forall u :: u in usage && u != user ==> r[u] == usage[u]
    ensures r[user] - S.UsageOf(usage, user) == (vramGb as real * durationSec) / 3600.0
    ensures vramGb >= 0 && durationSec >= 0.0 ==> r[user] >= S.UsageOf(usage, user)
  {
    assert vramGb >= 0 && durationSec >= 0.0 ==> vramGb as real * durationSec >= 0.0 by {
      if vramGb >= 0 && durationSec >= 0.0 {
        S.PositiveOrZeroProduct(vramGb as real, durationSec);
      }
    }
    usage[user := S.UsageOf(usage, user) + (vramGb as real * durationSec) / 3600.0]
  }

  /** The in-memory part of `UsageTracker`; loading and saving the JSON
      file are not modelled. */
  class UsageTracker {
    var usage: map<string, real>

    constructor (loaded: map<string, real>)
      ensures usage == loaded
    {
      usage := loaded;
    }

    /** `get_usage`. */
    method GetUsage(user: string) returns (u: real)
      ensures u == S.UsageOf(usage, user)
    {
      u := if user in usage then usage[user] else 0.0;
    }

    /** `record_usage`: adds `vram_gb * duration / 3600` to `user` only,
        starting from 0 for a new user. */
    method RecordUsage(user: string, vramGb: int, durationSec: real)
      modifies this
      ensures usage == Recorded(old(usage), user, vramGb, durationSec)
      ensures S.NonNegative(old(usage)) && vramGb >= 0 && durationSec >= 0.0 ==> S.NonNegative(usage)
    {
      var added := (vramGb as real * durationSec) / 3600.0;
      if vramGb >= 0 && durationSec >= 0.0 {
        S.PositiveOrZeroProduct(vramGb as real, durationSec);
      }
      var current := if user in usage then usage[user] else 0.0;
      usage := usage[user := current + added];
    }

    /** `decay_usage(factor)`: every user's usage is multiplied by `factor`;
        no user is added or removed. */
    method DecayUsage(factor: real)
      modifies this
      ensures usage.Keys == old(usage).Keys
      ensures forall u :: u in usage ==> usage[u] == old(usage)[u] * factor
    {
      var remaining := usage.Keys;
      while remaining != {}
        invariant remaining <= usage.Keys && usage.Keys == old(usage).Keys
        invariant forall u :: u in usage ==> usage[u] == if u in remaining then old(usage)[u] else old(usage)[u] * factor
        decreases remaining
      {
        var u :| u in remaining;
        usage := usage[u := usage[u] * factor];
        remaining := remaining - {u};
      }
    }
  }

  /** Decaying by a factor between 0 and 1 keeps usage non-negative and
      never raises it. */
  lemma DecayShrinks(before: map<string, real>, after: map<string, real>, factor: real)
    requires S.NonNegative(before) && 0.0 <= factor <= 1.0
    requires after.Keys == before.Keys && forall u :: u in after ==> after[u] == before[u] * factor
    ensures S.NonNegative(after)
    ensures forall u :: u in after ==> after[u] <= before[u]
  {
    forall u | u in after
      ensures 0.0 <= after[u] <= before[u]
    {
      S.PositiveOrZeroProduct(before[u], factor);
      assert before[u] - after[u] == before[u] * (1.0 - factor);
      S.PositiveOrZeroProduct(before[u], 1.0 - factor);
    }
  }

  /** The usage map and the set of processed job ids. */
  datatype UsageState = UsageState(usage: map<string, real>, processed: set<Option<string>>)

  /** The usage bookkeeping `sort_jobs_by_priority` does for one job: a
      COMPLETED job not yet processed and carrying both timestamps is
      charged and marked processed; every other job changes nothing. */
  function RecordStep(st: UsageState, j: JobRecord): UsageState {
    if Status(j) == "COMPLETED" && j.jobId !in st.processed && j.startedAt.Some? && j.completedAt.Some? then
      UsageState(Recorded(st.usage, User(j), VramGb(j), (j.completedAt.value - j.startedAt.value) as real),
                 st.processed + {j.jobId})
    else st
  }

  /** The bookkeeping over the first jobs of a listing, in order. */
  function Replay(st: UsageState, js: seq<JobRecord>): UsageState {
    if js == [] then st else RecordStep(Replay(st, js[..|js| - 1]), js[|js| - 1])
  }

  /** A completed record finished no earlier than it started and asked for a
      non-negative amount of memory, so charging it adds a non-negative amount. */
  predicate Sane(j: JobRecord) {
    && VramGb(j) >= 0
    && (j.startedAt.Some? && j.completedAt.Some? ==> j.startedAt.value <= j.completedAt.value)
  }

  /** A job id that was already processed is never charged again, and a
      new one is charged once and then marked processed. */
  lemma {:induction false} ReplayProcessed(st: UsageState, js: seq<JobRecord>)
    ensures st.processed <= Replay(st, js).processed
    ensures forall id :: id in Replay(st, js).processed - st.processed ==>
              exists k :: 0 <= k < |js| && js[k].jobId == id && Status(js[k]) == "COMPLETED"
                          && js[k].startedAt.Some? && js[k].completedAt.Some?
  {
    if js != [] {
      var init := js[..|js| - 1];
      ReplayProcessed(st, init);
      forall id | id in Replay(st, js).processed - st.processed
        ensures exists k :: 0 <= k < |js| && js[k].jobId == id && Status(js[k]) == "COMPLETED"
                            && js[k].startedAt.Some? && js[k].completedAt.Some?
      {
        if id in Replay(st, init).processed {
          assert id in Replay(st, init).processed - st.processed;
          var k :| 0 <= k < |init| && init[k].jobId == id && Status(init[k]) == "COMPLETED"
                   && init[k].startedAt.Some? && init[k].completedAt.Some?;
          assert js[k] == init[k];
        } else {
          assert js[|js| - 1].jobId == id;
        }
      }
    }
  }

  lemma ReplaySnoc(st: UsageState, js: seq<JobRecord>, i: int)
    requires 0 <= i < |js|
    ensures Replay(st, js[..i + 1]) == RecordStep(Replay(st, js[..i]), js[i])
  {
    assert js[..i + 1][..i] == js[..i];
  }

  /** A record whose id was already processed changes nothing, so seeing
      the same record again never charges it twice. */
  lemma ChargedAtMostOnce(st: UsageState, j: JobRecord)
    ensures j.jobId in st.processed ==> RecordStep(st, j) == st
    ensures RecordStep(st, j) != st ==> j.jobId in RecordStep(st, j).processed && j.jobId !in st.processed
    ensures RecordStep(RecordStep(st, j), j) == RecordStep(st, j)
  {
  }

  /** Sane records keep the usage non-negative. */
  lemma {:induction false} ReplayNonNegative(st: UsageState, js: seq<JobRecord>)
    requires S.NonNegative(st.usage) && forall k :: 0 <= k < |js| ==> Sane(js[k])
    ensures S.NonNegative(Replay(st, js).usage)
    ensures forall user :: FairShareDefined(Replay(st, js).usage, user)
  {
    if js != [] {
      var init := js[..|js| - 1];
      ReplayNonNegative(st, init);
      var j := js[|js| - 1];
      assert Sane(j);
      if j.startedAt.Some? && j.completedAt.Some? {
        S.PositiveOrZeroProduct(VramGb(j) as real, (j.completedAt.value - j.startedAt.value) as real);
      }
    }
    NonNegativeDefined(Replay(st, js).usage);
  }

  /** Which of the four output groups a record joins. */
  datatype Group = RunningGroup | PendingGroup | CompletedGroup | OtherGroup

  function GroupOf(j: JobRecord): Group {
    var s := Status(j);
    if s == "RUNNING" then RunningGroup
    else if s == "PENDING" then PendingGroup
    else if s == "COMPLETED" then CompletedGroup
    else OtherGroup
  }

  /** The records of `js` in group `g`, in order. */
  function Select(js: seq<JobRecord>, g: Group): (r: seq<JobRecord>)
  {
    if js == [] then []
    else Select(js[..|js| - 1], g) + (if GroupOf(js[|js| - 1]) == g then [js[|js| - 1]] else [])
  }

  lemma SelectSnoc(js: seq<JobRecord>, x: JobRecord)
    ensures forall g :: Select(js + [x], g) == Select(js, g) + (if GroupOf(x) == g then [x] else [])
  {
    assert (js + [x])[..|js|] == js;
  }

  /** The four groups of `js` pooled together. */
  ghost function Pooled(js: seq<JobRecord>): multiset<JobRecord> {
    multiset(Select(js, RunningGroup)) + multiset(Select(js, PendingGroup))
    + multiset(Select(js, CompletedGroup)) + multiset(Select(js, OtherGroup))
  }

  /** The four groups together hold exactly the input. */
  lemma {:induction false} SelectPartition(js: seq<JobRecord>)
    ensures Pooled(js) == multiset(js)
  {
    if js != [] {
      var init, x := js[..|js| - 1], js[|js| - 1];
      assert js == init + [x];
      SelectPartition(init);
      PooledSnoc(init, x);
    }
  }

  /** Appending `x` adds it to exactly one group. */
  lemma PooledSnoc(js: seq<JobRecord>, x: JobRecord)
    ensures Pooled(js + [x]) == Pooled(js) + multiset{x}
  {
    SelectSnoc(js, x);
    PooledAdd(js, js + [x], x, GroupOf(x));
  }

  lemma PooledAdd(js: seq<JobRecord>, js': seq<JobRecord>, x: JobRecord, g: Group)
    requires forall h :: Select(js', h) == Select(js, h) + (if g == h then [x] else [])
    ensures Pooled(js') == Pooled(js) + multiset{x}
  {
    var r, q, c, o := Select(js, RunningGroup), Select(js, PendingGroup), Select(js, CompletedGroup), Select(js, OtherGroup);
    var r', q', c', o' := Select(js', RunningGroup), Select(js', PendingGroup), Select(js', CompletedGroup), Select(js', OtherGroup);
    assert r' == r + (if g == RunningGroup then [x] else []);
    assert q' == q + (if g == PendingGroup then [x] else []);
    assert c' == c + (if g == CompletedGroup then [x] else []);
    assert o' == o + (if g == OtherGroup then [x] else []);
    AddOneToGroup(r, q, c, o, r', q', c', o', x, g);
  }

  lemma AddOneToGroup(r: seq<JobRecord>, q: seq<JobRecord>, c: seq<JobRecord>, o: seq<JobRecord>,
                      r': seq<JobRecord>, q': seq<JobRecord>, c': seq<JobRecord>, o': seq<JobRecord>,
                      x: JobRecord, g: Group)
    requires r' == r + (if g == RunningGroup then [x] else [])
    requires q' == q + (if g == PendingGroup then [x] else [])
    requires c' == c + (if g == CompletedGroup then [x] else [])
    requires o' == o + (if g == OtherGroup then [x] else [])
    ensures multiset(r') + multiset(q') + multiset(c') + multiset(o')
         == multiset(r) + multiset(q) + multiset(c) + multiset(o) + multiset{x}
  {
    match g
    case RunningGroup => assert q' == q && c' == c && o' == o;
    case PendingGroup => assert r' == r && c' == c && o' == o;
    case CompletedGroup => assert r' == r && q' == q && o' == o;
    case OtherGroup => assert r' == r && q' == q && c' == c;
  }

  function ScoreAtLeast(a: JobRecord, b: JobRecord): bool {
    a.priorityScore.GetOr(0.0) >= b.priorityScore.GetOr(0.0)
  }

  /** `x.get("completed_at", "")` compared descending: ISO timestamps order
      as the times they denote, and a missing one is the empty string,
      which sorts below all of them. */
  function CompletedAtLeast(a: JobRecord, b: JobRecord): bool {
    match (a.completedAt, b.completedAt)
    case (_, None) => true
    case (None, Some(_)) => false
    case (Some(x), Some(y)) => x >= y
  }

  lemma OrdersAreTotal()
    ensures TotalPreorder(ScoreAtLeast) && TotalPreorder(CompletedAtLeast)
  {
  }

  /** `jobs[i]` annotated with the score computed from `usage`. */
  function Annotated(j: JobRecord, usage: map<string, real>, now: int): (r: JobRecord)
    requires FairShareDefined(usage, User(j))
    ensures r == j.(priorityScore := r.priorityScore) && r.priorityScore.Some?
  {
    j.(priorityScore := Some(CalculatePriority(j, usage, now)))
  }

  /** The listing annotated in order: each record's score is computed from
      the usage recorded for the records before it. */
  ghost function AnnotateAll(st: UsageState, js: seq<JobRecord>, now: int): (r: seq<JobRecord>)
    requires S.NonNegative(st.usage) && forall k :: 0 <= k < |js| ==> Sane(js[k])
    ensures |r| == |js|
  {
    if js == [] then []
    else
      var init := js[..|js| - 1];
      ReplayNonNegative(st, init);
      AnnotateAll(st, init, now) + [Annotated(js[|js| - 1], Replay(st, init).usage, now)]
  }

  /** Record `i` of the annotated listing is record `i` of the input with
      the score given by the usage after replaying records `0..i-1`. */
  lemma {:induction false} AnnotateAllAt(st: UsageState, js: seq<JobRecord>, now: int, i: int)
    requires S.NonNegative(st.usage) && forall k :: 0 <= k < |js| ==> Sane(js[k])
    requires 0 <= i < |js|
    ensures FairShareDefined(Replay(st, js[..i]).usage, User(js[i]))
    ensures FairShareDefined(Replay(st, js[..i]).usage, User(js[i])) &&
            AnnotateAll(st, js, now)[i] == Annotated(js[i], Replay(st, js[..i]).usage, now)
  {
    ReplayNonNegative(st, js[..i]);
    var init := js[..|js| - 1];
    ReplayNonNegative(st, init);
    var last := Annotated(js[|js| - 1], Replay(st, init).usage, now);
    assert AnnotateAll(st, js, now) == AnnotateAll(st, init, now) + [last];
    if i < |js| - 1 {
      AnnotateAllAt(st, init, now, i);
      PrefixOfPrefix(js, |js| - 1, i);
      assert init[i] == js[i];
      assert AnnotateAll(st, js, now)[i] == AnnotateAll(st, init, now)[i];
    }
  }

  lemma AnnotateSnoc(st: UsageState, js: seq<JobRecord>, now: int, i: int)
    requires S.NonNegative(st.usage) && forall k :: 0 <= k < |js| ==> Sane(js[k])
    requires 0 <= i < |js|
    ensures FairShareDefined(Replay(st, js[..i]).usage, User(js[i]))
    ensures FairShareDefined(Replay(st, js[..i]).usage, User(js[i])) &&
            AnnotateAll(st, js[..i + 1], now) == AnnotateAll(st, js[..i], now) + [Annotated(js[i], Replay(st, js[..i]).usage, now)]
  {
    ReplayNonNegative(st, js[..i]);
    assert js[..i + 1][..i] == js[..i];
  }

  /** The output order of `sort_jobs_by_priority` for an annotated listing:
      RUNNING, PENDING by score, COMPLETED by completion time, the rest. */
  function Arrange(annotated: seq<JobRecord>): seq<JobRecord> {
    OrdersAreTotal();
    Select(annotated, RunningGroup)
    + SortDesc(Select(annotated, PendingGroup), ScoreAtLeast)
    + SortDesc(Select(annotated, CompletedGroup), CompletedAtLeast)
    + Select(annotated, OtherGroup)
  }

  /** The arranged listing is a permutation of the annotated one, made of
      the RUNNING records in input order, the PENDING ones highest score
      first, the COMPLETED ones latest first and the rest in input order;
      PENDING records of equal score, and COMPLETED records of equal
      completion time, keep their input order. */
  lemma ArrangeIsGrouping(annotated: seq<JobRecord>, a: nat, b: nat, c: nat)
    requires a == |Select(annotated, RunningGroup)|
    requires b == a + |Select(annotated, PendingGroup)|
    requires c == b + |Select(annotated, CompletedGroup)|
    ensures multiset(Arrange(annotated)) == multiset(annotated)
    ensures c <= |Arrange(annotated)|
    ensures Arrange(annotated)[..a] == Select(annotated, RunningGroup)
    ensures multiset(Arrange(annotated)[a..b]) == multiset(Select(annotated, PendingGroup))
    ensures SortedDesc(Arrange(annotated)[a..b], ScoreAtLeast)
    ensures multiset(Arrange(annotated)[b..c]) == multiset(Select(annotated, CompletedGroup))
    ensures SortedDesc(Arrange(annotated)[b..c], CompletedAtLeast)
    ensures Arrange(annotated)[c..] == Select(annotated, OtherGroup)
    ensures forall x :: TiesWith(Arrange(annotated)[a..b], x, ScoreAtLeast)
                        == TiesWith(Select(annotated, PendingGroup), x, ScoreAtLeast)
    ensures forall x :: TiesWith(Arrange(annotated)[b..c], x, CompletedAtLeast)
                        == TiesWith(Select(annotated, CompletedGroup), x, CompletedAtLeast)
  {
    OrdersAreTotal();
    var r, q, d, o := Select(annotated, RunningGroup), Select(annotated, PendingGroup),
                      Select(annotated, CompletedGroup), Select(annotated, OtherGroup);
    var q', d' := SortDesc(q, ScoreAtLeast), SortDesc(d, CompletedAtLeast);
    assert Arrange(annotated) == r + q' + d' + o;
    Concat4(r, q', d', o, q, d, a, b, c);
    SelectPartition(annotated);
    forall x
      ensures TiesWith(q', x, ScoreAtLeast) == TiesWith(q, x, ScoreAtLeast)
      ensures TiesWith(d', x, CompletedAtLeast) == TiesWith(d, x, CompletedAtLeast)
    {
      SortDescIsStable(q, x, ScoreAtLeast);
      SortDescIsStable(d, x, CompletedAtLeast);
    }
  }

  /** The four parts of a concatenation whose middle parts are
      rearrangements of `q` and `d`, and its multiset. */
  lemma Concat4(r: seq<JobRecord>, q': seq<JobRecord>, d': seq<JobRecord>, o: seq<JobRecord>,
                q: seq<JobRecord>, d: seq<JobRecord>, a: nat, b: nat, c: nat)
    requires multiset(q') == multiset(q) && multiset(d') == multiset(d)
    requires a == |r| && b == a + |q| && c == b + |d|
    ensures var s := r + q' + d' + o;
            && c <= |s| && s[..a] == r && s[a..b] == q' && s[b..c] == d' && s[c..] == o
            && multiset(s) == multiset(r) + multiset(q) + multiset(d) + multiset(o)
  {
    assert |q'| == |multiset(q')| == |q|;
    assert |d'| == |multiset(d')| == |d|;
    var s := r + q' + d' + o;
    assert s == ((r + q') + d') + o;
  }

  /** The status dispatch of `sort_jobs_by_priority`: `job` joins the
      list of its group. */
  method AppendToGroup(running: seq<JobRecord>, pending: seq<JobRecord>, completed: seq<JobRecord>,
                       other: seq<JobRecord>, job: JobRecord)
    returns (running': seq<JobRecord>, pending': seq<JobRecord>, completed': seq<JobRecord>, other': seq<JobRecord>)
    ensures running' == running + (if GroupOf(job) == RunningGroup then [job] else [])
    ensures pending' == pending + (if GroupOf(job) == PendingGroup then [job] else [])
    ensures completed' == completed + (if GroupOf(job) == CompletedGroup then [job] else [])
    ensures other' == other + (if GroupOf(job) == OtherGroup then [job] else [])
  {
    running', pending', completed', other' := running, pending, completed, other;
    var status := job.status.GetOr("PENDING");
    if status == "RUNNING" {
      running' := running + [job];
    } else if status == "PENDING" {
      pending' := pending + [job];
    } else if status == "COMPLETED" {
      completed' := completed + [job];
    } else {
      other' := other + [job];
    }
  }

  class PriorityEngine {
    const tracker: UsageTracker
    /** `processed_job_ids`: the jobs whose usage has been recorded. */
    var processedJobIds: set<Option<string>>

    constructor (tracker: UsageTracker)
      ensures this.tracker == tracker && processedJobIds == {}
    {
      this.tracker := tracker;
      processedJobIds := {};
    }

    /** The usage bookkeeping of `sort_jobs_by_priority` for one record:
        a COMPLETED record whose id is not yet processed and which has both
        timestamps is charged `vram_gb * (completed_at - started_at) / 3600`
        and its id is marked processed. */
    method ChargeIfNewlyCompleted(job: JobRecord)
      requires S.NonNegative(tracker.usage) && Sane(job)
      modifies this, tracker
      ensures UsageState(tracker.usage, processedJobIds) == RecordStep(UsageState(old(tracker.usage), old(processedJobIds)), job)
      ensures S.NonNegative(tracker.usage)
    {
      var status := job.status.GetOr("PENDING");
      var jobId := job.jobId;
      if status == "COMPLETED" && jobId !in processedJobIds {
        if job.startedAt.Some? && job.completedAt.Some? {
          var duration := (job.completedAt.value - job.startedAt.value) as real;
          tracker.RecordUsage(job.user.GetOr("unknown"), job.vramGb.GetOr(2), duration);
          processedJobIds := processedJobIds + {jobId};
        }
      }
    }

    /** `sort_jobs_by_priority`: annotates every record with its score
        (computed with the usage recorded so far), charges newly completed
        jobs, and returns RUNNING jobs in input order, then PENDING ones by
        score, then COMPLETED ones by completion time, both highest first,
        then all others in input order. `annotated` is the input after
        annotation, in input order. */
    method SortJobsByPriority(jobs: seq<JobRecord>, now: int)
      returns (sorted: seq<JobRecord>, ghost annotated: seq<JobRecord>)
      requires S.NonNegative(tracker.usage)
      requires forall k :: 0 <= k < |jobs| ==> Sane(jobs[k])
      modifies this, tracker
      ensures UsageState(tracker.usage, processedJobIds) == Replay(UsageState(old(tracker.usage), old(processedJobIds)), jobs)
      ensures S.NonNegative(old(tracker.usage)) && annotated == AnnotateAll(UsageState(old(tracker.usage), old(processedJobIds)), jobs, now)
      ensures sorted == Arrange(annotated)
    {
      ghost var st0 := UsageState(tracker.usage, processedJobIds);
      var running: seq<JobRecord> := [];
      var pending: seq<JobRecord> := [];
      var completed: seq<JobRecord> := [];
      var other: seq<JobRecord> := [];
      annotated := [];
      for i := 0 to |jobs|
        invariant UsageState(tracker.usage, processedJobIds) == Replay(st0, jobs[..i])
        invariant S.NonNegative(tracker.usage)
        invariant annotated == AnnotateAll(st0, jobs[..i], now)
        invariant running == Select(annotated, RunningGroup) && pending == Select(annotated, PendingGroup)
        invariant completed == Select(annotated, CompletedGroup) && other == Select(annotated, OtherGroup)
      {
        var job := jobs[i];
        ReplaySnoc(st0, jobs, i);
        AnnotateSnoc(st0, jobs, now, i);
        var prio := CalculatePriority(job, tracker.usage, now);
        var annotatedJob := job.(priorityScore := Some(prio));
        ChargeIfNewlyCompleted(job);
        SelectSnoc(annotated, annotatedJob);
        annotated := annotated + [annotatedJob];
        running, pending, completed, other := AppendToGroup(running, pending, completed, other, annotatedJob);
      }
      assert jobs[..|jobs|] == jobs;
      OrdersAreTotal();
      var pendingSorted := SortDesc(pending, ScoreAtLeast);
      var completedSorted := SortDesc(completed, CompletedAtLeast);
      sorted := running + pendingSorted + completedSorted + other;
    }
  }
}
