/** The job-manager daemon of the mock SLURM cluster (job_manager.py):
    a five-factor score for pending jobs and one non-preemptive tick that
    completes long-running jobs and starts the best pending ones in the
    free slots. The loaded job records sit in an array; only the completed
    and the started jobs change, which is what the source writes back
    (`save_job` itself is left out). Timestamps are whole seconds. */
module JobManager {
  import opened Wrappers
  import opened Text
  import opened Sorting

  /** One job file. An absent key is `None`. */
  datatype MockJob = MockJob(
    jobId: string,
    user: Option<string>,
    status: Option<string>,
    qos: Option<string>,
    jobName: Option<string>,
    script: Option<string>,
    gpuCount: Option<int>,
    submittedAt: Option<int>,
    startedAt: Option<int>,
    completedAt: Option<int>,
    priorityScore: Option<real>)

  const MaxConcurrent: int := 2
  /** Seconds a job runs before the daemon marks it COMPLETED. */
  const RunSeconds: int := 30
  const WFair: real := 1.0
  const WAge: real := 1.0
  const WPhys: real := 2.0
  const WRes: real := 1.0
  const WHil: real := 10.0
  const PhysKeywords: seq<string> := ["physics", "sim", "simulation", "isaac", "robot", "mujoco"]

  function Field(o: Option<string>): string {
    o.GetOr("")
  }

  predicate IsActive(j: MockJob) {
    j.status == Some("PENDING") || j.status == Some("RUNNING")
  }

  /** How many jobs of `all` belong to `user` and are PENDING or RUNNING. */
  function ActiveCount(user: string, all: seq<MockJob>): (n: nat)
    ensures n <= |all|
    ensures n == 0 <==> forall k :: 0 <= k < |all| ==> !(Field(all[k].user) == user && IsActive(all[k]))
  {
    if all == [] then 0
    else
      var last := all[|all| - 1];
      var n := ActiveCount(user, all[..|all| - 1]) + (if Field(last.user) == user && IsActive(last) then 1 else 0);
      assert forall k :: 0 <= k < |all| - 1 ==> all[..|all| - 1][k] == all[k];
      n
  }

  /** `f_fair`: one over the user's active job count (at least one); a job
      without a user gets 1. */
  function FairFactor(j: MockJob, all: seq<MockJob>): (f: real)
    ensures 0.0 < f <= 1.0
    ensures Field(j.user) == [] ==> f == 1.0
    ensures Field(j.user) != [] && ActiveCount(Field(j.user), all) >= 1 ==> f * ActiveCount(Field(j.user), all) as real == 1.0
    ensures Field(j.user) != [] && ActiveCount(Field(j.user), all) == 0 ==> f == 1.0
  {
    var user := Field(j.user);
    if user != [] then
      var active := ActiveCount(user, all);
      1.0 / (if active > 1 then active else 1) as real
    else 1.0
  }

  /** `f_age`: minutes since submission, never negative; 0 without a
      (parseable) submission time. */
  function AgeFactor(submittedAt: Option<int>, now: int): (f: real)
    ensures f >= 0.0
    ensures submittedAt.None? ==> f == 0.0
    ensures submittedAt.Some? && submittedAt.value <= now ==> f * 60.0 == (now - submittedAt.value) as real
    ensures submittedAt.Some? && now <= submittedAt.value ==> f == 0.0
  {
    if submittedAt.Some? then
      var minutes := (now - submittedAt.value) as real / 60.0;
      if minutes > 0.0 then minutes else 0.0
    else 0.0
  }

  /** `any(kw in text for kw in kws)`. */
  function AnyKeyword(text: string, kws: seq<string>): (b: bool)
    ensures b <==> exists k :: 0 <= k < |kws| && IsSubstring(kws[k], text)
  {
    if kws == [] then false
    else
      assert forall k :: 1 <= k < |kws| ==> kws[k] == kws[1..][k - 1];
      Contains(text, kws[0]) || AnyKeyword(text, kws[1..])
  }

  /** The text searched for physics keywords. */
  function PhysText(j: MockJob): string {
    Lower(Field(j.jobName) + " " + Field(j.script))
  }

  /** `f_phys`: 1 iff a physics keyword occurs in the lowercased job name
      and script. */
  function PhysFactor(j: MockJob): (f: real)
    ensures f == 0.0 || f == 1.0
    ensures f == 1.0 <==> exists kw :: kw in PhysKeywords && IsSubstring(kw, PhysText(j))
  {
    if AnyKeyword(PhysText(j), PhysKeywords) then 1.0 else 0.0
  }

  /** `f_res`: one over the GPU count (at least one; 1 when absent). */
  function ResFactor(gpuCount: Option<int>): (f: real)
    ensures 0.0 < f <= 1.0
    ensures gpuCount.GetOr(1) >= 1 ==> f * gpuCount.GetOr(1) as real == 1.0
    ensures gpuCount.GetOr(1) <= 1 ==> f == 1.0
  {
    var n := gpuCount.GetOr(1);
    1.0 / (if n > 1 then n else 1) as real
  }

  /** `f_hil`: 1 iff the QoS is "hil" in any case. */
  function HilFactor(qos: Option<string>): (f: real)
    ensures f == 1.0 <==> Lower(Field(qos)) == "hil"
    ensures f == 0.0 <==> Lower(Field(qos)) != "hil"
  {
    if Lower(Field(qos)) == "hil" then 1.0 else 0.0
  }

  /** `compute_priority(job, all_jobs)`, without the rounding to two decimals. */
  function ComputePriority(j: MockJob, all: seq<MockJob>, now: int): (r: real)
    ensures r > 0.0
  {
    WFair * FairFactor(j, all) + WAge * AgeFactor(j.submittedAt, now) + WPhys * PhysFactor(j)
    + WRes * ResFactor(j.gpuCount) + WHil * HilFactor(j.qos)
  }

  /** A "hil" QoS, in any case, adds exactly 10 to the score of the same
      job without a QoS. */
  lemma HilAddsTen(j: MockJob, all: seq<MockJob>, now: int, qos: string)
    requires Lower(qos) == "hil"
    ensures ComputePriority(j.(qos := Some(qos)), all, now) == ComputePriority(j.(qos := None), all, now) + 10.0
  {
    assert Lower(Field(None)) == [];
  }

  /** Step 1's rule: a RUNNING job started at least 30 s ago. */
  predicate DueToComplete(j: MockJob, now: int) {
    j.status == Some("RUNNING") && j.startedAt.Some? && now - j.startedAt.value >= RunSeconds
  }

  function Completed(j: MockJob, now: int): MockJob {
    if DueToComplete(j, now) then j.(status := Some("COMPLETED"), completedAt := Some(now)) else j
  }

  /** The listing after step 1. */
  function CompleteAll(js: seq<MockJob>, now: int): (r: seq<MockJob>)
    ensures |r| == |js| && forall k :: 0 <= k < |js| ==> r[k] == Completed(js[k], now)
  {
    seq(|js|, k requires 0 <= k < |js| => Completed(js[k], now))
  }

  predicate IsRunning(j: MockJob) {
    j.status == Some("RUNNING")
  }

  function RunningSet(js: seq<MockJob>): set<int> {
    set k | 0 <= k < |js| && IsRunning(js[k])
  }

  /** The number of RUNNING jobs. */
  function RunningCount(js: seq<MockJob>): nat {
    |RunningSet(js)|
  }

  /** A PENDING job, by position in the listing, with its score. */
  datatype Candidate = Candidate(index: nat, score: real)

  function CandidateAtLeast(a: Candidate, b: Candidate): bool {
    a.score >= b.score
  }

  lemma CandidateOrderIsTotal()
    ensures TotalPreorder(CandidateAtLeast)
  {
  }

  predicate IsPending(j: MockJob) {
    j.status == Some("PENDING")
  }

  /** The PENDING jobs of `js`, in order, scored against `all`. */
  function Candidates(js: seq<MockJob>, all: seq<MockJob>, now: int): (r: seq<Candidate>)
    ensures forall c :: c in r ==> c.index < |js| && IsPending(js[c.index]) && c.score == ComputePriority(js[c.index], all, now)
    ensures forall k :: 0 <= k < |js| && IsPending(js[k]) ==> Candidate(k, ComputePriority(js[k], all, now)) in r
    ensures forall p, q :: 0 <= p < q < |r| ==> r[p].index < r[q].index
  {
    if js == [] then []
    else
      var init := js[..|js| - 1];
      var n := |js| - 1;
      assert forall k :: 0 <= k < n ==> init[k] == js[k];
      Candidates(init, all, now) + (if IsPending(js[n]) then [Candidate(n, ComputePriority(js[n], all, now))] else [])
  }

  /** A PENDING job gets its score written into `priority_score`. */
  function Scored(j: MockJob, all: seq<MockJob>, now: int): MockJob {
    if IsPending(j) then j.(priorityScore := Some(ComputePriority(j, all, now))) else j
  }

  function ScoreAll(js: seq<MockJob>, all: seq<MockJob>, now: int): (r: seq<MockJob>)
    ensures |r| == |js| && forall k :: 0 <= k < |js| ==> r[k] == Scored(js[k], all, now)
  {
    seq(|js|, k requires 0 <= k < |js| => Scored(js[k], all, now))
  }

  function Started(j: MockJob, now: int): MockJob {
    j.(status := Some("RUNNING"), startedAt := Some(now))
  }

  /** The positions named by a list of candidates. */
  function Indices(cs: seq<Candidate>): set<int> {
    set i | 0 <= i < |cs| :: cs[i].index
  }

  /** The listing with the jobs at `started` set RUNNING at `now`. */
  function StartAll(js: seq<MockJob>, started: set<int>, now: int): (r: seq<MockJob>)
    ensures |r| == |js| && forall k :: 0 <= k < |js| ==> r[k] == if k in started then Started(js[k], now) else js[k]
  {
    seq(|js|, k requires 0 <= k < |js| => if k in started then Started(js[k], now) else js[k])
  }

  lemma IndicesSnoc(cs: seq<Candidate>, k: int)
    requires 0 <= k < |cs|
    ensures Indices(cs[..k + 1]) == Indices(cs[..k]) + {cs[k].index}
  {
    assert cs[..k + 1] == cs[..k] + [cs[k]];
  }

  /** Starting one more job updates that job alone; starting it twice is
      the same as once. */
  lemma StartStep(js: seq<MockJob>, started: set<int>, i: int, now: int)
    requires 0 <= i < |js|
    ensures StartAll(js, started + {i}, now) == StartAll(js, started, now)[i := Started(StartAll(js, started, now)[i], now)]
  {
  }

  function Min(a: int, b: int): (m: int)
    ensures m <= a && m <= b && (m == a || m == b)
  {
    if a <= b then a else b
  }

  /** The free slots after step 1. */
  function Slots(js: seq<MockJob>, now: int): int {
    MaxConcurrent - RunningCount(CompleteAll(js, now))
  }

  /** The PENDING candidates after step 1, highest score first. */
  function Order(js: seq<MockJob>, now: int): (r: seq<Candidate>)
    ensures multiset(r) == multiset(Candidates(CompleteAll(js, now), CompleteAll(js, now), now))
    ensures SortedDesc(r, CandidateAtLeast)
  {
    CandidateOrderIsTotal();
    var c := CompleteAll(js, now);
    SortDesc(Candidates(c, c, now), CandidateAtLeast)
  }

  /** The positions of the jobs that step 4 starts. */
  function StartedSet(js: seq<MockJob>, now: int): set<int> {
    var order := Order(js, now);
    var slots := Slots(js, now);
    if slots <= 0 then {} else Indices(order[..Min(slots, |order|)])
  }

  /** `process_jobs` on the listing `js` at time `now`. */
  function Tick(js: seq<MockJob>, now: int): seq<MockJob> {
    var c := CompleteAll(js, now);
    if Slots(js, now) <= 0 then c
    else StartAll(ScoreAll(c, c, now), StartedSet(js, now), now)
  }

  /** Every started job was PENDING after step 1, and at most `slots`
      jobs start. */
  lemma StartedArePending(js: seq<MockJob>, now: int)
    ensures forall i :: i in StartedSet(js, now) ==> 0 <= i < |js| && IsPending(CompleteAll(js, now)[i])
  {
    var c := CompleteAll(js, now);
    var order := Order(js, now);
    forall i | i in StartedSet(js, now)
      ensures 0 <= i < |js| && IsPending(c[i])
    {
      var m := Min(Slots(js, now), |order|);
      var p :| 0 <= p < m && order[..m][p].index == i;
      assert order[p] in multiset(Candidates(c, c, now));
    }
  }

  /** The tick is non-preemptive: a COMPLETED job is untouched, a RUNNING
      job stays RUNNING unless it is due, and a due job becomes COMPLETED
      at `now`. */
  lemma TickNonPreemptive(js: seq<MockJob>, now: int, k: int)
    requires 0 <= k < |js|
    ensures |Tick(js, now)| == |js|
    ensures js[k].status == Some("COMPLETED") ==> Tick(js, now)[k] == js[k]
    ensures IsRunning(js[k]) ==> Tick(js, now)[k] == Completed(js[k], now)
    ensures IsRunning(js[k]) ==> Tick(js, now)[k].status in {Some("RUNNING"), Some("COMPLETED")}
    ensures DueToComplete(js[k], now) ==>
              Tick(js, now)[k] == js[k].(status := Some("COMPLETED"), completedAt := Some(now))
  {
    StartedArePending(js, now);
  }

  /** The jobs that start are set RUNNING at `now` and every PENDING job
      that does not start keeps its status, with its score written in. */
  lemma TickStarts(js: seq<MockJob>, now: int, k: int)
    requires 0 <= k < |js| && Slots(js, now) > 0
    ensures k in StartedSet(js, now) ==> Tick(js, now)[k].status == Some("RUNNING") && Tick(js, now)[k].startedAt == Some(now)
    ensures var c := CompleteAll(js, now);
            IsPending(c[k]) ==> Tick(js, now)[k].priorityScore == Some(ComputePriority(c[k], c, now))
    ensures var c := CompleteAll(js, now);
            k !in StartedSet(js, now) ==> Tick(js, now)[k].status == c[k].status
  {
  }

  /** The jobs that start are the best-scoring PENDING ones: none left
      PENDING scores higher than one that starts. */
  lemma StartedAreBest(js: seq<MockJob>, now: int, p: int, q: int)
    requires var c := CompleteAll(js, now);
             0 <= p < |js| && 0 <= q < |js| && IsPending(c[q])
    requires p in StartedSet(js, now) && q !in StartedSet(js, now)
    ensures var c := CompleteAll(js, now);
            ComputePriority(c[p], c, now) >= ComputePriority(c[q], c, now)
  {
    var c := CompleteAll(js, now);
    var order := Order(js, now);
    var cands := Candidates(c, c, now);
    var slots := Slots(js, now);
    assert slots > 0;
    var m := Min(slots, |order|);
    assert StartedSet(js, now) == Indices(order[..m]);
    var cq := Candidate(q, ComputePriority(c[q], c, now));
    assert cq in cands;
    assert cq in multiset(order);
    PrefixBeatsRest(order, m, p, cq);
    var i :| 0 <= i < m && order[i].index == p && order[i].score >= cq.score;
    assert order[i] in multiset(cands);
  }

  /** In a list sorted by score, a job in the first `m` positions scores at
      least as high as any candidate outside them. */
  lemma PrefixBeatsRest(order: seq<Candidate>, m: int, p: int, cq: Candidate)
    requires SortedDesc(order, CandidateAtLeast) && 0 <= m <= |order|
    requires cq in multiset(order) && cq.index !in Indices(order[..m]) && p in Indices(order[..m])
    ensures exists i :: 0 <= i < m && order[i].index == p && order[i].score >= cq.score
  {
    var i :| 0 <= i < m && order[..m][i].index == p;
    var j :| 0 <= j < |order| && order[j] == cq;
    assert CandidateAtLeast(order[i], order[j]);
  }

  /** The sort is stable: PENDING jobs of equal score stay in listing
      order. */
  lemma OrderIsStable(js: seq<MockJob>, now: int)
    ensures var order := Order(js, now);
            forall i, j :: 0 <= i < j < |order| && order[i].score == order[j].score ==> order[i].index < order[j].index
  {
    CandidateOrderIsTotal();
    var c := CompleteAll(js, now);
    CandidatesKeepOrder(Candidates(c, c, now), Order(js, now));
  }

  lemma CandidatesKeepOrder(cands: seq<Candidate>, order: seq<Candidate>)
    requires TotalPreorder(CandidateAtLeast) && order == SortDesc(cands, CandidateAtLeast)
    requires forall p, q :: 0 <= p < q < |cands| ==> cands[p].index < cands[q].index
    ensures forall i, j :: 0 <= i < j < |order| && order[i].score == order[j].score ==> order[i].index < order[j].index
  {
    var position := (x: Candidate) => x.index as int;
    assert IncreasingBy(cands, position);
    SortDescKeepsOrder(cands, CandidateAtLeast, position);
    forall i, j | 0 <= i < j < |order| && order[i].score == order[j].score
      ensures order[i].index < order[j].index
    {
      assert Tied(order[i], order[j], CandidateAtLeast);
      assert position(order[i]) < position(order[j]);
    }
  }

  /** Positions in the candidate list name distinct jobs. */
  lemma OrderIndicesDistinct(js: seq<MockJob>, now: int)
    ensures forall i, j :: 0 <= i < j < |Order(js, now)| ==> Order(js, now)[i].index != Order(js, now)[j].index
  {
    var c := CompleteAll(js, now);
    PermutedIndicesDistinct(Candidates(c, c, now), Order(js, now));
  }

  lemma PermutedIndicesDistinct(cands: seq<Candidate>, order: seq<Candidate>)
    requires forall p, q :: 0 <= p < q < |cands| ==> cands[p].index < cands[q].index
    requires multiset(order) == multiset(cands)
    ensures forall i, j :: 0 <= i < j < |order| ==> order[i].index != order[j].index
  {
    assert Distinct(cands);
    PermutationKeepsDistinct(cands, order);
    forall i, j | 0 <= i < j < |order|
      ensures order[i].index != order[j].index
    {
      assert order[i] in multiset(cands) && order[j] in multiset(cands);
      var a :| 0 <= a < |cands| && cands[a] == order[i];
      var b :| 0 <= b < |cands| && cands[b] == order[j];
      assert a != b;
    }
  }

  lemma {:induction false} IndicesCount(cs: seq<Candidate>, m: int)
    requires 0 <= m <= |cs|
    requires forall i, j :: 0 <= i < j < |cs| ==> cs[i].index != cs[j].index
    ensures |Indices(cs[..m])| == m
  {
    if m > 0 {
      IndicesCount(cs, m - 1);
      IndicesSnoc(cs, m - 1);
      assert cs[m - 1].index !in Indices(cs[..m - 1]);
    }
  }

  lemma TickRunningSet(js: seq<MockJob>, now: int)
    requires Slots(js, now) > 0
    ensures RunningSet(Tick(js, now)) == RunningSet(CompleteAll(js, now)) + StartedSet(js, now)
    ensures RunningSet(CompleteAll(js, now)) * StartedSet(js, now) == {}
  {
    StartedArePending(js, now);
  }

  lemma StartedCount(js: seq<MockJob>, now: int)
    requires Slots(js, now) > 0
    ensures var c := CompleteAll(js, now);
            |StartedSet(js, now)| == Min(Slots(js, now), |Candidates(c, c, now)|)
  {
    var order := Order(js, now);
    var m := Min(Slots(js, now), |order|);
    OrderIndicesDistinct(js, now);
    IndicesCount(order, m);
  }

  /** After the tick the RUNNING jobs are those still RUNNING after step 1
      and exactly `min(slots, #PENDING)` newly started ones. */
  lemma TickRunningCount(js: seq<MockJob>, now: int)
    ensures var c := CompleteAll(js, now);
            Slots(js, now) > 0 ==>
              RunningCount(Tick(js, now)) == RunningCount(c) + Min(Slots(js, now), |Candidates(c, c, now)|)
    ensures Slots(js, now) <= 0 ==> Tick(js, now) == CompleteAll(js, now)
    ensures RunningCount(CompleteAll(js, now)) <= RunningCount(js)
  {
    var c := CompleteAll(js, now);
    assert RunningSet(c) <= RunningSet(js);
    assert RunningSet(js) == RunningSet(c) + (RunningSet(js) - RunningSet(c));
    if Slots(js, now) > 0 {
      TickRunningSet(js, now);
      StartedCount(js, now);
    }
  }

  /** At most two jobs run after a tick that started with at most two. */
  lemma TickKeepsConcurrencyBound(js: seq<MockJob>, now: int)
    requires RunningCount(js) <= MaxConcurrent
    ensures RunningCount(Tick(js, now)) <= MaxConcurrent
  {
    TickRunningCount(js, now);
  }

  /** Step 1 of `process_jobs`: RUNNING jobs due to finish become
      COMPLETED at `now`. */
  method CompleteDue(entries: array<MockJob>, now: int)
    modifies entries
    ensures entries[..] == CompleteAll(old(entries[..]), now)
  {
    for i := 0 to entries.Length
      invariant forall k :: 0 <= k < i ==> entries[k] == Completed(old(entries[k]), now)
      invariant forall k :: i <= k < entries.Length ==> entries[k] == old(entries[k])
    {
      var job := entries[i];
      if job.status != Some("RUNNING") {
        continue;
      }
      if job.startedAt.None? {
        continue;
      }
      if now - job.startedAt.value >= RunSeconds {
        entries[i] := job.(status := Some("COMPLETED"), completedAt := Some(now));
      }
    }
  }

  /** Step 3 of `process_jobs`: every PENDING job is scored against the
      listing `allJobs` and the score written into it; the PENDING jobs are
      returned in listing order with their scores. */
  method ScorePending(entries: array<MockJob>, allJobs: seq<MockJob>, now: int) returns (pending: seq<Candidate>)
    requires entries[..] == allJobs
    modifies entries
    ensures pending == Candidates(allJobs, allJobs, now)
    ensures entries[..] == ScoreAll(allJobs, allJobs, now)
  {
    pending := [];
    for i := 0 to entries.Length
      invariant pending == Candidates(allJobs[..i], allJobs, now)
      invariant forall k :: 0 <= k < i ==> entries[k] == Scored(allJobs[k], allJobs, now)
      invariant forall k :: i <= k < entries.Length ==> entries[k] == allJobs[k]
    {
      assert allJobs[..i + 1][..i] == allJobs[..i];
      if entries[i].status == Some("PENDING") {
        var score := ComputePriority(entries[i], allJobs, now);
        entries[i] := entries[i].(priorityScore := Some(score));
        pending := pending + [Candidate(i, score)];
      }
    }
    assert allJobs[..entries.Length] == allJobs;
  }

  /** Step 4 of `process_jobs`: the first `slots` jobs of `order` (all of
      them if fewer) are set RUNNING at `now`. */
  method StartBest(entries: array<MockJob>, order: seq<Candidate>, slots: int, now: int)
    requires slots > 0 && forall c :: c in order ==> c.index < entries.Length
    modifies entries
    ensures entries[..] == StartAll(old(entries[..]), Indices(order[..Min(slots, |order|)]), now)
  {
    ghost var scored := entries[..];
    var availableSlots := slots;
    var k := 0;
    while k < |order|
      invariant 0 <= k <= |order| && k <= slots
      invariant availableSlots == slots - k
      invariant entries[..] == StartAll(scored, Indices(order[..k]), now)
    {
      if availableSlots <= 0 {
        break;
      }
      var idx := order[k].index;
      StartStep(scored, Indices(order[..k]), idx, now);
      IndicesSnoc(order, k);
      entries[idx] := entries[idx].(status := Some("RUNNING"), startedAt := Some(now));
      availableSlots := availableSlots - 1;
      k := k + 1;
    }
    assert k == Min(slots, |order|);
  }

  lemma InRange(pending: seq<Candidate>, order: seq<Candidate>, n: int)
    requires multiset(order) == multiset(pending) && forall c :: c in pending ==> c.index < n
    ensures forall c :: c in order ==> c.index < n
  {
    forall c | c in order
      ensures c.index < n
    {
      assert c in multiset(pending);
    }
  }

  /** `process_jobs` over the loaded job records: only the completed and
      the started jobs change, the ones the source writes back. */
  method ProcessJobs(entries: array<MockJob>, now: int)
    modifies entries
    ensures entries[..] == Tick(old(entries[..]), now)
  {
    ghost var original := entries[..];
    // 1) RUNNING -> COMPLETED
    CompleteDue(entries, now);
    // 2) free slots
    var allJobs := entries[..];
    var runningCount := RunningCount(allJobs);
    var availableSlots := MaxConcurrent - runningCount;
    assert allJobs == CompleteAll(original, now) && availableSlots == Slots(original, now);
    if availableSlots <= 0 {
      return;
    }
    // 3) score the PENDING jobs, highest first
    var pending := ScorePending(entries, allJobs, now);
    CandidateOrderIsTotal();
    var order := SortDesc(pending, CandidateAtLeast);
    assert order == Order(original, now);
    InRange(pending, order, entries.Length);
    // 4) start the best ones, non-preemptively
    StartBest(entries, order, availableSlots, now);
    assert Indices(order[..Min(availableSlots, |order|)]) == StartedSet(original, now);
  }
}
