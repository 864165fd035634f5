/** The in-memory job store both schedulers use (`InMemoryJobStore` in
    scheduler.py and scheduler_original.py): a dictionary from job id to
    job. Like a Python dict it remembers the order in which ids were first
    inserted; writing an existing id replaces the job in place. */
module JobStores {
  import opened Wrappers

  /** The jobs stored under `ids`, in that order. */
  function Values<J>(ids: seq<string>, jobs: map<string, J>): (r: seq<J>)
    requires forall i :: 0 <= i < |ids| ==> ids[i] in jobs
    ensures |r| == |ids|
    ensures forall i :: 0 <= i < |ids| ==> r[i] == jobs[ids[i]]
  {
    if ids == [] then [] else [jobs[ids[0]]] + Values(ids[1..], jobs)
  }

  /** A listing that agrees with the stored jobs position by position is
      `Values`. */
  lemma ListingIsValues<J>(r: seq<J>, ids: seq<string>, jobs: map<string, J>)
    requires forall i :: 0 <= i < |ids| ==> ids[i] in jobs
    requires |r| == |ids| && forall i :: 0 <= i < |ids| ==> r[i] == jobs[ids[i]]
    ensures r == Values(ids, jobs)
  {
  }

  /** Writing a key twice leaves the second value. */
  lemma OverwriteTwice<J>(m: map<string, J>, k: string, a: J, b: J)
    ensures m[k := a][k := b] == m[k := b]
  {
  }

  class JobStore<J> {
    /** Ids in first-insertion order. */
    var ids: seq<string>
    var jobs: map<string, J>

    ghost predicate Valid()
      reads this
    {
      && (forall i, j :: 0 <= i < j < |ids| ==> ids[i] != ids[j])
      && (forall id :: id in jobs <==> id in ids)
    }

    constructor ()
      ensures Valid() && ids == [] && jobs == map[]
    {
      ids := [];
      jobs := map[];
    }

    /** `self._jobs[job.id] = job`: the entry for `id` is (re)placed; a new id
        goes to the end of the order, a known one keeps its position. */
    method AddJob(id: string, job: J)
      requires Valid()
      modifies this
      ensures Valid()
      ensures jobs == old(jobs)[id := job]
      ensures ids == if id in old(jobs) then old(ids) else old(ids) + [id]
    {
      if id !in jobs {
        ids := ids + [id];
      }
      jobs := jobs[id := job];
    }

    /** `update_job` performs the same dictionary write as `add_job`; it
        keeps every other entry and the order of ids. */
    method UpdateJob(id: string, job: J)
      requires Valid()
      modifies this
      ensures Valid()
      ensures jobs == old(jobs)[id := job]
      ensures ids == if id in old(jobs) then old(ids) else old(ids) + [id]
      ensures id in jobs && jobs[id] == job
      ensures forall other :: other != id ==>
                (other in jobs <==> other in old(jobs)) && (other in jobs ==> jobs[other] == old(jobs)[other])
      ensures id in old(jobs) ==> ids == old(ids)
    {
      AddJob(id, job);
    }

    /** `list(self._jobs.values())`. */
    method ListJobs() returns (r: seq<J>)
      requires Valid()
      ensures |r| == |ids|
      ensures forall i :: 0 <= i < |ids| ==> r[i] == jobs[ids[i]]
    {
      r := Values(ids, jobs);
    }

    /** `self._jobs.get(job_id)`. */
    method GetJob(id: string) returns (r: Option<J>)
      ensures r.Some? <==> id in jobs
      ensures r.Some? ==> r.value == jobs[id]
    {
      if id in jobs {
        r := Some(jobs[id]);
      } else {
        r := None;
      }
    }
  }
}
