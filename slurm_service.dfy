/** The web back-end's interface to the mock SLURM container
    (slurm_service.py): the `sbatch` command line, the parsing of its
    reply, and job lookup in the prioritised `squeue` listing. Running the
    command is outside the model: its outcome is a parameter. */
module SlurmService {
  import opened Wrappers
  import opened Text
  import PE = PriorityEngine
  import S = Scheduler

  const Container: string := "slurm-mock"
  /** The script path passed to the mock `sbatch`. */
  const DummyScript: string := "/tmp/script.sh"
  const SubmittedMarker: string := "Submitted batch job"

  predicate HasPrefix(s: string, p: string) {
    |p| <= |s| && s[..|p|] == p
  }

  /** The `sbatch` command line of `submit_job`, built by appending. */
  method SbatchArgv(jobName: string, qos: string, userName: string, gpuCount: int, partition: string, vramGb: int)
    returns (cmd: seq<string>)
    ensures |cmd| == if qos != "" then 11 else 10
    ensures cmd[..9] == ["docker", "exec", Container, "sbatch",
                         "--job-name=" + jobName, "--user=" + userName, "--partition=" + partition,
                         "--gpus=" + IntToString(gpuCount), "--comment=vram:" + IntToString(vramGb)]
    ensures qos != "" ==> cmd[9] == "--qos=" + qos
    ensures cmd[|cmd| - 1] == DummyScript
    ensures (exists i :: 0 <= i < |cmd| && HasPrefix(cmd[i], "--qos=")) <==> qos != ""
  {
    cmd := [
      "docker", "exec", Container, "sbatch",
      "--job-name=" + jobName,
      "--user=" + userName,
      "--partition=" + partition,
      "--gpus=" + IntToString(gpuCount),
      "--comment=vram:" + IntToString(vramGb)
    ];
    if qos != "" {
      cmd := cmd + ["--qos=" + qos];
    }
    cmd := cmd + [DummyScript];
    forall i | 0 <= i < |cmd| && (qos == "" || i != 9)
      ensures !HasPrefix(cmd[i], "--qos=")
    {
      assert |cmd[i]| < 6 || cmd[i][..6] != "--qos=" by {
        if 4 <= i <= 8 {
          assert cmd[i][2] != 'q';
        } else if i < 4 {
          assert cmd[i][0] != '-';
        } else {
          assert cmd[i] == DummyScript;
          assert cmd[i][0] != '-';
        }
      }
    }
    if qos != "" {
      assert HasPrefix(cmd[9], "--qos=");
    }
  }

  /** The reply `submit_job` returns. */
  datatype Submission = Submission(jobId: string, message: string, status: string)

  datatype SubmitError =
    | SbatchFailed(stderr: string)      // the command exited with an error (RuntimeError)
    | UnexpectedOutput(output: string)  // the reply lacks the marker (ValueError)

  /** The reply of `sbatch`, stripped, must contain "Submitted batch job";
      the job id is its last white-space separated word. */
  function ParseSbatchOutput(stdout: string): (r: Result<Submission, SubmitError>)
    ensures var output := Strip(Python, stdout);
            r.Success? <==> IsSubstring(SubmittedMarker, output)
    ensures var output := Strip(Python, stdout);
            r.Failure? ==> r.error == UnexpectedOutput(output)
    ensures var output := Strip(Python, stdout);
            r.Success? ==> && r.value.message == output && r.value.status == "submitted"
                           && r.value.jobId != [] && NoSpace(Python, r.value.jobId)
                           && |r.value.jobId| <= |output| && r.value.jobId == output[|output| - |r.value.jobId|..]
                           && (|r.value.jobId| == |output| || IsSpace(Python, output[|output| - |r.value.jobId| - 1]))
  {
    var output := Strip(Python, stdout);
    if Contains(output, SubmittedMarker) then
      assert output != [] && !IsSpace(Python, output[|output| - 1]) by {
        var occurrence :| OccursAt(SubmittedMarker, output, occurrence);
        StripIsStripped(Python, stdout);
      }
      LastWordIsTrailingRun(output);
      var words := Words(output);
      Success(Submission(words[|words| - 1], output, "submitted"))
    else
      Failure(UnexpectedOutput(output))
  }

  /** `submit_job`: the command line, and the reply given the outcome of
      running it (`Failure(stderr)` when it exits with an error). */
  method SubmitJob(jobName: string, qos: string, userName: string, gpuCount: int, partition: string, vramGb: int,
                   ran: Result<string, string>)
    returns (cmd: seq<string>, r: Result<Submission, SubmitError>)
    ensures |cmd| == if qos != "" then 11 else 10
    ensures cmd[..9] == ["docker", "exec", Container, "sbatch",
                         "--job-name=" + jobName, "--user=" + userName, "--partition=" + partition,
                         "--gpus=" + IntToString(gpuCount), "--comment=vram:" + IntToString(vramGb)]
    ensures qos != "" ==> cmd[9] == "--qos=" + qos
    ensures cmd[|cmd| - 1] == DummyScript
    ensures (exists i :: 0 <= i < |cmd| && HasPrefix(cmd[i], "--qos=")) <==> qos != ""
    ensures ran.Failure? ==> r == Failure(SbatchFailed(ran.error))
    ensures ran.Success? ==> r == ParseSbatchOutput(ran.value)
  {
    cmd := SbatchArgv(jobName, qos, userName, gpuCount, partition, vramGb);
    match ran
    case Failure(stderr) =>
      r := Failure(SbatchFailed(stderr));
    case Success(stdout) =>
      r := ParseSbatchOutput(stdout);
  }

  /** `get_jobs`: the decoded `squeue` listing put in priority order. */
  method GetJobs(engine: PE.PriorityEngine, squeue: seq<PE.JobRecord>, now: int) returns (jobs: seq<PE.JobRecord>, ghost annotated: seq<PE.JobRecord>)
    requires S.NonNegative(engine.tracker.usage)
    requires forall k :: 0 <= k < |squeue| ==> PE.Sane(squeue[k])
    modifies engine, engine.tracker
    ensures PE.UsageState(engine.tracker.usage, engine.processedJobIds)
            == PE.Replay(PE.UsageState(old(engine.tracker.usage), old(engine.processedJobIds)), squeue)
    ensures annotated == PE.AnnotateAll(PE.UsageState(old(engine.tracker.usage), old(engine.processedJobIds)), squeue, now)
    ensures jobs == PE.Arrange(annotated)
  {
    jobs, annotated := engine.SortJobsByPriority(squeue, now);
  }

  /** The loop of `get_job`: the first job of the listing whose id is
      `jobId`, if any. */
  method FindJob(jobs: seq<PE.JobRecord>, jobId: string) returns (r: Option<PE.JobRecord>)
    ensures r.None? <==> forall k :: 0 <= k < |jobs| ==> jobs[k].jobId != Some(jobId)
    ensures r.Some? ==> exists k :: && 0 <= k < |jobs| && jobs[k] == r.value && r.value.jobId == Some(jobId)
                                    && forall m :: 0 <= m < k ==> jobs[m].jobId != Some(jobId)
  {
    for i := 0 to |jobs|
      invariant forall m :: 0 <= m < i ==> jobs[m].jobId != Some(jobId)
    {
      if jobs[i].jobId == Some(jobId) {
        return Some(jobs[i]);
      }
    }
    return None;
  }

  /** `get_job`: look the id up in the prioritised listing. */
  method GetJob(engine: PE.PriorityEngine, squeue: seq<PE.JobRecord>, now: int, jobId: string) returns (r: Option<PE.JobRecord>)
    requires S.NonNegative(engine.tracker.usage)
    requires forall k :: 0 <= k < |squeue| ==> PE.Sane(squeue[k])
    modifies engine, engine.tracker
    ensures PE.UsageState(engine.tracker.usage, engine.processedJobIds)
            == PE.Replay(PE.UsageState(old(engine.tracker.usage), old(engine.processedJobIds)), squeue)
    ensures var listing := PE.Arrange(PE.AnnotateAll(PE.UsageState(old(engine.tracker.usage), old(engine.processedJobIds)), squeue, now));
            r.None? <==> forall k :: 0 <= k < |listing| ==> listing[k].jobId != Some(jobId)
    ensures var listing := PE.Arrange(PE.AnnotateAll(PE.UsageState(old(engine.tracker.usage), old(engine.processedJobIds)), squeue, now));
            r.Some? ==> exists k :: && 0 <= k < |listing| && listing[k] == r.value && r.value.jobId == Some(jobId)
                                    && forall m :: 0 <= m < k ==> listing[m].jobId != Some(jobId)
  {
    var jobs, annotated := GetJobs(engine, squeue, now);
    r := FindJob(jobs, jobId);
  }
}
