/** The process runner (process_runner.py): the child's environment, its
    log file and its command line. Spawning itself is the OS's business: the
    pid it hands back, or its failure, is a parameter. */
module ProcessRunner {
  import opened Wrappers
  import opened Text
  import opened Dirs

  /** What `subprocess.Popen` is asked to run. */
  datatype Process = Process(
    pid: int,
    argv: seq<string>,
    env: map<string, string>,
    logPath: Path,
    stderrToLog: bool)

  /** The environment of a child bound to `gpu`: the parent's, with device
      ordering and visibility pinned when a device is given. */
  method ChildEnv(parent: map<string, string>, gpu: Option<int>) returns (env: map<string, string>)
    ensures gpu.None? ==> env == parent
    ensures gpu.Some? ==> env.Keys == parent.Keys + {"CUDA_DEVICE_ORDER", "CUDA_VISIBLE_DEVICES"}
    ensures gpu.Some? ==> env["CUDA_DEVICE_ORDER"] == "PCI_BUS_ID"
    ensures gpu.Some? ==> env["CUDA_VISIBLE_DEVICES"] == IntToString(gpu.value)
    ensures forall v :: v in parent && v != "CUDA_DEVICE_ORDER" && v != "CUDA_VISIBLE_DEVICES" ==>
              v in env && env[v] == parent[v]
  {
    env := parent;
    if gpu.Some? {
      env := env["CUDA_DEVICE_ORDER" := "PCI_BUS_ID"];
      env := env["CUDA_VISIBLE_DEVICES" := IntToString(gpu.value)];
    }
  }

  /** `logs_dir / f"{job_id}.log"`. */
  function LogPath(logsDir: string, jobId: string): (p: Path)
    ensures p.dir == logsDir && p.name == jobId + ".log"
  {
    Path(logsDir, jobId + ".log")
  }

  /** `["python", str(script_path)]`. */
  function Command(scriptPath: Path): (argv: seq<string>)
    ensures |argv| == 2 && argv[0] == "python" && argv[1] == PathString(scriptPath)
  {
    ["python", PathString(scriptPath)]
  }

  class ProcessRunner {
    const logsDir: string
    /** Log files this runner opened, with what they hold when opened. */
    var logs: map<Path, string>

    constructor (logsDir: string)
      ensures this.logsDir == logsDir && logs == map[]
    {
      this.logsDir := logsDir;
      logs := map[];
    }

    /** `start_process`: opens (truncating) the job's log, then spawns
        `python <script>` with stdout and stderr both going to it.
        `spawned` is the pid the OS assigned, or `None` when `Popen` raised. */
    method StartProcess(scriptPath: Path, jobId: string, gpu: Option<int>,
                        parentEnv: map<string, string>, spawned: Option<int>)
      returns (proc: Option<Process>)
      modifies this
      ensures logs == old(logs)[LogPath(logsDir, jobId) := ""]
      ensures spawned.None? <==> proc.None?
      ensures proc.Some? ==> && proc.value.pid == spawned.value
                             && proc.value.argv == Command(scriptPath)
                             && proc.value.logPath == LogPath(logsDir, jobId)
                             && proc.value.stderrToLog
                             && (gpu.None? ==> proc.value.env == parentEnv)
                             && (gpu.Some? ==> (proc.value.env ==
                                   parentEnv["CUDA_DEVICE_ORDER" := "PCI_BUS_ID"]["CUDA_VISIBLE_DEVICES" := IntToString(gpu.value)]))
    {
      var env := ChildEnv(parentEnv, gpu);
      var logPath := LogPath(logsDir, jobId);
      logs := logs[logPath := ""];
      if spawned.None? {
        return None;
      }
      proc := Some(Process(spawned.value, Command(scriptPath), env, logPath, true));
    }
  }
}
