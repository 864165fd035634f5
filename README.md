# GPU job scheduling, modelled in Dafny

This project models the scheduling core of a small GPU cluster service and
proves properties of that model. The service has three cooperating parts.

- **The fastgpu-style engine** (`gpu-scheduler/gpu_scheduler`).
  - Users submit Python scripts. A script is moved into `to_run/` under a
    collision-free name and stored as a QUEUED job.
  - On each loop iteration the engine rescores every QUEUED job with a
    SLURM-like multi-factor priority. It picks the best job and launches it
    on the first GPU that fits.
  - When the process exits, the job is charged to its user's fair-share
    usage and moved to `complete/` or `fail/`.
  - `scheduler_original.py` is the earlier engine. It uses a linear
    priority and also treats HELD jobs as eligible.
- **The mock-SLURM side** (`app/services`, `docker/slurm-mock`).
  - A priority engine scores `squeue` listings, charges completed jobs once,
    and orders the listing: RUNNING, then PENDING by score, then COMPLETED
    by completion time, then the rest.
  - The mock `sbatch` daemon completes RUNNING jobs after 30 s. It fills at
    most two concurrent slots with the best PENDING jobs.
  - The service builds the `sbatch` command line and parses its reply.
- **Helpers.**
  - The Java authentication server: form bodies, cookies, JSON escaping,
    sign-up, login and the auth check.
  - The assistant service's prompt and source-list helpers.
  - The two document-ingestion scripts, which turn pages or files into
    numbered chunks.

Each source file is one Dafny module:

| module | file |
|---|---|
| `Scheduler` | `scheduler.dfy` |
| `SchedulerOriginal` | `scheduler_original.dfy` |
| `Dirs` | `dirs.dfy` |
| `GpuMonitor` | `gpu_monitor.dfy` |
| `ProcessRunner` | `process_runner.dfy` |
| `PriorityEngine` | `priority_engine.dfy` |
| `JobManager` | `job_manager.dfy` |
| `SlurmService` | `slurm_service.dfy` |
| `AssistantService` | `assistant_service.dfy` |
| `AuthServer` | `auth_server.dfy` |
| `IngestPaper` | `ingest_paper.dfy` |
| `IngestIsaacLab` | `ingest_isaaclab.dfy` |

Shared helpers live in their own modules:

| module | contents |
|---|---|
| `Wrappers` | `Option`, `Result` |
| `Text` | Python `strip`/`split` over the characters `str.isspace` accepts, Java `trim`, and `lower` on ASCII letters |
| `Sorting` | the stable descending sort used for Python's `sort(reverse=True)`, with its stability proved |
| `JobStores` | the in-memory job dictionary shared by both engines |

Conventions:

- Time is an integer number of seconds passed in as `now`.
- Priority scores are `real`.
- The filesystem is a map from directory name to the set of file names in
  it.

Anything the source gets from outside is a parameter of the model:

| outside input | in the model |
|---|---|
| NVML driver readings | `readings` |
| PID from `Popen`, or its failure | `spawned` |
| outcome of running `sbatch` | `ran` |
| UUIDs | `jobId`, `sessionId` |
| BCrypt hash and check | `hash`, `checkpw` |
| JWT signing and verification | `token`, `verify` |
| `URLDecoder` | `decode` |
| text splitter | `split` |
| page and file texts | inputs |

Where the code and the design description differ, the model follows the
code:

- The engine launches at most one job per loop iteration. It keeps no
  running tally of the VRAM it has already handed out in that iteration.
- The virtual device `virtual-gpu-0` counts as busy while any job is
  RUNNING.
- The mock daemon completes jobs after 30 s, although its docstring says
  10 s.
- The original engine's default VRAM request is `2 * 1024**9` bytes. See
  Findings.

## Model

| member | source | states |
|---|---|---|
| Scheduler.AgeFactor | gpu-scheduler/gpu_scheduler/scheduler.py:175-176 | The age factor is at most 1, non-negative for a non-negative wait, and exactly 1 once the wait reaches one week. |
| Scheduler.FairShareFactor | gpu-scheduler/gpu_scheduler/scheduler.py:180-181 | With a positive normaliser and non-negative usage, the fair-share factor lies in (0,1]. It is 1 for a user with no usage. |
| Scheduler.SizeFactor | gpu-scheduler/gpu_scheduler/scheduler.py:185-186 | The size factor is at most 1, non-negative for a non-negative request, and 1 from the reference VRAM upwards. |
| Scheduler.TableFactor | gpu-scheduler/gpu_scheduler/scheduler.py:189-192 | A known partition or QoS name gets its table value. An unknown one gets 0.5 instead of an error. |
| Scheduler.DefaultConfigWellFormed | gpu-scheduler/gpu_scheduler/scheduler.py:18-46 | The default weights, tables and normalisers are within their ranges, and the weights sum to 13500. |
| Scheduler.PriorityBounds | gpu-scheduler/gpu_scheduler/scheduler.py:169-201 | With non-negative usage, wait and VRAM, the priority is strictly positive and at most the sum of the weights. |
| Scheduler.PriorityMonotoneInWait | gpu-scheduler/gpu_scheduler/scheduler.py:175-201 | A later `now` never lowers a job's priority. |
| Scheduler.PriorityAntitoneInUsage | gpu-scheduler/gpu_scheduler/scheduler.py:180-201 | More recorded usage never raises a job's priority. |
| Scheduler.UnknownNamesScoreAsDefaults | gpu-scheduler/gpu_scheduler/scheduler.py:189-201 | A job with unknown partition and QoS scores as if both factors were 0.5. |
| Scheduler.UsageOf | gpu-scheduler/gpu_scheduler/scheduler.py:90-92 | A user's usage is their entry, or 0 for an unknown user. It is non-negative when every entry is. |
| Scheduler.UsageTracker.constructor | gpu-scheduler/gpu_scheduler/scheduler.py:79-82 | The tracker starts with no usage. |
| Scheduler.UsageTracker.AddUsage | gpu-scheduler/gpu_scheduler/scheduler.py:84-88 | Only that user's entry changes. It grows by duration × gpu_count, starting from 0, and usage stays non-negative. |
| Scheduler.UsageTracker.GetUsage | gpu-scheduler/gpu_scheduler/scheduler.py:90-92 | Returns the user's usage, or 0 when there is none. |
| Scheduler.RescoredQueuedFrom | gpu-scheduler/gpu_scheduler/scheduler.py:218-226 | Every candidate is the rescored copy of some QUEUED job in the listing. |
| Scheduler.RescoredQueuedHas | gpu-scheduler/gpu_scheduler/scheduler.py:218-226 | Every QUEUED job of the listing is among the candidates, rescored. |
| Scheduler.CandidatesAreStored | gpu-scheduler/gpu_scheduler/scheduler.py:218-226 | After the rescoring loop, each stored QUEUED job carries its fresh priority and every other job is unchanged. The candidates are exactly the stored QUEUED jobs. |
| Scheduler.HighestScore | gpu-scheduler/gpu_scheduler/scheduler.py:229-230 | The result is one of the candidates, and no candidate scores above it. |
| Scheduler.HighestScoreIsFirst | gpu-scheduler/gpu_scheduler/scheduler.py:229-230 | Every candidate listed before the result scores strictly lower than it. Ties therefore go to the earliest candidate, as Python's stable sort gives. |
| Scheduler.FirstFitGpu | gpu-scheduler/gpu_scheduler/scheduler.py:233-256 | The result is the first device in list order that is healthy, has enough free memory, has under 1 GiB in use, and is not the virtual device while a job runs. The result is None iff there is no such device. |
| Scheduler.GpuScheduler.constructor | gpu-scheduler/gpu_scheduler/scheduler.py:122-132 | The engine starts with an empty store, no usage and the default configuration. Its logs go to `out/`, and NVML availability is decided once. |
| Scheduler.GpuScheduler.SubmitJob | gpu-scheduler/gpu_scheduler/scheduler.py:134-158 | Submission succeeds iff the script exists. The script is moved to the first free `<id>.py` name in `to_run/`. The job is stored QUEUED with no GPU, no pid and score 0.0, and a failed move leaves the store unchanged. |
| Scheduler.GpuScheduler.RescoreQueued | gpu-scheduler/gpu_scheduler/scheduler.py:218-226 | Each stored QUEUED job gets its fresh priority written back, and every other job is unchanged. The candidates are exactly the stored QUEUED jobs, rescored, in store order. |
| Scheduler.GpuScheduler.RescoreAt | gpu-scheduler/gpu_scheduler/scheduler.py:218-226 | One job of the pass: the ids and keys stay, the rescored part of the store grows by that job and the rest is untouched, and the job joins the candidates exactly when it is QUEUED. |
| Scheduler.GpuScheduler.PickNextJob | gpu-scheduler/gpu_scheduler/scheduler.py:215-230 | Returns None iff no job is QUEUED. Otherwise it returns a stored QUEUED job whose rescored priority is at least every other QUEUED job's, namely `Pick`: the `HighestScore` of the rescored QUEUED jobs in store order. |
| Scheduler.RescoredQueuedOrder | gpu-scheduler/gpu_scheduler/scheduler.py:217-226 | Each candidate is the rescoring of a QUEUED job at some store position, and every QUEUED job stored before it is among the earlier candidates. |
| Scheduler.PickIsFirstHighest | gpu-scheduler/gpu_scheduler/scheduler.py:215-230 | `Pick` is None iff no listed job is QUEUED. Otherwise it is the rescoring of a QUEUED job that no QUEUED job beats and that beats every QUEUED job listed before it, so ties go to the job listed first. |
| Scheduler.GpuScheduler.FindAvailableGpu | gpu-scheduler/gpu_scheduler/scheduler.py:233-256 | The first-fit choice over the monitor's listing, with the virtual device busy while any stored job is RUNNING. |
| Scheduler.GpuScheduler.LaunchJob | gpu-scheduler/gpu_scheduler/scheduler.py:258-278 | Without a fitting device, the job, the store and the directories are unchanged. Otherwise that job alone becomes RUNNING on the chosen GPU, its script moves to `running/`, and a started process sets its pid. |
| Scheduler.GpuScheduler.StartOnGpu | gpu-scheduler/gpu_scheduler/scheduler.py:263-278 | On a given GPU: a failed move leaves the store unchanged. Otherwise the job is RUNNING with that GPU, and the pid is set only if the process started. |
| Scheduler.GpuScheduler.Finalize | gpu-scheduler/gpu_scheduler/scheduler.py:280-298 | Exit code 0 gives COMPLETED and anything else gives FAILED. In both cases only that user's usage grows, by the run's duration. The script moves to `complete/` or `fail/`. |
| Scheduler.GpuScheduler.ChargeRun | gpu-scheduler/gpu_scheduler/scheduler.py:286-289 | Only that user's usage changes, growing by the run's duration, and all usage stays non-negative. |
| Scheduler.GpuScheduler.MoveFinished | gpu-scheduler/gpu_scheduler/scheduler.py:291-296 | Exit code 0 picks COMPLETED and `complete/`, anything else FAILED and `fail/`. The move succeeds iff the script exists, lands on a fresh name in that directory, and a failed move changes nothing. |
| Scheduler.GpuScheduler.Tick | gpu-scheduler/gpu_scheduler/scheduler.py:300-311 | The picked job is `Pick` over the listed jobs, so `PickIsFirstHighest` describes it: nothing is picked iff no job was QUEUED, otherwise the first QUEUED job of highest rescored priority. Only the picked job can become RUNNING, so at most one launch happens per iteration. Every other job is only rescored. |
| JobStores.Values | gpu-scheduler/gpu_scheduler/scheduler.py:108-110 | The listing holds the stored jobs in insertion order. |
| JobStores.JobStore.constructor | gpu-scheduler/gpu_scheduler/scheduler.py:99-102 | The store starts empty. |
| JobStores.JobStore.AddJob | gpu-scheduler/gpu_scheduler/scheduler.py:104-106 | The id maps to the job. A new id is appended to the insertion order, and an existing id keeps its place. |
| JobStores.JobStore.UpdateJob | gpu-scheduler/gpu_scheduler/scheduler_original.py:48-50 | Only the entry with that id is replaced. |
| JobStores.JobStore.ListJobs | gpu-scheduler/gpu_scheduler/scheduler.py:108-110 | Returns every stored job, in insertion order. |
| JobStores.JobStore.GetJob | gpu-scheduler/gpu_scheduler/scheduler_original.py:44-46 | Returns the job stored under the id, or None iff there is none; after `add_job` it is that job. |
| SchedulerOriginal.PriorityIncreasesWithWait | gpu-scheduler/gpu_scheduler/scheduler_original.py:101-116 | Priority strictly increases with wait time, by exactly 0.001 per second. |
| SchedulerOriginal.PriorityIncreasesWithUrgency | gpu-scheduler/gpu_scheduler/scheduler_original.py:110-115 | Higher urgency gives strictly higher priority. |
| SchedulerOriginal.PriorityNonIncreasingInVram | gpu-scheduler/gpu_scheduler/scheduler_original.py:110-115 | A larger VRAM request never raises priority. |
| SchedulerOriginal.RescoredEligibleFrom | gpu-scheduler/gpu_scheduler/scheduler_original.py:121-125 | Every candidate is a rescored QUEUED or HELD job of the listing. |
| SchedulerOriginal.RescoredEligibleHas | gpu-scheduler/gpu_scheduler/scheduler_original.py:121-125 | Every QUEUED or HELD job of the listing is a candidate. |
| SchedulerOriginal.CandidatesAreStored | gpu-scheduler/gpu_scheduler/scheduler_original.py:118-126 | After the loop, each stored QUEUED or HELD job carries its fresh score and every other job is unchanged. The candidates are exactly the stored QUEUED and HELD jobs. |
| SchedulerOriginal.HighestScore | gpu-scheduler/gpu_scheduler/scheduler_original.py:131-132 | The result is one of the candidates, and no candidate scores above it. |
| SchedulerOriginal.HighestScoreIsFirst | gpu-scheduler/gpu_scheduler/scheduler_original.py:131-132 | Every candidate listed before the result scores strictly lower than it. Ties therefore go to the earliest candidate, as Python's stable sort gives. |
| SchedulerOriginal.FirstFitGpu | gpu-scheduler/gpu_scheduler/scheduler_original.py:134-143 | The first healthy device with enough free memory and under 1 GiB in use, with no virtual-device rule. The result is None iff there is none. |
| SchedulerOriginal.DefaultAsWrittenNeverFits | gpu-scheduler/gpu_scheduler/scheduler_original.py:74 | No device smaller than `2 * 1024**9` bytes, the virtual 16 GiB device included, fits the default request as written. |
| SchedulerOriginal.DefaultAsWrittenNeverPlaced | gpu-scheduler/gpu_scheduler/scheduler_original.py:74 | On any device listing whose devices all have under 2^91 bytes, the virtual one included, the placement scan for the as-written default finds no device, so `LaunchJob` returns `NoGpu` for a job submitted without a request. |
| SchedulerOriginal.DefaultFits | gpu-scheduler/gpu_scheduler/scheduler_original.py:74 | The corrected 2 GiB default fits any healthy device with 2 GiB free and under 1 GiB used, including the virtual device. |
| SchedulerOriginal.DefaultIntendedPlaced | gpu-scheduler/gpu_scheduler/scheduler_original.py:74 | With the 2 GiB default, the placement scan always finds the virtual device, and finds a device whenever some device is healthy with 2 GiB free and under 1 GiB used. |
| SchedulerOriginal.GpuScheduler.constructor | gpu-scheduler/gpu_scheduler/scheduler_original.py:60-67 | The engine starts with an empty store, its logs go to `out/`, and NVML availability is fixed at construction. |
| SchedulerOriginal.GpuScheduler.SubmitJob | gpu-scheduler/gpu_scheduler/scheduler_original.py:69-93 | Submission succeeds iff the script exists. The job is stored QUEUED with default urgency 5 and, without a request, the as-written default of `2 * 1024**9` bytes; the script is moved to a free name in `to_run/`. |
| SchedulerOriginal.GpuScheduler.SubmitJobIntended | gpu-scheduler/gpu_scheduler/scheduler_original.py:69-93 | `submit_job` with the default corrected to 2 GiB: it succeeds iff the script exists and stores the QUEUED job with the request or 2 GiB. |
| SchedulerOriginal.GpuScheduler.RescoreEligible | gpu-scheduler/gpu_scheduler/scheduler_original.py:118-128 | Each stored QUEUED or HELD job gets its fresh score written back, and every other job is unchanged. The candidates are exactly those jobs, rescored, in store order. |
| SchedulerOriginal.GpuScheduler.RescoreAt | gpu-scheduler/gpu_scheduler/scheduler_original.py:118-128 | One job of the pass: the ids and keys stay, the rescored part of the store grows by that job and the rest is untouched, and the job joins the candidates exactly when it is QUEUED or HELD. |
| SchedulerOriginal.GpuScheduler.PickNextJob | gpu-scheduler/gpu_scheduler/scheduler_original.py:118-132 | None iff no job is QUEUED or HELD. Otherwise the result is an eligible stored job whose recomputed score is at least every other eligible job's, namely `Pick`: the `HighestScore` of the rescored eligible jobs in store order. |
| SchedulerOriginal.RescoredEligibleOrder | gpu-scheduler/gpu_scheduler/scheduler_original.py:119-128 | Each candidate is the rescoring of an eligible job at some store position, and every eligible job stored before it is among the earlier candidates. |
| SchedulerOriginal.PickIsFirstHighest | gpu-scheduler/gpu_scheduler/scheduler_original.py:118-132 | `Pick` is None iff no listed job is QUEUED or HELD. Otherwise it is the rescoring of an eligible job that no eligible job beats and that beats every eligible job listed before it, so ties go to the job listed first. |
| SchedulerOriginal.GpuScheduler.FindAvailableGpu | gpu-scheduler/gpu_scheduler/scheduler_original.py:134-143 | The first-fit choice over the monitor's listing. |
| SchedulerOriginal.GpuScheduler.StartOnGpu | gpu-scheduler/gpu_scheduler/scheduler_original.py:149-160 | On a given GPU the job becomes RUNNING with that GPU and its script moves to `running/`. The pid is set only when the process started, and a failed move leaves the store unchanged. |
| SchedulerOriginal.GpuScheduler.LaunchJob | gpu-scheduler/gpu_scheduler/scheduler_original.py:145-160 | If no device fits, the job and the store are unchanged. If one fits, the job becomes RUNNING on it. |
| SchedulerOriginal.GpuScheduler.Finish | gpu-scheduler/gpu_scheduler/scheduler_original.py:162-177 | Exit code 0 gives COMPLETED and anything else gives FAILED. The script moves from its running path to `complete/` or `fail/`. |
| SchedulerOriginal.GpuScheduler.Tick | gpu-scheduler/gpu_scheduler/scheduler_original.py:179-190 | The picked job is `Pick` over the listed jobs, so `PickIsFirstHighest` describes it: nothing is picked iff no job is eligible, otherwise the first eligible job of highest priority. Only the picked job changes beyond rescoring. |
| Dirs.ChildInjective | gpu-scheduler/gpu_scheduler/dirs.py:22-27 | Different names give different children of one directory. |
| Dirs.StatusDirsDistinct | gpu-scheduler/gpu_scheduler/dirs.py:22-27 | The five status directories are pairwise distinct. |
| Dirs.DirLayout.constructor | gpu-scheduler/gpu_scheduler/dirs.py:21-27 | The layout keeps the resolved root and the filesystem. |
| Dirs.DirLayout.GetDir | gpu-scheduler/gpu_scheduler/dirs.py:34-35 | `get_dir(status)` is the root's child of that status name. |
| Dirs.RFind | gpu-scheduler/gpu_scheduler/dirs.py:49 | `rfind` as `splitext` uses it: the index of the last occurrence of the character, or -1 when it does not occur. |
| Dirs.SplitExt | gpu-scheduler/gpu_scheduler/dirs.py:49 | The base followed by the extension gives back the name. The extension is empty, or one leading dot followed by neither a dot nor a slash. |
| Dirs.SplitExtAtLastDot | gpu-scheduler/gpu_scheduler/dirs.py:49 | A name whose last dot has a non-dot character before it in the last path component splits at that dot. |
| Dirs.CandidateOfScript | gpu-scheduler/gpu_scheduler/dirs.py:49-53 | For a job script `<id>.py` with a dot-free id, the k-th retry name is `<id>_k.py`. |
| Dirs.ProbeBound | gpu-scheduler/gpu_scheduler/dirs.py:50-53 | A taken probe number is below 10 to the power of the longest name's length, so the probe loop ends. |
| Dirs.FirstFreeName | gpu-scheduler/gpu_scheduler/dirs.py:48-53 | Returns the requested name if it is free. Otherwise it returns `{base}_{k}{ext}` for the smallest k ≥ 1 that is free. |
| Dirs.WithDir | gpu-scheduler/gpu_scheduler/dirs.py:43 | Creating the destination adds it, empty, only when it is missing. Every other directory is kept. |
| Dirs.Moved | gpu-scheduler/gpu_scheduler/dirs.py:55-56 | After the move, the source name is gone, the target name exists, and no other entry of any directory changes. |
| Dirs.DirLayout.SafeRename | gpu-scheduler/gpu_scheduler/dirs.py:37-56 | Succeeds iff the source exists. The target is the first free probe name, which did not exist before, and the directories are changed exactly by the move. |
| GpuMonitor.Listing | gpu-scheduler/gpu_scheduler/gpu_monitor.py:46-94 | Without NVML, exactly one device: `virtual-gpu-0`, id 0, 16 GiB, healthy. With NVML, one entry per reading in order, with the id equal to the index, memory copied unchanged, and healthy iff the temperature is unknown or below 85. |
| GpuMonitor.GpuMonitor.constructor | gpu-scheduler/gpu_scheduler/gpu_monitor.py:30-37 | NVML is available iff both the import and the init succeed. |
| GpuMonitor.GpuMonitor.ListGpus | gpu-scheduler/gpu_scheduler/gpu_monitor.py:46-94 | The per-device loop builds exactly the listing. |
| ProcessRunner.ChildEnv | gpu-scheduler/gpu_scheduler/process_runner.py:25-30 | Without a GPU the env equals the parent's. With one, `CUDA_DEVICE_ORDER=PCI_BUS_ID` and `CUDA_VISIBLE_DEVICES=<decimal id>` are set, and every other variable is copied unchanged. |
| ProcessRunner.LogPath | gpu-scheduler/gpu_scheduler/process_runner.py:32-33 | The log is `<logs_dir>/<job_id>.log`. |
| ProcessRunner.Command | gpu-scheduler/gpu_scheduler/process_runner.py:36-42 | The argv is exactly `python <script>`. |
| ProcessRunner.ProcessRunner.constructor | gpu-scheduler/gpu_scheduler/process_runner.py:15-17 | The runner keeps its logs directory. |
| ProcessRunner.ProcessRunner.StartProcess | gpu-scheduler/gpu_scheduler/process_runner.py:19-43 | The log file is created empty before the spawn. There is a process iff the spawn succeeded, and it has the given pid, argv, env and log. |
| PriorityEngine.Normalised | app/services/priority_engine.py:93-94 | A present name is lowercased and a missing one is replaced by the lowercased default. When the lowercased result is empty, the default is used as written. A non-empty default never gives an empty name. |
| PriorityEngine.SizeFactor | app/services/priority_engine.py:121 | The size factor is at most 1, non-negative for a non-negative request, and 1 from 80 GB upwards. |
| PriorityEngine.PartitionFactor | app/services/priority_engine.py:123-124 | The partition score lies in [0, 1], whatever the name. |
| PriorityEngine.QosFactor | app/services/priority_engine.py:126-127 | The QoS score lies in [0, 1], whatever the name. |
| PriorityEngine.PriorityBounds | app/services/priority_engine.py:86-136 | With non-negative wait, usage and VRAM, the priority is strictly positive and at most 22500. |
| PriorityEngine.PriorityMonotoneInWait | app/services/priority_engine.py:98-136 | A later `now` never lowers the priority. |
| PriorityEngine.PriorityAntitoneInUsage | app/services/priority_engine.py:113-136 | More usage never raises the priority. |
| PriorityEngine.NamesAreNormalised | app/services/priority_engine.py:86-127 | Names differing only in case score the same. Unknown names score 0.5 for both factors. |
| PriorityEngine.Recorded | app/services/priority_engine.py:63-67 | `record_usage` changes only that user's entry, creating it from 0, and raises it by exactly VRAM × duration / 3600, whether or not the user was known. |
| PriorityEngine.UsageTracker.constructor | app/services/priority_engine.py:42-44 | The tracker starts from the loaded usage. |
| PriorityEngine.UsageTracker.GetUsage | app/services/priority_engine.py:60-61 | Returns the user's usage, or 0 when there is none. |
| PriorityEngine.UsageTracker.RecordUsage | app/services/priority_engine.py:63-68 | The tracker's usage becomes the recorded map and stays non-negative. |
| PriorityEngine.UsageTracker.DecayUsage | app/services/priority_engine.py:70-74 | Every user's usage is multiplied by the factor, and the set of users is kept. |
| PriorityEngine.DecayShrinks | app/services/priority_engine.py:70-74 | A factor in [0,1] keeps usage non-negative and never increases it. |
| PriorityEngine.ReplayProcessed | app/services/priority_engine.py:155-195 | The processed set only grows, and every new id is that of a COMPLETED job in the listing. |
| PriorityEngine.ChargedAtMostOnce | app/services/priority_engine.py:179-195 | An already processed job charges nothing. Charging marks the job processed, and processing the same job twice equals processing it once. |
| PriorityEngine.ReplayNonNegative | app/services/priority_engine.py:179-195 | Charging well-formed jobs keeps all usage non-negative. |
| PriorityEngine.SelectPartition | app/services/priority_engine.py:197-204 | The four status groups together hold exactly the listing's jobs. |
| PriorityEngine.AppendToGroup | app/services/priority_engine.py:197-204 | The job joins exactly the list of its status group (RUNNING, PENDING, COMPLETED, or any other status), and the other three lists are unchanged. |
| PriorityEngine.Annotated | app/services/priority_engine.py:174-175 | Annotating only sets `priority_score`, and always sets it. |
| PriorityEngine.AnnotateAllAt | app/services/priority_engine.py:169-195 | Each job is scored with the usage after charging the jobs before it. |
| PriorityEngine.ArrangeIsGrouping | app/services/priority_engine.py:197-212 | The output is a permutation of the input. It holds RUNNING jobs in input order, then PENDING by non-increasing score, then COMPLETED by non-increasing `completed_at`, then the rest in input order. PENDING jobs of equal score, and COMPLETED jobs of equal `completed_at`, keep their input order. |
| PriorityEngine.PriorityEngine.constructor | app/services/priority_engine.py:152-155 | The engine starts with no processed ids. |
| PriorityEngine.PriorityEngine.ChargeIfNewlyCompleted | app/services/priority_engine.py:179-195 | A COMPLETED job with both timestamps and an unseen id charges its user and is recorded as processed. Otherwise nothing changes. |
| PriorityEngine.PriorityEngine.SortJobsByPriority | app/services/priority_engine.py:157-212 | The usage and processed set become the replay over the listing, every job is annotated, and the output is the grouped arrangement. |
| JobManager.ActiveCount | docker/slurm-mock/bin/job_manager.py:33-38 | Counts the user's PENDING and RUNNING jobs. It is 0 iff the user has none. |
| JobManager.FairFactor | docker/slurm-mock/bin/job_manager.py:33-39 | The factor is 1 / max(active, 1), in (0,1]. An empty user gives 1. |
| JobManager.AgeFactor | docker/slurm-mock/bin/job_manager.py:42-46 | The factor is the minutes waited. It is never negative, and 0 when the timestamp is unparseable or in the future. |
| JobManager.AnyKeyword | docker/slurm-mock/bin/job_manager.py:49-50 | True iff some keyword is a substring of the text. |
| JobManager.PhysFactor | docker/slurm-mock/bin/job_manager.py:48-50 | 1 iff one of the six physics keywords occurs in the lowercased `job_name + " " + script`, else 0. |
| JobManager.ResFactor | docker/slurm-mock/bin/job_manager.py:53 | The factor is 1 / max(gpu_count, 1), in (0,1]. |
| JobManager.HilFactor | docker/slurm-mock/bin/job_manager.py:56 | 1 iff the QoS is "hil" in any case, else 0. |
| JobManager.ComputePriority | docker/slurm-mock/bin/job_manager.py:30-61 | The score is strictly positive. |
| JobManager.HilAddsTen | docker/slurm-mock/bin/job_manager.py:55-61 | QoS "hil" in any case adds exactly 10 to the score. |
| JobManager.CompleteAll | docker/slurm-mock/bin/job_manager.py:99-113 | Step 1 applied to each job in place. |
| JobManager.Candidates | docker/slurm-mock/bin/job_manager.py:123-124 | The pending list holds exactly the PENDING jobs, with their scores and in listing order. |
| JobManager.Order | docker/slurm-mock/bin/job_manager.py:126 | The candidates sorted by non-increasing score, as a permutation. |
| JobManager.OrderIsStable | docker/slurm-mock/bin/job_manager.py:123-126 | PENDING jobs of equal score stay in listing order in the sorted candidate list. |
| JobManager.CandidatesKeepOrder | docker/slurm-mock/bin/job_manager.py:126 | Sorting candidates listed in position order keeps equal-score candidates in position order. |
| JobManager.StartedArePending | docker/slurm-mock/bin/job_manager.py:129-137 | Only jobs that are PENDING after step 1 are started. |
| JobManager.TickNonPreemptive | docker/slurm-mock/bin/job_manager.py:99-137 | No RUNNING job returns to PENDING, and COMPLETED jobs never change. A RUNNING job started at least 30 s ago becomes COMPLETED with `completed_at = now`. |
| JobManager.TickStarts | docker/slurm-mock/bin/job_manager.py:129-137 | A started job becomes RUNNING with `started_at = now`. Jobs that are not started keep their post-completion state. |
| JobManager.StartedAreBest | docker/slurm-mock/bin/job_manager.py:123-137 | Every started job scores at least as high as every PENDING job left waiting. |
| JobManager.OrderIndicesDistinct | docker/slurm-mock/bin/job_manager.py:123-126 | The sorted pending list names each job at most once. |
| JobManager.IndicesCount | docker/slurm-mock/bin/job_manager.py:129-137 | Taking the first m entries of the sorted list starts exactly m distinct jobs. |
| JobManager.TickRunningSet | docker/slurm-mock/bin/job_manager.py:116-137 | After the tick, RUNNING is the post-completion RUNNING set plus the started jobs, and these two sets are disjoint. |
| JobManager.TickRunningCount | docker/slurm-mock/bin/job_manager.py:99-137 | Exactly min(slots, #PENDING) jobs start. With no free slot nothing starts, and completion never raises the RUNNING count. |
| JobManager.TickKeepsConcurrencyBound | docker/slurm-mock/bin/job_manager.py:116-137 | If at most 2 jobs were RUNNING before the tick, at most 2 are RUNNING after it. |
| JobManager.CompleteDue | docker/slurm-mock/bin/job_manager.py:99-113 | The array loop performs step 1 on every entry. |
| JobManager.ScorePending | docker/slurm-mock/bin/job_manager.py:123-124 | The array loop scores every PENDING entry and collects exactly the candidates. |
| JobManager.StartBest | docker/slurm-mock/bin/job_manager.py:129-137 | The array loop starts exactly the first min(slots, #pending) jobs of the sorted list. |
| JobManager.ProcessJobs | docker/slurm-mock/bin/job_manager.py:85-137 | The entries after `process_jobs` are the tick of the entries before it. |
| SlurmService.SbatchArgv | app/services/slurm_service.py:25-38 | The argv starts `docker exec slurm-mock sbatch`, followed by the job-name, user, partition, gpus and `--comment=vram:N` flags. `--qos=` is present iff qos is non-empty, and it comes before the script. The last argument is `/tmp/script.sh`. |
| SlurmService.ParseSbatchOutput | app/services/slurm_service.py:49-58 | Succeeds iff the stripped output contains "Submitted batch job". The result is the last whitespace-separated word as `job_id`, the stripped output as message, and status "submitted". Any other output is rejected. |
| SlurmService.SubmitJob | app/services/slurm_service.py:18-61 | The command is `docker exec <container> sbatch` with the job-name, user, partition, gpus and `vram:` comment flags, then `--qos` exactly when a QoS is given, then the dummy script. A failing `sbatch` becomes a RuntimeError carrying stderr. Otherwise the reply is the parse of its output. |
| SlurmService.GetJobs | app/services/slurm_service.py:64-89 | The listing is the priority engine's annotated and grouped arrangement of the `squeue` records. The engine's usage and processed ids become the replay of the charges over the records, so a job already charged is not charged again. |
| SlurmService.FindJob | app/services/slurm_service.py:104-108 | Returns the first job with that id, or None iff there is none. |
| SlurmService.GetJob | app/services/slurm_service.py:92-108 | Returns the first job of the prioritised listing with that id, or None iff there is none. The engine's usage and processed ids change as in `GetJobs`. |
| AssistantService.BuildSystemPrompt | app/services/assistant_service.py:39-62 | The prompt for "spec", "params" or "template" is that mode's prompt. Any other mode gets the generic prompt. |
| AssistantService.PromptIdentifiesMode | app/services/assistant_service.py:39-62 | Each dedicated prompt is returned exactly for its own mode, and the generic prompt exactly for the other modes. |
| AssistantService.Blocks | app/services/assistant_service.py:104-110 | One `[source \| chunk id]` block per document, in order. Missing metadata is shown as "unknown" and "?". |
| AssistantService.DocsToContext | app/services/assistant_service.py:104-110 | The context is the blocks joined by a blank line. It is empty iff there are no documents. |
| AssistantService.Labels | app/services/assistant_service.py:112-120 | One source label per document, in order. |
| AssistantService.DocsToSources | app/services/assistant_service.py:112-120 | The output has no duplicates and is never longer than the input. It contains every document's label and no other, in order of first appearance: it equals `FirstSeen` of the labels. |
| AssistantService.FirstSeenAppearances | app/services/assistant_service.py:112-120 | `FirstSeen` lists each label once, every label appears, and each listed label stands at its first appearance, in order. |
| AssistantService.UserPrompt | app/services/assistant_service.py:221-250 | A non-empty context gives the context prompt. An empty context gives the no-context prompt. |
| AssistantService.PromptRevealsContext | app/services/assistant_service.py:221-250 | A prompt built on non-empty context never equals a prompt built without context, whatever the question and robot details: the prompt shows whether context was used. |
| AssistantService.RunAssistantQuery | app/services/assistant_service.py:177-288 | A missing or empty API key is an error. Otherwise the reply uses the mode's system prompt. Without a vector store or hits, sources stay empty and the no-context prompt is used. With hits, the reply carries the joined context and the sources are exactly `FirstSeen` of the hits' labels: each label once, in order of first appearance. |
| AuthServer.SplitAtFirstEquals | gpu-scheduler/java-auth/src/main/java/gpuscheduler/SimpleAuthServer.java:251-253 | A piece splits at its first `=`: the key has no `=`, and key, `=` and value give back the piece. A piece without `=` has no value. |
| AuthServer.FormMapUnsetKey | gpu-scheduler/java-auth/src/main/java/gpuscheduler/SimpleAuthServer.java:246-257 | A key no piece sets is absent from the map. |
| AuthServer.FormMapLastWins | gpu-scheduler/java-auth/src/main/java/gpuscheduler/SimpleAuthServer.java:246-257 | A key maps to the decoded value of the last piece that sets it, so later duplicates overwrite earlier ones. |
| AuthServer.FormMapKeys | gpu-scheduler/java-auth/src/main/java/gpuscheduler/SimpleAuthServer.java:246-257 | A key is in the map iff some non-empty piece sets it. |
| AuthServer.ParseFormBody | gpu-scheduler/java-auth/src/main/java/gpuscheduler/SimpleAuthServer.java:246-257 | The loop builds the form map of the body's `&`-separated pieces. |
| AuthServer.Param | gpu-scheduler/java-auth/src/main/java/gpuscheduler/SimpleAuthServer.java:83-84 | A parameter is present iff its key is in the map. |
| AuthServer.BlankIsAllSpace | gpu-scheduler/java-auth/src/main/java/gpuscheduler/SimpleAuthServer.java:263-265 | `isBlank` is true iff the value is null or trims to empty. |
| AuthServer.TrimToNull | gpu-scheduler/java-auth/src/main/java/gpuscheduler/SimpleAuthServer.java:267-271 | Null iff blank. Otherwise the result is the trimmed, non-empty string. |
| AuthServer.TrimToNullIdempotent | gpu-scheduler/java-auth/src/main/java/gpuscheduler/SimpleAuthServer.java:267-271 | Applying `trimToNull` twice equals applying it once, and it keeps blankness. |
| AuthServer.PairValue | gpu-scheduler/java-auth/src/main/java/gpuscheduler/SimpleAuthServer.java:279-281 | A cookie pair matches iff it has `=` and its name equals the requested name exactly. The match yields its value. |
| AuthServer.FirstPairNone | gpu-scheduler/java-auth/src/main/java/gpuscheduler/SimpleAuthServer.java:278-283 | No match in a header iff no pair matches. |
| AuthServer.FirstPairIsFirstMatch | gpu-scheduler/java-auth/src/main/java/gpuscheduler/SimpleAuthServer.java:278-283 | The header's answer is the value of its first matching pair. |
| AuthServer.CookieLookupNone | gpu-scheduler/java-auth/src/main/java/gpuscheduler/SimpleAuthServer.java:273-286 | Null iff no pair of any Cookie header matches. |
| AuthServer.CookieLookupIsFirstHeader | gpu-scheduler/java-auth/src/main/java/gpuscheduler/SimpleAuthServer.java:273-286 | The answer comes from the first header, in order, that has a match. |
| AuthServer.GetCookieValue | gpu-scheduler/java-auth/src/main/java/gpuscheduler/SimpleAuthServer.java:273-286 | The nested loops with early return compute that lookup, and give null without a Cookie header. |
| AuthServer.PairIn | gpu-scheduler/java-auth/src/main/java/gpuscheduler/SimpleAuthServer.java:278-283 | The inner loop returns the value of the first pair with that name, and nothing when no pair has it. |
| AuthServer.Attributes | gpu-scheduler/java-auth/src/main/java/gpuscheduler/SimpleAuthServer.java:288-296 | The attributes start with `Path=/` and end with `SameSite=Lax`. |
| AuthServer.AttributeFlags | gpu-scheduler/java-auth/src/main/java/gpuscheduler/SimpleAuthServer.java:288-296 | `HttpOnly` is present iff the flag is set, and `Max-Age=n` iff n ≥ 0. |
| AuthServer.Cookie | gpu-scheduler/java-auth/src/main/java/gpuscheduler/SimpleAuthServer.java:288-296 | The builder produces `name=value; Path=/[; Max-Age=n][; HttpOnly]; SameSite=Lax`, with a null value written as empty. |
| AuthServer.SetCookieParts | gpu-scheduler/java-auth/src/main/java/gpuscheduler/SimpleAuthServer.java:273-296 | Splitting a built header as the cookie reader does gives back `name=value` and each attribute. |
| AuthServer.CookieReadsBack | gpu-scheduler/java-auth/src/main/java/gpuscheduler/SimpleAuthServer.java:273-296 | Reading a built cookie back with `getCookieValue` yields its value, with null read as empty. |
| AuthServer.EscapeJsonPlain | gpu-scheduler/java-auth/src/main/java/gpuscheduler/SimpleAuthServer.java:298-305 | Null gives "". The output has no raw newline, CR or tab, and a string with no special character is returned unchanged. |
| AuthServer.EscapeChainIsPerCharacter | gpu-scheduler/java-auth/src/main/java/gpuscheduler/SimpleAuthServer.java:298-305 | Because backslashes are escaped first, the chain of replacements equals escaping each character on its own. |
| AuthServer.EscapeJsonRoundTrip | gpu-scheduler/java-auth/src/main/java/gpuscheduler/SimpleAuthServer.java:298-305 | JSON unescaping the escaped string gives back the original. |
| AuthServer.UserBodyReadsBack | gpu-scheduler/java-auth/src/main/java/gpuscheduler/SimpleAuthServer.java:188-189 | The username in the auth-check body is recoverable exactly. |
| AuthServer.SignUpKeepsAccounts | gpu-scheduler/java-auth/src/main/java/gpuscheduler/SimpleAuthServer.java:385-400 | Sign-up never changes an existing account. It adds at most the trimmed name. |
| AuthServer.LoginAfterSignUp | gpu-scheduler/java-auth/src/main/java/gpuscheduler/SimpleAuthServer.java:385-415 | Right after sign-up, login succeeds iff the trimmed password matches, and then it returns the new account. |
| AuthServer.UserRepository.constructor | gpu-scheduler/java-auth/src/main/java/gpuscheduler/SimpleAuthServer.java:327-336 | The repository starts empty, and ids start at 1. |
| AuthServer.UserRepository.FindByUsername | gpu-scheduler/java-auth/src/main/java/gpuscheduler/SimpleAuthServer.java:359-375 | Returns the stored user of that name, or null iff there is none. |
| AuthServer.UserRepository.Save | gpu-scheduler/java-auth/src/main/java/gpuscheduler/SimpleAuthServer.java:343-356 | Stores the user under the next id and advances the id. |
| AuthServer.AuthService.constructor | gpu-scheduler/java-auth/src/main/java/gpuscheduler/SimpleAuthServer.java:378-383 | The service keeps its repository. |
| AuthServer.AuthService.SignUp | gpu-scheduler/java-auth/src/main/java/gpuscheduler/SimpleAuthServer.java:385-400 | Fails with "taken" iff the trimmed name exists, and then saves nothing. Otherwise it saves the hash of the trimmed password. |
| AuthServer.AuthService.Login | gpu-scheduler/java-auth/src/main/java/gpuscheduler/SimpleAuthServer.java:402-415 | Null for an unknown user or a password mismatch. Otherwise it returns the stored user. |
| AuthServer.SessionStore.constructor | gpu-scheduler/java-auth/src/main/java/gpuscheduler/SimpleAuthServer.java:39 | The session store starts empty. |
| AuthServer.SignUpEndpoint | gpu-scheduler/java-auth/src/main/java/gpuscheduler/SimpleAuthServer.java:76-100 | A blank username or password gives 400 before the repository is touched. Otherwise the result is sign-up, answered 400 for a taken name or 200. |
| AuthServer.LoginEndpoint | gpu-scheduler/java-auth/src/main/java/gpuscheduler/SimpleAuthServer.java:103-146 | A blank field gives 400 and bad credentials give 401, neither touching the sessions. A valid login stores the session and sets the session, JWT and flag cookies. |
| AuthServer.AuthCheck | gpu-scheduler/java-auth/src/main/java/gpuscheduler/SimpleAuthServer.java:149-191 | Answers 401 iff there is neither a session user nor a verified JWT. Otherwise it answers 200, and the session user's name takes precedence over the JWT claim. |
| IngestPaper.StrippedTexts | app/utils/ingest_paper_repo.py:35-37 | Each page's text is stripped, with a missing text read as "". |
| IngestPaper.KeptPagesAreNonEmpty | app/utils/ingest_paper_repo.py:32-40 | Every kept page has non-empty stripped text and its 1-based number. |
| IngestPaper.KeptPagesInOrder | app/utils/ingest_paper_repo.py:32-40 | Kept pages are in strictly increasing page order. |
| IngestPaper.KeptPagesComplete | app/utils/ingest_paper_repo.py:32-40 | Every page with non-empty stripped text is kept. |
| IngestPaper.KeptPagesNoneIff | app/utils/ingest_paper_repo.py:32-58 | No page is kept iff every page is blank, and such a file contributes nothing. |
| IngestPaper.KeptPagesOfFile | app/utils/ingest_paper_repo.py:32-40 | The kept pages are exactly a PDF's pages with text, numbered from 1. |
| IngestPaper.ExtractPdfPages | app/utils/ingest_paper_repo.py:32-40 | The loop returns exactly the kept pages. |
| IngestPaper.PageDocsShape | app/utils/ingest_paper_repo.py:62-78 | A page's documents are its stripped chunks of at least 50 characters, numbered on from the running counter, with that page's metadata. |
| IngestPaper.Numbers | app/utils/ingest_paper_repo.py:73 | The page numbers of the kept pages, in order. |
| IngestPaper.FileDocsNumbering | app/utils/ingest_paper_repo.py:60-78 | Within one file, the chunk ids are exactly 0..n-1 across its pages. |
| IngestPaper.FileDocsContent | app/utils/ingest_paper_repo.py:61-75 | Every document is a stripped chunk of at least 50 characters, and it is one of the stripped chunks of the page whose number it carries. |
| IngestPaper.AllDocsChunks | app/utils/ingest_paper_repo.py:54-78 | Every document of the run comes from one of the files and meets the chunk rules. |
| IngestPaper.IngestPage | app/utils/ingest_paper_repo.py:62-78 | The inner loop appends that page's documents and advances the counter by their number. |
| IngestPaper.IngestPages | app/utils/ingest_paper_repo.py:59-78 | The page loop appends the file's documents. |
| IngestPaper.IngestFile | app/utils/ingest_paper_repo.py:54-78 | One file contributes the documents of its kept pages. |
| IngestPaper.Ingest | app/utils/ingest_paper_repo.py:48-81 | The run yields all the documents, or the "no chunks" error iff there are none. |
| IngestIsaacLab.Name | app/utils/ingest_isaaclab_repo.py:38 | The file name is the last path component. |
| IngestIsaacLab.NameSuffix | app/utils/ingest_isaaclab_repo.py:38 | A non-empty suffix is a dot and at least one character, with no further dot, and never the whole name. |
| IngestIsaacLab.SuffixOfStemAndExtension | app/utils/ingest_isaaclab_repo.py:38 | `stem.ext` has the suffix `.ext`. |
| IngestIsaacLab.HiddenNameHasNoSuffix | app/utils/ingest_isaaclab_repo.py:38 | A dot-file such as `.md` has no suffix. |
| IngestIsaacLab.CollectDocsFiles | app/utils/ingest_isaaclab_repo.py:34-39 | Collects exactly the files whose lowercased suffix is `.rst` or `.md`. |
| IngestIsaacLab.CollectDocsFilesAppend | app/utils/ingest_isaaclab_repo.py:34-39 | The filter keeps the walk's order: filtering two parts and joining the results equals filtering the whole. |
| IngestIsaacLab.ChunkDocsAreChunks | app/utils/ingest_isaaclab_repo.py:62-77 | Every document is a stripped chunk of at least 50 characters, and its id is its position in the splitter output. |
| IngestIsaacLab.ChunkDocsIdsIncrease | app/utils/ingest_isaaclab_repo.py:62-77 | Ids increase strictly within a file, and may skip filtered chunks. |
| IngestIsaacLab.ChunkDocsComplete | app/utils/ingest_isaaclab_repo.py:62-77 | Every long-enough chunk is kept. |
| IngestIsaacLab.FileDocsAreChunks | app/utils/ingest_isaaclab_repo.py:57-77 | A file whose stripped text is under 50 characters contributes nothing. |
| IngestIsaacLab.AllDocsFromFiles | app/utils/ingest_isaaclab_repo.py:56-77 | Every document comes from one of the collected files and meets the chunk rules. |
| IngestIsaacLab.IngestChunks | app/utils/ingest_isaaclab_repo.py:62-77 | The chunk loop appends exactly that file's documents. |
| IngestIsaacLab.Ingest | app/utils/ingest_isaaclab_repo.py:47-86 | The run fails with "no docs" iff there are no documents. It then fails for a missing key iff there are documents but no API key, and otherwise yields the documents. |
| Sorting.SortDesc | app/services/priority_engine.py:207-210 | The output is sorted non-increasingly and is a permutation of the input; its stability is `SortDescIsStable`. |
| Sorting.SortDescIsStable | app/services/priority_engine.py:207-210 | The sort is stable: for every key, the elements with that key come out in their input order. |
| Sorting.SortDescKeepsOrder | app/services/priority_engine.py:207 | Elements of equal key come out in the order of any measure that increases along the input. |
| Sorting.InsertKeepsTies | app/services/priority_engine.py:207 | Inserting into a sorted list places the new element after every element of equal key. |

## Left out

- HTTP layers are not part of this model: FastAPI routes, the routers,
  `api_original.py` and the Java `HttpServer` contexts apart from the
  three handler decisions.
- JDBC is replaced by the in-memory `UserRepository`, whose calls never
  fail. BCrypt, JWT signing and verification, and `URLDecoder` are
  parameters (`hash`, `checkpw`, `token`, `verify`, `decode`).
- AuthServer.LoginEndpoint: repository and token-signing exceptions that
  lead to the 500 answer are not modelled; the session stored before a
  failed `createToken` stays stored.
- `subprocess`, `Popen`, `docker exec`, `proc.wait`, asyncio tasks, locks
  and events, and the `run_forever`/`main` sleep loops are left out. A
  loop iteration is one `Tick`, and process exit is an explicit
  `Finalize`/`Finish` step with the exit code as input.
- Filesystem and database I/O are left out:
  - the usage database load and save;
  - `load_all_jobs`/`save_job`;
  - `setup_dirs`, since `WithDir` creates the destination directory at
    rename time;
  - reading PDFs and walking directories (`collect_pdf_files`, `rglob`),
    which become input sequences;
  - embeddings, FAISS, and the LLM call.
- The print-only debug helpers of the assistant service and
  `_debug_factors` in both priority engines are left out.
- `get_total_usage` in `scheduler.py` is not modelled; nothing in the
  core uses it.
- Floating point is not modelled: scores are exact reals. Clocks are
  integer seconds, and ISO timestamps are integers. `None` stands for a
  missing or empty field and, where the source catches the parse error
  (the charge in `sort_jobs_by_priority`, the mock daemon), for one that
  does not parse.
- The NVML calls themselves are left out; their readings are an input.
- The internals of the text splitter are left out; its chunk list is an
  input.
- JobManager.ComputePriority: does not apply `round(..., 2)`; the score
  is the exact weighted sum.
- AuthServer.ParseFormBody: `decode` is total, so the 500 answer for a
  malformed escape is not modelled. Java's `split` drops trailing empty
  pieces while the model keeps them; empty pieces never set a key, so the
  map is the same.
- AuthServer.SignUpEndpoint: database exceptions that lead to a 500
  answer are not modelled.
- Scheduler.GpuScheduler.Finalize: requires `startTime <= now`, so that
  recorded usage stays non-negative under a monotone clock.
- Scheduler.GpuScheduler.ChargeRun: the same requirement, for the same
  reason.
- Scheduler.GpuScheduler.RescoreQueued: `_pick_next_job` first filters
  the listing into a candidate list and then rescores each candidate; the
  model does both in one pass over the listing. The rescored store and
  the candidate order are the same. SchedulerOriginal.GpuScheduler.RescoreEligible
  is modelled the same way.
- PriorityEngine.PriorityEngine.SortJobsByPriority: requires every record
  to have a non-negative VRAM request and `completed_at >= started_at`,
  which keeps the fair-share division defined.
- SlurmService.GetJobs: the same requirement on the `squeue` records. The
  JSON decode error path and the `squeue failed` RuntimeError raised on a
  non-zero exit status are not modelled; `squeue` is taken as having
  succeeded with the given records.
- SlurmService.GetJob: the same requirement; `str(job_id)` is taken as the
  string id directly.
- Python `str.lower` is modelled on ASCII letters only; other letters
  keep their case. `strip` and `split` use the full set of characters
  `str.isspace` accepts.
- PriorityEngine.PriorityEngine.SortJobsByPriority: a `submitted_at` that
  `datetime.fromisoformat` rejects raises out of `calculate_priority`
  (priority_engine.py line 100 has no `try`). Timestamps are integers
  here, so that failure cannot be expressed; a missing or empty
  `submitted_at` waits 0 seconds, as in the source.
- Default arguments are not constants of the model: the caller always
  passes them. This covers `submit_job` in `slurm_service.py` (QoS `""`,
  user `unknown`, one GPU, partition `normal`, 2 GB) and the factor 0.95
  of `decay_usage`.
- JobManager.ComputePriority: without `round(..., 2)`, ties can differ
  from the source's. Two jobs scoring 3.001 and 3.004 both round to 3.0
  in the source and then start in listing order; the model starts the
  3.004 one first when one slot is free.
- Scheduler.GpuScheduler.Tick: in the source, an exception from
  `safe_rename` or `Popen` inside `_launch_job` leaves `run_forever`
  (after `monitor.shutdown()`), so the loop stops. The model reports
  `RenameFailed` or `SpawnFailed` and the next `Tick` runs as usual.
  SchedulerOriginal.GpuScheduler.Tick is modelled the same way.
- Sorting.SortDesc: its own contract states the order and the
  permutation only. Stability is the lemma Sorting.SortDescIsStable, kept
  apart so that every caller does not carry a quantifier over all keys.
- Scheduler.HighestScore: its contract gives a maximum; that the result
  is the first maximum in candidate order is the lemma
  Scheduler.HighestScoreIsFirst. SchedulerOriginal.HighestScore is split
  the same way.
- Scheduler.GpuScheduler.PickNextJob: its contract ties the result to
  `Pick`; the tie-break among equal scores is stated about `Pick` by
  Scheduler.PickIsFirstHighest. SchedulerOriginal.GpuScheduler.PickNextJob
  is split the same way, with SchedulerOriginal.PickIsFirstHighest.
- JobManager.Order: its contract gives the order and the permutation;
  the listing order of equal scores is the lemma JobManager.OrderIsStable.

## Findings

| source | as written | input that shows it | evidently intended | confidence | as-written member | corrected member |
|---|---|---|---|---|---|---|
| gpu-scheduler/gpu_scheduler/scheduler_original.py:74 | the default VRAM request is `2 * 1024**9` bytes (about 2.4·10^27) | a direct call of `submit_job` without `vram_required`, offered the 16 GiB virtual device or any real GPU (no caller of this `submit_job` is part of this model; `api_original.py` line 13 uses the scheduler of `scheduler.py`) | 2 GiB, `2 * 1024**3`, as `scheduler.py` uses | not executed | SchedulerOriginal.DefaultAsWrittenNeverPlaced | SchedulerOriginal.DefaultIntendedPlaced |
