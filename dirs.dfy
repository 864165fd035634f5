/** The fastgpu-style directory layout: five status directories under one
    root, and a move that never overwrites (dirs.py). The file system is a
    map from directory path to the set of names it holds. */
module Dirs {
  import opened Wrappers
  import opened Text

  /** A file: the directory that holds it and its name there. */
  datatype Path = Path(dir: string, name: string)

  /** `dir / name` as a string. */
  function Child(dir: string, name: string): string {
    dir + "/" + name
  }

  function PathString(p: Path): string {
    Child(p.dir, p.name)
  }

  /** Two children of one directory coincide only when their names do. */
  lemma ChildInjective(dir: string, a: string, b: string)
    requires Child(dir, a) == Child(dir, b)
    ensures a == b
  {
    assert a == Child(dir, a)[|dir| + 1..];
  }

  datatype DirStatus = ToRun | Running | Complete | Fail | Out

  function StatusName(s: DirStatus): string {
    match s
    case ToRun => "to_run"
    case Running => "running"
    case Complete => "complete"
    case Fail => "fail"
    case Out => "out"
  }

  /** `s.rfind(c)`: the index of the last `c` in `s`, or -1. */
  function RFind(s: string, c: char): (i: int)
    ensures -1 <= i < |s|
    ensures i >= 0 ==> s[i] == c
    ensures forall j :: i < j < |s| ==> s[j] != c
  {
    match LastIndexOf(s, c)
    case None => -1
    case Some(k) =>
      assert forall j :: k < j < |s| ==> s[j] == s[k + 1..][j - k - 1];
      k
  }

  /** `os.path.splitext` on POSIX: the extension starts at the last dot of
      the last path component, unless only dots precede it there. */
  function SplitExt(p: string): (r: (string, string))
    ensures r.0 + r.1 == p
    ensures r.1 == [] || (r.1[0] == '.' && '.' !in r.1[1..] && '/' !in r.1)
  {
    var sepIndex := RFind(p, '/');
    var dotIndex := RFind(p, '.');
    if dotIndex > sepIndex && exists j | sepIndex < j < dotIndex :: p[j] != '.' then
      assert p[..dotIndex] + p[dotIndex..] == p;
      (p[..dotIndex], p[dotIndex..])
    else (p, "")
  }

  /** The positive case of `SplitExt`: a name whose last dot has a
      character other than a dot before it in the same component splits
      at that dot. */
  lemma SplitExtAtLastDot(base: string, ext: string, j: nat)
    requires |ext| >= 1 && ext[0] == '.' && '.' !in ext[1..] && '/' !in ext
    requires j < |base| && base[j] != '.' && '/' !in base[j..]
    ensures SplitExt(base + ext) == (base, ext)
  {
    var p := base + ext;
    var dotIndex := RFind(p, '.');
    var sepIndex := RFind(p, '/');
    assert p[|base|] == '.';
    assert forall k :: |base| < k < |p| ==> p[k] == ext[1..][k - |base| - 1];
    assert forall k :: j <= k < |base| ==> p[k] == base[j..][k - j];
    assert forall k :: |base| <= k < |p| ==> p[k] == ext[k - |base|];
    assert p[j] == base[j];
    assert p[..dotIndex] == base && p[dotIndex..] == ext;
  }

  /** The name `safe_rename` tries at probe `k`: the requested name first,
      then `{base}_{k}{ext}`. */
  function Candidate(name: string, k: nat): string {
    if k == 0 then name
    else
      var (base, ext) := SplitExt(name);
      base + "_" + NatToString(k) + ext
  }

  /** The job scripts' names: a probe of `<stem>.py` for a stem without
      dots or slashes (a job id) inserts `_k` before the extension. */
  lemma CandidateOfScript(stem: string, k: nat)
    requires k >= 1 && stem != [] && '.' !in stem && '/' !in stem
    ensures Candidate(stem + ".py", k) == stem + "_" + NatToString(k) + ".py"
  {
    assert '.' !in ".py"[1..];
    SplitExtAtLastDot(stem, ".py", 0);
  }

  /** The longest name in a set of names. */
  ghost function MaxLen(names: set<string>): (m: nat)
    ensures forall x :: x in names ==> |x| <= m
    decreases |names|
  {
    if names == {} then 0
    else
      var x :| x in names;
      var m := MaxLen(names - {x});
      if |x| > m then |x| else m
  }

  /** Probing stops before 10^(longest name): a candidate with that many
      digits is longer than every name present. */
  lemma ProbeBound(names: set<string>, name: string, k: nat)
    requires k >= 1 && Candidate(name, k) in names
    ensures k < Pow10(MaxLen(names))
  {
    if k >= Pow10(MaxLen(names)) {
      NatToStringLonger(k, MaxLen(names));
    }
  }

  datatype FsError = FileNotFound(path: Path)

  /** The directories that exist and the names each one holds. */
  class FileSystem {
    var dirs: map<string, set<string>>

    constructor (initial: map<string, set<string>>)
      ensures dirs == initial
    {
      dirs := initial;
    }

    predicate Exists(p: Path)
      reads this
    {
      p.dir in dirs && p.name in dirs[p.dir]
    }
  }

  /** `dirs` after `mkdir(d, exist_ok=True)`. */
  function WithDir(dirs: map<string, set<string>>, d: string): (r: map<string, set<string>>)
    ensures r.Keys == dirs.Keys + {d}
    ensures forall e :: e in dirs ==> r[e] == dirs[e]
    ensures d !in dirs ==> r[d] == {}
  {
    if d in dirs then dirs else dirs[d := {}]
  }

  class DirLayout {
    const root: string
    const toRun: string := Child(root, "to_run")
    const running: string := Child(root, "running")
    const complete: string := Child(root, "complete")
    const fail: string := Child(root, "fail")
    const out: string := Child(root, "out")
    const fs: FileSystem

    /** `resolvedRoot` is `Path(root).resolve()`: resolving is done by the OS. */
    constructor (resolvedRoot: string, fs: FileSystem)
      ensures root == resolvedRoot && this.fs == fs
    {
      root := resolvedRoot;
      this.fs := fs;
    }

    /** `getattr(self, status)`: the status directory of that name. */
    function GetDir(status: DirStatus): (d: string)
      ensures d == Child(root, StatusName(status))
    {
      match status
      case ToRun => toRun
      case Running => running
      case Complete => complete
      case Fail => fail
      case Out => out
    }

    /** Moves `src` into `dstDir` under `newName` (default: its own name),
        appending `_1`, `_2`, ... before the extension until the name is
        free. `k` is the probe that succeeded. */
    method SafeRename(src: Path, dstDir: string, newName: Option<string>) returns (r: Result<Path, FsError>, ghost k: nat)
      modifies fs
      ensures var before := WithDir(old(fs.dirs), dstDir);
              r.Success? <==> src.dir in before && src.name in before[src.dir]
      ensures r.Failure? ==> fs.dirs == WithDir(old(fs.dirs), dstDir) && r.error == FileNotFound(src)
      ensures r.Success? ==> var before := WithDir(old(fs.dirs), dstDir);
              && IsFirstFree(before[dstDir], newName.GetOr(src.name), k)
              && r.value == Path(dstDir, Candidate(newName.GetOr(src.name), k))
              && fs.dirs == Moved(before, src, r.value)
    {
      fs.dirs := WithDir(fs.dirs, dstDir);
      var name := if newName.Some? then newName.value else src.name;
      var free;
      free, k := FirstFreeName(fs.dirs[dstDir], name);
      var target := Path(dstDir, free);
      if !(src.dir in fs.dirs && src.name in fs.dirs[src.dir]) {
        return Failure(FileNotFound(src)), k;
      }
      fs.dirs := fs.dirs[src.dir := fs.dirs[src.dir] - {src.name}];
      fs.dirs := fs.dirs[dstDir := fs.dirs[dstDir] + {target.name}];
      r := Success(target);
    }
  }

  /** Probe `k` is free in `names` and every earlier probe was taken. */
  ghost predicate IsFirstFree(names: set<string>, name: string, k: nat) {
    && Candidate(name, k) !in names
    && forall j :: 0 <= j < k ==> Candidate(name, j) in names
  }

  /** The probe loop of `safe_rename`: returns the first free candidate name and
      its probe number. */
  method FirstFreeName(names: set<string>, name: string) returns (free: string, k: nat)
    ensures free == Candidate(name, k) && IsFirstFree(names, name, k)
  {
    free := name;
    ghost var bound: int := Pow10(MaxLen(names));
    var (base, ext) := SplitExt(name);
    var counter := 1;
    while free in names
      invariant counter >= 1
      invariant free == Candidate(name, counter - 1)
      invariant forall j :: 0 <= j < counter - 1 ==> Candidate(name, j) in names
      decreases bound + 1 - counter
    {
      if counter > 1 {
        ProbeBound(names, name, counter - 1);
      }
      free := base + "_" + NatToString(counter) + ext;
      counter := counter + 1;
    }
    k := counter - 1;
  }

  /** The directories after `src.replace(target)`, where `target` did not
      exist: the source name is gone, the target name is present, no
      directory appears or disappears, and every other entry is as before. */
  function Moved(dirs: map<string, set<string>>, src: Path, target: Path): (after: map<string, set<string>>)
    requires src.dir in dirs && target.dir in dirs
    requires src.name in dirs[src.dir] && target.name !in dirs[target.dir]
    ensures after.Keys == dirs.Keys
    ensures forall d, n :: d in dirs ==>
              (n in after[d] <==> Path(d, n) == target || (Path(d, n) != src && n in dirs[d]))
  {
    var removed := dirs[src.dir := dirs[src.dir] - {src.name}];
    removed[target.dir := removed[target.dir] + {target.name}]
  }

  /** The five status directories are distinct. */
  lemma StatusDirsDistinct(layout: DirLayout, s: DirStatus, t: DirStatus)
    requires s != t
    ensures layout.GetDir(s) != layout.GetDir(t)
  {
    if layout.GetDir(s) == layout.GetDir(t) {
      ChildInjective(layout.root, StatusName(s), StatusName(t));
    }
  }
}
