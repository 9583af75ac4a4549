/** The runner for a command-line model: make the scratch directories, write
    the request's DICOM parts as files, invoke the command, read back the
    secondary captures it wrote, and always remove the scratch directories.
    The operating system is an object whose log records every call made to
    it; which calls raise, what the output directory holds and what each
    file contains are its fixed collaborators. */
module Cli {
  import opened Common
  import opened Manifest
  import opened Sorting

  /** One call into the operating system. */
  datatype Action =
    | MakeDir(path: string)                        // os.makedirs(path, exist_ok=True)
    | WritePart(path: string, data: Bytes)         // open(path, "wb").write(data)
    | Invoke(args: seq<string>, cwd: string)       // subprocess.run(args, cwd=cwd)
    | ReadOutput(path: string)                     // pydicom.dcmread(path, ...), then open(path, 'rb').read()
    | RemoveTree(path: string)                     // shutil.rmtree(path, ignore_errors=True)

  /** One `(dirname, subdirs, filenames)` triple of `os.walk`. */
  datatype WalkDir = WalkDir(dirname: string, subdirs: seq<string>, filenames: seq<string>)

  /** The two tags read from an output file, and its bytes. */
  datatype OutputFile = OutputFile(seriesUid: string, sopUid: string, data: Bytes)

  /** What the operating system does: which calls raise (`rmtree` with
      `ignore_errors` never does), what `os.walk` yields and what each file
      holds once the model has run. */
  datatype Env = Env(fails: Action -> Option<Error>, walk: string -> seq<WalkDir>, file: string -> OutputFile)

  class Os {
    /** Every call made so far, in order, including one that raised. */
    var log: seq<Action>
    const env: Env

    constructor(env: Env)
      ensures this.env == env && log == []
    {
      this.env := env;
      log := [];
    }

    method Do(a: Action) returns (failure: Option<Error>)
      modifies this
      ensures log == old(log) + [a]
      ensures failure == env.fails(a)
    {
      log := log + [a];
      failure := env.fails(a);
    }
  }

  /** The runner's configuration, fixed at construction. */
  datatype CliModel = CliModel(inputPath: string, outputPath: string, cleanupPaths: seq<string>,
                               cliArgs: seq<string>, cwd: string)

  /** A planned sequence of calls run until the first one that raises. */
  datatype Attempted = Attempted(actions: seq<Action>, failure: Option<Error>)

  function Attempt(plan: seq<Action>, fails: Action -> Option<Error>): Attempted
  {
    if |plan| == 0 then Attempted([], None)
    else
      var before := Attempt(plan[..|plan| - 1], fails);
      if before.failure.Some? then before else Attempted(plan, fails(plan[|plan| - 1]))
  }

  /** The calls attempted are a prefix of the plan; every one but the last
      succeeded, and the last raised exactly when the attempt failed, which
      is exactly when some call of the plan raises. */
  lemma {:induction false} AttemptPrefix(plan: seq<Action>, fails: Action -> Option<Error>)
    ensures var r := Attempt(plan, fails);
            && |r.actions| <= |plan| && r.actions == plan[..|r.actions|]
            && (r.failure.None? <==> r.actions == plan && forall i :: 0 <= i < |plan| ==> fails(plan[i]).None?)
            && (r.failure.Some? ==> |r.actions| > 0 && r.failure == fails(r.actions[|r.actions| - 1]))
            && forall i :: 0 <= i < |r.actions| - 1 ==> fails(r.actions[i]).None?
    decreases |plan|
  {
    if |plan| > 0 {
      var init := plan[..|plan| - 1];
      AttemptPrefix(init, fails);
      var before := Attempt(init, fails);
      if before.failure.Some? {
        assert plan[..|before.actions|] == init[..|before.actions|];
      } else {
        assert forall i :: 0 <= i < |init| ==> init[i] == plan[i];
      }
    }
  }

  /** Running two plans one after the other is running their concatenation. */
  lemma {:induction false} AttemptAppend(a: seq<Action>, b: seq<Action>, fails: Action -> Option<Error>)
    ensures Attempt(a + b, fails) ==
            if Attempt(a, fails).failure.Some? then Attempt(a, fails)
            else Attempted(a + Attempt(b, fails).actions, Attempt(b, fails).failure)
    decreases |b|
  {
    if |b| == 0 {
      assert a + b == a;
    } else {
      var b' := b[..|b| - 1];
      assert (a + b)[..|a + b| - 1] == a + b';
      AttemptAppend(a, b', fails);
    }
  }

  /** One more call after a plan that has not raised. */
  lemma AttemptSnoc(p: seq<Action>, a: Action, fails: Action -> Option<Error>)
    requires Attempt(p, fails).failure.None?
    ensures Attempt(p + [a], fails) == Attempted(p + [a], fails(a))
  {
    assert (p + [a])[..|p|] == p;
  }

  /** Nothing after a call that raised is attempted. */
  lemma AttemptStops(p: seq<Action>, q: seq<Action>, fails: Action -> Option<Error>)
    requires Attempt(p, fails).failure.Some?
    ensures Attempt(p + q, fails) == Attempt(p, fails)
  {
    AttemptAppend(p, q, fails);
  }

  /** `os.path.join(a, b)` on POSIX: an absolute `b` replaces `a`. */
  function Join(a: string, b: string): string
  {
    if |b| > 0 && b[0] == '/' then b
    else if |a| == 0 || a[|a| - 1] == '/' then a + b
    else a + "/" + b
  }

  lemma JoinInjective(a: string, b: string, c: string)
    requires |b| > 0 && b[0] != '/' && |c| > 0 && c[0] != '/' && b != c
    ensures Join(a, b) != Join(a, c)
  {
    var prefix := if |a| == 0 || a[|a| - 1] == '/' then a else a + "/";
    assert Join(a, b) == prefix + b && Join(a, c) == prefix + c;
    assert (prefix + b)[|prefix|..] == b && (prefix + c)[|prefix|..] == c;
  }

  /** `"part{}.dcm".format(i)`. */
  function PartName(i: nat): string
  {
    "part" + NatToString(i) + ".dcm"
  }

  /** Each part goes to its own file under the input directory. */
  lemma PartPathsDistinct(inputPath: string, i: nat, j: nat)
    requires i != j
    ensures Join(inputPath, PartName(i)) != Join(inputPath, PartName(j))
  {
    NatToStringInjective(i, j);
    var si, sj := NatToString(i), NatToString(j);
    var x, y := PartName(i), PartName(j);
    if |si| < |sj| {
      assert x[4 + |si|] == '.' && y[4 + |si|] != '.';
    } else if |sj| < |si| {
      assert y[4 + |sj|] == '.' && x[4 + |sj|] != '.';
    } else {
      assert x[4..4 + |si|] == si && y[4..4 + |sj|] == sj;
    }
    JoinInjective(inputPath, PartName(i), PartName(j));
  }

  function MakeDirsPlan(m: CliModel): seq<Action>
  {
    seq(|m.cleanupPaths|, i requires 0 <= i < |m.cleanupPaths| => MakeDir(m.cleanupPaths[i]))
  }

  function WritePlan(m: CliModel, parts: seq<Bytes>): seq<Action>
  {
    seq(|parts|, i requires 0 <= i < |parts| => WritePart(Join(m.inputPath, PartName(i)), parts[i]))
  }

  function InvokePlan(m: CliModel): seq<Action>
  {
    [Invoke(m.cliArgs, m.cwd)]
  }

  function CleanupPlan(m: CliModel): seq<Action>
  {
    seq(|m.cleanupPaths|, i requires 0 <= i < |m.cleanupPaths| => RemoveTree(m.cleanupPaths[i]))
  }

  predicate NotDot(d: WalkDir)
  {
    d.dirname != "."
  }

  /** `[x for x in os.walk(output_path) if x[0] != '.']`. */
  function OutputDirs(m: CliModel, env: Env): seq<WalkDir>
  {
    Filter(env.walk(m.outputPath), NotDot)
  }

  function DirPaths(d: WalkDir): seq<string>
  {
    seq(|d.filenames|, j requires 0 <= j < |d.filenames| => Join(d.dirname, d.filenames[j]))
  }

  /** The files read back, directory by directory, file by file. */
  function OutputPaths(dirs: seq<WalkDir>): seq<string>
  {
    if |dirs| == 0 then [] else OutputPaths(dirs[..|dirs| - 1]) + DirPaths(dirs[|dirs| - 1])
  }

  function ReadPlan(paths: seq<string>): (r: seq<Action>)
    ensures |r| == |paths|
  {
    seq(|paths|, i requires 0 <= i < |paths| => ReadOutput(paths[i]))
  }

  lemma ReadPlanAppend(p: seq<string>, q: seq<string>)
    ensures ReadPlan(p + q) == ReadPlan(p) + ReadPlan(q)
  {
  }

  /** The manifest entry of the n-th file read (counting from 0):
      label `sc-{n+1}`, a secondary capture with the file's UIDs. */
  function Capture(n: nat, path: string, env: Env): Part
  {
    var ds := env.file(path);
    Part("sc-" + NatToString(n + 1), Some("dicom_secondary_capture"), None, Some(ds.seriesUid), Some(ds.sopUid), None)
  }

  function Captures(offset: nat, paths: seq<string>, env: Env): seq<Part>
  {
    seq(|paths|, j requires 0 <= j < |paths| => Capture(offset + j, paths[j], env))
  }

  function Contents(paths: seq<string>, env: Env): seq<Bytes>
  {
    seq(|paths|, j requires 0 <= j < |paths| => env.file(paths[j]).data)
  }

  /** Every call `run` makes before cleaning up. */
  function Plan(m: CliModel, parts: seq<Bytes>, env: Env): seq<Action>
  {
    MakeDirsPlan(m) + WritePlan(m, parts) + InvokePlan(m) + ReadPlan(OutputPaths(OutputDirs(m, env)))
  }

  /** The calls `run` makes: the plan up to the first call that raises, then
      the removal of every cleanup path. */
  function RunTrace(m: CliModel, parts: seq<Bytes>, env: Env): seq<Action>
  {
    Attempt(Plan(m, parts, env), env.fails).actions + CleanupPlan(m)
  }

  /** What `run` returns, or the exception it lets through after cleaning
      up. */
  function RunResult(m: CliModel, parts: seq<Bytes>, env: Env): Result<(Response, seq<Bytes>)>
  {
    var attempted := Attempt(Plan(m, parts, env), env.fails);
    if attempted.failure.Some? then Err(attempted.failure.value)
    else
      var paths := OutputPaths(OutputDirs(m, env));
      Ok((EmptyResponse(Captures(0, paths, env)), Contents(paths, env)))
  }

  /** A step of `run`: the calls of `plan` up to the first that raises. */
  ghost predicate Ran(os: Os, start: seq<Action>, plan: seq<Action>, failure: Option<Error>)
    reads os
  {
    Traced(os.log, start, plan, failure, os.env.fails)
  }

  /** The log `log` is `start` followed by the calls of `plan` up to the first
      that raises, and `failure` is what that call raised. */
  predicate Traced(log: seq<Action>, start: seq<Action>, plan: seq<Action>, failure: Option<Error>,
                   fails: Action -> Option<Error>)
  {
    log == start + Attempt(plan, fails).actions && failure == Attempt(plan, fails).failure
  }

  /** No call of the plan raises. */
  predicate Succeeds(plan: seq<Action>, fails: Action -> Option<Error>)
  {
    forall i :: 0 <= i < |plan| ==> fails(plan[i]).None?
  }

  lemma {:induction false} AttemptOk(p: seq<Action>, fails: Action -> Option<Error>)
    requires Succeeds(p, fails)
    ensures Attempt(p, fails) == Attempted(p, None)
    decreases |p|
  {
    if |p| > 0 {
      AttemptOk(p[..|p| - 1], fails);
    }
  }

  /** A plan whose first failing call is x stops right after x. */
  lemma AttemptFailsAt(p: seq<Action>, x: Action, q: seq<Action>, fails: Action -> Option<Error>)
    requires Succeeds(p, fails) && fails(x).Some?
    ensures Attempt(p + [x] + q, fails) == Attempted(p + [x], fails(x))
  {
    AttemptOk(p, fails);
    AttemptSnoc(p, x, fails);
    AttemptStops(p + [x], q, fails);
  }

  /** After a plan that succeeds, the rest runs as if on its own. */
  lemma AttemptAfterOk(p: seq<Action>, q: seq<Action>, fails: Action -> Option<Error>)
    requires Succeeds(p, fails)
    ensures Attempt(p + q, fails) == Attempted(p + Attempt(q, fails).actions, Attempt(q, fails).failure)
  {
    AttemptOk(p, fails);
    AttemptAppend(p, q, fails);
  }

  lemma SucceedsSnoc(p: seq<Action>, x: Action, fails: Action -> Option<Error>)
    requires Succeeds(p, fails) && fails(x).None?
    ensures Succeeds(p + [x], fails)
  {
    assert forall i :: 0 <= i < |p| ==> (p + [x])[i] == p[i];
  }

  /** A step that did not raise ran all of its calls. */
  lemma AttemptNone(p: seq<Action>, fails: Action -> Option<Error>)
    requires Attempt(p, fails).failure.None?
    ensures Attempt(p, fails).actions == p && Succeeds(p, fails)
  {
    AttemptPrefix(p, fails);
  }

  /** One call of a loop over `plan`: the i-th call, after i that did not
      raise, either raises and ends the step or extends the calls made. */
  lemma CallAt(start: seq<Action>, log: seq<Action>, plan: seq<Action>, i: nat, failure: Option<Error>,
               fails: Action -> Option<Error>)
    requires i < |plan| && log == start + plan[..i] + [plan[i]] && Succeeds(plan[..i], fails)
    requires failure == fails(plan[i])
    ensures failure.Some? ==> Traced(log, start, plan, failure, fails)
    ensures failure.None? ==> log == start + plan[..i + 1] && Succeeds(plan[..i + 1], fails)
  {
    assert plan[..i + 1] == plan[..i] + [plan[i]];
    AppendAssoc(start, plan[..i], [plan[i]]);
    if failure.Some? {
      assert plan == plan[..i] + [plan[i]] + plan[i + 1..];
      AttemptFailsAt(plan[..i], plan[i], plan[i + 1..], fails);
    } else {
      SucceedsSnoc(plan[..i], plan[i], fails);
    }
  }

  /** `_make_dirs`. */
  method MakeDirs(m: CliModel, os: Os) returns (failure: Option<Error>)
    modifies os
    ensures Ran(os, old(os.log), MakeDirsPlan(m), failure)
  {
    var plan := MakeDirsPlan(m);
    failure := None;
    var i := 0;
    while i < |m.cleanupPaths|
      invariant i <= |m.cleanupPaths|
      invariant failure.None? && os.log == old(os.log) + plan[..i] && Succeeds(plan[..i], os.env.fails)
    {
      failure := os.Do(MakeDir(m.cleanupPaths[i]));
      CallAt(old(os.log), os.log, plan, i, failure, os.env.fails);
      if failure.Some? {
        return;
      }
      i := i + 1;
    }
    assert Ran(os, old(os.log), plan, failure) by {
      assert plan[..i] == plan;
      AttemptOk(plan, os.env.fails);
    }
  }

  /** `_cleanup_dirs`: `rmtree` with `ignore_errors` never raises. */
  method CleanupDirs(m: CliModel, os: Os)
    modifies os
    ensures os.log == old(os.log) + CleanupPlan(m)
  {
    var i := 0;
    while i < |m.cleanupPaths|
      invariant i <= |m.cleanupPaths|
      invariant os.log == old(os.log) + CleanupPlan(m)[..i]
    {
      var _ := os.Do(RemoveTree(m.cleanupPaths[i]));
      assert CleanupPlan(m)[..i + 1] == CleanupPlan(m)[..i] + [RemoveTree(m.cleanupPaths[i])];
      i := i + 1;
    }
    assert CleanupPlan(m)[..i] == CleanupPlan(m);
  }

  /** `_write_model_input`: part i to `input_path/part{i}.dcm`. */
  method WriteModelInput(m: CliModel, os: Os, parts: seq<Bytes>) returns (failure: Option<Error>)
    modifies os
    ensures Ran(os, old(os.log), WritePlan(m, parts), failure)
  {
    var plan := WritePlan(m, parts);
    failure := None;
    var i := 0;
    while i < |parts|
      invariant i <= |parts|
      invariant failure.None? && os.log == old(os.log) + plan[..i] && Succeeds(plan[..i], os.env.fails)
    {
      var filePath := Join(m.inputPath, PartName(i));
      failure := os.Do(WritePart(filePath, parts[i]));
      CallAt(old(os.log), os.log, plan, i, failure, os.env.fails);
      if failure.Some? {
        return;
      }
      i := i + 1;
    }
    assert Ran(os, old(os.log), plan, failure) by {
      assert plan[..i] == plan;
      AttemptOk(plan, os.env.fails);
    }
  }

  /** `_invoke_cli_model`: a non-zero exit status does not raise. */
  method InvokeCliModel(m: CliModel, os: Os) returns (failure: Option<Error>)
    modifies os
    ensures Ran(os, old(os.log), InvokePlan(m), failure)
  {
    failure := os.Do(Invoke(m.cliArgs, m.cwd));
    assert InvokePlan(m)[..0] == [];
  }

  /** The inner loop of `_read_model_output` over one directory's files;
      `count` files were read before it. */
  method ReadDirectory(os: Os, dir: WalkDir, count: nat, parts: seq<Part>, files: seq<Bytes>)
    returns (failure: Option<Error>, count': nat, parts': seq<Part>, files': seq<Bytes>)
    modifies os
    ensures Ran(os, old(os.log), ReadPlan(DirPaths(dir)), failure)
    ensures failure.None? ==> count' == count + |dir.filenames|
    ensures failure.None? ==> parts' == parts + Captures(count, DirPaths(dir), os.env)
    ensures failure.None? ==> files' == files + Contents(DirPaths(dir), os.env)
  {
    ghost var paths := DirPaths(dir);
    ghost var plan := ReadPlan(paths);
    ghost var fails := os.env.fails;
    failure, count', parts', files' := None, count, parts, files;
    var j := 0;
    while j < |dir.filenames|
      invariant j <= |dir.filenames| && count' == count + j
      invariant failure.None? && os.log == old(os.log) + plan[..j] && Succeeds(plan[..j], fails)
      invariant parts' == parts + Captures(count, paths[..j], os.env)
      invariant files' == files + Contents(paths[..j], os.env)
    {
      count' := count' + 1;
      var readPath := Join(dir.dirname, dir.filenames[j]);
      assert ReadOutput(readPath) == plan[j];
      failure := os.Do(ReadOutput(readPath));
      CallAt(old(os.log), os.log, plan, j, failure, fails);
      if failure.Some? {
        return;
      }
      var ds := os.env.file(readPath);
      files' := files' + [ds.data];
      parts' := parts' + [Part("sc-" + NatToString(count'), Some("dicom_secondary_capture"), None,
                               Some(ds.seriesUid), Some(ds.sopUid), None)];
      assert parts' == parts + Captures(count, paths[..j + 1], os.env) by {
        CapturesSnoc(count, paths, j, os.env);
      }
      assert files' == files + Contents(paths[..j + 1], os.env) by {
        ContentsSnoc(paths, j, os.env);
      }
      j := j + 1;
    }
    assert Ran(os, old(os.log), plan, failure) by {
      assert plan[..j] == plan;
      AttemptOk(plan, fails);
    }
  }

  lemma CapturesSnoc(offset: nat, paths: seq<string>, j: nat, env: Env)
    requires j < |paths|
    ensures Captures(offset, paths[..j + 1], env) == Captures(offset, paths[..j], env) + [Capture(offset + j, paths[j], env)]
  {
  }

  lemma ContentsSnoc(paths: seq<string>, j: nat, env: Env)
    requires j < |paths|
    ensures Contents(paths[..j + 1], env) == Contents(paths[..j], env) + [env.file(paths[j]).data]
  {
  }

  lemma CapturesAppend(offset: nat, p: seq<string>, q: seq<string>, env: Env)
    ensures Captures(offset, p + q, env) == Captures(offset, p, env) + Captures(offset + |p|, q, env)
  {
    assert forall j :: 0 <= j < |p + q| ==>
             Captures(offset, p + q, env)[j] == (Captures(offset, p, env) + Captures(offset + |p|, q, env))[j];
  }

  lemma ContentsAppend(p: seq<string>, q: seq<string>, env: Env)
    ensures Contents(p + q, env) == Contents(p, env) + Contents(q, env)
  {
  }

  /** The outer loop's invariant: the first k directories read without a
      failure, their parts and files collected. */
  ghost predicate ReadDirs(os: Os, start: seq<Action>, dirs: seq<WalkDir>, k: nat, count: nat,
                           parts: seq<Part>, files: seq<Bytes>)
    requires k <= |dirs|
    reads os
  {
    DirsRead(os.log, start, dirs, k, count, parts, files, os.env)
  }

  predicate DirsRead(log: seq<Action>, start: seq<Action>, dirs: seq<WalkDir>, k: nat, count: nat,
                     parts: seq<Part>, files: seq<Bytes>, env: Env)
    requires k <= |dirs|
  {
    var done := OutputPaths(dirs[..k]);
    && log == start + ReadPlan(done) && Succeeds(ReadPlan(done), env.fails)
    && count == |done| && parts == Captures(0, done, env) && files == Contents(done, env)
  }

  /** The outer loop's step on values: directory k read after the first k. */
  lemma NextDirectory(start: seq<Action>, mid: seq<Action>, log: seq<Action>, dirs: seq<WalkDir>, k: nat,
                      count: nat, parts: seq<Part>, files: seq<Bytes>, failure: Option<Error>,
                      count': nat, parts': seq<Part>, files': seq<Bytes>, env: Env)
    requires k < |dirs| && DirsRead(mid, start, dirs, k, count, parts, files, env)
    requires Traced(log, mid, ReadPlan(DirPaths(dirs[k])), failure, env.fails)
    requires failure.None? ==> && count' == count + |dirs[k].filenames|
                               && parts' == parts + Captures(count, DirPaths(dirs[k]), env)
                               && files' == files + Contents(DirPaths(dirs[k]), env)
    ensures failure.Some? ==> Traced(log, start, ReadPlan(OutputPaths(dirs)), failure, env.fails)
    ensures failure.None? ==> DirsRead(log, start, dirs, k + 1, count', parts', files', env)
  {
    if failure.Some? {
      NextDirectoryFails(start, mid, log, dirs, k, count, parts, files, failure, env);
    } else {
      NextDirectoryOk(start, mid, log, dirs, k, count, parts, files, count', parts', files', env);
    }
  }

  lemma NextDirectoryFails(start: seq<Action>, mid: seq<Action>, log: seq<Action>, dirs: seq<WalkDir>, k: nat,
                           count: nat, parts: seq<Part>, files: seq<Bytes>, failure: Option<Error>, env: Env)
    requires k < |dirs| && DirsRead(mid, start, dirs, k, count, parts, files, env)
    requires Traced(log, mid, ReadPlan(DirPaths(dirs[k])), failure, env.fails) && failure.Some?
    ensures Traced(log, start, ReadPlan(OutputPaths(dirs)), failure, env.fails)
  {
    var before := ReadPlan(OutputPaths(dirs[..k]));
    var here := Attempt(ReadPlan(DirPaths(dirs[k])), env.fails);
    assert mid == start + before && log == mid + here.actions && failure == here.failure;
    DirectoryFails(dirs, k, env.fails);
    AppendAssoc(start, before, here.actions);
  }

  lemma NextDirectoryOk(start: seq<Action>, mid: seq<Action>, log: seq<Action>, dirs: seq<WalkDir>, k: nat,
                        count: nat, parts: seq<Part>, files: seq<Bytes>,
                        count': nat, parts': seq<Part>, files': seq<Bytes>, env: Env)
    requires k < |dirs| && DirsRead(mid, start, dirs, k, count, parts, files, env)
    requires Traced(log, mid, ReadPlan(DirPaths(dirs[k])), None, env.fails)
    requires && count' == count + |dirs[k].filenames|
             && parts' == parts + Captures(count, DirPaths(dirs[k]), env)
             && files' == files + Contents(DirPaths(dirs[k]), env)
    ensures DirsRead(log, start, dirs, k + 1, count', parts', files', env)
  {
    DirectoryOk(dirs, k, env);
  }

  /** One pass of the outer loop: directory k read, or the reads stopped at
      the call that raised. */
  method ReadNext(os: Os, ghost start: seq<Action>, dirs: seq<WalkDir>, k: nat, count: nat,
                  parts: seq<Part>, files: seq<Bytes>)
    returns (failure: Option<Error>, count': nat, parts': seq<Part>, files': seq<Bytes>)
    requires k < |dirs| && ReadDirs(os, start, dirs, k, count, parts, files)
    modifies os
    ensures failure.Some? ==> Ran(os, start, ReadPlan(OutputPaths(dirs)), failure)
    ensures failure.None? ==> ReadDirs(os, start, dirs, k + 1, count', parts', files')
  {
    ghost var mid := os.log;
    failure, count', parts', files' := ReadDirectory(os, dirs[k], count, parts, files);
    NextDirectory(start, mid, os.log, dirs, k, count, parts, files, failure, count', parts', files', os.env);
  }

  /** `_read_model_output`: one manifest part and one response file per file
      found, numbered `sc-1, sc-2, ...` across all directories. */
  method ReadModelOutput(m: CliModel, os: Os) returns (failure: Option<Error>, output: (Response, seq<Bytes>))
    modifies os
    ensures Ran(os, old(os.log), ReadPlan(OutputPaths(OutputDirs(m, os.env))), failure)
    ensures failure.None? ==> var paths := OutputPaths(OutputDirs(m, os.env));
                              output == (EmptyResponse(Captures(0, paths, os.env)), Contents(paths, os.env))
  {
    var walkDirs := OutputDirs(m, os.env);
    var parts: seq<Part> := [];
    var responseFiles: seq<Bytes> := [];
    var i: nat := 0;
    failure, output := None, (EmptyResponse([]), []);
    var k := 0;
    while k < |walkDirs|
      invariant k <= |walkDirs| && failure.None?
      invariant ReadDirs(os, old(os.log), walkDirs, k, i, parts, responseFiles)
    {
      failure, i, parts, responseFiles := ReadNext(os, old(os.log), walkDirs, k, i, parts, responseFiles);
      if failure.Some? {
        return;
      }
      k := k + 1;
    }
    assert walkDirs[..k] == walkDirs;
    assert Ran(os, old(os.log), ReadPlan(OutputPaths(walkDirs)), failure) by {
      AttemptOk(ReadPlan(OutputPaths(walkDirs)), os.env.fails);
    }
    output := (EmptyResponse(parts), responseFiles);
  }

  /** A step after steps that succeeded: when it raises, the plan stops
      there. */
  lemma StepFails(p: seq<Action>, q: seq<Action>, rest: seq<Action>, fails: Action -> Option<Error>)
    requires Succeeds(p, fails) && Attempt(q, fails).failure.Some?
    ensures Attempt(p + q + rest, fails) == Attempted(p + Attempt(q, fails).actions, Attempt(q, fails).failure)
  {
    assert p + q + rest == p + (q + rest);
    AttemptAfterOk(p, q + rest, fails);
    AttemptStops(q, rest, fails);
  }

  /** A step after steps that succeeded: when it does not raise, all of them
      succeeded. */
  lemma StepOk(p: seq<Action>, q: seq<Action>, fails: Action -> Option<Error>)
    requires Succeeds(p, fails) && Attempt(q, fails).failure.None?
    ensures Attempt(q, fails).actions == q && Succeeds(p + q, fails)
  {
    AttemptNone(q, fails);
    assert forall i :: 0 <= i < |p| ==> (p + q)[i] == p[i];
    assert forall i :: |p| <= i < |p + q| ==> (p + q)[i] == q[i - |p|];
  }

  /** A directory whose reads raise, after directories read without one,
      stops the whole read plan there. */
  lemma DirectoryFails(dirs: seq<WalkDir>, k: nat, fails: Action -> Option<Error>)
    requires k < |dirs| && Succeeds(ReadPlan(OutputPaths(dirs[..k])), fails)
    requires Attempt(ReadPlan(DirPaths(dirs[k])), fails).failure.Some?
    ensures var here := Attempt(ReadPlan(DirPaths(dirs[k])), fails);
            Attempt(ReadPlan(OutputPaths(dirs)), fails) == Attempted(ReadPlan(OutputPaths(dirs[..k])) + here.actions, here.failure)
  {
    var before, here := OutputPaths(dirs[..k]), DirPaths(dirs[k]);
    OutputPathsSplit(dirs, k);
    StepFails(ReadPlan(before), ReadPlan(here), ReadPlan(OutputPaths(dirs)[|before + here|..]), fails);
  }

  /** A directory read without a failure extends the files read so far and
      the parts and files collected from them. */
  lemma DirectoryOk(dirs: seq<WalkDir>, k: nat, env: Env)
    requires k < |dirs| && Succeeds(ReadPlan(OutputPaths(dirs[..k])), env.fails)
    requires Attempt(ReadPlan(DirPaths(dirs[k])), env.fails).failure.None?
    ensures var before, after := OutputPaths(dirs[..k]), OutputPaths(dirs[..k + 1]);
            && ReadPlan(after) == ReadPlan(before) + Attempt(ReadPlan(DirPaths(dirs[k])), env.fails).actions
            && Succeeds(ReadPlan(after), env.fails)
            && |after| == |before| + |dirs[k].filenames|
            && Captures(0, after, env) == Captures(0, before, env) + Captures(|before|, DirPaths(dirs[k]), env)
            && Contents(after, env) == Contents(before, env) + Contents(DirPaths(dirs[k]), env)
  {
    var before, here := OutputPaths(dirs[..k]), DirPaths(dirs[k]);
    OutputPathsSplit(dirs, k);
    StepOk(ReadPlan(before), ReadPlan(here), env.fails);
    ReadPlanAppend(before, here);
    CapturesAppend(0, before, here, env);
    ContentsAppend(before, here, env);
  }

  /** The files of directory k come after those of the directories before it
      and before those of the directories after it. */
  lemma OutputPathsSplit(dirs: seq<WalkDir>, k: nat)
    requires k < |dirs|
    ensures OutputPaths(dirs[..k + 1]) == OutputPaths(dirs[..k]) + DirPaths(dirs[k])
    ensures var p := OutputPaths(dirs[..k]) + DirPaths(dirs[k]);
            |p| <= |OutputPaths(dirs)| &&
            ReadPlan(OutputPaths(dirs)) == ReadPlan(OutputPaths(dirs[..k])) + ReadPlan(DirPaths(dirs[k])) +
                                           ReadPlan(OutputPaths(dirs)[|p|..])
  {
    var a, b, all := OutputPaths(dirs[..k]), DirPaths(dirs[k]), OutputPaths(dirs);
    assert OutputPaths(dirs[..k + 1]) == a + b by {
      assert dirs[..k + 1][..k] == dirs[..k];
    }
    PathsPrefix(dirs, k + 1);
    var rest := all[|a + b|..];
    assert all == (a + b) + rest;
    ReadPlanAppend(a + b, rest);
    ReadPlanAppend(a, b);
  }

  lemma {:induction false} PathsPrefix(dirs: seq<WalkDir>, k: nat)
    requires k <= |dirs|
    ensures var p := OutputPaths(dirs[..k]); |p| <= |OutputPaths(dirs)| && OutputPaths(dirs)[..|p|] == p
    decreases |dirs|
  {
    if k < |dirs| {
      var init := dirs[..|dirs| - 1];
      PathsPrefix(init, k);
      assert init[..k] == dirs[..k];
    } else {
      assert dirs[..k] == dirs;
    }
  }

  /** Two steps one after the other: the second runs only when the first
      did not raise. */
  lemma TracedThen(start: seq<Action>, l1: seq<Action>, p: seq<Action>, f1: Option<Error>,
                   l2: seq<Action>, q: seq<Action>, f2: Option<Error>, fails: Action -> Option<Error>)
    requires Traced(l1, start, p, f1, fails)
    requires f1.Some? ==> l2 == l1 && f2 == f1
    requires f1.None? ==> Traced(l2, l1, q, f2, fails)
    ensures Traced(l2, start, p + q, f2, fails)
  {
    AttemptAppend(p, q, fails);
    if f1.None? {
      AttemptNone(p, fails);
      AppendAssoc(start, p, Attempt(q, fails).actions);
    }
  }

  /** `CliModel.run`: the steps in order inside `try`, the cleanup in
      `finally`. */
  method Run(m: CliModel, os: Os, parts: seq<Bytes>) returns (r: Result<(Response, seq<Bytes>)>)
    modifies os
    ensures os.log == old(os.log) + RunTrace(m, parts, os.env)
    ensures r == RunResult(m, parts, os.env)
  {
    ghost var fails := os.env.fails;
    ghost var a, b, c := MakeDirsPlan(m), WritePlan(m, parts), InvokePlan(m);
    ghost var d := ReadPlan(OutputPaths(OutputDirs(m, os.env)));
    var output: (Response, seq<Bytes>) := (EmptyResponse([]), []);
    var failure := MakeDirs(m, os);
    ghost var l1, f1 := os.log, failure;
    ghost var l2, f2, l3, f3, l4, f4 := l1, f1, l1, f1, l1, f1;
    if failure.None? {
      failure := WriteModelInput(m, os, parts);
      l2, f2 := os.log, failure;
      l3, f3, l4, f4 := l2, f2, l2, f2;
      if failure.None? {
        failure := InvokeCliModel(m, os);
        l3, f3 := os.log, failure;
        l4, f4 := l3, f3;
        if failure.None? {
          failure, output := ReadModelOutput(m, os);
          l4, f4 := os.log, failure;
        }
      }
    }
    assert Traced(os.log, old(os.log), Plan(m, parts, os.env), failure, fails) by {
      TracedThen(old(os.log), l1, a, f1, l2, b, f2, fails);
      TracedThen(old(os.log), l2, a + b, f2, l3, c, f3, fails);
      TracedThen(old(os.log), l3, a + b + c, f3, l4, d, f4, fails);
    }
    ghost var before := os.log;
    CleanupDirs(m, os);
    AppendAssoc(old(os.log), Attempt(Plan(m, parts, os.env), fails).actions, CleanupPlan(m));
    if failure.Some? {
      r := Err(failure.value);
    } else {
      r := Ok(output);
    }
  }

  /** The order of the steps: directories, input files, the command, the
      output files, cleanup. */
  function Rank(a: Action): nat
  {
    match a
    case MakeDir(_) => 0
    case WritePart(_, _) => 1
    case Invoke(_, _) => 2
    case ReadOutput(_) => 3
    case RemoveTree(_) => 4
  }

  /** `run` performs its steps in order and only then cleans up: along the
      calls it makes, the step never goes back. */
  lemma StepsInOrder(m: CliModel, parts: seq<Bytes>, env: Env)
    ensures var t := RunTrace(m, parts, env);
            forall i, j :: 0 <= i < j < |t| ==> Rank(t[i]) <= Rank(t[j])
  {
    var plan := Plan(m, parts, env);
    AttemptPrefix(plan, env.fails);
    PlanInOrder(m, parts, env);
    RanksThenCleanup(plan, Attempt(plan, env.fails).actions, CleanupPlan(m));
  }

  /** Along the plan the rank never goes back, and it stays below cleanup's. */
  lemma PlanInOrder(m: CliModel, parts: seq<Bytes>, env: Env)
    ensures var plan := Plan(m, parts, env);
            && (forall i :: 0 <= i < |plan| ==> Rank(plan[i]) < 4)
            && forall i, j :: 0 <= i < j < |plan| ==> Rank(plan[i]) <= Rank(plan[j])
  {
    var plan := Plan(m, parts, env);
    var a, b := MakeDirsPlan(m), WritePlan(m, parts);
    var d := ReadPlan(OutputPaths(OutputDirs(m, env)));
    forall i | 0 <= i < |plan|
      ensures Rank(plan[i]) == if i < |a| then 0 else if i < |a| + |b| then 1 else if i < |a| + |b| + 1 then 2 else 3
    {
      if i >= |a| + |b| + 1 {
        assert plan[i] == d[i - |a| - |b| - 1];
      }
    }
  }

  /** A prefix of a plan in rank order, then calls of the top rank, is in
      rank order. */
  lemma RanksThenCleanup(plan: seq<Action>, done: seq<Action>, cleanup: seq<Action>)
    requires |done| <= |plan| && done == plan[..|done|]
    requires forall i :: 0 <= i < |plan| ==> Rank(plan[i]) < 4
    requires forall i, j :: 0 <= i < j < |plan| ==> Rank(plan[i]) <= Rank(plan[j])
    requires forall k :: 0 <= k < |cleanup| ==> Rank(cleanup[k]) == 4
    ensures var t := done + cleanup;
            forall i, j :: 0 <= i < j < |t| ==> Rank(t[i]) <= Rank(t[j])
  {
    var t := done + cleanup;
    assert forall i :: 0 <= i < |done| ==> t[i] == plan[i];
    assert forall i :: |done| <= i < |t| ==> t[i] == cleanup[i - |done|];
  }

  /** Only the first step creates directories: the i-th call of the plan is
      a `MakeDir` exactly when it is `os.makedirs` of cleanup path i. */
  lemma MakeDirsFirst(m: CliModel, parts: seq<Bytes>, env: Env)
    ensures var plan := Plan(m, parts, env);
            forall i :: 0 <= i < |plan| && plan[i].MakeDir? ==>
              i < |m.cleanupPaths| && plan[i] == MakeDir(m.cleanupPaths[i])
  {
    var a, b, c := MakeDirsPlan(m), WritePlan(m, parts), InvokePlan(m);
    var d := ReadPlan(OutputPaths(OutputDirs(m, env)));
    assert forall k :: 0 <= k < |b| ==> !b[k].MakeDir?;
    assert forall k :: 0 <= k < |d| ==> !d[k].MakeDir?;
    AppendAssoc(a + b, c, d);
    AppendAssoc(a, b, c + d);
    MadeFirst(a, b + (c + d), m.cleanupPaths);
  }

  lemma MadeFirst(a: seq<Action>, rest: seq<Action>, paths: seq<string>)
    requires |a| == |paths| && forall i :: 0 <= i < |a| ==> a[i] == MakeDir(paths[i])
    requires forall k :: 0 <= k < |rest| ==> !rest[k].MakeDir?
    ensures forall i :: 0 <= i < |a + rest| && (a + rest)[i].MakeDir? ==> i < |paths| && (a + rest)[i] == MakeDir(paths[i])
  {
  }

  /** `finally`: whatever raises, every cleanup path is removed, after any
      call that created it, and cleanup is the last thing `run` does. */
  lemma CleanupAlways(m: CliModel, parts: seq<Bytes>, env: Env)
    ensures var t := RunTrace(m, parts, env);
            && |t| >= |m.cleanupPaths|
            && t[|t| - |m.cleanupPaths|..] == CleanupPlan(m)
            && forall i :: 0 <= i < |t| && t[i].MakeDir? ==>
                 exists j :: i < j < |t| && t[j] == RemoveTree(t[i].path)
  {
    var plan := Plan(m, parts, env);
    AttemptPrefix(plan, env.fails);
    MakeDirsFirst(m, parts, env);
    var done := Attempt(plan, env.fails).actions;
    AppendParts(done, CleanupPlan(m));
    RemovedAfterMade(plan, done, m.cleanupPaths, CleanupPlan(m));
  }

  /** A prefix of a plan whose directories are made in cleanup order, then
      the cleanup: every directory made is removed later on. */
  lemma RemovedAfterMade(plan: seq<Action>, done: seq<Action>, paths: seq<string>, cleanup: seq<Action>)
    requires |done| <= |plan| && done == plan[..|done|]
    requires forall i :: 0 <= i < |plan| && plan[i].MakeDir? ==> i < |paths| && plan[i] == MakeDir(paths[i])
    requires |cleanup| == |paths| && forall i :: 0 <= i < |paths| ==> cleanup[i] == RemoveTree(paths[i])
    ensures var t := done + cleanup;
            forall i :: 0 <= i < |t| && t[i].MakeDir? ==> exists j :: i < j < |t| && t[j] == RemoveTree(t[i].path)
  {
    var t := done + cleanup;
    forall i | 0 <= i < |t| && t[i].MakeDir?
      ensures exists j :: i < j < |t| && t[j] == RemoveTree(t[i].path)
    {
      assert i < |done| && t[i] == plan[i];
      var j := |done| + i;
      assert t[j] == RemoveTree(paths[i]);
    }
  }

  /** One manifest part per response file, in the same order, labelled
      `sc-1, sc-2, ...`; every part is a secondary capture with its file's
      UIDs, under protocol `'1.0'`. */
  lemma ManifestMatchesFiles(m: CliModel, parts: seq<Bytes>, env: Env)
    requires RunResult(m, parts, env).Ok?
    ensures var (json, files) := RunResult(m, parts, env).value;
            var paths := OutputPaths(OutputDirs(m, env));
            && json.protocolVersion == "1.0"
            && |json.parts| == |files| == |paths|
            && forall i :: 0 <= i < |paths| ==>
                 && files[i] == env.file(paths[i]).data
                 && json.parts[i].binaryType == Some("dicom_secondary_capture")
                 && json.parts[i].seriesUid == Some(env.file(paths[i]).seriesUid)
                 && json.parts[i].sopUid == Some(env.file(paths[i]).sopUid)
                 && |json.parts[i].labelText| > 3
                 && json.parts[i].labelText[..3] == "sc-"
                 && (forall c :: c in json.parts[i].labelText[3..] ==> '0' <= c <= '9')
                 && ParseNat(json.parts[i].labelText[3..]) == i + 1
  {
    var (json, files) := RunResult(m, parts, env).value;
    var paths := OutputPaths(OutputDirs(m, env));
    forall i | 0 <= i < |paths|
      ensures |json.parts[i].labelText| > 3 && json.parts[i].labelText[..3] == "sc-"
      ensures forall c :: c in json.parts[i].labelText[3..] ==> '0' <= c <= '9'
      ensures ParseNat(json.parts[i].labelText[3..]) == i + 1
    {
      var text := json.parts[i].labelText;
      assert text == "sc-" + NatToString(i + 1);
      assert text[3..] == NatToString(i + 1);
      ParseNatToString(i + 1);
    }
  }
}
