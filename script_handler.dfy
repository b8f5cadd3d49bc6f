/** `handlers/script_handler.py`: finding the scripts that produce a page,
    the commands that run them, and the 60-second staleness test. The
    scripts themselves run in other processes; the model stops at the list
    of commands handed to `subprocess.run`. */
module ScriptHandler {
  import opened Wrappers
  import PyStr
  import PyPath
  import opened FileSystem
  import Config

  /** A found script: its path and its type (the extension without a dot). */
  datatype Script = Script(path: string, kind: string)

  /** `script_name.split('.')[0]` when the name has a dot, else the name. */
  function BaseName(name: string): string {
    if '.' in name then PyStr.SplitOn(name, '.')[0] else name
  }

  /** The base name is the text before the first dot. */
  lemma BaseNameBeforeFirstDot(name: string)
    ensures var b := BaseName(name);
      && '.' !in b
      && b == name[..PyStr.IndexOf(name, '.')]
      && (b == name <==> '.' !in name)
  {
    var k := PyStr.IndexOf(name, '.');
    if '.' in name {
      assert k < |name| by {
        var j :| 0 <= j < |name| && name[j] == '.';
      }
    } else {
      assert k == |name|;
    }
  }

  /** `os.path.join(template_dir, f"{base_name}.{script_type}")`. */
  function ScriptPath(dir: string, base: string, kind: string): string {
    PyPath.Join(dir, base + "." + kind)
  }

  /** The scripts the loop over `types` collects, in the order of `types`. */
  function Candidates(s: seq<Entry>, dir: string, base: string, types: seq<string>): (r: seq<Script>)
    ensures |r| <= |types|
    ensures forall k :: 0 <= k < |r| ==>
      r[k].kind in types && r[k].path == ScriptPath(dir, base, r[k].kind) && Exists(s, r[k].path)
  {
    if types == [] then []
    else
      var t := types[|types| - 1];
      var p := ScriptPath(dir, base, t);
      Candidates(s, dir, base, types[..|types| - 1]) + (if Exists(s, p) then [Script(p, t)] else [])
  }

  /** What `find_scripts` returns, or an error when it raises: with no
      script found it lists the template directory, which fails unless that
      is a directory. */
  function Found(s: seq<Entry>, dir: string, name: string): Result<seq<Script>> {
    var r := if Exists(s, dir) then Candidates(s, dir, BaseName(name), Config.ScriptTypes) else [];
    if r == [] && !IsDir(s, dir) then Err("os.listdir failed") else Ok(r)
  }

  lemma CandidatesStep(s: seq<Entry>, dir: string, base: string, types: seq<string>, i: nat)
    requires i < |types|
    ensures Candidates(s, dir, base, types[..i + 1]) == Candidates(s, dir, base, types[..i]) +
      (if Exists(s, ScriptPath(dir, base, types[i])) then [Script(ScriptPath(dir, base, types[i]), types[i])] else [])
  {
    assert types[..i + 1][..i] == types[..i];
  }

  /** `find_scripts(script_name)`. */
  method FindScripts(fs: Tree, templateDir: string, scriptName: string) returns (r: Result<seq<Script>>)
    ensures r == Found(fs.entries, templateDir, scriptName)
  {
    var s := fs.entries;
    var types := Config.ScriptTypes;
    var found: seq<Script> := [];
    if Exists(s, templateDir) {
      var i := 0;
      while i < |types|
        invariant 0 <= i <= |types|
        invariant found == Candidates(s, templateDir, BaseName(scriptName), types[..i])
      {
        var base := scriptName;
        if '.' in scriptName {
          base := PyStr.SplitOn(scriptName, '.')[0];
        }
        var path := ScriptPath(templateDir, base, types[i]);
        CandidatesStep(s, templateDir, base, types, i);
        if Exists(s, path) {
          found := found + [Script(path, types[i])];
        }
        i := i + 1;
      }
      assert types[..i] == types;
    }
    if found == [] && !IsDir(s, templateDir) {
      return Err("os.listdir failed");
    }
    r := Ok(found);
  }

  /** Every script type present under the directory is found. */
  lemma {:induction false} CandidatesComplete(s: seq<Entry>, dir: string, base: string, types: seq<string>, t: string)
    requires t in types && Exists(s, ScriptPath(dir, base, t))
    ensures Script(ScriptPath(dir, base, t), t) in Candidates(s, dir, base, types)
  {
    var init, last := types[..|types| - 1], types[|types| - 1];
    if t != last {
      assert t in init by { assert types == init + [last]; }
      CandidatesComplete(s, dir, base, init, t);
    }
  }

  /** The first position of `t` in `types`, or `|types|`. */
  function Rank(types: seq<string>, t: string): (k: nat)
    ensures k <= |types|
    ensures k < |types| <==> t in types
    ensures k < |types| ==> types[k] == t
  {
    if types == [] then 0
    else if types[0] == t then 0
    else 1 + Rank(types[1..], t)
  }

  lemma {:induction false} RankPrefix(types: seq<string>, m: nat, t: string)
    requires m <= |types| && t in types[..m]
    ensures Rank(types, t) < m && Rank(types[..m], t) == Rank(types, t)
  {
    if types[0] != t {
      assert types[1..][..m - 1] == types[..m][1..];
      RankPrefix(types[1..], m - 1, t);
    }
  }

  /** In a list of distinct types, the last one ranks last and does not
      occur before; the front is distinct as well. */
  lemma DistinctLast(types: seq<string>)
    requires Config.Distinct(types) && types != []
    ensures var n := |types|;
      && Rank(types, types[n - 1]) == n - 1
      && Config.Distinct(types[..n - 1])
  {
    var n := |types|;
    var k := Rank(types, types[n - 1]);
    assert types[k] == types[n - 1];
    var init := types[..n - 1];
    forall a, b | 0 <= a < b < |init| ensures init[a] != init[b] {
      assert init[a] == types[a] && init[b] == types[b];
    }
  }

  /** The results before the last type's are those of the shorter list. */
  lemma CandidatesSplit(s: seq<Entry>, dir: string, base: string, types: seq<string>)
    requires types != []
    ensures var n := |types|;
      var r0 := Candidates(s, dir, base, types[..n - 1]);
      var r := Candidates(s, dir, base, types);
      && r[..|r0|] == r0
      && (|r| == |r0| || (|r| == |r0| + 1 && r[|r0|].kind == types[n - 1]))
  {
  }

  /** Ranks in the front of a distinct list are ranks in the whole list,
      and the last element ranks after every element of the front. */
  lemma RankStep(types: seq<string>, ki: string, kj: string)
    requires Config.Distinct(types) && types != []
    requires ki in types[..|types| - 1]
    requires (kj in types[..|types| - 1] && Rank(types[..|types| - 1], ki) < Rank(types[..|types| - 1], kj))
          || kj == types[|types| - 1]
    ensures Rank(types, ki) < Rank(types, kj)
  {
    var n := |types|;
    DistinctLast(types);
    RankPrefix(types, n - 1, ki);
    if kj != types[n - 1] {
      RankPrefix(types, n - 1, kj);
    }
  }

  /** With distinct types, a result listed earlier has an earlier type. */
  lemma {:induction false} CandidatesOrderedAt(s: seq<Entry>, dir: string, base: string, types: seq<string>, i: nat, j: nat)
    requires Config.Distinct(types)
    requires i < j < |Candidates(s, dir, base, types)|
    ensures var r := Candidates(s, dir, base, types);
      Rank(types, r[i].kind) < Rank(types, r[j].kind)
  {
    var n := |types|;
    var init := types[..n - 1];
    var r0 := Candidates(s, dir, base, init);
    var r := Candidates(s, dir, base, types);
    CandidatesSplit(s, dir, base, types);
    DistinctLast(types);
    assert r[i] == r0[i];
    if j < |r0| {
      assert r[j] == r0[j];
      CandidatesOrderedAt(s, dir, base, init, i, j);
    }
    RankStep(types, r[i].kind, r[j].kind);
  }

  /** With distinct types, the results follow the order of the types. */
  lemma CandidatesOrdered(s: seq<Entry>, dir: string, base: string, types: seq<string>)
    requires Config.Distinct(types)
    ensures var r := Candidates(s, dir, base, types);
      forall i, j :: 0 <= i < j < |r| ==> Rank(types, r[i].kind) < Rank(types, r[j].kind)
  {
    var r := Candidates(s, dir, base, types);
    forall i, j | 0 <= i < j < |r| ensures Rank(types, r[i].kind) < Rank(types, r[j].kind) {
      CandidatesOrderedAt(s, dir, base, types, i, j);
    }
  }

  /** `find_scripts` returns at most one script per type, in type order,
      and each one exists with a known type. A missing template directory
      makes it raise. */
  lemma FoundProperties(s: seq<Entry>, dir: string, name: string)
    ensures !Exists(s, dir) ==> Found(s, dir, name).Err?
    ensures Found(s, dir, name).Ok? ==> var r := Found(s, dir, name).value;
      && |r| <= 5
      && (forall k :: 0 <= k < |r| ==>
            r[k].kind in Config.ScriptTypes && Exists(s, r[k].path) && r[k].path == ScriptPath(dir, BaseName(name), r[k].kind))
      && (forall i, j :: 0 <= i < j < |r| ==>
            Rank(Config.ScriptTypes, r[i].kind) < Rank(Config.ScriptTypes, r[j].kind))
    ensures Exists(s, dir) ==> forall t :: t in Config.ScriptTypes && Exists(s, ScriptPath(dir, BaseName(name), t)) ==>
      Found(s, dir, name).Ok? && Script(ScriptPath(dir, BaseName(name), t), t) in Found(s, dir, name).value
  {
    var types := Config.ScriptTypes;
    assert Config.Distinct(types);
    CandidatesOrdered(s, dir, BaseName(name), types);
    forall t | Exists(s, dir) && t in types && Exists(s, ScriptPath(dir, BaseName(name), t))
      ensures Found(s, dir, name).Ok? && Script(ScriptPath(dir, BaseName(name), t), t) in Found(s, dir, name).value
    {
      CandidatesComplete(s, dir, BaseName(name), types, t);
    }
  }

  // ---------------------------------------------------------------------
  // `run_script`

  /** The command for one script, or None when its type has no interpreter
      (`if interpreter:` rejects a missing or empty one). */
  function Command(sc: Script, args: seq<string>): Option<seq<string>> {
    if sc.kind in Config.InterpreterMap && Config.InterpreterMap[sc.kind] != [] then
      Some([Config.InterpreterMap[sc.kind], sc.path] + args)
    else None
  }

  /** The commands `run_script` hands to `subprocess.run`, in order. */
  function Commands(found: seq<Script>, args: seq<string>): seq<seq<string>> {
    if found == [] then []
    else
      var c := Command(found[|found| - 1], args);
      Commands(found[..|found| - 1], args) + (if c.Some? then [c.value] else [])
  }

  /** The command loop of `run_script`; `args` are already converted with
      `str`. A failing command is caught and the loop goes on, so it does
      not change what is run next. */
  method RunScript(found: seq<Script>, args: seq<string>) returns (cmds: seq<seq<string>>)
    ensures cmds == Commands(found, args)
  {
    cmds := [];
    var i := 0;
    while i < |found|
      invariant 0 <= i <= |found|
      invariant cmds == Commands(found[..i], args)
    {
      assert found[..i + 1][..i] == found[..i];
      var sc := found[i];
      if sc.kind in Config.InterpreterMap {
        var interpreter := Config.InterpreterMap[sc.kind];
        if interpreter != [] {
          var cmd := [interpreter, sc.path];
          cmd := cmd + args;
          cmds := cmds + [cmd];
        }
      }
      i := i + 1;
    }
    assert found[..i] == found;
  }

  /** A script of a known type gets its type's interpreter. */
  lemma CommandKnown(sc: Script, args: seq<string>)
    requires sc.kind in Config.ScriptTypes
    ensures Command(sc, args) == Some([Config.Interpreters[Rank(Config.ScriptTypes, sc.kind)], sc.path] + args)
  {
    var j := Rank(Config.ScriptTypes, sc.kind);
    Config.InterpreterFor(j);
    assert Config.Interpreters[j] != [];
  }

  /** With every command present, the list of commands lines up with the
      list of scripts. */
  lemma {:induction false} CommandsAllPresent(found: seq<Script>, args: seq<string>)
    requires forall k :: 0 <= k < |found| ==> Command(found[k], args).Some?
    ensures |Commands(found, args)| == |found|
    ensures forall k :: 0 <= k < |found| ==> Commands(found, args)[k] == Command(found[k], args).value
  {
    if found != [] {
      var n := |found|;
      var init := found[..n - 1];
      assert forall k :: 0 <= k < |init| ==> init[k] == found[k];
      CommandsAllPresent(init, args);
      var c, ci := Commands(found, args), Commands(init, args);
      assert c == ci + [Command(found[n - 1], args).value];
      forall k | 0 <= k < n
        ensures c[k] == Command(found[k], args).value
      {
        if k < n - 1 {
          assert c[k] == ci[k] && init[k] == found[k];
        }
      }
    }
  }

  /** No found script is skipped: every script type has an interpreter, so
      the i-th command runs the i-th script with its type's interpreter,
      followed by the arguments in order. */
  lemma CommandsForKnownTypes(found: seq<Script>, args: seq<string>)
    requires forall k :: 0 <= k < |found| ==> found[k].kind in Config.ScriptTypes
    ensures var cmds := Commands(found, args);
      && |cmds| == |found|
      && forall k :: 0 <= k < |found| ==>
           cmds[k] == [Config.Interpreters[Rank(Config.ScriptTypes, found[k].kind)], found[k].path] + args
  {
    forall k | 0 <= k < |found|
      ensures Command(found[k], args) == Some([Config.Interpreters[Rank(Config.ScriptTypes, found[k].kind)], found[k].path] + args)
    {
      CommandKnown(found[k], args);
    }
    CommandsAllPresent(found, args);
  }

  // ---------------------------------------------------------------------
  // `run_script_if_needed`

  /** Whether the output must be generated: it is missing, or it was last
      modified more than 60 seconds before `now`. `os.path.getmtime` works
      on a directory as well; the tree does not record when a directory
      last changed, so `dirMtime` is what it reports for a directory at the
      output path. */
  predicate NeedsRegeneration(output: Option<Entry>, now: int, dirMtime: int) {
    match output
    case None => true
    case Some(Dir(_)) => now - dirMtime > 60
    case Some(File(_, _, mtime)) => now - mtime > 60
  }

  /** Once stale, an output stays stale as time passes; a file is fresh for
      exactly 60 seconds after it is written, and so is a directory after
      it last changed. */
  lemma NeedsRegenerationWindow(output: Option<Entry>, now: int, later: int, dirMtime: int)
    requires now <= later
    ensures NeedsRegeneration(output, now, dirMtime) ==> NeedsRegeneration(output, later, dirMtime)
    ensures output.Some? && output.value.File? ==>
      (NeedsRegeneration(output, now, dirMtime) <==> now > output.value.mtime + 60)
    ensures output.Some? && output.value.Dir? ==>
      (NeedsRegeneration(output, now, dirMtime) <==> now > dirMtime + 60)
    ensures output.None? ==> NeedsRegeneration(output, now, dirMtime)
  {
  }

  /** What `run_script_if_needed` runs: nothing when the output is fresh;
      otherwise the commands for the scripts found, or the error with
      which `find_scripts` raises. */
  function RunIfNeeded(s: seq<Entry>, directory: string, templateDir: string, output: string,
                       name: string, args: seq<string>, now: int, dirMtime: int): Result<seq<seq<string>>> {
    if !NeedsRegeneration(Find(s, PyPath.Join(directory, output)), now, dirMtime) then Ok([])
    else match Found(s, templateDir, name)
      case Err(e) => Err(e)
      case Ok(found) => Ok(Commands(found, args))
  }

  /** `run_script_if_needed(output_filename, script_name, *args)`; `now` is
      `time.time()` in whole seconds. */
  method RunScriptIfNeeded(fs: Tree, directory: string, templateDir: string, output: string,
                           name: string, args: seq<string>, now: int, dirMtime: int) returns (r: Result<seq<seq<string>>>)
    ensures r == RunIfNeeded(fs.entries, directory, templateDir, output, name, args, now, dirMtime)
  {
    var path := PyPath.Join(directory, output);
    if !NeedsRegeneration(Find(fs.entries, path), now, dirMtime) {
      return Ok([]);
    }
    var found := FindScripts(fs, templateDir, name);
    match found
    case Err(e) =>
      r := Err(e);
    case Ok(scripts) =>
      var cmds := RunScript(scripts, args);
      r := Ok(cmds);
  }

  /** When the output is stale and scripts exist, one command runs per
      script found, with its type's interpreter. */
  lemma RunIfNeededRunsAll(s: seq<Entry>, directory: string, templateDir: string, output: string,
                           name: string, args: seq<string>, now: int, dirMtime: int)
    requires NeedsRegeneration(Find(s, PyPath.Join(directory, output)), now, dirMtime)
    requires Found(s, templateDir, name).Ok?
    ensures var found := Found(s, templateDir, name).value;
      var r := RunIfNeeded(s, directory, templateDir, output, name, args, now, dirMtime);
      && r.Ok? && |r.value| == |found|
      && forall k :: 0 <= k < |found| ==>
           r.value[k] == [Config.Interpreters[Rank(Config.ScriptTypes, found[k].kind)], found[k].path] + args
  {
    FoundProperties(s, templateDir, name);
    CommandsForKnownTypes(Found(s, templateDir, name).value, args);
  }
}
