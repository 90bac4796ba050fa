/**
 * The `pip-compile` session: regenerates tests/{req}.txt from tests/{req}.in, with a custom
 * `--check` flag that instead fails the session when the regenerated lock files differ.
 */
module PipCompile {
  import opened Strings
  import opened Nox
  import Installer

  const CheckFlag := "--check"
  const UpgradeFlag := "--upgrade"

  /** Arguments that already say how to upgrade, so `--upgrade` is not added. */
  const UpgradeControls: seq<string> := ["-P", "--upgrade-package", "--no-upgrade"]

  /** What the session installs before compiling, unpinned. */
  const PipTools: seq<string> := ["pip-tools >= 7", "pip < 24.3"]

  const GitDiff: seq<string> := ["git", "diff", "tests"]

  /** Where `list.index` would find `x`: an occurrence with none before it. */
  function FirstIndex(s: seq<string>, x: string): (i: nat)
    requires x in s
    ensures i < |s| && s[i] == x && x !in s[..i]
  {
    if s[0] == x then 0
    else
      assert s == [s[0]] + s[1..];
      FirstIndex(s[1..], x) + 1
  }

  /** `list.remove(x)`: drops the first occurrence only; the rest keep their order. */
  function RemoveFirst(s: seq<string>, x: string): (r: seq<string>)
    requires x in s
    ensures |r| == |s| - 1
    ensures multiset(r) == multiset(s) - multiset{x}
    ensures var i := FirstIndex(s, x); r[..i] == s[..i] && r[i..] == s[i + 1..]
  {
    var i := FirstIndex(s, x);
    assert s == s[..i] + [s[i]] + s[i + 1..];
    s[..i] + s[i + 1..]
  }

  /**
   * The arguments forwarded to pip-compile. In check mode one `--check` is removed and
   * nothing is added. Otherwise the user's arguments are kept, and `--upgrade` is appended
   * at the end exactly when no argument starts with an upgrade control.
   */
  function CompileArgs(posargs: seq<string>): (args: seq<string>)
    ensures CheckFlag in posargs ==>
      && |args| == |posargs| - 1
      && multiset(args) == multiset(posargs) - multiset{CheckFlag}
      && multiset(args)[UpgradeFlag] == multiset(posargs)[UpgradeFlag]
    ensures CheckFlag in posargs ==>
      var i := FirstIndex(posargs, CheckFlag); args == posargs[..i] + posargs[i + 1..]
    ensures CheckFlag !in posargs ==>
      && |posargs| <= |args| && args[..|posargs|] == posargs
      && (|args| == |posargs| + 1 <==> !HasPrefixedArg(posargs, UpgradeControls))
      && (|args| != |posargs| + 1 ==> args == posargs)
      && (|args| == |posargs| + 1 ==> args[|posargs|] == UpgradeFlag)
  {
    if CheckFlag in posargs then RemoveFirst(posargs, CheckFlag)
    else if HasPrefixedArg(posargs, UpgradeControls) then posargs
    else posargs + [UpgradeFlag]
  }

  /**
   * The pip-compile command line: the output option naming tests/{req}.txt, the forwarded
   * arguments unchanged and in order, then the input file tests/{req}.in last.
   */
  function CompileCommand(req: string, args: seq<string>): (cmd: seq<string>)
    ensures |cmd| == |args| + 4
    ensures cmd[..3] == ["pip-compile", "--output-file", Installer.ConstraintPath(req)]
    ensures cmd[3..|cmd| - 1] == args
    ensures cmd[|cmd| - 1] == Installer.InputPath(req)
  {
    ["pip-compile", "--output-file", Installer.ConstraintPath(req)] + args + [Installer.InputPath(req)]
  }

  /**
   * The argument handling of `pip_compile`: detects check mode, then removes the first
   * `--check` or appends `--upgrade` as `CompileArgs` says.
   */
  method RewriteArgs(posargs: seq<string>) returns (checkMode: bool, args: seq<string>)
    ensures checkMode <==> CheckFlag in posargs
    ensures args == CompileArgs(posargs)
  {
    args := posargs;
    var i := 0;
    while i < |args| && args[i] != CheckFlag
      invariant 0 <= i <= |args|
      invariant CheckFlag !in args[..i]
    {
      i := i + 1;
    }
    checkMode := i < |args|;
    if checkMode {
      assert i == FirstIndex(args, CheckFlag);
      args := args[..i] + args[i + 1..];
    } else {
      assert args[..i] == args;
      var controlled := AnyStartsWith(args, UpgradeControls);
      if !controlled {
        args := args + [UpgradeFlag];
      }
    }
  }

  /**
   * What `pip_compile` does to the session, given its pip-compile run, whether it is in check
   * mode and whether `git diff tests` printed anything: pip-tools is installed unpinned,
   * pip-compile runs once, and only in check mode the diff runs after it; the session fails
   * exactly in check mode with a non-empty diff, and then as its last step.
   */
  function PipCompileOps(compile: Op, checkMode: bool, changed: bool): (ops: seq<Op>)
    ensures |ops| == (if !checkMode then 2 else if !changed then 3 else 4)
    ensures ops[0] == Installed(PipTools, map[]) && ops[1] == compile
    ensures checkMode ==> ops[2] == Ran(GitDiff, true, true)
    ensures !compile.Errored? ==> ((exists op :: op in ops && op.Errored?) <==> checkMode && changed)
    ensures checkMode && changed ==> ops[|ops| - 1] == Errored(FilesChanged)
  {
    var ops := [Installed(PipTools, map[]), compile]
      + (if checkMode then [Ran(GitDiff, true, true)] + (if changed then [Errored(FilesChanged)] else []) else []);
    assert checkMode && changed ==> ops[3] in ops;
    ops
  }

  /**
   * `pip_compile(session, req)`: installs pip-tools, runs pip-compile with the rewritten
   * arguments and, in check mode only, runs the diff and fails exactly when it is non-empty.
   */
  method PipCompileSession(s: Session, req: string, diffOutput: string) returns (s': Session)
    ensures var compile := Ran(CompileCommand(req, CompileArgs(s.posargs)), false, false);
      s' == s.Then(PipCompileOps(compile, CheckFlag in s.posargs, diffOutput != ""))
    ensures s'.Aborted() <==> s.Aborted() || (CheckFlag in s.posargs && diffOutput != "")
  {
    var checkMode, args := RewriteArgs(s.posargs);
    var compile := Ran(CompileCommand(req, args), false, false);
    var ops := [Installed(PipTools, map[]), compile];
    if checkMode {
      ops := ops + [Ran(GitDiff, true, true)];
      if diffOutput != "" {
        ops := ops + [Errored(FilesChanged)];
      }
    }
    assert ops == PipCompileOps(compile, checkMode, diffOutput != "");
    s' := s.Then(ops);
  }

  /**
   * `list.remove` takes away a single `--check`: given twice or more, all but one of them
   * still reach the pip-compile command line.
   */
  lemma RepeatedCheckIsForwarded(req: string, posargs: seq<string>)
    requires multiset(posargs)[CheckFlag] >= 2
    ensures multiset(CompileArgs(posargs))[CheckFlag] == multiset(posargs)[CheckFlag] - 1
    ensures CheckFlag in CompileCommand(req, CompileArgs(posargs))
  {
    var args := CompileArgs(posargs);
    assert CheckFlag in multiset(args);
    var cmd := CompileCommand(req, args);
    var k :| 0 <= k < |args| && args[k] == CheckFlag;
    assert cmd[3..|cmd| - 1][k] == CheckFlag;
  }
}
