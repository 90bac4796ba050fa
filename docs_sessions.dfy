/**
 * The documentation sessions `checkers` and `make`. Their `--relaxed` flag and make targets
 * come from an argument parser, whose result is passed in.
 */
module DocsSessions {
  import opened Nox
  import Installer

  /**
   * The requirement set to install: with `--relaxed` the one read from
   * tests/requirements-relaxed.in, otherwise the one read from tests/requirements.in.
   */
  function RequirementSet(relaxed: bool): (req: string)
    ensures relaxed ==> Installer.InputPath(req) == "tests/requirements-relaxed.in"
    ensures !relaxed ==> Installer.InputPath(req) == "tests/requirements.in"
  {
    if relaxed then "requirements-relaxed" else "requirements"
  }

  const DefaultTargets: seq<string> := ["clean", "coredocs"]

  /** `_clone_core_check`. */
  const CloneCoreCheck: Op := Ran(["python", "docs/bin/clone-core.py", "--check"], false, false)

  /** The run through which `_env_python` asks the environment's interpreter for its path. */
  const EnvPythonQuery: Op := Ran(["python", "-c", "import sys; print(sys.executable)"], false, true)

  function MakeInDocsite(args: seq<string>): Op {
    Ran(["make", "-C", "docs/docsite"] + args, true, false)
  }

  /**
   * The make arguments: the interpreter assignment first, then the user's targets in order,
   * or "clean" and "coredocs" when none were given; make never runs without a target.
   */
  function MakeArgs(python: string, targets: seq<string>): (args: seq<string>)
    ensures |args| >= 2 && args[0] == "PYTHON=" + python
    ensures targets != [] ==> args[1..] == targets
    ensures targets == [] ==> args[1..] == DefaultTargets
  {
    ["PYTHON=" + python] + (if targets != [] then targets else DefaultTargets)
  }

  /**
   * `checkers(session, test)`: installs the selected requirement set, checks the core clone,
   * cleans the docs build and runs checker `test`.
   */
  method CheckersSession(s: Session, pinned: bool, relaxed: bool, test: string) returns (s': Session)
    ensures s' == s.Then(Installer.InstallOps(pinned, RequirementSet(relaxed), [], map[])
                         + [CloneCoreCheck,
                            MakeInDocsite(["clean"]),
                            Ran(["python", "tests/checkers.py", test], false, false)])
  {
    s' := Installer.Install(s, pinned, RequirementSet(relaxed), [], map[]);
    s' := s'.Then([CloneCoreCheck]);
    s' := s'.Then([MakeInDocsite(["clean"])]);
    s' := s'.Then([Ran(["python", "tests/checkers.py", test], false, false)]);
  }

  /**
   * `make(session)`, with the interpreter path `_env_python` reports as a parameter:
   * installs the selected requirement set, checks the core clone, asks for the interpreter
   * path and runs make in docs/docsite.
   */
  method MakeSession(s: Session, pinned: bool, relaxed: bool, targets: seq<string>, python: string)
    returns (s': Session)
    ensures s' == s.Then(Installer.InstallOps(pinned, RequirementSet(relaxed), [], map[])
                         + [CloneCoreCheck, EnvPythonQuery, MakeInDocsite(MakeArgs(python, targets))])
  {
    s' := Installer.Install(s, pinned, RequirementSet(relaxed), [], map[]);
    s' := s'.Then([CloneCoreCheck]);
    s' := s'.Then([EnvPythonQuery]);
    var makeArgs := ["PYTHON=" + python] + (if targets != [] then targets else DefaultTargets);
    s' := s'.Then([MakeInDocsite(makeArgs)]);
  }
}
