/**
 * The pinned-install helper of noxfile.py: the PINNED toggle, `_set_env_verbose` and `install`.
 * PINNED is read once at start-up; the model passes its value in as `pinned`.
 */
module Installer {
  import opened Wrappers
  import opened Nox

  // ---------------------------------------------------------------- PINNED

  /** Lower-cases the ASCII letters and keeps every other character. */
  function LowerChar(c: char): char {
    if 'A' <= c <= 'Z' then (c as int + 32) as char else c
  }

  function ToLower(s: string): string {
    seq(|s|, i requires 0 <= i < |s| => LowerChar(s[i]))
  }

  /**
   * `os.environ.get("PINNED", "true").lower() in {"1", "true"}`, given the variable's value if
   * set: pinning is on by default, and a set value can only turn it on when it has one or four
   * characters (`PinnedCases` says exactly which).
   */
  function Pinned(setting: Option<string>): (on: bool)
    ensures setting.None? ==> on
    ensures on ==> setting.None? || |setting.value| == 1 || |setting.value| == 4
  {
    var low := ToLower(setting.GetOr("true"));
    assert setting.None? ==> low[0] == 't' && low[1] == 'r' && low[2] == 'u' && low[3] == 'e';
    assert setting.None? ==> low == "true";
    low in {"1", "true"}
  }

  predicate IsTrueInAnyCase(v: string) {
    && |v| == 4
    && (v[0] == 't' || v[0] == 'T')
    && (v[1] == 'r' || v[1] == 'R')
    && (v[2] == 'u' || v[2] == 'U')
    && (v[3] == 'e' || v[3] == 'E')
  }

  /** Pinning is on when PINNED is unset, is "1", or spells "true" in any letter case; off otherwise. */
  lemma PinnedCases(setting: Option<string>)
    ensures Pinned(setting) <==> setting.None? || setting.value == "1" || IsTrueInAnyCase(setting.value)
  {
    var v := setting.GetOr("true");
    var low := ToLower(v);
    if low == "1" {
      assert low[0] == '1';
      assert v == "1";
    }
    if low == "true" {
      assert low[0] == 't' && low[1] == 'r' && low[2] == 'u' && low[3] == 'e';
      assert IsTrueInAnyCase(v);
    }
    if v == "1" {
      assert low == "1";
    }
    if IsTrueInAnyCase(v) {
      assert low == "true";
    }
  }

  // ---------------------------------------------------------------- _set_env_verbose

  function KeysOf(pairs: seq<(string, string)>): set<string> {
    set p | p in pairs :: p.0
  }

  /** No later pair has the same key as pair `i`. */
  predicate LastWithKey(pairs: seq<(string, string)>, i: int)
    requires 0 <= i < |pairs|
  {
    forall j :: i < j < |pairs| ==> pairs[j].0 != pairs[i].0
  }

  /** Keyword arguments never repeat a key. */
  predicate DistinctKeys(pairs: seq<(string, string)>) {
    forall i, j :: 0 <= i < j < |pairs| ==> pairs[i].0 != pairs[j].0
  }

  /** The dictionary obtained by storing the pairs one after the other. */
  function EnvOf(pairs: seq<(string, string)>): map<string, string> {
    if pairs == [] then map[]
    else EnvOf(pairs[..|pairs| - 1])[pairs[|pairs| - 1].0 := pairs[|pairs| - 1].1]
  }

  /** The dictionary holds exactly the keys of the pairs, each with the value of its last pair. */
  lemma {:induction false} EnvOfContents(pairs: seq<(string, string)>)
    ensures EnvOf(pairs).Keys == KeysOf(pairs)
    ensures forall i :: 0 <= i < |pairs| && LastWithKey(pairs, i) ==> EnvOf(pairs)[pairs[i].0] == pairs[i].1
    decreases |pairs|
  {
    if pairs != [] {
      var init, last := pairs[..|pairs| - 1], pairs[|pairs| - 1];
      assert pairs == init + [last];
      EnvOfContents(init);
      forall i | 0 <= i < |init| && LastWithKey(pairs, i)
        ensures LastWithKey(init, i)
      {
      }
    }
  }

  /** One `export KEY=value` log line per pair, in order, and nothing else. */
  function ExportLog(pairs: seq<(string, string)>): (log: seq<Op>)
    ensures |log| == |pairs|
    ensures forall i :: 0 <= i < |pairs| ==> log[i] == LoggedExport(pairs[i].0, pairs[i].1)
  {
    if pairs == [] then []
    else
      var last := pairs[|pairs| - 1];
      ExportLog(pairs[..|pairs| - 1]) + [LoggedExport(last.0, last.1)]
  }

  /** `_set_env_verbose`: builds the dictionary of the given variables, logging each as it is set. */
  method SetEnvVerbose(s: Session, env: seq<(string, string)>) returns (s': Session, finalEnv: map<string, string>)
    ensures finalEnv == EnvOf(env)
    ensures s' == s.Then(ExportLog(env))
  {
    finalEnv := map[];
    var log: seq<Op> := [];
    for i := 0 to |env|
      invariant finalEnv == EnvOf(env[..i])
      invariant log == ExportLog(env[..i])
    {
      var (key, value) := env[i];
      assert env[..i + 1][..i] == env[..i];
      finalEnv := finalEnv[key := value];
      log := log + [LoggedExport(key, value)];
    }
    assert env[..|env|] == env;
    s' := s.Then(log);
  }

  /** With distinct keys, `_set_env_verbose` returns exactly the given keys and values. */
  lemma SetEnvExact(pairs: seq<(string, string)>)
    requires DistinctKeys(pairs)
    ensures EnvOf(pairs).Keys == KeysOf(pairs)
    ensures forall i :: 0 <= i < |pairs| ==> EnvOf(pairs)[pairs[i].0] == pairs[i].1
  {
    EnvOfContents(pairs);
  }

  // ---------------------------------------------------------------- install

  function InputPath(req: string): string {
    "tests/" + req + ".in"
  }

  function ConstraintPath(req: string): string {
    "tests/" + req + ".txt"
  }

  const ConstraintVarNames: set<string> := {"PIP_CONSTRAINT", "UV_CONSTRAINT", "UV_BUILD_CONSTRAINT"}

  /** The variables `install` passes to `_set_env_verbose`, in keyword order. */
  function ConstraintVars(req: string): seq<(string, string)> {
    var p := ConstraintPath(req);
    [("PIP_CONSTRAINT", p), ("UV_CONSTRAINT", p), ("UV_BUILD_CONSTRAINT", p)]
  }

  /** `install` calls `.update` on the caller's `env`, so when given it must be a dictionary. */
  predicate EnvIsDict(kwargs: Kwargs) {
    "env" in kwargs ==> kwargs["env"].Dict?
  }

  function CallerEnv(kwargs: Kwargs): map<string, string>
    requires EnvIsDict(kwargs)
  {
    if "env" in kwargs then kwargs["env"].entries else map[]
  }

  /**
   * `kwargs.setdefault("env", {}).update(env)`: `env` is created when missing, the caller's
   * variables are kept, and on a clash the value from `env` wins; other keyword arguments are
   * left as they were.
   */
  function UpdateEnv(kwargs: Kwargs, env: map<string, string>): (r: Kwargs)
    requires EnvIsDict(kwargs)
    ensures r.Keys == kwargs.Keys + {"env"} && r["env"].Dict?
    ensures forall k :: k in kwargs && k != "env" ==> r[k] == kwargs[k]
    ensures r["env"].entries.Keys == CallerEnv(kwargs).Keys + env.Keys
    ensures forall k :: k in env ==> r["env"].entries[k] == env[k]
    ensures forall k :: k in CallerEnv(kwargs) && k !in env ==> r["env"].entries[k] == CallerEnv(kwargs)[k]
  {
    kwargs["env" := Dict(CallerEnv(kwargs) + env)]
  }

  /**
   * The keyword arguments `install` hands to `session.install`: unpinned, the caller's own;
   * pinned, the caller's with `env` added if missing, every other keyword argument unchanged.
   */
  function InstallKwargs(pinned: bool, req: string, kwargs: Kwargs): (r: Kwargs)
    requires pinned ==> EnvIsDict(kwargs)
    ensures !pinned ==> r == kwargs
    ensures r.Keys == kwargs.Keys + (if pinned then {"env"} else {})
    ensures forall k :: k in kwargs && k != "env" ==> r[k] == kwargs[k]
  {
    if pinned then UpdateEnv(kwargs, EnvOf(ConstraintVars(req))) else kwargs
  }

  /** The positional arguments `install` hands to `session.install`. */
  function InstallArgs(req: string, args: seq<string>): seq<string> {
    ["-r", InputPath(req)] + args
  }

  /**
   * Everything one call of `install` does to the session. With pinning on, the three exports
   * are logged in keyword order and then the set is installed; with pinning off it is only
   * installed. Either way the installer gets `-r tests/{req}.in` followed by `args`.
   */
  function InstallOps(pinned: bool, req: string, args: seq<string>, kwargs: Kwargs): (ops: seq<Op>)
    requires pinned ==> EnvIsDict(kwargs)
    ensures |ops| == (if pinned then 4 else 1)
    ensures ops[|ops| - 1] == Installed(InstallArgs(req, args), InstallKwargs(pinned, req, kwargs))
    ensures pinned ==>
      var p := ConstraintPath(req);
      && ops[0] == LoggedExport("PIP_CONSTRAINT", p)
      && ops[1] == LoggedExport("UV_CONSTRAINT", p)
      && ops[2] == LoggedExport("UV_BUILD_CONSTRAINT", p)
  {
    var install := Installed(InstallArgs(req, args), InstallKwargs(pinned, req, kwargs));
    if pinned then ExportLog(ConstraintVars(req)) + [install] else [install]
  }

  /** `install(session, *args, req=req, **kwargs)`. */
  method Install(s: Session, pinned: bool, req: string, args: seq<string>, kwargs: Kwargs) returns (s': Session)
    requires pinned ==> EnvIsDict(kwargs)
    ensures s' == s.Then(InstallOps(pinned, req, args, kwargs))
  {
    var kw := kwargs;
    s' := s;
    if pinned {
      var env;
      s', env := SetEnvVerbose(s', ConstraintVars(req));
      kw := UpdateEnv(kw, env);
    }
    s' := s'.Then([Installed(InstallArgs(req, args), kw)]);
  }

  /**
   * With pinning on, the three constraint variables all point at `tests/{req}.txt`; the
   * caller's other variables survive, a clashing caller variable is overwritten, and the other
   * keyword arguments are unchanged. With pinning off the keyword arguments are untouched.
   */
  lemma PinnedInstallEnv(req: string, kwargs: Kwargs)
    requires EnvIsDict(kwargs)
    ensures InstallKwargs(false, req, kwargs) == kwargs
    ensures var r := InstallKwargs(true, req, kwargs);
      && r.Keys == kwargs.Keys + {"env"} && r["env"].Dict?
      && (forall k :: k in kwargs && k != "env" ==> r[k] == kwargs[k])
      && r["env"].entries.Keys == CallerEnv(kwargs).Keys + ConstraintVarNames
      && (forall k :: k in ConstraintVarNames ==> r["env"].entries[k] == ConstraintPath(req))
      && (forall k :: k in CallerEnv(kwargs) && k !in ConstraintVarNames ==> r["env"].entries[k] == CallerEnv(kwargs)[k])
  {
    var pairs := ConstraintVars(req);
    EnvOfContents(pairs);
    assert LastWithKey(pairs, 0) && LastWithKey(pairs, 1) && LastWithKey(pairs, 2);
    assert KeysOf(pairs) == ConstraintVarNames;
  }
}
