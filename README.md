# noxfile orchestration core, modelled in Dafny

The repository drives its linting, lock-file and documentation work through one nox script,
`noxfile.py`. Most of the script installs a requirement set and then runs a tool. This
project models the decision logic inside that glue:

- the PINNED toggle, and `install` with its helper `_set_env_verbose`, which point pip and uv
  at the constraint file `tests/{req}.txt` when pinning is on;
- the container engine lookup `_get_container_engine`;
- the requirement-set discovery `requirements_files`;
- the argument rewriting of the `pip-compile` session (`--check`, `--upgrade`);
- the subcommand defaulting of the `tag` session;
- the requirement-set choice and make arguments of the `checkers` and `make` sessions.

A nox session is modelled as a value, `Nox.Session`. It holds the session name, the
passthrough arguments and the ordered list of operations the session performs: log lines,
installs, runs and the final error. Each session function becomes a method from the session
before to the session after. The following are all parameters:

- the value of PINNED and of CONTAINER_ENGINE;
- `shutil.which`;
- the names in `tests/`;
- the output of `git diff tests`;
- the parsed `--relaxed` flag and make targets;
- the interpreter path.

Files: `nox.dfy` (session, operations), `installer.dfy`, `container_engine.dfy`,
`requirements.dfy`, `pip_compile.dfy`, `tag.dfy`, `docs_sessions.dfy`, and the helpers
`strings.dfy` and `wrappers.dfy`.

The comment at noxfile.py:172 says the `--check` flag is removed because pip-compile does
not support it. `list.remove` drops only the first occurrence, so a `--check` given twice
still reaches pip-compile once (`PipCompile.RepeatedCheckIsForwarded`).

## Model

| member | source | states |
|---|---|---|
| Strings.AnyStartsWith | noxfile.py:174-176 | true exactly when some argument starts with one of the given prefixes |
| Installer.Pinned | noxfile.py:19 | pinning is on when PINNED is unset; a set value can only turn it on when it is one or four characters long |
| Installer.PinnedCases | noxfile.py:19 | pinning is on exactly when PINNED is unset, is "1", or spells "true" in any letter case |
| Installer.EnvOfContents | noxfile.py:27-29 | the built dictionary holds exactly the given keys, each with the value of its last pair |
| Installer.ExportLog | noxfile.py:28-30 | one export log line per variable, in iteration order, and nothing else |
| Installer.SetEnvVerbose | noxfile.py:23-31 | the loop returns the dictionary of the given variables and appends exactly their export lines, in order, to the session |
| Installer.SetEnvExact | noxfile.py:23-31 | with distinct keyword names the result has exactly the given keys and values |
| Installer.InstallKwargs | noxfile.py:35-46 | unpinned: the caller's keyword arguments unchanged; pinned: `env` added if missing, every other keyword argument unchanged |
| Installer.UpdateEnv | noxfile.py:45 | `env` is created if missing; caller variables are kept, a clashing one takes the pinning value, other keyword arguments are unchanged |
| Installer.Install | noxfile.py:34-46 | the session gains the export logs (only when pinned) followed by one install of `-r tests/{req}.in` plus the extra arguments |
| Installer.PinnedInstallEnv | noxfile.py:35-45 | pinned: PIP_CONSTRAINT, UV_CONSTRAINT and UV_BUILD_CONSTRAINT all equal `tests/{req}.txt`, caller variables with other names survive, clashes are overwritten, other kwargs unchanged; unpinned: kwargs untouched |
| Installer.InstallOps | noxfile.py:34-46 | pinned: three export logs in keyword order, each naming `tests/{req}.txt`, then the install; unpinned: the install alone; the installer always gets `-r tests/{req}.in` followed by the arguments |
| ContainerEngine.FirstFound | noxfile.py:63-65 | the first candidate position whose lookup succeeds; every earlier candidate fails |
| ContainerEngine.GetContainerEngine | noxfile.py:54-69 | an override is looked up alone and yields its path or an error, with no fallback; otherwise candidates are looked up in order up to the first hit, whose path is returned; if none resolves, the error names all candidates |
| Strings.ReplaceAll | noxfile.py:152 | `str.replace` never lengthens a string when the replacement is no longer than the pattern, and a string equal to the pattern becomes the replacement |
| Requirements.GlobMatches | noxfile.py:152 | the glob "*in" matches exactly the names whose last two characters are "i" and "n" |
| Requirements.Stem | noxfile.py:152 | the stem is never longer than the name, and ".in" alone strips to the empty name |
| Requirements.RequirementsFiles | noxfile.py:151-154 | no duplicates; holds exactly the stems of the entries matching the glob, minus constraints and constraints-base |
| Requirements.StemOfInputFile | noxfile.py:152 | stripping `.in` from `{base}.in` gives `base` back when `base` holds no `.in` |
| Requirements.StemOfPlainName | noxfile.py:152 | a name holding no `.in` is its own stem |
| Requirements.DiscoversInputFile | noxfile.py:151-154 | every `{base}.in` entry outside the denylist is discovered as `base` |
| Requirements.DiscoversNameEndingInIn | noxfile.py:152 | an entry that only ends in "in" (such as "plugin") is discovered under its whole name |
| PipCompile.FirstIndex | noxfile.py:173 | the position `list.remove` deletes: an occurrence with no earlier one |
| PipCompile.RemoveFirst | noxfile.py:173 | one element fewer; the multiset loses exactly one `--check`; the others keep their order |
| PipCompile.CompileArgs | noxfile.py:166-177 | check mode: the first `--check` removed, the other arguments kept in order, and `--upgrade` not added; otherwise the arguments are kept and `--upgrade` is appended at the end exactly when none starts with -P, --upgrade-package or --no-upgrade |
| PipCompile.RewriteArgs | noxfile.py:166-177 | the loop detects check mode exactly when `--check` is given and produces the forwarded arguments |
| PipCompile.CompileCommand | noxfile.py:180-185 | the output option names `tests/{req}.txt`, the forwarded arguments follow unchanged and in order, and `tests/{req}.in` comes last |
| PipCompile.PipCompileOps | noxfile.py:163-189 | given the pip-compile run, the check mode and whether the diff printed anything: pip-tools installed unpinned, then the pip-compile run; the diff runs only in check mode; an error is recorded exactly in check mode with a non-empty diff, as the last step |
| PipCompile.PipCompileSession | noxfile.py:157-189 | the session performs `PipCompileOps` with the pip-compile run on `CompileCommand(req, CompileArgs(posargs))`, check mode exactly when `--check` is given, and the diff's output; it fails exactly when in check mode with a non-empty diff |
| PipCompile.RepeatedCheckIsForwarded | noxfile.py:170-185 | with `--check` given two or more times, exactly one is removed and the rest appear on the pip-compile command line |
| Tag.DefaultedArgs | noxfile.py:278-282 | user arguments kept in order; "tag" appended exactly when none starts with hash, mantag, new-tags or tag, and the arguments returned unchanged otherwise; afterwards a subcommand is always present |
| Tag.DefaultedArgsIdempotent | noxfile.py:280-282 | applying the default twice changes nothing more |
| Tag.TagSession | noxfile.py:272-284 | installs the "tag" set, then runs the tagging script with the defaulted arguments |
| DocsSessions.RequirementSet | noxfile.py:263 | (the same choice as line 246 of `checkers`) with `--relaxed` the install reads tests/requirements-relaxed.in, without it tests/requirements.in |
| DocsSessions.MakeArgs | noxfile.py:265-268 | `PYTHON=<path>` first, then the user's targets, or clean and coredocs when none are given |
| DocsSessions.CheckersSession | noxfile.py:238-249 | installs the selected set, checks the core clone, cleans the docs build, runs the named checker |
| DocsSessions.MakeSession | noxfile.py:252-269 | installs the selected set, checks the core clone, queries the interpreter, runs make in docs/docsite with the make arguments |

## Left out

- Running processes. `session.install`, `session.run` and `session.run_always` are recorded as operations, and every run is taken to succeed. A tool's non-zero exit status, and the abort it causes, is not modelled. The one run output the script inspects, that of `git diff tests`, is a parameter.
- The installer's own failure when `tests/{req}.in` or `tests/{req}.txt` is missing. It happens inside pip or uv, which are not part of this model.
- Installer.UpdateEnv: `kwargs.setdefault("env", {}).update(env)` updates the caller's own `env` dictionary in place, so a caller that passed `env=d` finds the three constraint variables in `d` afterwards. The model builds a new keyword-argument map, and this aliasing is not captured. No call in noxfile.py passes `env`.
- Installer.Install: when pinned, an `env` keyword argument that is not a dictionary (such as `env=None`) makes `.update` raise AttributeError. The model requires a dictionary in that case and does not model the exception. When unpinned, any `env` value passes through untouched, as in the source.
- `shlex.quote`. A log operation carries the variable name and its raw value, not the rendered `export` line.
- Installer.Pinned: `str.lower` is modelled on ASCII letters only. No other character lower-cases to a letter of "true" or to "1", so the result is the same.
- Requirements.RequirementsFiles: Python's `list(set)` order depends on string hashing. The model lists each stem where it first appears in the listing. Both give the same elements without duplicates.
- Requirements.RequirementsFiles: `Path.glob` itself is not modelled. The listing is taken to hold the names of all entries of tests/, files and directories alike.
- The `checker_tests` discovery (stems of tests/checkers/*.py), the `LINT_FILES` glob, `Path.cwd` and the other `os.environ` reads. They are plain directory or environment reads; the checker name is a parameter of `CheckersSession`.
- `_relaxed_parser` and argparse. The parsed `--relaxed` flag and make targets are parameters. The parser's rejection of unknown arguments is not modelled.
- `_env_python`. Its run is recorded, but its captured and stripped output is the `python` parameter of `MakeSession`.
- nox registration: `@nox.session`, `@nox.parametrize`, `nox.options.sessions`, the Python version pin of pip-compile, and the five `session.notify` calls of `lint`. They are framework scheduling with no decision in the script.
- The sessions `static`, `formatters`, `formatters_check`, `typing`, `spelling`, `clone_core` and `actionlint`. Each is a fixed `install` plus fixed argument lists. `actionlint`'s only decision is the engine lookup, which is modelled.
