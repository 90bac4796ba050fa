/** The `tag` session: runs the release-tagging script, defaulting to its `tag` subcommand. */
module Tag {
  import opened Strings
  import opened Nox
  import Installer

  /** Argument prefixes that already name a subcommand of the tagging script. */
  const Subcommands: seq<string> := ["hash", "mantag", "new-tags", "tag"]

  const TagScript: seq<string> := ["python", "hacking/tagger/tag.py"]

  /**
   * The arguments handed to the tagging script: the user's arguments, unchanged and in
   * order, followed by "tag" exactly when none of them starts with a subcommand prefix.
   * Afterwards a subcommand is always present.
   */
  function DefaultedArgs(posargs: seq<string>): (args: seq<string>)
    ensures |posargs| <= |args| && args[..|posargs|] == posargs
    ensures |args| == |posargs| + 1 <==> !HasPrefixedArg(posargs, Subcommands)
    ensures |args| == |posargs| + 1 ==> args[|posargs|] == "tag"
    ensures HasPrefixedArg(posargs, Subcommands) ==> args == posargs
    ensures HasPrefixedArg(args, Subcommands)
  {
    if HasPrefixedArg(posargs, Subcommands) then posargs
    else
      var args := posargs + ["tag"];
      assert args[|posargs|] in args && Subcommands[3] in Subcommands;
      assert StartsWithAny(args[|posargs|], Subcommands);
      args
  }

  /** Defaulting twice is defaulting once. */
  lemma DefaultedArgsIdempotent(posargs: seq<string>)
    ensures DefaultedArgs(DefaultedArgs(posargs)) == DefaultedArgs(posargs)
  {
  }

  /** `tag(session)`: installs the "tag" requirement set, then runs the script. */
  method TagSession(s: Session, pinned: bool) returns (s': Session)
    ensures s' == s.Then(Installer.InstallOps(pinned, "tag", [], map[])
                         + [Ran(TagScript + DefaultedArgs(s.posargs), false, false)])
  {
    s' := Installer.Install(s, pinned, "tag", [], map[]);
    var args := s.posargs;
    var found := AnyStartsWith(args, Subcommands);
    if !found {
      args := args + ["tag"];
    }
    s' := s'.Then([Ran(TagScript + args, false, false)]);
  }
}
