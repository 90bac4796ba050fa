/** The string tests the orchestration script applies to command-line arguments and file names. */
module Strings {

  /** Python's `s.startswith(prefix)`. */
  predicate StartsWith(s: string, prefix: string) {
    |prefix| <= |s| && s[..|prefix|] == prefix
  }

  /** Python's `s.endswith(suffix)`. */
  predicate EndsWith(s: string, suffix: string) {
    |suffix| <= |s| && s[|s| - |suffix|..] == suffix
  }

  /** Python's `s.startswith(prefixes)` with a tuple of prefixes: true when any of them is a prefix. */
  predicate StartsWithAny(s: string, prefixes: seq<string>) {
    exists p :: p in prefixes && StartsWith(s, p)
  }

  /** Some argument starts with one of `prefixes`. */
  predicate HasPrefixedArg(args: seq<string>, prefixes: seq<string>) {
    exists a :: a in args && StartsWithAny(a, prefixes)
  }

  /** `any(arg.startswith(prefixes) for arg in args)`: scans the arguments in order and stops at the first hit. */
  method AnyStartsWith(args: seq<string>, prefixes: seq<string>) returns (found: bool)
    ensures found <==> HasPrefixedArg(args, prefixes)
  {
    found := false;
    var i := 0;
    while i < |args| && !found
      invariant 0 <= i <= |args|
      invariant found <==> exists j :: 0 <= j < i && StartsWithAny(args[j], prefixes)
    {
      found := StartsWithAny(args[i], prefixes);
      i := i + 1;
    }
  }

  /** Python's `s.replace(pat, rep)`: every occurrence of `pat`, scanned left to right without overlap, is replaced. */
  function ReplaceAll(s: string, pat: string, rep: string): (r: string)
    requires pat != []
    ensures |rep| <= |pat| ==> |r| <= |s|
    ensures s == pat ==> r == rep
    decreases |s|
  {
    if |s| < |pat| then s
    else if s[..|pat|] == pat then rep + ReplaceAll(s[|pat|..], pat, rep)
    else [s[0]] + ReplaceAll(s[1..], pat, rep)
  }
}
