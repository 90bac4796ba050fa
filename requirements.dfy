/**
 * `requirements_files`: the requirement sets `pip-compile` is parametrized over, discovered
 * from the names of the entries of tests/. The directory listing is a parameter.
 */
module Requirements {
  import opened Strings

  /** Shared constraint inputs that are not requirement sets of their own. */
  const Denylist: set<string> := {"constraints", "constraints-base"}

  /** `Path("tests").glob("*in")` keeps the entries whose name ends in "in", dot or no dot. */
  function GlobMatches(name: string): (m: bool)
    ensures m <==> |name| >= 2 && name[|name| - 2] == 'i' && name[|name| - 1] == 'n'
  {
    EndsWith(name, "in")
  }

  /** `name.replace(".in", "")`: never longer than the name, and ".in" itself strips to "". */
  function Stem(name: string): (stem: string)
    ensures |stem| <= |name|
    ensures name == ".in" ==> stem == ""
  {
    ReplaceAll(name, ".in", "")
  }

  /** The set comprehension of the source, before the denylist is subtracted. */
  function Stems(listing: seq<string>): set<string> {
    set n | n in listing && GlobMatches(n) :: Stem(n)
  }

  predicate NoDuplicates(s: seq<string>) {
    forall i, j :: 0 <= i < j < |s| ==> s[i] != s[j]
  }

  /**
   * `list({stems} - {"constraints", "constraints-base"})`: each stem of a matching entry
   * exactly once, never a denylisted name. (Python leaves the order to the set; this takes
   * the order of first appearance in the listing.)
   */
  function RequirementsFiles(listing: seq<string>): (r: seq<string>)
    ensures NoDuplicates(r)
    ensures forall x :: x in r <==> x in Stems(listing) && x !in Denylist
    decreases |listing|
  {
    if listing == [] then []
    else
      var init, name := listing[..|listing| - 1], listing[|listing| - 1];
      assert listing == init + [name];
      assert Stems(listing) == Stems(init) + (if GlobMatches(name) then {Stem(name)} else {});
      var rest := RequirementsFiles(init);
      if GlobMatches(name) && Stem(name) !in Denylist && Stem(name) !in rest then rest + [Stem(name)]
      else rest
  }

  /** ".in" occurs in `s` at position `i`. */
  predicate MarkerAt(s: string, i: int) {
    0 <= i && i + 3 <= |s| && s[i] == '.' && s[i + 1] == 'i' && s[i + 2] == 'n'
  }

  /** A name with no ".in" inside it. */
  predicate NoInMarker(base: string) {
    forall i :: 0 <= i < |base| ==> !MarkerAt(base, i)
  }

  /** Stripping an input file's name gives back its base name. */
  lemma {:induction false} StemOfInputFile(base: string)
    requires NoInMarker(base)
    ensures Stem(base + ".in") == base
    decreases |base|
  {
    var s := base + ".in";
    if base == [] {
      assert s == ".in" && s[..3] == ".in" && s[3..] == [];
    } else {
      assert s[..3] != ".in" by {
        if |base| >= 3 {
          assert s[..3] == base[..3];
          assert !MarkerAt(base, 0);
        } else {
          assert s[..3][|base|] == '.';
        }
      }
      assert s[1..] == base[1..] + ".in";
      assert NoInMarker(base[1..]) by {
        forall i | 0 <= i < |base[1..]|
          ensures !MarkerAt(base[1..], i)
        {
          assert !MarkerAt(base, i + 1);
        }
      }
      StemOfInputFile(base[1..]);
    }
  }

  /** A name with no ".in" inside it is its own stem. */
  lemma {:induction false} StemOfPlainName(name: string)
    requires NoInMarker(name)
    ensures Stem(name) == name
    decreases |name|
  {
    if |name| >= 3 {
      assert !MarkerAt(name, 0);
      assert NoInMarker(name[1..]) by {
        forall i | 0 <= i < |name[1..]|
          ensures !MarkerAt(name[1..], i)
        {
          assert !MarkerAt(name, i + 1);
        }
      }
      StemOfPlainName(name[1..]);
      assert name == [name[0]] + name[1..];
    }
  }

  /** Every `tests/{base}.in` outside the denylist is discovered as requirement set `base`. */
  lemma DiscoversInputFile(listing: seq<string>, base: string)
    requires base + ".in" in listing
    requires NoInMarker(base)
    requires base !in Denylist
    ensures base in RequirementsFiles(listing)
  {
    StemOfInputFile(base);
    assert GlobMatches(base + ".in") by {
      var s := base + ".in";
      assert s[|s| - 2..] == "in";
    }
  }

  /**
   * The glob is "*in", not "*.in": any entry whose name merely ends in "in" and holds no
   * ".in", such as "plugin", is discovered as a requirement set under its whole name.
   */
  lemma DiscoversNameEndingInIn(listing: seq<string>, name: string)
    requires name in listing
    requires EndsWith(name, "in") && NoInMarker(name)
    requires name !in Denylist
    ensures name in RequirementsFiles(listing)
  {
    StemOfPlainName(name);
  }
}
