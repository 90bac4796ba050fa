/**
 * `_get_container_engine`: find the container engine that runs actionlint. The value of
 * CONTAINER_ENGINE is a parameter, and `shutil.which` is the function `which`.
 */
module ContainerEngine {
  import opened Wrappers
  import opened Nox

  /** CONTAINER_ENGINES, probed in this order. */
  const Candidates: seq<string> := ["podman", "docker"]

  /** A `which` result Python treats as true: a path, and not the empty string. */
  predicate Found(path: Option<string>) {
    path.Some? && path.value != ""
  }

  /** The override is used when CONTAINER_ENGINE is set to a non-empty string. */
  predicate Overridden(chosen: Option<string>) {
    chosen.Some? && chosen.value != ""
  }

  /**
   * The position of the first candidate that resolves, or `|candidates|` when none does:
   * every candidate before it fails to resolve.
   */
  function FirstFound(candidates: seq<string>, which: string -> Option<string>): (k: nat)
    ensures k <= |candidates|
    ensures forall j :: 0 <= j < k ==> !Found(which(candidates[j]))
    ensures k < |candidates| ==> Found(which(candidates[k]))
  {
    if candidates == [] then 0
    else if Found(which(candidates[0])) then 0
    else FirstFound(candidates[1..], which) + 1
  }

  /**
   * Resolves the engine and reports the names it looked up, in order. An override is looked
   * up alone and never falls back to the candidates; otherwise the candidates are looked up in
   * order up to the first that resolves, whose path is returned, and when none does the
   * session fails naming all candidates.
   */
  method GetContainerEngine(sessionName: string, chosen: Option<string>, which: string -> Option<string>)
    returns (r: Result<string, Failure>, probed: seq<string>)
    ensures Overridden(chosen) ==> probed == [chosen.value]
    ensures Overridden(chosen) && Found(which(chosen.value)) ==> r == Success(which(chosen.value).value)
    ensures Overridden(chosen) && !Found(which(chosen.value)) ==> r == Failure(EngineMissing(chosen.value))
    ensures !Overridden(chosen) ==>
      var k := FirstFound(Candidates, which);
      if k < |Candidates| then
        probed == Candidates[..k + 1] && r == Success(which(Candidates[k]).value)
      else
        probed == Candidates && r == Failure(NoEngine(Candidates, sessionName))
  {
    if Overridden(chosen) {
      var path := which(chosen.value);
      probed := [chosen.value];
      if !Found(path) {
        return Failure(EngineMissing(chosen.value)), probed;
      }
      return Success(path.value), probed;
    }
    probed := [];
    for i := 0 to |Candidates|
      invariant probed == Candidates[..i]
      invariant forall j :: 0 <= j < i ==> !Found(which(Candidates[j]))
    {
      var engine := Candidates[i];
      var path := which(engine);
      probed := probed + [engine];
      if Found(path) {
        return Success(path.value), probed;
      }
    }
    r := Failure(NoEngine(Candidates, sessionName));
  }
}
