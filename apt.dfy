/** The part of swupdate.py's `AptUpdate` that works on what the apt cache
    answers: picking the upgrade of a package by name, and the names it
    depends on.  The cache itself (`apt.Cache`, its `open`, `upgrade`,
    `get_changes` and `close`) is not part of this model; its answer is a
    parameter. */
module Apt {
  import opened Outcomes
  import opened Backends

  /** One pending change of the cache: its short name, the candidate's
      version, the architecture, the labels of the candidate's origins, and
      its dependencies, each a list of alternative package names. */
  datatype AptChange = AptChange(
    shortname: string,
    version: string,
    architecture: string,
    originLabels: seq<string>,
    dependencies: seq<seq<string>>)

  /** What the cache calls produce: the list of changes, or the message of
      the exception one of them raised. */
  datatype CacheAnswer = Changes(changes: seq<AptChange>) | CacheFailed(message: string)

  /** `next((x for x in pkgs if x.shortname == name), None)` */
  function FirstNamed(pkgs: seq<AptChange>, name: string): (r: Option<nat>)
    ensures r.Some? ==> r.value < |pkgs| && pkgs[r.value].shortname == name
    ensures r.Some? ==> forall j :: 0 <= j < r.value ==> pkgs[j].shortname != name
    ensures r.None? <==> forall j :: 0 <= j < |pkgs| ==> pkgs[j].shortname != name
  {
    if pkgs == [] then None
    else if pkgs[0].shortname == name then Some(0)
    else match FirstNamed(pkgs[1..], name)
      case None =>
        assert forall j :: 1 <= j < |pkgs| ==> pkgs[1..][j - 1] == pkgs[j];
        None
      case Some(j) => Some(j + 1)
  }

  /** The change `getPackageInfo` and `getPackageDeps` work on: a cache
      failure and a name with no change are errors. */
  function SelectChange(cache: CacheAnswer, name: string): Result<AptChange> {
    match cache
    case CacheFailed(msg) => Err(OperationFailed("GGBPKGUPD0006E", msg))
    case Changes(pkgs) =>
      match FirstNamed(pkgs, name)
      case None => Err(NotFound("GGBPKGUPD0006E", "No package found"))
      case Some(i) => Ok(pkgs[i])
  }

  /** `AptUpdate.getPackageInfo`: the four fields of the first change named
      `name`; the repository is the label of the candidate's first origin,
      and a candidate without origins raises `IndexError`. */
  function PackageInfo(cache: CacheAnswer, name: string): (r: Result<PackageInfo>)
    ensures cache.CacheFailed? ==> r == Err(OperationFailed("GGBPKGUPD0006E", cache.message))
    ensures cache.Changes? && (forall j :: 0 <= j < |cache.changes| ==> cache.changes[j].shortname != name) ==>
      r == Err(NotFound("GGBPKGUPD0006E", "No package found"))
    ensures r.Ok? ==> r.value.Keys == {"package_name", "version", "arch", "repository"} && r.value["package_name"] == name
    ensures r.Ok? ==> cache.Changes?
    ensures r.Ok? && cache.Changes? ==>
      exists i :: 0 <= i < |cache.changes|
        && cache.changes[i].shortname == name
        && (forall j :: 0 <= j < i ==> cache.changes[j].shortname != name)
        && cache.changes[i].originLabels != []
        && r.value["version"] == cache.changes[i].version
        && r.value["arch"] == cache.changes[i].architecture
        && r.value["repository"] == cache.changes[i].originLabels[0]
  {
    var pkg :- SelectChange(cache, name);
    if pkg.originLabels == [] then Err(Raised("IndexError"))
    else Ok(map["package_name" := pkg.shortname, "version" := pkg.version,
                "arch" := pkg.architecture, "repository" := pkg.originLabels[0]])
  }

  /** The first alternative of each dependency, in order; an empty
      alternative list raises `IndexError`. */
  function FirstAlternatives(deps: seq<seq<string>>): Result<seq<string>>
    decreases |deps|
  {
    if deps == [] then Ok([])
    else if deps[0] == [] then Err(Raised("IndexError"))
    else
      var rest :- FirstAlternatives(deps[1..]);
      Ok([deps[0][0]] + rest)
  }

  /** The first alternatives are read in full or not at all: they fail
      exactly when some dependency has no alternative, and otherwise name
      the first alternative of every dependency, and nothing else. */
  lemma {:induction false} FirstAlternativesSpec(deps: seq<seq<string>>)
    ensures FirstAlternatives(deps).Err? <==> exists k :: 0 <= k < |deps| && deps[k] == []
    ensures FirstAlternatives(deps).Ok? ==>
      var names := FirstAlternatives(deps).value;
      |names| == |deps| && forall k :: 0 <= k < |deps| ==> names[k] == deps[k][0]
    decreases |deps|
  {
    if deps != [] && deps[0] != [] {
      FirstAlternativesSpec(deps[1..]);
      assert forall k :: 1 <= k < |deps| ==> deps[1..][k - 1] == deps[k];
    }
  }

  /** `AptUpdate.getPackageDeps`: the distinct first alternatives of the
      dependencies of the first change named `name`.  Python builds the list
      from a set, so its order is not defined; the model returns the set. */
  function PackageDeps(cache: CacheAnswer, name: string): (r: Result<set<string>>)
    ensures cache.CacheFailed? ==> r == Err(OperationFailed("GGBPKGUPD0006E", cache.message))
    ensures SelectChange(cache, name).Err? ==> r == Err(SelectChange(cache, name).error)
  {
    var pkg :- SelectChange(cache, name);
    var names :- FirstAlternatives(pkg.dependencies);
    Ok(set k | 0 <= k < |names| :: names[k])
  }

  /** The dependencies of a package are exactly the first alternatives of
      its dependency lists, each named once. */
  lemma PackageDepsMembers(cache: CacheAnswer, name: string)
    requires SelectChange(cache, name).Ok?
    ensures var deps := SelectChange(cache, name).value.dependencies;
      && (PackageDeps(cache, name).Err? <==> exists k :: 0 <= k < |deps| && deps[k] == [])
      && (PackageDeps(cache, name).Ok? ==>
            forall n :: n in PackageDeps(cache, name).value <==>
              exists k :: 0 <= k < |deps| && deps[k][0] == n)
  {
    var deps := SelectChange(cache, name).value.dependencies;
    FirstAlternativesSpec(deps);
  }
}
