/** The package-manager backends of swupdate.py: which one is selected at
    start-up, the update commands each one runs, and the wait for a package
    manager that is already running. */
module Backends {
  import opened Outcomes

  /** The backend classes `SoftwareUpdate.__init__` can select. */
  datatype Kind = Dnf | Yum | Apt | Portage | Zypper

  /** One package record of an update list: the dict with the keys
      `package_name`, `version`, `arch` and `repository`. */
  datatype Package = Package(name: string, version: string, arch: string, repository: string)

  /** One package's metadata as a backend's `getPackageInfo` returns it: a
      dict from field name to value, empty when nothing was found. */
  type PackageInfo = map<string, string>

  /** The modules `__init__` tries to import, in order, and the backend each
      one selects. */
  const ProbeOrder: seq<(string, Kind)> := [("dnf", Dnf), ("yum", Yum), ("apt", Apt), ("portage", Portage)]

  /** `SoftwareUpdate.__init__`.  `importable` is the set of module names
      whose `__import__` succeeds on the host, `zypperHelpRc` the exit code of
      `zypper --help`.  The first importable module of `ProbeOrder` selects
      its backend; a zero exit code of the zypper probe then selects Zypper
      whatever was chosen before; with nothing selected construction raises. */
  method SelectBackend(importable: set<string>, zypperHelpRc: int) returns (r: Result<Kind>)
    ensures zypperHelpRc == 0 ==> r == Ok(Zypper)
    ensures zypperHelpRc != 0 ==>
      (r.Ok? <==> exists i :: 0 <= i < |ProbeOrder| && ProbeOrder[i].0 in importable)
    ensures zypperHelpRc != 0 && r.Ok? ==>
      exists i :: 0 <= i < |ProbeOrder| && ProbeOrder[i].0 in importable && r.value == ProbeOrder[i].1
        && forall j :: 0 <= j < i ==> ProbeOrder[j].0 !in importable
    ensures r.Err? ==> r.error == Raised("Exception")
  {
    var selected: Option<Kind> := None;
    var i := 0;
    while i < |ProbeOrder|
      invariant 0 <= i <= |ProbeOrder|
      invariant forall j :: 0 <= j < i ==> ProbeOrder[j].0 !in importable
    {
      if ProbeOrder[i].0 in importable {
        selected := Some(ProbeOrder[i].1);
        break;
      }
      i := i + 1;
    }
    if zypperHelpRc == 0 {
      selected := Some(Zypper);
    }
    if selected.None? {
      return Err(Raised("Exception"));
    }
    r := Ok(selected.value);
  }

  const DnfCmd: seq<string> := ["dnf", "-y", "update"]
  const YumCmd: seq<string> := ["yum", "-y", "update"]
  const AptAllCmd: seq<string> := ["apt-get", "upgrade", "-y"]
  const AptSpecificCmd: seq<string> := ["apt-get", "-y", "--only-upgrade", "install"]
  const ZypperCmd: seq<string> := ["zypper", "--non-interactive", "update", "--auto-agree-with-licenses"]

  /** The `update_cmd` dict of each backend class.  Portage's is empty on
      purpose: updates are not offered for it. */
  function UpdateCmdTable(k: Kind): map<string, seq<string>> {
    match k
    case Dnf => map["all" := DnfCmd, "specific" := DnfCmd]
    case Yum => map["all" := YumCmd, "specific" := YumCmd]
    case Apt => map["all" := AptAllCmd, "specific" := AptSpecificCmd]
    case Zypper => map["all" := ZypperCmd, "specific" := ZypperCmd]
    case Portage => map[]
  }

  /** The command `doUpdate` launches.  `params` is `None` for Python's
      `None`; any list, the empty one included, selects the "specific"
      template with the names appended in order.  Portage has no template, so
      the lookup raises `KeyError`. */
  function UpdateCommand(k: Kind, params: Option<seq<string>>): (r: Result<seq<string>>)
    ensures r.Err? <==> k == Portage
    ensures r.Err? ==> r.error == Raised("KeyError")
  {
    var key := if params.Some? then "specific" else "all";
    var table := UpdateCmdTable(k);
    if key !in table then Err(Raised("KeyError"))
    else if params.Some? then Ok(table[key] + params.value)
    else Ok(table[key])
  }

  /** The launched command is the backend's full-update template when no
      names are given, and otherwise its per-package template followed by
      the names, in order; it always runs one of the four package
      managers. */
  lemma UpdateCommandSpec(k: Kind, params: Option<seq<string>>)
    requires k != Portage
    ensures params.None? ==> UpdateCommand(k, params) == Ok(UpdateCmdTable(k)["all"])
    ensures params.Some? ==>
      && |params.value| <= |UpdateCommand(k, params).value|
      && UpdateCommand(k, params).value[..|UpdateCommand(k, params).value| - |params.value|]
           == UpdateCmdTable(k)["specific"]
      && UpdateCommand(k, params).value[|UpdateCommand(k, params).value| - |params.value|..] == params.value
    ensures UpdateCommand(k, params).value[0] in {"dnf", "yum", "apt-get", "zypper"}
  {
    var t := UpdateCmdTable(k);
    if params.Some? {
      var c := t["specific"] + params.value;
      assert c[..|t["specific"]|] == t["specific"];
      assert c[|t["specific"]|..] == params.value;
    }
  }

  /** An empty package list is not Python's `None`: on Apt it runs the
      "specific" template with no names rather than the full upgrade. */
  lemma EmptyParamsSelectSpecific()
    ensures UpdateCommand(Apt, Some([])) == Ok(AptSpecificCmd)
    ensures UpdateCommand(Apt, None) == Ok(AptAllCmd)
    ensures AptSpecificCmd != AptAllCmd
  {
    assert AptSpecificCmd + [] == AptSpecificCmd;
    assert AptSpecificCmd[1] != AptAllCmd[1];
  }

  /** `GenericUpdate.wait_pkg_manager_available`: polls `isRunning()` until
      it answers false.  `running` holds the answers in the order they are
      given; the result is the number of polls that answered true (one sleep
      each).  The source loops forever when no answer is false, so the model
      asks for one. */
  method WaitPkgManagerAvailable(running: seq<bool>) returns (sleeps: nat)
    requires exists i :: 0 <= i < |running| && !running[i]
    ensures sleeps < |running| && !running[sleeps]
    ensures forall j :: 0 <= j < sleeps ==> running[j]
  {
    sleeps := 0;
    while running[sleeps]
      invariant sleeps < |running|
      invariant forall j :: 0 <= j < sleeps ==> running[j]
      invariant exists i :: sleeps <= i < |running| && !running[i]
      decreases |running| - sleeps
    {
      sleeps := sleeps + 1;
    }
  }
}
