/** The device listing of disks.py built on `lsblk`: the major:minor lookup,
    the leaf and availability tests, the list of partition names, the
    details of one partition and the deduplicated device list.

    What the host answers besides `lsblk` (the device node path read from
    sysfs and the extended-partition test that asks `parted`) is a
    parameter of type `Host`. */
module Disks {
  import opened Outcomes
  import opened PyStr
  import opened Lsblk

  /** The host probes the listing consults.  `nodePath(majmin)` stands for
      `_get_dev_node_path`; `children(path)` is the output of
      `lsblk -Pbo NAME path`; `extendedPartition(path)` is what
      `_is_dev_extended_partition('part', path)` returns or raises. */
  datatype Host = Host(
    nodePath: string -> Result<string>,
    children: string -> CommandOutput,
    extendedPartition: string -> Result<bool>)

  /** `d[key]`, or `KeyError`. */
  function Get(d: Record, key: string): (r: Result<string>)
    ensures r.Ok? <==> key in d
    ensures r.Ok? ==> r.value == d[key]
    ensures r.Err? ==> r.error == Raised("KeyError")
  {
    if key in d then Ok(d[key]) else Err(Raised("KeyError"))
  }

  /** `s.split()[0]`, or `IndexError` when `s` is all whitespace. */
  function FirstToken(s: string): (r: Result<string>)
    ensures r.Ok? <==> SplitWs(s) != []
    ensures r.Ok? ==> r.value == SplitWs(s)[0]
    ensures r.Err? ==> r.error == Raised("IndexError")
  {
    var tokens := SplitWs(s);
    if tokens == [] then Err(Raised("IndexError")) else Ok(tokens[0])
  }

  // ------------------------------------------------------- major:minor

  const MajMinKeys: seq<string> := ["NAME", "MAJ:MIN"]

  lemma MajMinKeysPlain()
    ensures forall k :: 0 <= k < |MajMinKeys| ==> PlainKey(MajMinKeys[k])
  {
    assert PlainKey("NAME");
    assert PlainKey("MAJ:MIN");
  }

  /** The loop of `_get_dev_major_min` over the devices: the `maj:min` of
      the first device whose name's first word is `name`. */
  function MajMinIn(devs: seq<Record>, name: string): Result<string>
    decreases |devs|
  {
    if devs == [] then Err(NotFound("GGBDISK00003E", name))
    else
      var devName :- Get(devs[0], "name");
      var first :- FirstToken(devName);
      if first == name then Get(devs[0], "maj:min")
      else MajMinIn(devs[1..], name)
  }

  /** What `_get_dev_major_min(name)` returns, `o` being the output of
      `lsblk -Pbo NAME,MAJ:MIN`. */
  function MajMinOf(o: CommandOutput, name: string): Result<string> {
    MajMinKeysPlain();
    var devs :- LsblkDevs(o, MajMinKeys);
    MajMinIn(devs, name)
  }

  /** `_get_dev_major_min`. */
  method DevMajorMin(o: CommandOutput, name: string) returns (r: Result<string>)
    ensures r == MajMinOf(o, name)
  {
    MajMinKeysPlain();
    var devs :- LsblkDevs(o, MajMinKeys);
    var i := 0;
    while i < |devs|
      invariant 0 <= i <= |devs|
      invariant MajMinIn(devs[i..], name) == MajMinIn(devs, name)
    {
      SuffixHead(devs, i);
      var devName :- Get(devs[i], "name");
      var first :- FirstToken(devName);
      if first == name {
        return Get(devs[i], "maj:min");
      }
      i := i + 1;
    }
    r := Err(NotFound("GGBDISK00003E", name));
  }

  /** Every device has a name with a first word and a major:minor. */
  predicate WellNamed(devs: seq<Record>) {
    forall i :: 0 <= i < |devs| ==> "name" in devs[i] && "maj:min" in devs[i] && SplitWs(devs[i]["name"]) != []
  }

  /** `_get_dev_major_min` reports the device missing exactly when no
      device's name has `name` as its first word. */
  lemma {:induction false} MajMinInMissing(devs: seq<Record>, name: string)
    requires WellNamed(devs)
    ensures MajMinIn(devs, name).Err? ==> MajMinIn(devs, name) == Err(NotFound("GGBDISK00003E", name))
    ensures MajMinIn(devs, name).Err? <==> forall i :: 0 <= i < |devs| ==> SplitWs(devs[i]["name"])[0] != name
    decreases |devs|
  {
    if devs != [] && SplitWs(devs[0]["name"])[0] != name {
      var rest := devs[1..];
      assert forall i :: 1 <= i < |devs| ==> devs[i] == rest[i - 1];
      MajMinInMissing(rest, name);
    }
  }

  /** Otherwise it answers with the major:minor of the first device whose
      name has `name` as its first word. */
  lemma {:induction false} MajMinInFound(devs: seq<Record>, name: string)
    requires WellNamed(devs)
    requires MajMinIn(devs, name).Ok?
    ensures exists i ::
      && 0 <= i < |devs| && SplitWs(devs[i]["name"])[0] == name
      && MajMinIn(devs, name).value == devs[i]["maj:min"]
      && forall j :: 0 <= j < i ==> SplitWs(devs[j]["name"])[0] != name
    decreases |devs|
  {
    if SplitWs(devs[0]["name"])[0] != name {
      var rest := devs[1..];
      assert forall i :: 1 <= i < |devs| ==> devs[i] == rest[i - 1];
      MajMinInFound(rest, name);
      var i :| 0 <= i < |rest| && SplitWs(rest[i]["name"])[0] == name
        && MajMinIn(rest, name).value == rest[i]["maj:min"]
        && forall j :: 0 <= j < i ==> SplitWs(rest[j]["name"])[0] != name;
      assert devs[i + 1] == rest[i];
    }
  }

  // ------------------------------------------------------- leaf test

  /** The `devs` branch of `_is_dev_leaf`: false as soon as a device names
      `name` as its parent; a device without `pkname` that is reached raises
      `KeyError`. */
  function NoChildIn(devs: seq<Record>, name: string): Result<bool>
    decreases |devs|
  {
    if devs == [] then Ok(true)
    else
      var parent :- Get(devs[0], "pkname");
      if name == parent then Ok(false) else NoChildIn(devs[1..], name)
  }

  /** The search raises nothing but `KeyError`; and with every device's
      parent known, a device is a leaf exactly when no device names it as
      its parent. */
  lemma {:induction false} NoChildInSpec(devs: seq<Record>, name: string)
    ensures NoChildIn(devs, name).Err? ==> NoChildIn(devs, name).error == Raised("KeyError")
    ensures (forall i :: 0 <= i < |devs| ==> "pkname" in devs[i]) ==>
      NoChildIn(devs, name).Ok? &&
      (NoChildIn(devs, name).value <==> forall i :: 0 <= i < |devs| ==> devs[i]["pkname"] != name)
    decreases |devs|
  {
    if devs != [] {
      var rest := devs[1..];
      assert forall i :: 1 <= i < |devs| ==> devs[i] == rest[i - 1];
      NoChildInSpec(rest, name);
    }
  }

  /** `_is_dev_leaf(path, name, devs)`.  With a non-empty device list it
      searches that list; otherwise it counts the lines `lsblk` prints for
      the path, the device itself and then its children.  An operation
      failure of `lsblk`, as on multipath devices, means "not a leaf"; a
      path that is not a block device is an error that escapes. */
  function IsDevLeaf(host: Host, path: string, name: string, devs: seq<Record>): (r: Result<bool>)
    ensures devs != [] && (forall i :: 0 <= i < |devs| ==> "pkname" in devs[i]) ==>
      (r == Ok(false) <==> exists i :: 0 <= i < |devs| && devs[i]["pkname"] == name)
    ensures devs != [] ==> r != Err(NotFound("GGBDISK00002E", ""))
    ensures devs == [] && host.children(path).rc != 0 ==>
      r == if Contains(host.children(path).err, "not a block device") then Err(NotFound("GGBDISK00002E", "")) else Ok(false)
    ensures devs == [] && host.children(path).rc == 0 ==>
      (r == Ok(true) <==> LsblkRecords(host.children(path).out, ["NAME"]).Ok? && |LsblkRecords(host.children(path).out, ["NAME"]).value| == 1)
  {
    if devs != [] then
      NoChildInSpec(devs, name);
      NoChildIn(devs, name)
    else
      assert PlainKey("NAME");
      match LsblkDevs(host.children(path), ["NAME"])
      case Err(OperationFailed(_, _)) => Ok(false)
      case Err(e) => Err(e)
      case Ok(lines) => Ok(|lines| - 1 == 0)
  }

  // ------------------------------------------------------- availability

  /** `_is_dev_extended_partition(devtype, path)`: only a partition can be
      the extended one. */
  function ExtendedPartition(host: Host, devtype: string, path: string): Result<bool> {
    if devtype != "part" then Ok(false) else host.extendedPartition(path)
  }

  /** `_is_available`: an unmounted, unformatted partition, disk or
      multipath device that is a leaf and not the extended partition.  The
      conditions are evaluated in order and stop at the first false one, so
      the leaf and extended-partition probes run only when needed. */
  function IsAvailable(host: Host, name: string, devtype: string, fstype: string, mountpoint: string,
                       majmin: string, devs: seq<Record>): Result<bool>
  {
    var path :- host.nodePath(majmin);
    var hasVG := fstype == "LVM2_member";
    if !(devtype in ["part", "disk", "mpath"] && fstype in ["", "LVM2_member"] && mountpoint == "" && !hasVG) then
      Ok(false)
    else
      var leaf :- IsDevLeaf(host, path, name, devs);
      if !leaf then Ok(false)
      else
        var extended :- ExtendedPartition(host, devtype, path);
        Ok(!extended)
  }

  /** A device is available exactly when it is an unformatted, unmounted
      partition, disk or multipath device, a leaf, and not the extended
      partition.  In particular an LVM physical volume, whose `has_VG` is
      set, is never available. */
  lemma IsAvailableSpec(host: Host, name: string, devtype: string, fstype: string, mountpoint: string,
                        majmin: string, devs: seq<Record>)
    requires host.nodePath(majmin).Ok?
    ensures var path := host.nodePath(majmin).value;
      IsAvailable(host, name, devtype, fstype, mountpoint, majmin, devs) == Ok(true) <==>
        && devtype in {"part", "disk", "mpath"}
        && fstype == ""
        && mountpoint == ""
        && IsDevLeaf(host, path, name, devs) == Ok(true)
        && ExtendedPartition(host, devtype, path) == Ok(false)
    ensures fstype == "LVM2_member" ==> IsAvailable(host, name, devtype, fstype, mountpoint, majmin, devs) == Ok(false)
  {
  }

  /** Only a partition consults the extended-partition probe: for any other
      type the probe's answer does not matter. */
  lemma ExtendedProbeOnlyForPartitions(host: Host, probe: string -> Result<bool>, name: string, devtype: string,
                                       fstype: string, mountpoint: string, majmin: string, devs: seq<Record>)
    requires devtype != "part"
    ensures IsAvailable(host.(extendedPartition := probe), name, devtype, fstype, mountpoint, majmin, devs) ==
      IsAvailable(host, name, devtype, fstype, mountpoint, majmin, devs)
  {
    var host' := host.(extendedPartition := probe);
    match host.nodePath(majmin)
    case Err(_) =>
    case Ok(path) =>
      assert IsDevLeaf(host', path, name, devs) == IsDevLeaf(host, path, name, devs);
  }

  // ------------------------------------------------------- partition names

  const NamesKeys: seq<string> := ["NAME", "TYPE", "FSTYPE", "MOUNTPOINT", "MAJ:MIN"]

  lemma NamesKeysPlain()
    ensures forall k :: 0 <= k < |NamesKeys| ==> PlainKey(NamesKeys[k])
  {
    assert PlainKey("NAME") && PlainKey("TYPE") && PlainKey("FSTYPE");
    assert PlainKey("MOUNTPOINT") && PlainKey("MAJ:MIN");
  }

  /** `_is_available` on the type, filesystem and mountpoint fields of an
      `lsblk` record, with the name and major:minor it is asked about. */
  function RecordAvailable(host: Host, name: string, dev: Record, majmin: string, devs: seq<Record>): Result<bool> {
    var devtype :- Get(dev, "type");
    var fstype :- Get(dev, "fstype");
    var mountpoint :- Get(dev, "mountpoint");
    IsAvailable(host, name, devtype, fstype, mountpoint, majmin, devs)
  }

  /** The loop of `get_partitions_names`: the first word of each device's
      name, kept when `check` is off or the device is available. */
  function NamesFrom(host: Host, devs: seq<Record>, check: bool, acc: set<string>): Result<set<string>>
    decreases |devs|
  {
    if devs == [] then Ok(acc)
    else
      var devName :- Get(devs[0], "name");
      var name :- FirstToken(devName);
      if check then
        var majmin :- Get(devs[0], "maj:min");
        var available :- RecordAvailable(host, name, devs[0], majmin, []);
        NamesFrom(host, devs[1..], check, if available then acc + {name} else acc)
      else NamesFrom(host, devs[1..], check, acc + {name})
  }

  /** The suffix from `i` starts with `devs[i]`, followed by the suffix
      from `i + 1`. */
  lemma SuffixHead(devs: seq<Record>, i: nat)
    requires i < |devs|
    ensures devs[i..] != [] && devs[i..][0] == devs[i] && devs[i..][1..] == devs[i + 1..]
  {
  }

  /** What `get_partitions_names(check)` returns, `o` being the output of
      `lsblk`.  Python returns the set as a list in no defined order; the
      model returns the set. */
  function PartitionsNames(host: Host, o: CommandOutput, check: bool): Result<set<string>> {
    NamesKeysPlain();
    var devs :- LsblkDevs(o, NamesKeys);
    NamesFrom(host, devs, check, {})
  }

  /** `get_partitions_names`. */
  method GetPartitionsNames(host: Host, o: CommandOutput, check: bool) returns (r: Result<set<string>>)
    ensures r == PartitionsNames(host, o, check)
  {
    NamesKeysPlain();
    var devs :- LsblkDevs(o, NamesKeys);
    var names: set<string> := {};
    var rest := devs;
    while rest != []
      invariant NamesFrom(host, rest, check, names) == NamesFrom(host, devs, check, {})
      decreases |rest|
    {
      var dev := rest[0];
      rest := rest[1..];
      var devName :- Get(dev, "name");
      var name :- FirstToken(devName);
      if check {
        var majmin :- Get(dev, "maj:min");
        var available :- RecordAvailable(host, name, dev, majmin, []);
        if !available {
          continue;
        }
      }
      names := names + {name};
    }
    r := Ok(names);
  }

  /** The first words of the device names. */
  function FirstWords(devs: seq<Record>): set<string>
    requires forall i :: 0 <= i < |devs| ==> "name" in devs[i]
  {
    set i | 0 <= i < |devs| && FirstToken(devs[i]["name"]).Ok? :: FirstToken(devs[i]["name"]).value
  }

  /** Without the availability check the names are exactly the first words
      of the device names. */
  lemma {:induction false} NamesFromUnchecked(host: Host, devs: seq<Record>, acc: set<string>)
    requires forall i :: 0 <= i < |devs| ==> "name" in devs[i] && SplitWs(devs[i]["name"]) != []
    ensures NamesFrom(host, devs, false, acc) == Ok(acc + FirstWords(devs))
    decreases |devs|
  {
    if devs != [] {
      var rest := devs[1..];
      assert forall i :: 1 <= i < |devs| ==> devs[i] == rest[i - 1];
      var first := SplitWs(devs[0]["name"])[0];
      NamesFromUnchecked(host, rest, acc + {first});
      forall w | w in FirstWords(devs)
        ensures w in {first} + FirstWords(rest)
      {
        var i :| 0 <= i < |devs| && FirstToken(devs[i]["name"]).Ok? && FirstToken(devs[i]["name"]).value == w;
        if i > 0 {
          assert rest[i - 1] == devs[i];
        }
      }
      forall w | w in FirstWords(rest)
        ensures w in FirstWords(devs)
      {
        var i :| 0 <= i < |rest| && FirstToken(rest[i]["name"]).Ok? && FirstToken(rest[i]["name"]).value == w;
        assert devs[i + 1] == rest[i];
      }
      assert FirstToken(devs[0]["name"]) == Ok(first);
      assert first in FirstWords(devs);
      assert FirstWords(devs) == {first} + FirstWords(rest);
      assert NamesFrom(host, devs, false, acc) == NamesFrom(host, rest, false, acc + {first});
      assert acc + {first} + FirstWords(rest) == acc + FirstWords(devs);
    } else {
      assert FirstWords(devs) == {};
      assert acc + FirstWords(devs) == acc;
    }
  }

  /** With `check` set, the names returned are exactly the first words of
      the available devices' names, added to what was there before. */
  lemma {:induction false} NamesFromChecked(host: Host, devs: seq<Record>, acc: set<string>)
    requires NamesFrom(host, devs, true, acc).Ok?
    ensures forall n :: n in NamesFrom(host, devs, true, acc).value ==>
      n in acc || exists i :: 0 <= i < |devs| && AvailableNamed(host, devs[i], n)
    ensures acc <= NamesFrom(host, devs, true, acc).value
    ensures forall i, n :: 0 <= i < |devs| && AvailableNamed(host, devs[i], n) ==>
      n in NamesFrom(host, devs, true, acc).value
    decreases |devs|
  {
    if devs != [] {
      var rest := devs[1..];
      assert forall i :: 1 <= i < |devs| ==> devs[i] == rest[i - 1];
      var name := FirstToken(devs[0]["name"]).value;
      var available := RecordAvailable(host, name, devs[0], devs[0]["maj:min"], []).value;
      var acc' := if available then acc + {name} else acc;
      NamesFromChecked(host, rest, acc');
      forall i, n | 0 <= i < |devs| && AvailableNamed(host, devs[i], n)
        ensures n in NamesFrom(host, devs, true, acc).value
      {
        if i == 0 {
          assert n == name && available;
        } else {
          assert AvailableNamed(host, rest[i - 1], n);
        }
      }
    }
  }

  /** The device's name has `n` as its first word, and the device is
      available. */
  predicate AvailableNamed(host: Host, dev: Record, n: string) {
    && "name" in dev && "maj:min" in dev
    && FirstToken(dev["name"]) == Ok(n)
    && RecordAvailable(host, n, dev, dev["maj:min"], []) == Ok(true)
  }

  // ------------------------------------------------------- details

  /** Whether `s` has a `[`, later a `]`, and no line break between them:
      `re.search(r"\[.*\]", s)` finds a match. */
  function Bracketed(s: string): bool
    decreases |s|
  {
    if s == [] then false
    else (s[0] == '[' && ClosesBeforeBreak(s[1..])) || Bracketed(s[1..])
  }

  /** A `]` comes before any line break. */
  function ClosesBeforeBreak(s: string): bool
    decreases |s|
  {
    s != [] && s[0] != '\n' && (s[0] == ']' || ClosesBeforeBreak(s[1..]))
  }

  lemma {:induction false} ClosesBeforeBreakSpec(s: string)
    ensures ClosesBeforeBreak(s) <==> exists j :: 0 <= j < |s| && s[j] == ']' && Lacks(s[..j], '\n')
    decreases |s|
  {
    if s != [] && s[0] != '\n' && s[0] != ']' {
      ClosesBeforeBreakSpec(s[1..]);
      if ClosesBeforeBreak(s[1..]) {
        var j :| 0 <= j < |s[1..]| && s[1..][j] == ']' && Lacks(s[1..][..j], '\n');
        assert s[..j + 1] == [s[0]] + s[1..][..j];
      } else {
        forall j | 0 <= j < |s| && s[j] == ']'
          ensures !Lacks(s[..j], '\n')
        {
          assert s[1..][j - 1] == s[j];
          assert !Lacks(s[1..][..j - 1], '\n');
          assert s[1..][..j - 1] == s[..j][1..];
        }
      }
    } else if s != [] && s[0] == ']' {
      assert s[..0] == [];
    } else if s != [] {
      forall j | 0 <= j < |s| && s[j] == ']'
        ensures !Lacks(s[..j], '\n')
      {
        assert s[..j][0] == '\n';
      }
    }
  }

  /** A slice of the tail is the slice of the whole shifted by one. */
  lemma SliceOfTail(s: string, a: int, b: int)
    requires 1 <= a <= b <= |s|
    ensures s[1..][a - 1..b - 1] == s[a..b]
  {
  }

  /** Where the search matches: a `[` at `i`, a `]` at `j`, and no line
      break between them. */
  lemma {:induction false} BracketedFound(s: string) returns (i: nat, j: nat)
    requires Bracketed(s)
    ensures i < j < |s| && s[i] == '[' && s[j] == ']' && Lacks(s[i + 1..j], '\n')
    decreases |s|
  {
    if s[0] == '[' && ClosesBeforeBreak(s[1..]) {
      ClosesBeforeBreakSpec(s[1..]);
      var k :| 0 <= k < |s[1..]| && s[1..][k] == ']' && Lacks(s[1..][..k], '\n');
      assert s[1..k + 1] == s[1..][..k];
      i, j := 0, k + 1;
    } else {
      var i', j' := BracketedFound(s[1..]);
      SliceOfTail(s, i' + 2, j' + 1);
      i, j := i' + 1, j' + 1;
    }
  }

  /** A `[` at `i` closed by a `]` at `j` on the same line is a match. */
  lemma {:induction false} BracketedFrom(s: string, i: nat, j: nat)
    requires i < j < |s| && s[i] == '[' && s[j] == ']' && Lacks(s[i + 1..j], '\n')
    ensures Bracketed(s)
    decreases i
  {
    if i == 0 {
      ClosesBeforeBreakSpec(s[1..]);
      assert s[1..][j - 1] == ']';
      assert s[1..][..j - 1] == s[1..j];
    } else {
      SliceOfTail(s, i + 1, j);
      BracketedFrom(s[1..], i - 1, j - 1);
    }
  }

  /** The search matches exactly when some `[` is followed, with no line
      break in between, by a `]`. */
  lemma BracketedSpec(s: string)
    ensures Bracketed(s) <==>
      exists i, j :: 0 <= i < j < |s| && s[i] == '[' && s[j] == ']' && Lacks(s[i + 1..j], '\n')
  {
    if Bracketed(s) {
      var i, j := BracketedFound(s);
    }
    forall i, j | 0 <= i < j < |s| && s[i] == '[' && s[j] == ']' && Lacks(s[i + 1..j], '\n')
      ensures Bracketed(s)
    {
      BracketedFrom(s, i, j);
    }
  }

  /** The mountpoint `get_partition_details` reports: one with a bracketed
      part, such as `[SWAP]`, is not a mount point and becomes empty. */
  function SanitizedMountpoint(mountpoint: string): string {
    if mountpoint != "" && Bracketed(mountpoint) then "" else mountpoint
  }

  /** The reported mountpoint is the given one, or empty exactly when the
      given one has a bracketed part. */
  lemma SanitizedMountpointSpec(mountpoint: string)
    ensures SanitizedMountpoint(mountpoint) == "" <==>
      mountpoint == "" ||
      exists i, j :: 0 <= i < j < |mountpoint| && mountpoint[i] == '[' && mountpoint[j] == ']'
        && Lacks(mountpoint[i + 1..j], '\n')
    ensures SanitizedMountpoint(mountpoint) != "" ==> SanitizedMountpoint(mountpoint) == mountpoint
  {
    BracketedSpec(mountpoint);
  }

  /** `[SWAP]` is dropped; a path is kept. */
  lemma SwapIsNotAMountpoint()
    ensures SanitizedMountpoint("[SWAP]") == ""
    ensures SanitizedMountpoint("/boot") == "/boot"
  {
    assert ClosesBeforeBreak("[SWAP]"[1..]);
    assert !Bracketed("/boot"[4..]);
    assert !Bracketed("/boot"[1..]);
  }

  const DetailsKeys: seq<string> := ["TYPE", "FSTYPE", "SIZE", "MOUNTPOINT", "MAJ:MIN", "PKNAME"]

  lemma DetailsKeysPlain()
    ensures forall k :: 0 <= k < |DetailsKeys| ==> PlainKey(DetailsKeys[k])
  {
    assert PlainKey("TYPE") && PlainKey("FSTYPE") && PlainKey("SIZE");
    assert PlainKey("MOUNTPOINT") && PlainKey("MAJ:MIN") && PlainKey("PKNAME");
  }

  /** The dict `get_partition_details` returns: `{}`, or the `lsblk`
      fields with the path, the name and the availability flag. */
  datatype PartitionDetails = NoDetails | Details(fields: Record, available: bool)

  /** `get_partition_details(name)`.  `all` is the output of the `lsblk`
      that finds the device's major:minor, `own` that of the `lsblk` on the
      device's path.  Any failure of the second, and an empty answer, give
      `{}`. */
  function PartitionDetailsOf(host: Host, all: CommandOutput, own: CommandOutput, name: string): Result<PartitionDetails> {
    var majmin :- MajMinOf(all, name);
    var path :- host.nodePath(majmin);
    DetailsKeysPlain();
    match LsblkDevs(own, DetailsKeys)
    case Err(_) => Ok(NoDetails)
    case Ok(devs) =>
      if devs == [] then Ok(NoDetails)
      else
        var dev := devs[0];
        var available :- RecordAvailable(host, name, dev, majmin, []);
        var mountpoint :- Get(dev, "mountpoint");
        Ok(Details(dev["mountpoint" := SanitizedMountpoint(mountpoint)]["path" := path]["name" := name], available))
  }

  /** A failed major:minor lookup escapes; a failed `lsblk` on the device
      path gives `{}`. */
  lemma PartitionDetailsErrors(host: Host, all: CommandOutput, own: CommandOutput, name: string)
    ensures MajMinOf(all, name).Err? ==> PartitionDetailsOf(host, all, own, name) == Err(MajMinOf(all, name).error)
    ensures MajMinOf(all, name).Ok? && own.rc != 0 && host.nodePath(MajMinOf(all, name).value).Ok? ==>
      PartitionDetailsOf(host, all, own, name) == Ok(NoDetails)
  {
    match MajMinOf(all, name)
    case Err(_) =>
    case Ok(majmin) =>
      DetailsKeysPlain();
      assert own.rc != 0 ==> LsblkDevs(own, DetailsKeys).Err?;
  }

  /** Reported details are those of the first device `lsblk` lists for the
      path: its fields, with the mountpoint sanitised, the node path and the
      name as asked added, and its availability. */
  lemma PartitionDetailsFields(host: Host, all: CommandOutput, own: CommandOutput, name: string)
    requires PartitionDetailsOf(host, all, own, name).Ok?
    requires PartitionDetailsOf(host, all, own, name).value.Details?
    ensures MajMinOf(all, name).Ok? && host.nodePath(MajMinOf(all, name).value).Ok?
    ensures var fields := PartitionDetailsOf(host, all, own, name).value.fields;
      && "name" in fields && fields["name"] == name
      && "path" in fields && host.nodePath(MajMinOf(all, name).value) == Ok(fields["path"])
      && "mountpoint" in fields && (fields["mountpoint"] == "" || !Bracketed(fields["mountpoint"]))
    ensures (DetailsKeysPlain();
      && LsblkDevs(own, DetailsKeys).Ok? && LsblkDevs(own, DetailsKeys).value != []
      && Describes(PartitionDetailsOf(host, all, own, name).value, LsblkDevs(own, DetailsKeys).value[0],
                   host.nodePath(MajMinOf(all, name).value).value, name,
                   RecordAvailable(host, name, LsblkDevs(own, DetailsKeys).value[0], MajMinOf(all, name).value, [])))
  {
    PartitionDetailsShape(host, all, own, name);
    DetailsKeysPlain();
    var dev := LsblkDevs(own, DetailsKeys).value[0];
    var path := host.nodePath(MajMinOf(all, name).value).value;
    DetailsUpdates(dev, SanitizedMountpoint(dev["mountpoint"]), path, name);
  }

  /** The steps of `get_partition_details` that produce details: each
      lookup succeeds, and the result is built from the first device
      listed. */
  lemma PartitionDetailsShape(host: Host, all: CommandOutput, own: CommandOutput, name: string)
    requires PartitionDetailsOf(host, all, own, name).Ok?
    requires PartitionDetailsOf(host, all, own, name).value.Details?
    ensures MajMinOf(all, name).Ok? && host.nodePath(MajMinOf(all, name).value).Ok?
    ensures (DetailsKeysPlain(); LsblkDevs(own, DetailsKeys).Ok? && LsblkDevs(own, DetailsKeys).value != [])
    ensures (DetailsKeysPlain();
      var dev := LsblkDevs(own, DetailsKeys).value[0];
      var available := RecordAvailable(host, name, dev, MajMinOf(all, name).value, []);
      && "mountpoint" in dev && available.Ok?
      && PartitionDetailsOf(host, all, own, name) ==
           Ok(Details(dev["mountpoint" := SanitizedMountpoint(dev["mountpoint"])]
                         ["path" := host.nodePath(MajMinOf(all, name).value).value]["name" := name],
                      available.value)))
  {
    assert MajMinOf(all, name).Ok?;
    var majmin := MajMinOf(all, name).value;
    assert host.nodePath(majmin).Ok?;
    DetailsKeysPlain();
    var devs := LsblkDevs(own, DetailsKeys);
    assert devs.Ok? && devs.value != [];
    var available := RecordAvailable(host, name, devs.value[0], majmin, []);
    assert available.Ok? && "mountpoint" in devs.value[0];
  }

  /** `d` holds the fields of `dev`, with its mountpoint sanitised and the
      node path and name added, and `available` is its availability. */
  predicate Describes(d: PartitionDetails, dev: Record, path: string, name: string, available: Result<bool>) {
    && d.Details?
    && "mountpoint" in dev
    && d.fields.Keys == dev.Keys + {"path", "name"}
    && d.fields["mountpoint"] == SanitizedMountpoint(dev["mountpoint"])
    && d.fields["path"] == path
    && d.fields["name"] == name
    && (forall k :: k in dev && k != "mountpoint" && k != "path" && k != "name" ==> d.fields[k] == dev[k])
    && available == Ok(d.available)
  }

  lemma DetailsUpdates(dev: Record, mountpoint: string, path: string, name: string)
    ensures var fields := dev["mountpoint" := mountpoint]["path" := path]["name" := name];
      && "name" in fields && fields["name"] == name
      && "path" in fields && fields["path"] == path
      && "mountpoint" in fields && fields["mountpoint"] == mountpoint
      && fields.Keys == dev.Keys + {"mountpoint", "path", "name"}
      && forall k :: k in dev && k != "mountpoint" && k != "path" && k != "name" ==> fields[k] == dev[k]
  {
  }

  // ------------------------------------------------------- device list

  const FetchKeys: seq<string> := ["NAME", "TYPE", "FSTYPE", "SIZE", "MOUNTPOINT", "MAJ:MIN", "PKNAME"]

  lemma FetchKeysPlain()
    ensures forall k :: 0 <= k < |FetchKeys| ==> PlainKey(FetchKeys[k])
  {
    assert PlainKey("NAME") && PlainKey("TYPE") && PlainKey("FSTYPE") && PlainKey("SIZE");
    assert PlainKey("MOUNTPOINT") && PlainKey("MAJ:MIN") && PlainKey("PKNAME");
  }

  /** One entry of `fetch_disks_partitions`: the `lsblk` fields, the node
      path and the availability flag. */
  datatype Entry = Entry(fields: Record, path: string, available: bool)

  /** The path and availability of one device, checked against the whole
      list for children. */
  function Annotate(host: Host, dev: Record, devs: seq<Record>): (r: Result<Entry>)
    ensures r.Ok? ==> r.value.fields == dev && "name" in dev && "maj:min" in dev
    ensures r.Ok? ==> host.nodePath(dev["maj:min"]) == Ok(r.value.path)
    ensures r.Ok? ==> RecordAvailable(host, dev["name"], dev, dev["maj:min"], devs) == Ok(r.value.available)
  {
    var majmin :- Get(dev, "maj:min");
    var path :- host.nodePath(majmin);
    var name :- Get(dev, "name");
    var available :- RecordAvailable(host, name, dev, majmin, devs);
    Ok(Entry(dev, path, available))
  }

  /** Every device annotated, in order; the first failure escapes. */
  function AnnotateAll(host: Host, devs: seq<Record>, all: seq<Record>): Result<seq<Entry>>
    decreases |devs|
  {
    if devs == [] then Ok([])
    else
      var front :- AnnotateAll(host, devs[..|devs| - 1], all);
      var e :- Annotate(host, devs[|devs| - 1], all);
      Ok(front + [e])
  }

  /** The first failure ends the annotation: a prefix that fails makes the
      whole list fail the same way. */
  lemma {:induction false} AnnotateAllErr(host: Host, devs: seq<Record>, all: seq<Record>, m: nat)
    requires m <= |devs| && AnnotateAll(host, devs[..m], all).Err?
    ensures AnnotateAll(host, devs, all) == AnnotateAll(host, devs[..m], all)
    decreases |devs|
  {
    if m < |devs| {
      var n := |devs| - 1;
      assert devs[..n][..m] == devs[..m];
      AnnotateAllErr(host, devs[..n], all, m);
    } else {
      assert devs[..m] == devs;
    }
  }

  /** One more device annotated: its entry is appended, or its failure is
      the list's. */
  lemma AnnotateAllStep(host: Host, devs: seq<Record>, all: seq<Record>, i: nat)
    requires i < |devs| && AnnotateAll(host, devs[..i], all).Ok?
    ensures Annotate(host, devs[i], all).Err? ==>
      AnnotateAll(host, devs[..i + 1], all) == Err(Annotate(host, devs[i], all).error)
    ensures Annotate(host, devs[i], all).Ok? ==>
      AnnotateAll(host, devs[..i + 1], all) ==
        Ok(AnnotateAll(host, devs[..i], all).value + [Annotate(host, devs[i], all).value])
  {
    assert devs[..i + 1][..i] == devs[..i];
  }

  /** The node paths of the entries. */
  function Paths(es: seq<Entry>): set<string>
    decreases |es|
  {
    if es == [] then {} else Paths(es[..|es| - 1]) + {es[|es| - 1].path}
  }

  lemma {:induction false} PathsSpec(es: seq<Entry>)
    ensures forall p :: p in Paths(es) <==> exists k :: 0 <= k < |es| && es[k].path == p
    decreases |es|
  {
    if es != [] {
      var n := |es| - 1;
      PathsSpec(es[..n]);
      assert forall k :: 0 <= k < n ==> es[..n][k] == es[k];
    }
  }

  /** The entries in order, each kept only when no earlier entry has its
      path. */
  function FirstPerPath(es: seq<Entry>): seq<Entry>
    decreases |es|
  {
    if es == [] then []
    else
      var n := |es| - 1;
      var front := FirstPerPath(es[..n]);
      if es[n].path in Paths(es[..n]) then front else front + [es[n]]
  }

  /** What `fetch_disks_partitions` returns, `o` being the output of
      `lsblk`. */
  function DisksPartitions(host: Host, o: CommandOutput): Result<seq<Entry>> {
    FetchKeysPlain();
    var devs :- LsblkDevs(o, FetchKeys);
    var entries :- AnnotateAll(host, devs, devs);
    Ok(FirstPerPath(entries))
  }

  /** `fetch_disks_partitions`: lists the devices, then annotates them and
      keeps the first one of each node path. */
  method FetchDisksPartitions(host: Host, o: CommandOutput) returns (r: Result<seq<Entry>>)
    ensures r == DisksPartitions(host, o)
  {
    FetchKeysPlain();
    var devs :- LsblkDevs(o, FetchKeys);
    r := KeepFirstPerPath(host, devs);
  }

  /** The loop of `fetch_disks_partitions`: each device is annotated, and
      appended unless its node path is already in `paths`. */
  method KeepFirstPerPath(host: Host, devs: seq<Record>) returns (r: Result<seq<Entry>>)
    ensures AnnotateAll(host, devs, devs).Err? ==> r == Err(AnnotateAll(host, devs, devs).error)
    ensures AnnotateAll(host, devs, devs).Ok? ==> r == Ok(FirstPerPath(AnnotateAll(host, devs, devs).value))
  {
    var partList: seq<Entry> := [];
    var paths: map<string, string> := map[];
    ghost var entries: seq<Entry> := [];
    var i := 0;
    while i < |devs|
      invariant 0 <= i <= |devs|
      invariant AnnotateAll(host, devs[..i], devs) == Ok(entries)
      invariant partList == FirstPerPath(entries)
      invariant paths.Keys == Paths(entries)
    {
      AnnotateAllStep(host, devs, devs, i);
      var annotated := Annotate(host, devs[i], devs);
      if annotated.Err? {
        AnnotateAllErr(host, devs, devs, i + 1);
        return Err(annotated.error);
      }
      var e := annotated.value;
      KeepStep(entries, e, partList, paths, e.fields["name"]);
      if e.path !in paths {
        paths := paths[e.path := e.fields["name"]];
        partList := partList + [e];
      }
      entries := entries + [e];
      i := i + 1;
    }
    assert devs[..|devs|] == devs;
    r := Ok(partList);
  }

  /** One more entry: its path joins the paths seen, and it is kept when
      its path is new. */
  lemma FirstPerPathSnoc(es: seq<Entry>, e: Entry)
    ensures Paths(es + [e]) == Paths(es) + {e.path}
    ensures FirstPerPath(es + [e]) == if e.path in Paths(es) then FirstPerPath(es) else FirstPerPath(es) + [e]
  {
    assert (es + [e])[..|es|] == es;
  }

  /** The loop's bookkeeping after one more entry: the map of paths seen
      and the entries kept follow `Paths` and `FirstPerPath`. */
  lemma KeepStep(es: seq<Entry>, e: Entry, kept: seq<Entry>, paths: map<string, string>, name: string)
    requires kept == FirstPerPath(es) && paths.Keys == Paths(es)
    ensures e.path in paths ==> FirstPerPath(es + [e]) == kept && Paths(es + [e]) == paths.Keys
    ensures e.path !in paths ==>
      FirstPerPath(es + [e]) == kept + [e] && Paths(es + [e]) == paths[e.path := name].Keys
  {
    FirstPerPathSnoc(es, e);
  }

  /** Index of the first entry with `path`. */
  function FirstWithPath(es: seq<Entry>, path: string): (k: nat)
    requires path in Paths(es)
    ensures k < |es| && es[k].path == path
    ensures forall j :: 0 <= j < k ==> es[j].path != path
  {
    PathsSpec(es);
    FirstIndex(es, path)
  }

  function FirstIndex(es: seq<Entry>, path: string): (k: nat)
    requires exists k :: 0 <= k < |es| && es[k].path == path
    ensures k < |es| && es[k].path == path
    ensures forall j :: 0 <= j < k ==> es[j].path != path
  {
    if es[0].path == path then 0
    else
      assert forall k :: 1 <= k < |es| ==> es[1..][k - 1] == es[k];
      1 + FirstIndex(es[1..], path)
  }

  /** A path already among the first `n` entries has its first entry
      there. */
  lemma FirstWithPathPrefix(es: seq<Entry>, n: nat, p: string)
    requires n <= |es| && p in Paths(es[..n])
    ensures p in Paths(es) && FirstWithPath(es, p) == FirstWithPath(es[..n], p)
  {
    var front := es[..n];
    var b := FirstWithPath(front, p);
    assert es[b] == front[b];
    PathsSpec(es);
    var a := FirstWithPath(es, p);
    assert forall j :: 0 <= j < b ==> es[j] == front[j];
  }

  /** Every listed entry is the first entry with its node path. */
  lemma {:induction false} FirstPerPathFirst(es: seq<Entry>)
    ensures forall i :: 0 <= i < |FirstPerPath(es)| ==> FirstPerPath(es)[i].path in Paths(es)
    ensures forall i :: 0 <= i < |FirstPerPath(es)| ==>
      FirstPerPath(es)[i] == es[FirstWithPath(es, FirstPerPath(es)[i].path)]
    decreases |es|
  {
    if es != [] {
      var n := |es| - 1;
      var front := es[..n];
      FirstPerPathFirst(front);
      var fr := FirstPerPath(front);
      forall i | 0 <= i < |fr|
        ensures fr[i].path in Paths(es) && fr[i] == es[FirstWithPath(es, fr[i].path)]
      {
        FirstWithPathPrefix(es, n, fr[i].path);
        var k := FirstWithPath(front, fr[i].path);
        assert front[k] == es[k];
      }
      if es[n].path !in Paths(front) {
        PathsSpec(front);
        PathsSpec(es);
        assert FirstWithPath(es, es[n].path) == n;
      }
    }
  }

  /** The entries are listed in the order their node paths first
      appear. */
  lemma {:induction false} FirstPerPathOrder(es: seq<Entry>)
    ensures forall i :: 0 <= i < |FirstPerPath(es)| ==> FirstPerPath(es)[i].path in Paths(es)
    ensures forall i, j :: 0 <= i < j < |FirstPerPath(es)| ==>
      FirstWithPath(es, FirstPerPath(es)[i].path) < FirstWithPath(es, FirstPerPath(es)[j].path)
    decreases |es|
  {
    FirstPerPathFirst(es);
    if es != [] {
      var n := |es| - 1;
      var front := es[..n];
      FirstPerPathOrder(front);
      FirstPerPathFirst(front);
      var fr := FirstPerPath(front);
      var r := FirstPerPath(es);
      forall i | 0 <= i < |fr|
        ensures FirstWithPath(es, fr[i].path) == FirstWithPath(front, fr[i].path) < n
      {
        FirstWithPathPrefix(es, n, fr[i].path);
      }
      if es[n].path !in Paths(front) {
        PathsSpec(front);
        PathsSpec(es);
        assert FirstWithPath(es, es[n].path) == n;
        assert r == fr + [es[n]];
        forall i, j | 0 <= i < j < |r|
          ensures FirstWithPath(es, r[i].path) < FirstWithPath(es, r[j].path)
        {
          assert r[i] == fr[i];
          if j < |fr| {
            assert r[j] == fr[j];
          }
        }
      }
    }
  }

  /** No node path is listed twice, and every device's path is listed. */
  lemma {:induction false} FirstPerPathCovers(es: seq<Entry>)
    ensures forall i, j :: 0 <= i < j < |FirstPerPath(es)| ==> FirstPerPath(es)[i].path != FirstPerPath(es)[j].path
    ensures Paths(FirstPerPath(es)) == Paths(es)
    decreases |es|
  {
    FirstPerPathOrder(es);
    if es != [] {
      var n := |es| - 1;
      FirstPerPathCovers(es[..n]);
      var fr := FirstPerPath(es[..n]);
      var r := FirstPerPath(es);
      if es[n].path !in Paths(es[..n]) {
        assert r[..|r| - 1] == fr;
      }
    }
  }
}
