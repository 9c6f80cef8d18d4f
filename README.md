# gingerbase software update and disk listing, in Dafny

This project models two parts of gingerbase, the host-management plugin of the
Wok web framework:

- **The software-update engine (`swupdate.py`).**
  - `SoftwareUpdate` picks a package-manager backend: dnf, yum, apt, portage or zypper.
  - It builds the update command from the backend's `update_cmd` templates.
  - `doUpdate` runs the update and streams the output to a callback, with the
    update lock held.
  - `tailUpdateLogs` follows an update that is already running. It either tails
    the package manager's log or prints `*` progress marks.
  - `getUpdate`, `getPackageDeps` and `getNumOfUpdates` check and delegate to the
    backend.
  - The zypper backend parses the text of `zypper list-updates`, `zypper info` and
    `zypper update --dry-run`.
  - The apt backend selects a package from the apt cache's change list.
- **The disk listing helpers (`disks.py`).**
  - A parser for `lsblk -P` output, with the error mapping of `_get_lsblk_devs`.
  - Device-number lookup, the leaf and availability tests, and partition names.
  - Partition details, with the rule that clears a bracketed mountpoint.
  - `fetch_disks_partitions`, which keeps the first device per node path.
  - The LVM listings `vgs`, `lvs`, `pvs` and `pvs_with_vg_list`.

Files:

- `outcomes.dfy` (`Outcomes`): results and errors.
  - A raised Python exception becomes `Err(NotFound(code, detail))`,
    `Err(OperationFailed(code, detail))` or `Err(Raised(class))`.
  - `Raised` is used for uncaught built-in exceptions, such as an `IndexError`
    from a short split.
  - Also defined here: `Option` and the `(out, err, rc)` triple of `run_command`.
- `pystr.dfy` (`PyStr`): the Python 2 string operations the code relies on.
  - `str.split(sep)` and `str.split()`, `strip`, `splitlines`, `join`, `in`,
    `startswith`, `lower` and `long()`.
- `backends.dfy` (`Backends`): backend selection and the `update_cmd` tables.
- `swupdate.dfy` (`SwUpdate`): the `SoftwareUpdate` coordinator.
  - `doUpdate` is a class method. It updates the lock depth and appends to an
    event trace: lock acquire and release, process launch, and callback calls.
  - `tailUpdateLogs` and `wait_pkg_manager_available` are loops over sequences
    of oracle answers.
- `apt.dfy` (`Apt`) and `zypper.dfy` (`Zypper`): the backend parsers in view.
- `lsblk.dfy` (`Lsblk`): `_parse_lsblk_output` and `_get_lsblk_devs`.
- `disks.dfy` (`Disks`): device lookup, availability, names, details and
  `fetch_disks_partitions`.
- `lvm.dfy` (`Lvm`): `vgs`, `lvs`, `pvs` and `pvs_with_vg_list`.

Environment inputs become parameters:

- the output of each external command, as a `CommandOutput`;
- the importable modules and the `zypper --help` return code;
- the successive answers of `isRunning` and of reads of the log file;
- the lines the update process prints, its exit code and its stderr;
- the sysfs and `parted` probes, as the functions of a `Host` value.

## Model

| member | source | states |
|---|---|---|
| Backends.SelectBackend | swupdate.py:53-70 | A zero `zypper --help` return code selects zypper. Otherwise the backend is the first of dnf, yum, apt, portage whose module imports. If neither step selects one, construction raises `Exception`. |
| Backends.UpdateCommand | swupdate.py:195-198 | Building the command fails exactly for portage, whose `update_cmd` is empty (line 586), and then it raises `KeyError`. |
| Backends.UpdateCommandSpec | swupdate.py:195-198 | Without params the command is the `all` template. With params it is the `specific` template followed by the params in order. The program is always one of dnf, yum, apt-get or zypper. |
| Backends.UpdateCmdTable | swupdate.py:363-366 | The `update_cmd` of each backend. Apt has distinct `all` and `specific` templates. Yum, dnf and zypper use one template for both (lines 248-249, 328-329, 464-467). Portage's table is empty (line 586). |
| Backends.EmptyParamsSelectSpecific | swupdate.py:195-196 | An empty params list selects apt's `specific` template, not `all`; the two templates differ (lines 364-366). |
| Backends.WaitPkgManagerAvailable | swupdate.py:236-238 | The wait loop sleeps once per leading `isRunning` answer of true and stops at the first false one. |
| SwUpdate.Cumulative | swupdate.py:203-207 | There is one non-final callback per polled stdout line. |
| SwUpdate.CumulativeAt | swupdate.py:204-206 | The k-th streamed callback carries the concatenation of the first k+1 lines read. |
| SwUpdate.CumulativeSnoc | swupdate.py:204-206 | Reading one more line appends one callback carrying all the lines read so far. |
| SwUpdate.CumulativeGrows | swupdate.py:204-206 | Each streamed text is a prefix of every later one and of the whole stdout. |
| SwUpdate.StreamOutput | swupdate.py:203-207 | The poll loop issues exactly the cumulative callbacks. |
| SwUpdate.DoUpdateEvents | swupdate.py:190-193 | Every run starts with the lock acquired and then the reset callback `''`. |
| SwUpdate.DoUpdateEventsCompleted | swupdate.py:190-220 | A completed run is: acquire, `''`, launch of the command, the streamed callbacks, release, final callback. |
| SwUpdate.FinalCallback | swupdate.py:209-220 | On exit code 0, the last callback is all stdout (polled lines, then the remaining ones) with flag true. Otherwise it is that text followed by the stderr lines, with flag false. |
| SwUpdate.DoUpdateEventsStopped | swupdate.py:190-202 | If the command lookup fails, the run stops after `''`. If the launch fails, it stops after the launch. Neither path releases the lock. |
| SwUpdate.DoUpdateLockDiscipline | swupdate.py:190-217 | The lock is acquired once, first. On completion it is released once, just before the final callback. Only launches follow `''` on a failed run, never a release. |
| SwUpdate.DoUpdateCallbackAt | swupdate.py:193-220 | Apart from the reset, every callback of a run belongs to a completed run. It is either a streamed callback or the final one. |
| SwUpdate.FinalTextExtends | swupdate.py:209-220 | The final text extends all the stdout streamed before it. |
| SwUpdate.DoUpdateTextsGrow | swupdate.py:193-220 | Across a run, each callback's text is a prefix of every later callback's text. |
| SwUpdate.DoUpdateFinal | swupdate.py:209-220 | The final flag is true iff the exit code is 0. The final text is all of stdout, followed by the stderr lines when the exit code is not 0. |
| SwUpdate.SoftwareUpdate.constructor | swupdate.py:50-59 | The coordinator keeps its backend and starts with the lock free and nothing issued. |
| SwUpdate.SoftwareUpdate.DoUpdate | swupdate.py:186-220 | The trace grows by exactly the run's events. The result is Ok iff the run completes. Portage fails with `KeyError` and a failed launch with `OSError`. The lock depth is back to its old value only on success. |
| SwUpdate.SoftwareUpdate.ReportRun | swupdate.py:203-220 | After the launch: the streamed callbacks, the release and the final callback, and the lock depth drops by one. |
| SwUpdate.Stars | swupdate.py:152-155 | `n` marks make a string of length `n`. |
| SwUpdate.StarProgress | swupdate.py:152-156 | There is one progress callback per iteration while the manager runs. |
| SwUpdate.StarProgressAt | swupdate.py:153-155 | The k-th progress callback carries k+1 `*` and is not final. |
| SwUpdate.FirstFalse | swupdate.py:153 | Gives the number of leading running answers; the answer at that index is false. |
| SwUpdate.WaitForManager | swupdate.py:151-159 | With no log: one growing `*` callback per running answer, then the stars plus a newline with flag true. |
| SwUpdate.StopIndex | swupdate.py:167-171 | The log loop ends at the first empty read taken while the manager is not running. |
| SwUpdate.LeadingIdle | swupdate.py:173-175 | There is at most one progress mark per poll; `LeadingIdleSnoc` says which polls add one. |
| SwUpdate.ReadsEmpty | swupdate.py:168-181 | No text is collected iff every read was empty. |
| SwUpdate.LeadingIdleSnoc | swupdate.py:169-178 | An idle poll adds a mark iff nothing has been read yet. |
| SwUpdate.ReadsSnoc | swupdate.py:180 | A non-empty read is appended to the collected text; an empty one is not. |
| SwUpdate.IdleStep | swupdate.py:173-175 | An idle poll before any read appends the next progress callback. |
| SwUpdate.ReadStep | swupdate.py:180-181 | A read appends a callback with all text read so far. |
| SwUpdate.FollowLog | swupdate.py:164-184 | With a readable log, the callbacks are these: marks for the idle polls before the first read; one cumulative callback per read up to the stop; then the collected text alone with flag true. |
| SwUpdate.SoftwareUpdate.TailUpdateLogs | swupdate.py:133-184 | If the manager is not running, there are no callbacks. Otherwise the callbacks are the star protocol when the log cannot be opened, and the log protocol when it can. |
| SwUpdate.GetNumOfUpdates | swupdate.py:113-123 | The count is the length of `getUpdates()`, and its errors are that call's errors. |
| SwUpdate.GetUpdate | swupdate.py:85-98 | An empty package answer raises `GGBPKGUPD0002E` not-found. A non-empty one is returned, and backend errors pass through. |
| SwUpdate.GetPackageDeps | swupdate.py:100-111 | Dependencies are the backend's answer, but only after `getUpdate` succeeds. Its failure is returned instead. |
| SwUpdate.DepsNotQueriedForMissingPackage | swupdate.py:103-107 | For a name `getUpdate` rejects, the result does not depend on the backend's dependency query. |
| SwUpdate.GetUpdates | swupdate.py:72-83 | The backend's package list, or its error. The lock is released on both paths by `finally`, so it leaves no trace. |
| Apt.FirstNamed | swupdate.py:411 | Gives the first change whose short name matches, or none when no change matches. |
| Apt.SelectChange | swupdate.py:400-414 | A cache failure gives `GGBPKGUPD0006E` operation-failed. Otherwise the result is the first change with the short name, or `GGBPKGUPD0006E` not-found with `No package found`. |
| Apt.PackageInfo | swupdate.py:400-420 | A cache failure gives `GGBPKGUPD0006E` operation-failed, and no match gives `GGBPKGUPD0006E` not-found. Otherwise the result has exactly the four keys, filled from the first match, with the repository from its first origin. |
| Apt.FirstAlternativesSpec | swupdate.py:438 | Taking `d[0]` fails iff some dependency has no alternatives. Otherwise each dependency contributes its first alternative. |
| Apt.PackageDeps | swupdate.py:422-436 | Cache failure and no match fail exactly as in `getPackageInfo`. |
| Apt.PackageDepsMembers | swupdate.py:438 | The returned set holds exactly the first alternative of each dependency, and fails iff one has none. |
| Zypper.RowPackage | swupdate.py:484-489 | A line yields nothing iff it does not start with the marker `v`, a space and a vertical bar. A short row raises `IndexError`. |
| Zypper.ParseRows | swupdate.py:483-490 | Packages are appended in order, at most one per line. |
| Zypper.ListUpdates | swupdate.py:478-490 | Non-empty stderr gives `GGBPKGUPD0003E` operation-failed. Any other failure is an `IndexError`. |
| Zypper.GetPackagesList | swupdate.py:470-490 | The loop over the output lines computes `ListUpdates`. |
| Zypper.RowSplits | swupdate.py:485 | A printed row splits on the column separator (space, vertical bar, space) back into its cells. |
| Zypper.RowParses | swupdate.py:484-489 | A printed row parses back to its package, using columns 2, 4, 5 and 1 for name, version, arch and repository. |
| Zypper.ParseRowsSkipsHeader | swupdate.py:483-484 | Lines without the `v` row marker add nothing. |
| Zypper.ParseRowsStep | swupdate.py:483-489 | A package line appends its package and parsing continues. |
| Zypper.ParseRowsOfRows | swupdate.py:483-489 | Lines that all parse give their packages, in order. |
| Zypper.ListUpdatesRoundTrip | swupdate.py:470-490 | A `list-updates` table printed from packages, after any header lines, parses back to exactly those packages. |
| Zypper.PackageInfoOf | swupdate.py:503-529 | Non-empty stderr gives `GGBPKGUPD0006E` operation-failed. Output containing `'<name>' not found` gives `GGBPKGUPD0006E` not-found. |
| Zypper.FindLine | swupdate.py:524-527 | The scan stops at the first line with the token, or runs past the end when there is none. |
| Zypper.InfoFrom | swupdate.py:518-527 | For each key and token in order, the first line starting with the token sets the key to the stripped text after its first `': '`. A token with no line is skipped, and a line without `': '` raises `IndexError`. |
| Zypper.GetPackageInfo | swupdate.py:492-529 | The nested field and line loops compute `PackageInfoOf`. |
| Zypper.InfoFromErr | swupdate.py:520-527 | Filling fails iff the first line for some token has no `': '`, which makes `[1]` raise. |
| Zypper.InfoFromFields | swupdate.py:520-527 | A key is set iff its token's line exists. Its value is the stripped text after the first `': '` of the first such line. |
| Zypper.InfoFieldsDistinct | swupdate.py:520-523 | The four keys filled are distinct. |
| Zypper.PackageInfoKeys | swupdate.py:518-529 | `package_name`, `version`, `arch` and `repository` are each present iff a line starts with `Name:`, `Version:`, `Arch:` or `Repository:` respectively. No other key is present. |
| Zypper.FieldLine | swupdate.py:526 | `Field: value` yields `value`. |
| Zypper.PackageInfoRoundTrip | swupdate.py:492-529 | `zypper info` text printed from a package parses back to its four fields. |
| Zypper.RemoveFirst | swupdate.py:555 | `list.remove` fails iff the name is absent. |
| Zypper.RemoveFirstSpec | swupdate.py:555 | The removed element is the first occurrence only, and the multiset loses exactly one copy of the name. |
| Zypper.PackageDepsOf | swupdate.py:534-556 | Non-empty stderr gives operation-failed, and a not-found message gives not-found (both `GGBPKGUPD0006E`). |
| Zypper.GetPackageDeps | swupdate.py:531-556 | The scan loop and `remove` compute `PackageDepsOf`. |
| Zypper.PackageDepsFromNextLine | swupdate.py:548-556 | On success, a line starts with `The following` and another line follows it. The result is that next line's words with one occurrence of the package name removed. Each result is a non-empty word. |
| Lsblk.QuotedValueFound | disks.py:151-155 | A value is the text between `KEY="` and the next quote at the first match. It contains no quote. |
| Lsblk.QuotedValueMissing | disks.py:151-153 | There is no value iff `KEY="` is absent or no quote follows it. |
| Lsblk.OutputLines | disks.py:146 | Splitting the output always gives at least one line. |
| Lsblk.ParseLsblkOutput | disks.py:143-157 | The nested loops compute `LsblkRecords`. |
| Lsblk.LsblkRecords | disks.py:143-157 | One dict per line of the output with its trailing newlines removed, in order. Each maps the lower-cased keys to their quoted values. A missing key raises `AttributeError`. |
| Lsblk.RecordFromErr | disks.py:150-153 | A line fails (`AttributeError` from `match.group()`) iff some key has no quoted value. |
| Lsblk.RecordFromKeys | disks.py:149-155 | The dict gains exactly the lower-cased keys. |
| Lsblk.RecordFromOk | disks.py:149-155 | With distinct keys, each lower-cased key maps to its quoted value. |
| Lsblk.RecordsFromErr | disks.py:148-156 | Parsing fails iff some line lacks some key. |
| Lsblk.RecordsFromOk | disks.py:148-156 | There is one dict per line, in order, each with exactly the requested keys and values. |
| Lsblk.LsblkRecordsSpec | disks.py:143-157 | This is the whole parser: one dict per line of the newline-stripped output, or a failure iff some line lacks some key. |
| Lsblk.LsblkDevs | disks.py:51-63 | Non-zero rc with `not a block device` gives `GGBDISK00002E` not-found. Any other non-zero rc gives `GGBDISK00001E` operation-failed. rc 0 gives the parsed list. |
| Disks.Get | disks.py:276 | Dict indexing succeeds iff the key is present, and raises `KeyError` otherwise. |
| Disks.FirstToken | disks.py:202 | `split()[0]` is the first word and raises `IndexError` when there is none. |
| Disks.DevMajorMin | disks.py:66-82 | The loop computes `MajMinOf`. |
| Disks.MajMinIn | disks.py:75-80 | The `maj:min` of the first device whose name's first word is the name asked for, or `GGBDISK00003E` not-found when there is none. A missing key or an empty name raises. |
| Disks.MajMinInMissing | disks.py:75-80 | Failure is `GGBDISK00003E` not-found, and happens iff no device's first name word equals the name. |
| Disks.MajMinInFound | disks.py:75-78 | The result is the `maj:min` of the first device whose first name word equals the name. |
| Disks.NoChildInSpec | disks.py:88-91 | With a device list, the device is a leaf iff no device has it as `pkname`. |
| Disks.IsDevLeaf | disks.py:85-103 | With a list: false iff some `pkname` is the name. Without one: a failing `lsblk` gives false, or raises for a non-block device. Otherwise the device is a leaf iff `lsblk` lists exactly one line. |
| Disks.IsAvailableSpec | disks.py:174-191 | Available iff all of these hold: the type is part, disk or mpath; fstype is empty; the mountpoint is empty; the device is a leaf; it is not the extended partition. An `LVM2_member` device is never available. |
| Disks.IsAvailable | disks.py:174-191 | Looks up the node path, then tests type, fstype, mountpoint and `has_VG`. Only when those pass does it call the leaf test, and only after that the extended-partition test, as `and` short-circuits. |
| Disks.ExtendedProbeOnlyForPartitions | disks.py:106-108 | For non-partitions the extended-partition probe never affects the answer. |
| Disks.GetPartitionsNames | disks.py:194-208 | The loop computes `PartitionsNames`. |
| Disks.NamesFrom | disks.py:199-206 | The loop body: the first word of each device name is added, when `check` is off or the device is available. The first failing lookup escapes. |
| Disks.NamesFromUnchecked | disks.py:199-206 | Without `check`, the names are the set of first words of every device name. |
| Disks.NamesFromChecked | disks.py:199-206 | With `check`, the names are exactly the first words of the available devices' names, in both directions: every name returned comes from an available device, and every available device's first word is returned. |
| Disks.ClosesBeforeBreakSpec | disks.py:227-228 | A `]` occurs before any newline. |
| Disks.BracketedSpec | disks.py:227-228 | `\[.*\]` matches iff a `[` is followed by a `]` with no newline between them. |
| Disks.SanitizedMountpointSpec | disks.py:224-229 | The mountpoint becomes empty iff it is empty or holds a bracketed segment. Otherwise it is unchanged. |
| Disks.SanitizedMountpoint | disks.py:224-229 | A non-empty mountpoint that `\[.*\]` matches becomes `''`; any other is kept. |
| Disks.SwapIsNotAMountpoint | disks.py:224-229 | `[SWAP]` is cleared and `/boot` is kept. |
| Disks.PartitionDetailsErrors | disks.py:211-220 | A failed device-number lookup propagates. A failing `lsblk` on the device gives `{}`. |
| Disks.PartitionDetailsOf | disks.py:211-232 | These come in order: device number, node path, `lsblk` on the path (any failure or no line gives `{}`), availability, mountpoint rule. Then the path and the name are added. |
| Disks.PartitionDetailsFields | disks.py:211-232 | The details are those of the first device `lsblk` lists for the path. Its mountpoint is `SanitizedMountpoint` of the listed one, so a bracketed value becomes `''`. The node path of the device number and the requested name are added. Every other field keeps the listed value. The availability flag is `_is_available` of that device. |
| Disks.Annotate | disks.py:275-281 | An annotated device keeps its fields and gets the node path of its `maj:min`. Its flag is `_is_available` of its own name, type, fstype and mountpoint, checked against the whole device list. |
| Disks.AnnotateAllErr | disks.py:274-281 | The first device that fails to annotate ends the listing with its error. |
| Disks.AnnotateAllStep | disks.py:274-281 | Annotating one more device appends its entry or fails with its error. |
| Disks.PathsSpec | disks.py:282-284 | The paths seen are exactly the entries' paths. |
| Disks.FetchDisksPartitions | disks.py:267-287 | The function computes `DisksPartitions`: list, annotate all, keep the first entry per path. |
| Disks.DisksPartitions | disks.py:267-287 | List the devices, annotate each against the whole list, and keep the first entry per node path. |
| Disks.KeepFirstPerPath | disks.py:274-287 | The loop with `paths_dict` returns the first entry per node path, or the first annotation error. |
| Disks.FirstPerPathSnoc | disks.py:282-286 | A new entry is kept iff its path has not been seen. |
| Disks.KeepStep | disks.py:282-286 | `paths_dict` and `part_list` track the paths seen and the entries kept. |
| Disks.FirstPerPathFirst | disks.py:282-287 | Every kept entry is the first input entry with its path. |
| Disks.FirstPerPathOrder | disks.py:282-287 | Kept entries keep the input order. |
| Disks.FirstPerPathCovers | disks.py:282-287 | Kept paths are distinct, and every input path is kept. |
| Lvm.StrippedLines | disks.py:258 | The stripped and split output has at least one line. |
| Lvm.ParseLong | disks.py:262-263 | `long()` of a column: an optionally signed decimal, with an optional trailing `L` or `l`. |
| Lvm.Listing | disks.py:250-264 | The shared shape of `vgs`, `lvs` and `pvs`. A non-zero rc gives `GGBDISK00004E`, and empty output gives `[]`. Otherwise it strips, splits and strips each line, keeps the lines containing `vgname`, splits them into columns and converts each row. |
| Lvm.Vgs | disks.py:250-264 | Non-zero rc gives `GGBDISK00004E` operation-failed, and empty output gives `[]`. |
| Lvm.Lvs | disks.py:307-323 | Non-zero rc gives `GGBDISK00004E` operation-failed, and empty output gives `[]`. |
| Lvm.Pvs | disks.py:347-363 | Non-zero rc gives `GGBDISK00004E` operation-failed, and empty output gives `[]`. |
| Lvm.ParseRowsSpec | disks.py:261-264 | The eager `map` succeeds iff every row converts, and gives one record per row. On failure, the error is the first failing row's. |
| Lvm.BlankOutputRaises | disks.py:254-264 | Output of a lone newline passes the emptiness test, yields a row with no columns, and raises `IndexError`. |
| Lvm.ParseLongSpell | disks.py:262-263 | `long()` reads back a printed size, with or without the `L` suffix. |
| Lvm.SplitWsJoin | disks.py:264 | `split()` recovers the columns of a printed row. |
| Lvm.TableLines | disks.py:258 | Stripping and splitting a printed table gives its rows without the indentation. |
| Lvm.ColumnsJoined | disks.py:264 | Each printed row splits back into its columns. |
| Lvm.SelectSpec | disks.py:316-317 | The filter keeps exactly the rows whose text contains `vgname`, or every row without one. |
| Lvm.KeepJoined | disks.py:316-317 | Filtering the printed lines is filtering the rows. |
| Lvm.TableListing | disks.py:250-264 | A printed table lists its filtered rows, converted in order. |
| Lvm.VgsRoundTrip | disks.py:235-264 | `vgs` output printed from volume groups parses back to them. |
| Lvm.LvsRoundTrip | disks.py:290-323 | `lvs` output printed from logical volumes parses back to them. |
| Lvm.PvsRoundTrip | disks.py:326-363 | `pvs` output printed from physical volumes parses back to them, with or without a group column. |
| Lvm.LvsAsWritten | disks.py:316-323 | With a `vgname`, `lvs` keeps every row whose text contains it as a substring, whatever the column. |
| Lvm.PvsAsWritten | disks.py:356-363 | With a `vgname`, `pvs` keeps every row whose text contains it as a substring, whatever the column. |
| Lvm.LvsMatchesOtherGroup | disks.py:316-317 | Asking for `vg1` lists a volume of `vg10`; the group-column filter lists nothing. |
| Lvm.PvsMatchesOtherGroup | disks.py:356-357 | Asking for `vg1` lists an unassigned volume whose uuid contains `vg1`; the group-column filter lists nothing. |
| Lvm.InGroupSpec | disks.py:316-317 | The corrected filter keeps exactly the rows whose group column equals `vgname`. |
| Lvm.LvsInGroup | disks.py:307-323 | Corrected `lvs`: the same rc and empty-output behaviour as `lvs`. |
| Lvm.PvsInGroup | disks.py:347-363 | Corrected `pvs`: the same rc and empty-output behaviour as `pvs`. |
| Lvm.TableGroupListing | disks.py:316-323 | A printed table lists the rows of the requested group, converted in order. |
| Lvm.ParseInGroupLvs | disks.py:316-323 | The rows of a group convert to exactly that group's logical volumes. |
| Lvm.LvsInGroupSpec | disks.py:290-323 | Corrected `lvs` lists exactly the volumes of the requested group. |
| Lvm.ParseInGroupPvs | disks.py:356-363 | The rows of a group convert to exactly that group's physical volumes. |
| Lvm.PvsInGroupSpec | disks.py:326-363 | Corrected `pvs` lists exactly the volumes of the requested group. |
| Lvm.GroupMapErr | disks.py:390-395 | The loop fails with `IndexError` iff some line has no columns. |
| Lvm.GroupMapKeys | disks.py:390-395 | The dict's keys are exactly the first columns of the lines. |
| Lvm.GroupMapLast | disks.py:390-395 | Each volume maps to the group of its last line: the second column, or `N/A` for a one-column line. |
| Lvm.GroupMapStep | disks.py:390-395 | One more line sets one entry. |
| Lvm.GroupMap | disks.py:389-396 | The dict the loop builds: each line sets its first column to its second, or to `N/A` when it has one column. A later line overwrites an earlier one, and a line with no columns raises `IndexError`. |
| Lvm.PvGroups.constructor | disks.py:373 | The shared dict starts empty. |
| Lvm.PvGroups.Put | disks.py:392-395 | One assignment updates exactly one key. |
| Lvm.PvsWithVgList | disks.py:366-397 | The rc and empty-output rules, plus: one list element per output line, each the same freshly made dict, holding the final volume-to-group map. The call fails iff a line has no columns. |

## Left out

- Processes, pipes, signals, `time.sleep`, threads and logging are not modelled.
  - Process output and probe answers are parameters.
  - The `swupdateLock` RLock is a depth counter seen from one thread.
  - `preUpdate` (`os.setsid`, ignoring SIGTERM) has no observable effect in the model.
- The `isRunning` implementations, `_get_output_log` and the yum/dnf/portage parsers
  (`yumparser`, `portageparser`) are outside this model. So are the apt cache calls
  (`apt.Cache`), `run_command` and the `getPackagesList` of yum, apt and portage.
  Their answers enter as parameters (`BackendAnswers`, `CacheAnswer`).
- `_get_dev_node_path`, `_is_dev_extended_partition` and `_get_vgname` read sysfs
  or call `parted` and `pvs`. They enter as the `Host` functions.
- `Backends.WaitPkgManagerAvailable`, `SwUpdate.WaitForManager`, `SwUpdate.FollowLog`: these require that the package manager eventually stops. The source polls forever otherwise (swupdate.py:153, 167-178, 237), and such a run is not modelled.
- `encode_value` in `_is_dev_leaf` is treated as the identity on names.
- `Apt.PackageDeps`: `list(set(...))` has no defined order, so the result is a set.
- `Disks.GetPartitionsNames`: `list(names)` has no defined order, so the result is a set.
- `Disks.KeepFirstPerPath`: `fetch_disks_partitions` writes `path` and `available`
  into each lsblk dict in place. The model returns a separate entry (fields, path,
  flag) and does not model that aliasing.
- `Lsblk.LsblkRecords`: keys are limited to upper-case letters and `:`, as in every
  call site. With such keys, the `KEY=".*?"` search equals a literal search for
  `KEY="` followed by the first closing quote.
- `Lvm.Vgs`, `Lvm.Lvs`, `Lvm.Pvs`: the result rows are records (`VolumeGroup`,
  `LogicalVolume`, `PhysicalVolume`) rather than dicts with the `vgname`, `lvname`
  or `pvname` keys.
- `Lvm.ParseLong`: the `long()` conversion is modelled only on an optional sign,
  digits and an optional `L`. The sizes `vgs`, `lvs` and `pvs` print with
  `--nosuffix` have this form.
- Integers are unbounded, as are Python 2 `long` values.
- Behaviours of the code a reader may not expect:
  - an empty `params` list runs the `specific` template (`Backends.EmptyParamsSelectSpecific`);
  - the final `doUpdate` callback has flag false when the exit code is not 0 (`SwUpdate.DoUpdateFinal`);
  - a portage update raises `KeyError` after `cb('')` and leaves the lock held (`SwUpdate.DoUpdateEventsStopped`).

## Findings

| source | as written | input that shows it | evidently intended | confidence | as-written member | corrected member |
|---|---|---|---|---|---|---|
| disks.py:316-317 | `lvs(vgname)` keeps every line in which `vgname` occurs as a substring | the line `lv0 /dev/vg10/lv0 1024 vg10` with `vgname = "vg1"` is listed | keep the lines whose `vg_name` column equals `vgname` | medium, not executed | Lvm.LvsMatchesOtherGroup | Lvm.LvsInGroupSpec |
| disks.py:356-357 | `pvs(vgname)` keeps every line in which `vgname` occurs as a substring | the line `/dev/sdb1 2048 vg1xQb` of a volume in no group, with `vgname = "vg1"`, is listed | keep the lines whose `vg_name` column equals `vgname` | medium, not executed | Lvm.PvsMatchesOtherGroup | Lvm.PvsInGroupSpec |
