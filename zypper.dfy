/** The Zypper backend of swupdate.py (`ZypperUpdate`): it parses the text
    that `zypper list-updates`, `zypper info <name>` and
    `zypper --non-interactive update --dry-run <name>` print.

    Each parser starts from the finished command's output.  The wait for a
    running package manager that precedes every command is not part of
    these parsers; it is modelled on its own, as
    `Backends.WaitPkgManagerAvailable`. */
module Zypper {
  import opened Outcomes
  import opened PyStr
  import opened Backends

  // ---------------------------------------------------------------- list

  /** The columns of one `zypper list-updates` row. */
  const ColumnSep := " | "

  /** One line of the update table: a line that does not start with `v |`
      is not a row and gives `None`; a row with fewer than six columns
      raises `IndexError`; otherwise the record of columns 2, 4, 5 and 1,
      each stripped. */
  function RowPackage(line: string): (r: Result<Option<Package>>)
    ensures r.Err? ==> r.error == Raised("IndexError")
    ensures r == Ok(None) <==> !StartsWith(line, "v |")
  {
    if !StartsWith(line, "v |") then Ok(None)
    else
      var cols := Split(line, ColumnSep);
      if |cols| < 6 then Err(Raised("IndexError"))
      else Ok(Some(Package(
        Trim(cols[2], Whitespace), Trim(cols[4], Whitespace), Trim(cols[5], Whitespace), Trim(cols[1], Whitespace))))
  }

  /** The packages of the rows among `lines`, appended to `acc` in order;
      the first malformed row aborts with its error. */
  function ParseRows(lines: seq<string>, acc: seq<Package>): (r: Result<seq<Package>>)
    ensures r.Ok? ==> acc <= r.value && |r.value| <= |acc| + |lines|
    ensures r.Err? ==> r.error == Raised("IndexError")
    decreases |lines|
  {
    if lines == [] then Ok(acc)
    else
      match RowPackage(lines[0])
      case Err(e) => Err(e)
      case Ok(None) => ParseRows(lines[1..], acc)
      case Ok(Some(p)) => ParseRows(lines[1..], acc + [p])
  }

  /** What `getPackagesList` returns for the output of
      `zypper list-updates`: any standard error is a failure; otherwise the
      packages of the rows of the standard output. */
  function ListUpdates(o: CommandOutput): (r: Result<seq<Package>>)
    ensures |o.err| > 0 ==> r == Err(OperationFailed("GGBPKGUPD0003E", o.err))
    ensures |o.err| == 0 && r.Err? ==> r.error == Raised("IndexError")
  {
    if |o.err| > 0 then Err(OperationFailed("GGBPKGUPD0003E", o.err))
    else ParseRows(Split(o.out, "\n"), [])
  }

  /** `ZypperUpdate.getPackagesList`, the loop over the output lines. */
  method GetPackagesList(o: CommandOutput) returns (r: Result<seq<Package>>)
    ensures r == ListUpdates(o)
  {
    if |o.err| > 0 {
      return Err(OperationFailed("GGBPKGUPD0003E", o.err));
    }
    var lines := Split(o.out, "\n");
    var packages: seq<Package> := [];
    var i := 0;
    while i < |lines|
      invariant 0 <= i <= |lines|
      invariant ParseRows(lines[i..], packages) == ParseRows(lines, [])
    {
      assert lines[i..][1..] == lines[i + 1..];
      var line := lines[i];
      if StartsWith(line, "v |") {
        var cols := Split(line, ColumnSep);
        if |cols| < 6 {
          return Err(Raised("IndexError"));
        }
        var pkg := Package(
          Trim(cols[2], Whitespace), Trim(cols[4], Whitespace), Trim(cols[5], Whitespace), Trim(cols[1], Whitespace));
        packages := packages + [pkg];
      }
      i := i + 1;
    }
    r := Ok(packages);
  }

  /** A cell of the update table: no column bar, no line break, nothing to
      strip at either end. */
  predicate Cell(s: string) {
    Lacks(s, '|') && Lacks(s, '\n') && (s == "" || (s[0] !in Whitespace && s[|s| - 1] !in Whitespace))
  }

  predicate CellPackage(p: Package) {
    Cell(p.name) && Cell(p.version) && Cell(p.arch) && Cell(p.repository)
  }

  /** The row `zypper list-updates` prints for an update of `p` from the
      installed version `current`. */
  function Row(p: Package, current: string): string {
    Join(RowCells(p, current), ColumnSep)
  }

  function RowCells(p: Package, current: string): seq<string> {
    ["v", p.repository, p.name, current, p.version, p.arch]
  }

  lemma RowSplits(p: Package, current: string)
    requires CellPackage(p) && Cell(current)
    ensures Split(Row(p, current), ColumnSep) == RowCells(p, current)
    ensures StartsWith(Row(p, current), "v |")
  {
    var cells := RowCells(p, current);
    assert Anchored(ColumnSep, 1);
    SplitJoin(cells, ColumnSep, 1);
    RowStart(Join(cells[1..], ColumnSep));
  }

  lemma RowStart(rest: string)
    ensures StartsWith("v" + ColumnSep + rest, "v |")
  {
    assert ("v" + ColumnSep + rest)[..3] == "v |";
  }

  lemma RowHasNoBreak(p: Package, current: string)
    requires CellPackage(p) && Cell(current)
    ensures Lacks(Row(p, current), '\n')
  {
    var cells := RowCells(p, current);
    assert forall k :: 0 <= k < |cells| ==> Lacks(cells[k], '\n');
    NoneInJoin(cells, ColumnSep, '\n');
  }

  /** The row printed for a package reads back as that package. */
  lemma RowParses(p: Package, current: string)
    requires CellPackage(p) && Cell(current)
    ensures RowPackage(Row(p, current)) == Ok(Some(p))
  {
    RowSplits(p, current);
    TrimPlain(p.name, Whitespace);
    TrimPlain(p.version, Whitespace);
    TrimPlain(p.arch, Whitespace);
    TrimPlain(p.repository, Whitespace);
  }

  /** The table rows for `ps`, with the installed versions `current`. */
  function Rows(ps: seq<Package>, current: seq<string>): (r: seq<string>)
    requires |current| == |ps|
    ensures |r| == |ps|
  {
    seq(|ps|, k requires 0 <= k < |ps| => Row(ps[k], current[k]))
  }

  /** Lines that are not rows add nothing. */
  lemma {:induction false} ParseRowsSkipsHeader(header: seq<string>, rows: seq<string>, acc: seq<Package>)
    requires forall k :: 0 <= k < |header| ==> RowPackage(header[k]) == Ok(None)
    ensures ParseRows(header + rows, acc) == ParseRows(rows, acc)
    decreases |header|
  {
    if header != [] {
      var lines := header + rows;
      assert lines[0] == header[0];
      assert lines[1..] == header[1..] + rows;
      ParseRowsSkipsHeader(header[1..], rows, acc);
    } else {
      assert header + rows == rows;
    }
  }

  lemma ParseRowsStep(lines: seq<string>, acc: seq<Package>, p: Package)
    requires lines != [] && RowPackage(lines[0]) == Ok(Some(p))
    ensures ParseRows(lines, acc) == ParseRows(lines[1..], acc + [p])
  {
  }

  lemma ShiftFirst<T>(a: seq<T>, b: seq<T>)
    requires b != []
    ensures a + [b[0]] + b[1..] == a + b
  {
    assert b == [b[0]] + b[1..];
  }

  /** Rows add their packages in order. */
  lemma {:induction false} ParseRowsOfRows(rows: seq<string>, ps: seq<Package>, acc: seq<Package>)
    requires |rows| == |ps|
    requires forall k :: 0 <= k < |rows| ==> RowPackage(rows[k]) == Ok(Some(ps[k]))
    ensures ParseRows(rows, acc) == Ok(acc + ps)
    decreases |rows|
  {
    if rows != [] {
      ParseRowsStep(rows, acc, ps[0]);
      ParseRowsOfRows(rows[1..], ps[1..], acc + [ps[0]]);
      ShiftFirst(acc, ps);
    } else {
      assert acc + ps == acc;
    }
  }

  lemma TableHasNoBreak(header: seq<string>, ps: seq<Package>, current: seq<string>)
    requires |current| == |ps|
    requires forall k :: 0 <= k < |ps| ==> CellPackage(ps[k]) && Cell(current[k])
    requires forall k :: 0 <= k < |header| ==> Lacks(header[k], '\n')
    ensures forall k :: 0 <= k < |header| + |ps| ==> Lacks((header + Rows(ps, current))[k], '\n')
  {
    var lines := header + Rows(ps, current);
    forall k | |header| <= k < |lines|
      ensures Lacks(lines[k], '\n')
    {
      RowHasNoBreak(ps[k - |header|], current[k - |header|]);
    }
  }

  /** Reading back the table `zypper list-updates` prints gives the packages
      it lists, in order; header lines, which do not start with `v |`, add
      nothing. */
  lemma ListUpdatesRoundTrip(header: seq<string>, ps: seq<Package>, current: seq<string>, rc: int)
    requires |current| == |ps|
    requires forall k :: 0 <= k < |ps| ==> CellPackage(ps[k]) && Cell(current[k])
    requires forall k :: 0 <= k < |header| ==> !StartsWith(header[k], "v |") && Lacks(header[k], '\n')
    requires |header| + |ps| >= 1
    ensures ListUpdates(CommandOutput(Join(header + Rows(ps, current), "\n"), "", rc)) == Ok(ps)
  {
    var lines := header + Rows(ps, current);
    TableHasNoBreak(header, ps, current);
    assert Anchored("\n", 0);
    SplitJoin(lines, "\n", 0);
    var rows := Rows(ps, current);
    forall k | 0 <= k < |rows|
      ensures RowPackage(rows[k]) == Ok(Some(ps[k]))
    {
      RowParses(ps[k], current[k]);
    }
    ParseRowsSkipsHeader(header, rows, []);
    ParseRowsOfRows(rows, ps, []);
    assert [] + ps == ps;
    var o := CommandOutput(Join(lines, "\n"), "", rc);
    assert ListUpdates(o) == ParseRows(Split(Join(lines, "\n"), "\n"), []);
  }

  // ---------------------------------------------------------------- info

  /** The message Zypper prints for a name it does not know. */
  function NotFoundMessage(name: string): string {
    "'" + name + "' not found"
  }

  /** The keys of the package dict and the line each is read from, in the
      order `getPackageInfo` looks them up. */
  const InfoFields: seq<(string, string)> :=
    [("repository", "Repository:"), ("version", "Version:"), ("arch", "Arch:"), ("package_name", "Name:")]

  /** The value on a `Field: value` line: what follows the first `": "`, up
      to the next one, stripped; a line without `": "` raises `IndexError`. */
  function FieldValue(line: string): Result<string> {
    var parts := Split(line, ": ");
    if |parts| < 2 then Err(Raised("IndexError")) else Ok(Trim(parts[1], Whitespace))
  }

  /** `acc` with each of `fields` set from the first line that starts with
      its token; a field without such a line is left unset. */
  function InfoFrom(lines: seq<string>, fields: seq<(string, string)>, acc: PackageInfo): Result<PackageInfo>
    decreases |fields|
  {
    if fields == [] then Ok(acc)
    else
      match FirstWithPrefix(lines, fields[0].1)
      case None => InfoFrom(lines, fields[1..], acc)
      case Some(i) =>
        match FieldValue(lines[i])
        case Err(e) => Err(e)
        case Ok(v) => InfoFrom(lines, fields[1..], acc[fields[0].0 := v])
  }

  /** What `getPackageInfo(name)` returns for the output of `zypper info`. */
  function PackageInfoOf(o: CommandOutput, name: string): (r: Result<PackageInfo>)
    ensures |o.err| > 0 ==> r == Err(OperationFailed("GGBPKGUPD0006E", o.err))
    ensures |o.err| == 0 && Contains(o.out, NotFoundMessage(name)) ==>
      r == Err(NotFound("GGBPKGUPD0006E", NotFoundMessage(name)))
  {
    if |o.err| > 0 then Err(OperationFailed("GGBPKGUPD0006E", o.err))
    else if Contains(o.out, NotFoundMessage(name)) then Err(NotFound("GGBPKGUPD0006E", NotFoundMessage(name)))
    else InfoFrom(Split(o.out, "\n"), InfoFields, map[])
  }

  /** The scan `for line in lines: if line.startswith(token): ... break`:
      the index of the line the loop stops at, `|lines|` when it runs to the
      end. */
  method FindLine(lines: seq<string>, token: string) returns (j: nat)
    ensures j <= |lines|
    ensures j < |lines| <==> FirstWithPrefix(lines, token).Some?
    ensures j < |lines| ==> FirstWithPrefix(lines, token) == Some(j)
  {
    j := 0;
    while j < |lines|
      invariant j <= |lines|
      invariant forall k :: 0 <= k < j ==> !StartsWith(lines[k], token)
    {
      if StartsWith(lines[j], token) {
        return;
      }
      j := j + 1;
    }
  }

  /** `ZypperUpdate.getPackageInfo`: for each field, the scan for its line. */
  method GetPackageInfo(o: CommandOutput, name: string) returns (r: Result<PackageInfo>)
    ensures r == PackageInfoOf(o, name)
  {
    if |o.err| > 0 {
      return Err(OperationFailed("GGBPKGUPD0006E", o.err));
    }
    var message := NotFoundMessage(name);
    if Contains(o.out, message) {
      return Err(NotFound("GGBPKGUPD0006E", message));
    }
    var lines := Split(o.out, "\n");
    var package: PackageInfo := map[];
    var f := 0;
    while f < |InfoFields|
      invariant 0 <= f <= |InfoFields|
      invariant InfoFrom(lines, InfoFields[f..], package) == InfoFrom(lines, InfoFields, map[])
    {
      var (key, token) := InfoFields[f];
      var j := FindLine(lines, token);
      assert InfoFields[f..][1..] == InfoFields[f + 1..];
      if j < |lines| {
        var parts := Split(lines[j], ": ");
        if |parts| < 2 {
          return Err(Raised("IndexError"));
        }
        package := package[key := Trim(parts[1], Whitespace)];
      }
      f := f + 1;
    }
    r := Ok(package);
  }

  predicate DistinctKeys(fields: seq<(string, string)>) {
    forall a, b :: 0 <= a < b < |fields| ==> fields[a].0 != fields[b].0
  }

  /** Some field named `key` has a line that starts with its token. */
  predicate Found(lines: seq<string>, fields: seq<(string, string)>, key: string) {
    exists a :: 0 <= a < |fields| && fields[a].0 == key && FirstWithPrefix(lines, fields[a].1).Some?
  }

  /** The lookup fails exactly when some field's first line has no
      `": "`. */
  lemma {:induction false} InfoFromErr(lines: seq<string>, fields: seq<(string, string)>, acc: PackageInfo)
    ensures InfoFrom(lines, fields, acc).Err? <==>
      exists a :: 0 <= a < |fields| && FirstWithPrefix(lines, fields[a].1).Some?
        && FieldValue(lines[FirstWithPrefix(lines, fields[a].1).value]).Err?
    decreases |fields|
  {
    if fields != [] {
      var rest := fields[1..];
      assert forall a :: 1 <= a < |fields| ==> fields[a] == rest[a - 1];
      match FirstWithPrefix(lines, fields[0].1)
      case None =>
        InfoFromErr(lines, rest, acc);
      case Some(i) =>
        match FieldValue(lines[i])
        case Err(_) =>
        case Ok(v) =>
          InfoFromErr(lines, rest, acc[fields[0].0 := v]);
    }
  }

  /** The fields are read independently: the keys set are those set before
      and those whose token starts a line, each found field holds its line's
      value, and every other key keeps its value. */
  lemma {:induction false} InfoFromFields(lines: seq<string>, fields: seq<(string, string)>, acc: PackageInfo)
    requires DistinctKeys(fields) && InfoFrom(lines, fields, acc).Ok?
    ensures forall key :: key in InfoFrom(lines, fields, acc).value <==> key in acc || Found(lines, fields, key)
    ensures forall key :: key in acc && !Found(lines, fields, key) ==> InfoFrom(lines, fields, acc).value[key] == acc[key]
    ensures forall a :: 0 <= a < |fields| && FirstWithPrefix(lines, fields[a].1).Some? ==>
      && fields[a].0 in InfoFrom(lines, fields, acc).value
      && FieldValue(lines[FirstWithPrefix(lines, fields[a].1).value]).Ok?
      && InfoFrom(lines, fields, acc).value[fields[a].0] == FieldValue(lines[FirstWithPrefix(lines, fields[a].1).value]).value
    decreases |fields|
  {
    if fields != [] {
      var rest := fields[1..];
      assert forall a :: 1 <= a < |fields| ==> fields[a] == rest[a - 1];
      assert forall key :: Found(lines, fields, key) <==>
        (key == fields[0].0 && FirstWithPrefix(lines, fields[0].1).Some?) || Found(lines, rest, key);
      assert DistinctKeys(rest);
      assert !Found(lines, rest, fields[0].0);
      match FirstWithPrefix(lines, fields[0].1)
      case None =>
        InfoFromFields(lines, rest, acc);
      case Some(i) =>
        var v := FieldValue(lines[i]).value;
        InfoFromFields(lines, rest, acc[fields[0].0 := v]);
    }
  }

  lemma InfoFieldsDistinct()
    ensures DistinctKeys(InfoFields)
  {
  }

  /** The package dict of a successful lookup: each of the four keys is set
      exactly when a line starts with its token, and no other key is. */
  lemma PackageInfoKeys(o: CommandOutput, name: string)
    requires PackageInfoOf(o, name).Ok?
    ensures forall a :: 0 <= a < |InfoFields| ==>
      (InfoFields[a].0 in PackageInfoOf(o, name).value <==> FirstWithPrefix(Split(o.out, "\n"), InfoFields[a].1).Some?)
    ensures PackageInfoOf(o, name).value.Keys <= set a | 0 <= a < |InfoFields| :: InfoFields[a].0
  {
    var lines := Split(o.out, "\n");
    var m := PackageInfoOf(o, name).value;
    assert Ok(m) == InfoFrom(lines, InfoFields, map[]);
    InfoFieldsDistinct();
    InfoFromFields(lines, InfoFields, map[]);
    forall a | 0 <= a < |InfoFields| && InfoFields[a].0 in m
      ensures FirstWithPrefix(lines, InfoFields[a].1).Some?
    {
      var b :| 0 <= b < |InfoFields| && InfoFields[b].0 == InfoFields[a].0 && FirstWithPrefix(lines, InfoFields[b].1).Some?;
      assert a == b;
    }
    forall key | key in m
      ensures key in set a | 0 <= a < |InfoFields| :: InfoFields[a].0
    {
      var b :| 0 <= b < |InfoFields| && InfoFields[b].0 == key && FirstWithPrefix(lines, InfoFields[b].1).Some?;
    }
  }

  /** The lines `zypper info` prints for a package, in its order. */
  function InfoLines(p: Package): seq<string> {
    [InfoLine("Repository", p.repository), InfoLine("Name", p.name),
     InfoLine("Version", p.version), InfoLine("Arch", p.arch)]
  }

  /** A `Field: value` line. */
  function InfoLine(field: string, value: string): string {
    field + ": " + value
  }

  /** A value of a `zypper info` field: no colon, no line break, nothing to
      strip at either end. */
  predicate InfoCell(s: string) {
    Lacks(s, ':') && Lacks(s, '\n') && (s == "" || (s[0] !in Whitespace && s[|s| - 1] !in Whitespace))
  }

  lemma FieldLine(token: string, v: string)
    requires InfoCell(v) && token != "" && Lacks(token, ':')
    ensures FieldValue(InfoLine(token, v)) == Ok(v)
  {
    assert Anchored(": ", 0);
    assert Join([token, v], ": ") == InfoLine(token, v);
    SplitJoin([token, v], ": ", 0);
    TrimPlain(v, Whitespace);
  }

  lemma InfoLinesFound(p: Package)
    ensures var lines := InfoLines(p);
      && FirstWithPrefix(lines, "Repository:") == Some(0)
      && FirstWithPrefix(lines, "Version:") == Some(2)
      && FirstWithPrefix(lines, "Arch:") == Some(3)
      && FirstWithPrefix(lines, "Name:") == Some(1)
  {
    var lines := InfoLines(p);
    assert lines[0][0] == 'R' && lines[1][0] == 'N' && lines[2][0] == 'V';
    assert StartsWith(lines[0], "Repository:");
    DiffersAt(lines[0], "Version:", 0);
    DiffersAt(lines[1], "Version:", 0);
    assert StartsWith(lines[2], "Version:");
    DiffersAt(lines[0], "Arch:", 0);
    DiffersAt(lines[1], "Arch:", 0);
    DiffersAt(lines[2], "Arch:", 0);
    assert StartsWith(lines[3], "Arch:");
    DiffersAt(lines[0], "Name:", 0);
    assert StartsWith(lines[1], "Name:");
  }

  lemma InfoLinesValues(p: Package)
    requires InfoCell(p.name) && InfoCell(p.version) && InfoCell(p.arch) && InfoCell(p.repository)
    ensures var lines := InfoLines(p);
      && FieldValue(lines[0]) == Ok(p.repository)
      && FieldValue(lines[1]) == Ok(p.name)
      && FieldValue(lines[2]) == Ok(p.version)
      && FieldValue(lines[3]) == Ok(p.arch)
  {
    FieldLine("Repository", p.repository);
    FieldLine("Name", p.name);
    FieldLine("Version", p.version);
    FieldLine("Arch", p.arch);
  }

  lemma InfoLinesSplit(p: Package)
    requires InfoCell(p.name) && InfoCell(p.version) && InfoCell(p.arch) && InfoCell(p.repository)
    ensures Split(Join(InfoLines(p), "\n"), "\n") == InfoLines(p)
  {
    var lines := InfoLines(p);
    assert Anchored("\n", 0);
    assert forall k :: 0 <= k < |lines| ==> Lacks(lines[k], '\n');
    SplitJoin(lines, "\n", 0);
  }

  /** Reading back the record `zypper info` prints gives the four fields of
      the package. */
  lemma PackageInfoRoundTrip(p: Package, name: string, rc: int)
    requires InfoCell(p.name) && InfoCell(p.version) && InfoCell(p.arch) && InfoCell(p.repository)
    requires !Contains(Join(InfoLines(p), "\n"), NotFoundMessage(name))
    ensures PackageInfoOf(CommandOutput(Join(InfoLines(p), "\n"), "", rc), name) ==
      Ok(map["repository" := p.repository, "version" := p.version, "arch" := p.arch, "package_name" := p.name])
  {
    var lines := InfoLines(p);
    InfoLinesSplit(p);
    InfoLinesFound(p);
    InfoLinesValues(p);
    var m1 := map["repository" := p.repository];
    var m2 := m1["version" := p.version];
    var m3 := m2["arch" := p.arch];
    var m4 := m3["package_name" := p.name];
    assert InfoFrom(lines, InfoFields, map[]) == InfoFrom(lines, InfoFields[1..], m1);
    assert InfoFrom(lines, InfoFields[1..], m1) == InfoFrom(lines, InfoFields[2..], m2);
    assert InfoFrom(lines, InfoFields[2..], m2) == InfoFrom(lines, InfoFields[3..], m3);
    assert InfoFrom(lines, InfoFields[3..], m3) == InfoFrom(lines, [], m4);
  }

  // ---------------------------------------------------------------- deps

  /** `xs.remove(x)`: `xs` without its first `x`; `None` where Python
      raises `ValueError`. */
  function RemoveFirst(xs: seq<string>, x: string): (r: Option<seq<string>>)
    ensures r.None? <==> x !in xs
  {
    match IndexOf(xs, x)
    case None => None
    case Some(j) => Some(xs[..j] + xs[j + 1..])
  }

  /** `remove` takes out one occurrence, the first, and keeps the order of
      the rest. */
  lemma RemoveFirstSpec(xs: seq<string>, x: string)
    requires x in xs
    ensures multiset(RemoveFirst(xs, x).value) + multiset{x} == multiset(xs)
    ensures exists j :: 0 <= j < |xs| && xs[j] == x && x !in xs[..j] && RemoveFirst(xs, x).value == xs[..j] + xs[j + 1..]
  {
    var j := IndexOf(xs, x).value;
    assert xs == xs[..j] + [x] + xs[j + 1..];
    assert x !in xs[..j];
  }

  /** What `getPackageDeps(name)` returns for the output of the dry-run
      update: the names on the line after the first one that starts with
      "The following", less `name` itself.  That line is found again by
      `out.index(line)`.  Without such a line the index variable is never
      bound (`UnboundLocalError`); with nothing after it the lookup raises
      `IndexError`; a list without `name` makes `remove` raise
      `ValueError`. */
  function PackageDepsOf(o: CommandOutput, name: string): (r: Result<seq<string>>)
    ensures |o.err| > 0 ==> r == Err(OperationFailed("GGBPKGUPD0006E", o.err))
    ensures |o.err| == 0 && Contains(o.out, NotFoundMessage(name)) ==>
      r == Err(NotFound("GGBPKGUPD0006E", NotFoundMessage(name)))
  {
    if |o.err| > 0 then Err(OperationFailed("GGBPKGUPD0006E", o.err))
    else if Contains(o.out, NotFoundMessage(name)) then Err(NotFound("GGBPKGUPD0006E", NotFoundMessage(name)))
    else
      var out := Split(o.out, "\n");
      match FirstWithPrefix(out, "The following")
      case None => Err(Raised("UnboundLocalError"))
      case Some(i) =>
        var depsIndex := IndexOf(out, out[i]).value + 1;
        if depsIndex >= |out| then Err(Raised("IndexError"))
        else
          match RemoveFirst(SplitWs(out[depsIndex]), name)
          case None => Err(Raised("ValueError"))
          case Some(deps) => Ok(deps)
  }

  /** `ZypperUpdate.getPackageDeps`: the scan for the heading line. */
  method GetPackageDeps(o: CommandOutput, name: string) returns (r: Result<seq<string>>)
    ensures r == PackageDepsOf(o, name)
  {
    if |o.err| > 0 {
      return Err(OperationFailed("GGBPKGUPD0006E", o.err));
    }
    var message := NotFoundMessage(name);
    if Contains(o.out, message) {
      return Err(NotFound("GGBPKGUPD0006E", message));
    }
    var out := Split(o.out, "\n");
    var i := FindLine(out, "The following");
    if i == |out| {
      return Err(Raised("UnboundLocalError"));
    }
    var depsIndex := IndexOf(out, out[i]).value + 1;
    if depsIndex >= |out| {
      return Err(Raised("IndexError"));
    }
    var deps := SplitWs(out[depsIndex]);
    var remaining := RemoveFirst(deps, name);
    if remaining.None? {
      return Err(Raised("ValueError"));
    }
    r := Ok(remaining.value);
  }

  /** The dependencies come from the line right after the heading: they are
      its names with one `name` removed, in order, and every one of them is a
      whitespace-free name. */
  lemma PackageDepsFromNextLine(o: CommandOutput, name: string)
    requires PackageDepsOf(o, name).Ok?
    ensures var out := Split(o.out, "\n");
      var i := FirstWithPrefix(out, "The following");
      && i.Some? && i.value + 1 < |out|
      && var names := SplitWs(out[i.value + 1]);
      && name in names
      && multiset(PackageDepsOf(o, name).value) + multiset{name} == multiset(names)
      && forall k :: 0 <= k < |PackageDepsOf(o, name).value| ==>
           PackageDepsOf(o, name).value[k] != "" && NoneIn(PackageDepsOf(o, name).value[k], Whitespace)
  {
    var out := Split(o.out, "\n");
    IndexOfFirstWithPrefix(out, "The following");
    var i := FirstWithPrefix(out, "The following").value;
    var names := SplitWs(out[i + 1]);
    var deps := PackageDepsOf(o, name).value;
    RemoveFirstSpec(names, name);
    var j :| 0 <= j < |names| && names[j] == name && name !in names[..j] && deps == names[..j] + names[j + 1..];
    forall k | 0 <= k < |deps|
      ensures deps[k] != "" && NoneIn(deps[k], Whitespace)
    {
      if k < j {
        assert deps[k] == names[k];
      } else {
        assert deps[k] == names[k + 1];
      }
    }
  }
}
