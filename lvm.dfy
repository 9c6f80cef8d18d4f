/** The LVM listings of disks.py: `vgs`, `lvs` and `pvs`, which turn the
    whitespace-separated table the LVM tools print into records, and
    `pvs_with_vg_list`, which fills one dictionary from the `pvs` table.

    Running the tool is not part of the model: each listing receives what
    `run_command` handed back as a `CommandOutput`.  The records Python
    builds as dictionaries with fixed keys are datatypes here. */
module Lvm {
  import opened Outcomes
  import opened PyStr

  /** `{'vgname': ..., 'size': ..., 'free': ...}` */
  datatype VolumeGroup = VolumeGroup(name: string, size: int, free: int)

  /** `{'lvname': ..., 'path': ..., 'size': ...}` */
  datatype LogicalVolume = LogicalVolume(name: string, path: string, size: int)

  /** `{'pvname': ..., 'size': ..., 'uuid': ...}` */
  datatype PhysicalVolume = PhysicalVolume(name: string, size: int, uuid: string)

  /** The code of the `OperationFailed` every listing raises when the tool
      exits with a non-zero code. */
  const ListingFailed := "GGBDISK00004E"

  /** Python 2 `long(s)` on a token without whitespace: an integer, with an
      optional trailing `L` or `l`; `None` where Python raises
      `ValueError`. */
  function ParseLong(s: string): Option<int> {
    if s != [] && (s[|s| - 1] == 'L' || s[|s| - 1] == 'l') then ParseInt(s[..|s| - 1])
    else ParseInt(s)
  }

  // ---------------------------------------------------------------------
  // From the tool's output to rows of columns

  /** `map(lambda v: v.strip(), out.strip('\n').split('\n'))` */
  function StrippedLines(out: string): (r: seq<string>)
    ensures |r| >= 1
  {
    var lines := Split(Trim(out, {'\n'}), "\n");
    seq(|lines|, k requires 0 <= k < |lines| => Trim(lines[k], Whitespace))
  }

  /** The filter of `lvs` and `pvs`: `vgname is None or vgname in f`. */
  predicate Wanted(line: string, vgname: Option<string>) {
    vgname.None? || Contains(line, vgname.value)
  }

  /** `filter(lambda f: vgname is None or vgname in f, lines)` */
  function Keep(lines: seq<string>, vgname: Option<string>): seq<string>
    decreases |lines|
  {
    if lines == [] then []
    else (if Wanted(lines[0], vgname) then [lines[0]] else []) + Keep(lines[1..], vgname)
  }

  /** `[fields.split() for fields in lines]` */
  function Columns(lines: seq<string>): seq<seq<string>> {
    seq(|lines|, k requires 0 <= k < |lines| => SplitWs(lines[k]))
  }

  /** `map(parse, rows)`: the records in order, or the exception of the first
      row that raises. */
  function ParseRows<T>(rows: seq<seq<string>>, parse: seq<string> -> Result<T>): Result<seq<T>>
    decreases |rows|
  {
    if rows == [] then Ok([])
    else
      var first :- parse(rows[0]);
      var rest :- ParseRows(rows[1..], parse);
      Ok([first] + rest)
  }

  /** `row[i]` */
  function Column(row: seq<string>, i: nat): Result<string> {
    if i < |row| then Ok(row[i]) else Err(Raised("IndexError"))
  }

  /** `long(row[i])` */
  function LongColumn(row: seq<string>, i: nat): Result<int> {
    var s :- Column(row, i);
    match ParseLong(s)
    case None => Err(Raised("ValueError"))
    case Some(n) => Ok(n)
  }

  /** The record `vgs` builds from one row; the dictionary's values are
      evaluated in the order they are written. */
  function VgRow(row: seq<string>): Result<VolumeGroup> {
    var name :- Column(row, 0);
    var size :- LongColumn(row, 1);
    var free :- LongColumn(row, 2);
    Ok(VolumeGroup(name, size, free))
  }

  /** The record `lvs` builds from one row. */
  function LvRow(row: seq<string>): Result<LogicalVolume> {
    var name :- Column(row, 0);
    var path :- Column(row, 1);
    var size :- LongColumn(row, 2);
    Ok(LogicalVolume(name, path, size))
  }

  /** The record `pvs` builds from one row. */
  function PvRow(row: seq<string>): Result<PhysicalVolume> {
    var name :- Column(row, 0);
    var size :- LongColumn(row, 1);
    var uuid :- Column(row, 2);
    Ok(PhysicalVolume(name, size, uuid))
  }

  /** The steps `vgs`, `lvs` and `pvs` share: a failed command raises, empty
      output is the empty list, and otherwise every stripped line the filter
      keeps becomes one record. */
  function Listing<T>(o: CommandOutput, vgname: Option<string>, parse: seq<string> -> Result<T>): Result<seq<T>> {
    if o.rc != 0 then Err(OperationFailed(ListingFailed, o.err))
    else if o.out == "" then Ok([])
    else ParseRows(Columns(Keep(StrippedLines(o.out), vgname)), parse)
  }

  /** `vgs()`: every volume group, one per line of the table. */
  function Vgs(o: CommandOutput): (r: Result<seq<VolumeGroup>>)
    ensures o.rc != 0 ==> r == Err(OperationFailed(ListingFailed, o.err))
    ensures o.rc == 0 && o.out == "" ==> r == Ok([])
  {
    Listing(o, None, VgRow)
  }

  /** `lvs(vgname)`: the logical volumes, keeping only the lines that hold
      `vgname` anywhere when it is given. */
  function Lvs(o: CommandOutput, vgname: Option<string>): (r: Result<seq<LogicalVolume>>)
    ensures o.rc != 0 ==> r == Err(OperationFailed(ListingFailed, o.err))
    ensures o.rc == 0 && o.out == "" ==> r == Ok([])
  {
    Listing(o, vgname, LvRow)
  }

  /** `pvs(vgname)`: the physical volumes, with the same filter as `lvs`. */
  function Pvs(o: CommandOutput, vgname: Option<string>): (r: Result<seq<PhysicalVolume>>)
    ensures o.rc != 0 ==> r == Err(OperationFailed(ListingFailed, o.err))
    ensures o.rc == 0 && o.out == "" ==> r == Ok([])
  {
    Listing(o, vgname, PvRow)
  }

  // ---------------------------------------------------------------------
  // What the listings do with any output

  /** The records are read in full or not at all: the listing succeeds
      exactly when every row parses, then holds one record per row, in
      order; otherwise it fails with the exception of the first row that
      raises. */
  lemma {:induction false} ParseRowsSpec<T>(rows: seq<seq<string>>, parse: seq<string> -> Result<T>)
    ensures ParseRows(rows, parse).Ok? <==> forall k :: 0 <= k < |rows| ==> parse(rows[k]).Ok?
    ensures ParseRows(rows, parse).Ok? ==>
      |ParseRows(rows, parse).value| == |rows|
      && forall k :: 0 <= k < |rows| ==> parse(rows[k]) == Ok(ParseRows(rows, parse).value[k])
    ensures ParseRows(rows, parse).Err? ==>
      exists k :: 0 <= k < |rows| && parse(rows[k]) == Err(ParseRows(rows, parse).error)
        && forall j :: 0 <= j < k ==> parse(rows[j]).Ok?
    decreases |rows|
  {
    if rows != [] {
      ParseRowsSpec(rows[1..], parse);
      if parse(rows[0]).Ok? && ParseRows(rows[1..], parse).Err? {
        var k :| 0 <= k < |rows[1..]| && parse(rows[1..][k]) == Err(ParseRows(rows[1..], parse).error)
          && forall j :: 0 <= j < k ==> parse(rows[1..][j]).Ok?;
        assert parse(rows[k + 1]) == Err(ParseRows(rows, parse).error);
        assert forall j :: 0 <= j < k + 1 ==> parse(rows[j]).Ok? by {
          forall j | 0 <= j < k + 1
            ensures parse(rows[j]).Ok?
          {
            if j > 0 {
              assert rows[j] == rows[1..][j - 1];
            }
          }
        }
      }
    }
  }

  /** A blank line is a row without columns, and `l[0]` raises on it: an
      output made of line breaks only is not an empty listing. */
  lemma BlankOutputRaises(o: CommandOutput)
    requires o.rc == 0 && o.out == "\n"
    ensures Vgs(o) == Err(Raised("IndexError"))
  {
    assert Trim(o.out, {'\n'}) == "";
    assert Split("", "\n") == [""];
    assert StrippedLines(o.out) == [""];
    assert Keep([""], None) == [""];
    assert Columns([""]) == [[]];
  }

  // ---------------------------------------------------------------------
  // The table the LVM tools print, and the round trip through it

  /** A column value as LVM prints it: at least one character, none of them
      whitespace. */
  predicate Token(s: string) {
    s != "" && NoneIn(s, Whitespace)
  }

  predicate Tokens(row: seq<string>) {
    row != [] && forall k :: 0 <= k < |row| ==> Token(row[k])
  }

  predicate AllTokens(rows: seq<seq<string>>) {
    forall k :: 0 <= k < |rows| ==> Tokens(rows[k])
  }

  /** Each row's columns separated by one space. */
  function Joined(rows: seq<seq<string>>): seq<string> {
    seq(|rows|, k requires 0 <= k < |rows| => Join(rows[k], " "))
  }

  /** The table as the tools print it with `--noheading`: every row indented
      by two spaces and ended by a line break. */
  function Table(rows: seq<seq<string>>): string {
    if rows == [] then "" else Join(Indented(rows), "\n") + "\n"
  }

  function Indented(rows: seq<seq<string>>): seq<string> {
    seq(|rows|, k requires 0 <= k < |rows| => "  " + Join(rows[k], " "))
  }

  /** How an integer is printed: `str(n)`. */
  function Spell(n: int): (r: string)
    ensures Token(r)
  {
    if n < 0 then "-" + NatToString(-n) else NatToString(n)
  }

  /** `str` prints digits, after a minus sign for a negative number, and
      `long` reads them back. */
  lemma ParseIntSpell(n: int)
    ensures Spell(n) != "" && IsDigit(Spell(n)[|Spell(n)| - 1])
    ensures ParseInt(Spell(n)) == Some(n)
  {
    var d := NatToString(if n < 0 then -n else n);
    NatToStringValue(if n < 0 then -n else n);
    assert IsDigit(d[|d| - 1]);
    if n < 0 {
      var s := "-" + d;
      assert s[0] == '-' && s[1..] == d;
      assert s[|s| - 1] == d[|d| - 1];
    } else {
      assert d[0] != '-' && d[0] != '+';
    }
  }

  /** `long` reads back what `str` printed, with or without the `L` suffix
      Python 2 gives long integers. */
  lemma ParseLongSpell(n: int)
    ensures ParseLong(Spell(n)) == Some(n)
    ensures ParseLong(Spell(n) + "L") == Some(n)
  {
    ParseIntSpell(n);
    var s := Spell(n);
    assert (s + "L")[|s + "L"| - 1] == 'L';
    assert (s + "L")[..|s + "L"| - 1] == s;
  }

  lemma {:induction false} TokenEndOf(t: string, w: string)
    requires NoneIn(t, Whitespace) && (w == [] || w[0] in Whitespace)
    ensures TokenEnd(t + w) == |t|
    decreases |t|
  {
    if t == [] {
      assert t + w == w;
    } else {
      assert (t + w)[1..] == t[1..] + w;
      TokenEndOf(t[1..], w);
    }
  }

  /** `split()` takes apart columns joined by single spaces. */
  lemma {:induction false} SplitWsJoin(row: seq<string>)
    requires Tokens(row)
    ensures SplitWs(Join(row, " ")) == row
    decreases |row|
  {
    var t := row[0];
    if |row| == 1 {
      TokenEndOf(t, "");
      assert t + "" == t;
      assert t[..|t|] == t;
      assert t[|t|..] == [];
    } else {
      var rest := Join(row[1..], " ");
      var s := t + " " + rest;
      assert Join(row, " ") == s;
      TokenEndOf(t, " " + rest);
      assert t + (" " + rest) == s;
      assert s[..|t|] == t;
      assert s[|t|..] == " " + rest;
      assert (" " + rest)[1..] == rest;
      SplitWsJoin(row[1..]);
      assert [t] + row[1..] == row;
    }
  }

  lemma JoinFirst(ss: seq<string>, sep: string)
    requires |ss| >= 1 && ss[0] != ""
    ensures |Join(ss, sep)| > 0 && Join(ss, sep)[0] == ss[0][0]
  {
  }

  lemma {:induction false} JoinLast(ss: seq<string>, sep: string)
    requires |ss| >= 1 && ss[|ss| - 1] != ""
    ensures |Join(ss, sep)| > 0
    ensures Join(ss, sep)[|Join(ss, sep)| - 1] == ss[|ss| - 1][|ss[|ss| - 1]| - 1]
    decreases |ss|
  {
    if |ss| > 1 {
      JoinLast(ss[1..], sep);
    }
  }

  /** A joined row lacks line breaks, and starts and ends with a column's
      character. */
  lemma JoinedRow(row: seq<string>)
    requires Tokens(row)
    ensures Lacks(Join(row, " "), '\n')
    ensures |Join(row, " ")| > 0
    ensures Join(row, " ")[0] !in Whitespace
    ensures Join(row, " ")[|Join(row, " ")| - 1] !in Whitespace
  {
    NoneInJoin(row, " ", '\n');
    JoinFirst(row, " ");
    JoinLast(row, " ");
  }

  lemma StripIndent(x: string)
    requires x != "" && x[0] !in Whitespace && x[|x| - 1] !in Whitespace
    ensures Trim("  " + x, Whitespace) == x
  {
    assert ("  " + x)[0] == ' ' && ("  " + x)[1..] == " " + x;
    assert (" " + x)[0] == ' ' && (" " + x)[1..] == x;
    assert TrimLeft(x, Whitespace) == x;
    assert TrimLeft(" " + x, Whitespace) == x;
    assert TrimLeft("  " + x, Whitespace) == x;
  }

  /** Stripping the line breaks around a text that neither starts nor
      ends with one removes the one break after it. */
  lemma TrimTable(j: string)
    requires j != "" && j[0] != '\n' && j[|j| - 1] != '\n'
    ensures Trim(j + "\n", {'\n'}) == j
  {
    var s := j + "\n";
    assert s[0] == j[0];
    assert TrimLeft(s, {'\n'}) == s;
    assert s[|s| - 1] == '\n' && s[..|s| - 1] == j;
    assert TrimRight(j, {'\n'}) == j;
  }

  /** The indented rows lack line breaks and strip back to the joined
      rows; their join starts with a space and ends with a column's
      character. */
  lemma IndentedRows(rows: seq<seq<string>>)
    requires rows != [] && AllTokens(rows)
    ensures forall k :: 0 <= k < |rows| ==> Lacks(Indented(rows)[k], '\n')
    ensures forall k :: 0 <= k < |rows| ==> Trim(Indented(rows)[k], Whitespace) == Joined(rows)[k]
    ensures Join(Indented(rows), "\n") != ""
    ensures Join(Indented(rows), "\n")[0] == ' '
    ensures Join(Indented(rows), "\n")[|Join(Indented(rows), "\n")| - 1] !in Whitespace
  {
    var indented := Indented(rows);
    forall k | 0 <= k < |rows|
      ensures Lacks(indented[k], '\n')
      ensures Trim(indented[k], Whitespace) == Joined(rows)[k]
    {
      JoinedRow(rows[k]);
      StripIndent(Join(rows[k], " "));
    }
    JoinFirst(indented, "\n");
    var n := |rows| - 1;
    JoinedRow(rows[n]);
    assert indented[n][|indented[n]| - 1] == Join(rows[n], " ")[|Join(rows[n], " ")| - 1];
    JoinLast(indented, "\n");
  }

  /** The stripped lines of a printed table are its joined rows. */
  lemma TableLines(rows: seq<seq<string>>)
    requires rows != [] && AllTokens(rows)
    ensures StrippedLines(Table(rows)) == Joined(rows)
  {
    var j := Join(Indented(rows), "\n");
    IndentedRows(rows);
    TrimTable(j);
    SplitJoin(Indented(rows), "\n", 0);
  }

  /** Splitting the joined rows gives the rows back. */
  lemma ColumnsJoined(rows: seq<seq<string>>)
    requires AllTokens(rows)
    ensures Columns(Joined(rows)) == rows
  {
    forall k | 0 <= k < |rows|
      ensures SplitWs(Join(rows[k], " ")) == rows[k]
    {
      SplitWsJoin(rows[k]);
    }
  }

  /** The rows whose printed line the filter of `lvs` and `pvs` keeps. */
  function Select(rows: seq<seq<string>>, vgname: Option<string>): (r: seq<seq<string>>)
    ensures forall k :: 0 <= k < |r| ==> r[k] in rows
    decreases |rows|
  {
    if rows == [] then []
    else (if Wanted(Join(rows[0], " "), vgname) then [rows[0]] else []) + Select(rows[1..], vgname)
  }

  /** The filter keeps a row exactly when its printed line holds `vgname`,
      and keeps the rows in their order. */
  lemma {:induction false} SelectSpec(rows: seq<seq<string>>, vgname: Option<string>)
    ensures vgname.None? ==> Select(rows, vgname) == rows
    ensures forall row :: row in Select(rows, vgname) <==> row in rows && Wanted(Join(row, " "), vgname)
    decreases |rows|
  {
    if rows != [] {
      SelectSpec(rows[1..], vgname);
      assert rows == [rows[0]] + rows[1..];
    }
  }

  lemma JoinedAppend(a: seq<seq<string>>, b: seq<seq<string>>)
    ensures Joined(a + b) == Joined(a) + Joined(b)
  {
  }

  lemma {:induction false} KeepJoined(rows: seq<seq<string>>, vgname: Option<string>)
    ensures Keep(Joined(rows), vgname) == Joined(Select(rows, vgname))
    decreases |rows|
  {
    if rows != [] {
      assert Joined(rows)[1..] == Joined(rows[1..]);
      KeepJoined(rows[1..], vgname);
      var first := if Wanted(Join(rows[0], " "), vgname) then [rows[0]] else [];
      JoinedAppend(first, Select(rows[1..], vgname));
    }
  }

  /** A listing of a printed table reads the rows the filter selects. */
  lemma TableListing<T>(rows: seq<seq<string>>, e: string, vgname: Option<string>, parse: seq<string> -> Result<T>)
    requires AllTokens(rows)
    ensures Listing(CommandOutput(Table(rows), e, 0), vgname, parse) == ParseRows(Select(rows, vgname), parse)
  {
    if rows != [] {
      TableLines(rows);
      KeepJoined(rows, vgname);
      ColumnsJoined(Select(rows, vgname));
    }
  }

  lemma {:induction false} ParseRowsAll<T>(rows: seq<seq<string>>, parse: seq<string> -> Result<T>, vs: seq<T>)
    requires |rows| == |vs| && forall k :: 0 <= k < |rows| ==> parse(rows[k]) == Ok(vs[k])
    ensures ParseRows(rows, parse) == Ok(vs)
    decreases |rows|
  {
    if rows != [] {
      ParseRowsAll(rows[1..], parse, vs[1..]);
      assert [vs[0]] + vs[1..] == vs;
    }
  }

  lemma ParseRowsCons<T>(row: seq<string>, rest: seq<seq<string>>, parse: seq<string> -> Result<T>, v: T, vs: seq<T>)
    requires parse(row) == Ok(v) && ParseRows(rest, parse) == Ok(vs)
    ensures ParseRows([row] + rest, parse) == Ok([v] + vs)
  {
    assert ([row] + rest)[0] == row && ([row] + rest)[1..] == rest;
  }

  /** The table `vgs` prints for some volume groups. */
  function VgTable(vgs: seq<VolumeGroup>): seq<seq<string>> {
    seq(|vgs|, k requires 0 <= k < |vgs| => [vgs[k].name, Spell(vgs[k].size), Spell(vgs[k].free)])
  }

  /** `vgs` reads back every volume group of the table, in order. */
  lemma VgsRoundTrip(vgs: seq<VolumeGroup>, e: string)
    requires forall k :: 0 <= k < |vgs| ==> Token(vgs[k].name)
    ensures Vgs(CommandOutput(Table(VgTable(vgs)), e, 0)) == Ok(vgs)
  {
    var rows := VgTable(vgs);
    forall k | 0 <= k < |vgs|
      ensures Tokens(rows[k]) && VgRow(rows[k]) == Ok(vgs[k])
    {
      ParseLongSpell(vgs[k].size);
      ParseLongSpell(vgs[k].free);
    }
    TableListing(rows, e, None, VgRow);
    SelectSpec(rows, None);
    ParseRowsAll(rows, VgRow, vgs);
  }

  /** A logical volume as `lvs` lists it, with the name of its group. */
  datatype LvListing = LvListing(lv: LogicalVolume, group: string)

  function LvTable(ls: seq<LvListing>): seq<seq<string>> {
    seq(|ls|, k requires 0 <= k < |ls| => [ls[k].lv.name, ls[k].lv.path, Spell(ls[k].lv.size), ls[k].group])
  }

  predicate LvsPrintable(ls: seq<LvListing>) {
    forall k :: 0 <= k < |ls| ==> Token(ls[k].lv.name) && Token(ls[k].lv.path) && Token(ls[k].group)
  }

  lemma LvRowOf(ls: seq<LvListing>, k: nat)
    requires k < |ls| && LvsPrintable(ls)
    ensures Tokens(LvTable(ls)[k])
    ensures |LvTable(ls)[k]| == 4 && LvTable(ls)[k][3] == ls[k].group
    ensures LvRow(LvTable(ls)[k]) == Ok(ls[k].lv)
  {
    ParseLongSpell(ls[k].lv.size);
  }

  /** The logical volumes of the listings. */
  function LvsIn(ls: seq<LvListing>): seq<LogicalVolume> {
    seq(|ls|, k requires 0 <= k < |ls| => ls[k].lv)
  }

  /** Without a group name `lvs` reads back every logical volume of the
      table, in order. */
  lemma LvsRoundTrip(ls: seq<LvListing>, e: string)
    requires LvsPrintable(ls)
    ensures Lvs(CommandOutput(Table(LvTable(ls)), e, 0), None) == Ok(LvsIn(ls))
  {
    var rows := LvTable(ls);
    forall k | 0 <= k < |ls|
      ensures Tokens(rows[k]) && LvRow(rows[k]) == Ok(LvsIn(ls)[k])
    {
      LvRowOf(ls, k);
    }
    TableListing(rows, e, None, LvRow);
    SelectSpec(rows, None);
    ParseRowsAll(rows, LvRow, LvsIn(ls));
  }

  /** A physical volume as `pvs` lists it: the group column is empty, and
      so missing from the row, for a volume in no group. */
  datatype PvListing = PvListing(pv: PhysicalVolume, group: Option<string>)

  function PvColumns(l: PvListing): seq<string> {
    if l.group.Some? then [l.pv.name, Spell(l.pv.size), l.pv.uuid, l.group.value]
    else [l.pv.name, Spell(l.pv.size), l.pv.uuid]
  }

  function PvTable(ls: seq<PvListing>): seq<seq<string>> {
    seq(|ls|, k requires 0 <= k < |ls| => PvColumns(ls[k]))
  }

  predicate PvsPrintable(ls: seq<PvListing>) {
    forall k :: 0 <= k < |ls| ==>
      Token(ls[k].pv.name) && Token(ls[k].pv.uuid) && (ls[k].group.Some? ==> Token(ls[k].group.value))
  }

  lemma PvRowOf(ls: seq<PvListing>, k: nat)
    requires k < |ls| && PvsPrintable(ls)
    ensures Tokens(PvTable(ls)[k])
    ensures (|PvTable(ls)[k]| > 3 && PvTable(ls)[k][3] == ls[k].group.value) <==> ls[k].group.Some?
    ensures PvRow(PvTable(ls)[k]) == Ok(ls[k].pv)
  {
    ParseLongSpell(ls[k].pv.size);
  }

  /** The physical volumes of the listings. */
  function PvsIn(ls: seq<PvListing>): seq<PhysicalVolume> {
    seq(|ls|, k requires 0 <= k < |ls| => ls[k].pv)
  }

  /** Without a group name `pvs` reads back every physical volume of the
      table, in order, whether it belongs to a group or not. */
  lemma PvsRoundTrip(ls: seq<PvListing>, e: string)
    requires PvsPrintable(ls)
    ensures Pvs(CommandOutput(Table(PvTable(ls)), e, 0), None) == Ok(PvsIn(ls))
  {
    var rows := PvTable(ls);
    forall k | 0 <= k < |ls|
      ensures Tokens(rows[k]) && PvRow(rows[k]) == Ok(PvsIn(ls)[k])
    {
      PvRowOf(ls, k);
    }
    TableListing(rows, e, None, PvRow);
    SelectSpec(rows, None);
    ParseRowsAll(rows, PvRow, PvsIn(ls));
  }

  // ---------------------------------------------------------------------
  // Filtering by group: as written, and on the group column

  /** The rows whose group column, the fourth, is `vgname`. */
  function InGroup(rows: seq<seq<string>>, vgname: Option<string>): (r: seq<seq<string>>)
    ensures forall k :: 0 <= k < |r| ==> r[k] in rows
    decreases |rows|
  {
    if rows == [] then []
    else
      var keep := vgname.None? || (|rows[0]| > 3 && rows[0][3] == vgname.value);
      (if keep then [rows[0]] else []) + InGroup(rows[1..], vgname)
  }

  /** The group filter keeps exactly the rows of that group, in order. */
  lemma {:induction false} InGroupSpec(rows: seq<seq<string>>, vgname: Option<string>)
    ensures vgname.None? ==> InGroup(rows, vgname) == rows
    ensures forall row :: row in InGroup(rows, vgname) <==>
      row in rows && (vgname.None? || (|row| > 3 && row[3] == vgname.value))
    decreases |rows|
  {
    if rows != [] {
      InGroupSpec(rows[1..], vgname);
      assert rows == [rows[0]] + rows[1..];
    }
  }

  /** The listing with the filter applied to the group column. */
  function GroupListing<T>(o: CommandOutput, vgname: Option<string>, parse: seq<string> -> Result<T>): Result<seq<T>> {
    if o.rc != 0 then Err(OperationFailed(ListingFailed, o.err))
    else if o.out == "" then Ok([])
    else ParseRows(InGroup(Columns(StrippedLines(o.out)), vgname), parse)
  }

  /** `lvs(vgname)` keeping the volumes of the group `vgname`. */
  function LvsInGroup(o: CommandOutput, vgname: Option<string>): (r: Result<seq<LogicalVolume>>)
    ensures o.rc != 0 ==> r == Err(OperationFailed(ListingFailed, o.err))
    ensures o.rc == 0 && o.out == "" ==> r == Ok([])
  {
    GroupListing(o, vgname, LvRow)
  }

  /** `pvs(vgname)` keeping the volumes of the group `vgname`. */
  function PvsInGroup(o: CommandOutput, vgname: Option<string>): (r: Result<seq<PhysicalVolume>>)
    ensures o.rc != 0 ==> r == Err(OperationFailed(ListingFailed, o.err))
    ensures o.rc == 0 && o.out == "" ==> r == Ok([])
  {
    GroupListing(o, vgname, PvRow)
  }

  lemma TableGroupListing<T>(rows: seq<seq<string>>, e: string, vgname: Option<string>, parse: seq<string> -> Result<T>)
    requires AllTokens(rows)
    ensures GroupListing(CommandOutput(Table(rows), e, 0), vgname, parse) == ParseRows(InGroup(rows, vgname), parse)
  {
    if rows != [] {
      TableLines(rows);
      ColumnsJoined(rows);
    }
  }

  /** The logical volumes of the listings that belong to `group`. */
  function LvsOf(ls: seq<LvListing>, group: string): seq<LogicalVolume>
    decreases |ls|
  {
    if ls == [] then []
    else (if ls[0].group == group then [ls[0].lv] else []) + LvsOf(ls[1..], group)
  }

  lemma {:induction false} ParseInGroupLvs(ls: seq<LvListing>, group: string)
    requires LvsPrintable(ls)
    ensures ParseRows(InGroup(LvTable(ls), Some(group)), LvRow) == Ok(LvsOf(ls, group))
    decreases |ls|
  {
    if ls != [] {
      var rows := LvTable(ls);
      assert rows[1..] == LvTable(ls[1..]);
      ParseInGroupLvs(ls[1..], group);
      LvRowOf(ls, 0);
      var rest := InGroup(rows[1..], Some(group));
      if ls[0].group == group {
        assert InGroup(rows, Some(group)) == [rows[0]] + rest;
        ParseRowsCons(rows[0], rest, LvRow, ls[0].lv, LvsOf(ls[1..], group));
        assert LvsOf(ls, group) == [ls[0].lv] + LvsOf(ls[1..], group);
      } else {
        assert InGroup(rows, Some(group)) == rest;
        assert LvsOf(ls, group) == LvsOf(ls[1..], group);
      }
    }
  }

  /** Filtering on the group column, `lvs` of a printed table lists
      exactly the logical volumes of that group, in order. */
  lemma LvsInGroupSpec(ls: seq<LvListing>, e: string, group: string)
    requires LvsPrintable(ls)
    ensures LvsInGroup(CommandOutput(Table(LvTable(ls)), e, 0), Some(group)) == Ok(LvsOf(ls, group))
  {
    forall k | 0 <= k < |ls|
      ensures Tokens(LvTable(ls)[k])
    {
      LvRowOf(ls, k);
    }
    TableGroupListing(LvTable(ls), e, Some(group), LvRow);
    ParseInGroupLvs(ls, group);
  }

  /** As written, `lvs` of a printed table lists the logical volumes whose
      whole line holds `vgname`. */
  lemma LvsAsWritten(rows: seq<seq<string>>, e: string, vgname: string)
    requires AllTokens(rows)
    ensures Lvs(CommandOutput(Table(rows), e, 0), Some(vgname)) == ParseRows(Select(rows, Some(vgname)), LvRow)
    ensures forall row :: row in Select(rows, Some(vgname)) <==> row in rows && Contains(Join(row, " "), vgname)
  {
    TableListing(rows, e, Some(vgname), LvRow);
    SelectSpec(rows, Some(vgname));
  }

  /** The last of the joined strings ends the join. */
  lemma {:induction false} JoinSuffix(ss: seq<string>, sep: string)
    requires |ss| >= 1
    ensures |ss[|ss| - 1]| <= |Join(ss, sep)|
    ensures Join(ss, sep)[|Join(ss, sep)| - |ss[|ss| - 1]|..] == ss[|ss| - 1]
    decreases |ss|
  {
    if |ss| > 1 {
      JoinSuffix(ss[1..], sep);
      var r := Join(ss[1..], sep);
      var n := |ss[|ss| - 1]|;
      assert Join(ss, sep) == (ss[0] + sep) + r;
      assert ((ss[0] + sep) + r)[|(ss[0] + sep) + r| - n..] == r[|r| - n..];
    }
  }

  /** A one-row table whose line ends with `tail` is selected by any text
      `tail` starts with. */
  lemma SelectedByTail(rows: seq<seq<string>>, tail: string, v: string)
    requires |rows| == 1 && |rows[0]| >= 1 && rows[0][|rows[0]| - 1] == tail
    requires |v| <= |tail| && tail[..|v|] == v
    ensures Select(rows, Some(v)) == rows
  {
    var line := Join(rows[0], " ");
    JoinSuffix(rows[0], " ");
    var i := |line| - |tail|;
    assert line[i..][..|v|] == line[i..i + |v|];
    assert MatchAt(line, i, v);
    assert Wanted(line, Some(v));
  }

  /** One logical volume of the group `vg10`. */
  const SampleLv := LvListing(LogicalVolume("lv0", "/dev/vg10/lv0", 1024), "vg10")

  /** Asked for the group `vg1`, `lvs` as written lists the logical volume of
      `vg10`, because `vg1` occurs in its line; filtering on the group column
      lists nothing. */
  lemma LvsMatchesOtherGroup(e: string)
    ensures Lvs(CommandOutput(Table(LvTable([SampleLv])), e, 0), Some("vg1")) == Ok([SampleLv.lv])
    ensures LvsInGroup(CommandOutput(Table(LvTable([SampleLv])), e, 0), Some("vg1")) == Ok([])
  {
    var ls := [SampleLv];
    var rows := LvTable(ls);
    assert LvsPrintable(ls);
    LvRowOf(ls, 0);
    SelectedByTail(rows, "vg10", "vg1");
    TableListing(rows, e, Some("vg1"), LvRow);
    ParseRowsAll(rows, LvRow, [SampleLv.lv]);
    LvsInGroupSpec(ls, e, "vg1");
    assert LvsOf(ls, "vg1") == [];
  }

  /** The physical volumes of the listings that belong to `group`. */
  function PvsOf(ls: seq<PvListing>, group: string): seq<PhysicalVolume>
    decreases |ls|
  {
    if ls == [] then []
    else (if ls[0].group == Some(group) then [ls[0].pv] else []) + PvsOf(ls[1..], group)
  }

  lemma {:induction false} ParseInGroupPvs(ls: seq<PvListing>, group: string)
    requires PvsPrintable(ls)
    ensures ParseRows(InGroup(PvTable(ls), Some(group)), PvRow) == Ok(PvsOf(ls, group))
    decreases |ls|
  {
    if ls != [] {
      var rows := PvTable(ls);
      assert rows[1..] == PvTable(ls[1..]);
      ParseInGroupPvs(ls[1..], group);
      PvRowOf(ls, 0);
      var rest := InGroup(rows[1..], Some(group));
      if ls[0].group == Some(group) {
        assert InGroup(rows, Some(group)) == [rows[0]] + rest;
        ParseRowsCons(rows[0], rest, PvRow, ls[0].pv, PvsOf(ls[1..], group));
        assert PvsOf(ls, group) == [ls[0].pv] + PvsOf(ls[1..], group);
      } else {
        assert InGroup(rows, Some(group)) == rest;
        assert PvsOf(ls, group) == PvsOf(ls[1..], group);
      }
    }
  }

  /** Filtering on the group column, `pvs` of a printed table lists
      exactly the physical volumes of that group, in order; volumes in no
      group are never listed. */
  lemma PvsInGroupSpec(ls: seq<PvListing>, e: string, group: string)
    requires PvsPrintable(ls)
    ensures PvsInGroup(CommandOutput(Table(PvTable(ls)), e, 0), Some(group)) == Ok(PvsOf(ls, group))
  {
    forall k | 0 <= k < |ls|
      ensures Tokens(PvTable(ls)[k])
    {
      PvRowOf(ls, k);
    }
    TableGroupListing(PvTable(ls), e, Some(group), PvRow);
    ParseInGroupPvs(ls, group);
  }

  /** As written, `pvs` of a printed table lists the physical volumes whose
      whole line holds `vgname`. */
  lemma PvsAsWritten(rows: seq<seq<string>>, e: string, vgname: string)
    requires AllTokens(rows)
    ensures Pvs(CommandOutput(Table(rows), e, 0), Some(vgname)) == ParseRows(Select(rows, Some(vgname)), PvRow)
    ensures forall row :: row in Select(rows, Some(vgname)) <==> row in rows && Contains(Join(row, " "), vgname)
  {
    TableListing(rows, e, Some(vgname), PvRow);
    SelectSpec(rows, Some(vgname));
  }

  /** A physical volume in no group whose identifier starts with `vg1`. */
  const SamplePv := PvListing(PhysicalVolume("/dev/sdb1", 2048, "vg1xQb"), None)

  /** Asked for the group `vg1`, `pvs` as written lists a physical volume in
      no group, because `vg1` occurs in its identifier; filtering on the
      group column lists nothing. */
  lemma PvsMatchesOtherGroup(e: string)
    ensures Pvs(CommandOutput(Table(PvTable([SamplePv])), e, 0), Some("vg1")) == Ok([SamplePv.pv])
    ensures PvsInGroup(CommandOutput(Table(PvTable([SamplePv])), e, 0), Some("vg1")) == Ok([])
  {
    var ls := [SamplePv];
    var rows := PvTable(ls);
    assert PvsPrintable(ls);
    PvRowOf(ls, 0);
    SelectedByTail(rows, "vg1xQb", "vg1");
    TableListing(rows, e, Some("vg1"), PvRow);
    ParseRowsAll(rows, PvRow, [SamplePv.pv]);
    PvsInGroupSpec(ls, e, "vg1");
    assert PvsOf(ls, "vg1") == [];
  }

  // ---------------------------------------------------------------------
  // pvs_with_vg_list

  /** The group `pvs_with_vg_list` records for a row of columns: the second
      column, or `"N/A"` when the row has only one. */
  function GroupOf(columns: seq<string>): string
    requires columns != []
  {
    if |columns| == 1 then "N/A" else columns[1]
  }

  /** The dictionary `pvs_with_vg_list` builds from its lines, each line
      writing over what an earlier one wrote for the same volume; a line
      without columns raises `IndexError`. */
  function GroupMap(lines: seq<string>): Result<map<string, string>>
    decreases |lines|
  {
    if lines == [] then Ok(map[])
    else
      var m :- GroupMap(lines[..|lines| - 1]);
      var columns := SplitWs(lines[|lines| - 1]);
      if columns == [] then Err(Raised("IndexError"))
      else Ok(m[columns[0] := GroupOf(columns)])
  }

  /** The lines `pvs_with_vg_list` reads: `out.strip('\n').splitlines()`. */
  function GroupLines(out: string): seq<string> {
    SplitLines(Trim(out, {'\n'}))
  }

  /** The dictionary is built in full or not at all: it fails, with
      `IndexError`, exactly when some line has no columns. */
  lemma {:induction false} GroupMapErr(lines: seq<string>)
    ensures GroupMap(lines).Err? <==> exists k :: 0 <= k < |lines| && SplitWs(lines[k]) == []
    ensures GroupMap(lines).Err? ==> GroupMap(lines).error == Raised("IndexError")
    decreases |lines|
  {
    if lines != [] {
      var init := lines[..|lines| - 1];
      GroupMapErr(init);
      assert forall k :: 0 <= k < |init| ==> init[k] == lines[k];
    }
  }

  /** Its keys are the first columns of the lines, and nothing else. */
  lemma {:induction false} GroupMapKeys(lines: seq<string>)
    requires GroupMap(lines).Ok?
    ensures forall k :: 0 <= k < |lines| ==> SplitWs(lines[k]) != []
    ensures forall pv :: pv in GroupMap(lines).value <==>
      exists k :: 0 <= k < |lines| && SplitWs(lines[k])[0] == pv
    decreases |lines|
  {
    if lines != [] {
      var init := lines[..|lines| - 1];
      GroupMapKeys(init);
      assert forall k :: 0 <= k < |init| ==> init[k] == lines[k];
    }
  }

  /** Every volume maps to the group of the last line that names it. */
  lemma {:induction false} GroupMapLast(lines: seq<string>, k: nat)
    requires GroupMap(lines).Ok? && k < |lines| && SplitWs(lines[k]) != []
    requires forall j :: k < j < |lines| ==> SplitWs(lines[j]) != [] && SplitWs(lines[j])[0] != SplitWs(lines[k])[0]
    ensures SplitWs(lines[k])[0] in GroupMap(lines).value
      && GroupMap(lines).value[SplitWs(lines[k])[0]] == GroupOf(SplitWs(lines[k]))
    decreases |lines|
  {
    var init := lines[..|lines| - 1];
    if k < |lines| - 1 {
      assert init[k] == lines[k];
      assert forall j :: k < j < |init| ==> init[j] == lines[j];
      GroupMapLast(init, k);
    }
  }

  /** The dictionary of `pvs_with_vg_list`, which the function fills in place
      and appends to its result once per line. */
  class PvGroups {
    var entries: map<string, string>

    constructor ()
      ensures entries == map[]
    {
      entries := map[];
    }

    /** `outdict[pv] = vg` */
    method Put(pv: string, vg: string)
      modifies this
      ensures entries == old(entries)[pv := vg]
    {
      entries := entries[pv := vg];
    }
  }

  lemma GroupMapStep(lines: seq<string>, i: nat)
    requires i < |lines| && GroupMap(lines[..i]).Ok? && SplitWs(lines[i]) != []
    ensures GroupMap(lines[..i + 1])
      == Ok(GroupMap(lines[..i]).value[SplitWs(lines[i])[0] := GroupOf(SplitWs(lines[i]))])
  {
    assert lines[..i + 1][..i] == lines[..i];
  }

  /** `pvs_with_vg_list()`: the list holds the one dictionary once per line,
      so every entry is the same object, and that object ends up mapping each
      physical volume to its group. */
  method PvsWithVgList(o: CommandOutput) returns (r: Result<seq<PvGroups>>)
    ensures o.rc != 0 ==> r == Err(OperationFailed(ListingFailed, o.err))
    ensures o.rc == 0 && o.out == "" ==> r == Ok([])
    ensures o.rc == 0 && o.out != "" ==> (r.Err? <==> GroupMap(GroupLines(o.out)).Err?)
    ensures o.rc == 0 && o.out != "" && r.Err? ==> r.error == GroupMap(GroupLines(o.out)).error
    ensures r.Ok? && o.out != "" ==> |r.value| == |GroupLines(o.out)|
    ensures r.Ok? ==> forall j, k :: 0 <= j < k < |r.value| ==> r.value[j] == r.value[k]
    ensures r.Ok? && r.value != [] ==>
      fresh(r.value[0]) && Ok(r.value[0].entries) == GroupMap(GroupLines(o.out))
  {
    if o.rc != 0 {
      return Err(OperationFailed(ListingFailed, o.err));
    }
    if o.out == "" {
      return Ok([]);
    }
    var lines := GroupLines(o.out);
    var outdict := new PvGroups();
    var outlist: seq<PvGroups> := [];
    var i := 0;
    while i < |lines|
      invariant 0 <= i <= |lines|
      invariant |outlist| == i
      invariant forall k :: 0 <= k < i ==> outlist[k] == outdict
      invariant GroupMap(lines[..i]) == Ok(outdict.entries)
    {
      var columns := SplitWs(lines[i]);
      if columns == [] {
        GroupMapErr(lines);
        return Err(Raised("IndexError"));
      }
      GroupMapStep(lines, i);
      if |columns| == 1 {
        outdict.Put(columns[0], "N/A");
      } else {
        outdict.Put(columns[0], columns[1]);
      }
      outlist := outlist + [outdict];
      i := i + 1;
    }
    assert lines[..i] == lines;
    return Ok(outlist);
  }
}
