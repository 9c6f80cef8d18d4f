/** The `lsblk -P` reader of disks.py: `_parse_lsblk_output`, which turns
    lines of `KEY="value"` pairs into one dict per line, and
    `_get_lsblk_devs`, which maps a failed `lsblk` to the disk errors.

    The command itself is not run; its finished output is a parameter. */
module Lsblk {
  import opened Outcomes
  import opened PyStr

  /** One device as `_parse_lsblk_output` returns it: lower-cased key to
      value. */
  type Record = map<string, string>

  /** The keys the callers ask `lsblk` for are column names made of capital
      letters and `:`.  Such a key means itself inside a regular expression,
      which is what lets the search below stand for `re.search`. */
  predicate PlainKey(key: string) {
    key != "" && forall k :: 0 <= k < |key| ==> 'A' <= key[k] <= 'Z' || key[k] == ':'
  }

  /** `re.search(KEY + '=".*?"', line)`, and the text between the quotes of
      the match.  The leftmost start wins; from there the lazy `.*?` stops
      at the first quote after the opening one.  The lines this is applied
      to come from splitting on line breaks, so `.` never meets one. */
  function QuotedValue(line: string, key: string): Option<string> {
    var opening := key + "=\"";
    match Find(line, opening)
    case None => None
    case Some(i) =>
      var start := i + |opening|;
      match FindFrom(line, "\"", start)
      case None => None
      case Some(j) => Some(line[start..j])
  }

  lemma NoQuoteFrom(line: string, start: nat)
    requires start <= |line| && FindFrom(line, "\"", start).None?
    ensures Lacks(line[start..], '"')
  {
    forall k | start <= k < |line|
      ensures line[k] != '"'
    {
      assert MatchAt(line, k, "\"") <== line[k..k + 1] == "\"";
    }
    assert forall k :: 0 <= k < |line| - start ==> line[start..][k] == line[start + k];
  }

  lemma NoQuoteBefore(line: string, start: nat, j: nat)
    requires start <= |line| && FindFrom(line, "\"", start) == Some(j)
    ensures Lacks(line[start..j], '"') && line[j] == '"'
  {
    forall k | start <= k < j
      ensures line[k] != '"'
    {
      assert MatchAt(line, k, "\"") <== line[k..k + 1] == "\"";
    }
    assert line[j..j + 1] == "\"";
  }

  /** The search finds the first `KEY="` and reads up to the next quote:
      the value holds no quote and follows `KEY="` at the first place it
      occurs. */
  lemma QuotedValueFound(line: string, key: string)
    requires QuotedValue(line, key).Some?
    ensures var opening := key + "=\"";
      var v := QuotedValue(line, key).value;
      && Find(line, opening).Some?
      && MatchAt(line, Find(line, opening).value, opening + v + "\"")
      && Lacks(v, '"')
  {
    var opening := key + "=\"";
    var i := Find(line, opening).value;
    var start := i + |opening|;
    var j := FindFrom(line, "\"", start).value;
    NoQuoteBefore(line, start, j);
    assert line[i..start] == opening;
    assert line[i..j + 1] == line[i..start] + line[start..j] + line[j..j + 1];
  }

  /** There is no match exactly when `KEY="` does not occur or no quote
      closes its first occurrence. */
  lemma QuotedValueMissing(line: string, key: string)
    requires QuotedValue(line, key).None?
    ensures var opening := key + "=\"";
      Find(line, opening).None? || Lacks(line[Find(line, opening).value + |opening|..], '"')
  {
    var opening := key + "=\"";
    if Find(line, opening).Some? {
      NoQuoteFrom(line, Find(line, opening).value + |opening|);
    }
  }

  /** The dict of one line: for each key in order, its lower-cased name set
      to the quoted value; a key that does not match makes `match.group()`
      fail with `AttributeError`. */
  function RecordFrom(line: string, keys: seq<string>, acc: Record): Result<Record>
    decreases |keys|
  {
    if keys == [] then Ok(acc)
    else
      match QuotedValue(line, keys[0])
      case None => Err(Raised("AttributeError"))
      case Some(v) => RecordFrom(line, keys[1..], acc[Lower(keys[0]) := v])
  }

  /** The dicts of `lines`, appended to `acc` in order. */
  function RecordsFrom(lines: seq<string>, keys: seq<string>, acc: seq<Record>): Result<seq<Record>>
    decreases |lines|
  {
    if lines == [] then Ok(acc)
    else
      var d :- RecordFrom(lines[0], keys, map[]);
      RecordsFrom(lines[1..], keys, acc + [d])
  }

  /** The lines of `lsblk -P` output: trailing line breaks removed, then
      split on each line break. */
  function OutputLines(output: string): (r: seq<string>)
    ensures |r| >= 1
  {
    Split(TrimRight(output, {'\n'}), "\n")
  }

  /** What `_parse_lsblk_output(output, keys)` returns. */
  function LsblkRecords(output: string, keys: seq<string>): Result<seq<Record>>
    requires forall k :: 0 <= k < |keys| ==> PlainKey(keys[k])
  {
    RecordsFrom(OutputLines(output), keys, [])
  }

  /** `_parse_lsblk_output`: the loop over lines and, inside it, over keys. */
  method ParseLsblkOutput(output: string, keys: seq<string>) returns (r: Result<seq<Record>>)
    requires forall k :: 0 <= k < |keys| ==> PlainKey(keys[k])
    ensures r == LsblkRecords(output, keys)
  {
    var lines := OutputLines(output);
    var records: seq<Record> := [];
    var i := 0;
    while i < |lines|
      invariant 0 <= i <= |lines|
      invariant RecordsFrom(lines[i..], keys, records) == RecordsFrom(lines, keys, [])
    {
      var line := lines[i];
      var d: Record := map[];
      var k := 0;
      while k < |keys|
        invariant 0 <= k <= |keys|
        invariant RecordFrom(line, keys[k..], d) == RecordFrom(line, keys, map[])
      {
        assert keys[k..][1..] == keys[k + 1..];
        var key := keys[k];
        var field := QuotedValue(line, key);
        if field.None? {
          return Err(Raised("AttributeError"));
        }
        d := d[Lower(key) := field.value];
        k := k + 1;
      }
      assert lines[i..][1..] == lines[i + 1..];
      records := records + [d];
      i := i + 1;
    }
    r := Ok(records);
  }

  /** No two keys lower-case to the same dict key. */
  predicate DistinctLower(keys: seq<string>) {
    forall a, b :: 0 <= a < b < |keys| ==> Lower(keys[a]) != Lower(keys[b])
  }

  function LowerKeys(keys: seq<string>): set<string> {
    set a | 0 <= a < |keys| :: Lower(keys[a])
  }

  lemma {:induction false} RecordFromErr(line: string, keys: seq<string>, acc: Record)
    ensures RecordFrom(line, keys, acc).Err? <==> exists a :: 0 <= a < |keys| && QuotedValue(line, keys[a]).None?
    decreases |keys|
  {
    if keys != [] {
      var rest := keys[1..];
      assert forall a :: 1 <= a < |keys| ==> keys[a] == rest[a - 1];
      match QuotedValue(line, keys[0])
      case None =>
      case Some(v) =>
        RecordFromErr(line, rest, acc[Lower(keys[0]) := v]);
    }
  }

  lemma {:induction false} RecordFromKeys(line: string, keys: seq<string>, acc: Record)
    requires RecordFrom(line, keys, acc).Ok?
    ensures RecordFrom(line, keys, acc).value.Keys == acc.Keys + LowerKeys(keys)
    ensures forall key :: key in acc && key !in LowerKeys(keys) ==> RecordFrom(line, keys, acc).value[key] == acc[key]
    decreases |keys|
  {
    if keys != [] {
      var rest := keys[1..];
      var acc' := acc[Lower(keys[0]) := QuotedValue(line, keys[0]).value];
      RecordFromKeys(line, rest, acc');
      assert forall a :: 1 <= a < |keys| ==> keys[a] == rest[a - 1];
      assert LowerKeys(keys) == {Lower(keys[0])} + LowerKeys(rest);
    }
  }

  lemma {:induction false} RecordFromOk(line: string, keys: seq<string>, acc: Record)
    requires DistinctLower(keys) && RecordFrom(line, keys, acc).Ok?
    ensures RecordFrom(line, keys, acc).value.Keys == acc.Keys + LowerKeys(keys)
    ensures forall a :: 0 <= a < |keys| ==>
      QuotedValue(line, keys[a]) == Some(RecordFrom(line, keys, acc).value[Lower(keys[a])])
    decreases |keys|
  {
    RecordFromKeys(line, keys, acc);
    if keys != [] {
      var rest := keys[1..];
      assert forall a :: 1 <= a < |keys| ==> keys[a] == rest[a - 1];
      assert DistinctLower(rest);
      var acc' := acc[Lower(keys[0]) := QuotedValue(line, keys[0]).value];
      RecordFromOk(line, rest, acc');
      RecordFromKeys(line, rest, acc');
      assert Lower(keys[0]) !in LowerKeys(rest);
    }
  }

  lemma {:induction false} RecordsFromErr(lines: seq<string>, keys: seq<string>, acc: seq<Record>)
    ensures RecordsFrom(lines, keys, acc).Err? <==>
      exists i, a :: 0 <= i < |lines| && 0 <= a < |keys| && QuotedValue(lines[i], keys[a]).None?
    decreases |lines|
  {
    if lines != [] {
      RecordFromErr(lines[0], keys, map[]);
      var rest := lines[1..];
      assert forall i :: 1 <= i < |lines| ==> lines[i] == rest[i - 1];
      if RecordFrom(lines[0], keys, map[]).Ok? {
        RecordsFromErr(rest, keys, acc + [RecordFrom(lines[0], keys, map[]).value]);
      }
    }
  }

  /** `d` is the dict `keys` give on `line`. */
  predicate GoodRecord(line: string, keys: seq<string>, d: Record) {
    && d.Keys == LowerKeys(keys)
    && forall a :: 0 <= a < |keys| ==> QuotedValue(line, keys[a]) == Some(d[Lower(keys[a])])
  }

  lemma RecordFromGood(line: string, keys: seq<string>)
    requires DistinctLower(keys) && RecordFrom(line, keys, map[]).Ok?
    ensures GoodRecord(line, keys, RecordFrom(line, keys, map[]).value)
  {
    RecordFromOk(line, keys, map[]);
    var empty: Record := map[];
    assert empty.Keys + LowerKeys(keys) == LowerKeys(keys);
  }

  lemma {:induction false} RecordsFromOk(lines: seq<string>, keys: seq<string>, acc: seq<Record>)
    requires DistinctLower(keys) && RecordsFrom(lines, keys, acc).Ok?
    ensures var r := RecordsFrom(lines, keys, acc).value;
      && |r| == |acc| + |lines| && r[..|acc|] == acc
      && forall i :: 0 <= i < |lines| ==> GoodRecord(lines[i], keys, r[|acc| + i])
    decreases |lines|
  {
    if lines != [] {
      var d := RecordFrom(lines[0], keys, map[]).value;
      RecordFromGood(lines[0], keys);
      var rest := lines[1..];
      RecordsFromOk(rest, keys, acc + [d]);
      var r := RecordsFrom(rest, keys, acc + [d]).value;
      assert r[..|acc| + 1][..|acc|] == r[..|acc|];
      assert r[|acc|] == (acc + [d])[|acc|] == d;
      forall i | 1 <= i < |lines|
        ensures GoodRecord(lines[i], keys, r[|acc| + i])
      {
        assert lines[i] == rest[i - 1];
        assert |acc| + i == |acc + [d]| + (i - 1);
      }
    }
  }

  /** `_parse_lsblk_output` gives one dict per line of the output with its
      trailing line breaks removed; each dict has exactly the lower-cased
      keys, each set to the quoted text of that key's first match on the
      line.  It fails exactly when some key does not match on some line. */
  lemma LsblkRecordsSpec(output: string, keys: seq<string>)
    requires forall k :: 0 <= k < |keys| ==> PlainKey(keys[k])
    requires DistinctLower(keys)
    ensures var lines := OutputLines(output);
      && (LsblkRecords(output, keys).Err? <==>
            exists i, a :: 0 <= i < |lines| && 0 <= a < |keys| && QuotedValue(lines[i], keys[a]).None?)
      && (LsblkRecords(output, keys).Ok? ==>
            var r := LsblkRecords(output, keys).value;
            |r| == |lines| && forall i :: 0 <= i < |lines| ==> GoodRecord(lines[i], keys, r[i]))
  {
    var lines := OutputLines(output);
    RecordsFromErr(lines, keys, []);
    if LsblkRecords(output, keys).Ok? {
      RecordsFromOk(lines, keys, []);
      var r := LsblkRecords(output, keys).value;
      forall i | 0 <= i < |lines|
        ensures GoodRecord(lines[i], keys, r[i])
      {
        var none: seq<Record> := [];
        assert |none| + i == i;
      }
    }
  }

  /** `_get_lsblk_devs`: a failed `lsblk` is a not-found error when it
      complains that the path is not a block device, and an operation
      failure carrying its standard error otherwise; a successful one is
      parsed. */
  function LsblkDevs(o: CommandOutput, keys: seq<string>): (r: Result<seq<Record>>)
    requires forall k :: 0 <= k < |keys| ==> PlainKey(keys[k])
    ensures o.rc != 0 && Contains(o.err, "not a block device") ==> r == Err(NotFound("GGBDISK00002E", ""))
    ensures o.rc != 0 && !Contains(o.err, "not a block device") ==> r == Err(OperationFailed("GGBDISK00001E", o.err))
    ensures o.rc == 0 ==> r == LsblkRecords(o.out, keys)
  {
    if o.rc != 0 then
      if Contains(o.err, "not a block device") then Err(NotFound("GGBDISK00002E", ""))
      else Err(OperationFailed("GGBDISK00001E", o.err))
    else LsblkRecords(o.out, keys)
  }
}
