/** The Python 2 string operations the parsers rely on.

    The repository is Python 2 code and works on byte strings, so the
    whitespace set and the line breaks below are those of Python 2 `str`.
 */
module PyStr {
  import opened Outcomes

  /** The characters Python 2 `str.isspace` accepts: space, tab, line feed,
      carriage return, vertical tab and form feed. */
  const Whitespace: set<char> := {' ', '\t', '\n', '\r', '\U{000B}', '\U{000C}'}

  predicate NoneIn(s: string, cs: set<char>) {
    forall k :: 0 <= k < |s| ==> s[k] !in cs
  }

  /** `c not in s` */
  predicate Lacks(s: string, c: char) {
    forall k :: 0 <= k < |s| ==> s[k] != c
  }

  /** `s.startswith(prefix)` */
  predicate StartsWith(s: string, prefix: string) {
    |prefix| <= |s| && s[..|prefix|] == prefix
  }

  lemma DiffersAt(s: string, prefix: string, k: nat)
    requires k < |prefix| && k < |s| && s[k] != prefix[k]
    ensures !StartsWith(s, prefix)
  {
    if |prefix| <= |s| {
      assert s[..|prefix|][k] == s[k];
    }
  }

  /** `pat` occurs in `s` at index `i`. */
  predicate MatchAt(s: string, i: nat, pat: string) {
    i + |pat| <= |s| && s[i..i + |pat|] == pat
  }

  /** Index of the first occurrence of `pat` in `s` at or after `from`. */
  function FindFrom(s: string, pat: string, from: nat): (r: Option<nat>)
    requires from <= |s|
    ensures r.Some? ==> from <= r.value && MatchAt(s, r.value, pat)
    ensures r.Some? ==> forall j :: from <= j < r.value ==> !MatchAt(s, j, pat)
    ensures r.None? ==> forall j :: from <= j <= |s| ==> !MatchAt(s, j, pat)
    decreases |s| - from
  {
    if MatchAt(s, from, pat) then Some(from)
    else if from == |s| then None
    else FindFrom(s, pat, from + 1)
  }

  /** Index of the first occurrence of `pat` in `s`: `s.find(pat)`, with
      `None` for -1. */
  function Find(s: string, pat: string): Option<nat> {
    FindFrom(s, pat, 0)
  }

  /** `pat in s` */
  predicate Contains(s: string, pat: string) {
    Find(s, pat).Some?
  }

  /** `sep.join(ss)` */
  function Join(ss: seq<string>, sep: string): string
    decreases |ss|
  {
    if |ss| == 0 then ""
    else if |ss| == 1 then ss[0]
    else ss[0] + sep + Join(ss[1..], sep)
  }

  /** `s.split(sep)` for a non-empty separator: the pieces between the
      leftmost non-overlapping occurrences of `sep`, empty pieces kept
      (`JoinSplit` states what they are). */
  function Split(s: string, sep: string): (r: seq<string>)
    requires sep != ""
    ensures |r| >= 1
    decreases |s|
  {
    match Find(s, sep)
    case None => [s]
    case Some(i) => [s[..i]] + Split(s[i + |sep|..], sep)
  }

  /** Joining the pieces of a split with the separator gives the string
      back, and no piece holds the separator. */
  lemma {:induction false} JoinSplit(s: string, sep: string)
    requires sep != ""
    ensures Join(Split(s, sep), sep) == s
    ensures forall k :: 0 <= k < |Split(s, sep)| ==> !Contains(Split(s, sep)[k], sep)
    decreases |s|
  {
    match Find(s, sep)
    case None =>
    case Some(i) =>
      var tail := s[i + |sep|..];
      var rest := Split(tail, sep);
      JoinSplit(tail, sep);
      assert Split(s, sep) == [s[..i]] + rest;
      assert ([s[..i]] + rest)[1..] == rest;
      assert Join(Split(s, sep), sep) == s[..i] + sep + Join(rest, sep);
      assert s == s[..i] + s[i..i + |sep|] + tail;
      NoSepBeforeFirst(s, sep, i);
  }

  lemma NoSepBeforeFirst(s: string, sep: string, i: nat)
    requires sep != "" && Find(s, sep) == Some(i)
    ensures !Contains(s[..i], sep)
  {
    match Find(s[..i], sep)
    case None =>
    case Some(j) =>
      assert s[..i][j..j + |sep|] == s[j..j + |sep|];
      assert MatchAt(s, j, sep);
  }

  /** `sep` holds its character at index `m` nowhere else: every match of
      `sep` puts that character at a fixed offset. */
  predicate Anchored(sep: string, m: nat) {
    m < |sep| && forall k :: 0 <= k < |sep| && k != m ==> sep[k] != sep[m]
  }

  lemma NoMatchWithoutAnchor(s: string, sep: string, m: nat)
    requires Anchored(sep, m) && Lacks(s, sep[m])
    ensures Find(s, sep) == None
  {
  }

  /** In `p + sep + rest` the first match of an anchored separator is the
      one after `p` when `p` lacks the anchor character. */
  lemma FindAfterPiece(p: string, sep: string, rest: string, m: nat)
    requires Anchored(sep, m) && Lacks(p, sep[m])
    ensures Find(p + sep + rest, sep) == Some(|p|)
  {
    var s := p + sep + rest;
    assert s[|p|..|p| + |sep|] == sep;
    assert MatchAt(s, |p|, sep);
  }

  lemma NoneInJoin(ss: seq<string>, sep: string, c: char)
    requires Lacks(sep, c) && forall k :: 0 <= k < |ss| ==> Lacks(ss[k], c)
    ensures Lacks(Join(ss, sep), c)
    decreases |ss|
  {
    if |ss| > 1 {
      NoneInJoin(ss[1..], sep, c);
    }
  }

  /** Splitting on an anchored separator undoes joining pieces that lack its
      anchor character. */
  lemma {:induction false} SplitJoin(ss: seq<string>, sep: string, m: nat)
    requires Anchored(sep, m) && |ss| >= 1
    requires forall k :: 0 <= k < |ss| ==> Lacks(ss[k], sep[m])
    ensures Split(Join(ss, sep), sep) == ss
    decreases |ss|
  {
    if |ss| == 1 {
      NoMatchWithoutAnchor(ss[0], sep, m);
    } else {
      var rest := Join(ss[1..], sep);
      FindAfterPiece(ss[0], sep, rest, m);
      var s := ss[0] + sep + rest;
      assert s[..|ss[0]|] == ss[0];
      assert s[|ss[0]| + |sep|..] == rest;
      SplitJoin(ss[1..], sep, m);
    }
  }

  /** A string with no whitespace at either end is its own `strip()`. */
  lemma TrimPlain(s: string, cs: set<char>)
    requires s == "" || (s[0] !in cs && s[|s| - 1] !in cs)
    ensures Trim(s, cs) == s
  {
  }

  /** `xs.index(x)`, with `None` where Python raises `ValueError`. */
  function IndexOf<T(==)>(xs: seq<T>, x: T): (r: Option<nat>)
    ensures r.Some? ==> r.value < |xs| && xs[r.value] == x
    ensures r.Some? ==> forall j :: 0 <= j < r.value ==> xs[j] != x
    ensures r.None? <==> x !in xs
  {
    if xs == [] then None
    else if xs[0] == x then Some(0)
    else match IndexOf(xs[1..], x)
      case None => None
      case Some(j) => Some(j + 1)
  }

  /** Index of the first line that starts with `prefix`. */
  function FirstWithPrefix(lines: seq<string>, prefix: string): (r: Option<nat>)
    ensures r.Some? ==> r.value < |lines| && StartsWith(lines[r.value], prefix)
    ensures r.Some? ==> forall j :: 0 <= j < r.value ==> !StartsWith(lines[j], prefix)
    ensures r.None? <==> forall j :: 0 <= j < |lines| ==> !StartsWith(lines[j], prefix)
  {
    if lines == [] then None
    else if StartsWith(lines[0], prefix) then Some(0)
    else match FirstWithPrefix(lines[1..], prefix)
      case None =>
        assert forall j :: 1 <= j < |lines| ==> lines[1..][j - 1] == lines[j];
        None
      case Some(j) => Some(j + 1)
  }

  /** Looking up the first line that starts with a prefix by its text finds
      that same line: no earlier line is equal to it. */
  lemma IndexOfFirstWithPrefix(lines: seq<string>, prefix: string)
    requires FirstWithPrefix(lines, prefix).Some?
    ensures IndexOf(lines, lines[FirstWithPrefix(lines, prefix).value]) == FirstWithPrefix(lines, prefix)
  {
  }

  /** `''.join(ss)` */
  function Concat(ss: seq<string>): string
    decreases |ss|
  {
    if ss == [] then "" else Concat(ss[..|ss| - 1]) + ss[|ss| - 1]
  }

  /** Dropping the last element of `a + b`, `b` not empty, drops it from `b`. */
  lemma DropLastOfAppend<T>(a: seq<T>, b: seq<T>)
    requires b != []
    ensures (a + b)[..|a + b| - 1] == a + b[..|b| - 1]
  {
  }

  lemma {:induction false} ConcatAppend(a: seq<string>, b: seq<string>)
    ensures Concat(a + b) == Concat(a) + Concat(b)
    decreases |b|
  {
    if b == [] {
      assert a + b == a;
    } else {
      DropLastOfAppend(a, b);
      ConcatAppend(a, b[..|b| - 1]);
    }
  }

  lemma ConcatOne(a: seq<string>, x: string)
    ensures Concat(a + [x]) == Concat(a) + x
  {
    assert (a + [x])[..|a|] == a;
  }

  /** Length of the leading run of non-whitespace characters. */
  function TokenEnd(s: string): (n: nat)
    ensures n <= |s|
    ensures NoneIn(s[..n], Whitespace)
    ensures n < |s| ==> s[n] in Whitespace
  {
    if s == [] || s[0] in Whitespace then 0 else 1 + TokenEnd(s[1..])
  }

  /** `s.split()`: the maximal runs of non-whitespace characters. */
  function SplitWs(s: string): (r: seq<string>)
    ensures forall k :: 0 <= k < |r| ==> r[k] != "" && NoneIn(r[k], Whitespace)
    decreases |s|
  {
    if s == [] then []
    else if s[0] in Whitespace then SplitWs(s[1..])
    else
      var n := TokenEnd(s);
      [s[..n]] + SplitWs(s[n..])
  }

  /** `s.lstrip(cs)` */
  function TrimLeft(s: string, cs: set<char>): (r: string)
    ensures |r| <= |s|
  {
    if s != [] && s[0] in cs then TrimLeft(s[1..], cs) else s
  }

  /** `s.rstrip(cs)` */
  function TrimRight(s: string, cs: set<char>): (r: string)
    ensures |r| <= |s|
  {
    if s != [] && s[|s| - 1] in cs then TrimRight(s[..|s| - 1], cs) else s
  }

  /** `lstrip` removes the longest prefix of characters from `cs`. */
  lemma {:induction false} TrimLeftSuffix(s: string, cs: set<char>)
    ensures var r := TrimLeft(s, cs);
      && r == s[|s| - |r|..]
      && (forall k :: 0 <= k < |s| - |r| ==> s[k] in cs)
      && (r == "" || r[0] !in cs)
    decreases |s|
  {
    if s != [] && s[0] in cs {
      TrimLeftSuffix(s[1..], cs);
      var r := TrimLeft(s, cs);
      assert s[1..][|s| - 1 - |r|..] == s[|s| - |r|..];
      forall k | 1 <= k < |s| - |r|
        ensures s[k] in cs
      {
        assert s[1..][k - 1] == s[k];
      }
    }
  }

  /** `rstrip` removes the longest suffix of characters from `cs`. */
  lemma {:induction false} TrimRightPrefix(s: string, cs: set<char>)
    ensures var r := TrimRight(s, cs);
      && r == s[..|r|]
      && (forall k :: |r| <= k < |s| ==> s[k] in cs)
      && (r == "" || r[|r| - 1] !in cs)
    decreases |s|
  {
    if s != [] && s[|s| - 1] in cs {
      TrimRightPrefix(s[..|s| - 1], cs);
      var r := TrimRight(s, cs);
      assert s[..|s| - 1][..|r|] == s[..|r|];
    }
  }

  /** `s.strip(cs)`; `s.strip()` is `Trim(s, Whitespace)`. */
  function Trim(s: string, cs: set<char>): string {
    TrimRight(TrimLeft(s, cs), cs)
  }

  /** Index of the first line break (`\n` or `\r`), or `|s|` when none. */
  function LineEnd(s: string): (n: nat)
    ensures n <= |s|
    ensures NoneIn(s[..n], {'\n', '\r'})
    ensures n < |s| ==> s[n] in {'\n', '\r'}
  {
    if s == [] || s[0] in {'\n', '\r'} then 0 else 1 + LineEnd(s[1..])
  }

  /** Python 2 `str.splitlines()`: lines end at `\n`, `\r` or `\r\n`; a
      break at the very end does not start another line. */
  function SplitLines(s: string): (r: seq<string>)
    ensures forall k :: 0 <= k < |r| ==> NoneIn(r[k], {'\n', '\r'})
    ensures r == [] <==> s == ""
    decreases |s|
  {
    if s == [] then []
    else
      var n := LineEnd(s);
      if n == |s| then [s]
      else if s[n] == '\r' && n + 1 < |s| && s[n + 1] == '\n' then [s[..n]] + SplitLines(s[n + 2..])
      else [s[..n]] + SplitLines(s[n + 1..])
  }

  function LowerChar(c: char): char {
    if 'A' <= c <= 'Z' then (c as int - 'A' as int + 'a' as int) as char else c
  }

  /** `s.lower()` on ASCII letters. */
  function Lower(s: string): (r: string)
    ensures |r| == |s|
  {
    if s == [] then [] else [LowerChar(s[0])] + Lower(s[1..])
  }

  predicate IsDigit(c: char) { '0' <= c <= '9' }

  predicate AllDigits(s: string) {
    forall k :: 0 <= k < |s| ==> IsDigit(s[k])
  }

  function DigitsValue(s: string): nat
    requires AllDigits(s)
    decreases |s|
  {
    if s == [] then 0 else 10 * DigitsValue(s[..|s| - 1]) + (s[|s| - 1] as int - '0' as int)
  }

  /** Python 2 `long(s)` on a token without whitespace: an optional sign
      followed by at least one decimal digit; anything else is `None`
      (Python raises `ValueError`). */
  function ParseInt(s: string): Option<int> {
    if s != [] && (s[0] == '-' || s[0] == '+') then
      if |s| > 1 && AllDigits(s[1..]) then
        var v: int := DigitsValue(s[1..]);
        Some(if s[0] == '-' then -v else v)
      else None
    else if s != [] && AllDigits(s) then Some(DigitsValue(s))
    else None
  }

  /** The decimal spelling of a natural number, as `str(n)` writes it. */
  function NatToString(n: nat): (r: string)
    ensures r != [] && AllDigits(r)
  {
    var d := [('0' as int + n % 10) as char];
    if n < 10 then d else NatToString(n / 10) + d
  }

  lemma {:induction false} NatToStringValue(n: nat)
    ensures DigitsValue(NatToString(n)) == n
  {
    var d := [('0' as int + n % 10) as char];
    if n < 10 {
      assert NatToString(n)[..0] == [];
    } else {
      var s := NatToString(n);
      assert s == NatToString(n / 10) + d;
      assert s[..|s| - 1] == NatToString(n / 10);
      NatToStringValue(n / 10);
    }
  }

  /** Parsing the decimal spelling of a natural number gives it back. */
  lemma ParseNatToString(n: nat)
    ensures ParseInt(NatToString(n)) == Some(n)
  {
    NatToStringValue(n);
  }
}
