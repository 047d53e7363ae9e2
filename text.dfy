/** String operations of Python's `str` that the models use: `strip`, `split(sep)`,
    `sep.join`, `replace(c, "")`, `isdigit` with `int`, and `str(n)`. */
module Text {
  import opened Seqs

  /** The ASCII characters `str.strip()` removes: space, tab, line feed, carriage return,
      vertical tab, form feed, and the four separators U+001C to U+001F. */
  predicate IsWhitespace(c: char) {
    c == ' ' || c == '\t' || c == '\n' || c == '\r' || c == '\U{000B}' || c == '\U{000C}' ||
    ('\U{001C}' <= c <= '\U{001F}')
  }

  /** The index of the first non-whitespace character at or after `i`, or `|s|`. */
  function SkipWhitespace(s: string, i: nat): (k: nat)
    requires i <= |s|
    ensures i <= k <= |s|
    ensures forall j :: i <= j < k ==> IsWhitespace(s[j])
    ensures k < |s| ==> !IsWhitespace(s[k])
    decreases |s| - i
  {
    if i < |s| && IsWhitespace(s[i]) then SkipWhitespace(s, i + 1) else i
  }

  /** The index just past the last non-whitespace character of `s[lo..e]`, or `lo`. */
  function SkipWhitespaceBack(s: string, lo: nat, e: nat): (k: nat)
    requires lo <= e <= |s|
    ensures lo <= k <= e
    ensures forall j :: k <= j < e ==> IsWhitespace(s[j])
    ensures k > lo ==> !IsWhitespace(s[k - 1])
    decreases e
  {
    if e > lo && IsWhitespace(s[e - 1]) then SkipWhitespaceBack(s, lo, e - 1) else e
  }

  /** Where the text `strip` keeps begins. */
  function StripOffset(s: string): nat {
    SkipWhitespace(s, 0)
  }

  /** Where the text `strip` keeps ends. */
  function StripEnd(s: string): (e: nat)
    ensures StripOffset(s) <= e <= |s|
  {
    SkipWhitespaceBack(s, StripOffset(s), |s|)
  }

  /** `s.strip()`: the slice of `s` left after dropping leading and trailing whitespace. */
  function Strip(s: string): (r: string)
    ensures r == s[StripOffset(s)..StripEnd(s)]
    ensures forall k :: 0 <= k < StripOffset(s) ==> IsWhitespace(s[k])
    ensures forall k :: StripEnd(s) <= k < |s| ==> IsWhitespace(s[k])
    ensures |r| > 0 ==> !IsWhitespace(r[0]) && !IsWhitespace(r[|r| - 1])
  {
    var o := SkipWhitespace(s, 0);
    var e := SkipWhitespaceBack(s, o, |s|);
    assert StripOffset(s) == o && StripEnd(s) == e;
    assert e > o ==> s[o..e][0] == s[o] && s[o..e][e - o - 1] == s[e - 1];
    s[o..e]
  }

  lemma StripIdempotent(s: string)
    ensures Strip(Strip(s)) == Strip(s)
  {
    var r := Strip(s);
    if |r| > 0 {
      assert StripOffset(r) == 0;
      assert StripEnd(r) == |r|;
    }
  }

  /** The stripped text is its own strip and holds only characters of `s`. */
  lemma StripClean(s: string)
    ensures Strip(Strip(s)) == Strip(s)
    ensures forall c :: c in Strip(s) ==> c in s
  {
    StripIdempotent(s);
    var r := Strip(s);
    forall c | c in r ensures c in s {
      var k :| 0 <= k < |r| && r[k] == c;
      assert s[StripOffset(s) + k] == c;
    }
  }

  /** `s.replace(c, "")`. */
  function RemoveChar(s: string, c: char): (r: string)
    ensures c !in r
    ensures |r| <= |s|
    ensures c !in s ==> r == s
  {
    if s == [] then [] else (if s[0] == c then [] else [s[0]]) + RemoveChar(s[1..], c)
  }

  /** `s.split(sep)`: the pieces between occurrences of `sep`; never an empty list. */
  function Split(s: string, sep: char): (parts: seq<string>)
    ensures |parts| >= 1
    ensures forall p :: p in parts ==> sep !in p
  {
    if s == [] then [""]
    else if s[0] == sep then [""] + Split(s[1..], sep)
    else
      var rest := Split(s[1..], sep);
      [[s[0]] + rest[0]] + rest[1..]
  }

  /** `sep.join(parts)`. */
  function Join(parts: seq<string>, sep: char): string {
    if parts == [] then ""
    else if |parts| == 1 then parts[0]
    else parts[0] + [sep] + Join(parts[1..], sep)
  }

  /** Putting a character in front of the first piece puts it in front of the join. */
  lemma JoinConsFirst(c: char, parts: seq<string>, sep: char)
    requires parts != []
    ensures Join([[c] + parts[0]] + parts[1..], sep) == [c] + Join(parts, sep)
  {
    var q := [[c] + parts[0]] + parts[1..];
    assert q[1..] == parts[1..];
    if |parts| > 1 {
      AppendAssoc([c], parts[0] + [sep], Join(parts[1..], sep));
      AppendAssoc([c], parts[0], [sep]);
    }
  }

  /** Joining the pieces of a split gives back the string. */
  lemma {:induction false} JoinSplit(s: string, sep: char)
    ensures Join(Split(s, sep), sep) == s
  {
    if s != [] {
      JoinSplit(s[1..], sep);
      var rest := Split(s[1..], sep);
      assert s == [s[0]] + s[1..];
      if s[0] == sep {
        var parts := [""] + rest;
        assert Split(s, sep) == parts;
        assert |parts| > 1 && parts[0] == "" && parts[1..] == rest;
        assert Join(parts, sep) == parts[0] + [sep] + Join(rest, sep);
        assert parts[0] + [sep] + s[1..] == s;
      } else {
        assert Split(s, sep) == [[s[0]] + rest[0]] + rest[1..];
        JoinConsFirst(s[0], rest, sep);
        assert [s[0]] + Join(rest, sep) == s;
      }
    }
  }

  /** Splitting a join of separator-free pieces gives back the pieces. */
  lemma {:induction false} SplitJoin(parts: seq<string>, sep: char)
    requires |parts| >= 1
    requires forall p :: p in parts ==> sep !in p
    ensures Split(Join(parts, sep), sep) == parts
    decreases |parts|, |parts[0]|
  {
    var p := parts[0];
    assert p in parts;
    if p == [] {
      if |parts| > 1 {
        assert Join(parts, sep) == [sep] + Join(parts[1..], sep);
        SplitJoin(parts[1..], sep);
      }
    } else {
      var parts' := [p[1..]] + parts[1..];
      forall q | q in parts' ensures sep !in q {
        if q == p[1..] { assert forall k :: 0 <= k < |q| ==> q[k] == p[k + 1]; }
      }
      SplitJoin(parts', sep);
      assert [p[0]] + p[1..] == p;
      assert parts'[0] == p[1..] && parts'[1..] == parts[1..];
      assert parts == [[p[0]] + parts'[0]] + parts'[1..];
      JoinConsFirst(p[0], parts', sep);
      var j := Join(parts, sep);
      assert j == [p[0]] + Join(parts', sep);
      assert j[0] == p[0] != sep && j[1..] == Join(parts', sep);
    }
  }

  predicate IsDigit(c: char) {
    '0' <= c <= '9'
  }

  function DigitOf(c: char): nat {
    if IsDigit(c) then c as int - '0' as int else 0
  }

  /** `s.isdigit()` on ASCII text: non-empty and all digits. */
  predicate IsDigitString(s: string) {
    |s| > 0 && forall i :: 0 <= i < |s| ==> IsDigit(s[i])
  }

  /** `int(s)` for a digit string. */
  function DigitsValue(s: string): nat
    decreases |s|
  {
    if s == [] then 0 else 10 * DigitsValue(s[..|s| - 1]) + DigitOf(s[|s| - 1])
  }

  function DigitChar(d: nat): char
    requires d < 10
  {
    ('0' as int + d) as char
  }

  /** `str(n)` for a natural number. */
  function NatToString(n: nat): (s: string)
    ensures IsDigitString(s)
  {
    if n < 10 then [DigitChar(n)] else NatToString(n / 10) + [DigitChar(n % 10)]
  }

  /** `int(str(n)) == n`. */
  lemma {:induction false} NatToStringRoundTrip(n: nat)
    ensures DigitsValue(NatToString(n)) == n
  {
    if n >= 10 {
      NatToStringRoundTrip(n / 10);
      var s := NatToString(n);
      assert s[..|s| - 1] == NatToString(n / 10);
    }
  }

  /** What one line of a PMID file contributes: `int(line)` when the stripped line `isdigit()`. */
  function LineValue(line: string): Option<int> {
    var t := Strip(line);
    if IsDigitString(t) then Some(DigitsValue(t)) else None
  }

  /** The values of the accepted lines, in line order, repeats included. */
  function LineValues(lines: seq<string>): seq<int> {
    FilterMap(LineValue, lines)
  }

  /** A value is produced exactly when some line strips to a digit string denoting it. */
  lemma LineValuesMembers(lines: seq<string>)
    ensures forall v :: v in LineValues(lines) <==>
              exists i :: 0 <= i < |lines| && IsDigitString(Strip(lines[i])) && v == DigitsValue(Strip(lines[i]))
  {
    FilterMapMembers(LineValue, lines);
  }

  lemma LineValuesAppend(lines: seq<string>, line: string)
    ensures LineValues(lines + [line]) ==
            LineValues(lines) + (match LineValue(line) case Some(v) => [v] case None => [])
  {
    FilterMapAppend(LineValue, lines, line);
  }

  /** The PMIDs loaded from a file into an empty list: the accepted lines' values, first occurrences only. */
  function LoadedPmids(lines: seq<string>): seq<int> {
    Dedup(LineValues(lines))
  }

  /** The loaded list has no duplicates, keeps the first-occurrence order, and holds exactly
      the values of lines that strip to a digit string. */
  lemma LoadedPmidsFacts(lines: seq<string>)
    ensures NoDups(LoadedPmids(lines))
    ensures forall v :: v in LoadedPmids(lines) <==> v in LineValues(lines)
    ensures forall v :: v in LoadedPmids(lines) <==>
              exists i :: 0 <= i < |lines| && IsDigitString(Strip(lines[i])) && v == DigitsValue(Strip(lines[i]))
    ensures forall i, j :: 0 <= i < j < |LoadedPmids(lines)| ==>
              FirstIndex(LineValues(lines), LoadedPmids(lines)[i]) < FirstIndex(LineValues(lines), LoadedPmids(lines)[j])
  {
    DedupFirstSeen(LineValues(lines));
    LineValuesMembers(lines);
  }
}
