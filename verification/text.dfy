/** The string operations the bot applies to user input: Python's `str.strip`,
    `str.lower`, the voice-name pattern, the skip words, and `split('_')` /
    `'_'.join(...)` as used on callback data. */
module Text {

  /** Python's `str.isspace` for one character. */
  predicate IsSpace(c: char) {
    || c == ' ' || c == '\t' || c == '\n' || c == '\r'
    || c == '\U{000B}' || c == '\U{000C}'
    || ('\U{001C}' <= c <= '\U{001F}')
    || c == '\U{0085}' || c == '\U{00A0}' || c == '\U{1680}'
    || ('\U{2000}' <= c <= '\U{200A}')
    || c == '\U{2028}' || c == '\U{2029}' || c == '\U{202F}'
    || c == '\U{205F}' || c == '\U{3000}'
  }

  predicate AllSpace(s: string) {
    forall i :: 0 <= i < |s| ==> IsSpace(s[i])
  }

  /** The index of the first non-space character at or after `from`, or `|s|`. */
  function FirstNonSpace(s: string, from: nat): (n: nat)
    requires from <= |s|
    ensures from <= n <= |s|
    ensures forall k :: from <= k < n ==> IsSpace(s[k])
    ensures n == |s| || !IsSpace(s[n])
    decreases |s| - from
  {
    if from == |s| || !IsSpace(s[from]) then from else FirstNonSpace(s, from + 1)
  }

  /** The index just past the last non-space character before `hi`, but no lower than `lo`. */
  function EndOfText(s: string, lo: nat, hi: nat): (n: nat)
    requires lo <= hi <= |s|
    ensures lo <= n <= hi
    ensures forall k :: n <= k < hi ==> IsSpace(s[k])
    ensures n == lo || !IsSpace(s[n - 1])
    decreases hi
  {
    if hi == lo || !IsSpace(s[hi - 1]) then hi else EndOfText(s, lo, hi - 1)
  }

  /** Python's `str.strip()`: the input with leading and trailing whitespace removed. */
  function Strip(s: string): (r: string)
    ensures exists i, j :: 0 <= i <= j <= |s| && r == s[i..j] && AllSpace(s[..i]) && AllSpace(s[j..])
    ensures r == [] || (!IsSpace(r[0]) && !IsSpace(r[|r| - 1]))
  {
    var i := FirstNonSpace(s, 0);
    var j := EndOfText(s, i, |s|);
    assert AllSpace(s[..i]) && AllSpace(s[j..]);
    s[i..j]
  }

  /** Stripping keeps a string whose first and last characters are not spaces. */
  lemma StripKeeps(s: string)
    requires s == [] || (!IsSpace(s[0]) && !IsSpace(s[|s| - 1]))
    ensures Strip(s) == s
  {
    assert FirstNonSpace(s, 0) == 0;
    assert EndOfText(s, 0, |s|) == |s|;
    assert s[0..|s|] == s;
  }

  /** Stripping twice is stripping once. */
  lemma StripIdempotent(s: string)
    ensures Strip(Strip(s)) == Strip(s)
  {
    StripKeeps(Strip(s));
  }

  /** Python's `str.lower()` on one character, for the Latin and basic Cyrillic letters. */
  function LowerChar(c: char): (r: char)
  {
    if 'A' <= c <= 'Z' then (c as int + 32) as char
    else if '\U{0410}' <= c <= '\U{042F}' then (c as int + 32) as char
    else if '\U{0400}' <= c <= '\U{040F}' then (c as int + 80) as char
    else c
  }

  function Lower(s: string): (r: string)
    ensures |r| == |s|
    ensures forall i :: 0 <= i < |s| ==> r[i] == LowerChar(s[i])
  {
    seq(|s|, i requires 0 <= i < |s| => LowerChar(s[i]))
  }

  /** Lower-casing twice is lower-casing once: no lower-case letter of the
      covered ranges is changed again. */
  lemma LowerIdempotent(s: string)
    ensures Lower(Lower(s)) == Lower(s)
  {
    forall i | 0 <= i < |s| ensures LowerChar(LowerChar(s[i])) == LowerChar(s[i]) {
    }
  }

  /** The localized skip word of the description steps. */
  const SkipWord: string := "пропустить"

  /** True when a description answer asks for the generated description:
      its lower-cased form is the skip word, `skip`, or `-`. */
  predicate IsSkipToken(d: string) {
    var l := Lower(d);
    l == SkipWord || l == "skip" || l == "-"
  }

  /** The skip check lower-cases first, so it does not see letter case. */
  lemma SkipTokenIgnoresCase(d: string)
    ensures IsSkipToken(Lower(d)) == IsSkipToken(d)
  {
    LowerIdempotent(d);
  }

  /** One character of the class `[a-zA-Z0-9_]`. */
  predicate IsNameChar(c: char) {
    ('a' <= c <= 'z') || ('A' <= c <= 'Z') || ('0' <= c <= '9') || c == '_'
  }

  /** The voice-name pattern `^[a-zA-Z0-9_]{3,30}$`, applied to an already stripped name. */
  predicate ValidName(s: string) {
    3 <= |s| <= 30 && forall i :: 0 <= i < |s| ==> IsNameChar(s[i])
  }

  /** Python's `s.split('_')`: the maximal `_`-free pieces, empty ones included. */
  function Split(s: string): (parts: seq<string>)
    ensures |parts| >= 1
    decreases |s|
  {
    if |s| == 0 then [""]
    else
      var rest := Split(s[1..]);
      if s[0] == '_' then [""] + rest
      else [[s[0]] + rest[0]] + rest[1..]
  }

  /** Python's `'_'.join(parts)`. */
  function Join(parts: seq<string>): string
    decreases |parts|
  {
    if |parts| == 0 then ""
    else if |parts| == 1 then parts[0]
    else parts[0] + "_" + Join(parts[1..])
  }

  lemma {:induction false} JoinSplit(s: string)
    ensures Join(Split(s)) == s
    decreases |s|
  {
    if |s| > 0 {
      var rest := Split(s[1..]);
      JoinSplit(s[1..]);
      if s[0] == '_' {
        assert ([""] + rest)[1..] == rest;
      } else {
        var parts := [[s[0]] + rest[0]] + rest[1..];
        if |rest| > 1 {
          assert parts[1..] == rest[1..];
          assert Join(rest) == rest[0] + "_" + Join(rest[1..]);
        }
        assert s == [s[0]] + s[1..];
      }
    }
  }

  lemma {:induction false} SplitNoSeparator(s: string)
    requires '_' !in s
    ensures Split(s) == [s]
    decreases |s|
  {
    if |s| > 0 {
      assert '_' !in s[1..] by {
        forall i | 0 <= i < |s[1..]| ensures s[1..][i] != '_' {
          assert s[1..][i] == s[i + 1];
        }
      }
      SplitNoSeparator(s[1..]);
      assert s == [s[0]] + s[1..];
    }
  }

  /** Splitting at a separator splits each side independently. */
  lemma {:induction false} SplitConcat(a: string, b: string)
    ensures Split(a + "_" + b) == Split(a) + Split(b)
    decreases |a|
  {
    if |a| == 0 {
      assert a + "_" + b == "_" + b;
      assert ("_" + b)[1..] == b;
    } else {
      var ab := a + "_" + b;
      assert ab[0] == a[0];
      assert ab[1..] == a[1..] + "_" + b;
      SplitConcat(a[1..], b);
    }
  }
}
