/** The string operations of the host language that the modelled code relies on. */
module Text {

  /** The characters that `str.strip()` and the regular-expression class `\s` treat as blank. */
  predicate IsSpace(c: char) {
    || '\U{9}' <= c <= '\U{D}' || '\U{1C}' <= c <= '\U{20}'
    || c in {'\U{85}', '\U{A0}', '\U{1680}', '\U{2028}', '\U{2029}', '\U{202F}', '\U{205F}', '\U{3000}'}
    || '\U{2000}' <= c <= '\U{200A}'
  }

  function StripLeft(s: string): string {
    if s != "" && IsSpace(s[0]) then StripLeft(s[1..]) else s
  }

  function StripRight(s: string): string {
    if s != "" && IsSpace(s[|s| - 1]) then StripRight(s[..|s| - 1]) else s
  }

  function Strip(s: string): string {
    StripRight(StripLeft(s))
  }

  predicate Trimmed(s: string) {
    s != "" ==> !IsSpace(s[0]) && !IsSpace(s[|s| - 1])
  }

  /** `Strip` cuts a blank prefix and a blank suffix and nothing else. */
  lemma {:induction false} StripCuts(s: string) returns (a: nat, b: nat)
    ensures a <= b <= |s| && Strip(s) == s[a..b]
    ensures forall k :: 0 <= k < a || b <= k < |s| ==> IsSpace(s[k])
    ensures Trimmed(Strip(s))
  {
    a := StripLeftCuts(s);
    b := StripRightCuts(s[a..]);
    assert forall k :: a + b <= k < |s| ==> s[k] == s[a..][k - a];
    assert s[a..][..b] == s[a..a + b];
    b := a + b;
  }

  lemma {:induction false} StripLeftCuts(s: string) returns (a: nat)
    ensures a <= |s| && StripLeft(s) == s[a..]
    ensures forall k :: 0 <= k < a ==> IsSpace(s[k])
    ensures a < |s| ==> !IsSpace(s[a])
  {
    if s == "" || !IsSpace(s[0]) {
      a := 0;
    } else {
      var r := StripLeftCuts(s[1..]);
      a := r + 1;
      assert forall k :: 1 <= k < |s| ==> s[k] == s[1..][k - 1];
      assert s[1..][r..] == s[a..];
    }
  }

  lemma {:induction false} StripRightCuts(s: string) returns (b: nat)
    ensures b <= |s| && StripRight(s) == s[..b]
    ensures forall k :: b <= k < |s| ==> IsSpace(s[k])
    ensures b > 0 ==> !IsSpace(s[b - 1])
  {
    if s == "" || !IsSpace(s[|s| - 1]) {
      b := |s|;
    } else {
      b := StripRightCuts(s[..|s| - 1]);
      assert forall k :: 0 <= k < |s| - 1 ==> s[k] == s[..|s| - 1][k];
      assert s[..|s| - 1][..b] == s[..b];
    }
  }

  lemma StripTrimmed(s: string)
    requires Trimmed(s)
    ensures Strip(s) == s
  {
  }

  predicate Contains(s: string, part: string) {
    exists i :: 0 <= i <= |s| && part <= s[i..]
  }

  /** `str.replace`: leftmost, non-overlapping occurrences of a non-empty `part`. */
  function ReplaceAll(s: string, part: string, insert: string): string
    requires part != ""
    decreases |s|
  {
    if s == "" then ""
    else if part <= s then insert + ReplaceAll(s[|part|..], part, insert)
    else [s[0]] + ReplaceAll(s[1..], part, insert)
  }

  lemma {:induction false} ReplaceAbsent(s: string, part: string, insert: string)
    requires part != "" && !Contains(s, part)
    ensures ReplaceAll(s, part, insert) == s
    decreases |s|
  {
    if s != "" {
      assert s == s[0..];
      forall i | 0 <= i <= |s[1..]| ensures !(part <= s[1..][i..]) {
        assert s[1..][i..] == s[i + 1..];
      }
      ReplaceAbsent(s[1..], part, insert);
    }
  }

  /** `sep.join(parts)`. */
  function Join(sep: string, parts: seq<string>): string {
    if parts == [] then ""
    else if |parts| == 1 then parts[0]
    else parts[0] + sep + Join(sep, parts[1..])
  }

  /** A joined text can be cut between any two parts, where exactly one separator stands. */
  lemma {:induction false} JoinCuts(sep: string, parts: seq<string>, i: nat)
    requires 0 < i < |parts|
    ensures Join(sep, parts) == Join(sep, parts[..i]) + sep + Join(sep, parts[i..])
    ensures Join(sep, parts[..1]) == parts[0]
  {
    if i > 1 {
      JoinCuts(sep, parts[1..], i - 1);
      assert parts[1..][..i - 1] == parts[..i][1..] && parts[1..][i - 1..] == parts[i..];
      var first, middle, last := parts[0] + sep, Join(sep, parts[..i][1..]), Join(sep, parts[i..]);
      assert first + (middle + sep + last) == first + middle + sep + last;
    }
  }

  /** Lower-casing restricted to the ASCII letters. */
  function AsciiLower(c: char): char {
    if 'A' <= c <= 'Z' then (c as int + 32) as char else c
  }

  predicate StartsWithLower(s: string, prefix: string) {
    |prefix| <= |s| && forall i :: 0 <= i < |prefix| ==> AsciiLower(s[i]) == prefix[i]
  }

  /** The beginning of inline media, which the guards look for. */
  predicate StartsAsMediaData(s: string) {
    StartsWithLower(s, "data:image/") || StartsWithLower(s, "data:application/pdf")
  }
}
