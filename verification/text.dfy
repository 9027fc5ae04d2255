/** Character classes and string helpers in the sense of JavaScript's
    string methods and regular-expression character classes. */
module Text {
  import opened Wrappers

  /** The characters that a regular-expression `.` does not match. */
  predicate IsLineTerminator(c: char) {
    c == '\n' || c == '\r' || c == '\U{2028}' || c == '\U{2029}'
  }

  predicate IsAsciiLower(c: char) {
    'a' <= c <= 'z'
  }

  predicate IsAsciiUpper(c: char) {
    'A' <= c <= 'Z'
  }

  /** The regular-expression class `\w`. */
  predicate IsWordChar(c: char) {
    IsAsciiLower(c) || IsAsciiUpper(c) || ('0' <= c <= '9') || c == '_'
  }

  /** `toUpperCase` of a one-character string, on ASCII letters. */
  function Upper(c: char): (u: char)
    ensures IsAsciiLower(c) ==> IsAsciiUpper(u) && u as int == c as int - 32
    ensures !IsAsciiLower(c) ==> u == c
  {
    if IsAsciiLower(c) then (c as int - 32) as char else c
  }

  /** `toLowerCase` of a one-character string, on ASCII letters. */
  function Lower(c: char): (l: char)
    ensures IsAsciiUpper(c) ==> IsAsciiLower(l) && l as int == c as int + 32
    ensures !IsAsciiUpper(c) ==> l == c
  {
    if IsAsciiUpper(c) then (c as int + 32) as char else c
  }

  lemma LowerUndoesUpper(c: char)
    requires IsAsciiLower(c)
    ensures Lower(Upper(c)) == c
  {
  }

  /** `Array.prototype.join`. */
  function Join(parts: seq<string>, sep: string): string
  {
    if |parts| == 0 then ""
    else if |parts| == 1 then parts[0]
    else parts[0] + sep + Join(parts[1..], sep)
  }

  /** `t` occurs in `s` starting at index `i`. */
  predicate OccursAt(s: string, t: string, i: int) {
    0 <= i && i + |t| <= |s| && s[i..i + |t|] == t
  }

  /** `s` has no occurrence of `t` anywhere. */
  predicate Free(s: string, t: string) {
    forall i :: 0 <= i <= |s| - |t| ==> !OccursAt(s, t, i)
  }

  /** `s.split(sep)[0]`: the part of `s` before the first occurrence of `sep`. */
  function Before(s: string, sep: string): (r: string)
    requires |sep| > 0
    ensures |r| <= |s| && r == s[..|r|]
    ensures |r| == |s| || OccursAt(s, sep, |r|)
    ensures forall i :: 0 <= i < |r| ==> !OccursAt(s, sep, i)
  {
    if |sep| <= |s| && s[..|sep|] == sep then ""
    else if |s| == 0 then ""
    else
      var rest := Before(s[1..], sep);
      forall i | 1 <= i ensures OccursAt(s, sep, i) <==> OccursAt(s[1..], sep, i - 1) {
        OccursShift(s, sep, i);
      }
      [s[0]] + rest
  }

  /** Occurrences in `s` past its head are those in its tail, one place earlier. */
  lemma OccursShift(s: string, t: string, i: int)
    requires |s| > 0 && 1 <= i
    ensures OccursAt(s, t, i) <==> OccursAt(s[1..], t, i - 1)
  {
    if i + |t| <= |s| {
      assert s[i..i + |t|] == s[1..][i - 1..i - 1 + |t|];
    }
  }

  /** `s.split(sep).slice(-1)[0]` for a one-character separator: the part of
      `s` after its last `sep`, or `s` itself when `sep` does not occur. */
  function LastToken(s: string, sep: char): (r: string)
    ensures |r| <= |s| && r == s[|s| - |r|..]
    ensures sep !in r
    ensures |r| == |s| || s[|s| - |r| - 1] == sep
  {
    if |s| == 0 then ""
    else if s[|s| - 1] == sep then ""
    else LastToken(s[..|s| - 1], sep) + [s[|s| - 1]]
  }

  /** The index of the first occurrence of a non-empty `t` in `s`. */
  function FirstOccurrence(s: string, t: string): (r: Option<nat>)
    requires |t| > 0
    ensures r.None? <==> Free(s, t)
    ensures r.Some? ==> OccursAt(s, t, r.value) && forall j :: 0 <= j < r.value ==> !OccursAt(s, t, j)
  {
    var p := Before(s, t);
    if OccursAt(s, t, |p|) then Some(|p|) else None
  }

  /** The first occurrence is the one with no occurrence before it. */
  lemma FirstOccurrenceAt(s: string, t: string, i: nat)
    requires |t| > 0 && OccursAt(s, t, i)
    requires forall j :: 0 <= j < i ==> !OccursAt(s, t, j)
    ensures FirstOccurrence(s, t) == Some(i)
  {
    assert !Free(s, t);
  }

  /** Splitting `s + sep` at `sep` gives back `s` when `s` lacks the
      separator's first character. */
  lemma BeforeAppended(s: string, sep: string)
    requires |sep| > 0 && sep[0] !in s
    ensures Before(s + sep, sep) == s
  {
    var t := s + sep;
    assert OccursAt(t, sep, |s|) by {
      assert t[|s|..|s| + |sep|] == sep;
    }
    forall i | 0 <= i < |s|
      ensures !OccursAt(t, sep, i)
    {
      assert t[i] == s[i] != sep[0];
      assert i + |sep| <= |t| ==> t[i..i + |sep|][0] == t[i];
    }
    assert t[..|s|] == s;
  }

  /** The last token of `s + [sep] + k` is `k` when `k` lacks the separator. */
  lemma LastTokenAfterSeparator(s: string, sep: char, k: string)
    requires sep !in k
    ensures LastToken(s + [sep] + k, sep) == k
  {
    var t := s + [sep] + k;
    assert t[|s|] == sep;
    assert forall i :: |s| < i < |t| ==> t[i] == k[i - |s| - 1];
  }
}
