/** The three name rewrites the generators apply to attribute names,
    folder keys, catalog names and weight keys. */
module Naming {
  import opened Text

  /** `s.replace(/-./g, (x) => x[1].toUpperCase())`: a left-to-right,
      non-overlapping scan in which every `-` followed by a character that
      `.` matches is replaced by that character upper-cased. */
  function Camelize(s: string): (r: string)
    ensures |r| <= |s|
    ensures forall c :: c in r && !IsAsciiUpper(c) ==> c in s
  {
    if |s| == 0 then ""
    else if |s| >= 2 && s[0] == '-' && !IsLineTerminator(s[1]) then [Upper(s[1])] + Camelize(s[2..])
    else [s[0]] + Camelize(s[1..])
  }

  /** `s.replace(/^\w/, (c) => c.toUpperCase())`. */
  function CapitalizeFirst(s: string): (r: string)
    ensures |r| == |s|
    ensures |s| > 0 ==> r[0] == Upper(s[0]) && r[1..] == s[1..]
  {
    if |s| > 0 && IsWordChar(s[0]) then [Upper(s[0])] + s[1..] else s
  }

  /** `pascalToCamel`: `s.replace(/^./, (c) => c.toLowerCase())`. */
  function PascalToCamel(s: string): (r: string)
    ensures |r| == |s|
    ensures |s| > 0 ==> r[1..] == s[1..]
    ensures |s| > 0 && !IsLineTerminator(s[0]) ==> r[0] == Lower(s[0])
    ensures |s| > 0 && IsLineTerminator(s[0]) ==> r == s
  {
    if |s| > 0 && !IsLineTerminator(s[0]) then [Lower(s[0])] + s[1..] else s
  }

  /** Lower-casing the first character undoes capitalising it. */
  lemma CamelUndoesCapitalize(s: string)
    requires |s| > 0 && IsAsciiLower(s[0])
    ensures PascalToCamel(CapitalizeFirst(s)) == s
  {
    var c := CapitalizeFirst(s);
    assert c[0] == Upper(s[0]);
    assert PascalToCamel(c) == [Lower(Upper(s[0]))] + s[1..];
    assert [s[0]] + s[1..] == s;
  }

  /** Capitalising the first character undoes `pascalToCamel`. */
  lemma CapitalizeUndoesCamel(s: string)
    requires |s| > 0 && IsAsciiUpper(s[0])
    ensures CapitalizeFirst(PascalToCamel(s)) == s
  {
    var c := PascalToCamel(s);
    assert c[0] == Lower(s[0]) && IsWordChar(c[0]);
    assert CapitalizeFirst(c) == [Upper(Lower(s[0]))] + s[1..];
    assert [s[0]] + s[1..] == s;
  }

  /** A string without `-` is left as it is. */
  lemma {:induction false} CamelizeWithoutDash(s: string)
    requires '-' !in s
    ensures Camelize(s) == s
  {
    if |s| > 0 {
      assert s[0] != '-';
      assert '-' !in s[1..];
      CamelizeWithoutDash(s[1..]);
      assert [s[0]] + s[1..] == s;
    }
  }

  /** The scan passes over a dash-free prefix unchanged. */
  lemma {:induction false} CamelizeAfterPlainPrefix(a: string, b: string)
    requires '-' !in a
    ensures Camelize(a + b) == a + Camelize(b)
  {
    if |a| > 0 {
      assert (a + b)[0] == a[0] && a[0] != '-';
      assert (a + b)[1..] == a[1..] + b;
      assert '-' !in a[1..];
      CamelizeAfterPlainPrefix(a[1..], b);
      assert [a[0]] + (a[1..] + Camelize(b)) == a + Camelize(b);
    } else {
      assert a + b == b;
    }
  }

  /** `words.join("-")`. */
  function DashJoin(words: seq<string>): string
    requires |words| > 0
  {
    if |words| == 1 then words[0] else words[0] + "-" + DashJoin(words[1..])
  }

  /** The camel-case name meant by a kebab-case name: the first word as it
      is, every later word with its first letter capitalised. */
  function KebabToCamel(words: seq<string>): string
    requires |words| > 0
  {
    words[0] + CapitalizedWords(words[1..])
  }

  function CapitalizedWords(words: seq<string>): string
  {
    if |words| == 0 then "" else CapitalizeFirst(words[0]) + CapitalizedWords(words[1..])
  }

  /** A word that the dash rewrite treats as one unit. */
  predicate IsKebabWord(w: string) {
    |w| > 0 && '-' !in w && !IsLineTerminator(w[0])
  }

  /** The text after a first word: each `-w` becomes `w` capitalised. */
  lemma {:induction false} CamelizeDashedWords(words: seq<string>)
    requires |words| > 0
    requires forall k :: 0 <= k < |words| ==> IsKebabWord(words[k])
    ensures Camelize("-" + DashJoin(words)) == CapitalizedWords(words)
  {
    var w := words[0];
    var tail := if |words| == 1 then "" else "-" + DashJoin(words[1..]);
    assert DashJoin(words) == w + tail;
    var d := "-" + (w + tail);
    assert d[0] == '-' && d[1] == w[0];
    assert d[2..] == w[1..] + tail;
    assert '-' !in w[1..];
    CamelizeAfterPlainPrefix(w[1..], tail);
    assert Camelize(d) == CapitalizeFirst(w) + Camelize(tail);
    if |words| > 1 {
      assert forall k :: 0 <= k < |words[1..]| ==> IsKebabWord(words[1..][k]) by {
        forall k | 0 <= k < |words[1..]| ensures IsKebabWord(words[1..][k]) {
          assert words[1..][k] == words[k + 1];
        }
      }
      CamelizeDashedWords(words[1..]);
    } else {
      assert words[1..] == [];
    }
  }

  /** On kebab-case input of well-formed words the rewrite computes exactly
      the camel-case name (`stroke-width` to `strokeWidth`). */
  lemma {:induction false} CamelizeKebab(words: seq<string>)
    requires |words| > 0
    requires forall k :: 0 <= k < |words| ==> IsKebabWord(words[k])
    ensures Camelize(DashJoin(words)) == KebabToCamel(words)
  {
    var w := words[0];
    if |words| == 1 {
      CamelizeWithoutDash(w);
      assert words[1..] == [];
    } else {
      var tail := "-" + DashJoin(words[1..]);
      assert DashJoin(words) == w + tail;
      CamelizeAfterPlainPrefix(w, tail);
      assert forall k :: 0 <= k < |words[1..]| ==> IsKebabWord(words[1..][k]) by {
        forall k | 0 <= k < |words[1..]| ensures IsKebabWord(words[1..][k]) {
          assert words[1..][k] == words[k + 1];
        }
      }
      CamelizeDashedWords(words[1..]);
    }
  }

  /** A doubled dash keeps one dash; a trailing dash is kept. */
  lemma CamelizeDoubleDash()
    ensures Camelize("a--b") == "a-b"
    ensures Camelize("arrow-") == "arrow-"
  {
    assert Camelize("b") == "b";
    assert Camelize("--b") == "-b";
    assert Camelize("-") == "-";
    assert Camelize("w-") == "w-";
    assert Camelize("ow-") == "ow-";
    assert Camelize("row-") == "row-";
  }
}
