/** Two of the text rewrites `bin/generate.js` applies to every raw SVG
    file before it is parsed. */
module Sanitize {
  import opened Wrappers
  import opened Text

  const TitleOpen: string := "<title"

  /** `.replace(/<title.*?/, "")`: the pattern is not global and its lazy
      tail matches nothing, so exactly the first `<title` is deleted. */
  function RemoveTitle(s: string): (r: string)
    ensures FirstOccurrence(s, TitleOpen).None? ==> r == s
    ensures FirstOccurrence(s, TitleOpen).Some? ==>
              var i := FirstOccurrence(s, TitleOpen).value;
              r == s[..i] + s[i + |TitleOpen|..]
    ensures Free(s, TitleOpen) ==> r == s
    ensures forall i :: OccursAt(s, TitleOpen, i) && (forall j :: 0 <= j < i ==> !OccursAt(s, TitleOpen, j)) ==>
              r == s[..i] + s[i + |TitleOpen|..]
  {
    match FirstOccurrence(s, TitleOpen)
    case None => s
    case Some(i) => s[..i] + s[i + |TitleOpen|..]
  }

  /** Deletion can splice a new `<title` together, and a second one is left
      alone, so the step is not idempotent. */
  lemma RemoveTitleNotIdempotent()
    ensures RemoveTitle("<ti<titletle") == "<title"
    ensures RemoveTitle(RemoveTitle("<ti<titletle")) == ""
  {
    SplicedTitle();
    assert OccursAt("<title", TitleOpen, 0);
    FirstOccurrenceAt("<title", TitleOpen, 0);
  }

  /** The first `<title` of the example sits at index 3. */
  lemma SplicedTitle()
    ensures FirstOccurrence("<ti<titletle", TitleOpen) == Some(3)
    ensures RemoveTitle("<ti<titletle") == "<title"
  {
    var a, b := "<ti", "tle";
    var s := a + TitleOpen + b;
    assert s == "<ti<titletle";
    assert s[3..9] == TitleOpen;
    assert s[0] == '<' && s[3] == '<' && s[1] != '<' && s[2] != '<';
    forall j | 0 <= j < 3 ensures !OccursAt(s, TitleOpen, j) {
      assert s[j..j + 6][0] == s[j] && s[j..j + 6][3] == s[j + 3];
    }
    FirstOccurrenceAt(s, TitleOpen, 3);
    assert s[..3] == a && s[9..] == b;
    assert a + b == TitleOpen;
  }

  /** A quoted colour value made of `#` and one or more zeros, quotes
      included: what `/"#0+"/` matches. */
  predicate IsZeroHex(w: string) {
    && |w| >= 4 && w[0] == '"' && w[1] == '#' && w[|w| - 1] == '"'
    && forall k :: 2 <= k < |w| - 1 ==> w[k] == '0'
  }

  /** No substring of `s` is a quoted all-zero colour. */
  predicate NoZeroHex(s: string) {
    forall i, j :: 0 <= i <= j <= |s| ==> !IsZeroHex(s[i..j])
  }

  /** The number of leading zeros of `s`. */
  function ZeroRun(s: string): (n: nat)
    ensures n <= |s|
    ensures forall k :: 0 <= k < n ==> s[k] == '0'
    ensures n == |s| || s[n] != '0'
  {
    if |s| > 0 && s[0] == '0' then 1 + ZeroRun(s[1..]) else 0
  }

  /** A run of zeros closed by a non-zero is the whole leading run. */
  lemma {:induction false} ZeroRunExact(s: string, k: nat)
    requires k <= |s|
    requires forall i :: 0 <= i < k ==> s[i] == '0'
    requires k == |s| || s[k] != '0'
    ensures ZeroRun(s) == k
  {
    if k > 0 {
      assert forall i :: 0 <= i < k - 1 ==> s[1..][i] == s[i + 1];
      ZeroRunExact(s[1..], k - 1);
    }
  }

  /** A quoted zero colour at the start of `s` covers exactly the leading
      zero run after `"#`. */
  lemma ZeroHexLength(s: string, j: int)
    ensures 0 <= j <= |s| && IsZeroHex(s[..j]) ==>
              j >= 4 && j == ZeroRun(s[2..]) + 3 && s[j - 1] == '"' && s[0] == '"' && s[1] == '#'
  {
    if 0 <= j <= |s| && IsZeroHex(s[..j]) {
      var w := s[..j];
      forall i | 0 <= i < j - 3 ensures s[2..][i] == '0' {
        assert s[2..][i] == w[i + 2];
      }
      assert s[2..][j - 3] == w[j - 1];
      ZeroRunExact(s[2..], j - 3);
    }
  }

  /** The length of the match of `/"#0+"/` at the start of `s`, 0 if there
      is none; the greedy `0+` can only stop at the closing quote. */
  function MatchLen(s: string): (m: nat)
    ensures m <= |s|
    ensures m > 0 ==> IsZeroHex(s[..m])
    ensures forall j :: 0 <= j <= |s| && IsZeroHex(s[..j]) ==> m > 0 && j == m
  {
    if |s| >= 2 && s[0] == '"' && s[1] == '#' then
      var n := ZeroRun(s[2..]);
      assert forall j :: 0 <= j <= |s| && IsZeroHex(s[..j]) ==> j == n + 3 && s[n + 2] == '"' && n >= 1 by {
        forall j | 0 <= j <= |s| && IsZeroHex(s[..j]) ensures j == n + 3 && s[n + 2] == '"' && n >= 1 {
          ZeroHexLength(s, j);
        }
      }
      if n >= 1 && 2 + n < |s| && s[2 + n] == '"' then
        var w := s[..n + 3];
        assert IsZeroHex(w) by {
          forall k | 2 <= k < n + 2 ensures w[k] == '0' {
            assert w[k] == s[2..][k - 2];
          }
        }
        n + 3
      else
        0
    else
      assert forall j :: 0 <= j <= |s| ==> !IsZeroHex(s[..j]) by {
        forall j | 0 <= j <= |s| ensures !IsZeroHex(s[..j]) {
          ZeroHexLength(s, j);
        }
      }
      0
  }

  /** `.replace(/"#0+"/g, "currentColor")`: every quoted all-zero colour,
      quotes included, becomes the bare token `currentColor`. */
  function RewriteZeroHex(s: string): (r: string)
    decreases |s|
  {
    if |s| == 0 then ""
    else
      var m := MatchLen(s);
      if m > 0 then "currentColor" + RewriteZeroHex(s[m..])
      else [s[0]] + RewriteZeroHex(s[1..])
  }

  predicate Plain(c: char) {
    c == '#' || c == '0' || c == '"'
  }

  lemma RewriteHead(t: string)
    ensures |t| > 0 && MatchLen(t) > 0 ==> RewriteZeroHex(t) == "currentColor" + RewriteZeroHex(t[MatchLen(t)..])
    ensures |t| > 0 && MatchLen(t) == 0 ==> RewriteZeroHex(t) == [t[0]] + RewriteZeroHex(t[1..])
    ensures |t| == 0 ==> RewriteZeroHex(t) == ""
  {
  }

  lemma PrefixCons(t: string, w: string)
    ensures |t| > 0 && |w| < |t| && t[1..][..|w|] == w ==> t[..|w| + 1] == [t[0]] + w
  {
    if |t| > 0 && |w| < |t| && t[1..][..|w|] == w {
      assert t[..|w| + 1] == [t[0]] + t[1..][..|w|];
    }
  }

  /** An output starting with `#`, `0` or `"` starts with a copied character. */
  lemma PlainHeadCopied(t: string, c: char)
    requires |RewriteZeroHex(t)| > 0 && RewriteZeroHex(t)[0] == c && Plain(c)
    ensures |t| > 0 && MatchLen(t) == 0 && t[0] == c
    ensures RewriteZeroHex(t) == [t[0]] + RewriteZeroHex(t[1..])
  {
    RewriteHead(t);
  }

  /** A prefix of the output made only of `#`, `0` and `"` was copied from
      the input: the replacement token contains none of them. */
  lemma {:induction false} PlainPrefixCopied(t: string, w: string)
    requires |w| <= |RewriteZeroHex(t)| && RewriteZeroHex(t)[..|w|] == w
    requires forall k :: 0 <= k < |w| ==> Plain(w[k])
    ensures |w| <= |t| && t[..|w|] == w
    decreases |t|
  {
    if |w| > 0 {
      var out := RewriteZeroHex(t);
      assert out[0] == w[0];
      PlainHeadCopied(t, w[0]);
      var r := RewriteZeroHex(t[1..]);
      assert r[..|w| - 1] == w[1..] by {
        assert out == [t[0]] + r;
        assert out[..|w|] == [t[0]] + r[..|w| - 1];
      }
      PlainPrefixCopied(t[1..], w[1..]);
      assert t[..|w|] == [t[0]] + t[1..][..|w| - 1];
    }
  }

  /** After the rewrite no quoted all-zero colour is left. */
  lemma {:induction false} RewriteLeavesNoZeroHex(t: string)
    ensures NoZeroHex(RewriteZeroHex(t))
    decreases |t|, 1
  {
    if |t| == 0 {
      assert RewriteZeroHex(t) == "";
    } else if MatchLen(t) > 0 {
      NoZeroHexAfterToken(t);
    } else {
      NoZeroHexAfterChar(t);
    }
  }

  /** The token `currentColor` holds no quote, so a match cannot start in it. */
  lemma {:induction false} NoZeroHexAfterToken(t: string)
    requires |t| > 0 && MatchLen(t) > 0
    ensures NoZeroHex(RewriteZeroHex(t))
    decreases |t|, 0
  {
    RewriteHead(t);
    var m := MatchLen(t);
    RewriteLeavesNoZeroHex(t[m..]);
    QuoteFreePrefix("currentColor", RewriteZeroHex(t[m..]));
  }

  /** A copied character can only start a match that was already in the input. */
  lemma {:induction false} NoZeroHexAfterChar(t: string)
    requires |t| > 0 && MatchLen(t) == 0
    ensures NoZeroHex(RewriteZeroHex(t))
    decreases |t|, 0
  {
    RewriteHead(t);
    RewriteLeavesNoZeroHex(t[1..]);
    forall j | 0 <= j <= |RewriteZeroHex(t)| ensures !IsZeroHex(RewriteZeroHex(t)[..j]) {
      NoZeroHexAtStart(t, j);
    }
    CleanCons(t[0], RewriteZeroHex(t[1..]));
  }

  /** No match starts inside a prefix without quotes. */
  lemma QuoteFreePrefix(p: string, r: string)
    requires '"' !in p && NoZeroHex(r)
    ensures NoZeroHex(p + r)
  {
    var out := p + r;
    forall i, j | 0 <= i <= j <= |out| ensures !IsZeroHex(out[i..j]) {
      if i < |p| {
        assert out[i] == p[i];
        if j > i { assert out[i..j][0] == out[i]; }
      } else {
        assert out[i..j] == r[i - |p|..j - |p|];
      }
    }
  }

  /** A clean text stays clean behind a character that starts no match. */
  lemma CleanCons(c: char, r: string)
    requires NoZeroHex(r)
    requires forall j :: 0 <= j <= |[c] + r| ==> !IsZeroHex(([c] + r)[..j])
    ensures NoZeroHex([c] + r)
  {
    var out := [c] + r;
    forall i, j | 0 <= i <= j <= |out| ensures !IsZeroHex(out[i..j]) {
      if i > 0 {
        assert out[i..j] == r[i - 1..j - 1];
      } else {
        assert out[i..j] == out[..j];
      }
    }
  }

  lemma NoZeroHexAtStart(t: string, j: nat)
    requires |t| > 0 && MatchLen(t) == 0 && j <= |RewriteZeroHex(t)|
    ensures !IsZeroHex(RewriteZeroHex(t)[..j])
  {
    RewriteHead(t);
    var out := RewriteZeroHex(t);
    var r := RewriteZeroHex(t[1..]);
    if IsZeroHex(out[..j]) {
      var w := out[1..j];
      assert w == r[..j - 1];
      assert forall k :: 0 <= k < |w| ==> Plain(w[k]) by {
        forall k | 0 <= k < |w| ensures Plain(w[k]) {
          assert w[k] == out[..j][k + 1];
        }
      }
      assert out[..j] == [t[0]] + w;
      PlainPrefixCopied(t[1..], w);
      PrefixCons(t, w);
      assert false;
    }
  }

  /** Text with no quoted all-zero colour passes through unchanged. */
  lemma {:induction false} RewriteKeepsCleanText(t: string)
    requires NoZeroHex(t)
    ensures RewriteZeroHex(t) == t
    decreases |t|
  {
    RewriteHead(t);
    if |t| > 0 {
      assert !IsZeroHex(t[0..MatchLen(t)]);
      assert MatchLen(t) == 0;
      assert NoZeroHex(t[1..]) by {
        forall i, j | 0 <= i <= j <= |t| - 1 ensures !IsZeroHex(t[1..][i..j]) {
          assert t[1..][i..j] == t[i + 1..j + 1];
        }
      }
      RewriteKeepsCleanText(t[1..]);
      assert [t[0]] + t[1..] == t;
    }
  }

  /** Running the rewrite twice is the same as running it once. */
  lemma RewriteIdempotent(t: string)
    ensures RewriteZeroHex(RewriteZeroHex(t)) == RewriteZeroHex(t)
  {
    RewriteLeavesNoZeroHex(t);
    RewriteKeepsCleanText(RewriteZeroHex(t));
  }

  /** Text without the digit `0` holds no quoted all-zero colour, so a
      colour such as `"#3a3a3a"` is left alone. */
  lemma NoZeroDigitIsClean(t: string)
    requires '0' !in t
    ensures NoZeroHex(t)
    ensures RewriteZeroHex(t) == t
  {
    forall i, j | 0 <= i <= j <= |t| ensures !IsZeroHex(t[i..j]) {
      if j - i >= 4 {
        assert t[i..j][2] == t[i + 2];
      }
    }
    RewriteKeepsCleanText(t);
  }

  /** Text without a double quote cannot start a match and is copied. */
  lemma {:induction false} RewriteCopiesQuoteFree(a: string, b: string)
    requires '"' !in a
    ensures RewriteZeroHex(a + b) == a + RewriteZeroHex(b)
  {
    if |a| > 0 {
      var s := a + b;
      assert s[0] == a[0] && s[1..] == a[1..] + b;
      assert MatchLen(s) == 0 by {
        assert !IsZeroHex(s[..MatchLen(s)]);
      }
      RewriteHead(s);
      assert '"' !in a[1..];
      RewriteCopiesQuoteFree(a[1..], b);
      assert [a[0]] + a[1..] == a;
    } else {
      assert a + b == b;
    }
  }

  /** `"#` followed by `n` zeros and a closing quote. */
  function ZeroHex(n: nat): (w: string)
    ensures |w| == n + 3
  {
    "\"#" + seq(n, _ => '0') + "\""
  }

  /** Every quoted all-zero colour, `"#0"`, `"#000"`, `"#000000"` and so
      on, is replaced with its quotes by the bare token `currentColor`. */
  lemma ZeroHexReplaced(n: nat, b: string)
    requires n >= 1
    ensures RewriteZeroHex(ZeroHex(n) + b) == "currentColor" + RewriteZeroHex(b)
  {
    var s := ZeroHex(n) + b;
    assert s[..n + 3] == ZeroHex(n);
    assert IsZeroHex(ZeroHex(n));
    assert MatchLen(s) == n + 3;
    RewriteHead(s);
    assert s[n + 3..] == b;
  }

  /** A quoted colour with any digit other than `0`, such as `"#000001"` or
      `"#3a3a3a"`, starts no match. */
  lemma NonZeroColourNotMatched(ds: string, b: string, k: nat)
    requires '"' !in ds && k < |ds| && ds[k] != '0'
    ensures MatchLen("\"#" + ds + "\"" + b) == 0
  {
    var s := "\"#" + ds + "\"" + b;
    var m := MatchLen(s);
    ZeroHexLength(s, m);
    assert s[2..][k] == ds[k];
    assert forall i :: 2 <= i < 2 + |ds| ==> s[i] == ds[i - 2];
    assert ZeroRun(s[2..]) <= k;
  }
}
