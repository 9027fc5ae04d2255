/** How the two revisions' file layouts meet: the per-weight revision
    names a file `<icon>-<weight>.svg` (bare `<icon>.svg` for regular), and
    the per-icon revision reads the weight back off such a name. */
module Layouts {
  import opened Text
  import opened Naming
  import opened Weights
  import opened BinGenerate
  import opened ScriptsGenerate

  /** The token the per-icon classifier reads off a per-weight file name:
      the weight's key, or for the regular file the icon name's last token. */
  lemma WeightTokenOfFileName(name: string, w: Weight)
    requires '.' !in name
    ensures WeightToken(FileName(name, Key(w))) == if w == Regular then LastToken(name, '-') else Key(w)
  {
    if w == Regular {
      RegularToken(name);
    } else {
      KeyPlain(w);
      DashedFileName(name, w);
      TokenAfterDash(name, Key(w));
    }
  }

  lemma RegularToken(name: string)
    requires '.' !in name
    ensures WeightToken(FileName(name, Key(Regular))) == LastToken(name, '-')
  {
    assert FileName(name, Key(Regular)) == name + ".svg";
    BeforeAppended(name, ".svg");
  }

  lemma DashedFileName(name: string, w: Weight)
    requires w != Regular
    ensures FileName(name, Key(w)) == name + ['-'] + Key(w) + ".svg"
  {
  }

  /** Weight keys are plain words. */
  lemma KeyPlain(w: Weight)
    ensures '.' !in Key(w) && '-' !in Key(w)
  {
  }

  lemma TokenAfterDash(name: string, k: string)
    requires '.' !in name && '.' !in k && '-' !in k
    ensures WeightToken(name + ['-'] + k + ".svg") == k
  {
    BeforeAppended(name + ['-'] + k, ".svg");
    LastTokenAfterSeparator(name, '-', k);
  }

  /** A file name of the per-weight layout is classified as its weight,
      provided the icon name has no `.` and, for the regular file, does not
      itself end in a weight word. */
  lemma ClassifyFileName(name: string, w: Weight)
    requires '.' !in name
    requires w == Regular ==> LastToken(name, '-') !in WeightTokens
    ensures Classify(FileName(name, Key(w))) == Label(w)
  {
    WeightTokenOfFileName(name, w);
    ClassifyIff(FileName(name, Key(w)), w);
  }

  /** Without the second condition the round trip fails: the regular file
      of an icon whose name ends in a weight word is read as that weight. */
  lemma RegularFileMisread(name: string, v: Weight)
    requires '.' !in name && v != Regular && LastToken(name, '-') == Key(v)
    ensures Classify(FileName(name, Key(Regular))) == Label(v) != Label(Regular)
  {
    RegularToken(name);
    ClassifyIff(FileName(name, Key(Regular)), v);
  }

  /** An instance: the regular file of an icon named `text-bold`. */
  lemma TextBoldMisread()
    ensures Classify(FileName("text-bold", Key(Regular))) == Label(Bold)
  {
    assert "text" + ['-'] + "bold" == "text-bold";
    LastTokenAfterSeparator("text", '-', "bold");
    RegularFileMisread("text-bold", Bold);
  }
}
