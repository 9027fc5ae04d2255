/** The per-icon-folder revision, `bin/generate.js`: every folder holds
    the files of one icon, each file's weight is read off its name, the
    text is cleaned, and `generateComponents` folds over the folders. */
module BinGenerate {
  import opened Wrappers
  import opened Text
  import opened Naming
  import opened Records
  import opened Weights
  import opened Sanitize
  import opened Render
  import opened Emit

  /** The weight words the classifier recognises; `regular` is not among them. */
  const WeightTokens: seq<string> := ["thin", "light", "bold", "fill", "duotone"]

  /** The last `-`-separated token of the file name's part before `.svg`. */
  function WeightToken(filename: string): string {
    LastToken(Before(filename, ".svg"), '-')
  }

  /** The weight a file is stored under: its token capitalised when it is a
      recognised weight word, and `Regular` for every other token. */
  function Classify(filename: string): (caseLabel: string)
    ensures caseLabel in Labels6
    ensures caseLabel != "Regular" ==> PascalToCamel(caseLabel) == WeightToken(filename)
  {
    var token := WeightToken(filename);
    if token in WeightTokens then
      TokenLabel(token);
      CapitalizeFirst(token)
    else "Regular"
  }

  /** A recognised token capitalises to the label of the weight it names. */
  lemma TokenLabel(token: string)
    requires token in WeightTokens
    ensures exists w :: w != Regular && token == Key(w) && CapitalizeFirst(token) == Label(w)
    ensures CapitalizeFirst(token) in Labels6 && PascalToCamel(CapitalizeFirst(token)) == token
  {
    var w :| w in {Thin, Light, Bold, Fill, Duotone} && token == Key(w);
    LabelIsCapitalizedKey(w);
  }

  /** Both directions: a file lands under weight `w` exactly when its token
      is `w`'s key, or, for `Regular`, when its token is no weight word. */
  lemma ClassifyIff(filename: string, w: Weight)
    ensures Classify(filename) == Label(w) <==>
              if w == Regular then WeightToken(filename) !in WeightTokens
              else WeightToken(filename) == Key(w)
  {
    var token := WeightToken(filename);
    if token in WeightTokens {
      var v :| v != Regular && token == Key(v);
      LabelIsCapitalizedKey(v);
      KeyInjective(v, w);
    }
  }

  /** `readFile`'s chain of rewrites. The XML-prolog and background-rect
      patterns are `strip`; the `<title` deletion and the zero-hex rewrite
      follow it. */
  function ReadFile(strip: string -> string, raw: string): (text: string)
    ensures NoZeroHex(text)
  {
    var t := RemoveTitle(strip(raw));
    RewriteLeavesNoZeroHex(t);
    RewriteZeroHex(t)
  }

  /** Every file of a folder paired with the weight it classifies to. */
  function Classified(files: seq<(string, string)>): (r: seq<(string, string)>)
    ensures |r| == |files|
    ensures forall i :: 0 <= i < |files| ==> r[i] == (Classify(files[i].0), files[i].1)
  {
    seq(|files|, i requires 0 <= i < |files| => (Classify(files[i].0), files[i].1))
  }

  /** The files of one folder, already classified, stored in listing order;
      a later file overwrites an earlier one of the same weight. */
  function Store(strip: string -> string, files: seq<(string, string)>): (icon: Record<string>)
    ensures WellFormed(icon)
    ensures forall k :: k in Keys(icon) ==> exists i :: 0 <= i < |files| && files[i].0 == k
  {
    if |files| == 0 then []
    else
      var prev := Store(strip, files[..|files| - 1]);
      var (caseLabel, raw) := files[|files| - 1];
      PutKeys(prev, caseLabel, ReadFile(strip, raw));
      assert forall i :: 0 <= i < |files| - 1 ==> files[..|files| - 1][i] == files[i];
      Put(prev, caseLabel, ReadFile(strip, raw))
  }

  /** The `files.forEach` loop of `readFiles` over one icon folder. */
  function LoadFolder(strip: string -> string, files: seq<(string, string)>): (icon: Record<string>)
    ensures WellFormed(icon)
    ensures forall k :: k in Keys(icon) ==> k in Labels6
  {
    var c := Classified(files);
    assert forall i :: 0 <= i < |c| ==> c[i].0 in Labels6;
    Store(strip, c)
  }

  /** The position of the last entry whose first component is `k`. */
  function LastWith(files: seq<(string, string)>, k: string): (r: Option<nat>)
    ensures r.None? <==> forall i :: 0 <= i < |files| ==> files[i].0 != k
    ensures r.Some? ==> r.value < |files| && files[r.value].0 == k &&
                        forall j :: r.value < j < |files| ==> files[j].0 != k
  {
    if |files| == 0 then None
    else if files[|files| - 1].0 == k then Some(|files| - 1)
    else
      var r := LastWith(files[..|files| - 1], k);
      assert forall i :: 0 <= i < |files| - 1 ==> files[..|files| - 1][i] == files[i];
      r
  }

  lemma {:induction false} StoreLastWins(strip: string -> string, files: seq<(string, string)>, k: string)
    ensures Get(Store(strip, files), k) ==
              match LastWith(files, k)
              case None => None
              case Some(i) => Some(ReadFile(strip, files[i].1))
  {
    if |files| > 0 {
      var n := |files| - 1;
      var prev := Store(strip, files[..n]);
      StoreLastWins(strip, files[..n], k);
      if files[n].0 == k {
        PutGetSame(prev, k, ReadFile(strip, files[n].1));
      } else {
        PutGetOther(prev, files[n].0, ReadFile(strip, files[n].1), k);
        assert forall i :: 0 <= i < n ==> files[..n][i] == files[i];
      }
    }
  }

  /** The text stored for a weight is that of the last file classified to
      it, and a weight no file classifies to is absent. */
  lemma LoadFolderLastWins(strip: string -> string, files: seq<(string, string)>, caseLabel: string)
    ensures Get(LoadFolder(strip, files), caseLabel) ==
              match LastWith(Classified(files), caseLabel)
              case None => None
              case Some(i) => Some(ReadFile(strip, files[i].1))
  {
    StoreLastWins(strip, Classified(files), caseLabel);
  }

  /** An entry of the assets directory. */
  datatype Entry = Folder(name: string, files: seq<(string, string)>) | NotFolder(name: string)

  /** The names of the folders, in listing order. */
  function FolderNames(listing: seq<Entry>): (names: seq<string>)
    ensures |names| <= |listing|
  {
    if |listing| == 0 then []
    else
      FolderNames(listing[..|listing| - 1]) +
      (if listing[|listing| - 1].Folder? then [listing[|listing| - 1].name] else [])
  }

  /** A table of icons, each a record of weights. */
  predicate IconTable(icons: Record<Record<string>>) {
    WellFormed(icons) &&
    forall i :: 0 <= i < |icons| ==> WellFormed(icons[i].1) && forall k :: k in Keys(icons[i].1) ==> k in Labels6
  }

  /** `readFiles`: every folder becomes an icon keyed by the folder name;
      every other entry is skipped. */
  function ReadFiles(strip: string -> string, listing: seq<Entry>): (icons: Record<Record<string>>)
    ensures IconTable(icons)
  {
    if |listing| == 0 then []
    else
      var prev := ReadFiles(strip, listing[..|listing| - 1]);
      match listing[|listing| - 1]
      case NotFolder(_) => prev
      case Folder(name, files) =>
        PutKeys(prev, name, LoadFolder(strip, files));
        Put(prev, name, LoadFolder(strip, files))
  }

  /** With distinct directory names, the icons are the folders in listing
      order and each holds what its own files load to. */
  lemma {:induction false} ReadFilesFolders(strip: string -> string, listing: seq<Entry>)
    requires Distinct(FolderNames(listing))
    ensures Keys(ReadFiles(strip, listing)) == FolderNames(listing)
    ensures forall e :: e in listing && e.Folder? ==> Get(ReadFiles(strip, listing), e.name) == Some(LoadFolder(strip, e.files))
  {
    if |listing| > 0 {
      var n := |listing| - 1;
      var init := listing[..n];
      assert listing == init + [listing[n]];
      var last := if listing[n].Folder? then [listing[n].name] else [];
      assert FolderNames(listing) == FolderNames(init) + last;
      DistinctSplit(FolderNames(init), last);
      ReadFilesFolders(strip, init);
      if listing[n].Folder? {
        ReadFilesLast(strip, init, listing[n]);
      }
    }
  }

  /** The step of `ReadFilesFolders` for a final folder entry. */
  lemma ReadFilesLast(strip: string -> string, init: seq<Entry>, f: Entry)
    requires f.Folder? && f.name !in FolderNames(init)
    requires Keys(ReadFiles(strip, init)) == FolderNames(init)
    requires forall e :: e in init && e.Folder? ==> Get(ReadFiles(strip, init), e.name) == Some(LoadFolder(strip, e.files))
    ensures Keys(ReadFiles(strip, init + [f])) == FolderNames(init) + [f.name]
    ensures forall e :: e in init + [f] && e.Folder? ==> Get(ReadFiles(strip, init + [f]), e.name) == Some(LoadFolder(strip, e.files))
  {
    var listing := init + [f];
    assert listing[..|init|] == init;
    var prev := ReadFiles(strip, init);
    var v := LoadFolder(strip, f.files);
    assert ReadFiles(strip, listing) == Put(prev, f.name, v);
    PutKeys(prev, f.name, v);
    PutGetSame(prev, f.name, v);
    forall e | e in listing && e.Folder?
      ensures Get(ReadFiles(strip, listing), e.name) == Some(LoadFolder(strip, e.files))
    {
      if e != f {
        assert e in init;
        FolderNameListed(init, e);
        PutGetOther(prev, f.name, v, e.name);
      }
    }
  }

  lemma {:induction false} FolderNameListed(listing: seq<Entry>, e: Entry)
    ensures e in listing && e.Folder? ==> e.name in FolderNames(listing)
  {
    if |listing| > 0 && e in listing && e.Folder? {
      var n := |listing| - 1;
      if e != listing[n] {
        assert listing == listing[..n] + [listing[n]];
        assert e in listing[..n];
        FolderNameListed(listing[..n], e);
      }
    }
  }
}
