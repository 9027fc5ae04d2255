/** `generateComponents` of the per-icon-folder revision, as a fold over
    the icons table that `readFiles` builds. */
module BinComponents {
  import opened Wrappers
  import opened Records
  import opened Naming
  import opened Weights
  import opened Render
  import opened Emit
  import opened BinGenerate

  /** The Elm definition of one icon: its signature, the opening of the
      `case` on the weight, the arms, and the call to `makeBuilder`. */
  function IconFunction(name: string, arms: string): string {
    name + " : Icon\n" + name + " weight =\n    let\n        elements =\n            case weight of\n" +
    arms + "    in\n    makeBuilder elements\n\n"
  }

  /** `checkFiles` against the capitalised weight list. */
  predicate Complete(entry: (string, Record<string>)) {
    CheckFiles(Keys(entry.1), Labels6)
  }

  function Incomplete(): ((string, Record<string>)) -> bool {
    (e: (string, Record<string>)) => !Complete(e)
  }

  /** The generated text after the module header, and the two counters. */
  datatype Tally = Tally(text: string, passes: nat, fails: nat)

  /** One turn of the loop over the icons. An incomplete icon counts one
      failure and is skipped; a complete one gets its function with an arm
      per renderable weight, each other weight counting one failure. */
  function Step(t: Tally, entry: (string, Record<string>), parse: string -> ParseOutcome): Tally {
    var name := Camelize(entry.0);
    if !CheckFiles(Keys(entry.1), Labels6) then Tally(t.text, t.passes, t.fails + 1)
    else
      var arms := CaseArms(Bin, entry.1, parse);
      Tally(t.text + IconFunction(name, arms.text), t.passes, t.fails + arms.bad)
  }

  /** The loop over all icons, in key order. `passes` starts at 0 and no
      branch adds to it. */
  function Generate(icons: Record<Record<string>>, parse: string -> ParseOutcome): (t: Tally)
    ensures t.passes == 0
  {
    if |icons| == 0 then Tally("", 0, 0)
    else Step(Generate(icons[..|icons| - 1], parse), icons[|icons| - 1], parse)
  }

  /** The names in the module's `exposing` list: every folder key camelised,
      whether or not the icon passes `checkFiles`. */
  function ExportNames(icons: Record<Record<string>>): (names: seq<string>)
    ensures |names| == |icons|
  {
    seq(|icons|, i requires 0 <= i < |icons| => Camelize(icons[i].0))
  }

  /** The text one icon contributes on its own. */
  function Block(entry: (string, Record<string>), parse: string -> ParseOutcome): string {
    if Complete(entry) then IconFunction(Camelize(entry.0), CaseArms(Bin, entry.1, parse).text) else ""
  }

  function Blocks(icons: Record<Record<string>>, parse: string -> ParseOutcome): seq<string> {
    seq(|icons|, i requires 0 <= i < |icons| => Block(icons[i], parse))
  }

  /** The failures one icon contributes through its weights. */
  function BadArms(entry: (string, Record<string>), parse: string -> ParseOutcome): nat {
    if Complete(entry) then CountWhere(entry.1, Unrenderable(parse)) else 0
  }

  function BadArmCounts(icons: Record<Record<string>>, parse: string -> ParseOutcome): seq<nat> {
    seq(|icons|, i requires 0 <= i < |icons| => BadArms(icons[i], parse))
  }

  /** The generated text is the icons' blocks in key order, and `fails`
      is the number of incomplete icons plus the number of weights of
      complete icons that do not render. */
  lemma GenerateAccounting(icons: Record<Record<string>>, parse: string -> ParseOutcome)
    ensures Generate(icons, parse).text == Concat(Blocks(icons, parse))
    ensures Generate(icons, parse).fails == CountWhere(icons, Incomplete()) + Sum(BadArmCounts(icons, parse))
  {
    GenerateText(icons, parse);
    GenerateFails(icons, parse);
  }

  lemma {:induction false} GenerateText(icons: Record<Record<string>>, parse: string -> ParseOutcome)
    ensures Generate(icons, parse).text == Concat(Blocks(icons, parse))
  {
    if |icons| > 0 {
      var n := |icons| - 1;
      var init := icons[..n];
      var t := Generate(init, parse);
      assert Generate(icons, parse) == Step(t, icons[n], parse);
      GenerateText(init, parse);
      StepAccounting(t, icons[n], parse);
      var blocks := Blocks(icons, parse);
      assert blocks[..n] == Blocks(init, parse);
      assert Concat(blocks) == Concat(blocks[..n]) + blocks[n];
    }
  }

  lemma {:induction false} GenerateFails(icons: Record<Record<string>>, parse: string -> ParseOutcome)
    ensures Generate(icons, parse).fails == CountWhere(icons, Incomplete()) + Sum(BadArmCounts(icons, parse))
  {
    if |icons| > 0 {
      var n := |icons| - 1;
      var init := icons[..n];
      var t := Generate(init, parse);
      assert Generate(icons, parse) == Step(t, icons[n], parse);
      GenerateFails(init, parse);
      StepAccounting(t, icons[n], parse);
      CountLast(icons, Incomplete());
      var bad := BadArmCounts(icons, parse);
      assert bad[..n] == BadArmCounts(init, parse);
      assert Sum(bad) == Sum(bad[..n]) + bad[n];
    }
  }

  /** One turn adds the icon's block to the text and its failures to the count. */
  lemma StepAccounting(t: Tally, entry: (string, Record<string>), parse: string -> ParseOutcome)
    ensures Step(t, entry, parse).text == t.text + Block(entry, parse)
    ensures Step(t, entry, parse).fails == t.fails + (if Complete(entry) then 0 else 1) + BadArms(entry, parse)
  {
    CaseArmsAccounting(Bin, entry.1, parse);
  }

  /** An icon's block is empty exactly when it fails `checkFiles`, and a
      non-empty block defines the name at the same place of the export
      list; an incomplete icon is therefore exported but never defined. */
  lemma BlocksAndExports(icons: Record<Record<string>>, parse: string -> ParseOutcome, i: nat)
    requires i < |icons|
    ensures Blocks(icons, parse)[i] == "" <==> !Complete(icons[i])
    ensures Complete(icons[i]) ==>
              var sig := ExportNames(icons)[i] + " : Icon\n";
              Blocks(icons, parse)[i][..|sig|] == sig
  {
    var e := icons[i];
    if Complete(e) {
      IconFunctionStart(Camelize(e.0), CaseArms(Bin, e.1, parse).text);
    }
  }

  /** An icon function is never empty and opens with its signature. */
  lemma IconFunctionStart(name: string, arms: string)
    ensures var sig := name + " : Icon\n";
            |sig| <= |IconFunction(name, arms)| && IconFunction(name, arms)[..|sig|] == sig
  {
    var sig := name + " : Icon\n";
    var rest := name + " weight =\n    let\n        elements =\n            case weight of\n" + arms + "    in\n    makeBuilder elements\n\n";
    assert IconFunction(name, arms) == sig + rest;
  }

  /** `passes` stays 0, so the "generated" line is never printed; the
      "failed" line is printed exactly when something failed. */
  lemma SummaryOfGenerate(icons: Record<Record<string>>, parse: string -> ParseOutcome)
    ensures var t := Generate(icons, parse);
            forall l :: l in Summary(t.passes, t.fails) ==> l == Failed(t.fails)
  {
  }

  /** A folder's icon has a weight exactly when some file classifies to it. */
  lemma FolderKey(strip: string -> string, files: seq<(string, string)>, k: string)
    ensures k in Keys(LoadFolder(strip, files)) <==> exists i :: 0 <= i < |files| && Classify(files[i].0) == k
  {
    var c := Classified(files);
    LoadFolderLastWins(strip, files, k);
    if exists i :: 0 <= i < |files| && Classify(files[i].0) == k {
      var i :| 0 <= i < |files| && Classify(files[i].0) == k;
      assert c[i].0 == k;
    }
  }

  /** An icon folder passes `checkFiles` exactly when each of the six
      weights is the classification of at least one of its files. */
  lemma FolderCompleteIffAllWeights(strip: string -> string, files: seq<(string, string)>)
    ensures CheckFiles(Keys(LoadFolder(strip, files)), Labels6) <==>
              forall w: Weight :: exists i :: 0 <= i < |files| && Classify(files[i].0) == Label(w)
  {
    var icon := LoadFolder(strip, files);
    KeysDistinct(icon);
    CheckFilesIffAllLabels(Keys(icon));
    forall w: Weight ensures Label(w) in Keys(icon) <==> exists i :: 0 <= i < |files| && Classify(files[i].0) == Label(w) {
      FolderKey(strip, files, Label(w));
    }
  }
}
