/** `generateComponents` of the per-weight-folder revision, as a fold over
    the catalog: the function text, the `names` list the demo page is built
    from, and the two counters. */
module ScriptsComponents {
  import opened Wrappers
  import opened Records
  import opened Naming
  import opened Weights
  import opened Render
  import opened Emit
  import opened ScriptsGenerate

  /** The pieces of the templates. */
  const AssetBase: string := "https://raw.githubusercontent.com/phosphor-icons/core/main/assets/regular/"
  const DocOpen: string := "{-| !["
  const DocLink: string := "]("
  const DocClose: string := ".svg)\n-}\n"
  const Signature: string := " : Icon\n"
  const CaseOpening: string := " weight =\n    let\n        elements =\n            case weight of\n"
  const Closing: string := "    in\n    makeBuilder elements\n\n\n"
  const AliasSignature: string := " : IconWeight -> IconVariant\n"
  const AliasEquals: string := " = "
  const AliasClosing: string := "\n\n\n"

  /** One top-level Elm definition of the generated module: an icon's
      function, with its case arms already rendered, or an alias of it. */
  datatype Definition =
    | IconDef(name: string, fileName: string, arms: string)
    | AliasDef(aliasName: string, fileName: string, target: string)

  /** The name a definition binds. */
  function DefinedName(d: Definition): string {
    match d
    case IconDef(name, _, _) => name
    case AliasDef(aliasName, _, _) => aliasName
  }

  /** The Elm doc comment showing the regular image of an icon. */
  function DocComment(name: string, fileName: string): string {
    DocOpen + name + DocLink + AssetBase + fileName + DocClose
  }

  /** `aliasName = target`: the alias is the icon's function itself. */
  function AliasBinding(aliasName: string, target: string): string {
    aliasName + AliasEquals + target + AliasClosing
  }

  /** The text of one definition. */
  function DefinitionText(d: Definition): string {
    match d
    case IconDef(name, fileName, arms) =>
      DocComment(name, fileName) + name + Signature + name + CaseOpening + arms + Closing
    case AliasDef(aliasName, fileName, target) =>
      DocComment(aliasName, fileName) + aliasName + AliasSignature + AliasBinding(aliasName, target)
  }

  /** The generated text after the module header. */
  function Text(defs: seq<Definition>): string {
    Concat(Map(defs, DefinitionText))
  }

  /** The names one catalog icon brings to the export list: its own, then its alias's. */
  function EntryNames(c: CatalogEntry): (names: seq<string>)
    ensures |names| >= 1 && names[0] == CamelName(c)
    ensures |names| == 2 <==> c.alias.Some?
    ensures |names| == 2 ==> names[1] == PascalToCamel(c.alias.value)
  {
    [CamelName(c)] + (match c.alias case None => [] case Some(pascal) => [PascalToCamel(pascal)])
  }

  /** `allIconNames`: the flattened name lists, in catalog order. */
  function ExportNames(catalog: seq<CatalogEntry>): seq<string> {
    if |catalog| == 0 then [] else ExportNames(catalog[..|catalog| - 1]) + EntryNames(catalog[|catalog| - 1])
  }

  /** The export list holds one name per icon and one per alias, and each
      icon's names appear in it. */
  lemma {:induction false} ExportNamesCover(catalog: seq<CatalogEntry>)
    ensures |ExportNames(catalog)| == |catalog| + CountWhere(catalog, HasAlias())
    ensures forall i, x :: 0 <= i < |catalog| && x in EntryNames(catalog[i]) ==> x in ExportNames(catalog)
  {
    if |catalog| > 0 {
      var n := |catalog| - 1;
      var init := catalog[..n];
      ExportNamesCover(init);
      CountLast(catalog, HasAlias());
      forall i, x | 0 <= i < |catalog| && x in EntryNames(catalog[i]) ensures x in ExportNames(catalog) {
        if i < n {
          assert catalog[i] == init[i];
        }
      }
    }
  }

  function HasAlias(): CatalogEntry -> bool {
    (c: CatalogEntry) => c.alias.Some?
  }

  /** The record of an icon, or an empty one when the table lacks it. */
  function IconOf(icons: Table, c: CatalogEntry): Record<string> {
    match Get(icons, CamelName(c))
    case Some(icon) => icon
    case None => []
  }

  predicate CompleteIn(icons: Table, c: CatalogEntry) {
    CheckFiles(Keys(IconOf(icons, c)), Keys6)
  }

  function Passing(icons: Table): CatalogEntry -> bool {
    (c: CatalogEntry) => CompleteIn(icons, c)
  }

  function Failing(icons: Table): CatalogEntry -> bool {
    (c: CatalogEntry) => !CompleteIn(icons, c)
  }

  /** The generated text after the module header, the names pushed for the
      demo page, and the two counters. */
  datatype Tally = Tally(defs: seq<Definition>, names: seq<string>, passes: nat, fails: nat)

  /** What stops generation: the table has no record for an icon, so
      `checkFiles` is handed `undefined` and throws. */
  datatype Fatal = Undefined(name: string)

  /** The icon's function, with an arm per renderable weight, then its alias. */
  function Definitions(c: CatalogEntry, name: string, icon: Record<string>, parse: string -> ParseOutcome): seq<Definition> {
    [IconDef(name, c.name, CaseArms(Scripts, icon, parse).text)] +
    (match c.alias case None => [] case Some(pascal) => [AliasDef(PascalToCamel(pascal), c.name, name)])
  }

  /** One turn of the loop over the catalog. The name is pushed first; an
      incomplete icon then counts one failure and is skipped; a complete
      one gets its function, its alias and one pass. */
  function Step(t: Tally, c: CatalogEntry, icons: Table, parse: string -> ParseOutcome): Result<Tally, Fatal> {
    var name := CamelName(c);
    match Get(icons, name)
    case None => Err(Undefined(name))
    case Some(icon) =>
      var names := t.names + [name];
      if !CheckFiles(Keys(icon), Keys6) then Ok(Tally(t.defs, names, t.passes, t.fails + 1))
      else
        Ok(Tally(t.defs + Definitions(c, name, icon, parse), names, t.passes + 1, t.fails + CaseArms(Scripts, icon, parse).bad))
  }

  function Generate(catalog: seq<CatalogEntry>, icons: Table, parse: string -> ParseOutcome): Result<Tally, Fatal> {
    if |catalog| == 0 then Ok(Tally([], [], 0, 0))
    else
      match Generate(catalog[..|catalog| - 1], icons, parse)
      case Err(e) => Err(e)
      case Ok(t) => Step(t, catalog[|catalog| - 1], icons, parse)
  }

  /** The definitions one icon contributes on its own. */
  function Block(c: CatalogEntry, icons: Table, parse: string -> ParseOutcome): seq<Definition> {
    if CompleteIn(icons, c) then Definitions(c, CamelName(c), IconOf(icons, c), parse) else []
  }

  function BlockOf(icons: Table, parse: string -> ParseOutcome): CatalogEntry -> seq<Definition> {
    (c: CatalogEntry) => Block(c, icons, parse)
  }

  function Blocks(catalog: seq<CatalogEntry>, icons: Table, parse: string -> ParseOutcome): seq<seq<Definition>> {
    Map(catalog, BlockOf(icons, parse))
  }

  function BadArms(c: CatalogEntry, icons: Table, parse: string -> ParseOutcome): nat {
    if CompleteIn(icons, c) then CountWhere(IconOf(icons, c), Unrenderable(parse)) else 0
  }

  function BadArmsOf(icons: Table, parse: string -> ParseOutcome): CatalogEntry -> nat {
    (c: CatalogEntry) => BadArms(c, icons, parse)
  }

  function BadArmCounts(catalog: seq<CatalogEntry>, icons: Table, parse: string -> ParseOutcome): seq<nat> {
    Map(catalog, BadArmsOf(icons, parse))
  }

  function CamelNames(catalog: seq<CatalogEntry>): seq<string> {
    Map(catalog, CamelName)
  }

  lemma StepOk(t: Tally, c: CatalogEntry, icons: Table, parse: string -> ParseOutcome)
    ensures Step(t, c, icons, parse).Ok? <==> CamelName(c) in Keys(icons)
  {
  }

  /** Generation stops exactly when some catalog icon is missing from the table. */
  lemma {:induction false} GenerateFatalIff(catalog: seq<CatalogEntry>, icons: Table, parse: string -> ParseOutcome)
    ensures Generate(catalog, icons, parse).Ok? <==> forall i :: 0 <= i < |catalog| ==> CamelName(catalog[i]) in Keys(icons)
  {
    if |catalog| > 0 {
      var n := |catalog| - 1;
      var init := catalog[..n];
      GenerateFatalIff(init, icons, parse);
      assert forall i :: 0 <= i < n ==> init[i] == catalog[i];
      match Generate(init, icons, parse)
      case Err(_) =>
      case Ok(t) => StepOk(t, catalog[n], icons, parse);
    }
  }

  /** When generation completes, `names` holds every catalog icon's name in
      order, those of incomplete icons included. */
  lemma {:induction false} GenerateNames(catalog: seq<CatalogEntry>, icons: Table, parse: string -> ParseOutcome)
    ensures Generate(catalog, icons, parse).Ok? ==> Generate(catalog, icons, parse).value.names == CamelNames(catalog)
  {
    if |catalog| > 0 && Generate(catalog, icons, parse).Ok? {
      var n := |catalog| - 1;
      var init := catalog[..n];
      var t := GenerateUnfold(catalog, icons, parse);
      GenerateNames(init, icons, parse);
      assert t.names == CamelNames(init);
      StepNames(t, catalog[n], icons, parse);
      MapLast(catalog, CamelName);
      var m := CamelNames(catalog);
      assert m == m[..n] + [m[n]];
    }
  }

  /** `passes` counts the complete icons. */
  lemma {:induction false} GeneratePasses(catalog: seq<CatalogEntry>, icons: Table, parse: string -> ParseOutcome)
    ensures Generate(catalog, icons, parse).Ok? ==> Generate(catalog, icons, parse).value.passes == CountWhere(catalog, Passing(icons))
  {
    if |catalog| > 0 && Generate(catalog, icons, parse).Ok? {
      var n := |catalog| - 1;
      var init := catalog[..n];
      GeneratePasses(init, icons, parse);
      var t := GenerateUnfold(catalog, icons, parse);
      StepPasses(t, catalog[n], icons, parse);
      CountLast(catalog, Passing(icons));
    }
  }

  /** `fails` counts the incomplete icons plus the weights of complete icons
      that do not render. */
  lemma {:induction false} GenerateFails(catalog: seq<CatalogEntry>, icons: Table, parse: string -> ParseOutcome)
    ensures Generate(catalog, icons, parse).Ok? ==> Generate(catalog, icons, parse).value.fails == CountWhere(catalog, Failing(icons)) + Sum(BadArmCounts(catalog, icons, parse))
  {
    if |catalog| > 0 && Generate(catalog, icons, parse).Ok? {
      var n := |catalog| - 1;
      var init := catalog[..n];
      GenerateFails(init, icons, parse);
      var t := GenerateUnfold(catalog, icons, parse);
      StepFails(t, catalog[n], icons, parse);
      CountLast(catalog, Failing(icons));
      MapLast(catalog, BadArmsOf(icons, parse));
    }
  }

  /** The definitions are the icons' blocks in catalog order; an incomplete
      icon's block is empty. */
  lemma {:induction false} GenerateText(catalog: seq<CatalogEntry>, icons: Table, parse: string -> ParseOutcome)
    ensures Generate(catalog, icons, parse).Ok? ==> Generate(catalog, icons, parse).value.defs == Flatten(Blocks(catalog, icons, parse))
  {
    if |catalog| > 0 && Generate(catalog, icons, parse).Ok? {
      var n := |catalog| - 1;
      var init := catalog[..n];
      GenerateText(init, icons, parse);
      var t := GenerateUnfold(catalog, icons, parse);
      StepText(t, catalog[n], icons, parse);
      MapLast(catalog, BlockOf(icons, parse));
    }
  }

  /** The last turn of a completed loop. */
  lemma GenerateUnfold(catalog: seq<CatalogEntry>, icons: Table, parse: string -> ParseOutcome) returns (t: Tally)
    requires |catalog| > 0 && Generate(catalog, icons, parse).Ok?
    ensures Generate(catalog[..|catalog| - 1], icons, parse) == Ok(t)
    ensures Generate(catalog, icons, parse) == Step(t, catalog[|catalog| - 1], icons, parse)
  {
    t := Generate(catalog[..|catalog| - 1], icons, parse).value;
  }

  lemma StepNames(t: Tally, c: CatalogEntry, icons: Table, parse: string -> ParseOutcome)
    requires Step(t, c, icons, parse).Ok?
    ensures Step(t, c, icons, parse).value.names == t.names + [CamelName(c)]
  {
  }

  lemma StepPasses(t: Tally, c: CatalogEntry, icons: Table, parse: string -> ParseOutcome)
    requires Step(t, c, icons, parse).Ok?
    ensures Step(t, c, icons, parse).value.passes == t.passes + (if CompleteIn(icons, c) then 1 else 0)
  {
  }

  lemma StepFails(t: Tally, c: CatalogEntry, icons: Table, parse: string -> ParseOutcome)
    requires Step(t, c, icons, parse).Ok?
    ensures Step(t, c, icons, parse).value.fails ==
              t.fails + (if CompleteIn(icons, c) then 0 else 1) + BadArms(c, icons, parse)
  {
    CaseArmsAccounting(Scripts, IconOf(icons, c), parse);
  }

  lemma StepText(t: Tally, c: CatalogEntry, icons: Table, parse: string -> ParseOutcome)
    requires Step(t, c, icons, parse).Ok?
    ensures Step(t, c, icons, parse).value.defs == t.defs + Block(c, icons, parse)
  {
  }

  /** A block is empty exactly when its icon is incomplete; a non-empty
      one defines the icon first and then, when there is one, its alias,
      bound to the icon's name. */
  lemma BlockShape(c: CatalogEntry, icons: Table, parse: string -> ParseOutcome)
    ensures Block(c, icons, parse) == [] <==> !CompleteIn(icons, c)
    ensures CompleteIn(icons, c) ==>
              var b := Block(c, icons, parse);
              Map(b, DefinedName) == EntryNames(c) &&
              b[0] == IconDef(CamelName(c), c.name, CaseArms(Scripts, IconOf(icons, c), parse).text) &&
              (|b| == 2 ==> b[1] == AliasDef(PascalToCamel(c.alias.value), c.name, CamelName(c)))
  {
  }

  /** Every name the generated text defines is in the export list. */
  lemma DefinedNamesExported(catalog: seq<CatalogEntry>, icons: Table, parse: string -> ParseOutcome, t: Tally)
    requires Generate(catalog, icons, parse) == Ok(t)
    ensures forall d :: d in t.defs ==> DefinedName(d) in ExportNames(catalog)
  {
    var blocks := Blocks(catalog, icons, parse);
    GenerateText(catalog, icons, parse);
    ExportNamesCover(catalog);
    forall d | d in t.defs ensures DefinedName(d) in ExportNames(catalog) {
      var i := FlattenFrom(blocks, d);
      BlockMember(catalog[i], icons, parse, d);
    }
  }

  /** Every alias in the generated text refers to an icon function defined
      there, for the same catalog entry. */
  lemma AliasTargetsDefined(catalog: seq<CatalogEntry>, icons: Table, parse: string -> ParseOutcome, t: Tally)
    requires Generate(catalog, icons, parse) == Ok(t)
    ensures forall d :: d in t.defs && d.AliasDef? ==>
              exists e :: e in t.defs && e.IconDef? && e.name == d.target && e.fileName == d.fileName
  {
    var blocks := Blocks(catalog, icons, parse);
    GenerateText(catalog, icons, parse);
    forall d | d in t.defs && d.AliasDef?
      ensures exists e :: e in t.defs && e.IconDef? && e.name == d.target && e.fileName == d.fileName
    {
      var i := FlattenFrom(blocks, d);
      BlockMember(catalog[i], icons, parse, d);
      FlattenHas(blocks, i, blocks[i][0]);
    }
  }

  /** A definition of a block names the icon or its alias; an alias is
      preceded in its block by the icon it refers to. */
  lemma BlockMember(c: CatalogEntry, icons: Table, parse: string -> ParseOutcome, d: Definition)
    requires d in Block(c, icons, parse)
    ensures DefinedName(d) in EntryNames(c)
    ensures d.AliasDef? ==> var e := Block(c, icons, parse)[0]; e.IconDef? && e.name == d.target && e.fileName == d.fileName
  {
    BlockShape(c, icons, parse);
  }

  /** An alias definition ends by binding the alias to its target. */
  lemma AliasTextEndsWithBinding(aliasName: string, fileName: string, target: string)
    ensures var t := DefinitionText(AliasDef(aliasName, fileName, target));
            var b := AliasBinding(aliasName, target);
            |b| <= |t| && t[|t| - |b|..] == b
  {
    var p := DocComment(aliasName, fileName) + aliasName + AliasSignature;
    var b := AliasBinding(aliasName, target);
    assert DefinitionText(AliasDef(aliasName, fileName, target)) == p + b;
    assert (p + b)[|p + b| - |b|..] == b;
  }

  /** An icon definition opens with its doc comment followed by the type
      signature of the name it defines. */
  lemma IconTextStartsWithSignature(name: string, fileName: string, arms: string)
    ensures var t := DefinitionText(IconDef(name, fileName, arms));
            var h := DocComment(name, fileName) + name + Signature;
            |h| <= |t| && t[..|h|] == h
  {
    var h := DocComment(name, fileName) + name + Signature;
    var r := name + CaseOpening + arms + Closing;
    assert DefinitionText(IconDef(name, fileName, arms)) == h + r;
    assert (h + r)[..|h|] == h;
  }
}
