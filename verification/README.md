# phosphor-elm generator core, modelled in Dafny

The phosphor-elm repository turns the Phosphor icon set into one Elm module.
Each icon becomes a function from an `IconWeight` to an icon variant. The
generator exists in two revisions:

- `scripts/generate.ts`, the current one. The assets hold one folder per
  weight (`thin`, `light`, `regular`, `bold`, `fill`, `duotone`). An icon
  catalog drives the loop.
- `bin/generate.js`, the older one. The assets hold one folder per icon. A
  file's weight is read off its file name.

Both revisions do the same things. They load the SVG text of every
(icon, weight) pair into a nested table. They check that an icon has all
six weights (`checkFiles`). They render each parsed SVG tree as an Elm
expression (`generateElement` / `generateAttrs`). They emit one `case` arm
per weight that renders, and they count failures. Only the current revision
counts passes: the older one declares `passes` but never adds to it. The
current revision also writes a demo page with a small Elm `update` function.

The model is pure. JavaScript objects become insertion-ordered association
lists. The directory listings, file contents, the icon catalog and the SVG
parser's verdicts are inputs. The loops become folds over sequences.

| module | file | what it holds |
|---|---|---|
| `Wrappers` | wrappers.dfy | `Option`, `Result` |
| `Text` | text.dfy | ASCII case mapping, `Join`, substring search, `split(...)[0]` and `split(...).slice(-1)[0]` |
| `Naming` | naming.dfy | the `/-./g` camel rewrite, `^\w` capitalisation, `pascalToCamel` |
| `Weights` | weights.dfy | the six weights, their two spellings, `checkFiles` |
| `Records` | records.dfy | JavaScript objects as ordered records: read, assignment, folds |
| `Render` | render.dfy | the element tree, `generateAttrs`, `generateElement` in both dialects, the Elm expression the text stands for |
| `ElmParse` | elm_parse.dfy | a reader for the rendered text, and the round trip |
| `Emit` | emit.dfy | case arms per weight, failure counting, the summary lines |
| `Sanitize` | sanitize.dfy | the `<title` removal and the `"#0+"` rewrite of the older `readFile` |
| `BinGenerate` | bin_generate.dfy | the file-name classifier, `readFile`, `readFiles` |
| `BinComponents` | bin_components.dfy | `generateComponents` of the older revision |
| `ScriptsGenerate` | scripts_generate.dfy | file names and `loadWeights` of the current revision |
| `ScriptsComponents` | scripts_components.dfy | `generateComponents` of the current revision, export names, aliases |
| `Layouts` | layouts.dfy | how the current file names read under the older classifier |
| `Demo` | demo.dfy | the demo page's `init`, `update`, `parseWeight` |

Where the project's written description and the code disagree, the model
follows the code:

- The zero-colour rewrite replaces the whole match `"#000"`, quotes
  included, by the bare word `currentColor`. The result is `fill=currentColor`,
  not `fill="currentColor"` (`Sanitize.ZeroHexReplaced`).
- Removing the first `<title` can create a new `<title` out of the text
  around it. So the step is not idempotent (`Sanitize.RemoveTitleNotIdempotent`).
- In the older revision, a regular-weight file whose name ends in a weight
  word is filed under that weight. For example, `text-bold.svg` becomes the
  `Bold` text of its icon. This holds for any such name
  (`Layouts.RegularFileMisread`, `Layouts.TextBoldMisread`).
- In the current revision, `names.push` runs before `checkFiles`. So the
  demo page also lists icons that got no function (`ScriptsComponents.GenerateNames`).

## Model

| member | source | states |
|---|---|---|
| Text.Upper | scripts/generate.ts:86 | `toUpperCase` on one character: an ASCII lower-case letter moves to its upper-case partner, anything else is unchanged |
| Text.Lower | scripts/generate.ts:588-590 | `toLowerCase` on one character: an ASCII upper-case letter moves to its lower-case partner, anything else is unchanged |
| Text.LowerUndoesUpper | scripts/generate.ts:588-590 | lower-casing undoes upper-casing of a lower-case letter |
| Text.Before | bin/generate.js:43 | `split(".svg")[0]` is the prefix up to the first occurrence of the separator, or the whole string; the separator occurs nowhere earlier |
| Text.BeforeAppended | bin/generate.js:43 | cutting `name + ".svg"` at `".svg"` gives back `name` when `name` has no `.` |
| Text.LastToken | bin/generate.js:43 | `split("-").slice(-1)[0]` is a suffix with no `-`, preceded by `-` or making up the whole string |
| Text.LastTokenAfterSeparator | bin/generate.js:43 | the last token of `s + "-" + k` is `k` when `k` has no `-` |
| Text.FirstOccurrence | bin/generate.js:29 | the index of the first occurrence of a pattern, and none exactly when the pattern does not occur |
| Text.FirstOccurrenceAt | bin/generate.js:29 | an occurrence with no earlier one is the first occurrence |
| Naming.Camelize | scripts/generate.ts:86 | the `/-./g` rewrite never lengthens a name, and every character it outputs that is not an upper-case letter comes from the input |
| Naming.CamelizeWithoutDash | scripts/generate.ts:86 | a name with no `-` is unchanged |
| Naming.CamelizeAfterPlainPrefix | scripts/generate.ts:86 | a prefix with no `-` is copied and the rewrite goes on after it |
| Naming.CamelizeKebab | scripts/generate.ts:86 | lower-case kebab words joined by `-` become camel case: the first word as is, each later word capitalised (`stroke-width` to `strokeWidth`) |
| Naming.CamelizeDashedWords | scripts/generate.ts:86 | a leading `-` before kebab words capitalises every word |
| Naming.CamelizeDoubleDash | scripts/generate.ts:86 | the scan does not overlap: `a--b` becomes `a-b`, and a trailing `-` is kept |
| Naming.CapitalizeFirst | scripts/generate.ts:368 | `/^\w/` capitalisation keeps the length and changes only the first character |
| Naming.PascalToCamel | scripts/generate.ts:588-590 | `/^./` lower-casing keeps the length and changes only the first character; a leading line terminator is not matched |
| Naming.CamelUndoesCapitalize | scripts/generate.ts:588-590 | `pascalToCamel` undoes the case-label capitalisation of a lower-case word |
| Naming.CapitalizeUndoesCamel | scripts/generate.ts:588-590 | capitalising undoes `pascalToCamel` of a Pascal-case name |
| Weights.LabelIsCapitalizedKey | scripts/generate.ts:368 | the case label of every weight key is the capitalised key, and the older revision's labels lower-case back to the keys |
| Weights.KeyInjective | scripts/generate.ts:13 | distinct weights have distinct keys and distinct labels |
| Weights.SpellingsDistinct | bin/generate.js:10 | the six keys are distinct, and so are the six labels |
| Weights.MissingWeights | scripts/generate.ts:335 | the missing-weights report holds exactly the weights that are not keys of the icon |
| Weights.CheckFilesIsKeySetEquality | scripts/generate.ts:76-82 | for distinct keys, `checkFiles` holds exactly when the key set equals the weight set |
| Weights.CheckFilesIffCovers | scripts/generate.ts:76-82 | for keys drawn from the weights, `checkFiles` holds exactly when every weight is a key |
| Weights.CheckFilesIffNothingMissing | scripts/generate.ts:329-336 | for keys drawn from the weights, `checkFiles` holds exactly when the missing-weights report is empty |
| Weights.CheckFilesIffAllKeys | scripts/generate.ts:76-82 | an icon holding only weight keys passes exactly when it holds the key of every weight |
| Weights.CheckFilesIffAllLabels | bin/generate.js:64-70 | an icon holding only case labels passes exactly when it holds the label of every weight |
| Records.Get | scripts/generate.ts:326 | reading a property gives nothing exactly when the key is absent, and otherwise a value stored under the key |
| Records.Put | scripts/generate.ts:46 | assigning a property replaces the value of an existing key in place and appends a new key at the end |
| Records.PutKeys | scripts/generate.ts:46 | an assignment keeps the keys distinct, keeps their order, and adds a new key last |
| Records.PutGetSame | scripts/generate.ts:46 | after the assignment the key reads back the assigned value |
| Records.PutGetOther | scripts/generate.ts:46 | the assignment leaves every other key's value unchanged |
| Render.GenerateAttrs | scripts/generate.ts:84-89 | one setter call per attribute in attribute order: the qualifier, the camel-cased name and the value in quotes, unescaped |
| Render.GenerateIsPrintOfTranslate | scripts/generate.ts:91-97 | the rendered text is the Elm source of the expression the tree stands for: a list of the children for `svg`, otherwise a call with setters and children in document order |
| Render.SvgAttributesIgnored | scripts/generate.ts:93 | the attributes of an `svg` element never reach the output |
| Render.BareListIffSvg | scripts/generate.ts:91-97 | the output opens with `[` exactly when the element is `svg`; any other element opens with the element qualifier |
| Render.ThreadedWeightIgnored | bin/generate.js:80-90 | the older renderer's threaded `weight` argument never changes its output |
| Render.ExamplePathText | scripts/generate.ts:94-96 | a `path` with one `d` attribute renders as `S.path [ A.d "M0 0" ] [  ]` |
| Render.SmallTreeExample | scripts/generate.ts:91-97 | an `svg > g > path` tree renders as a one-item list, and the root's `viewBox` does not appear |
| ElmParse.RenderRoundTrip | scripts/generate.ts:91-97 | reading back the rendered text of a well-formed tree gives exactly the expression the tree stands for |
| ElmParse.RenderInjective | scripts/generate.ts:91-97 | two well-formed trees render to the same text exactly when they stand for the same expression |
| ElmParse.ReadExpr | scripts/generate.ts:91-97 | reading the text of a well-formed expression followed by anything gives the expression and leaves the rest |
| ElmParse.ReadSetters | scripts/generate.ts:84-89 | reading a rendered setter list gives back the attribute names and values |
| ElmParse.TranslateWellFormed | scripts/generate.ts:86 | the dash rewrite of a name without spaces introduces none, so a well-formed tree gives a well-formed expression |
| Emit.CaseArms | scripts/generate.ts:350-381 | at most one failure per weight, and no arms and no failures for an icon with no weights |
| Emit.CaseArmsAccounting | scripts/generate.ts:350-381 | the failures are the weights whose text throws or whose root is not `svg`, and the arms are those of the other weights in key order |
| Emit.AllRenderable | scripts/generate.ts:350-381 | when every weight renders there is no failure and every weight has an arm |
| Emit.Summary | scripts/generate.ts:415-420 | the "generated" line is printed exactly when `passes > 0` and the "failed" line exactly when `fails > 0`, each with its own counter |
| Emit.Components | scripts/generate.ts:417 | the noun is plural exactly when the count exceeds 1 |
| Sanitize.RemoveTitle | bin/generate.js:29 | the first `<title` is cut out and the rest is unchanged; text without `<title` is unchanged |
| Sanitize.RemoveTitleNotIdempotent | bin/generate.js:29 | `<ti<titletle` becomes `<title`, and a second pass leaves nothing, so the step is not idempotent |
| Sanitize.MatchLen | bin/generate.js:30 | the match at a position is the one and only prefix of the form `"#0+"` there, or there is none |
| Sanitize.ZeroHexLength | bin/generate.js:30 | a match is a quote, `#`, the whole run of zeros and a closing quote |
| Sanitize.ZeroHexReplaced | bin/generate.js:30 | a quoted all-zero colour is replaced, quotes included, by the bare word `currentColor` |
| Sanitize.NonZeroColourNotMatched | bin/generate.js:30 | a quoted colour with a non-zero digit does not match |
| Sanitize.RewriteCopiesQuoteFree | bin/generate.js:30 | text without a quote is copied unchanged ahead of the rewritten rest |
| Sanitize.RewriteLeavesNoZeroHex | bin/generate.js:30 | no quoted all-zero colour is left after the rewrite |
| Sanitize.RewriteKeepsCleanText | bin/generate.js:30 | text without a quoted all-zero colour is unchanged |
| Sanitize.RewriteIdempotent | bin/generate.js:30 | rewriting twice is the same as rewriting once |
| Sanitize.NoZeroDigitIsClean | bin/generate.js:30 | text without a `0` has nothing to rewrite |
| BinGenerate.Classify | bin/generate.js:43-58 | the classifier always returns one of the six labels, and any label but `Regular` is the capitalised last token of the name |
| BinGenerate.ClassifyIff | bin/generate.js:43-58 | a file gets a non-regular weight's label exactly when its last token is that weight's key, and `Regular` exactly when the token is no weight key |
| BinGenerate.TokenLabel | bin/generate.js:53 | capitalising a weight token gives that weight's label, and lower-casing the label gives the token back |
| BinGenerate.ReadFile | bin/generate.js:20-31 | the stored text holds no quoted all-zero colour |
| BinGenerate.LastWith | bin/generate.js:41-60 | the last file classified to a label, or none when no file is |
| BinGenerate.LoadFolder | bin/generate.js:36-61 | an icon's record has distinct keys, all of them case labels |
| BinGenerate.StoreLastWins | bin/generate.js:20-22 | a label holds the sanitised text of the last file stored under it, and nothing when no file was |
| BinGenerate.LoadFolderLastWins | bin/generate.js:41-60 | a later file classified to the same weight overwrites the earlier one |
| BinGenerate.ReadFiles | bin/generate.js:33-62 | the icon table is well formed: distinct folder keys, each with distinct label keys |
| BinGenerate.ReadFilesFolders | bin/generate.js:33-62 | the table's keys are the folder names in listing order, other entries skipped, and each holds its folder's record |
| BinGenerate.FolderNameListed | bin/generate.js:37-38 | every folder in the listing is among the listing's folder names, which `BinGenerate.ReadFilesFolders` proves are the table's keys |
| BinComponents.Generate | bin/generate.js:93-94 | `passes` starts at 0 and stays 0 |
| BinComponents.GenerateAccounting | bin/generate.js:220-285 | the text is the icons' blocks in key order, and `fails` is the incomplete icons plus the weights of complete icons that do not render |
| BinComponents.GenerateText | bin/generate.js:239-283 | the generated text is the concatenation of the icons' blocks in key order |
| BinComponents.GenerateFails | bin/generate.js:228-277 | `fails` counts the incomplete icons plus the weights of complete icons that do not render |
| BinComponents.StepAccounting | bin/generate.js:225-284 | one icon adds its block to the text and its own failures to the count |
| BinComponents.BlocksAndExports | bin/generate.js:226-241 | an icon's block is empty exactly when it fails `checkFiles`, and a non-empty block opens with the signature of the name at the same place of the export list |
| BinComponents.SummaryOfGenerate | bin/generate.js:297-302 | the only summary line ever printed is the "failed" line |
| BinComponents.FolderKey | bin/generate.js:41-60 | a folder's icon has a weight exactly when some file in the folder classifies to it |
| BinComponents.FolderCompleteIffAllWeights | bin/generate.js:64-70 | an icon folder passes `checkFiles` exactly when each of the six weights is the label of one of its files |
| ScriptsGenerate.FileName | scripts/generate.ts:61-63 | the asset file name opens with the icon name and ends in `.svg`, and is exactly four characters longer than the icon name when the weight is `regular` |
| ScriptsGenerate.FileNamesDistinct | scripts/generate.ts:61-63 | the six weights of one icon name six different files |
| ScriptsGenerate.EnsureIcon | scripts/generate.ts:67-69 | an icon's record is created empty at the end of the table only when it is missing |
| ScriptsGenerate.AddFileKeys | scripts/generate.ts:65-71 | storing a file adds the icon's key if it was new, and gives the icon the folder's weight |
| ScriptsGenerate.LoadIconsKeys | scripts/generate.ts:60-72 | after a weight folder every catalog icon is in the table, holding the weights loaded before plus this one |
| ScriptsGenerate.LoadFromKeys | scripts/generate.ts:52-73 | from any point of the directory loop, every icon ends up holding exactly the weight folders read so far, and each of them is a weight |
| ScriptsGenerate.LoadedIconsShareWeights | scripts/generate.ts:49-74 | when loading succeeds every icon holds exactly the leading run of weight folders in listing order, and the table holds every catalog icon or none |
| ScriptsGenerate.LeadingIsRun | scripts/generate.ts:52-53 | the loaded folders are the directories at the head of the listing, up to the first entry that is not one |
| ScriptsGenerate.LoadedIconsAllOrNothing | scripts/generate.ts:49-82 | after loading, either every icon passes `checkFiles` or none does, depending on whether all six weight folders were read |
| ScriptsComponents.EntryNames | scripts/generate.ts:103-110 | a catalog icon contributes its camel name, then its alias's camel name when it has an alias |
| ScriptsComponents.ExportNamesCover | scripts/generate.ts:103-110 | the export list has one name per icon plus one per alias, and holds every name of every icon |
| ScriptsComponents.StepOk | scripts/generate.ts:326-329 | an icon missing from the table stops the generation (`checkFiles` of `undefined` throws) |
| ScriptsComponents.GenerateFatalIff | scripts/generate.ts:324-329 | generation finishes exactly when every catalog icon is in the table |
| ScriptsComponents.GenerateNames | scripts/generate.ts:325-327 | `names` holds every catalog icon's name in catalog order, incomplete icons included |
| ScriptsComponents.GeneratePasses | scripts/generate.ts:401 | `passes` counts the icons that pass `checkFiles`, whatever their weights' parse outcomes |
| ScriptsComponents.GenerateFails | scripts/generate.ts:329-380 | `fails` counts the incomplete icons plus the weights of complete icons that do not render |
| ScriptsComponents.GenerateText | scripts/generate.ts:340-399 | the definitions are the icons' blocks in catalog order |
| ScriptsComponents.BlockShape | scripts/generate.ts:340-399 | an icon's block is empty exactly when it fails `checkFiles`; otherwise it is the icon's function, then its alias bound to that function, with the icon's names |
| ScriptsComponents.DefinedNamesExported | scripts/generate.ts:103-117 | every name the module defines is in its export list |
| ScriptsComponents.AliasTargetsDefined | scripts/generate.ts:389-399 | every alias is bound to an icon function defined in the same module, showing the same image |
| ScriptsComponents.AliasTextEndsWithBinding | scripts/generate.ts:394-395 | an alias's text ends with `aliasName = name` |
| ScriptsComponents.IconTextStartsWithSignature | scripts/generate.ts:341-344 | an icon's text opens with its doc comment and its `name : Icon` signature |
| Layouts.WeightTokenOfFileName | bin/generate.js:43 | the older classifier's token of a current file name is the weight key, or for `regular` the last word of the icon name |
| Layouts.ClassifyFileName | bin/generate.js:43-58 | current file names classify to their own weight, unless a regular file's icon name ends in a weight word |
| Layouts.RegularFileMisread | bin/generate.js:43-58 | a regular file whose icon name ends in a weight word is classified as that weight |
| Layouts.TextBoldMisread | bin/generate.js:43-58 | `text-bold.svg`, a regular file, is classified `Bold` |
| Demo.Clamp | scripts/generate.ts:476 | `clamp 4 2000` stays in the range, is the identity inside it, and gives the nearer bound outside it |
| Demo.ParseSize | scripts/generate.ts:476 | the size is in [4, 2000], 128 for text that is not a number, and any number in range is kept |
| Demo.ParseWeight | scripts/generate.ts:485-504 | any result other than `Regular` comes from that weight's own key |
| Demo.ParseWeightKey | scripts/generate.ts:485-504 | each weight's key parses to that weight, and `Regular` comes exactly from strings that are no other weight's key |
| Demo.Update | scripts/generate.ts:469-482 | `SetWeight` sets the weight to the parse of its text and keeps the size. `SetSize` keeps the weight, sets the size to `ParseSize` of its text, stays in [4, 2000], and gives 128 for text that is not a number. `Reset` gives `init`, and `NoOp` changes nothing |
| Demo.RunSizeBounded | scripts/generate.ts:453-482 | after any run of messages from `init` the size is in [4, 2000] |
| Demo.RunWeight | scripts/generate.ts:453-482 | after any run of messages the weight is the parse of the last `SetWeight` after the last `Reset`, or `Thin` |
| Render.GenerateElement | scripts/generate.ts:91-97 | `generateElement`: an `svg` root becomes a bare list of its children, and any other element becomes a call with its setters and children. What the text means is stated by `Render.GenerateIsPrintOfTranslate`, `Render.BareListIffSvg` and `ElmParse.RenderRoundTrip` |
| Render.GenerateElementThreaded | bin/generate.js:80-90 | the older `generateElement(svg, weight)`, which passes the weight down to every child; `Render.ThreadedWeightIgnored` proves it equals the weight-free renderer |
| Sanitize.RewriteZeroHex | bin/generate.js:30 | `.replace(/"#0+"/g, "currentColor")`, a left-to-right scan of non-overlapping matches. Its partners are `Sanitize.RewriteLeavesNoZeroHex`, `Sanitize.RewriteKeepsCleanText`, `Sanitize.RewriteIdempotent` and `Sanitize.ZeroHexReplaced` |
| Weights.CheckFiles | scripts/generate.ts:76-82 | `checkFiles`: exactly six keys, each of them a weight. `Weights.CheckFilesIsKeySetEquality` proves this is key-set equality with the six weights |
| BinGenerate.WeightToken | bin/generate.js:43 | `filename.split(".svg")[0].split("-").slice(-1)[0]`, built from `Text.Before` and `Text.LastToken`; `Layouts.WeightTokenOfFileName` gives its value on every current asset name |
| BinGenerate.Store | bin/generate.js:20-22 | the `icons[folder][weight] = ...` writes of one folder: distinct keys, each the label of some file. `BinGenerate.StoreLastWins` shows that the last file with a label wins |
| BinComponents.Step | bin/generate.js:222-285 | one turn of the older loop; `BinComponents.StepAccounting` states what it adds to the text and to `fails` |
| BinComponents.IconFunction | bin/generate.js:239-283 | the text of one icon's function: signature, `case weight of`, the arms, then `makeBuilder elements`. `BinComponents.BlocksAndExports` proves it opens with the signature of the exported name |
| BinComponents.ExportNames | bin/generate.js:101-103 | the exposing list has one name per table key; `BinComponents.BlocksAndExports` shows that each emitted function opens with the name at the same position |
| ScriptsGenerate.AddFile | scripts/generate.ts:65-71 | one inner-loop turn: ensure the icon's record, then store the text under the weight. It keeps the table well formed; `ScriptsGenerate.AddFileStores` states where the text goes and `ScriptsGenerate.AddFileKeys` the keys it adds |
| ScriptsGenerate.LoadIcons | scripts/generate.ts:60-72 | the loop over the catalog for one weight folder: the table stays well formed. `ScriptsGenerate.LoadIconsOk` states when a missing file makes it an `Err`, and `ScriptsGenerate.LoadIconsKeys` states the keys |
| ScriptsGenerate.LoadFrom | scripts/generate.ts:52-73 | the loop over the directory listing: the table stays well formed, the first non-directory stops it, and a folder that is not a weight is an `Err`. `ScriptsGenerate.LoadFromKeys` states the keys |
| ScriptsGenerate.LoadWeights | scripts/generate.ts:49-74 | `loadWeights`: on success the table is well formed. `ScriptsGenerate.LoadWeightsOk` states when it succeeds, and `ScriptsGenerate.LoadedIconsShareWeights` and `ScriptsGenerate.LoadedIconsAllOrNothing` state which weights every icon holds |
| ScriptsComponents.Step | scripts/generate.ts:324-403 | one turn of the current loop; `ScriptsComponents.StepOk` states when it fails, and `ScriptsComponents.BlockShape` states what it defines |
| ScriptsComponents.Generate | scripts/generate.ts:324-403 | the loop over the catalog. `ScriptsComponents.GenerateFatalIff`, `GenerateNames`, `GeneratePasses`, `GenerateFails` and `GenerateText` state its outcome, names, counters and definitions |
| ScriptsComponents.ExportNames | scripts/generate.ts:103-110 | `allIconNames`: each icon's names in catalog order. `ScriptsComponents.ExportNamesCover` states its length and what it holds |
| Emit.Arm | scripts/generate.ts:367-371 | one `Label ->` arm with the element text; `Emit.CaseArmsAccounting` states which weights get one |
| Demo.Run | scripts/generate.ts:453-482 | the page after a run of messages from `init`; `Demo.RunSizeBounded` and `Demo.RunWeight` state its size and weight |
| ScriptsGenerate.AddFileStores | scripts/generate.ts:65-71 | after storing a file, the icon's record reads back the file's text under the weight, and every other icon reads as before |
| ScriptsGenerate.LoadIconsOk | scripts/generate.ts:60-72 | the loop over the catalog for one folder succeeds exactly when every remaining icon's `FileName` file is in that folder; otherwise `readFileSync` throws on the first missing one |
| ScriptsGenerate.FileMissing | scripts/generate.ts:61-71 | a missing file stops the loop with an error naming the folder and the `FileName` of that icon |
| ScriptsGenerate.LoadFromOk | scripts/generate.ts:52-73 | the loop over the listing succeeds exactly when every folder before the first non-directory is a weight and holds the file of every catalog icon |
| ScriptsGenerate.LoadWeightsOk | scripts/generate.ts:49-74 | `loadWeights` returns a table exactly when each leading folder is a weight and holds the `FileName` file of every catalog icon; otherwise it stops on a bad folder or a missing file |

## Left out

- Reading files, listing directories and writing the Elm module and the demo page are I/O. The listings and file texts are inputs: a list of directory entries and a map from (folder, file name) to text, or for the older revision a list of folders with their (file name, text) pairs.
- The `git submodule update` call and `process.exit` are not modelled. Neither are the act of printing, the chalk colours, or any message text other than the summary lines (`Emit.Summary`, `Emit.Components`, `BinComponents.SummaryOfGenerate`) and the missing-weights report (`Weights.MissingWeights`). In the current revision, a bad folder name and an unreadable file become `Err` values of the loader, and an icon missing from the table becomes an `Err` of the generation.
- `svgson.parse` is third-party code. Each weight's parse outcome is a function parameter: a tree, or a thrown error.
- The icon catalog's contents are not shown. It is a list of records with the icon's name, its Pascal-case name and an optional alias.
- The XML-prolog and background-rect regexes of the older `readFile` (bin/generate.js:24-28) would need a regex engine. They are one abstract `strip` parameter applied before the modelled steps.
- The Elm prelude, the module header template, the `@docs` text and the demo page's `view` are fixed template text. Only the export-name list, the per-icon definitions and the demo's `names` are modelled.
- Demo.ParseSize: sizes are mathematical reals, not IEEE doubles, and `String.toFloat` is a parameter, because floating point and Elm's number parser are not modelled.
- Case mapping covers ASCII only. JavaScript's `toUpperCase` and `toLowerCase` on other letters are not modelled.
- JavaScript objects list integer-like keys first, in numeric order. Records keep plain insertion order, which agrees for every key these generators use: weight names, case labels and icon names.
- The `await` inside the loops runs one parse at a time, so the loops are sequential folds.
- BinGenerate.LoadFolder: the older loader takes every entry of an icon folder as a readable (file name, text) pair. There, `readFileSync` throws on an entry it cannot read, such as a sub-directory inside an icon folder (bin/generate.js:21, 40-42), and the throw ends the whole run. That error path is not modelled.
- ScriptsGenerate.LoadedIconsShareWeights: states which weights each icon holds after loading, but not which asset text sits under each weight.
- ScriptsGenerate.LoadWeights: which asset text ends up under each (icon, weight) slot of the loaded table is not stated end to end. `ScriptsGenerate.AddFileStores` states it for a single write, but no lemma composes the writes over the loops, where an icon name repeated in the catalog means the later file wins.
- BinGenerate.ReadFile: states only that no quoted all-zero colour survives. The title step and the zero-colour rewrite are stated one by one in Sanitize, and the prolog and rect steps are the abstract `strip`.
- The `i` counter of the older `generateComponents` (bin/generate.js:220, 284) is never read, so it is not modelled.
