/** The per-weight-folder revision, `scripts/generate.ts`: the asset
    directory holds one folder per weight, and `loadWeights` reads, for
    every weight folder and every catalog icon, the file the icon's name
    and the weight determine. */
module ScriptsGenerate {
  import opened Wrappers
  import opened Naming
  import opened Records
  import opened Weights

  /** An icon of the catalog: its kebab-case file name, its Pascal-case
      name, and the Pascal-case name of its alias when it has one. */
  datatype CatalogEntry = CatalogEntry(name: string, pascalName: string, alias: Option<string>)

  /** The key of an icon in the table, and the name of its Elm function. */
  function CamelName(c: CatalogEntry): string {
    PascalToCamel(c.pascalName)
  }

  /** The file of an icon in a weight folder: the regular weight has no
      suffix, every other weight is appended after a `-`. */
  function FileName(iconName: string, weight: string): (f: string)
    ensures |f| > |iconName| + 3 && f[..|iconName|] == iconName && f[|f| - 4..] == ".svg"
    ensures weight == "regular" <==> |f| == |iconName| + 4
    ensures weight == "regular" ==> f == iconName + ".svg"
    ensures weight != "regular" ==> f == iconName + "-" + weight + ".svg"
  {
    iconName + (if weight == "regular" then "" else "-" + weight) + ".svg"
  }

  /** The six files of one icon have six different names. */
  lemma FileNamesDistinct(iconName: string, w: Weight, w': Weight)
    ensures FileName(iconName, Key(w)) == FileName(iconName, Key(w')) <==> w == w'
  {
    var f, f' := FileName(iconName, Key(w)), FileName(iconName, Key(w'));
    if f == f' && w != Regular && w' != Regular {
      var n := |iconName| + 1;
      assert f[n..|f| - 4] == Key(w);
      assert f'[n..|f'| - 4] == Key(w');
      KeyInjective(w, w');
    }
  }

  /** An entry of the assets directory. */
  datatype DirEntry = DirEntry(name: string, isDirectory: bool)

  function Names(entries: seq<DirEntry>): (names: seq<string>)
    ensures |names| == |entries|
  {
    seq(|entries|, i requires 0 <= i < |entries| => entries[i].name)
  }

  /** What stops the loader: a folder that is not a weight (the process
      exits), or a file that cannot be read (the read throws). */
  datatype LoadError = BadFolder(folder: string) | MissingFile(folder: string, filename: string)

  /** The files of the assets directory, by folder and file name. */
  type Assets = map<(string, string), string>

  type Table = Record<Record<string>>

  predicate WellFormedTable(icons: Table) {
    WellFormed(icons) && forall i :: 0 <= i < |icons| ==> WellFormed(icons[i].1)
  }

  /** `if (!icons[camel]) icons[camel] = {}`. */
  function EnsureIcon(icons: Table, camel: string): (r: Table)
    requires WellFormedTable(icons)
    ensures WellFormedTable(r) && camel in Keys(r)
    ensures camel in Keys(icons) ==> r == icons
    ensures camel !in Keys(icons) ==> r == icons + [(camel, [])]
  {
    if camel in Keys(icons) then icons
    else
      PutKeys(icons, camel, []);
      Put(icons, camel, [])
  }

  /** `readFile`: `icons[camel][w] = text`, the icon's record having been
      created if it was missing. */
  function AddFile(icons: Table, camel: string, w: string, text: string): (r: Table)
    requires WellFormedTable(icons)
    ensures WellFormedTable(r)
  {
    var icons1 := EnsureIcon(icons, camel);
    var p := IndexOf(icons1, camel);
    PutKeys(icons1[p].1, w, text);
    icons1[p := (camel, Put(icons1[p].1, w, text))]
  }

  /** Storing a file puts its text under the icon and the weight, and
      leaves every other icon as it was. */
  lemma AddFileStores(icons: Table, camel: string, w: string, text: string, other: string)
    requires WellFormedTable(icons) && other != camel
    ensures Get(AddFile(icons, camel, w, text), camel).Some?
    ensures Get(Get(AddFile(icons, camel, w, text), camel).value, w) == Some(text)
    ensures Get(AddFile(icons, camel, w, text), other) == Get(icons, other)
  {
    var icons1 := EnsureIcon(icons, camel);
    var p := IndexOf(icons1, camel);
    var rec := Put(icons1[p].1, w, text);
    assert AddFile(icons, camel, w, text) == Put(icons1, camel, rec);
    PutGetSame(icons1, camel, rec);
    PutGetSame(icons1[p].1, w, text);
    PutGetOther(icons1, camel, rec, other);
    if camel !in Keys(icons) {
      PutGetOther(icons, camel, [], other);
    }
  }

  /** The inner loop over the catalog for one weight folder `w`, from the
      icon at position `j` on. An icon's record is created the first time
      its name is met; the file's text is stored under the weight. */
  function LoadIcons(w: string, catalog: seq<CatalogEntry>, j: nat, assets: Assets, icons: Table): (r: Result<Table, LoadError>)
    requires WellFormedTable(icons) && j <= |catalog|
    ensures r.Ok? ==> WellFormedTable(r.value)
    decreases |catalog| - j
  {
    if j == |catalog| then Ok(icons)
    else
      var filename := FileName(catalog[j].name, w);
      if (w, filename) !in assets then Err(MissingFile(w, filename))
      else LoadIcons(w, catalog, j + 1, assets, AddFile(icons, CamelName(catalog[j]), w, assets[(w, filename)]))
  }

  /** The outer loop over the directory listing, from entry `k` on. The
      first entry that is not a directory ends the whole loader. */
  function LoadFrom(entries: seq<DirEntry>, k: nat, catalog: seq<CatalogEntry>, assets: Assets, icons: Table): (r: Result<Table, LoadError>)
    requires WellFormedTable(icons) && k <= |entries|
    ensures r.Ok? ==> WellFormedTable(r.value)
    decreases |entries| - k
  {
    if k == |entries| || !entries[k].isDirectory then Ok(icons)
    else if entries[k].name !in Keys6 then Err(BadFolder(entries[k].name))
    else
      match LoadIcons(entries[k].name, catalog, 0, assets, icons)
      case Err(e) => Err(e)
      case Ok(next) => LoadFrom(entries, k + 1, catalog, assets, next)
  }

  /** `loadWeights`. */
  function LoadWeights(entries: seq<DirEntry>, catalog: seq<CatalogEntry>, assets: Assets): (r: Result<Table, LoadError>)
    ensures r.Ok? ==> WellFormedTable(r.value)
  {
    LoadFrom(entries, 0, catalog, assets, [])
  }

  /** The names of the directories at the head of the listing, from entry
      `k` up to the first entry that is not a directory. */
  function LeadingFrom(entries: seq<DirEntry>, k: nat): seq<string>
    requires k <= |entries|
    decreases |entries| - k
  {
    if k == |entries| || !entries[k].isDirectory then []
    else [entries[k].name] + LeadingFrom(entries, k + 1)
  }

  /** The weight folders the loader gets through before it stops. */
  function LeadingFolders(entries: seq<DirEntry>): seq<string> {
    LeadingFrom(entries, 0)
  }

  function KeySet<V>(m: Record<V>): set<string> {
    set k | k in Keys(m)
  }

  /** The table keys of the first `j` catalog icons. */
  function CamelsUpTo(catalog: seq<CatalogEntry>, j: nat): set<string> {
    set i | 0 <= i < j && i < |catalog| :: CamelName(catalog[i])
  }

  /** Every icon holds the weights `q`, and those in `done` also `w`. */
  predicate Holding(icons: Table, done: set<string>, q: seq<string>, w: string) {
    forall i :: 0 <= i < |icons| ==> Keys(icons[i].1) == (if icons[i].0 in done then q + [w] else q)
  }

  /** An icon created here starts empty, so creating one keeps `Holding`
      only while no weight has yet been loaded. */
  lemma EnsureIconKeys(icons: Table, camel: string, q: seq<string>, w: string, done: set<string>)
    requires WellFormedTable(icons) && camel !in done
    requires camel !in KeySet(icons) ==> q == []
    requires Holding(icons, done, q, w)
    ensures KeySet(EnsureIcon(icons, camel)) == KeySet(icons) + {camel}
    ensures Holding(EnsureIcon(icons, camel), done, q, w)
  {
    assert camel !in Keys(icons) ==> camel !in KeySet(icons);
  }

  /** Storing one file: the table gains the icon's key if it was new, and
      the icon's weights gain `w`. */
  lemma AddFileKeys(icons: Table, camel: string, w: string, text: string, q: seq<string>, done: set<string>)
    requires WellFormedTable(icons) && w !in q
    requires camel !in KeySet(icons) ==> q == []
    requires Holding(icons, done, q, w) && done <= KeySet(icons)
    ensures KeySet(AddFile(icons, camel, w, text)) == KeySet(icons) + {camel}
    ensures Holding(AddFile(icons, camel, w, text), done + {camel}, q, w)
  {
    var icons1 := EnsureIcon(icons, camel);
    if camel in done {
      assert camel in Keys(icons);
    } else {
      EnsureIconKeys(icons, camel, q, w, done);
    }
    var p := IndexOf(icons1, camel);
    var icon := icons1[p].1;
    PutKeys(icon, w, text);
    assert Keys(Put(icon, w, text)) == q + [w] by {
      assert Keys(icon) == (if camel in done then q + [w] else q);
    }
    HoldingUpdate(icons1, p, (camel, Put(icon, w, text)), done, q, w);
    var r := icons1[p := (camel, Put(icon, w, text))];
    assert Keys(r) == Keys(icons1);
  }

  /** Replacing the record of one icon by one holding `q + [w]` marks that
      icon as done. */
  lemma HoldingUpdate(icons: Table, p: nat, entry: (string, Record<string>), done: set<string>, q: seq<string>, w: string)
    requires WellFormed(icons) && p < |icons| && entry.0 == icons[p].0
    requires Holding(icons, done, q, w) && Keys(entry.1) == q + [w]
    ensures Holding(icons[p := entry], done + {entry.0}, q, w)
  {
    var r := icons[p := entry];
    forall i | 0 <= i < |r| ensures Keys(r[i].1) == (if r[i].0 in done + {entry.0} then q + [w] else q) {
      if i != p {
        assert r[i] == icons[i] && icons[i].0 != icons[p].0;
      }
    }
  }

  lemma CamelsStep(catalog: seq<CatalogEntry>, j: nat)
    requires j < |catalog|
    ensures CamelsUpTo(catalog, j + 1) == CamelsUpTo(catalog, j) + {CamelName(catalog[j])}
    ensures CamelName(catalog[j]) in CamelsUpTo(catalog, |catalog|)
    ensures CamelsUpTo(catalog, j) <= CamelsUpTo(catalog, |catalog|)
  {
  }

  /** The state of the inner loop before catalog entry `j`: the icons met
      so far, and every icon of earlier folders, are in the table; those
      met in this folder hold `q + [w]`, the rest `q`. */
  predicate Loading(w: string, catalog: seq<CatalogEntry>, j: nat, icons: Table, q: seq<string>) {
    WellFormedTable(icons) && j <= |catalog| && w !in q &&
    KeySet(icons) == CamelsUpTo(catalog, j) + (if q == [] then {} else CamelsUpTo(catalog, |catalog|)) &&
    Holding(icons, CamelsUpTo(catalog, j), q, w)
  }

  /** The state after a whole folder: every catalog icon, holding `q + [w]`. */
  predicate Loaded(r: Table, catalog: seq<CatalogEntry>, q: seq<string>, w: string) {
    KeySet(r) == CamelsUpTo(catalog, |catalog|) &&
    forall i :: 0 <= i < |r| ==> Keys(r[i].1) == q + [w]
  }

  /** One weight folder: every icon of the catalog ends up in the table
      with the weights loaded before plus `w`. */
  lemma {:induction false} LoadIconsKeys(w: string, catalog: seq<CatalogEntry>, j: nat, assets: Assets, icons: Table, q: seq<string>, r: Table)
    requires Loading(w, catalog, j, icons, q)
    requires LoadIcons(w, catalog, j, assets, icons) == Ok(r)
    ensures Loaded(r, catalog, q, w)
    decreases |catalog| - j
  {
    if j == |catalog| {
      AllDone(w, catalog, assets, icons, q, r);
    } else {
      var next := LoadStep(w, catalog, j, assets, icons, q, r);
      assert Loading(w, catalog, j + 1, next, q);
      assert LoadIcons(w, catalog, j + 1, assets, next) == Ok(r);
      LoadIconsKeys(w, catalog, j + 1, assets, next, q, r);
    }
  }

  /** Once the whole catalog is done every icon holds `q + [w]`. */
  lemma AllDone(w: string, catalog: seq<CatalogEntry>, assets: Assets, icons: Table, q: seq<string>, r: Table)
    requires Loading(w, catalog, |catalog|, icons, q)
    requires LoadIcons(w, catalog, |catalog|, assets, icons) == Ok(r)
    ensures Loaded(r, catalog, q, w)
  {
    assert r == icons;
    forall i | 0 <= i < |icons| ensures Keys(icons[i].1) == q + [w] {
      assert icons[i].0 in KeySet(icons);
    }
  }

  /** One turn of the inner loop keeps the invariant of `LoadIconsKeys`. */
  lemma LoadStep(w: string, catalog: seq<CatalogEntry>, j: nat, assets: Assets, icons: Table, q: seq<string>, r: Table) returns (next: Table)
    requires Loading(w, catalog, j, icons, q) && j < |catalog|
    requires LoadIcons(w, catalog, j, assets, icons) == Ok(r)
    ensures Loading(w, catalog, j + 1, next, q)
    ensures LoadIcons(w, catalog, j + 1, assets, next) == Ok(r)
  {
    var filename := FileName(catalog[j].name, w);
    var camel := CamelName(catalog[j]);
    var done := CamelsUpTo(catalog, j);
    CamelsStep(catalog, j);
    AddFileKeys(icons, camel, w, assets[(w, filename)], q, done);
    next := AddFile(icons, camel, w, assets[(w, filename)]);
  }

  /** The directory loop from entry `k` on, every icon so far holding the
      weights of the first `k` entries. */
  lemma {:induction false} LoadFromKeys(entries: seq<DirEntry>, k: nat, catalog: seq<CatalogEntry>, assets: Assets, icons: Table, r: Table)
    requires Distinct(Names(entries)) && WellFormedTable(icons) && k <= |entries|
    requires KeySet(icons) == (if k == 0 then {} else CamelsUpTo(catalog, |catalog|))
    requires forall i :: 0 <= i < |icons| ==> Keys(icons[i].1) == Names(entries)[..k]
    requires LoadFrom(entries, k, catalog, assets, icons) == Ok(r)
    ensures var loaded := Names(entries)[..k] + LeadingFrom(entries, k);
            (forall i :: 0 <= i < |r| ==> Keys(r[i].1) == loaded) &&
            KeySet(r) == (if loaded == [] then {} else CamelsUpTo(catalog, |catalog|)) &&
            forall x :: x in LeadingFrom(entries, k) ==> x in Keys6
    decreases |entries| - k
  {
    if k == |entries| || !entries[k].isDirectory {
      assert r == icons && LeadingFrom(entries, k) == [];
      assert Names(entries)[..k] + [] == Names(entries)[..k];
    } else {
      var w := entries[k].name;
      var next := FolderStep(entries, k, catalog, assets, icons, r);
      assert KeySet(next) == (if k + 1 == 0 then {} else CamelsUpTo(catalog, |catalog|));
      assert LoadFrom(entries, k + 1, catalog, assets, next) == Ok(r);
      LoadFromKeys(entries, k + 1, catalog, assets, next, r);
      assert LeadingFrom(entries, k) == [w] + LeadingFrom(entries, k + 1);
      assert Names(entries)[..k] + LeadingFrom(entries, k) == Names(entries)[..k + 1] + LeadingFrom(entries, k + 1);
    }
  }

  /** One weight folder of the directory loop: every icon gains the
      folder's name as a weight. */
  lemma FolderStep(entries: seq<DirEntry>, k: nat, catalog: seq<CatalogEntry>, assets: Assets, icons: Table, r: Table) returns (next: Table)
    requires Distinct(Names(entries)) && WellFormedTable(icons) && k < |entries| && entries[k].isDirectory
    requires KeySet(icons) == (if k == 0 then {} else CamelsUpTo(catalog, |catalog|))
    requires forall i :: 0 <= i < |icons| ==> Keys(icons[i].1) == Names(entries)[..k]
    requires LoadFrom(entries, k, catalog, assets, icons) == Ok(r)
    ensures entries[k].name in Keys6
    ensures WellFormedTable(next) && KeySet(next) == CamelsUpTo(catalog, |catalog|)
    ensures forall i :: 0 <= i < |next| ==> Keys(next[i].1) == Names(entries)[..k + 1]
    ensures LoadFrom(entries, k + 1, catalog, assets, next) == Ok(r)
  {
    var w := entries[k].name;
    var q := Names(entries)[..k];
    assert Names(entries)[..k + 1] == q + [w];
    assert w !in q by {
      DistinctSplit(Names(entries)[..k + 1], Names(entries)[k + 1..]);
      DistinctSplit(q, [w]);
    }
    next := LoadIcons(w, catalog, 0, assets, icons).value;
    assert Loading(w, catalog, 0, icons, q);
    LoadIconsKeys(w, catalog, 0, assets, icons, q, next);
  }

  /** Whatever the catalog and the files, every icon the loader produces
      holds exactly the weights of the leading directories, in listing
      order; the table holds every catalog icon once any folder is loaded,
      and nothing before. */
  lemma LoadedIconsShareWeights(entries: seq<DirEntry>, catalog: seq<CatalogEntry>, assets: Assets)
    requires Distinct(Names(entries))
    ensures LoadWeights(entries, catalog, assets).Ok? ==>
              var icons := LoadWeights(entries, catalog, assets).value;
              (forall i :: 0 <= i < |icons| ==> Keys(icons[i].1) == LeadingFolders(entries)) &&
              KeySet(icons) == (if LeadingFolders(entries) == [] then {} else CamelsUpTo(catalog, |catalog|)) &&
              forall x :: x in LeadingFolders(entries) ==> x in Keys6
  {
    assert Names(entries)[..0] == [];
    if LoadWeights(entries, catalog, assets).Ok? {
      LoadFromKeys(entries, 0, catalog, assets, [], LoadWeights(entries, catalog, assets).value);
    }
  }

  /** The leading folders are a run of consecutive names of the listing. */
  lemma {:induction false} LeadingIsRun(entries: seq<DirEntry>, k: nat)
    requires k <= |entries|
    ensures k + |LeadingFrom(entries, k)| <= |entries|
    ensures LeadingFrom(entries, k) == Names(entries)[k..k + |LeadingFrom(entries, k)|]
    decreases |entries| - k
  {
    if k < |entries| && entries[k].isDirectory {
      LeadingIsRun(entries, k + 1);
    }
  }

  /** Every icon the loader produces passes `checkFiles`, or none does: it
      passes exactly when each of the six weight folders precedes the first
      entry of the listing that is not a directory. */
  lemma LoadedIconsAllOrNothing(entries: seq<DirEntry>, catalog: seq<CatalogEntry>, assets: Assets)
    requires Distinct(Names(entries))
    ensures LoadWeights(entries, catalog, assets).Ok? ==>
              var icons := LoadWeights(entries, catalog, assets).value;
              forall i :: 0 <= i < |icons| ==>
                (CheckFiles(Keys(icons[i].1), Keys6) <==> forall w: Weight :: Key(w) in LeadingFolders(entries))
  {
    LoadedIconsShareWeights(entries, catalog, assets);
    var lead := LeadingFolders(entries);
    LeadingIsRun(entries, 0);
    DistinctSplit(Names(entries)[..|lead|], Names(entries)[|lead|..]);
    assert Names(entries)[..|lead|] + Names(entries)[|lead|..] == Names(entries);
    if LoadWeights(entries, catalog, assets).Ok? {
      CheckFilesIffAllKeys(lead);
    }
  }

  /** Icon `c` has its file in weight folder `w`. */
  predicate HasFile(w: string, c: CatalogEntry, assets: Assets) {
    (w, FileName(c.name, w)) in assets
  }

  /** Every catalog icon has its file in weight folder `w`. */
  predicate AllFiles(w: string, catalog: seq<CatalogEntry>, assets: Assets) {
    forall i :: 0 <= i < |catalog| ==> HasFile(w, catalog[i], assets)
  }

  /** The loop over the catalog succeeds exactly when every remaining icon
      has its file in the folder. */
  lemma {:induction false} LoadIconsOk(w: string, catalog: seq<CatalogEntry>, j: nat, assets: Assets, icons: Table)
    requires WellFormedTable(icons) && j <= |catalog|
    ensures LoadIcons(w, catalog, j, assets, icons).Ok? <==> forall i :: j <= i < |catalog| ==> HasFile(w, catalog[i], assets)
    decreases |catalog| - j
  {
    if j < |catalog| {
      if HasFile(w, catalog[j], assets) {
        var next := FileFound(w, catalog, j, assets, icons);
        LoadIconsOk(w, catalog, j + 1, assets, next);
      } else {
        FileMissing(w, catalog, j, assets, icons);
      }
    }
  }

  /** A present file is stored and the loop moves on. */
  lemma FileFound(w: string, catalog: seq<CatalogEntry>, j: nat, assets: Assets, icons: Table) returns (next: Table)
    requires WellFormedTable(icons) && j < |catalog| && HasFile(w, catalog[j], assets)
    ensures WellFormedTable(next)
    ensures LoadIcons(w, catalog, j, assets, icons) == LoadIcons(w, catalog, j + 1, assets, next)
  {
    next := AddFile(icons, CamelName(catalog[j]), w, assets[(w, FileName(catalog[j].name, w))]);
  }

  /** A missing file stops the loop. */
  lemma FileMissing(w: string, catalog: seq<CatalogEntry>, j: nat, assets: Assets, icons: Table)
    requires WellFormedTable(icons) && j < |catalog| && !HasFile(w, catalog[j], assets)
    ensures LoadIcons(w, catalog, j, assets, icons) == Err(MissingFile(w, FileName(catalog[j].name, w)))
  {
  }

  /** The loop over the listing succeeds exactly when every folder it
      reaches is a weight and holds the file of every catalog icon. */
  lemma {:induction false} LoadFromOk(entries: seq<DirEntry>, k: nat, catalog: seq<CatalogEntry>, assets: Assets, icons: Table)
    requires WellFormedTable(icons) && k <= |entries|
    ensures LoadFrom(entries, k, catalog, assets, icons).Ok? <==>
              forall x :: x in LeadingFrom(entries, k) ==> x in Keys6 && AllFiles(x, catalog, assets)
    decreases |entries| - k
  {
    if k < |entries| && entries[k].isDirectory {
      var w := entries[k].name;
      assert LeadingFrom(entries, k) == [w] + LeadingFrom(entries, k + 1);
      if w in Keys6 {
        LoadIconsOk(w, catalog, 0, assets, icons);
        match LoadIcons(w, catalog, 0, assets, icons)
        case Err(_) =>
        case Ok(next) =>
          LoadFromOk(entries, k + 1, catalog, assets, next);
      }
    }
  }

  /** `loadWeights` returns a table exactly when each weight folder before
      the first non-directory entry is a weight and holds the file of every
      catalog icon; otherwise it stops on a bad folder or a missing file. */
  lemma LoadWeightsOk(entries: seq<DirEntry>, catalog: seq<CatalogEntry>, assets: Assets)
    ensures LoadWeights(entries, catalog, assets).Ok? <==>
              forall x :: x in LeadingFolders(entries) ==> x in Keys6 && AllFiles(x, catalog, assets)
  {
    LoadFromOk(entries, 0, catalog, assets, []);
  }
}
