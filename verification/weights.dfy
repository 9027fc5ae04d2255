/** The six icon weights, their spellings in the two generator revisions,
    and the completeness test `checkFiles`. */
module Weights {
  import opened Text
  import opened Naming
  import opened Records

  datatype Weight = Thin | Light | Regular | Bold | Fill | Duotone

  /** The folder name and object key of a weight in the per-weight layout,
      which is also the option value of the demo page's weight selector. */
  function Key(w: Weight): string {
    match w
    case Thin => "thin"
    case Light => "light"
    case Regular => "regular"
    case Bold => "bold"
    case Fill => "fill"
    case Duotone => "duotone"
  }

  /** The capitalised spelling: the object key in the per-icon layout and
      the name of the generated Elm constructor. */
  function Label(w: Weight): string {
    match w
    case Thin => "Thin"
    case Light => "Light"
    case Regular => "Regular"
    case Bold => "Bold"
    case Fill => "Fill"
    case Duotone => "Duotone"
  }

  /** The `weights` array of the per-weight revision. */
  const Keys6: seq<string> := ["thin", "light", "regular", "bold", "fill", "duotone"]

  /** The `weights` array of the per-icon revision. */
  const Labels6: seq<string> := ["Thin", "Light", "Regular", "Bold", "Fill", "Duotone"]

  /** Capitalising a key gives the case label the generator emits for it. */
  lemma LabelIsCapitalizedKey(w: Weight)
    ensures CapitalizeFirst(Key(w)) == Label(w)
    ensures PascalToCamel(Label(w)) == Key(w)
  {
    CamelUndoesCapitalize(Key(w));
  }

  lemma KeyInjective(w: Weight, w': Weight)
    ensures Key(w) == Key(w') <==> w == w'
    ensures Label(w) == Label(w') <==> w == w'
  {
  }

  lemma Keys6Spelling(w: Weight)
    ensures Key(w) in Keys6 && Label(w) in Labels6
  {
  }

  /** `checkFiles`: exactly six keys, each of them a recognised weight. */
  predicate CheckFiles(keys: seq<string>, weights: seq<string>) {
    |keys| == 6 && forall k :: k in keys ==> k in weights
  }

  /** `weights.filter((w) => !keys.includes(w))`, the report for an
      incomplete icon. */
  function MissingWeights(keys: seq<string>, weights: seq<string>): (r: seq<string>)
    ensures forall w :: w in r <==> w in weights && w !in keys
  {
    if |weights| == 0 then []
    else (if weights[0] in keys then [] else [weights[0]]) + MissingWeights(keys, weights[1..])
  }

  lemma {:induction false} DistinctCardinality<T>(s: seq<T>)
    requires Distinct(s)
    ensures |set x | x in s| == |s|
  {
    if |s| > 0 {
      var t := s[1..];
      assert Distinct(t) by {
        forall i, j | 0 <= i < j < |t| ensures t[i] != t[j] {
          assert t[i] == s[i + 1] && t[j] == s[j + 1];
        }
      }
      DistinctCardinality(t);
      assert (set x | x in s) == (set x | x in t) + {s[0]};
      assert s[0] !in t by {
        forall j | 0 <= j < |t| ensures t[j] != s[0] {
          assert t[j] == s[j + 1];
        }
      }
    }
  }

  lemma SubsetOfSameSize<T>(a: set<T>, b: set<T>)
    requires a <= b && |a| == |b|
    ensures a == b
  {
    assert |b - a| == |b| - |a|;
  }

  /** Object keys are distinct, so `checkFiles` holds exactly when the icon's
      key set is the set of the six weights. */
  lemma CheckFilesIsKeySetEquality(keys: seq<string>, weights: seq<string>)
    requires Distinct(keys) && Distinct(weights) && |weights| == 6
    ensures CheckFiles(keys, weights) <==> (set k | k in keys) == (set w | w in weights)
  {
    DistinctCardinality(keys);
    DistinctCardinality(weights);
    var ks, ws := set k | k in keys, set w | w in weights;
    if CheckFiles(keys, weights) {
      assert ks <= ws;
      SubsetOfSameSize(ks, ws);
    } else if ks == ws {
      assert |keys| == 6;
      forall k | k in keys ensures k in weights {
        assert k in ks;
      }
      assert false;
    }
  }

  /** When every key is a recognised weight, an icon passes `checkFiles`
      exactly when its failure report would name no missing weight. */
  lemma CheckFilesIffNothingMissing(keys: seq<string>, weights: seq<string>)
    requires Distinct(keys) && Distinct(weights) && |weights| == 6
    requires forall k :: k in keys ==> k in weights
    ensures CheckFiles(keys, weights) <==> MissingWeights(keys, weights) == []
  {
    CheckFilesIsKeySetEquality(keys, weights);
    var ks, ws := set k | k in keys, set w | w in weights;
    if MissingWeights(keys, weights) == [] {
      assert ks == ws;
    } else {
      var m := MissingWeights(keys, weights)[0];
      assert m in ws && m !in ks;
    }
  }

  /** For distinct keys drawn from a six-weight list, `checkFiles` holds
      exactly when every listed weight is among the keys. */
  lemma CheckFilesIffCovers(keys: seq<string>, weights: seq<string>)
    requires Distinct(keys) && Distinct(weights) && |weights| == 6
    requires forall k :: k in keys ==> k in weights
    ensures CheckFiles(keys, weights) <==> forall x :: x in weights ==> x in keys
  {
    CheckFilesIsKeySetEquality(keys, weights);
    var ks := set k | k in keys;
    var ws := set w | w in weights;
    if forall x :: x in weights ==> x in keys {
      assert ws <= ks && ks <= ws;
    }
    if CheckFiles(keys, weights) {
      forall x | x in weights ensures x in keys {
        assert x in ws;
      }
    }
  }

  lemma CheckFilesIffAllLabels(keys: seq<string>)
    requires Distinct(keys) && forall k :: k in keys ==> k in Labels6
    ensures CheckFiles(keys, Labels6) <==> forall w: Weight :: Label(w) in keys
  {
    SpellingsDistinct();
    CheckFilesIffCovers(keys, Labels6);
    if CheckFiles(keys, Labels6) {
      forall w: Weight ensures Label(w) in keys {
        Keys6Spelling(w);
      }
    }
    if forall w: Weight :: Label(w) in keys {
      assert Label(Thin) in keys && Label(Light) in keys && Label(Regular) in keys;
      assert Label(Bold) in keys && Label(Fill) in keys && Label(Duotone) in keys;
    }
  }

  lemma CheckFilesIffAllKeys(keys: seq<string>)
    requires Distinct(keys) && forall k :: k in keys ==> k in Keys6
    ensures CheckFiles(keys, Keys6) <==> forall w: Weight :: Key(w) in keys
  {
    SpellingsDistinct();
    CheckFilesIffCovers(keys, Keys6);
    if CheckFiles(keys, Keys6) {
      forall w: Weight ensures Key(w) in keys {
        Keys6Spelling(w);
      }
    }
    if forall w: Weight :: Key(w) in keys {
      assert Key(Thin) in keys && Key(Light) in keys && Key(Regular) in keys;
      assert Key(Bold) in keys && Key(Fill) in keys && Key(Duotone) in keys;
    }
  }

  lemma SpellingsDistinct()
    ensures Distinct(Keys6) && Distinct(Labels6)
  {
  }
}
