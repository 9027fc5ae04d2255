/** The text both generator revisions emit for one weight of one icon: a
    case arm whose body is the rendered element tree, and the bookkeeping
    of weights whose text does not parse to an `svg` root. */
module Emit {
  import opened Records
  import opened Naming
  import opened Render

  /** What `svgson.parse` makes of one weight's text: a tree, or a thrown error. */
  datatype ParseOutcome = Parsed(root: Node) | ParseFailure

  /** A weight is rendered only when its text parses and the root is `svg`. */
  predicate Renderable(o: ParseOutcome) {
    o.Parsed? && o.root.name == "svg"
  }

  /** The weight entries of an icon that do not render. */
  function Unrenderable(parse: string -> ParseOutcome): ((string, string)) -> bool {
    (e: (string, string)) => !Renderable(parse(e.1))
  }

  /** The case label of a weight key: the per-weight revision capitalises
      its lower-case keys, the per-icon revision's keys are labels already. */
  function CaseLabel(d: Dialect, weight: string): string {
    match d
    case Scripts => CapitalizeFirst(weight)
    case Bin => weight
  }

  function Arm(caseLabel: string, body: string): string {
    "                " + caseLabel + " ->\n                    " + body + "\n\n"
  }

  /** The arm one weight entry contributes on its own, or nothing. */
  function ArmFor(d: Dialect, parse: string -> ParseOutcome, e: (string, string)): string {
    var o := parse(e.1);
    if Renderable(o) then Arm(CaseLabel(d, e.0), GenerateElement(d, o.root)) else ""
  }

  datatype Arms = Arms(text: string, bad: nat)

  /** The loop over the weights of one icon, in key order: a thrown parse
      error or a root other than `svg` counts one failure and adds no arm. */
  function CaseArms(d: Dialect, icon: Record<string>, parse: string -> ParseOutcome): (r: Arms)
    ensures r.bad <= |icon|
    ensures |icon| == 0 ==> r == Arms("", 0)
  {
    if |icon| == 0 then Arms("", 0)
    else
      var prev := CaseArms(d, icon[..|icon| - 1], parse);
      var weight := icon[|icon| - 1].0;
      match parse(icon[|icon| - 1].1)
      case ParseFailure => Arms(prev.text, prev.bad + 1)
      case Parsed(root) =>
        if root.name != "svg" then Arms(prev.text, prev.bad + 1)
        else Arms(prev.text + Arm(CaseLabel(d, weight), GenerateElement(d, root)), prev.bad)
  }

  /** The arms one by one, in the order of the icon's keys. */
  function ArmsOf(d: Dialect, icon: Record<string>, parse: string -> ParseOutcome): seq<string> {
    seq(|icon|, i requires 0 <= i < |icon| => ArmFor(d, parse, icon[i]))
  }

  /** The loop's failure count is the number of weights that do not render,
      and its text is the arms of the rendered weights in key order. */
  lemma {:induction false} CaseArmsAccounting(d: Dialect, icon: Record<string>, parse: string -> ParseOutcome)
    ensures CaseArms(d, icon, parse).bad == CountWhere(icon, Unrenderable(parse))
    ensures CaseArms(d, icon, parse).text == Concat(ArmsOf(d, icon, parse))
  {
    if |icon| > 0 {
      var n := |icon| - 1;
      var init := icon[..n];
      CaseArmsAccounting(d, init, parse);
      CountLast(icon, Unrenderable(parse));
      assert ArmsOf(d, icon, parse)[..n] == ArmsOf(d, init, parse);
    }
  }

  /** When every weight renders, no failure is counted and every weight has its arm. */
  lemma AllRenderable(d: Dialect, icon: Record<string>, parse: string -> ParseOutcome)
    requires forall i :: 0 <= i < |icon| ==> Renderable(parse(icon[i].1))
    ensures CaseArms(d, icon, parse).bad == 0
    ensures forall i :: 0 <= i < |icon| ==> ArmsOf(d, icon, parse)[i] != ""
  {
    CaseArmsAccounting(d, icon, parse);
    assert (set i | 0 <= i < |icon| && Unrenderable(parse)(icon[i])) == {};
  }

  /** The closing lines of the summary. */
  datatype SummaryLine = Generated(count: nat) | Failed(count: nat)

  /** "N component(s) generated" only when something passed, "N
      component(s) failed" only when something failed. */
  function Summary(passes: nat, fails: nat): (lines: seq<SummaryLine>)
    ensures (exists l :: l in lines && l.Generated?) <==> passes > 0
    ensures (exists l :: l in lines && l.Failed?) <==> fails > 0
    ensures forall l :: l in lines ==> l.count == (if l.Generated? then passes else fails)
  {
    var lines := (if passes > 0 then [Generated(passes)] else []) + (if fails > 0 then [Failed(fails)] else []);
    assert passes > 0 ==> lines[0].Generated?;
    assert fails > 0 ==> lines[|lines| - 1].Failed?;
    lines
  }

  /** The noun of a summary line agrees with its count. */
  function Components(n: nat): (r: string)
    ensures r == "component" || r == "components"
    ensures r == "components" <==> n > 1
  {
    "component" + (if n > 1 then "s" else "")
  }
}
