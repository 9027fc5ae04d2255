/** The element-tree renderer `generateElement` / `generateAttrs`, which
    turns a parsed SVG tree into the text of an Elm expression, in both
    generator revisions. */
module Render {
  import opened Text
  import opened Naming

  /** A parsed SVG element: tag name, attributes in document order, and
      child elements in document order. */
  datatype Node = Node(name: string, attributes: seq<(string, string)>, children: seq<Node>)

  /** The two revisions differ only in the qualifiers they write:
      `scripts/generate.ts` imports `Svg as S` and `Svg.Attributes as A`,
      `bin/generate.js` writes the module names out. */
  datatype Dialect = Scripts | Bin

  function ElementPrefix(d: Dialect): string {
    match d
    case Scripts => "S."
    case Bin => "Svg."
  }

  function AttributePrefix(d: Dialect): string {
    match d
    case Scripts => "A."
    case Bin => "Svg.Attributes."
  }

  /** One attribute-setter call: qualifier, camel-cased name, and the value
      quoted verbatim. */
  function AttributeCall(d: Dialect, name: string, value: string): string {
    AttributePrefix(d) + name + " \"" + value + "\""
  }

  /** `generateAttrs`: one setter call per attribute, in attribute order,
      the name passed through the dash rewrite. */
  function GenerateAttrs(d: Dialect, attributes: seq<(string, string)>): (r: seq<string>)
    ensures |r| == |attributes|
    ensures forall i :: 0 <= i < |r| ==> r[i] == AttributeCall(d, Camelize(attributes[i].0), attributes[i].1)
  {
    seq(|attributes|, i requires 0 <= i < |attributes| => AttributeCall(d, Camelize(attributes[i].0), attributes[i].1))
  }

  /** `generateElement`: the children are rendered first, in order; an
      `svg` element becomes the bare list of its children and any other
      element a constructor call with its setter list and child list. */
  function GenerateElement(d: Dialect, n: Node): string
    decreases n
  {
    var children := seq(|n.children|, i requires 0 <= i < |n.children| => GenerateElement(d, n.children[i]));
    if n.name == "svg" then "[ " + Join(children, ", ") + " ]"
    else ElementPrefix(d) + n.name + " [ " + Join(GenerateAttrs(d, n.attributes), ", ") + " ] [ " + Join(children, ", ") + " ]"
  }

  /** An `svg` element's own attributes never reach the output. */
  lemma SvgAttributesIgnored(d: Dialect, n: Node, attributes: seq<(string, string)>)
    requires n.name == "svg"
    ensures GenerateElement(d, n.(attributes := attributes)) == GenerateElement(d, n)
  {
    var m := n.(attributes := attributes);
    assert m.children == n.children;
  }

  /** The output is a bare list literal exactly when the element is `svg`;
      anything else opens with the element qualifier. */
  lemma BareListIffSvg(d: Dialect, n: Node)
    ensures |GenerateElement(d, n)| > 2
    ensures GenerateElement(d, n)[0] == '[' <==> n.name == "svg"
    ensures n.name != "svg" ==> GenerateElement(d, n)[..|ElementPrefix(d)|] == ElementPrefix(d)
  {
    var children := seq(|n.children|, i requires 0 <= i < |n.children| => GenerateElement(d, n.children[i]));
    var kids := Join(children, ", ");
    if n.name == "svg" {
      OpensWith("[ ", kids + " ]");
      assert GenerateElement(d, n) == "[ " + (kids + " ]");
    } else {
      var p := ElementPrefix(d);
      var rest := n.name + " [ " + Join(GenerateAttrs(d, n.attributes), ", ") + " ] [ " + kids + " ]";
      var attrs := Join(GenerateAttrs(d, n.attributes), ", ");
      PrefixHead(d);
      OpensWith(p, rest);
      assert GenerateElement(d, n) == p + n.name + " [ " + attrs + " ] [ " + kids + " ]";
      Regroup7(p, n.name, " [ ", attrs, " ] [ ", kids, " ]");
    }
  }

  lemma Regroup7(p: string, a: string, b: string, c: string, e: string, f: string, g: string)
    ensures p + a + b + c + e + f + g == p + (a + b + c + e + f + g)
  {
  }

  lemma PrefixHead(d: Dialect)
    ensures |ElementPrefix(d)| >= 2 && ElementPrefix(d)[0] == 'S'
  {
    match d
    case Scripts => assert ElementPrefix(d) == "S.";
    case Bin => assert ElementPrefix(d) == "Svg.";
  }

  lemma OpensWith(p: string, rest: string)
    requires |p| > 0
    ensures (p + rest)[0] == p[0] && (p + rest)[..|p|] == p && |p + rest| == |p| + |rest|
  {
  }

  /** `generateElement(element, weight)` of `bin/generate.js`, which threads
      a `weight` argument through the recursion without reading it. */
  function GenerateElementThreaded<W>(n: Node, weight: W): string
    decreases n
  {
    var children := seq(|n.children|, i requires 0 <= i < |n.children| => GenerateElementThreaded(n.children[i], weight));
    if n.name == "svg" then "[ " + Join(children, ", ") + " ]"
    else ElementPrefix(Bin) + n.name + " [ " + Join(GenerateAttrs(Bin, n.attributes), ", ") + " ] [ " + Join(children, ", ") + " ]"
  }

  /** The threaded weight never affects the output. */
  lemma {:induction false} ThreadedWeightIgnored<W>(n: Node, weight: W)
    ensures GenerateElementThreaded(n, weight) == GenerateElement(Bin, n)
    decreases n
  {
    var a := seq(|n.children|, i requires 0 <= i < |n.children| => GenerateElementThreaded(n.children[i], weight));
    var b := seq(|n.children|, i requires 0 <= i < |n.children| => GenerateElement(Bin, n.children[i]));
    forall i | 0 <= i < |n.children| ensures a[i] == b[i] {
      ThreadedWeightIgnored(n.children[i], weight);
    }
    assert a == b;
  }

  /** The Elm expression the renderer writes out: a list literal or a call
      of an element constructor on a setter list and a child list. Setter
      names here are already the Elm names. */
  datatype Expr = List(items: seq<Expr>) | Call(tag: string, setters: seq<(string, string)>, args: seq<Expr>)

  /** The meaning of the renderer: which Elm expression each SVG element
      stands for. */
  function Translate(n: Node): (e: Expr)
    decreases n
  {
    var args := seq(|n.children|, i requires 0 <= i < |n.children| => Translate(n.children[i]));
    if n.name == "svg" then List(args)
    else Call(n.name, seq(|n.attributes|, i requires 0 <= i < |n.attributes| => (Camelize(n.attributes[i].0), n.attributes[i].1)), args)
  }

  /** The Elm source text of an expression in a dialect. */
  function Print(d: Dialect, e: Expr): string
    decreases e
  {
    match e
    case List(items) =>
      "[ " + Join(seq(|items|, i requires 0 <= i < |items| => Print(d, items[i])), ", ") + " ]"
    case Call(tag, setters, args) =>
      ElementPrefix(d) + tag + " [ "
      + Join(seq(|setters|, i requires 0 <= i < |setters| => AttributeCall(d, setters[i].0, setters[i].1)), ", ")
      + " ] [ " + Join(seq(|args|, i requires 0 <= i < |args| => Print(d, args[i])), ", ") + " ]"
  }

  /** The renderer writes out exactly the translated expression. */
  lemma {:induction false} GenerateIsPrintOfTranslate(d: Dialect, n: Node)
    ensures GenerateElement(d, n) == Print(d, Translate(n))
    decreases n
  {
    var e := Translate(n);
    var gen := seq(|n.children|, i requires 0 <= i < |n.children| => GenerateElement(d, n.children[i]));
    var args := seq(|n.children|, i requires 0 <= i < |n.children| => Translate(n.children[i]));
    var printed := seq(|args|, i requires 0 <= i < |args| => Print(d, args[i]));
    forall i | 0 <= i < |n.children| ensures gen[i] == printed[i] {
      GenerateIsPrintOfTranslate(d, n.children[i]);
    }
    assert gen == printed;
    if n.name != "svg" {
      var setters := e.setters;
      assert seq(|setters|, i requires 0 <= i < |setters| => AttributeCall(d, setters[i].0, setters[i].1))
          == GenerateAttrs(d, n.attributes);
    }
  }

  const ExamplePath := Node("path", [("d", "M0 0")], [])
  const ExampleGroup := Node("g", [], [ExamplePath])

  lemma ExamplePathText()
    ensures GenerateElement(Scripts, ExamplePath) == "S.path [ A.d \"M0 0\" ] [  ]"
  {
    var call := AttributeCall(Scripts, "d", "M0 0");
    ExamplePathAttrs();
    ExamplePathShape();
    assert Join([call], ", ") == call;
  }

  lemma ExamplePathAttrs()
    ensures GenerateAttrs(Scripts, ExamplePath.attributes) == [AttributeCall(Scripts, "d", "M0 0")]
    ensures AttributeCall(Scripts, "d", "M0 0") == "A.d \"M0 0\""
  {
    assert Camelize("d") == "d" by {
      assert "d"[1..] == "";
    }
  }

  lemma ExamplePathShape()
    ensures GenerateElement(Scripts, ExamplePath)
         == "S." + "path" + " [ " + Join(GenerateAttrs(Scripts, ExamplePath.attributes), ", ") + " ] [ " + "" + " ]"
  {
  }

  lemma ExampleGroupText()
    ensures GenerateElement(Scripts, ExampleGroup) == "S.g [  ] [ " + GenerateElement(Scripts, ExamplePath) + " ]"
  {
    var kids := seq(|ExampleGroup.children|, i requires 0 <= i < |ExampleGroup.children| => GenerateElement(Scripts, ExampleGroup.children[i]));
    assert kids == [GenerateElement(Scripts, ExamplePath)];
  }

  /** `svg > g > path[d="M0 0"]` renders as a one-element list holding the
      `g` call, which holds the one `path` call with its one `d` setter;
      the root's own attributes do not appear. */
  lemma SmallTreeExample()
    ensures GenerateElement(Scripts, Node("svg", [("viewBox", "0 0 256 256")], [ExampleGroup]))
         == "[ " + "S.g [  ] [ " + "S.path [ A.d \"M0 0\" ] [  ]" + " ]" + " ]"
  {
    var root := Node("svg", [("viewBox", "0 0 256 256")], [ExampleGroup]);
    ExamplePathText();
    ExampleGroupText();
    var kids := seq(|root.children|, i requires 0 <= i < |root.children| => GenerateElement(Scripts, root.children[i]));
    assert kids == [GenerateElement(Scripts, ExampleGroup)];
  }
}
