/** A reader for the Elm expressions the renderer writes, and the proof
    that rendering loses nothing: reading back the rendered text of an
    element tree yields exactly the Elm expression the tree stands for. */
module ElmParse {
  import opened Wrappers
  import opened Text
  import opened Naming
  import opened Render

  /** Tag and setter names contain no space and values no double quote,
      as XML names and parsed attribute values of the icon set do. */
  predicate WfExpr(e: Expr)
    decreases e
  {
    match e
    case List(items) => forall i :: 0 <= i < |items| ==> WfExpr(items[i])
    case Call(tag, setters, args) =>
      && ' ' !in tag
      && (forall i :: 0 <= i < |setters| ==> ' ' !in setters[i].0 && '"' !in setters[i].1)
      && (forall i :: 0 <= i < |args| ==> WfExpr(args[i]))
  }

  predicate WfNode(n: Node)
    decreases n
  {
    && ' ' !in n.name
    && (forall i :: 0 <= i < |n.attributes| ==> ' ' !in n.attributes[i].0 && '"' !in n.attributes[i].1)
    && (forall i :: 0 <= i < |n.children| ==> WfNode(n.children[i]))
  }

  predicate StartsWith(s: string, t: string) {
    |t| <= |s| && s[..|t|] == t
  }

  /** The longest prefix of `s` without `stop`, and what follows it. */
  function Span(s: string, stop: char): (r: (string, string))
    ensures r.0 + r.1 == s
    ensures stop !in r.0
    ensures |r.1| == 0 || r.1[0] == stop
  {
    if |s| == 0 then ("", "")
    else if s[0] == stop then ("", s)
    else
      var r := Span(s[1..], stop);
      assert [s[0]] + r.0 + r.1 == s;
      ([s[0]] + r.0, r.1)
  }

  lemma {:induction false} SpanOf(w: string, rest: string, stop: char)
    requires stop !in w && |rest| > 0 && rest[0] == stop
    ensures Span(w + rest, stop) == (w, rest)
  {
    if |w| == 0 {
      assert w + rest == rest;
    } else {
      assert (w + rest)[0] == w[0] && w[0] != stop;
      assert (w + rest)[1..] == w[1..] + rest;
      assert stop !in w[1..];
      SpanOf(w[1..], rest, stop);
      assert [w[0]] + w[1..] == w;
    }
  }

  /** One setter call `<prefix><name> "<value>"`. */
  function ParseSetter(d: Dialect, s: string): (r: Option<((string, string), string)>)
    ensures r.Some? ==> |r.value.1| < |s|
  {
    var p := AttributePrefix(d);
    if !StartsWith(s, p) then None
    else
      var (name, r1) := Span(s[|p|..], ' ');
      if !StartsWith(r1, " \"") then None
      else
        var (value, r2) := Span(r1[2..], '"');
        if !StartsWith(r2, "\"") then None
        else Some(((name, value), r2[1..]))
  }

  /** A non-empty setter list up to and including its closing ` ] [ `. */
  function ParseSetterList(d: Dialect, s: string): (r: Option<(seq<(string, string)>, string)>)
    ensures r.Some? ==> |r.value.1| < |s|
    decreases |s|
  {
    match ParseSetter(d, s)
    case None => None
    case Some((a, r)) =>
      if StartsWith(r, ", ") then
        match ParseSetterList(d, r[2..])
        case None => None
        case Some((more, r')) => Some(([a] + more, r'))
      else if StartsWith(r, " ] [ ") then Some(([a], r[5..]))
      else None
  }

  /** A setter list, possibly empty, up to and including ` ] [ `. */
  function ParseSetters(d: Dialect, s: string): (r: Option<(seq<(string, string)>, string)>)
    ensures r.Some? ==> |r.value.1| < |s|
  {
    if StartsWith(s, " ] [ ") then Some(([], s[5..])) else ParseSetterList(d, s)
  }

  /** One expression: a list literal or a constructor call. */
  function ParseExpr(d: Dialect, s: string): (r: Option<(Expr, string)>)
    ensures r.Some? ==> |r.value.1| < |s|
    decreases |s|, 0
  {
    if StartsWith(s, "[ ") then
      match ParseItems(d, s[2..])
      case None => None
      case Some((items, rest)) => Some((List(items), rest))
    else if StartsWith(s, ElementPrefix(d)) then
      var (tag, r1) := Span(s[|ElementPrefix(d)|..], ' ');
      if !StartsWith(r1, " [ ") then None
      else
        match ParseSetters(d, r1[3..])
        case None => None
        case Some((setters, r2)) =>
          match ParseItems(d, r2)
          case None => None
          case Some((args, r3)) => Some((Call(tag, setters, args), r3))
    else None
  }

  /** A non-empty expression list up to and including its closing ` ]`. */
  function ParseItemList(d: Dialect, s: string): (r: Option<(seq<Expr>, string)>)
    ensures r.Some? ==> |r.value.1| < |s|
    decreases |s|, 1
  {
    match ParseExpr(d, s)
    case None => None
    case Some((e, r)) =>
      if StartsWith(r, ", ") then
        match ParseItemList(d, r[2..])
        case None => None
        case Some((more, r')) => Some(([e] + more, r'))
      else if StartsWith(r, " ]") then Some(([e], r[2..]))
      else None
  }

  /** An expression list, possibly empty, up to and including ` ]`. */
  function ParseItems(d: Dialect, s: string): (r: Option<(seq<Expr>, string)>)
    ensures r.Some? ==> |r.value.1| < |s|
    decreases |s|, 2
  {
    if StartsWith(s, " ]") then Some(([], s[2..])) else ParseItemList(d, s)
  }

  /** The whole text is one expression. */
  function Parse(d: Dialect, s: string): (r: Option<Expr>)
  {
    match ParseExpr(d, s)
    case Some((e, rest)) => if rest == "" then Some(e) else None
    case None => None
  }

  function Printed(d: Dialect, es: seq<Expr>): (r: seq<string>)
    ensures |r| == |es|
    ensures forall i :: 0 <= i < |es| ==> r[i] == Print(d, es[i])
  {
    seq(|es|, i requires 0 <= i < |es| => Print(d, es[i]))
  }

  function SetterCalls(d: Dialect, setters: seq<(string, string)>): (r: seq<string>)
    ensures |r| == |setters|
    ensures forall i :: 0 <= i < |setters| ==> r[i] == AttributeCall(d, setters[i].0, setters[i].1)
  {
    seq(|setters|, i requires 0 <= i < |setters| => AttributeCall(d, setters[i].0, setters[i].1))
  }

  lemma PrintShape(d: Dialect, e: Expr)
    ensures e.List? ==> Print(d, e) == "[ " + Join(Printed(d, e.items), ", ") + " ]"
    ensures e.Call? ==> Print(d, e) == ElementPrefix(d) + e.tag + " [ " + Join(SetterCalls(d, e.setters), ", ")
                                       + " ] [ " + Join(Printed(d, e.args), ", ") + " ]"
    ensures |Print(d, e)| > 0 && Print(d, e)[0] != ' '
  {
    match e
    case List(items) =>
      assert seq(|items|, i requires 0 <= i < |items| => Print(d, items[i])) == Printed(d, items);
    case Call(tag, setters, args) =>
      assert seq(|setters|, i requires 0 <= i < |setters| => AttributeCall(d, setters[i].0, setters[i].1))
          == SetterCalls(d, setters);
      assert seq(|args|, i requires 0 <= i < |args| => Print(d, args[i])) == Printed(d, args);
  }

  lemma JoinCons(parts: seq<string>, sep: string)
    requires |parts| > 1
    ensures Join(parts, sep) == parts[0] + sep + Join(parts[1..], sep)
  {
  }

  lemma SetterListLast(d: Dialect, s: string, a: (string, string), rest: string)
    requires ParseSetter(d, s) == Some((a, " ] [ " + rest))
    ensures ParseSetterList(d, s) == Some(([a], rest))
  {
    var r := " ] [ " + rest;
    assert !StartsWith(r, ", ") by { assert r[0] == ' '; }
    assert r[5..] == rest;
  }

  lemma SetterListMore(d: Dialect, s: string, a: (string, string), tail: string, more: seq<(string, string)>, rest: string)
    requires ParseSetter(d, s) == Some((a, ", " + tail))
    requires ParseSetterList(d, tail) == Some((more, rest))
    ensures ParseSetterList(d, s) == Some(([a] + more, rest))
  {
    assert (", " + tail)[2..] == tail;
  }

  lemma ItemListLast(d: Dialect, s: string, e: Expr, rest: string)
    requires ParseExpr(d, s) == Some((e, " ]" + rest))
    ensures ParseItemList(d, s) == Some(([e], rest))
  {
    var r := " ]" + rest;
    assert !StartsWith(r, ", ") by { assert r[0] == ' '; }
    assert r[2..] == rest;
  }

  lemma ItemListMore(d: Dialect, s: string, e: Expr, tail: string, more: seq<Expr>, rest: string)
    requires ParseExpr(d, s) == Some((e, ", " + tail))
    requires ParseItemList(d, tail) == Some((more, rest))
    ensures ParseItemList(d, s) == Some(([e] + more, rest))
  {
    assert (", " + tail)[2..] == tail;
  }

  lemma ReadSetter(d: Dialect, a: (string, string), rest: string)
    requires ' ' !in a.0 && '"' !in a.1
    ensures ParseSetter(d, AttributeCall(d, a.0, a.1) + rest) == Some((a, rest))
  {
    var p := AttributePrefix(d);
    Regroup6(p, a.0, " \"", a.1, "\"", rest);
    SetterStep(d, a.0, a.1, rest);
  }

  lemma Regroup6(a: string, b: string, c: string, x: string, y: string, r: string)
    ensures a + b + c + x + y + r == a + (b + (c + (x + (y + r))))
  {
  }

  /** One setter call is read when its name has no space and its value no quote. */
  lemma SetterStep(d: Dialect, name: string, value: string, rest: string)
    requires ' ' !in name && '"' !in value
    ensures ParseSetter(d, AttributePrefix(d) + (name + (" \"" + (value + ("\"" + rest))))) == Some(((name, value), rest))
  {
    var p := AttributePrefix(d);
    var r2 := "\"" + rest;
    var r1 := " \"" + (value + r2);
    var s := p + (name + r1);
    assert s[..|p|] == p && s[|p|..] == name + r1;
    SpanOf(name, r1, ' ');
    assert r1[..2] == " \"" && r1[2..] == value + r2;
    SpanOf(value, r2, '"');
    assert r2[..1] == "\"" && r2[1..] == rest;
  }

  lemma {:induction false} ReadSetterList(d: Dialect, setters: seq<(string, string)>, rest: string)
    requires |setters| > 0
    requires forall i :: 0 <= i < |setters| ==> ' ' !in setters[i].0 && '"' !in setters[i].1
    ensures ParseSetterList(d, Join(SetterCalls(d, setters), ", ") + " ] [ " + rest) == Some((setters, rest))
    decreases |setters|, 1
  {
    if |setters| == 1 {
      ReadLastSetter(d, setters, rest);
    } else {
      ReadSetterCons(d, setters, rest);
    }
  }

  lemma ReadLastSetter(d: Dialect, setters: seq<(string, string)>, rest: string)
    requires |setters| == 1
    requires ' ' !in setters[0].0 && '"' !in setters[0].1
    ensures ParseSetterList(d, Join(SetterCalls(d, setters), ", ") + " ] [ " + rest) == Some((setters, rest))
  {
    var a := setters[0];
    var calls := SetterCalls(d, setters);
    var s := Join(calls, ", ") + " ] [ " + rest;
    var r := " ] [ " + rest;
    assert Join(calls, ", ") == calls[0] == AttributeCall(d, a.0, a.1);
    assert s == AttributeCall(d, a.0, a.1) + r;
    ReadSetter(d, a, r);
    SetterListLast(d, s, a, rest);
    assert [a] == setters;
  }

  lemma {:induction false} ReadSetterCons(d: Dialect, setters: seq<(string, string)>, rest: string)
    requires |setters| > 1
    requires forall i :: 0 <= i < |setters| ==> ' ' !in setters[i].0 && '"' !in setters[i].1
    ensures ParseSetterList(d, Join(SetterCalls(d, setters), ", ") + " ] [ " + rest) == Some((setters, rest))
    decreases |setters|, 0
  {
    var a := setters[0];
    var more := setters[1..];
    assert [a] + more == setters;
    var tail := Join(SetterCalls(d, more), ", ") + " ] [ " + rest;
    ReadSetter(d, a, ", " + tail);
    ReadSetterList(d, more, rest);
    SetterConsStep(d, a, more, rest);
  }

  /** Reading the first setter and then the rest of the list reads the whole list. */
  lemma SetterConsStep(d: Dialect, a: (string, string), more: seq<(string, string)>, rest: string)
    requires |more| > 0
    requires ParseSetter(d, AttributeCall(d, a.0, a.1) + (", " + (Join(SetterCalls(d, more), ", ") + " ] [ " + rest)))
          == Some((a, ", " + (Join(SetterCalls(d, more), ", ") + " ] [ " + rest)))
    requires ParseSetterList(d, Join(SetterCalls(d, more), ", ") + " ] [ " + rest) == Some((more, rest))
    ensures ParseSetterList(d, Join(SetterCalls(d, [a] + more), ", ") + " ] [ " + rest) == Some(([a] + more, rest))
  {
    var setters := [a] + more;
    assert setters[0] == a && setters[1..] == more;
    SetterConsText(d, setters, rest);
    var tail := Join(SetterCalls(d, more), ", ") + " ] [ " + rest;
    SetterListMore(d, Join(SetterCalls(d, setters), ", ") + " ] [ " + rest, a, tail, more, rest);
  }

  lemma SetterConsText(d: Dialect, setters: seq<(string, string)>, rest: string)
    requires |setters| > 1
    ensures Join(SetterCalls(d, setters), ", ") + " ] [ " + rest
         == AttributeCall(d, setters[0].0, setters[0].1) + (", " + (Join(SetterCalls(d, setters[1..]), ", ") + " ] [ " + rest))
  {
    var calls := SetterCalls(d, setters);
    JoinCons(calls, ", ");
    assert calls[1..] == SetterCalls(d, setters[1..]);
    Regroup5(calls[0], ", ", Join(calls[1..], ", "), " ] [ ", rest);
  }

  lemma Regroup5(a: string, b: string, c: string, x: string, r: string)
    ensures a + b + c + x + r == a + (b + (c + x + r))
  {
  }

  lemma ReadSetters(d: Dialect, setters: seq<(string, string)>, rest: string)
    requires forall i :: 0 <= i < |setters| ==> ' ' !in setters[i].0 && '"' !in setters[i].1
    ensures ParseSetters(d, Join(SetterCalls(d, setters), ", ") + " ] [ " + rest) == Some((setters, rest))
  {
    var calls := SetterCalls(d, setters);
    var s := Join(calls, ", ") + " ] [ " + rest;
    if |setters| == 0 {
      assert s == " ] [ " + rest;
    } else {
      assert calls[0][0] == AttributePrefix(d)[0];
      assert Join(calls, ", ")[0] == calls[0][0] by {
        if |calls| > 1 { JoinCons(calls, ", "); }
      }
      assert s[0] == Join(calls, ", ")[0];
      assert !StartsWith(s, " ] [ ");
      ReadSetterList(d, setters, rest);
    }
  }

  /** The children of a list literal or of a constructor call. */
  function Children(e: Expr): seq<Expr> {
    if e.List? then e.items else e.args
  }

  /** Reading back the text of a well-formed expression gives the
      expression and leaves whatever follows it. */
  lemma {:induction false} ReadExpr(d: Dialect, e: Expr, rest: string)
    requires WfExpr(e)
    ensures ParseExpr(d, Print(d, e) + rest) == Some((e, rest))
    decreases e, 3
  {
    if e.List? {
      ReadList(d, e, rest);
    } else {
      ReadCall(d, e, rest);
    }
  }

  lemma {:induction false} ReadList(d: Dialect, e: Expr, rest: string)
    requires WfExpr(e) && e.List?
    ensures ParseExpr(d, Print(d, e) + rest) == Some((e, rest))
    decreases e, 2
  {
    PrintShape(d, e);
    var tail := Join(Printed(d, e.items), ", ") + " ]" + rest;
    assert Print(d, e) + rest == "[ " + tail;
    ReadItems(d, e, rest);
  }

  lemma {:induction false} ReadCall(d: Dialect, e: Expr, rest: string)
    requires WfExpr(e) && e.Call?
    ensures ParseExpr(d, Print(d, e) + rest) == Some((e, rest))
    decreases e, 2
  {
    var setterText := Join(SetterCalls(d, e.setters), ", ");
    var y := Join(Printed(d, e.args), ", ") + " ]" + rest;
    CallText(d, e, rest);
    ReadSetters(d, e.setters, y);
    ReadItems(d, e, rest);
    CallStep(d, e.tag, setterText + " ] [ " + y, e.setters, y, e.args, rest);
  }

  /** The text of a call, grouped the way the reader takes it apart. */
  lemma CallText(d: Dialect, e: Expr, rest: string)
    requires e.Call?
    ensures Print(d, e) + rest == ElementPrefix(d) + (e.tag + (" [ " + (Join(SetterCalls(d, e.setters), ", ") + " ] [ " + (Join(Printed(d, e.args), ", ") + " ]" + rest))))
  {
    PrintShape(d, e);
    Regroup(ElementPrefix(d), e.tag, " [ ", Join(SetterCalls(d, e.setters), ", "), " ] [ ", Join(Printed(d, e.args), ", "), " ]", rest);
  }

  lemma Regroup(p: string, t: string, u: string, v: string, w: string, x: string, y: string, r: string)
    ensures p + t + u + v + w + x + y + r == p + (t + (u + (v + w + (x + y + r))))
  {
  }

  /** One constructor call is read when its setters and then its children are. */
  lemma CallStep(d: Dialect, tag: string, x: string, setters: seq<(string, string)>, y: string, args: seq<Expr>, rest: string)
    requires ' ' !in tag
    requires ParseSetters(d, x) == Some((setters, y))
    requires ParseItems(d, y) == Some((args, rest))
    ensures ParseExpr(d, ElementPrefix(d) + (tag + (" [ " + x))) == Some((Call(tag, setters, args), rest))
  {
    CallPrefix(d, tag, x);
    SpanOf(tag, " [ " + x, ' ');
    var r1 := " [ " + x;
    assert StartsWith(r1, " [ ") && r1[3..] == x;
  }

  /** The text of a call is not a list's, and after the element prefix comes the tag. */
  lemma CallPrefix(d: Dialect, tag: string, x: string)
    ensures var s := ElementPrefix(d) + (tag + (" [ " + x));
            !StartsWith(s, "[ ") && StartsWith(s, ElementPrefix(d)) && s[|ElementPrefix(d)|..] == tag + (" [ " + x)
  {
    var p := ElementPrefix(d);
    var r1 := " [ " + x;
    var s := p + (tag + r1);
    assert s[0] == p[0];
    assert s[..|p|] == p;
    assert s[|p|..] == tag + r1;
  }

  /** Reading back the children of `parent`, closed by ` ]`. */
  lemma {:induction false} ReadItems(d: Dialect, parent: Expr, rest: string)
    requires WfExpr(parent)
    ensures ParseItems(d, Join(Printed(d, Children(parent)), ", ") + " ]" + rest) == Some((Children(parent), rest))
    decreases parent, 1
  {
    var es := Children(parent);
    var s := Join(Printed(d, es), ", ") + " ]" + rest;
    if |es| == 0 {
      assert s == " ]" + rest;
    } else {
      PrintShape(d, es[0]);
      assert Join(Printed(d, es), ", ")[0] == Print(d, es[0])[0] by {
        if |es| > 1 { JoinCons(Printed(d, es), ", "); }
      }
      assert s[0] == Join(Printed(d, es), ", ")[0];
      assert !StartsWith(s, " ]");
      ReadItemList(d, parent, 0, rest);
      assert es[0..] == es;
    }
  }

  /** The same for the children of `parent` from index `j` on. */
  lemma {:induction false} ReadItemList(d: Dialect, parent: Expr, j: nat, rest: string)
    requires WfExpr(parent) && j < |Children(parent)|
    ensures ParseItemList(d, Join(Printed(d, Children(parent)[j..]), ", ") + " ]" + rest)
         == Some((Children(parent)[j..], rest))
    decreases parent, 0, |Children(parent)| - j, 1
  {
    if j + 1 == |Children(parent)| {
      ReadLastItem(d, parent, j, rest);
    } else {
      ReadItemCons(d, parent, j, rest);
    }
  }

  lemma {:induction false} ReadLastItem(d: Dialect, parent: Expr, j: nat, rest: string)
    requires WfExpr(parent) && j + 1 == |Children(parent)|
    ensures ParseItemList(d, Join(Printed(d, Children(parent)[j..]), ", ") + " ]" + rest)
         == Some((Children(parent)[j..], rest))
    decreases parent, 0, 0, 0
  {
    var es := Children(parent)[j..];
    var e0 := es[0];
    assert e0 == Children(parent)[j];
    assert WfExpr(e0);
    var prints := Printed(d, es);
    assert Join(prints, ", ") + " ]" + rest == Print(d, e0) + (" ]" + rest);
    ReadExpr(d, e0, " ]" + rest);
    ItemListLast(d, Join(prints, ", ") + " ]" + rest, e0, rest);
    assert es == [e0];
  }

  lemma ConsText(d: Dialect, es: seq<Expr>, rest: string)
    requires |es| > 1
    ensures Join(Printed(d, es), ", ") + " ]" + rest
         == Print(d, es[0]) + (", " + (Join(Printed(d, es[1..]), ", ") + " ]" + rest))
  {
    var prints := Printed(d, es);
    JoinCons(prints, ", ");
    assert prints[1..] == Printed(d, es[1..]);
    Regroup5(prints[0], ", ", Join(prints[1..], ", "), " ]", rest);
  }

  lemma {:induction false} ReadItemCons(d: Dialect, parent: Expr, j: nat, rest: string)
    requires WfExpr(parent) && j + 1 < |Children(parent)|
    ensures ParseItemList(d, Join(Printed(d, Children(parent)[j..]), ", ") + " ]" + rest)
         == Some((Children(parent)[j..], rest))
    decreases parent, 0, |Children(parent)| - j, 0
  {
    var e0 := Children(parent)[j];
    var more := Children(parent)[j + 1..];
    ChildSplit(parent, j);
    var tail := Join(Printed(d, more), ", ") + " ]" + rest;
    ReadExpr(d, e0, ", " + tail);
    ReadItemList(d, parent, j + 1, rest);
    ItemConsStep(d, e0, more, rest);
  }

  /** The children from `j` on are the `j`-th child, a well-formed
      expression smaller than its parent, followed by the rest. */
  lemma ChildSplit(parent: Expr, j: nat)
    requires WfExpr(parent) && j + 1 < |Children(parent)|
    ensures Children(parent)[j..] == [Children(parent)[j]] + Children(parent)[j + 1..]
    ensures WfExpr(Children(parent)[j]) && Children(parent)[j] < parent
  {
  }

  /** Reading the first item and then the rest of the list reads the whole list. */
  lemma ItemConsStep(d: Dialect, e0: Expr, more: seq<Expr>, rest: string)
    requires |more| > 0
    requires ParseExpr(d, Print(d, e0) + (", " + (Join(Printed(d, more), ", ") + " ]" + rest)))
          == Some((e0, ", " + (Join(Printed(d, more), ", ") + " ]" + rest)))
    requires ParseItemList(d, Join(Printed(d, more), ", ") + " ]" + rest) == Some((more, rest))
    ensures ParseItemList(d, Join(Printed(d, [e0] + more), ", ") + " ]" + rest) == Some(([e0] + more, rest))
  {
    var es := [e0] + more;
    assert es[0] == e0 && es[1..] == more;
    ConsText(d, es, rest);
    var tail := Join(Printed(d, more), ", ") + " ]" + rest;
    ItemListMore(d, Join(Printed(d, es), ", ") + " ]" + rest, e0, tail, more, rest);
  }

  /** A well-formed element tree stands for a well-formed expression: the
      dash rewrite introduces no space. */
  lemma {:induction false} TranslateWellFormed(n: Node)
    requires WfNode(n)
    ensures WfExpr(Translate(n))
    decreases n
  {
    var e := Translate(n);
    forall i | 0 <= i < |n.children| ensures WfExpr(Translate(n.children[i])) {
      TranslateWellFormed(n.children[i]);
    }
    assert forall i :: 0 <= i < |Children(e)| ==> Children(e)[i] == Translate(n.children[i]);
    if e.Call? {
      forall i | 0 <= i < |e.setters| ensures ' ' !in e.setters[i].0 && '"' !in e.setters[i].1 {
        assert e.setters[i] == (Camelize(n.attributes[i].0), n.attributes[i].1);
      }
    }
  }

  /** Rendering loses nothing: the rendered text of a well-formed element
      tree reads back as exactly the Elm expression the tree stands for. */
  lemma RenderRoundTrip(d: Dialect, n: Node)
    requires WfNode(n)
    ensures Parse(d, GenerateElement(d, n)) == Some(Translate(n))
  {
    GenerateIsPrintOfTranslate(d, n);
    TranslateWellFormed(n);
    ReadExpr(d, Translate(n), "");
    assert Print(d, Translate(n)) + "" == Print(d, Translate(n));
  }

  /** Two well-formed trees render to the same text only when they stand for
      the same Elm expression. */
  lemma RenderInjective(d: Dialect, a: Node, b: Node)
    requires WfNode(a) && WfNode(b)
    ensures GenerateElement(d, a) == GenerateElement(d, b) <==> Translate(a) == Translate(b)
  {
    RenderRoundTrip(d, a);
    RenderRoundTrip(d, b);
    GenerateIsPrintOfTranslate(d, a);
    GenerateIsPrintOfTranslate(d, b);
  }
}
