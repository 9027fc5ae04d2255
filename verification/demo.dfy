/** The Elm demo page the per-weight revision writes next to the library:
    a weight and a size, changed by four messages. Elm's `Float` is a
    `real` here, and `String.toFloat` is a parameter. */
module Demo {
  import opened Wrappers
  import opened Weights

  datatype Model = Model(weight: Weight, size: real)

  /** `init`: thin icons, 64 pixels. */
  const Init: Model := Model(Thin, 64.0)

  datatype Msg = SetWeight(weight: string) | SetSize(size: string) | Reset | NoOp

  const MinSize: real := 4.0
  const MaxSize: real := 2000.0
  const DefaultSize: real := 128.0

  /** Elm's `clamp low high x`. */
  function Clamp(low: real, high: real, x: real): (r: real)
    requires low <= high
    ensures low <= r <= high
    ensures low <= x <= high ==> r == x
    ensures x < low ==> r == low
    ensures x > high ==> r == high
  {
    if x < low then low else if x > high then high else x
  }

  /** `parseWeight`: a weight's key names it; every other string is regular. */
  function ParseWeight(s: string): (w: Weight)
    ensures w != Regular ==> s == Key(w)
  {
    match s
    case "thin" => Thin
    case "light" => Light
    case "bold" => Bold
    case "fill" => Fill
    case "duotone" => Duotone
    case _ => Regular
  }

  /** The size a `SetSize` text asks for: its number, 128 when it is not
      one, kept between 4 and 2000. */
  function ParseSize(toFloat: string -> Option<real>, s: string): (r: real)
    ensures MinSize <= r <= MaxSize
    ensures toFloat(s).None? ==> r == DefaultSize
    ensures toFloat(s).Some? && MinSize <= toFloat(s).value <= MaxSize ==> r == toFloat(s).value
  {
    Clamp(MinSize, MaxSize, match toFloat(s) case Some(x) => x case None => DefaultSize)
  }

  function Update(toFloat: string -> Option<real>, msg: Msg, model: Model): (m: Model)
    ensures msg.SetWeight? ==> m.size == model.size && m.weight == ParseWeight(msg.weight)
    ensures msg.SetSize? ==> m.weight == model.weight && m.size == ParseSize(toFloat, msg.size)
    ensures msg.SetSize? ==> MinSize <= m.size <= MaxSize
    ensures msg.SetSize? && toFloat(msg.size).None? ==> m.size == DefaultSize
    ensures msg.Reset? ==> m == Init
    ensures msg.NoOp? ==> m == model
  {
    match msg
    case SetWeight(s) => model.(weight := ParseWeight(s))
    case SetSize(s) => model.(size := ParseSize(toFloat, s))
    case Reset => Init
    case NoOp => model
  }

  /** The page after a run of messages, starting from `init`. */
  function Run(toFloat: string -> Option<real>, msgs: seq<Msg>): Model {
    if |msgs| == 0 then Init else Update(toFloat, msgs[|msgs| - 1], Run(toFloat, msgs[..|msgs| - 1]))
  }

  /** Parsing undoes the key of every weight, and a string that is no key
      parses to regular. */
  lemma ParseWeightKey(s: string, w: Weight)
    ensures ParseWeight(Key(w)) == w
    ensures ParseWeight(s) == Regular <==> forall v: Weight :: v != Regular ==> s != Key(v)
  {
    if ParseWeight(s) != Regular {
      var v := ParseWeight(s);
      assert v != Regular && s == Key(v);
    }
  }

  /** The size shown is always between 4 and 2000, whatever was typed. */
  lemma {:induction false} RunSizeBounded(toFloat: string -> Option<real>, msgs: seq<Msg>)
    ensures MinSize <= Run(toFloat, msgs).size <= MaxSize
  {
    if |msgs| > 0 {
      RunSizeBounded(toFloat, msgs[..|msgs| - 1]);
    }
  }

  /** Only the last `SetWeight` since the last `Reset` decides the weight. */
  lemma {:induction false} RunWeight(toFloat: string -> Option<real>, msgs: seq<Msg>)
    ensures Run(toFloat, msgs).weight ==
              match LastWeightMsg(msgs)
              case None => Thin
              case Some(s) => ParseWeight(s)
  {
    if |msgs| > 0 {
      RunWeight(toFloat, msgs[..|msgs| - 1]);
    }
  }

  /** The text of the last `SetWeight` after the last `Reset`, if any. */
  function LastWeightMsg(msgs: seq<Msg>): Option<string> {
    if |msgs| == 0 then None
    else
      match msgs[|msgs| - 1]
      case SetWeight(s) => Some(s)
      case Reset => None
      case _ => LastWeightMsg(msgs[..|msgs| - 1])
  }
}
