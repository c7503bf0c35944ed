/** Layout: what may stand between two tokens, and where in an expression it stands. */
module CslLayout {
  import opened CslSyntax

  datatype Filler = Blank(c: char) | LineComment(text: string) | BlockComment(text: string)

  /** A line comment has no line break in it, and a block comment no end mark before its end. */
  predicate FillerOk(f: Filler) {
    match f
    case Blank(c) => IsSpace(c)
    case LineComment(text) => '\n' !in text
    case BlockComment(text) => forall k :: 0 <= k < |text| ==> !("*/" <= (text + "*/")[k..])
  }

  type Gap = g: seq<Filler> | forall f | f in g :: FillerOk(f)

  /** A gap that keeps two words apart. */
  type Separator = g: Gap | g != [] witness [Blank(' ')]

  /** A gap that may follow a slash. */
  type Calm = g: Gap | g != [] ==> g[0].Blank?

  function FillerText(f: Filler): string {
    match f
    case Blank(c) => [c]
    case LineComment(text) => "//" + text + "\n"
    case BlockComment(text) => "/*" + text + "*/"
  }

  function GapText(g: Gap): string {
    if g == [] then "" else FillerText(g[0]) + GapText(g[1..])
  }

  /** The gaps of one node: on either side of an operator, between its words, inside brackets, behind an element, and
    * between a name and its arguments. */
  datatype Spacing = Spacing(left: Gap, separator: Separator, inner: Gap, right: Gap, calm: Calm, open: Gap, close: Gap,
                             trail: Gap, call: Gap)

  /** A spacing for each node of a tree, found by its address. */
  type Layout = seq<nat> -> Spacing

  /** The layout of the `i`-th child. */
  function Under(lay: Layout, i: nat): Layout {
    (address: seq<nat>) => lay([i] + address)
  }

  const BLANK: Separator := [Blank(' ')]

  /** One blank around operators and behind commas. */
  const PLAIN: Layout := (address: seq<nat>) => Spacing(BLANK, BLANK, BLANK, BLANK, BLANK, [], [], [], [])
}
