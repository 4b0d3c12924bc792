/** The glyphs of a page. The parser keeps one dictionary per glyph; id stands
    for the identity of that dictionary. */
module Glyphs {

  datatype Glyph = Glyph(id: nat, x0: real, y0: real, x1: real, y1: real, ch: string)

  function XMid(g: Glyph): real { (g.x0 + g.x1) / 2.0 }

  function YMid(g: Glyph): real { (g.y0 + g.y1) / 2.0 }

  /** Sort keys: left edge, and centre from the top of the page downwards. */
  function LeftEdge(g: Glyph): real { g.x0 }

  function FromTop(g: Glyph): real { -(g.y0 + g.y1) / 2.0 }

  /** Boxes as the page reader delivers them: edges already put in order. */
  ghost predicate WellFormed(chars: seq<Glyph>) {
    forall g | g in chars :: g.x0 <= g.x1 && g.y0 <= g.y1
  }

  /** Different list entries are different objects. */
  ghost predicate Distinct(chars: seq<Glyph>) {
    forall i, j | 0 <= i < j < |chars| :: chars[i].id != chars[j].id
  }

  function Heights(chars: seq<Glyph>): (r: seq<real>)
    ensures forall h | h in r :: h > 0.0
  {
    if chars == [] then []
    else
      var h := chars[0].y1 - chars[0].y0;
      (if h > 0.0 then [h] else []) + Heights(chars[1..])
  }

  function MaxReal(a: real, b: real): real { if a >= b then a else b }

  function MinReal(a: real, b: real): real { if a <= b then a else b }

  function AbsReal(a: real): real { if a >= 0.0 then a else -a }
}
