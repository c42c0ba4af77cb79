/**
 * The line styling of include/cdv/elem/line_properties.hpp: a dash pattern
 * named by a short matplotlib-style code or a word, and the defaults of a
 * line's properties.
 */
module LineProperties {
  import opened RgbaColor

  datatype CapStyle = Butt | Square | Round
  datatype JoinStyle = Miter | RoundJoin | Bevel

  /** The dash sequence: alternating lengths drawn and skipped, in points; empty for a solid line. */
  datatype LineType = LineType(dashSequence: seq<real>)

  /** A sequence of on/off lengths: an even number of them, each positive. */
  predicate DashPattern(ds: seq<real>)
  {
    |ds| % 2 == 0 && forall i :: 0 <= i < |ds| ==> ds[i] > 0.0
  }

  /** The style names that select a dash pattern. */
  const DashedNames: set<string> := {"--", "dashed", "-.", "dashdot", ":", "dotted"}

  /**
   * The line_type constructor from a string: "-" and "solid" are solid,
   * "--" and "dashed", "-." and "dashdot", ":" and "dotted" select their
   * dash patterns, and any other string is silently a solid line.
   */
  function LineTypeOf(s: string): (t: LineType)
    ensures DashPattern(t.dashSequence)
    ensures t.dashSequence != [] <==> s in DashedNames
    ensures (s == "--" || s == "dashed") ==> t.dashSequence == [3.7, 1.6]
    ensures (s == "-." || s == "dashdot") ==> t.dashSequence == [6.4, 1.6, 1.0, 1.6]
    ensures (s == ":" || s == "dotted") ==> t.dashSequence == [1.0, 1.65]
  {
    if s == "-" || s == "solid" then LineType([])
    else if s == "--" || s == "dashed" then LineType([3.7, 1.6])
    else if s == "-." || s == "dashdot" then LineType([6.4, 1.6, 1.0, 1.6])
    else if s == ":" || s == "dotted" then LineType([1.0, 1.65])
    else LineType([])
  }

  /** Each short code names the same pattern as its word. */
  lemma CodesMatchWords()
    ensures LineTypeOf("-") == LineTypeOf("solid")
    ensures LineTypeOf("--") == LineTypeOf("dashed")
    ensures LineTypeOf("-.") == LineTypeOf("dashdot")
    ensures LineTypeOf(":") == LineTypeOf("dotted")
  {
  }

  /** An unrecognised name is not an error: it draws a solid line. */
  lemma UnknownIsSolid(s: string)
    requires s !in DashedNames
    ensures LineTypeOf(s) == LineTypeOf("solid")
  {
  }

  datatype LineProperties = LineProperties(color: RgbaColor, width: real, cap: CapStyle, join: JoinStyle, style: LineType)

  /** The defaults of line_properties: black, one point wide, butt caps, miter joins, a solid line. */
  const DefaultLineProperties := LineProperties(RgbaColor(0x0000_00ff), 1.0, Butt, Miter, LineTypeOf("-"))

  /** The default line is opaque black and solid. */
  lemma DefaultsAreSolidBlack()
    ensures DefaultLineProperties.style.dashSequence == []
    ensures DefaultLineProperties.color == DefaultColor
    ensures AlphaByte(DefaultLineProperties.color.value) == 0xff
    ensures Red(DefaultLineProperties.color.value) == 0 && Green(DefaultLineProperties.color.value) == 0
    ensures Blue(DefaultLineProperties.color.value) == 0
  {
  }
}
