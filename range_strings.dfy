/**
 * The canonical "runtime style" string of a dependency, the form in which a
 * lock file records the dependencies a project declared: the name, a space,
 * and, when there is a version range, ">= " with the lower bound and the
 * upper bound written directly after it.
 */
module RangeStrings {
  import opened Wrappers
  import opened Text
  import opened Versioning
  import opened LibraryModel

  /** The lower bound as printed: the float pattern of a floating range, else the full minimum version. */
  function LowerBoundText(vr: VersionRange): string
    requires Renderable(vr)
  {
    if vr.isFloating then vr.float.value.text else vr.minVersion.value.text
  }

  /** The upper bound as printed: nothing without a maximum, else "<= " or "< " and its numeric version. */
  function UpperBoundText(vr: VersionRange): string
  {
    match vr.maxVersion
    case None => ""
    case Some(m) => (if vr.isMaxInclusive then "<= " else "< ") + m.versionText
  }

  /** The canonical string of a dependency on `name` constrained by `range`. */
  function RangeText(name: string, range: Option<VersionRange>): string
    requires RangeRenderable(range)
  {
    match range
    case None => name + " "
    case Some(vr) => name + " " + ">= " + LowerBoundText(vr) + UpperBoundText(vr)
  }

  function DependencyText(d: LibraryDependency): string
    requires DependencyRenderable(d)
  {
    RangeText(d.libraryRange.name, d.libraryRange.versionRange)
  }

  /** Every dependency rendered, in order (`Select` with the renderer). */
  function RenderAll(deps: seq<LibraryDependency>): (r: seq<string>)
    requires AllRenderable(deps)
    ensures |r| == |deps|
    ensures forall i :: 0 <= i < |deps| ==> r[i] == DependencyText(deps[i])
  {
    seq(|deps|, i requires 0 <= i < |deps| => DependencyText(deps[i]))
  }

  /** An upper bound as the canonical string keeps it. */
  datatype UpperBound = UpperBound(inclusive: bool, versionText: string)

  /** What the canonical string keeps of a version range. */
  datatype RenderedRange = RenderedRange(lower: string, upper: Option<UpperBound>)

  /** A canonical string taken apart: the name and, when present, the rendered range. */
  datatype ParsedRange = ParsedRange(name: string, range: Option<RenderedRange>)

  /**
   * The part of a range that reaches its canonical string. Whether the lower
   * bound is inclusive, the minimum version of a floating range and the
   * release label of the maximum do not.
   */
  function Retained(range: Option<VersionRange>): Option<RenderedRange>
    requires RangeRenderable(range)
  {
    match range
    case None => None
    case Some(vr) =>
      var upper := match vr.maxVersion
        case None => None
        case Some(m) => Some(UpperBound(vr.isMaxInclusive, m.versionText));
      Some(RenderedRange(LowerBoundText(vr), upper))
  }

  /**
   * Reads the bounds back: the lower bound runs to the first '<', and "<= " or
   * "< " introduces the upper bound.
   */
  function ParseBounds(bounds: string): Option<RenderedRange>
  {
    match IndexOf(bounds, '<')
    case None => Some(RenderedRange(bounds, None))
    case Some(j) =>
      var lower, after := bounds[..j], bounds[j + 1..];
      if |after| >= 2 && after[..2] == "= " then Some(RenderedRange(lower, Some(UpperBound(true, after[2..]))))
      else if |after| >= 1 && after[0] == ' ' then Some(RenderedRange(lower, Some(UpperBound(false, after[1..]))))
      else None
  }

  /**
   * Reads a canonical string back: the name runs to the first space; an empty
   * remainder means no range; otherwise ">= " and the bounds follow.
   */
  function ParseRangeText(s: string): Option<ParsedRange>
  {
    match IndexOf(s, ' ')
    case None => None
    case Some(k) =>
      var name, rest := s[..k], s[k + 1..];
      if rest == "" then Some(ParsedRange(name, None))
      else if |rest| < 3 || rest[..3] != ">= " then None
      else
        match ParseBounds(rest[3..])
        case None => None
        case Some(rr) => Some(ParsedRange(name, Some(rr)))
  }

  /**
   * The conditions under which the canonical string can be read back: the
   * name holds no space and the lower bound holds no '<' (the code writes no
   * separator between the lower and the upper bound).
   */
  predicate Readable(name: string, range: Option<VersionRange>)
    requires RangeRenderable(range)
  {
    ' ' !in name && (range.Some? ==> '<' !in LowerBoundText(range.value))
  }

  /** Every canonical string starts with the name and a space, and is exactly that when there is no range. */
  lemma RangeTextShape(name: string, range: Option<VersionRange>)
    requires RangeRenderable(range)
    ensures |RangeText(name, range)| > |name|
    ensures RangeText(name, range)[..|name| + 1] == name + " "
    ensures range.None? <==> RangeText(name, range) == name + " "
  {
    if range.Some? {
      var r := RangeText(name, range);
      assert r[|name| + 1] == '>';
    }
  }

  /** The bounds of a range are read back as the retained part of the range. */
  lemma ParseBoundsRoundTrip(vr: VersionRange)
    requires Renderable(vr)
    requires '<' !in LowerBoundText(vr)
    ensures ParseBounds(LowerBoundText(vr) + UpperBoundText(vr)) == Retained(Some(vr))
  {
    var lower, upper := LowerBoundText(vr), UpperBoundText(vr);
    var bounds := lower + upper;
    if vr.maxVersion.None? {
      assert bounds == lower;
    } else {
      var m := vr.maxVersion.value;
      var after := if vr.isMaxInclusive then "= " + m.versionText else " " + m.versionText;
      assert upper == ['<'] + after;
      assert bounds == lower + ['<'] + after;
      IndexOfAfterPrefix(lower, '<', after);
      assert bounds[..|lower|] == lower;
      assert bounds[|lower| + 1..] == after;
      if vr.isMaxInclusive {
        assert after[..2] == "= " && after[2..] == m.versionText;
      } else {
        assert after[0] == ' ' && after[1..] == m.versionText;
        assert !(|after| >= 2 && after[..2] == "= ") by {
          if |after| >= 2 { assert after[..2][0] == ' '; }
        }
      }
    }
  }

  /** A name without spaces is found again before the first space. */
  lemma SplitAtName(name: string, rest: string)
    requires ' ' !in name
    ensures IndexOf(name + " " + rest, ' ') == Some(|name|)
    ensures (name + " " + rest)[..|name|] == name
    ensures (name + " " + rest)[|name| + 1..] == rest
  {
    IndexOfAfterPrefix(name, ' ', rest);
  }

  /** Reading back a canonical string yields the name and exactly the retained part of the range. */
  lemma ParseRangeTextRoundTrip(name: string, range: Option<VersionRange>)
    requires RangeRenderable(range)
    requires Readable(name, range)
    ensures ParseRangeText(RangeText(name, range)) == Some(ParsedRange(name, Retained(range)))
  {
    match range
    case None =>
      SplitAtName(name, "");
    case Some(vr) =>
      var bounds := LowerBoundText(vr) + UpperBoundText(vr);
      var rest := ">= " + bounds;
      assert RangeText(name, range) == name + " " + rest;
      SplitAtName(name, rest);
      assert rest[..3] == ">= " && rest[3..] == bounds;
      ParseBoundsRoundTrip(vr);
  }

  /**
   * Two readable dependencies have the same canonical string exactly when
   * their names and the retained parts of their ranges agree.
   */
  lemma RangeTextInjective(n1: string, r1: Option<VersionRange>, n2: string, r2: Option<VersionRange>)
    requires RangeRenderable(r1) && RangeRenderable(r2)
    requires Readable(n1, r1) && Readable(n2, r2)
    ensures RangeText(n1, r1) == RangeText(n2, r2) <==> n1 == n2 && Retained(r1) == Retained(r2)
  {
    ParseRangeTextRoundTrip(n1, r1);
    ParseRangeTextRoundTrip(n2, r2);
    if n1 == n2 && Retained(r1) == Retained(r2) {
      if r1.Some? {
        assert LowerBoundText(r1.value) == LowerBoundText(r2.value);
        assert UpperBoundText(r1.value) == UpperBoundText(r2.value);
      }
    }
  }

  /**
   * The lower bound is always written as ">= ": an exclusive and an inclusive
   * lower bound give the same canonical string.
   */
  lemma MinInclusivenessNotRendered(name: string, vr: VersionRange)
    requires Renderable(vr)
    ensures RangeText(name, Some(vr.(isMinInclusive := true))) == RangeText(name, Some(vr.(isMinInclusive := false)))
    ensures Retained(Some(vr.(isMinInclusive := true))) == Retained(Some(vr.(isMinInclusive := false)))
  {
  }

  /**
   * The lower and upper bound are written with no space between them, and the
   * upper bound is printed without its release label.
   */
  lemma NoSeparatorBeforeUpperBound()
    ensures
      var v1 := NuGetVersion("1.0.0", "1.0.0", "1.0.0");
      var v2 := NuGetVersion("2.0.0-beta", "2.0.0-beta", "2.0.0");
      RangeText("A", Some(VersionRange(Some(v1), Some(v2), true, false, false, None))) == "A >= 1.0.0< 2.0.0"
  {
  }
}
