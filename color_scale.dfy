/**
 * The colour classifier: a change (a fraction) is read as percentage points and
 * put into one of seven buckets by threshold checks from the largest down,
 * first match wins; an absent change gets the no-data colour.
 */
module ColorScale {
  import opened Wrappers

  datatype ChangeColor =
    | NoData
    | StrongIncrease
    | ModerateIncrease
    | SlightIncrease
    | NearZero
    | SlightDecrease
    | ModerateDecrease
    | StrongDecrease

  /** The fill colour the map draws for each bucket. */
  function Hex(c: ChangeColor): (h: string)
    ensures |h| == 7 && h[0] == '#'
  {
    match c
    case NoData => "#c0d8c1"
    case StrongIncrease => "#00441b"
    case ModerateIncrease => "#238b45"
    case SlightIncrease => "#a1d99b"
    case NearZero => "#f7f7f7"
    case SlightDecrease => "#fcae91"
    case ModerateDecrease => "#de2d26"
    case StrongDecrease => "#a50f15"
  }

  /** Position of a data bucket on the scale, from strong decrease (0) to
      strong increase (6). */
  function Rank(c: ChangeColor): int
  {
    match c
    case NoData => -1
    case StrongDecrease => 0
    case ModerateDecrease => 1
    case SlightDecrease => 2
    case NearZero => 3
    case SlightIncrease => 4
    case ModerateIncrease => 5
    case StrongIncrease => 6
  }

  /** The bucket with the same magnitude and the opposite direction. */
  function Mirror(c: ChangeColor): ChangeColor
  {
    match c
    case NoData => NoData
    case StrongIncrease => StrongDecrease
    case ModerateIncrease => ModerateDecrease
    case SlightIncrease => SlightDecrease
    case NearZero => NearZero
    case SlightDecrease => SlightIncrease
    case ModerateDecrease => ModerateIncrease
    case StrongDecrease => StrongIncrease
  }

  /** The ordered threshold checks; each bucket is the interval of percentage
      points stated in the ensures clauses. */
  function GetChangeColor(change: Option<real>): (c: ChangeColor)
    ensures c == NoData <==> change.None?
    ensures change.Some? ==>
      var p := change.value * 100.0;
      && (c == StrongIncrease <==> 5.0 <= p)
      && (c == ModerateIncrease <==> 2.0 <= p < 5.0)
      && (c == SlightIncrease <==> 0.5 <= p < 2.0)
      && (c == NearZero <==> -0.5 < p < 0.5)
      && (c == SlightDecrease <==> -2.0 < p <= -0.5)
      && (c == ModerateDecrease <==> -5.0 < p <= -2.0)
      && (c == StrongDecrease <==> p <= -5.0)
  {
    if change.None? then NoData
    else
      var changePercent := change.value * 100.0;
      if changePercent >= 5.0 then StrongIncrease
      else if changePercent >= 2.0 then ModerateIncrease
      else if changePercent >= 0.5 then SlightIncrease
      else if changePercent > -0.5 then NearZero
      else if changePercent > -2.0 then SlightDecrease
      else if changePercent > -5.0 then ModerateDecrease
      else StrongDecrease
  }

  /** The buckets' colours are pairwise distinct. */
  lemma HexInjective(c: ChangeColor, d: ChangeColor)
    ensures Hex(c) == Hex(d) <==> c == d
  {
  }

  /** A larger change never lands in a lower bucket. */
  lemma ColorMonotone(x: real, y: real)
    requires x <= y
    ensures 0 <= Rank(GetChangeColor(Some(x))) <= Rank(GetChangeColor(Some(y))) <= 6
  {
  }

  /** Negating a change mirrors its bucket: exact edges go to the outer bucket on
      both sides (>= on the increase side, > on the decrease side). */
  lemma ColorMirror(x: real)
    ensures GetChangeColor(Some(-x)) == Mirror(GetChangeColor(Some(x)))
  {
  }

  /** The documented edge cases. */
  lemma ColorEdges()
    ensures GetChangeColor(None) == NoData
    ensures GetChangeColor(Some(0.05)) == StrongIncrease
    ensures GetChangeColor(Some(0.02)) == ModerateIncrease
    ensures GetChangeColor(Some(0.005)) == SlightIncrease
    ensures GetChangeColor(Some(0.0)) == NearZero
    ensures GetChangeColor(Some(-0.005)) == SlightDecrease
    ensures GetChangeColor(Some(-0.02)) == ModerateDecrease
    ensures GetChangeColor(Some(-0.05)) == StrongDecrease
  {
  }
}
