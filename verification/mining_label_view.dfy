/**
 * How a MiningLabel is drawn: the ten-bucket mapping from its normalised
 * value to a circle's radius, fill and text colour, and the placement of
 * that circle 20 units back from the arrow tip of its edge.
 */
module MiningLabelView {
  import opened Optional
  import opened Geometry
  import opened Diagram

  const Black: string := "black"
  const White: string := "#ffffff"

  /** The circle's radius, its fill (None when the colour list has no entry there) and its text colour. */
  datatype CircleProps = CircleProps(r: int, color: Option<string>, textColor: string)

  /** The props a value above 1 keeps: nothing overrides the initial ones. */
  const Default: CircleProps := CircleProps(10, Some("white"), Black)

  /** `colors[k]`: undefined past the end of the list. */
  function ColorAt(colors: seq<string>, k: nat): Option<string>
  {
    if k < |colors| then Some(colors[k]) else None
  }

  /** The bucket step function of `getCircleProps`, threshold by threshold. */
  function GetCircleProps(value: real, colors: seq<string>): (props: CircleProps)
    ensures 10 <= props.r <= 19
    ensures props.textColor == White <==> 0.3 < value <= 1.0
    ensures props.textColor != White ==> props.textColor == Black
    ensures value > 1.0 ==> props == Default
    ensures |colors| >= 10 ==> props.color.Some?
  {
    if value <= 0.1 then CircleProps(10, ColorAt(colors, 0), Black)
    else if value <= 0.2 then CircleProps(11, ColorAt(colors, 1), Black)
    else if value <= 0.3 then CircleProps(12, ColorAt(colors, 2), Black)
    else if value <= 0.4 then CircleProps(13, ColorAt(colors, 3), White)
    else if value <= 0.5 then CircleProps(14, ColorAt(colors, 4), White)
    else if value <= 0.6 then CircleProps(15, ColorAt(colors, 5), White)
    else if value <= 0.7 then CircleProps(16, ColorAt(colors, 6), White)
    else if value <= 0.8 then CircleProps(17, ColorAt(colors, 7), White)
    else if value <= 0.9 then CircleProps(18, ColorAt(colors, 8), White)
    else if value <= 1.0 then CircleProps(19, ColorAt(colors, 9), White)
    else Default
  }

  /**
   * Bucket k (0..9) holds the values in (k/10, (k+1)/10]; bucket 0 also holds
   * every value below, negative ones included.
   */
  ghost predicate InBucket(value: real, k: nat)
  {
    k <= 9 && (k == 0 || (k as real) / 10.0 < value) && value <= ((k + 1) as real) / 10.0
  }

  /** Every value up to 1 lies in a bucket. */
  lemma BucketExists(value: real) returns (k: nat)
    requires value <= 1.0
    ensures InBucket(value, k)
  {
    k := 0;
    while !(value <= ((k + 1) as real) / 10.0)
      invariant k <= 9
      invariant k == 0 || (k as real) / 10.0 < value
      decreases 9 - k
    {
      k := k + 1;
    }
  }

  /** A value in bucket k gets radius 10 + k, fill colors[k], and white text from bucket 3 on. */
  lemma BucketMapping(value: real, colors: seq<string>, k: nat)
    requires InBucket(value, k)
    ensures GetCircleProps(value, colors) == CircleProps(10 + k, ColorAt(colors, k), if k >= 3 then White else Black)
  {
  }

  /** Over values up to 1 the radius never shrinks as the value grows. */
  lemma RadiusMonotone(v1: real, v2: real, colors: seq<string>)
    requires v1 <= v2 <= 1.0
    ensures GetCircleProps(v1, colors).r <= GetCircleProps(v2, colors).r
  {
    var k1 := BucketExists(v1);
    var k2 := BucketExists(v2);
    BucketMapping(v1, colors, k1);
    BucketMapping(v2, colors, k2);
  }

  /** Where the circle's centre lies: a point, or non-finite coordinates after a division by a zero length. */
  datatype Center = At(p: Point) | NonFinite

  /** What `render` draws: a circle with its text at `center`. */
  datatype Marker = Marker(center: Center, props: CircleProps)

  /** The distance between the circle and the arrow tip. */
  const Offset: real := 20.0

  function Penultimate(segments: seq<Point>): Point
    requires |segments| >= 2
  {
    segments[|segments| - 2]
  }

  function Last(segments: seq<Point>): Point
    requires |segments| >= 2
  {
    segments[|segments| - 1]
  }

  /**
   * The circle's centre for a last segment from p1 to p2: `Offset` back from
   * p2 along the unit vector of the segment, whose length `sqrt` gives.
   */
  function CenterNearTip(p1: Point, p2: Point, sqrt: real -> real): Center
  {
    var dx := p2.x - p1.x;
    var dy := p2.y - p1.y;
    var length := sqrt(SqDist(p2, p1));
    if length == 0.0 then NonFinite
    else At(Point(p2.x - dx / length * Offset, p2.y - dy / length * Offset))
  }

  /**
   * `render`: nothing for fewer than two routed points; otherwise a circle
   * near the tip of the last segment, drawn with the props of the label's
   * value.
   */
  function Render(miningLabel: MiningLabel, colors: seq<string>, sqrt: real -> real): (m: Option<Marker>)
    ensures m.None? <==> |miningLabel.segments| < 2
    ensures m.Some? ==> m.value.props == GetCircleProps(miningLabel.relativeValue, colors)
    ensures m.Some? ==> m.value.center == CenterNearTip(Penultimate(miningLabel.segments), Last(miningLabel.segments), sqrt)
  {
    if |miningLabel.segments| < 2 then None
    else
      var center := CenterNearTip(Penultimate(miningLabel.segments), Last(miningLabel.segments), sqrt);
      Some(Marker(center, GetCircleProps(miningLabel.relativeValue, colors)))
  }

  /** Only the value and the last two routed points matter to `render`. */
  lemma RenderUsesLastTwo(a: MiningLabel, b: MiningLabel, colors: seq<string>, sqrt: real -> real)
    requires |a.segments| >= 2 && |b.segments| >= 2
    requires a.relativeValue == b.relativeValue
    requires Penultimate(a.segments) == Penultimate(b.segments) && Last(a.segments) == Last(b.segments)
    ensures Render(a, colors, sqrt) == Render(b, colors, sqrt)
  {
  }

  /**
   * The offset `Offset * (dx, dy) / length` of a segment of positive length
   * has length `Offset`, is parallel to the segment and points the same way.
   */
  lemma UnitOffset(dx: real, dy: real, length: real)
    requires length > 0.0 && length * length == dx * dx + dy * dy
    ensures var ox, oy := dx / length * Offset, dy / length * Offset;
      ox * ox + oy * oy == Offset * Offset && ox * dy == oy * dx && ox * dx + oy * dy > 0.0
  {
    var t := Offset / length;
    assert t * length == Offset;
    assert t > 0.0;
    assert dx / length * Offset == dx * t;
    assert dy / length * Offset == dy * t;
    calc {
      (dx * t) * (dx * t) + (dy * t) * (dy * t);
      (t * t) * (dx * dx + dy * dy);
      (t * t) * (length * length);
      (t * length) * (t * length);
    }
    assert (dx * t) * dy == (dy * t) * dx;
    assert (dx * t) * dx + (dy * t) * dy == t * (length * length);
    assert length * length > 0.0;
  }

  /**
   * p lies exactly `Offset` from p2, on the line through p1 and p2, on the
   * side of p1: the circle sits on the last segment, short of the arrow tip.
   */
  ghost predicate BehindTip(p1: Point, p2: Point, p: Point)
  {
    SqDist(p, p2) == Offset * Offset &&
    (p2.x - p.x) * (p2.y - p1.y) == (p2.y - p.y) * (p2.x - p1.x) &&
    (p2.x - p.x) * (p2.x - p1.x) + (p2.y - p.y) * (p2.y - p1.y) > 0.0
  }

  /** The point `Offset` back from p2 along the unit vector from p1 to p2 is behind the tip. */
  lemma OffsetPoint(p1: Point, p2: Point, length: real)
    requires length > 0.0
    requires length * length == SqDist(p2, p1)
    ensures BehindTip(p1, p2, Point(p2.x - (p2.x - p1.x) / length * Offset, p2.y - (p2.y - p1.y) / length * Offset))
  {
    var dx, dy := p2.x - p1.x, p2.y - p1.y;
    var ox, oy := dx / length * Offset, dy / length * Offset;
    UnitOffset(dx, dy, length);
    var p := Point(p2.x - ox, p2.y - oy);
    assert p2.x - p.x == ox && p2.y - p.y == oy;
    assert (p.x - p2.x) * (p.x - p2.x) == ox * ox;
    assert (p.y - p2.y) * (p.y - p2.y) == oy * oy;
    assert SqDist(p, p2) == (p.x - p2.x) * (p.x - p2.x) + (p.y - p2.y) * (p.y - p2.y);
  }

  /** Distinct points have a positive distance, the root of their squared distance. */
  lemma PositiveLength(p1: Point, p2: Point, sqrt: real -> real)
    requires IsSqrt(sqrt)
    requires p1 != p2
    ensures sqrt(SqDist(p2, p1)) > 0.0
    ensures sqrt(SqDist(p2, p1)) * sqrt(SqDist(p2, p1)) == SqDist(p2, p1)
  {
    SqDistNonNegative(p2, p1);
    var length := sqrt(SqDist(p2, p1));
    if length == 0.0 {
      assert SqDist(p2, p1) == 0.0 * 0.0;
      SqDistZero(p2, p1);
    }
  }

  /** For a last segment of positive length, the centre is behind the tip. */
  lemma CenterPlacement(p1: Point, p2: Point, sqrt: real -> real)
    requires IsSqrt(sqrt)
    requires p1 != p2
    ensures CenterNearTip(p1, p2, sqrt).At?
    ensures BehindTip(p1, p2, CenterNearTip(p1, p2, sqrt).p)
  {
    PositiveLength(p1, p2, sqrt);
    OffsetPoint(p1, p2, sqrt(SqDist(p2, p1)));
  }

  /** When the last segment has a length, `render` draws the circle behind the tip. */
  lemma MarkerPlacement(miningLabel: MiningLabel, colors: seq<string>, sqrt: real -> real)
    requires IsSqrt(sqrt)
    requires |miningLabel.segments| >= 2
    requires Penultimate(miningLabel.segments) != Last(miningLabel.segments)
    ensures var m := Render(miningLabel, colors, sqrt);
      m.Some? && m.value.center.At? &&
      BehindTip(Penultimate(miningLabel.segments), Last(miningLabel.segments), m.value.center.p)
  {
    CenterPlacement(Penultimate(miningLabel.segments), Last(miningLabel.segments), sqrt);
  }

  /** When the last two points coincide, the division by a zero length leaves the centre non-finite. */
  lemma CoincidentPoints(p1: Point, p2: Point, sqrt: real -> real)
    requires IsSqrt(sqrt)
    requires p1 == p2
    ensures CenterNearTip(p1, p2, sqrt) == NonFinite
  {
    assert SqDist(p2, p1) == 0.0;
    ZeroSquare(sqrt(0.0));
  }
}
