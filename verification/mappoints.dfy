/** The map data: venues with truthy coordinates are pinned at their
    coordinates rounded to four decimals, and pins at the same rounded
    point are grouped, in the order the points are first pinned. */
module MapPoints {
  import opened CheckIns
  import opened Counters

  /** `round(x, 4)` for a coordinate in units of 10^-8 degree, giving units
      of 10^-4 degree: the nearest multiple, halves going to the even one. */
  function Round4(x: Coord): int {
    var q, m := x / 10000, x % 10000;
    if m < 5000 then q
    else if m > 5000 then q + 1
    else if q % 2 == 0 then q
    else q + 1
  }

  /** `Round4` is off by at most half a unit, and an exact half goes to the
      even neighbour. */
  lemma Round4Nearest(x: Coord)
    ensures -5000 <= x - 10000 * Round4(x) <= 5000
    ensures x - 10000 * Round4(x) == 5000 || x - 10000 * Round4(x) == -5000 ==> Round4(x) % 2 == 0
  {
  }

  /** Any nearest multiple with halves to even is the one `Round4` picks. */
  lemma Round4Unique(x: Coord, r: int)
    requires -5000 <= x - 10000 * r <= 5000
    requires x - 10000 * r == 5000 || x - 10000 * r == -5000 ==> r % 2 == 0
    ensures r == Round4(x)
  {
  }

  /** A coordinate is truthy when it is present and not zero. */
  predicate Truthy(o: Option<Coord>) {
    o.Some? && o.value != 0
  }

  /** A rounded point, in units of 10^-4 degree. */
  datatype Point = Point(lat: int, lng: int)

  /** One `f"{venue_name}(1)"` label at a rounded point. */
  datatype Pin = Pin(at: Point, text: string)

  function Label(name: string): string {
    name + "(1)"
  }

  /** The pin of a venue name at cached coordinates, when both are truthy. */
  function PinOf(name: string, lat: Option<Coord>, lng: Option<Coord>): (p: Option<Pin>)
    ensures p.Some? <==> Truthy(lat) && Truthy(lng)
    ensures p.Some? ==> p.value.text == Label(name)
  {
    if Truthy(lat) && Truthy(lng) then Some(Pin(Point(Round4(lat.value), Round4(lng.value)), Label(name)))
    else None
  }

  /** A pin lies at the nearest rounded point to the venue's coordinates. */
  lemma PinOfRounds(name: string, lat: Option<Coord>, lng: Option<Coord>)
    requires PinOf(name, lat, lng).Some?
    ensures var p := PinOf(name, lat, lng).value;
      && -5000 <= lat.value - 10000 * p.at.lat <= 5000
      && -5000 <= lng.value - 10000 * p.at.lng <= 5000
  {
  }

  datatype Bucket = Bucket(at: Point, labels: seq<string>)

  /** The `map_points` defaultdict, in insertion order. */
  type Buckets = seq<Bucket>

  function Points(bs: Buckets): seq<Point> {
    seq(|bs|, i requires 0 <= i < |bs| => bs[i].at)
  }

  lemma PointsCons(bs: Buckets)
    requires |bs| > 0
    ensures Points(bs) == [bs[0].at] + Points(bs[1..])
  {
  }

  /** The labels of the first bucket at `p`; none when there is no bucket. */
  function LabelsAt(bs: Buckets, p: Point): seq<string> {
    if |bs| == 0 then []
    else if bs[0].at == p then bs[0].labels
    else LabelsAt(bs[1..], p)
  }

  /** `map_points[pin.at].append(pin.text)`. */
  function AddPin(bs: Buckets, pin: Pin): (r: Buckets)
    ensures Points(r) == if pin.at in Points(bs) then Points(bs) else Points(bs) + [pin.at]
  {
    if |bs| == 0 then [Bucket(pin.at, [pin.text])]
    else if bs[0].at == pin.at then
      PointsCons(bs);
      var r := [Bucket(pin.at, bs[0].labels + [pin.text])] + bs[1..];
      PointsCons(r);
      assert r[1..] == bs[1..];
      r
    else
      PointsCons(bs);
      var t := AddPin(bs[1..], pin);
      var r := [bs[0]] + t;
      PointsCons(r);
      assert r[1..] == t;
      r
  }

  /** Appending a pin adds its label at the end of its own point's labels
      and changes no other point's labels. */
  lemma {:induction false} AddPinLabels(bs: Buckets, pin: Pin, p: Point)
    ensures LabelsAt(AddPin(bs, pin), p) == LabelsAt(bs, p) + (if p == pin.at then [pin.text] else [])
  {
    if |bs| > 0 && bs[0].at != pin.at {
      AddPinLabels(bs[1..], pin, p);
      assert AddPin(bs, pin)[1..] == AddPin(bs[1..], pin);
    }
  }

  /** With each point bucketed once, the labels found at a bucket's point
      are that bucket's own. */
  lemma {:induction false} LabelsAtOwn(bs: Buckets, i: int)
    requires Distinct(Points(bs)) && 0 <= i < |bs|
    ensures LabelsAt(bs, bs[i].at) == bs[i].labels
  {
    if i > 0 {
      PointsCons(bs);
      assert Points(bs)[0] != Points(bs)[i];
      DistinctCons(bs[0].at, Points(bs[1..]));
      LabelsAtOwn(bs[1..], i - 1);
    }
  }

  /** One check-in's effect on the buckets: its pin, if it has one. */
  function Place(bs: Buckets, pin: Option<Pin>): Buckets {
    if pin.Some? then AddPin(bs, pin.value) else bs
  }

  /** The buckets after the pins of all check-ins, in order; `None` is a
      check-in without truthy coordinates. */
  function Group(pins: seq<Option<Pin>>): Buckets {
    if |pins| == 0 then [] else Place(Group(pins[..|pins| - 1]), pins[|pins| - 1])
  }

  lemma GroupSnoc(pins: seq<Option<Pin>>, pin: Option<Pin>)
    ensures Group(pins + [pin]) == Place(Group(pins), pin)
  {
    assert (pins + [pin])[..|pins|] == pins;
  }

  /** The points of the pins, in order. */
  function PinPoints(pins: seq<Option<Pin>>): seq<Point> {
    if |pins| == 0 then []
    else
      var last := pins[|pins| - 1];
      PinPoints(pins[..|pins| - 1]) + (if last.Some? then [last.value.at] else [])
  }

  /** The labels of the pins at `p`, in order. */
  function PinLabels(pins: seq<Option<Pin>>, p: Point): seq<string> {
    if |pins| == 0 then []
    else
      var last := pins[|pins| - 1];
      PinLabels(pins[..|pins| - 1], p) + (if last.Some? && last.value.at == p then [last.value.text] else [])
  }

  /** There is one bucket per pinned point, in the order the points are
      first pinned (the keys of `Counter(points)`), so no point appears
      twice. */
  lemma {:induction false} GroupPoints(pins: seq<Option<Pin>>)
    ensures Points(Group(pins)) == Keys(Tally(PinPoints(pins)))
    ensures Distinct(Points(Group(pins)))
    decreases |pins|
  {
    if |pins| > 0 {
      var p, last := pins[..|pins| - 1], pins[|pins| - 1];
      GroupPoints(p);
      if last.Some? {
        TallySnoc(PinPoints(p), last.value.at);
      } else {
        assert PinPoints(pins) == PinPoints(p);
      }
    }
  }

  /** Each point's bucket holds exactly the labels of the pins at that
      point, in input order. */
  lemma {:induction false} GroupLabels(pins: seq<Option<Pin>>, at: Point)
    ensures LabelsAt(Group(pins), at) == PinLabels(pins, at)
    decreases |pins|
  {
    if |pins| > 0 {
      var p, last := pins[..|pins| - 1], pins[|pins| - 1];
      GroupLabels(p, at);
      if last.Some? {
        AddPinLabels(Group(p), last.value, at);
      }
    }
  }

  /** `",".join(labels)`. */
  function Join(xs: seq<string>): string {
    if |xs| == 0 then ""
    else if |xs| == 1 then xs[0]
    else xs[0] + "," + Join(xs[1..])
  }

  /** One entry of `map_points` in the output. */
  datatype MapPoint = MapPoint(lat: int, lng: int, v: string)

  function Render(bs: Buckets): (ms: seq<MapPoint>)
    ensures |ms| == |bs|
    ensures forall i :: 0 <= i < |bs| ==>
      ms[i].lat == bs[i].at.lat && ms[i].lng == bs[i].at.lng && ms[i].v == Join(bs[i].labels)
  {
    seq(|bs|, i requires 0 <= i < |bs| => MapPoint(bs[i].at.lat, bs[i].at.lng, Join(bs[i].labels)))
  }

  /** Rendering buckets with distinct points: entry `i` is bucket `i`'s
      point with the labels found at that point. */
  lemma RenderOwnLabels(bs: Buckets)
    requires Distinct(Points(bs))
    ensures forall i :: 0 <= i < |bs| ==> Render(bs)[i].v == Join(LabelsAt(bs, bs[i].at))
  {
    forall i | 0 <= i < |bs| ensures Render(bs)[i].v == Join(LabelsAt(bs, bs[i].at)) {
      LabelsAtOwn(bs, i);
    }
  }

  /** The rendered map of a list of pins: one entry per pinned point, in
      the order the points are first pinned, each joining the labels of the
      pins at that point in input order. */
  lemma RenderGroup(pins: seq<Option<Pin>>)
    ensures var m := Render(Group(pins)); var pts := Keys(Tally(PinPoints(pins)));
      && |m| == |pts|
      && forall i :: 0 <= i < |m| ==>
           Point(m[i].lat, m[i].lng) == pts[i] && m[i].v == Join(PinLabels(pins, pts[i]))
  {
    var bs := Group(pins);
    var m := Render(bs);
    var pts := Keys(Tally(PinPoints(pins)));
    GroupPoints(pins);
    RenderOwnLabels(bs);
    forall i | 0 <= i < |m|
      ensures Point(m[i].lat, m[i].lng) == pts[i] && m[i].v == Join(PinLabels(pins, pts[i]))
    {
      assert Points(bs)[i] == bs[i].at;
      GroupLabels(pins, bs[i].at);
    }
  }
}
