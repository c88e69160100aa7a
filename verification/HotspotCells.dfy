/** What the grid of `aggregate_hotspots` has to do with distance (app/services/location_service.py). */
module HotspotCells {
  import opened Wrappers
  import opened Arithmetic
  import opened Graphs
  import opened HotspotGrid
  import opened HotspotGroups
  import opened Hotspots

  lemma TimesMinus(n: real, x: real, y: real)
    ensures Times(n, x - y) == Times(n, x) - Times(n, y)
  {}

  /** A quotient's floor is the whole number of times the divisor fits. */
  lemma FloorFits(x: real, d: real)
    requires d > 0.0
    ensures Times(d, (x / d).Floor as real) <= x < Times(d, (x / d).Floor as real + 1.0)
  {
    hide Times;
    var q := x / d;
    var k := q.Floor as real;
    DivideBack(x, d);
    TimesMinus(d, q, k);
    TimesMinus(d, k + 1.0, q);
    TimesSign(d, q - k);
    TimesSign(d, k + 1.0 - q);
  }

  lemma Quotient(x: real, d: real)
    requires x > 0.0 && d > 0.0
    ensures x / d > 0.0 && Times(d, x / d) == x
  {}

  lemma ScaleRow(degLat: real, link: real, k: real)
    requires degLat == link / 111320.0
    ensures Times(degLat, k) * 111320.0 == Times(link, k)
  {}

  lemma Associate(cos: real, degLng: real, k: real, link: real)
    requires Times(cos, degLng) == link / 111320.0
    ensures Times(cos * 111320.0, Times(degLng, k)) == Times(link, k)
  {
    assert cos * 111320.0 * (degLng * k) == cos * degLng * (111320.0 * k);
  }

  lemma ScaleColumn(degLng: real, cos: real, link: real, k: real, lng: real)
    requires cos > 0.0 && Times(cos, degLng) == link / 111320.0
    ensures Times(degLng, k) <= lng <==> Times(link, k) <= Times(lng * 111320.0, cos)
  {
    var east := Times(lng * 111320.0, cos);
    assert Times(cos * 111320.0, Times(degLng, k)) == Times(link, k) by { Associate(cos, degLng, k, link); }
    assert Times(cos * 111320.0, lng) == east;
    TimesMinus(cos * 111320.0, lng, Times(degLng, k));
    TimesSign(cos * 111320.0, lng - Times(degLng, k));
  }

  /**
   Row `k` holds the latitudes from `k` to `k + 1` link distances north at 111320 metres to the degree; column `k` the
   longitudes from `k` to `k + 1` link distances east, with degrees shortened by the cosine of the record's latitude,
   or by a hundredth where that is less.
   */
  lemma CellIs(c: Located, g: Geometry, link: real)
    requires link > 0.0
    ensures var cos := if g.cosine(c.lat.value) > 0.01 then g.cosine(c.lat.value) else 0.01;
            && Times(link, CellOf(c, g, link).0 as real) <= c.lat.value * 111320.0
               < Times(link, CellOf(c, g, link).0 as real + 1.0)
            && Times(link, CellOf(c, g, link).1 as real) <= Times(c.lng.value * 111320.0, cos)
               < Times(link, CellOf(c, g, link).1 as real + 1.0)
  {
    hide Times;
    var cos := if g.cosine(c.lat.value) > 0.01 then g.cosine(c.lat.value) else 0.01;
    var degLat := link / 111320.0;
    var degLng := degLat / cos;
    Quotient(degLat, cos);
    FloorFits(c.lat.value, degLat);
    FloorFits(c.lng.value, degLng);
    var i, j := (c.lat.value / degLat).Floor as real, (c.lng.value / degLng).Floor as real;
    assert CellOf(c, g, link) == ((c.lat.value / degLat).Floor, (c.lng.value / degLng).Floor);
    ScaleRow(degLat, link, i);
    ScaleRow(degLat, link, i + 1.0);
    ScaleColumn(degLng, cos, link, j, c.lng.value);
    ScaleColumn(degLng, cos, link, j + 1.0, c.lng.value);
  }

  lemma OneMoreLink(link: real, k: real)
    ensures Times(link, k + 1.0) == Times(link, k) + link
  {}

  lemma Steps(link: real, d: int)
    requires link > 0.0
    ensures d >= 2 ==> Times(link, d as real) >= 2.0 * link
    ensures d <= -2 ==> Times(link, d as real) <= 0.0 - 2.0 * link
    ensures d <= 1 ==> Times(link, d as real) <= link
    ensures d >= -1 ==> Times(link, d as real) >= 0.0 - link
  {
    TimesSign(link, d as real - 2.0);
    TimesSign(link, 0.0 - 2.0 - d as real);
    TimesSign(link, 1.0 - d as real);
    TimesSign(link, d as real + 1.0);
  }

  /**
   Two places in the line of cells: less than a link distance apart they touch, and touching they are less than two
   apart.
   */
  lemma CellsOnALine(link: real, x: real, y: real, i: int, j: int)
    requires link > 0.0
    requires Times(link, i as real) <= x < Times(link, i as real + 1.0)
    requires Times(link, j as real) <= y < Times(link, j as real + 1.0)
    ensures 0.0 - link <= y - x <= link ==> -1 <= j - i <= 1
    ensures -1 <= j - i <= 1 ==> 0.0 - 2.0 * link < y - x < 2.0 * link
  {
    hide Times;
    OneMoreLink(link, i as real);
    OneMoreLink(link, j as real);
    TimesMinus(link, j as real, i as real);
    Steps(link, j - i);
  }

  /**
   Records at most a link distance apart northwards and eastwards, each by its own scale, touch; those that touch are
   less than two apart.
   */
  lemma TouchMeansClose(a: Located, b: Located, g: Geometry, link: real)
    requires link > 0.0
    ensures var cosA := if g.cosine(a.lat.value) > 0.01 then g.cosine(a.lat.value) else 0.01;
            var cosB := if g.cosine(b.lat.value) > 0.01 then g.cosine(b.lat.value) else 0.01;
            var north := b.lat.value * 111320.0 - a.lat.value * 111320.0;
            var east := Times(b.lng.value * 111320.0, cosB) - Times(a.lng.value * 111320.0, cosA);
            && (0.0 - link <= north <= link && 0.0 - link <= east <= link ==>
                  Touch(CellOf(a, g, link), CellOf(b, g, link)))
            && (Touch(CellOf(a, g, link), CellOf(b, g, link)) ==>
                  0.0 - 2.0 * link < north < 2.0 * link && 0.0 - 2.0 * link < east < 2.0 * link)
  {
    hide Times, CellOf;
    CellIs(a, g, link);
    CellIs(b, g, link);
    var cosA := if g.cosine(a.lat.value) > 0.01 then g.cosine(a.lat.value) else 0.01;
    var cosB := if g.cosine(b.lat.value) > 0.01 then g.cosine(b.lat.value) else 0.01;
    var p, q := CellOf(a, g, link), CellOf(b, g, link);
    CellsOnALine(link, a.lat.value * 111320.0, b.lat.value * 111320.0, p.0, q.0);
    CellsOnALine(link, Times(a.lng.value * 111320.0, cosA), Times(b.lng.value * 111320.0, cosB), p.1, q.1);
  }

  lemma Spread(x: real, y: real, c: real)
    ensures Times(y, c) - Times(x, c) == (y - x) * c == c * (y - x)
    ensures Times(y, c) == Times(c, y) && Times(x, c) == Times(c, x)
  {}

  lemma EastOf(x: real, y: real, cosX: real, cosY: real)
    ensures cosX == cosY ==> Times(y * 111320.0, cosY) - Times(x * 111320.0, cosX) == (y - x) * 111320.0 * cosX
    ensures x == y ==> Times(y * 111320.0, cosY) - Times(x * 111320.0, cosX) == x * 111320.0 * (cosY - cosX)
  {
    Spread(x * 111320.0, y * 111320.0, cosX);
    Spread(cosX, cosY, x * 111320.0);
    assert (y - x) * 111320.0 == y * 111320.0 - x * 111320.0;
  }

  /** On one parallel of latitude, a link distance eastwards is never too far to be compared. */
  lemma TouchOnAParallel(a: Located, b: Located, g: Geometry, link: real)
    requires link > 0.0 && a.lat == b.lat
    requires var cos := if g.cosine(a.lat.value) > 0.01 then g.cosine(a.lat.value) else 0.01;
             0.0 - link <= (b.lng.value - a.lng.value) * 111320.0 * cos <= link
    ensures Touch(CellOf(a, g, link), CellOf(b, g, link))
  {
    hide CellOf;
    TouchMeansClose(a, b, g, link);
    var cos := if g.cosine(a.lat.value) > 0.01 then g.cosine(a.lat.value) else 0.01;
    EastOf(a.lng.value, b.lng.value, cos, cos);
  }

  /**
   On one meridian a link distance northwards is not too far either, as long as the two cosines put the columns no
   more than a link distance apart.
   */
  lemma TouchOnAMeridian(a: Located, b: Located, g: Geometry, link: real)
    requires link > 0.0 && a.lng == b.lng && 0.0 - link <= (b.lat.value - a.lat.value) * 111320.0 <= link
    requires var cosA := if g.cosine(a.lat.value) > 0.01 then g.cosine(a.lat.value) else 0.01;
             var cosB := if g.cosine(b.lat.value) > 0.01 then g.cosine(b.lat.value) else 0.01;
             0.0 - link <= a.lng.value * 111320.0 * (cosB - cosA) <= link
    ensures Touch(CellOf(a, g, link), CellOf(b, g, link))
  {
    hide CellOf;
    TouchMeansClose(a, b, g, link);
    var cosA := if g.cosine(a.lat.value) > 0.01 then g.cosine(a.lat.value) else 0.01;
    var cosB := if g.cosine(b.lat.value) > 0.01 then g.cosine(b.lat.value) else 0.01;
    EastOf(a.lng.value, b.lng.value, cosA, cosB);
  }

  lemma FloorIs(link: real, x: real, k: int)
    requires link > 0.0 && Times(link, k as real) <= x < Times(link, k as real + 1.0)
    ensures (x / link).Floor == k
  {
    hide Times;
    var q := x / link;
    DivideBack(x, link);
    TimesMinus(link, q, k as real);
    TimesMinus(link, k as real + 1.0, q);
    TimesSign(link, q - k as real);
    TimesSign(link, k as real + 1.0 - q);
    assert k as real <= q < k as real + 1.0;
  }

  /**
   Exactly, two records on one meridian within the link distance by the scale of the grid touch when their distances
   from the prime meridian, each by its own latitude and in link distances rounded down, are at most one apart.
   */
  lemma MeridianExactlyWhen(a: Located, b: Located, g: Geometry, link: real)
    requires link > 0.0 && a.lng == b.lng && 0.0 - link <= (b.lat.value - a.lat.value) * 111320.0 <= link
    ensures var cosA := if g.cosine(a.lat.value) > 0.01 then g.cosine(a.lat.value) else 0.01;
            var cosB := if g.cosine(b.lat.value) > 0.01 then g.cosine(b.lat.value) else 0.01;
            var east := a.lng.value * 111320.0;
            Touch(CellOf(a, g, link), CellOf(b, g, link))
            <==> -1 <= (Times(east, cosB) / link).Floor - (Times(east, cosA) / link).Floor <= 1
  {
    hide CellOf, Times;
    var cosA := if g.cosine(a.lat.value) > 0.01 then g.cosine(a.lat.value) else 0.01;
    var cosB := if g.cosine(b.lat.value) > 0.01 then g.cosine(b.lat.value) else 0.01;
    var east, p, q := a.lng.value * 111320.0, CellOf(a, g, link), CellOf(b, g, link);
    CellIs(a, g, link);
    CellIs(b, g, link);
    FloorIs(link, Times(east, cosA), p.1);
    FloorIs(link, Times(east, cosB), q.1);
    CellsOnALine(link, a.lat.value * 111320.0, b.lat.value * 111320.0, p.0, q.0);
  }

  lemma DriftOf(i: int, j: int, cos: real)
    requires 0.49997 <= cos <= 0.49998
    requires Times(200.0, i as real + 1.0) > Times(170.0 * 111320.0, 0.5)
    requires Times(200.0, j as real) <= Times(170.0 * 111320.0, cos)
    ensures i >= 47311 && j <= 47309
  {}

  /**
   That proviso is needed: far east the columns of one meridian drift apart quickly. With the cosine of 60 degrees, and
   that of 60.0017 degrees to four places, two records 189 metres apart on one meridian do not touch.
   */
  lemma ColumnsDrift(g: Geometry)
    requires g.cosine(60.0) == 0.5 && 0.49997 <= g.cosine(60.0017) <= 0.49998
    ensures !Touch(CellOf(Record("a", 60.0, 170.0), g, 200.0), CellOf(Record("b", 60.0017, 170.0), g, 200.0))
  {
    hide CellOf, Times;
    var a, b := Record("a", 60.0, 170.0), Record("b", 60.0017, 170.0);
    CellIs(a, g, 200.0);
    CellIs(b, g, 200.0);
    var i, j := CellOf(a, g, 200.0).1, CellOf(b, g, 200.0).1;
    DriftOf(i, j, g.cosine(60.0017));
  }

  /** Two records that touch and are within the link distance end up in one group, whatever lies between. */
  lemma PairTogether(items: seq<Located>, g: Geometry, link: real, groups: seq<seq<nat>>, i: nat, j: nat)
    requires link > 0.0 && i < j < |items|
    requires g.haversine(items[i].lat.value, items[i].lng.value, items[j].lat.value, items[j].lng.value) <= link
    requires AreComponents(SceneOf(items, g, link).Links(), |items|, groups)
    requires Touch(CellOf(items[i], g, link), CellOf(items[j], g, link))
    ensures exists k :: 0 <= k < |groups| && i in groups[k] && j in groups[k]
  {
    hide Touch, CellOf;
    var scene := SceneOf(items, g, link);
    assert scene.Compared(i, j) && scene.Linked((i, j)) && (i, j) in scene.Links();
    assert IsMember(groups, i);
    var k :| 0 <= k < |groups| && i in groups[k];
    assert IsComponent(scene.Links(), |items|, groups[k]);
    ReachesEdge(scene.Links(), i, j);
    ReachesTransitive(scene.Links(), groups[k][0], i, j);
  }

  /**
   Records on one parallel whose distance is within the link distance, by the formula and by the scale of the grid, are
   in one group.
   */
  lemma NeighboursOnAParallel(items: seq<Located>, g: Geometry, link: real, groups: seq<seq<nat>>, i: nat, j: nat)
    requires link > 0.0 && i < j < |items| && items[i].lat == items[j].lat
    requires g.haversine(items[i].lat.value, items[i].lng.value, items[j].lat.value, items[j].lng.value) <= link
    requires AreComponents(SceneOf(items, g, link).Links(), |items|, groups)
    requires var cos := if g.cosine(items[i].lat.value) > 0.01 then g.cosine(items[i].lat.value) else 0.01;
             0.0 - link <= (items[j].lng.value - items[i].lng.value) * 111320.0 * cos <= link
    ensures exists k :: 0 <= k < |groups| && i in groups[k] && j in groups[k]
  {
    hide Touch, CellOf, AreComponents;
    TouchOnAParallel(items[i], items[j], g, link);
    PairTogether(items, g, link, groups, i, j);
  }

  /** Two records that are linked at first hand are within the link distance, in whichever order they were given. */
  lemma LinkedAreWithin(items: seq<Located>, g: Geometry, link: real, i: nat, j: nat)
    requires link > 0.0 && (i, j) in SceneOf(items, g, link).Links()
    ensures i < |items| && j < |items| && i != j
    ensures || g.haversine(items[i].lat.value, items[i].lng.value, items[j].lat.value, items[j].lng.value) <= link
            || g.haversine(items[j].lat.value, items[j].lng.value, items[i].lat.value, items[i].lng.value) <= link
  {
    hide Touch, CellOf;
    assert SceneOf(items, g, link).Linked((i, j));
  }
}
