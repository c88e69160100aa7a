/** Clustering of complaints into hotspots: `aggregate_hotspots` of app/services/location_service.py. */
module Hotspots {
  import opened Wrappers
  import opened Ordering
  import opened Graphs
  import opened DisjointSets
  import opened HotspotGrid
  import opened HotspotGroups

  datatype Failure = LinkDistanceNotPositive

  datatype Hotspot = Hotspot(
    key: string, lat: real, lng: real, count: int, severityScore: int,
    categories: map<string, nat>, wards: map<string, nat>, complaintIds: seq<string>)

  function SeverityWeight(severity: Option<string>): int {
    if severity.None? then 2
    else match severity.value
      case "low" => 1
      case "medium" => 2
      case "high" => 3
      case "critical" => 4
      case _ => 2
  }

  /** `m.get("category") or "unknown"` */
  function CategoryName(c: Complaint): string {
    if c.category.None? || c.category.value == [] then "unknown" else c.category.value
  }

  // ---- What a hotspot says about the records it stands for ----

  ghost function Categories(members: seq<Located>): seq<string> {
    seq(|members|, k requires 0 <= k < |members| => CategoryName(members[k]))
  }

  ghost function Ids(members: seq<Located>): seq<string> {
    seq(|members|, k requires 0 <= k < |members| => members[k].id)
  }

  /** The wards that the records name. */
  ghost function Wards(members: seq<Located>): seq<string> {
    if members == [] then []
    else
      var last := members[|members| - 1];
      Wards(members[..|members| - 1]) + if last.ward.Some? && last.ward.value != [] then [last.ward.value] else []
  }

  ghost function Sum(members: seq<Located>, f: Located -> real): real {
    if members == [] then 0.0 else Sum(members[..|members| - 1], f) + f(members[|members| - 1])
  }

  /** Each name with the number of times it occurs. */
  ghost predicate Counts(tally: map<string, nat>, names: seq<string>) {
    && (forall name :: name in tally <==> name in names)
    && (forall name :: name in tally ==> tally[name] == multiset(names)[name])
  }

  ghost function Weight(c: Located): real { SeverityWeight(c.severity) as real }
  ghost function Latitude(c: Located): real { c.lat.value }
  ghost function Longitude(c: Located): real { c.lng.value }

  ghost predicate Summarises(members: seq<Located>, h: Hotspot) {
    && h.count == |members|
    && h.severityScore as real == Sum(members, Weight)
    && h.lat * |members| as real == Sum(members, Latitude)
    && h.lng * |members| as real == Sum(members, Longitude)
    && Counts(h.categories, Categories(members))
    && Counts(h.wards, Wards(members))
    && h.complaintIds == Ids(members)
    && h.key in h.complaintIds && forall id :: id in h.complaintIds ==> StringLe(h.key, id)
  }

  // ---- Building it ----

  function Bump(tally: map<string, nat>, name: string): map<string, nat> {
    tally[name := (if name in tally then tally[name] else 0) + 1]
  }

  lemma BumpCounts(tally: map<string, nat>, names: seq<string>, name: string)
    requires Counts(tally, names)
    ensures Counts(Bump(tally, name), names + [name])
  {
    assert name in tally <==> name in multiset(names);
  }

  lemma OneMore(members: seq<Located>, k: nat, categories: map<string, nat>, wards: map<string, nat>)
    requires k < |members|
    requires Counts(categories, Categories(members[..k])) && Counts(wards, Wards(members[..k]))
    ensures Ids(members[..k + 1]) == Ids(members[..k]) + [members[k].id]
    ensures Sum(members[..k + 1], Weight) == Sum(members[..k], Weight) + Weight(members[k])
    ensures Counts(Bump(categories, CategoryName(members[k])), Categories(members[..k + 1]))
    ensures var ward := members[k].ward;
            Counts(if ward.Some? && ward.value != [] then Bump(wards, ward.value) else wards, Wards(members[..k + 1]))
  {
    var m := members[k];
    assert members[..k + 1][..k] == members[..k];
    assert Ids(members[..k + 1]) == Ids(members[..k]) + [m.id];
    assert Categories(members[..k + 1]) == Categories(members[..k]) + [CategoryName(m)];
    BumpCounts(categories, Categories(members[..k]), CategoryName(m));
    if m.ward.Some? && m.ward.value != [] {
      BumpCounts(wards, Wards(members[..k]), m.ward.value);
    } else {
      assert Wards(members[..k + 1]) == Wards(members[..k]);
    }
  }

  /** `min(str(m.get("id")) for m in members)` and the two sums of the centroid. */
  method KeyAndSums(members: seq<Located>) returns (key: string, latSum: real, lngSum: real)
    requires members != []
    ensures key in Ids(members) && forall id :: id in Ids(members) ==> StringLe(key, id)
    ensures latSum == Sum(members, Latitude) && lngSum == Sum(members, Longitude)
  {
    key, latSum, lngSum := members[0].id, 0.0, 0.0;
    StringOrder();
    assert Ids(members)[0] == key;
    for k := 0 to |members|
      invariant latSum == Sum(members[..k], Latitude) && lngSum == Sum(members[..k], Longitude)
      invariant key in Ids(members) && forall i :: 0 <= i < k ==> StringLe(key, Ids(members)[i])
    {
      var m := members[k];
      assert members[..k + 1][..k] == members[..k];
      latSum, lngSum := latSum + m.lat.value, lngSum + m.lng.value;
      assert Ids(members)[k] == m.id;
      if StringLe(m.id, key) { key := m.id; }
    }
    assert members[..|members|] == members;
  }

  lemma NoMembers(members: seq<Located>)
    ensures Sum(members[..0], Weight) == 0.0 && Ids(members[..0]) == []
    ensures Counts(map[], Categories(members[..0])) && Counts(map[], Wards(members[..0]))
  {}

  lemma MeanTimes(sum: real, n: real)
    requires n != 0.0
    ensures sum / n * n == sum
  {}

  method Summarise(members: seq<Located>) returns (h: Hotspot)
    requires members != []
    ensures Summarises(members, h)
  {
    hide Sum, Counts, Categories, Wards, SeverityWeight, Bump;
    var key, latSum, lngSum := KeyAndSums(members);
    var n := |members| as real;
    NoMembers(members);
    MeanTimes(latSum, n);
    MeanTimes(lngSum, n);
    var count, severity, categories, wards, ids := 0, 0, map[], map[], [];
    for k := 0 to |members|
      invariant count == k
      invariant severity as real == Sum(members[..k], Weight)
      invariant Counts(categories, Categories(members[..k]))
      invariant Counts(wards, Wards(members[..k]))
      invariant ids == Ids(members[..k])
    {
      var m := members[k];
      OneMore(members, k, categories, wards);
      count, severity := count + 1, severity + SeverityWeight(m.severity);
      categories := Bump(categories, CategoryName(m));
      if m.ward.Some? && m.ward.value != [] {
        wards := Bump(wards, m.ward.value);
      }
      ids := ids + [m.id];
    }
    assert members[..|members|] == members;
    h := Hotspot(key, latSum / n, lngSum / n, count, severity, categories, wards, ids);
  }

  /** `(-severity_score, -count, key)` */
  predicate HotspotLe(a: Hotspot, b: Hotspot) {
    if a.severityScore != b.severityScore then a.severityScore > b.severityScore
    else if a.count != b.count then a.count > b.count
    else StringLe(a.key, b.key)
  }

  ghost function LargeEnough(groups: seq<seq<nat>>, minCount: int): seq<seq<nat>> {
    if groups == [] then []
    else
      LargeEnough(groups[..|groups| - 1], minCount)
      + if |groups[|groups| - 1]| < minCount then [] else [groups[|groups| - 1]]
  }

  function Records(items: seq<Located>, group: seq<nat>): seq<Located>
    requires forall k :: 0 <= k < |group| ==> group[k] < |items|
  {
    seq(|group|, k requires 0 <= k < |group| => items[group[k]])
  }

  ghost predicate AllSummarise(items: seq<Located>, groups: seq<seq<nat>>, hotspots: seq<Hotspot>) {
    && |hotspots| == |groups|
    && forall g :: 0 <= g < |groups| ==>
         (forall k :: 0 <= k < |groups[g]| ==> groups[g][k] < |items|)
           && Summarises(Records(items, groups[g]), hotspots[g])
  }

  /** The records to cluster with their buckets. */
  ghost function SceneOf(items: seq<Located>, g: Geometry, link: real): (scene: Scene)
    requires link > 0.0
    ensures scene.Valid()
  {
    Scene(items, seq(|items|, i requires 0 <= i < |items| => CellOf(items[i], g, link)), g, link)
  }

  /** Linking and gathering: the groups are the connected components of the compared, close pairs. */
  method Cluster(items: seq<Located>, geometry: Geometry, link: real) returns (groups: seq<seq<nat>>)
    requires link > 0.0
    ensures AreComponents(SceneOf(items, geometry, link).Links(), |items|, groups)
  {
    var scene, buckets := FillBuckets(items, geometry, link);
    assert scene == SceneOf(items, geometry, link);
    var forest := new Forest(|items|);
    LinkAll(scene, buckets, forest);
    ghost var keys;
    groups, keys := Gather(forest, |items|);
    GroupsAreComponents(scene.Links(), forest.root, keys, groups);
  }

  method SummariseAll(items: seq<Located>, groups: seq<seq<nat>>, minCount: int) returns (out: seq<Hotspot>)
    requires forall g :: 0 <= g < |groups| ==> groups[g] != [] && forall k :: 0 <= k < |groups[g]| ==>
      groups[g][k] < |items|
    ensures AllSummarise(items, LargeEnough(groups, minCount), out)
  {
    out := [];
    for g := 0 to |groups|
      invariant AllSummarise(items, LargeEnough(groups[..g], minCount), out)
    {
      assert groups[..g + 1][..g] == groups[..g];
      if |groups[g]| >= minCount {
        var h := Summarise(Records(items, groups[g]));
        out := out + [h];
      }
    }
    assert groups[..|groups|] == groups;
  }

  method AggregateHotspots(complaints: seq<Complaint>, geometry: Geometry, link: real,
                           category: Option<string>, ward: Option<string>, minCount: int)
    returns (r: Result<seq<Hotspot>, Failure>, ghost groups: seq<seq<nat>>, ghost hotspots: seq<Hotspot>)
    ensures r.Err? <==> link <= 0.0
    ensures r.Ok? ==>
      var items := Items(complaints, category, ward);
      && AreComponents(SceneOf(items, geometry, link).Links(), |items|, groups)
      && AllSummarise(items, LargeEnough(groups, minCount), hotspots)
      && r.value == SortBy(HotspotLe, hotspots)
  {
    groups, hotspots := [], [];
    if link <= 0.0 {
      return Err(LinkDistanceNotPositive), groups, hotspots;
    }
    var items := Items(complaints, category, ward);
    var clusters := Cluster(items, geometry, link);
    forall g | 0 <= g < |clusters|
      ensures clusters[g] != [] && forall k :: 0 <= k < |clusters[g]| ==> clusters[g][k] < |items|
    {
      assert IsComponent(SceneOf(items, geometry, link).Links(), |items|, clusters[g]);
      assert forall k :: 0 <= k < |clusters[g]| ==> clusters[g][k] in clusters[g];
    }
    var out := SummariseAll(items, clusters, minCount);
    groups, hotspots := clusters, out;
    r := Ok(SortBy(HotspotLe, out));
  }

  // ---- What the clustering amounts to ----

  ghost predicate Close(scene: Scene, i: nat, j: nat) {
    || (i < j < |scene.items| && Near(scene.items[i], scene.items[j], scene.geometry, scene.link))
    || (j < i < |scene.items| && Near(scene.items[j], scene.items[i], scene.geometry, scene.link))
  }

  /** The pairs of records within the link distance of each other, wherever their buckets lie. */
  ghost function CloseLinks(scene: Scene): set<(nat, nat)> {
    set i, j | 0 <= i < |scene.items| && 0 <= j < |scene.items| && Close(scene, i, j) :: (i, j)
  }

  /** Where the grid puts close records into touching buckets, the groups are the single-linkage clusters. */
  lemma SingleLinkage(scene: Scene, groups: seq<seq<nat>>)
    requires scene.Valid() && AreComponents(scene.Links(), |scene.items|, groups)
    requires forall i: nat, j: nat :: Close(scene, i, j) ==> Touch(scene.cells[i], scene.cells[j])
    ensures AreComponents(CloseLinks(scene), |scene.items|, groups)
  {
    forall i: nat, j: nat | i < |scene.items| && j < |scene.items|
      ensures (i, j) in scene.Links() <==> (i, j) in CloseLinks(scene)
    {
      assert scene.Linked((i, j)) <==> Close(scene, i, j);
    }
    assert scene.Links() == CloseLinks(scene);
  }

  /** Close records in buckets that do not touch are joined all the same, by a chain of compared and close pairs. */
  ghost predicate MissedPairsJoined(scene: Scene)
    requires scene.Valid()
  {
    forall i: nat, j: nat ::
      Close(scene, i, j) && !Touch(scene.cells[i], scene.cells[j]) ==> Reaches(scene.Links(), i, j)
  }

  lemma LinksAreClose(scene: Scene)
    requires scene.Valid()
    ensures scene.Links() <= CloseLinks(scene) && Symmetric(scene.Links()) && Symmetric(CloseLinks(scene))
    ensures forall i: nat, j: nat ::
      Close(scene, i, j) && Touch(scene.cells[i], scene.cells[j]) ==> (i, j) in scene.Links()
  {
    forall e | e in scene.Links() ensures e in CloseLinks(scene) {
      assert scene.Linked(e) && Close(scene, e.0, e.1);
    }
    forall i: nat, j: nat | Close(scene, i, j) && Touch(scene.cells[i], scene.cells[j])
      ensures (i, j) in scene.Links() {
      assert scene.Linked((i, j));
    }
  }

  lemma SameReach(scene: Scene, x: nat, y: nat)
    requires scene.Valid() && MissedPairsJoined(scene)
    ensures Reaches(CloseLinks(scene), x, y) <==> Reaches(scene.Links(), x, y)
  {
    LinksAreClose(scene);
    forall e | e in CloseLinks(scene) ensures Reaches(scene.Links(), e.0, e.1) {
      if Touch(scene.cells[e.0], scene.cells[e.1]) { ReachesEdge(scene.Links(), e.0, e.1); }
    }
    if p :| PathBetween(CloseLinks(scene), p, x, y) {
      ReachesThrough(CloseLinks(scene), scene.Links(), p);
    }
    if Reaches(scene.Links(), x, y) {
      ReachesMonotone(scene.Links(), CloseLinks(scene), x, y);
    }
  }

  /** Two members of a component are joined. */
  lemma TogetherReach(edges: set<(nat, nat)>, n: nat, group: seq<nat>, i: nat, j: nat)
    requires IsComponent(edges, n, group) && Symmetric(edges) && i in group && j in group
    ensures Reaches(edges, i, j)
  {
    ReachesSymmetric(edges, group[0], i);
    ReachesTransitive(edges, i, group[0], j);
  }

  lemma CloseIsLink(scene: Scene, i: nat, j: nat)
    requires Close(scene, i, j)
    ensures (i, j) in CloseLinks(scene) && i < |scene.items| && j < |scene.items|
  {}

  /** The groups are the single-linkage clusters exactly when pairs kept apart by the grid are joined all the same. */
  lemma SingleLinkageExactlyWhen(scene: Scene, groups: seq<seq<nat>>)
    requires scene.Valid() && AreComponents(scene.Links(), |scene.items|, groups)
    ensures AreComponents(CloseLinks(scene), |scene.items|, groups) <==> MissedPairsJoined(scene)
  {
    hide Close, Touch, Reaches;
    var n, links, close := |scene.items|, scene.Links(), CloseLinks(scene);
    LinksAreClose(scene);
    if MissedPairsJoined(scene) {
      forall g | 0 <= g < |groups| ensures IsComponent(close, n, groups[g]) {
        assert IsComponent(links, n, groups[g]);
        forall i: nat ensures i in groups[g] <==> i < n && Reaches(close, groups[g][0], i) {
          SameReach(scene, groups[g][0], i);
        }
      }
    }
    if AreComponents(close, n, groups) {
      forall i: nat, j: nat | Close(scene, i, j) ensures Reaches(links, i, j) {
        CloseIsLink(scene, i, j);
        assert IsMember(groups, i);
        var g :| 0 <= g < |groups| && i in groups[g];
        assert IsComponent(close, n, groups[g]) && IsComponent(links, n, groups[g]);
        ReachesEdge(close, i, j);
        ReachesTransitive(close, groups[g][0], i, j);
        TogetherReach(links, n, groups[g], i, j);
      }
    }
  }

  function Record(id: string, lat: real, lng: real): Located {
    Complaint(id, Some(lat), Some(lng), None, None, None)
  }

  lemma LongPathHasEdge(edges: set<(nat, nat)>, p: seq<nat>)
    requires IsPath(edges, p)
    ensures |p| == 1 || edges != {}
  {
    if |p| > 1 { assert (p[0], p[0 + 1]) in edges; }
  }

  lemma NoLinkNoReach(edges: set<(nat, nat)>)
    requires edges == {}
    ensures !Reaches(edges, 0, 1)
  {
    forall p: seq<nat> ensures !PathBetween(edges, p, 0, 1) {
      if IsPath(edges, p) { LongPathHasEdge(edges, p); }
    }
  }

  /**
   The grid takes a degree of latitude for 111320 metres; on the sphere of the distance formula it is about 111195.
   Two records on one meridian can so be within 111.32 metres of each other in rows that do not touch.
   */
  lemma MeridianPairMissed(g: Geometry, lng: real, perDegree: real, groups: seq<seq<nat>>)
    requires 0.0 <= perDegree <= 111264.0
    requires forall x, y :: g.haversine(x, lng, y, lng) == perDegree * (if x <= y then y - x else x - y)
    ensures var scene := SceneOf([Record("a", 28.6009995, lng), Record("b", 28.602, lng)], g, 111.32);
            scene.Valid() && Close(scene, 0, 1)
            && (AreComponents(scene.Links(), 2, groups) ==> !AreComponents(CloseLinks(scene), 2, groups))
  {
    var scene := SceneOf([Record("a", 28.6009995, lng), Record("b", 28.602, lng)], g, 111.32);
    assert scene.cells[0].0 == 28600 && scene.cells[1].0 == 28602;
    assert perDegree * (28.602 - 28.6009995) <= 111.32;
    assert Close(scene, 0, 1);
    assert !Touch(scene.cells[0], scene.cells[1]) && !scene.Compared(0, 1);
    assert scene.Links() == {};
    NoLinkNoReach(scene.Links());
    if AreComponents(scene.Links(), 2, groups) {
      SingleLinkageExactlyWhen(scene, groups);
    }
  }

  ghost function TotalCount(hotspots: seq<Hotspot>): int {
    if hotspots == [] then 0 else hotspots[0].count + TotalCount(hotspots[1..])
  }

  lemma {:induction false} InsertKeepsTotal(h: Hotspot, s: seq<Hotspot>)
    ensures TotalCount(InsertBy(HotspotLe, h, s)) == h.count + TotalCount(s)
  {
    if s != [] && !HotspotLe(h, s[0]) {
      InsertKeepsTotal(h, s[1..]);
    }
  }

  lemma {:induction false} SortKeepsTotal(s: seq<Hotspot>)
    ensures TotalCount(SortBy(HotspotLe, s)) == TotalCount(s)
  {
    if s != [] {
      SortKeepsTotal(s[1..]);
      InsertKeepsTotal(s[0], SortBy(HotspotLe, s[1..]));
    }
  }

  lemma {:induction false} TotalIsSize(items: seq<Located>, groups: seq<seq<nat>>, hotspots: seq<Hotspot>)
    requires AllSummarise(items, groups, hotspots)
    ensures TotalCount(hotspots) == TotalSize(groups)
  {
    if groups != [] {
      TotalIsSize(items, groups[1..], hotspots[1..]);
    }
  }

  lemma {:induction false} AllLargeEnough(groups: seq<seq<nat>>, minCount: int)
    requires minCount <= 1 && forall g :: 0 <= g < |groups| ==> groups[g] != []
    ensures LargeEnough(groups, minCount) == groups
  {
    if groups != [] {
      AllLargeEnough(groups[..|groups| - 1], minCount);
    }
  }

  /** With `min_count` at most 1 the counts add up to the records kept: none is lost, none is in two groups. */
  lemma CountsAddUp(items: seq<Located>, edges: set<(nat, nat)>, groups: seq<seq<nat>>, hotspots: seq<Hotspot>,
                    minCount: int)
    requires minCount <= 1
    requires Symmetric(edges) && AreComponents(edges, |items|, groups)
    requires AllSummarise(items, LargeEnough(groups, minCount), hotspots)
    ensures TotalCount(SortBy(HotspotLe, hotspots)) == |items|
  {
    forall g | 0 <= g < |groups| ensures groups[g] != [] {
      assert IsComponent(edges, |items|, groups[g]);
    }
    AllLargeEnough(groups, minCount);
    SortKeepsTotal(hotspots);
    TotalIsSize(items, groups, hotspots);
    ComponentsPartition(edges, |items|, groups);
  }

  /** The result lists the worst hotspots first. */
  lemma WorstFirst(hotspots: seq<Hotspot>)
    ensures SortedBy(HotspotLe, SortBy(HotspotLe, hotspots))
    ensures multiset(SortBy(HotspotLe, hotspots)) == multiset(hotspots)
  {
    StringOrder();
    SortSorts(HotspotLe, hotspots);
    SortPermutes(HotspotLe, hotspots);
  }
}
