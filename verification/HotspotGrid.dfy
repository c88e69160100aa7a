/** The bucketed comparison pass of `aggregate_hotspots` (app/services/location_service.py). */
module HotspotGrid {
  import opened Wrappers
  import opened Graphs
  import opened DisjointSets

  datatype Complaint = Complaint(
    id: string, lat: Option<real>, lng: Option<real>,
    category: Option<string>, ward: Option<string>, severity: Option<string>)

  type Located = c: Complaint | c.lat.Some? && c.lng.Some?
    witness Complaint([], Some(0.0), Some(0.0), None, None, None)

  /** The trigonometry: the cosine of an angle in degrees, and the distance in metres. */
  datatype Geometry = Geometry(cosine: real -> real, haversine: (real, real, real, real) -> real)

  /** The records that carry coordinates and pass the two optional filters. */
  predicate Kept(c: Complaint, category: Option<string>, ward: Option<string>) {
    && c.lat.Some? && c.lng.Some?
    && (category.None? || category.value == [] || c.category == category)
    && (ward.None? || ward.value == [] || c.ward == ward)
  }

  function Items(complaints: seq<Complaint>, category: Option<string>, ward: Option<string>): seq<Located> {
    if complaints == [] then []
    else
      (if Kept(complaints[0], category, ward) then [complaints[0]] else [])
      + Items(complaints[1..], category, ward)
  }

  function AtLeastCentesimal(x: real): (r: real)
    ensures r > 0.0
  {
    if x > 0.01 then x else 0.01
  }

  /** The bucket of a record: `link_distance_m` in degrees, the longitude scaled at its own latitude. */
  function CellOf(c: Located, g: Geometry, link: real): (int, int)
    requires link > 0.0
  {
    var degLat := link / 111320.0;
    var degLng := degLat / AtLeastCentesimal(g.cosine(c.lat.value));
    ((c.lat.value / degLat).Floor, (c.lng.value / degLng).Floor)
  }

  predicate Near(a: Located, b: Located, g: Geometry, link: real) {
    g.haversine(a.lat.value, a.lng.value, b.lat.value, b.lng.value) <= link
  }

  predicate Touch(a: (int, int), b: (int, int)) {
    -1 <= b.0 - a.0 <= 1 && -1 <= b.1 - a.1 <= 1
  }

  /** The records to cluster, and their buckets. */
  datatype Scene = Scene(items: seq<Located>, cells: seq<(int, int)>, geometry: Geometry, link: real) {
    ghost predicate Valid() {
      && link > 0.0 && |cells| == |items|
      && forall i :: 0 <= i < |items| ==> cells[i] == CellOf(items[i], geometry, link)
    }

    /** The later record lies in the same or a neighbouring bucket and within the link distance. */
    ghost predicate Compared(i: nat, j: nat)
      requires |cells| == |items|
    {
      i < j < |items| && Touch(cells[i], cells[j]) && Near(items[i], items[j], geometry, link)
    }

    ghost predicate Linked(e: (nat, nat))
      requires |cells| == |items|
    {
      Compared(e.0, e.1) || Compared(e.1, e.0)
    }

    /** All the pairs of records that the algorithm looks at and finds close. */
    ghost function Links(): set<(nat, nat)>
      requires |cells| == |items|
    {
      set i, j | 0 <= i < |items| && 0 <= j < |items| && Linked((i, j)) :: (i, j)
    }
  }

  ghost predicate InCell(cells: seq<(int, int)>, bucket: seq<nat>, key: (int, int)) {
    forall k :: 0 <= k < |bucket| ==> bucket[k] < |cells| && cells[bucket[k]] == key
  }

  /** A bucket holds exactly the records of its cell. */
  ghost predicate AreBuckets(cells: seq<(int, int)>, buckets: map<(int, int), seq<nat>>) {
    && (forall key :: key in buckets ==> InCell(cells, buckets[key], key))
    && (forall j: nat :: j < |cells| ==> cells[j] in buckets && j in buckets[cells[j]])
  }

  lemma AddToBucket(cells: seq<(int, int)>, buckets: map<(int, int), seq<nat>>, key: (int, int))
    requires AreBuckets(cells, buckets)
    ensures AreBuckets(cells + [key], buckets[key := (if key in buckets then buckets[key] else []) + [|cells|]])
  {
    var after := buckets[key := (if key in buckets then buckets[key] else []) + [|cells|]];
    forall q | q in after ensures InCell(cells + [key], after[q], q) {
      assert q in buckets ==> InCell(cells, buckets[q], q);
    }
    forall j: nat | j < |cells| + 1 ensures (cells + [key])[j] in after && j in after[(cells + [key])[j]] {
      if j == |cells| {
        assert after[key][|after[key]| - 1] == j;
      } else {
        assert cells[j] in buckets && j in buckets[cells[j]];
      }
    }
  }

  method FillBuckets(items: seq<Located>, g: Geometry, link: real)
    returns (scene: Scene, buckets: map<(int, int), seq<nat>>)
    requires link > 0.0
    ensures scene.Valid() && scene.items == items && scene.geometry == g && scene.link == link
    ensures AreBuckets(scene.cells, buckets)
  {
    var cells: seq<(int, int)> := [];
    buckets := map[];
    for idx := 0 to |items|
      invariant |cells| == idx && forall i :: 0 <= i < idx ==> cells[i] == CellOf(items[i], g, link)
      invariant AreBuckets(cells, buckets)
    {
      var key := CellOf(items[idx], g, link);
      AddToBucket(cells, buckets, key);
      cells := cells + [key];
      buckets := buckets[key := (if key in buckets then buckets[key] else []) + [idx]];
    }
    scene := Scene(items, cells, g, link);
  }

  /** Everything linked so far was compared and close, and the forest stands for it. */
  ghost predicate Sound(scene: Scene, edges: set<(nat, nat)>, root: seq<nat>)
    requires |scene.cells| == |scene.items|
  {
    |root| == |scene.items| && Matches(edges, root) && forall e :: e in edges ==> scene.Linked(e)
  }

  /** Record `i` is linked to every later record it has to be compared with. */
  ghost predicate RowDone(scene: Scene, edges: set<(nat, nat)>, i: nat)
    requires |scene.cells| == |scene.items|
  {
    forall j: nat :: scene.Compared(i, j) ==> (i, j) in edges
  }

  ghost predicate Before(a: (int, int), b: (int, int), di: int, dj: int) {
    b.0 - a.0 < di || (b.0 - a.0 == di && b.1 - a.1 < dj)
  }

  /** As `RowDone`, as far as the buckets before the offset `(di, dj)` are concerned. */
  ghost predicate RowUpTo(scene: Scene, edges: set<(nat, nat)>, i: nat, di: int, dj: int)
    requires |scene.cells| == |scene.items|
  {
    forall j: nat :: scene.Compared(i, j) && Before(scene.cells[i], scene.cells[j], di, dj) ==> (i, j) in edges
  }

  /** One bucket against one record: the innermost loop. */
  method LinkCell(scene: Scene, idx: nat, bucket: seq<nat>, forest: Forest, ghost edges: set<(nat, nat)>)
    returns (ghost after: set<(nat, nat)>)
    requires scene.Valid() && idx < |scene.items|
    requires forall k :: 0 <= k < |bucket| ==>
      bucket[k] < |scene.items| && Touch(scene.cells[idx], scene.cells[bucket[k]])
    requires forest.Valid() && Sound(scene, edges, forest.root)
    modifies forest, forest.parent
    ensures forest.Valid() && forest.parent == old(forest.parent)
    ensures Sound(scene, after, forest.root) && edges <= after
    ensures forall k :: 0 <= k < |bucket| && scene.Compared(idx, bucket[k]) ==> (idx, bucket[k]) in after
  {
    after := edges;
    for t := 0 to |bucket|
      invariant forest.Valid() && forest.parent == old(forest.parent)
      invariant Sound(scene, after, forest.root) && edges <= after
      invariant forall k :: 0 <= k < t && scene.Compared(idx, bucket[k]) ==> (idx, bucket[k]) in after
    {
      var other := bucket[t];
      if other > idx {
        if Near(scene.items[idx], scene.items[other], scene.geometry, scene.link) {
          LinkMatches(after, forest.root, other, idx);
          forest.Link(other, idx);
          after := after + {(other, idx), (idx, other)};
        }
      }
    }
  }

  /** Record `i` is linked to every later record of one cell that it has to be compared with. */
  ghost predicate CellDone(scene: Scene, edges: set<(nat, nat)>, i: nat, key: (int, int))
    requires |scene.cells| == |scene.items|
  {
    forall j: nat :: scene.Compared(i, j) && scene.cells[j] == key ==> (i, j) in edges
  }

  function BucketOf(buckets: map<(int, int), seq<nat>>, key: (int, int)): seq<nat> {
    if key in buckets then buckets[key] else []
  }

  lemma BucketTouches(scene: Scene, idx: nat, buckets: map<(int, int), seq<nat>>, di: int, dj: int)
    requires scene.Valid() && idx < |scene.items| && AreBuckets(scene.cells, buckets) && -1 <= di <= 1 && -1 <= dj <= 1
    ensures var bucket := BucketOf(buckets, (scene.cells[idx].0 + di, scene.cells[idx].1 + dj));
            forall k :: 0 <= k < |bucket| ==>
              bucket[k] < |scene.items| && Touch(scene.cells[idx], scene.cells[bucket[k]])
  {
    var key := (scene.cells[idx].0 + di, scene.cells[idx].1 + dj);
    assert key in buckets ==> InCell(scene.cells, buckets[key], key);
  }

  lemma BucketDone(scene: Scene, idx: nat, buckets: map<(int, int), seq<nat>>, key: (int, int), edges: set<(nat, nat)>)
    requires scene.Valid() && AreBuckets(scene.cells, buckets)
    requires var bucket := BucketOf(buckets, key);
             forall k :: 0 <= k < |bucket| && scene.Compared(idx, bucket[k]) ==> (idx, bucket[k]) in edges
    ensures CellDone(scene, edges, idx, key)
  {
    forall j: nat | scene.Compared(idx, j) && scene.cells[j] == key ensures (idx, j) in edges {
      assert j in BucketOf(buckets, key);
    }
  }

  lemma NextCell(scene: Scene, before: set<(nat, nat)>, after: set<(nat, nat)>, i: nat, di: int, dj: int)
    requires |scene.cells| == |scene.items| && i < |scene.items| && before <= after && RowUpTo(scene, before, i, di, dj)
    requires CellDone(scene, after, i, (scene.cells[i].0 + di, scene.cells[i].1 + dj))
    ensures RowUpTo(scene, after, i, di, dj + 1)
  {}

  /** The buckets of a row of cells are three, and the rows are three. */
  lemma RowEdges(scene: Scene, edges: set<(nat, nat)>, i: nat, di: int)
    requires |scene.cells| == |scene.items| && i < |scene.items|
    ensures RowUpTo(scene, edges, i, -1, -1)
    ensures RowUpTo(scene, edges, i, di, 2) ==> RowUpTo(scene, edges, i, di + 1, -1)
    ensures RowUpTo(scene, edges, i, 2, -1) ==> RowDone(scene, edges, i)
  {}

  /** One record against its nine neighbouring buckets. */
  method LinkRow(scene: Scene, idx: nat, buckets: map<(int, int), seq<nat>>, forest: Forest,
                 ghost edges: set<(nat, nat)>)
    returns (ghost after: set<(nat, nat)>)
    requires scene.Valid() && idx < |scene.items| && AreBuckets(scene.cells, buckets)
    requires forest.Valid() && Sound(scene, edges, forest.root)
    modifies forest, forest.parent
    ensures forest.Valid() && forest.parent == old(forest.parent)
    ensures Sound(scene, after, forest.root) && edges <= after && RowDone(scene, after, idx)
  {
    hide AreBuckets, Sound, RowUpTo, RowDone, CellDone, Touch, BucketOf, CellOf;
    after := edges;
    RowEdges(scene, edges, idx, -1);
    var cell := scene.cells[idx];
    for di := -1 to 2
      invariant forest.Valid() && forest.parent == old(forest.parent)
      invariant Sound(scene, after, forest.root) && edges <= after && RowUpTo(scene, after, idx, di, -1)
    {
      for dj := -1 to 2
        invariant forest.Valid() && forest.parent == old(forest.parent)
        invariant Sound(scene, after, forest.root) && edges <= after && RowUpTo(scene, after, idx, di, dj)
      {
        ghost var before, key := after, (cell.0 + di, cell.1 + dj);
        BucketTouches(scene, idx, buckets, di, dj);
        after := LinkCell(scene, idx, BucketOf(buckets, (cell.0 + di, cell.1 + dj)), forest, after);
        BucketDone(scene, idx, buckets, key, after);
        NextCell(scene, before, after, idx, di, dj);
      }
      RowEdges(scene, after, idx, di);
    }
    RowEdges(scene, after, idx, 1);
  }

  lemma SameLinks(scene: Scene, edges: set<(nat, nat)>)
    requires scene.Valid() && Symmetric(edges)
    requires forall e :: e in edges ==> scene.Linked(e)
    requires forall i: nat, j: nat :: scene.Compared(i, j) ==> (i, j) in edges
    ensures edges == scene.Links()
  {
    forall e | e in scene.Links() ensures e in edges {
      assert scene.Linked(e);
      if scene.Compared(e.1, e.0) { assert (e.1, e.0) in edges; }
    }
  }

  /** The pass over all records. */
  method LinkAll(scene: Scene, buckets: map<(int, int), seq<nat>>, forest: Forest)
    requires scene.Valid() && AreBuckets(scene.cells, buckets)
    requires forest.Valid() && forest.root == seq(|scene.items|, i => i)
    modifies forest, forest.parent
    ensures forest.Valid() && forest.parent == old(forest.parent)
    ensures |forest.root| == |scene.items| && Matches(scene.Links(), forest.root)
  {
    ghost var edges: set<(nat, nat)> := {};
    MatchesInitially(|scene.items|);
    for idx := 0 to |scene.items|
      invariant forest.Valid() && forest.parent == old(forest.parent)
      invariant Sound(scene, edges, forest.root)
      invariant forall i: nat :: i < idx ==> RowDone(scene, edges, i)
    {
      ghost var before := edges;
      edges := LinkRow(scene, idx, buckets, forest, edges);
      forall i: nat | i < idx ensures RowDone(scene, edges, i) {
        assert RowDone(scene, before, i);
      }
    }
    forall i: nat, j: nat | scene.Compared(i, j) ensures (i, j) in edges {
      assert RowDone(scene, edges, i);
    }
    SameLinks(scene, edges);
  }
}
