/**
 What the similarity of the dense index measures (app/rag/vector_search.py): with rows of length one it is the cosine,
 and the hits are the nearest neighbours.
 */
module VectorGeometry {
  import opened Wrappers
  import opened Ordering
  import opened Arithmetic
  import opened Corpus
  import opened Vectors

  /** The Euclidean norm. */
  ghost predicate IsNorm(norm: Vector -> real) {
    forall v :: norm(v) >= 0.0 && Times(norm(v), norm(v)) == Dot(v, v)
  }

  /** The square of the distance of two points. */
  function Apart(a: Vector, b: Vector): real
    requires |a| == |b|
  {
    if a == [] then 0.0 else Square(a[0] - b[0]) + Apart(a[1..], b[1..])
  }

  ghost predicate IsUnit(v: Vector) {
    Dot(v, v) == 1.0
  }

  lemma {:induction false} DotCommutes(a: Vector, b: Vector)
    requires |a| == |b|
    ensures Dot(a, b) == Dot(b, a)
  {
    if a != [] { DotCommutes(a[1..], b[1..]); }
  }

  lemma SquareOfDifference(x: real, y: real)
    ensures Square(x - y) == x * x - 2.0 * (x * y) + y * y
  {}

  /** The law of cosines. */
  lemma {:induction false} ApartIs(a: Vector, b: Vector)
    requires |a| == |b|
    ensures Apart(a, b) == Dot(a, a) - 2.0 * Dot(a, b) + Dot(b, b)
  {
    if a != [] {
      ApartIs(a[1..], b[1..]);
      SquareOfDifference(a[0], b[0]);
    }
  }

  lemma {:induction false} ApartPositive(a: Vector, b: Vector)
    requires |a| == |b|
    ensures Apart(a, b) >= 0.0
    ensures Apart(a, b) == 0.0 <==> a == b
  {
    hide Square;
    if a != [] {
      SquareNonNegative(a[0] - b[0]);
      ApartPositive(a[1..], b[1..]);
      assert a == [a[0]] + a[1..] && b == [b[0]] + b[1..];
    }
  }

  lemma ScaledDot(x: real, y: real, n: real)
    requires n != 0.0
    ensures n * (x / n * y) == x * y
  {
    DivideBack(x, n);
    var q := x / n;
    assert Times(n, q) == x;
    assert n * (q * y) == (n * q) * y;
  }

  lemma {:induction false} DotOfScaled(a: Vector, n: real, b: Vector)
    requires n != 0.0 && |a| == |b|
    ensures Times(n, Dot(Scale(a, n), b)) == Dot(a, b)
  {
    if a == [] {
      TimesSum(n, 0.0, 0.0);
    } else {
      var s := Scale(a, n);
      assert s[1..] == Scale(a[1..], n);
      DotOfScaled(a[1..], n, b[1..]);
      ScaledDot(a[0], b[0], n);
      TimesSum(n, s[0] * b[0], Dot(s[1..], b[1..]));
    }
  }

  lemma ScaleLength(v: Vector, n: real)
    requires n != 0.0
    ensures |Scale(v, n)| == |v|
  {}

  lemma TimesTwice(n: real, x: real, y: real, z: real)
    requires n > 0.0 && Times(n, x) == y && Times(n, y) == z && z == Times(n, n)
    ensures x == 1.0
  {
    SameFactor(n, y, n);
    TimesCommutes(n, 1.0);
    assert Times(1.0, n) == n;
    SameFactor(n, x, 1.0);
  }

  /** The stored row of an acceptable vector has length one. */
  lemma RowIsUnit(v: Vector, norm: Vector -> real)
    requires IsNorm(norm) && norm(v) != 0.0
    ensures IsUnit(Scale(v, norm(v)))
  {
    hide Times, Dot, Scale;
    var n, row := norm(v), Scale(v, norm(v));
    ScaleLength(v, n);
    DotOfScaled(v, n, v);
    DotOfScaled(v, n, row);
    DotCommutes(v, row);
    TimesTwice(n, Dot(row, row), Dot(v, row), Dot(v, v));
  }

  /** Similarity is the cosine: multiplied by both lengths it is the product of the two vectors as they were given. */
  lemma SimilarityIsCosine(a: Vector, b: Vector, norm: Vector -> real)
    requires IsNorm(norm) && |a| == |b| && norm(a) != 0.0 && norm(b) != 0.0
    ensures Times(norm(a), Times(norm(b), Dot(Scale(a, norm(a)), Scale(b, norm(b))))) == Dot(a, b)
  {
    hide Times, Dot, Scale;
    var x, y := Scale(a, norm(a)), Scale(b, norm(b));
    ScaleLength(a, norm(a));
    ScaleLength(b, norm(b));
    DotCommutes(x, y);
    DotOfScaled(b, norm(b), x);
    DotCommutes(b, x);
    DotOfScaled(a, norm(a), b);
  }

  /** Rows of length one are at most 1 similar, and 1 only if they are the same. */
  lemma SimilarityAtMostOne(a: Vector, b: Vector)
    requires |a| == |b| && IsUnit(a) && IsUnit(b)
    ensures Dot(a, b) <= 1.0 && (Dot(a, b) == 1.0 <==> a == b)
    ensures Apart(a, b) == 2.0 - 2.0 * Dot(a, b)
  {
    ApartIs(a, b);
    ApartPositive(a, b);
  }

  // ---- The hits of a search ----

  ghost predicate AllUnit(entries: seq<Entry>, size: nat) {
    forall i :: 0 <= i < |entries| ==> |entries[i].row| == size && IsUnit(entries[i].row)
  }

  lemma {:induction false} WithoutKeepsUnits(entries: seq<Entry>, id: Id, size: nat)
    requires AllUnit(entries, size)
    ensures AllUnit(Without(entries, id), size)
  {
    if entries != [] {
      assert AllUnit(entries[1..], size);
      WithoutKeepsUnits(entries[1..], id, size);
    }
  }

  /** What `Add` leaves has only rows of length one, if there were no others before. */
  lemma AddKeepsUnits(entries: seq<Entry>, id: Id, v: Vector, norm: Vector -> real)
    requires IsNorm(norm) && norm(v) != 0.0 && AllUnit(entries, |v|)
    ensures AllUnit(Without(entries, id) + [Entry(id, Scale(v, norm(v)))], |v|)
  {
    RowIsUnit(v, norm);
    WithoutKeepsUnits(entries, id, |v|);
  }

  lemma HitOfEntry(entries: seq<Entry>, chunks: map<Id, Chunk>, q: Vector, least: real, visible: Chunk -> bool, i: nat,
                   h: Hit)
    requires forall e :: 0 <= e < |entries| ==> |entries[e].row| == |q| && entries[e].id in chunks
    requires DistinctBy(EntryId, entries) && i < |entries| && h.chunkId == entries[i].id
    requires h in SortBy(HitLe, Matching(entries, chunks, q, least, visible))
    ensures h.similarity == Dot(entries[i].row, q)
  {
    hide Dot, Matching;
    SortMembers(HitLe, Matching(entries, chunks, q, least, visible), h);
    MatchingHits(entries, chunks, q, least, visible);
    var k :| IsMatch(entries, chunks, q, least, visible, k, h);
    assert EntryId(entries[k]) == EntryId(entries[i]);
  }

  /**
   The hits are in the order of their rows' distance from the query, the nearest first, and by id where it is equal.
   */
  lemma NearestFirst(entries: seq<Entry>, chunks: map<Id, Chunk>, q: Vector, least: real, visible: Chunk -> bool,
                     topK: int, i: nat, j: nat, m: nat, n: nat)
    requires IsUnit(q) && AllUnit(entries, |q|) && DistinctBy(EntryId, entries)
    requires forall e :: 0 <= e < |entries| ==> entries[e].id in chunks
    requires var hits := Take(SortBy(HitLe, Matching(entries, chunks, q, least, visible)), topK);
             && m < n < |hits| && i < |entries| && j < |entries|
             && hits[m].chunkId == entries[i].id && hits[n].chunkId == entries[j].id
    ensures || Apart(entries[i].row, q) < Apart(entries[j].row, q)
            || (Apart(entries[i].row, q) == Apart(entries[j].row, q) && StringLe(entries[i].id, entries[j].id))
  {
    hide Dot, Matching;
    var found := Matching(entries, chunks, q, least, visible);
    var hits := SortBy(HitLe, found);
    StringOrder();
    SortSorts(HitLe, found);
    assert HitLe(hits[m], hits[n]);
    HitOfEntry(entries, chunks, q, least, visible, i, hits[m]);
    HitOfEntry(entries, chunks, q, least, visible, j, hits[n]);
    SimilarityAtMostOne(entries[i].row, q);
    SimilarityAtMostOne(entries[j].row, q);
  }

  /** Only visible rows within the distance that the threshold stands for are found, and every one of them is ranked. */
  lemma FoundExactlyWhen(entries: seq<Entry>, chunks: map<Id, Chunk>, q: Vector, least: real, visible: Chunk -> bool,
                         i: nat)
    requires IsUnit(q) && AllUnit(entries, |q|) && DistinctBy(EntryId, entries) && i < |entries|
    requires forall e :: 0 <= e < |entries| ==> entries[e].id in chunks
    ensures (exists h :: h in Matching(entries, chunks, q, least, visible) && h.chunkId == entries[i].id)
       <==> Apart(entries[i].row, q) <= 2.0 - 2.0 * least && visible(chunks[entries[i].id])
  {
    hide Dot, Matching;
    SimilarityAtMostOne(entries[i].row, q);
    MatchingHits(entries, chunks, q, least, visible);
    var h := Hit(entries[i].id, Dot(entries[i].row, q));
    if g :| g in Matching(entries, chunks, q, least, visible) && g.chunkId == entries[i].id {
      var k :| IsMatch(entries, chunks, q, least, visible, k, g);
      assert EntryId(entries[k]) == EntryId(entries[i]);
    }
    if Apart(entries[i].row, q) <= 2.0 - 2.0 * least && visible(chunks[entries[i].id]) {
      assert IsMatch(entries, chunks, q, least, visible, i, h);
      assert h in Matching(entries, chunks, q, least, visible);
    }
  }
}
