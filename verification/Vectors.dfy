/** The dense index (app/rag/vector_search.py), over the reals. */
module Vectors {
  import opened Wrappers
  import opened Ordering
  import opened Corpus

  type Id = string
  type Vector = seq<real>

  datatype Error = WrongDimensions | ZeroVector

  function Scale(v: Vector, n: real): Vector
    requires n != 0.0
  {
    seq(|v|, i requires 0 <= i < |v| => v[i] / n)
  }

  function Dot(a: Vector, b: Vector): real
    requires |a| == |b|
  {
    if a == [] then 0.0 else a[0] * b[0] + Dot(a[1..], b[1..])
  }

  /** A stored vector with the id of its chunk. */
  datatype Entry = Entry(id: Id, row: Vector)

  function EntryId(e: Entry): Id { e.id }

  ghost function Zip(ids: seq<Id>, matrix: seq<Vector>): seq<Entry>
    requires |ids| == |matrix|
  {
    seq(|ids|, i requires 0 <= i < |ids| => Entry(ids[i], matrix[i]))
  }

  ghost function Without(entries: seq<Entry>, id: Id): seq<Entry> {
    if entries == [] then []
    else (if entries[0].id == id then [] else [entries[0]]) + Without(entries[1..], id)
  }

  lemma {:induction false} WithoutAbsent(entries: seq<Entry>, id: Id)
    requires forall i :: 0 <= i < |entries| ==> entries[i].id != id
    ensures Without(entries, id) == entries
  {
    if entries != [] {
      WithoutAbsent(entries[1..], id);
      assert entries == [entries[0]] + entries[1..];
    }
  }

  /** With distinct ids, dropping one position is dropping one id. */
  lemma {:induction false} WithoutAt(entries: seq<Entry>, at: nat)
    requires at < |entries| && DistinctBy(EntryId, entries)
    ensures Without(entries, entries[at].id) == entries[..at] + entries[at + 1..]
  {
    if at == 0 {
      assert forall i :: 1 <= i < |entries| ==> EntryId(entries[i]) != EntryId(entries[0]);
      WithoutAbsent(entries[1..], entries[0].id);
    } else {
      assert EntryId(entries[0]) != EntryId(entries[at]);
      var rest := entries[1..];
      assert forall i :: 0 <= i < |rest| ==> rest[i] == entries[i + 1];
      WithoutAt(rest, at - 1);
      assert [entries[0]] + (rest[..at - 1] + rest[at..]) == entries[..at] + entries[at + 1..];
    }
  }

  datatype Hit = Hit(chunkId: Id, similarity: real)

  /** `(-similarity, chunk_id)` */
  predicate HitLe(a: Hit, b: Hit) {
    a.similarity > b.similarity || (a.similarity == b.similarity && StringLe(a.chunkId, b.chunkId))
  }

  function HitId(h: Hit): Id { h.chunkId }

  /** Every stored vector is compared; those similar enough whose chunk is visible are hits. */
  ghost function Matching(entries: seq<Entry>, chunks: map<Id, Chunk>, q: Vector, least: real,
                          visible: Chunk -> bool): seq<Hit>
    requires forall i :: 0 <= i < |entries| ==> |entries[i].row| == |q| && entries[i].id in chunks
  {
    if entries == [] then []
    else
      var last := entries[|entries| - 1];
      Matching(entries[..|entries| - 1], chunks, q, least, visible)
      + if Dot(last.row, q) >= least && visible(chunks[last.id]) then [Hit(last.id, Dot(last.row, q))] else []
  }

  /** The hit of the `i`-th entry, if its row is similar enough and its chunk visible. */
  ghost predicate IsMatch(entries: seq<Entry>, chunks: map<Id, Chunk>, q: Vector, least: real, visible: Chunk -> bool,
                          i: int, h: Hit)
    requires forall i :: 0 <= i < |entries| ==> |entries[i].row| == |q| && entries[i].id in chunks
  {
    && 0 <= i < |entries| && h == Hit(entries[i].id, Dot(entries[i].row, q))
    && h.similarity >= least && visible(chunks[h.chunkId])
  }

  lemma MatchAmongMore(entries: seq<Entry>, before: seq<Entry>, chunks: map<Id, Chunk>, q: Vector, least: real,
                       visible: Chunk -> bool, h: Hit)
    requires forall i :: 0 <= i < |entries| ==> |entries[i].row| == |q| && entries[i].id in chunks
    requires entries != [] && before == entries[..|entries| - 1]
    ensures (exists i :: IsMatch(entries, chunks, q, least, visible, i, h))
       <==> (exists i :: IsMatch(before, chunks, q, least, visible, i, h))
            || IsMatch(entries, chunks, q, least, visible, |entries| - 1, h)
  {
    hide Dot;
    forall i | 0 <= i < |before|
      ensures IsMatch(before, chunks, q, least, visible, i, h) <==> IsMatch(entries, chunks, q, least, visible, i, h) {}
  }

  /** The hits are those of the entries that match, no more and no less, each once. */
  lemma {:induction false} MatchingHits(entries: seq<Entry>, chunks: map<Id, Chunk>, q: Vector, least: real,
                                        visible: Chunk -> bool)
    requires forall i :: 0 <= i < |entries| ==> |entries[i].row| == |q| && entries[i].id in chunks
    requires DistinctBy(EntryId, entries)
    ensures DistinctBy(HitId, Matching(entries, chunks, q, least, visible))
    ensures forall h :: h in Matching(entries, chunks, q, least, visible)
                        <==> exists i :: IsMatch(entries, chunks, q, least, visible, i, h)
  {
    hide Dot;
    if entries != [] {
      var n := |entries| - 1;
      var before := entries[..n];
      MatchingHits(before, chunks, q, least, visible);
      var hits := Matching(before, chunks, q, least, visible);
      forall h | h in hits ensures h.chunkId != entries[n].id {
        var i :| IsMatch(before, chunks, q, least, visible, i, h);
        assert EntryId(entries[i]) != EntryId(entries[n]);
      }
      forall h ensures h in Matching(entries, chunks, q, least, visible)
                       <==> exists i :: IsMatch(entries, chunks, q, least, visible, i, h) {
        MatchAmongMore(entries, before, chunks, q, least, visible, h);
      }
    }
  }

  lemma Appended(ids: seq<Id>, matrix: seq<Vector>, id: Id, row: Vector)
    requires |ids| == |matrix| && DistinctBy(EntryId, Zip(ids, matrix)) && id !in ids
    ensures Zip(ids + [id], matrix + [row]) == Zip(ids, matrix) + [Entry(id, row)]
    ensures DistinctBy(EntryId, Zip(ids + [id], matrix + [row]))
  {
    var all := Zip(ids, matrix);
    assert forall i :: 0 <= i < |all| ==> EntryId(all[i]) == ids[i];
    assert Zip(ids + [id], matrix + [row]) == all + [Entry(id, row)];
  }

  lemma RemoveAt(ids: seq<Id>, matrix: seq<Vector>, at: nat)
    requires at < |ids| == |matrix| && DistinctBy(EntryId, Zip(ids, matrix))
    ensures var ids', matrix' := ids[..at] + ids[at + 1..], matrix[..at] + matrix[at + 1..];
            && Zip(ids', matrix') == Zip(ids, matrix)[..at] + Zip(ids, matrix)[at + 1..]
            && DistinctBy(EntryId, Zip(ids', matrix'))
            && forall id :: id in ids' <==> id in ids && id != ids[at]
  {
    var all := Zip(ids, matrix);
    assert forall i :: 0 <= i < |all| ==> EntryId(all[i]) == ids[i];
    var left := all[..at] + all[at + 1..];
    forall i, j | 0 <= i < j < |left| ensures EntryId(left[i]) != EntryId(left[j]) {
      var i', j' := if i < at then i else i + 1, if j < at then j else j + 1;
      assert left[i] == all[i'] && left[j] == all[j'];
    }
    var ids' := ids[..at] + ids[at + 1..];
    forall id ensures id in ids' <==> id in ids && id != ids[at] {
      if id in ids && id != ids[at] {
        var k :| 0 <= k < |ids| && ids[k] == id;
        assert ids'[if k < at then k else k - 1] == id;
      }
      if id in ids' {
        var k :| 0 <= k < |ids'| && ids'[k] == id;
        assert EntryId(all[if k < at then k else k + 1]) != EntryId(all[at]);
      }
    }
  }

  class InMemoryVectorIndex {
    const dimensions: nat
    const norm: Vector -> real
    var ids: seq<Id>
    var chunks: map<Id, Chunk>
    var matrix: seq<Vector>

    /** Ids and rows are aligned, and the chunks are those of the ids. */
    ghost predicate Valid()
      reads this
    {
      && dimensions > 0 && |ids| == |matrix|
      && DistinctBy(EntryId, Zip(ids, matrix))
      && (forall i :: 0 <= i < |matrix| ==> |matrix[i]| == dimensions)
      && (forall id :: id in chunks <==> id in ids)
      && (forall id :: id in chunks ==> chunks[id].chunkId == id)
    }

    ghost function Entries(): seq<Entry>
      requires Valid()
      reads this
    {
      Zip(ids, matrix)
    }

    constructor (dimensions: nat, norm: Vector -> real)
      requires dimensions > 0
      ensures Valid() && Entries() == [] && chunks == map[] && this.dimensions == dimensions && this.norm == norm
    {
      this.dimensions, this.norm, ids, chunks, matrix := dimensions, norm, [], map[], [];
    }

    predicate Acceptable(v: Vector) {
      |v| == dimensions && norm(v) != 0.0
    }

    method Remove(id: Id)
      requires Valid()
      modifies this
      ensures Valid() && Entries() == Without(old(Entries()), id) && chunks == old(chunks) - {id}
    {
      ghost var before := Entries();
      if id !in chunks {
        WithoutAbsent(before, id);
        assert chunks == chunks - {id};
        return;
      }
      var idx := 0;
      while ids[idx] != id
        invariant idx < |ids| && id !in ids[..idx]
        decreases |ids| - idx
      {
        idx := idx + 1;
        assert ids[..idx] == ids[..idx - 1] + [ids[idx - 1]];
        assert id in ids[idx..];
      }
      WithoutAt(before, idx);
      RemoveAt(ids, matrix, idx);
      ids, chunks, matrix := ids[..idx] + ids[idx + 1..], chunks - {id}, matrix[..idx] + matrix[idx + 1..];
    }

    /** An unusable vector is refused before anything changes. */
    method Add(chunk: Chunk, v: Vector) returns (error: Option<Error>)
      requires Valid()
      modifies this
      ensures Valid() && (error.None? <==> Acceptable(v))
      ensures error.Some? ==> Entries() == old(Entries()) && chunks == old(chunks)
      ensures error.None? ==>
        && Entries() == Without(old(Entries()), chunk.chunkId) + [Entry(chunk.chunkId, Scale(v, norm(v)))]
        && chunks == old(chunks)[chunk.chunkId := chunk]
    {
      if |v| != dimensions {
        return Some(WrongDimensions);
      }
      if norm(v) == 0.0 {
        return Some(ZeroVector);
      }
      var row := Scale(v, norm(v));
      ghost var before := Entries();
      if chunk.chunkId in chunks {
        Remove(chunk.chunkId);
      } else {
        WithoutAbsent(before, chunk.chunkId);
      }
      Appended(ids, matrix, chunk.chunkId, row);
      ids, chunks, matrix := ids + [chunk.chunkId], chunks[chunk.chunkId := chunk], matrix + [row];
      error := None;
    }

    /** Exact search: the ranking of all visible, similar enough vectors. */
    method Search(query: Vector, topK: int, least: real, visible: Chunk -> bool) returns (r: Result<seq<Hit>, Error>)
      requires Valid()
      ensures r.Err? <==> |query| != dimensions
      ensures r.Ok? && norm(query) == 0.0 ==> r.value == []
      ensures r.Ok? && norm(query) != 0.0 ==>
        r.value == Take(SortBy(HitLe, Matching(Entries(), chunks, Scale(query, norm(query)), least, visible)), topK)
    {
      if |query| != dimensions {
        return Err(WrongDimensions);
      }
      if |ids| == 0 || norm(query) == 0.0 {
        return Ok([]);
      }
      var q := Scale(query, norm(query));
      var hits: seq<Hit> := [];
      ghost var entries := Entries();
      for i := 0 to |ids|
        invariant hits == Matching(entries[..i], chunks, q, least, visible)
      {
        assert entries[..i + 1][..i] == entries[..i] && entries[i] == Entry(ids[i], matrix[i]);
        var s := Dot(matrix[i], q);
        if s >= least && visible(chunks[ids[i]]) {
          hits := hits + [Hit(ids[i], s)];
        }
      }
      assert entries[..|ids|] == entries;
      r := Ok(Take(SortBy(HitLe, hits), topK));
    }
  }

  /** The entries whose ids are not in `gone`. */
  ghost function WithoutSet(entries: seq<Entry>, gone: set<Id>): seq<Entry> {
    if entries == [] then []
    else (if entries[0].id in gone then [] else [entries[0]]) + WithoutSet(entries[1..], gone)
  }

  lemma {:induction false} WithoutIsSet(entries: seq<Entry>, id: Id)
    ensures Without(entries, id) == WithoutSet(entries, {id})
  {
    if entries != [] { WithoutIsSet(entries[1..], id); }
  }

  lemma {:induction false} WithoutBoth(entries: seq<Entry>, a: set<Id>, b: set<Id>)
    ensures WithoutSet(WithoutSet(entries, a), b) == WithoutSet(entries, a + b)
  {
    if entries != [] {
      WithoutBoth(entries[1..], a, b);
      var rest := WithoutSet(entries[1..], a);
      assert [] + rest == rest && ([entries[0]] + rest)[1..] == rest;
    }
  }

  lemma {:induction false} WithoutAppended(entries: seq<Entry>, e: Entry, gone: set<Id>)
    ensures WithoutSet(entries + [e], gone) == WithoutSet(entries, gone) + if e.id in gone then [] else [e]
  {
    if entries == [] {
      assert entries + [e] == [e];
    } else {
      WithoutAppended(entries[1..], e, gone);
      assert (entries + [e])[1..] == entries[1..] + [e];
    }
  }

  lemma {:induction false} WithoutOthers(entries: seq<Entry>, gone: set<Id>)
    requires forall i :: 0 <= i < |entries| ==> entries[i].id !in gone
    ensures WithoutSet(entries, gone) == entries
  {
    if entries != [] {
      WithoutOthers(entries[1..], gone);
      assert entries == [entries[0]] + entries[1..];
    }
  }
}
