/** `VectorDatabase` of internal/tools/vector_storage/vector_storage.go: the
    embedding matrix as a sequence of rows, the records as a parallel sequence,
    and the operations as methods that run the source's loops and are proved to
    compute the functions of the `Connections` module. Locking, tracing and disk
    persistence are not modelled; every operation is one sequential step. */
module VectorStorage {
  import opened Wrappers
  import opened Sorting
  import opened Similarity
  import opened Connections

  datatype Error =
    | Disabled             // "semantic connections are not enabled"
    | NotFound(id: string) // "vector with id %s not found"

  /** The index of the first record whose id is `id`, or -1. */
  function IndexOf(metadata: seq<Record>, id: Value): (r: int)
    ensures -1 <= r < |metadata|
    ensures r >= 0 ==> GetId(metadata[r]) == id
    ensures forall j :: 0 <= j < |metadata| && (r == -1 || j < r) ==> GetId(metadata[j]) != id
  {
    if metadata == [] then -1
    else if GetId(metadata[0]) == id then 0
    else
      var r := IndexOf(metadata[1..], id);
      assert forall j :: 1 <= j < |metadata| ==> metadata[j] == metadata[1..][j - 1];
      if r == -1 then -1 else r + 1
  }

  /** The embedding as stored: normalized when asked. */
  function Prepared(embedding: seq<real>, normalize: bool): (r: seq<real>)
    ensures |r| == |embedding|
  {
    if normalize then Normalized(embedding) else embedding
  }

  lemma AppendAssoc<T>(a: seq<T>, b: seq<T>, c: seq<T>)
    ensures (a + b) + c == a + (b + c)
  {
  }

  /** One more input record adds one row and one record at the end. */
  lemma BatchStep(records: seq<Record>, i: int, normalize: bool)
    requires forall j :: 0 <= j < |records| ==> HasEmbedding(records[j])
    requires 0 <= i < |records|
    ensures BatchRows(records[..i + 1], normalize)
      == BatchRows(records[..i], normalize) + [Prepared(EmbeddingOf(records[i]), normalize)]
    ensures BatchRecords(records[..i + 1]) == BatchRecords(records[..i]) + [BatchRecord(records[i])]
  {
    assert records[..i + 1][..i] == records[..i] && records[..i + 1][i] == records[i];
  }

  /** The record `AddVector` appends. */
  function NewRecord(id: string, chunkText: string, embedding: seq<real>, md: map<string, Value>): Record {
    map["id" := Str(id), "chunk_text" := Str(chunkText), "embedding" := Floats(embedding),
        "metadata" := Dict(md), "connections" := Items([])]
  }

  predicate HasEmbedding(r: Record) {
    "embedding" in r && r["embedding"].Floats?
  }

  function EmbeddingOf(r: Record): seq<real>
    requires HasEmbedding(r)
  {
    r["embedding"].v
  }

  /** What `AddVectorsBatch` demands of its records: each holds a non-empty
      `[]float64` embedding, all of one width, the table's width if it has
      rows. */
  predicate BatchReady(records: seq<Record>, width: nat) {
    (forall i :: 0 <= i < |records| ==> HasEmbedding(records[i]))
    && forall i :: 0 <= i < |records| ==>
      |EmbeddingOf(records[i])| > 0
      && |EmbeddingOf(records[i])| == (if width == 0 then |EmbeddingOf(records[0])| else width)
  }

  /** The record `AddVectorsBatch` stores for an input record: every key but
      `embedding`, and an empty `connections` list. No id is added. */
  function BatchRecord(r: Record): Record {
    (r - {"embedding"})["connections" := Items([])]
  }

  function BatchRecords(records: seq<Record>): (r: seq<Record>)
    ensures |r| == |records|
  {
    if records == [] then []
    else BatchRecords(records[..|records| - 1]) + [BatchRecord(records[|records| - 1])]
  }

  function BatchRows(records: seq<Record>, normalize: bool): (r: seq<seq<real>>)
    requires forall i :: 0 <= i < |records| ==> HasEmbedding(records[i])
    ensures |r| == |records|
    ensures forall i :: 0 <= i < |records| ==> |r[i]| == |EmbeddingOf(records[i])|
  {
    if records == [] then []
    else
      var n := |records| - 1;
      BatchRows(records[..n], normalize) + [Prepared(EmbeddingOf(records[n]), normalize)]
  }

  /** Every record id is a string and no two records share one. */
  predicate UniqueIds(rs: seq<Record>) {
    (forall i :: 0 <= i < |rs| ==> GetId(rs[i]).Str?)
    && forall i, j :: 0 <= i < j < |rs| ==> GetId(rs[i]) != GetId(rs[j])
  }

  /** The loop of `updateConnections` that builds the updated record's own
      list, with its early exit. */
  method OwnLinksOf(sims: seq<SimilarityResult>, self: Value, k: int) returns (connections: seq<Link>)
    ensures connections == OwnLinks(sims, self, k)
  {
    connections := [];
    var j := 0;
    while j < |sims|
      invariant 0 <= j <= |sims|
      invariant connections + OwnLinks(sims[j..], self, k - |connections|) == OwnLinks(sims, self, k)
    {
      assert sims[j..][1..] == sims[j + 1..];
      var id := GetId(sims[j].Metadata);
      if id != self {
        connections := connections + [Link(id, sims[j].Similarity)];
        if |connections| >= k {
          return;
        }
      }
      j := j + 1;
    }
  }

  /** The inner loop over the ranking for another record: the link back to the
      updated record is appended at the first entry with the record's id. */
  method AppendBackLink(others: seq<Link>, sims: seq<SimilarityResult>, id: Value, self: Value)
    returns (r: seq<Link>)
    ensures r == others + BackLink(sims, id, self)
  {
    var s := 0;
    while s < |sims|
      invariant 0 <= s <= |sims|
      invariant BackScore(sims[s..], id) == BackScore(sims, id)
    {
      assert sims[s..][1..] == sims[s + 1..];
      if GetId(sims[s].Metadata) == id {
        return others + [Link(self, sims[s].Similarity)];
      }
      s := s + 1;
    }
    r := others;
  }

  /** The type assertion `meta["connections"].([]interface{})` of the walk in
      `GetConnectedChunks` as written: it yields the items of an `Items` list and
      fails (a run-time panic in Go) on anything else, a missing key included. */
  function AssertedConnections(r: Record): (res: Option<seq<Value>>)
    ensures res.Some? <==> "connections" in r && r["connections"].Items?
    ensures res.Some? ==> res.value == r["connections"].items
  {
    if "connections" in r && r["connections"].Items? then Some(r["connections"].items) else None
  }

  /** A record fresh from `AddVector` passes the assertion with no links. */
  lemma NewRecordAsserted(id: string, chunkText: string, embedding: seq<real>, md: map<string, Value>)
    ensures AssertedConnections(NewRecord(id, chunkText, embedding, md)) == Some([])
  {
    assert "connections" in NewRecord(id, chunkText, embedding, md);
  }

  /** Once `updateConnections` has run on a table of two rows or more, every
      record's list is a `[]map[string]interface{}`, so the assertion fails on
      whichever record the walk reaches first. */
  lemma ReconnectedFailsAssertion(vectors: seq<seq<real>>, metadata: seq<Record>, index: int, k: nat, i: int)
    requires |vectors| == |metadata| && |vectors| >= 2 && 0 <= index < |vectors|
    requires 0 <= i < |metadata|
    ensures AssertedConnections(Reconnected(vectors, metadata, index, k)[i]) == None
  {
    if i == index {
      ReconnectedOwn(vectors, metadata, index, k);
    } else {
      ReconnectedOther(vectors, metadata, index, k, i);
    }
  }

  /** The walk of `GetConnectedChunks` as a function of the records: the
      visited ids and the result after visiting `id` at depth `d`, starting
      from `visited` and `result`. An id already visited or a depth past the
      limit adds nothing; otherwise the id is marked, and the first record
      with it, if any, is added and its links are followed at the next depth. */
  function Walk(metadata: seq<Record>, id: string, d: int, depth: int, visited: set<string>, result: seq<Record>)
    : (set<string>, seq<Record>)
    decreases if d <= depth then depth - d + 1 else 0, 0, 0
  {
    if d > depth || id in visited then (visited, result)
    else
      var index := IndexOf(metadata, Str(id));
      if index < 0 then (visited + {id}, result)
      else WalkLinks(metadata, ExistingLinks(metadata[index]), 0, d + 1, depth, visited + {id}, result + [metadata[index]])
  }

  /** The walk over `links[c..]`, each link with a string id followed at depth
      `d` in turn. */
  function WalkLinks(metadata: seq<Record>, links: seq<Link>, c: nat, d: int, depth: int,
                     visited: set<string>, result: seq<Record>): (set<string>, seq<Record>)
    requires c <= |links|
    decreases if d <= depth then depth - d + 1 else 0, 1, |links| - c
  {
    if c == |links| then (visited, result)
    else if links[c].id.Str? then
      var next := Walk(metadata, links[c].id.s, d, depth, visited, result);
      WalkLinks(metadata, links, c + 1, d, depth, next.0, next.1)
    else WalkLinks(metadata, links, c + 1, d, depth, visited, result)
  }

  /** The records `GetConnectedChunks` returns for `id`: the walk from `id`
      at depth 0. */
  function Reach(metadata: seq<Record>, id: string, depth: int): seq<Record> {
    Walk(metadata, id, 0, depth, {}, []).1
  }

  /** `id` belongs to the neighbourhood of the hits: it is the string id of a
      hit or of a record reached from one within `depth` links. */
  predicate InNeighbourhood(metadata: seq<Record>, hits: seq<SimilarityResult>, depth: int, id: Value) {
    exists j :: 0 <= j < |hits| && GetId(hits[j].Metadata).Str? &&
      (GetId(hits[j].Metadata) == id || exists rec :: rec in Reach(metadata, GetId(hits[j].Metadata).s, depth) && GetId(rec) == id)
  }

  /** What the inner loop of `SemanticSearch` leaves: every entry of `e` kept,
      the id of every chunk present, and each new entry a chunk under its own
      id. */
  predicate Merged(e: map<string, Record>, chunks: seq<Record>, e': map<string, Record>) {
    (forall key :: key in e ==> key in e' && e'[key] == e[key])
    && (forall key :: key in e' && key !in e ==>
        exists d :: 0 <= d < |chunks| && e'[key] == chunks[d] && GetId(chunks[d]) == Str(key))
    && forall d :: 0 <= d < |chunks| ==> GetId(chunks[d]).Str? && GetId(chunks[d]).s in e'
  }

  /** The inner loop of `SemanticSearch`: each chunk under its id, unless the id
      is taken. */
  method MergeChunks(e: map<string, Record>, chunks: seq<Record>) returns (e': map<string, Record>)
    requires forall d :: 0 <= d < |chunks| ==> GetId(chunks[d]).Str?
    ensures Merged(e, chunks, e')
  {
    e' := e;
    for c := 0 to |chunks|
      invariant forall key :: key in e ==> key in e' && e'[key] == e[key]
      invariant forall key :: key in e' && key !in e ==>
        exists d :: 0 <= d < c && e'[key] == chunks[d] && GetId(chunks[d]) == Str(key)
      invariant forall d :: 0 <= d < c ==> GetId(chunks[d]).s in e'
    {
      var chunkId := GetId(chunks[c]).s;
      if chunkId !in e' {
        e' := e'[chunkId := chunks[c]];
      }
    }
  }

  /** Every entry of the map is a table record under its own id. */
  predicate KeysOwn(metadata: seq<Record>, e: map<string, Record>) {
    forall key :: key in e ==> e[key] in metadata && GetId(e[key]) == Str(key)
  }

  /** The ids of the first `i` hits are keys. */
  predicate HitsIn(hits: seq<SimilarityResult>, i: int, e: map<string, Record>) {
    forall j :: 0 <= j < i && j < |hits| ==> GetId(hits[j].Metadata).Str? && GetId(hits[j].Metadata).s in e
  }

  /** The ids of every record reached from the first `i` hits are keys. */
  predicate ReachIn(metadata: seq<Record>, hits: seq<SimilarityResult>, depth: int, i: int, e: map<string, Record>) {
    forall j, rec ::
      0 <= j < i && j < |hits| && GetId(hits[j].Metadata).Str? && rec in Reach(metadata, GetId(hits[j].Metadata).s, depth)
      ==> GetId(rec).Str? && GetId(rec).s in e
  }

  /** Every key lies in the neighbourhood of the hits. */
  predicate WithinNeighbourhood(metadata: seq<Record>, hits: seq<SimilarityResult>, depth: int, e: map<string, Record>) {
    forall key :: key in e ==> InNeighbourhood(metadata, hits, depth, Str(key))
  }

  /** The map of `SemanticSearch` after the first `i` hits. */
  predicate ExpandedUpTo(metadata: seq<Record>, hits: seq<SimilarityResult>, depth: int, i: int,
                         e: map<string, Record>) {
    KeysOwn(metadata, e) && HitsIn(hits, i, e) && ReachIn(metadata, hits, depth, i, e)
    && WithinNeighbourhood(metadata, hits, depth, e)
  }

  /** One round of the loop of `SemanticSearch`: hit `i` under its id, then the
      records of its walk merged in. */
  lemma ExpandStep(metadata: seq<Record>, hits: seq<SimilarityResult>, depth: int, i: int,
                   e: map<string, Record>, chunks: seq<Record>, e': map<string, Record>)
    requires 0 <= i < |hits| && hits[i].Metadata in metadata && GetId(hits[i].Metadata).Str?
    requires chunks == Reach(metadata, GetId(hits[i].Metadata).s, depth)
    requires forall d :: 0 <= d < |chunks| ==> chunks[d] in metadata
    requires ExpandedUpTo(metadata, hits, depth, i, e)
    requires Merged(e[GetId(hits[i].Metadata).s := hits[i].Metadata], chunks, e')
    ensures ExpandedUpTo(metadata, hits, depth, i + 1, e')
  {
    var e1 := e[GetId(hits[i].Metadata).s := hits[i].Metadata];
    ExpandStepKeys(metadata, hits[i].Metadata, e, chunks, e');
    ExpandStepHits(hits, i, e, e1, e');
    ExpandStepReach(metadata, hits, depth, i, e, chunks, e1, e');
    ExpandStepNeighbourhood(metadata, hits, depth, i, e, chunks, e');
  }

  lemma ExpandStepKeys(metadata: seq<Record>, hit: Record, e: map<string, Record>, chunks: seq<Record>,
                       e': map<string, Record>)
    requires hit in metadata && GetId(hit).Str?
    requires forall d :: 0 <= d < |chunks| ==> chunks[d] in metadata
    requires KeysOwn(metadata, e)
    requires Merged(e[GetId(hit).s := hit], chunks, e')
    ensures KeysOwn(metadata, e')
  {
    var e1 := e[GetId(hit).s := hit];
    forall key | key in e'
      ensures e'[key] in metadata && GetId(e'[key]) == Str(key)
    {
      if key !in e1 {
        var d :| 0 <= d < |chunks| && e'[key] == chunks[d] && GetId(chunks[d]) == Str(key);
      }
    }
  }

  lemma ExpandStepHits(hits: seq<SimilarityResult>, i: int, e: map<string, Record>, e1: map<string, Record>,
                       e': map<string, Record>)
    requires 0 <= i < |hits| && GetId(hits[i].Metadata).Str?
    requires e1 == e[GetId(hits[i].Metadata).s := hits[i].Metadata]
    requires HitsIn(hits, i, e)
    requires forall key :: key in e1 ==> key in e'
    ensures HitsIn(hits, i + 1, e')
  {
  }

  lemma ExpandStepReach(metadata: seq<Record>, hits: seq<SimilarityResult>, depth: int, i: int,
                        e: map<string, Record>, chunks: seq<Record>, e1: map<string, Record>, e': map<string, Record>)
    requires 0 <= i < |hits| && GetId(hits[i].Metadata).Str?
    requires chunks == Reach(metadata, GetId(hits[i].Metadata).s, depth)
    requires e1 == e[GetId(hits[i].Metadata).s := hits[i].Metadata]
    requires ReachIn(metadata, hits, depth, i, e)
    requires forall key :: key in e1 ==> key in e'
    requires forall d :: 0 <= d < |chunks| ==> GetId(chunks[d]).Str? && GetId(chunks[d]).s in e'
    ensures ReachIn(metadata, hits, depth, i + 1, e')
  {
    forall j, rec | 0 <= j < i + 1 && j < |hits| && GetId(hits[j].Metadata).Str?
                    && rec in Reach(metadata, GetId(hits[j].Metadata).s, depth)
      ensures GetId(rec).Str? && GetId(rec).s in e'
    {
      if j == i {
        var d :| 0 <= d < |chunks| && chunks[d] == rec;
      }
    }
  }

  lemma ExpandStepNeighbourhood(metadata: seq<Record>, hits: seq<SimilarityResult>, depth: int, i: int,
                                e: map<string, Record>, chunks: seq<Record>, e': map<string, Record>)
    requires 0 <= i < |hits| && GetId(hits[i].Metadata).Str?
    requires chunks == Reach(metadata, GetId(hits[i].Metadata).s, depth)
    requires WithinNeighbourhood(metadata, hits, depth, e)
    requires Merged(e[GetId(hits[i].Metadata).s := hits[i].Metadata], chunks, e')
    ensures WithinNeighbourhood(metadata, hits, depth, e')
  {
    var id := GetId(hits[i].Metadata).s;
    var e1 := e[id := hits[i].Metadata];
    forall key | key in e'
      ensures InNeighbourhood(metadata, hits, depth, Str(key))
    {
      if key == id {
        assert GetId(hits[i].Metadata) == Str(key);
      } else if key !in e1 {
        var d :| 0 <= d < |chunks| && e'[key] == chunks[d] && GetId(chunks[d]) == Str(key);
        assert chunks[d] in Reach(metadata, id, depth);
      }
    }
  }

  /** Listing the map keeps every id of the hits' walks. */
  lemma ListedReach(metadata: seq<Record>, hits: seq<SimilarityResult>, depth: int, e: map<string, Record>,
                    r: seq<Record>, keys: seq<string>)
    requires forall j :: 0 <= j < |hits| ==> GetId(hits[j].Metadata).Str?
    requires |r| == |keys| && (forall i :: 0 <= i < |keys| ==> keys[i] in e && r[i] == e[keys[i]])
    requires forall key :: key in e ==> key in keys
    requires KeysOwn(metadata, e)
    requires forall j, rec :: 0 <= j < |hits| && rec in Reach(metadata, GetId(hits[j].Metadata).s, depth) ==>
      GetId(rec).Str? && GetId(rec).s in e
    ensures forall j, rec :: 0 <= j < |hits| && rec in Reach(metadata, GetId(hits[j].Metadata).s, depth) ==>
      exists i :: 0 <= i < |r| && GetId(r[i]) == GetId(rec)
  {
    forall j | 0 <= j < |hits|
      ensures forall rec :: rec in Reach(metadata, GetId(hits[j].Metadata).s, depth) ==>
        exists i :: 0 <= i < |r| && GetId(r[i]) == GetId(rec)
    {
      forall rec | rec in Reach(metadata, GetId(hits[j].Metadata).s, depth)
        ensures exists i :: 0 <= i < |r| && GetId(r[i]) == GetId(rec)
      {
        var key := GetId(rec).s;
        assert key in e;
        assert key in keys;
        var i :| 0 <= i < |keys| && keys[i] == key;
        assert GetId(r[i]) == Str(key) == GetId(rec);
      }
    }
  }

  /** Listing a map keyed by id gives records of the table with distinct ids. */
  lemma ListedUnique(metadata: seq<Record>, e: map<string, Record>, r: seq<Record>, keys: seq<string>)
    requires |r| == |keys| && (forall i :: 0 <= i < |keys| ==> keys[i] in e && r[i] == e[keys[i]])
    requires forall i, j :: 0 <= i < j < |keys| ==> keys[i] != keys[j]
    requires KeysOwn(metadata, e)
    ensures UniqueIds(r) && forall i :: 0 <= i < |r| ==> r[i] in metadata
  {
    forall i, j | 0 <= i < j < |r|
      ensures GetId(r[i]) != GetId(r[j])
    {
      assert GetId(r[i]) == Str(keys[i]) && GetId(r[j]) == Str(keys[j]);
    }
  }

  /** Every hit whose id is a key of the map is listed. */
  lemma ListedHits(hits: seq<SimilarityResult>, e: map<string, Record>, r: seq<Record>, keys: seq<string>)
    requires forall j :: 0 <= j < |hits| ==> GetId(hits[j].Metadata).Str? && GetId(hits[j].Metadata).s in e
    requires |r| == |keys| && (forall i :: 0 <= i < |keys| ==> keys[i] in e && r[i] == e[keys[i]])
    requires forall key :: key in e ==> key in keys
    requires forall key :: key in e ==> GetId(e[key]) == Str(key)
    ensures forall h :: h in hits ==> exists i :: 0 <= i < |r| && GetId(r[i]) == GetId(h.Metadata)
  {
    forall h | h in hits
      ensures exists i :: 0 <= i < |r| && GetId(r[i]) == GetId(h.Metadata)
    {
      var j :| 0 <= j < |hits| && hits[j] == h;
      var i :| 0 <= i < |keys| && keys[i] == GetId(h.Metadata).s;
    }
  }

  /** Listing the map adds nothing outside the neighbourhood of the hits. */
  lemma ListedWithin(metadata: seq<Record>, hits: seq<SimilarityResult>, depth: int, e: map<string, Record>,
                     r: seq<Record>, keys: seq<string>)
    requires |r| == |keys| && (forall i :: 0 <= i < |keys| ==> keys[i] in e && r[i] == e[keys[i]])
    requires KeysOwn(metadata, e)
    requires WithinNeighbourhood(metadata, hits, depth, e)
    ensures forall i :: 0 <= i < |r| ==> InNeighbourhood(metadata, hits, depth, GetId(r[i]))
  {
    forall i | 0 <= i < |r|
      ensures InNeighbourhood(metadata, hits, depth, GetId(r[i]))
    {
      assert GetId(r[i]) == Str(keys[i]);
    }
  }

  /** The walks of the hits, stated per hit rather than per position. */
  lemma ReachOfHits(metadata: seq<Record>, hits: seq<SimilarityResult>, depth: int, r: seq<Record>)
    requires forall j :: 0 <= j < |hits| ==> GetId(hits[j].Metadata).Str?
    requires forall j, rec :: 0 <= j < |hits| && rec in Reach(metadata, GetId(hits[j].Metadata).s, depth) ==>
      exists i :: 0 <= i < |r| && GetId(r[i]) == GetId(rec)
    ensures forall h, rec :: h in hits && rec in Reach(metadata, GetId(h.Metadata).s, depth) ==>
      exists i :: 0 <= i < |r| && GetId(r[i]) == GetId(rec)
  {
    forall h | h in hits
      ensures forall rec :: rec in Reach(metadata, GetId(h.Metadata).s, depth) ==>
        exists i :: 0 <= i < |r| && GetId(r[i]) == GetId(rec)
    {
      var j :| 0 <= j < |hits| && hits[j] == h;
    }
  }

  class VectorDatabase {
    var vectors: seq<seq<real>>
    var metadata: seq<Record>
    const useSemanticConnections: bool

    /** Row `i` pairs with record `i`, and every row has the table's width,
        which is positive. */
    predicate Valid()
      reads this
    {
      |vectors| == |metadata|
      && forall i :: 0 <= i < |vectors| ==> |vectors[i]| == |vectors[0]| > 0
    }

    function Width(): nat
      reads this
    {
      if vectors == [] then 0 else |vectors[0]|
    }

    /** `NewVectorDatabase`: no rows and no records. */
    constructor (useSemanticConnections: bool)
      ensures Valid()
      ensures vectors == [] && metadata == []
      ensures this.useSemanticConnections == useSemanticConnections
    {
      vectors := [];
      metadata := [];
      this.useSemanticConnections := useSemanticConnections;
    }

    /** The scan for an id that opens `UpdateVector`, `DeleteVector` and
        `GetConnectedChunks`. */
    method FindIndex(id: string) returns (index: int)
      ensures index == IndexOf(metadata, Str(id))
    {
      index := -1;
      var i := 0;
      while i < |metadata|
        invariant 0 <= i <= |metadata|
        invariant IndexOf(metadata[i..], Str(id)) == -1 ==> IndexOf(metadata, Str(id)) == -1
        invariant IndexOf(metadata[i..], Str(id)) >= 0 ==> IndexOf(metadata, Str(id)) == i + IndexOf(metadata[i..], Str(id))
      {
        assert metadata[i..][1..] == metadata[i + 1..];
        if GetId(metadata[i]) == Str(id) {
          return i;
        }
        i := i + 1;
      }
    }

    /** `TopCosineSimilarity`: every row scored against the target, the rows
        without a score skipped, the rest sorted and cut after `topN`. */
    method TopCosineSimilarity(targetVector: seq<real>, topN: int) returns (r: seq<SimilarityResult>)
      requires Valid()
      requires topN >= 0 || vectors == []
      ensures r == Top(vectors, metadata, targetVector, topN)
    {
      if vectors == [] {
        return [];
      }
      var rows := |vectors|;
      var n := topN;
      if n > rows {
        n := rows;
      }
      var similarities: seq<SimilarityResult> := [];
      for i := 0 to rows
        invariant similarities == Candidates(vectors[..i], metadata[..i], targetVector)
      {
        assert vectors[..i + 1][..i] == vectors[..i] && metadata[..i + 1][..i] == metadata[..i];
        var similarity := CosineSimilarity(targetVector, vectors[i]);
        if similarity.Some? {
          similarities := similarities + [SimilarityResult(metadata[i], similarity.value)];
        }
      }
      assert vectors[..rows] == vectors && metadata[..rows] == metadata;
      similarities := SortDesc(similarities, ResultScore);
      if n > |similarities| {
        n := |similarities|;
      }
      r := similarities[..n];
    }

    /** `updateConnections(index, k)`: below two rows nothing happens;
        otherwise the table is ranked against row `index`, that record gets
        its own list and every other record its back link. */
    method UpdateConnections(index: int, k: nat)
      requires Valid()
      requires |vectors| < 2 || 0 <= index < |vectors|
      modifies this
      ensures Valid() && vectors == old(vectors)
      ensures metadata == Reconnected(old(vectors), old(metadata), index, k)
    {
      var rows := |vectors|;
      if rows < 2 {
        return;
      }
      ghost var m0 := metadata;
      ghost var target := Reconnected(vectors, m0, index, k);
      var sims := TopCosineSimilarity(vectors[index], rows);
      var self := GetId(metadata[index]);
      var connections := OwnLinksOf(sims, self, k);
      metadata := metadata[index := SetConns(metadata[index], connections)];
      ReconnectedAt(vectors, m0, index, k, index);
      var i := 0;
      while i < |metadata|
        invariant 0 <= i <= |metadata| == |m0| == |vectors|
        invariant vectors == old(vectors) && 0 <= index < |vectors|
        invariant forall j :: 0 <= j < |m0| ==> metadata[j] == if j < i || j == index then target[j] else m0[j]
      {
        if i != index {
          var meta := metadata[i];
          var others := AppendBackLink(ExistingLinks(meta), sims, GetId(meta), self);
          ghost var candidates := others;
          others := SortDesc(others, LinkScore);
          if |others| > k {
            others := others[..k];
          } else {
            assert others == others[..|others|];
          }
          assert others == TakeBest(candidates, k, LinkScore);
          ReconnectedAt(vectors, m0, index, k, i);
          assert target[i] == SetConns(meta, others);
          metadata := metadata[i := SetConns(meta, others)];
        }
        i := i + 1;
      }
    }

    /** The matrix grown by one row and the record list by one record, as both
        `AddVector` and `AddVectorsBatch` do: the first row fixes the width. */
    method AppendRow(embedding: seq<real>, record: Record)
      requires Valid()
      requires embedding != [] && (vectors == [] || |embedding| == Width())
      modifies this
      ensures Valid() && Width() == |embedding|
      ensures vectors == old(vectors) + [embedding] && metadata == old(metadata) + [record]
    {
      vectors := vectors + [embedding];
      metadata := metadata + [record];
    }

    /** The loop that calls `updateConnections` on every row from `lo` on, in
        order, as `AddVectorsBatch` and `DeleteVector` end. */
    method ReconnectRows(lo: int)
      requires Valid() && 0 <= lo <= |vectors|
      modifies this
      ensures Valid() && vectors == old(vectors)
      ensures metadata == ReconnectRange(vectors, old(metadata), lo, |vectors|, DefaultK)
    {
      ghost var m0 := metadata;
      var i := lo;
      while i < |vectors|
        invariant Valid() && vectors == old(vectors)
        invariant lo <= i <= |vectors|
        invariant metadata == ReconnectRange(vectors, m0, lo, i, DefaultK)
      {
        UpdateConnections(i, DefaultK);
        i := i + 1;
      }
    }

    /** `AddVector`: one row and one record appended, the new record holding
        the fresh id; then, with semantic connections, the new record is
        connected; `ReconnectedKeepsContent` shows that only connection lists
        change in that step. */
    method AddVector(chunkText: string, embedding: seq<real>, md: map<string, Value>, normalize: bool,
                     freshId: string) returns (id: string)
      requires Valid()
      requires embedding != [] && (vectors == [] || |embedding| == Width())
      requires forall i :: 0 <= i < |metadata| ==> GetId(metadata[i]) != Str(freshId)
      modifies this
      ensures Valid()
      ensures id == freshId
      ensures vectors == old(vectors) + [Prepared(embedding, normalize)]
      ensures var added := old(metadata) + [NewRecord(id, chunkText, Prepared(embedding, normalize), md)];
        metadata == if useSemanticConnections then Reconnected(vectors, added, |old(metadata)|, DefaultK) else added
    {
      var e := embedding;
      if normalize {
        e := NormalizeVector(embedding);
      }
      vectors := vectors + [e];
      id := freshId;
      var record := NewRecord(id, chunkText, e, md);
      metadata := metadata + [record];
      if useSemanticConnections && |metadata| > 1 {
        UpdateConnections(|metadata| - 1, DefaultK);
      }
    }

    /** `AddVectorsBatch`: one row and one record per input record, in input
        order; then, with semantic connections, each new record is connected
        in turn. */
    method AddVectorsBatch(records: seq<Record>, normalize: bool)
      requires Valid()
      requires BatchReady(records, Width())
      modifies this
      ensures Valid()
      ensures vectors == old(vectors) + BatchRows(records, normalize)
      ensures var added := old(metadata) + BatchRecords(records);
        metadata == if useSemanticConnections
                    then ReconnectRange(vectors, added, |old(metadata)|, |added|, DefaultK)
                    else added
      ensures forall i :: 0 <= i < |old(metadata)| ==> StripConns(metadata[i]) == StripConns(old(metadata)[i])
      ensures forall i :: |old(metadata)| <= i < |metadata| ==>
        StripConns(metadata[i]) == StripConns(BatchRecord(records[i - |old(metadata)|]))
    {
      ghost var m0 := metadata;
      AppendBatch(records, normalize);
      ghost var added := metadata;
      BatchRecordsAt(records);
      assert forall i :: |m0| <= i < |added| ==> added[i] == BatchRecord(records[i - |m0|]);
      if useSemanticConnections {
        ReconnectRows(|metadata| - |records|);
        ReconnectRangeKeepsContent(vectors, added, |m0|, |added|, DefaultK);
      }
    }

    /** The first loop of `AddVectorsBatch`: one row and one record per input
        record, in input order. */
    method AppendBatch(records: seq<Record>, normalize: bool)
      requires Valid()
      requires BatchReady(records, Width())
      modifies this
      ensures Valid()
      ensures vectors == old(vectors) + BatchRows(records, normalize)
      ensures metadata == old(metadata) + BatchRecords(records)
    {
      ghost var v0, m0, w0 := vectors, metadata, Width();
      for i := 0 to |records|
        invariant vectors == v0 + BatchRows(records[..i], normalize)
        invariant metadata == m0 + BatchRecords(records[..i])
        invariant Valid()
        invariant vectors != [] ==> Width() == if w0 == 0 then |EmbeddingOf(records[0])| else w0
      {
        BatchStep(records, i, normalize);
        var embedding := records[i]["embedding"].v;
        if normalize {
          embedding := NormalizeVector(embedding);
        }
        assert embedding == Prepared(EmbeddingOf(records[i]), normalize);
        AppendRow(embedding, BatchRecord(records[i]));
        AppendAssoc(v0, BatchRows(records[..i], normalize), [embedding]);
        AppendAssoc(m0, BatchRecords(records[..i]), [BatchRecord(records[i])]);
      }
      assert records[..|records|] == records;
    }

    /** `UpdateVector`: an unknown id is an error and changes nothing;
        otherwise row `index` is replaced, the new keys are written over record
        `index`, and with semantic connections that record is reconnected. */
    method UpdateVector(id: string, newEmbedding: seq<real>, newMetadata: map<string, Value>, normalize: bool)
      returns (err: Option<Error>)
      requires Valid()
      requires IndexOf(metadata, Str(id)) >= 0 ==> |newEmbedding| == Width()
      modifies this
      ensures Valid()
      ensures IndexOf(old(metadata), Str(id)) == -1 ==>
        err == Some(NotFound(id)) && vectors == old(vectors) && metadata == old(metadata)
      ensures var index := IndexOf(old(metadata), Str(id));
        index >= 0 ==>
          err.None?
          && vectors == old(vectors)[index := Prepared(newEmbedding, normalize)]
          && var merged := old(metadata)[index := old(metadata)[index] + newMetadata];
             metadata == if useSemanticConnections then Reconnected(vectors, merged, index, DefaultK) else merged
    {
      var index := FindIndex(id);
      if index == -1 {
        return Some(NotFound(id));
      }
      var e := newEmbedding;
      if normalize {
        e := NormalizeVector(newEmbedding);
      }
      vectors := vectors[index := e];
      metadata := metadata[index := metadata[index] + newMetadata];
      if useSemanticConnections {
        UpdateConnections(index, DefaultK);
      }
      err := None;
    }

    /** `DeleteVector`: an unknown id is an error and changes nothing;
        otherwise row and record `index` are removed, the rest keeping their
        order and pairing, and with semantic connections every record is
        reconnected in turn. */
    method DeleteVector(id: string) returns (err: Option<Error>)
      requires Valid()
      modifies this
      ensures Valid()
      ensures IndexOf(old(metadata), Str(id)) == -1 ==>
        err == Some(NotFound(id)) && vectors == old(vectors) && metadata == old(metadata)
      ensures var index := IndexOf(old(metadata), Str(id));
        index >= 0 ==>
          err.None?
          && vectors == old(vectors)[..index] + old(vectors)[index + 1..]
          && var kept := old(metadata)[..index] + old(metadata)[index + 1..];
             metadata == if useSemanticConnections then ReconnectRange(vectors, kept, 0, |kept|, DefaultK) else kept
    {
      var index := FindIndex(id);
      if index == -1 {
        return Some(NotFound(id));
      }
      vectors := vectors[..index] + vectors[index + 1..];
      metadata := metadata[..index] + metadata[index + 1..];
      assert Valid() by {
        forall i | 0 <= i < |vectors|
          ensures |vectors[i]| == |vectors[0]| > 0
        {
          assert vectors[i] in old(vectors) && vectors[0] in old(vectors);
        }
      }
      if useSemanticConnections {
        ReconnectRows(0);
      }
      err := None;
    }

    /** Every record of a walk's result is a record of the table whose string
        id has been visited, and no two share an id. */
    predicate Tracked(visited: set<string>, result: seq<Record>)
      reads this
    {
      UniqueIds(result)
      && forall i :: 0 <= i < |result| ==> result[i] in metadata && GetId(result[i]).s in visited
    }

    /** The depth-first walk inside `GetConnectedChunks`, as the source means
        it: an id already visited or a depth past the limit stops the walk;
        otherwise the first record with the id is added and the walk goes on
        to every linked id at the next depth. Links whose id is not a string
        are not followed. */
    method Dfs(currentId: string, currentDepth: int, depth: int, visited: set<string>, result: seq<Record>)
      returns (visited': set<string>, result': seq<Record>)
      requires Tracked(visited, result)
      ensures Tracked(visited', result')
      ensures visited <= visited' && result <= result'
      ensures currentDepth > depth || currentId in visited ==> visited' == visited && result' == result
      ensures currentDepth <= depth ==> currentId in visited'
      ensures currentDepth <= depth && currentId !in visited && IndexOf(metadata, Str(currentId)) >= 0 ==>
        |result'| > |result| && result'[|result|] == metadata[IndexOf(metadata, Str(currentId))]
      ensures currentDepth == depth && currentId !in visited ==>
        result' == result + if IndexOf(metadata, Str(currentId)) >= 0 then [metadata[IndexOf(metadata, Str(currentId))]] else []
      ensures (visited', result') == Walk(metadata, currentId, currentDepth, depth, visited, result)
      decreases if currentDepth <= depth then depth - currentDepth + 1 else 0
    {
      if currentDepth > depth || currentId in visited {
        return visited, result;
      }
      visited' := visited + {currentId};
      result' := result;
      var index := FindIndex(currentId);
      if index >= 0 {
        var meta := metadata[index];
        result' := result' + [meta];
        var connections := ExistingLinks(meta);
        for c := 0 to |connections|
          invariant Tracked(visited', result')
          invariant visited + {currentId} <= visited'
          invariant result + [meta] <= result'
          invariant currentDepth == depth ==> result' == result + [meta]
          invariant WalkLinks(metadata, connections, c, currentDepth + 1, depth, visited', result')
            == WalkLinks(metadata, connections, 0, currentDepth + 1, depth, visited + {currentId}, result + [meta])
        {
          if connections[c].id.Str? {
            visited', result' := Dfs(connections[c].id.s, currentDepth + 1, depth, visited', result');
          }
        }
      }
    }

    /** `GetConnectedChunks`, with the walk reading the connection lists that
        `updateConnections` writes: an error when connections are off or the id
        is unknown; otherwise the records reached from the id within `depth`
        links, the id's own record first, no id twice. */
    method GetConnectedChunks(id: string, depth: int) returns (r: Result<seq<Record>, Error>)
      ensures !useSemanticConnections ==> r == Err(Disabled)
      ensures useSemanticConnections && IndexOf(metadata, Str(id)) == -1 ==> r == Err(NotFound(id))
      ensures useSemanticConnections && IndexOf(metadata, Str(id)) >= 0 ==>
        r.Ok? && r.value == Reach(metadata, id, depth) && UniqueIds(r.value)
        && (forall i :: 0 <= i < |r.value| ==> r.value[i] in metadata)
        && (depth >= 0 ==> |r.value| > 0 && r.value[0] == metadata[IndexOf(metadata, Str(id))])
        && (depth == 0 ==> r.value == [metadata[IndexOf(metadata, Str(id))]])
        && (depth < 0 ==> r.value == [])
    {
      if !useSemanticConnections {
        return Err(Disabled);
      }
      var index := FindIndex(id);
      if index == -1 {
        return Err(NotFound(id));
      }
      var visited, result := Dfs(id, 0, depth, {}, []);
      return Ok(result);
    }

    /** The loop of `SemanticSearch` over the best records: each record under its
        id, then every record connected to it under its own id unless that id
        is taken. The source returns the error of `GetConnectedChunks` here;
        the ids come from the table, so there is none. */
    method Expand(initialResults: seq<SimilarityResult>, depth: int) returns (expanded: map<string, Record>)
      requires useSemanticConnections
      requires forall j :: 0 <= j < |initialResults| ==>
        initialResults[j].Metadata in metadata && GetId(initialResults[j].Metadata).Str?
      ensures forall key :: key in expanded ==> expanded[key] in metadata && GetId(expanded[key]) == Str(key)
      ensures forall j :: 0 <= j < |initialResults| ==> GetId(initialResults[j].Metadata).s in expanded
      ensures forall j, rec :: 0 <= j < |initialResults| && rec in Reach(metadata, GetId(initialResults[j].Metadata).s, depth) ==>
        GetId(rec).Str? && GetId(rec).s in expanded
      ensures forall key :: key in expanded ==> InNeighbourhood(metadata, initialResults, depth, Str(key))
    {
      expanded := map[];
      for i := 0 to |initialResults|
        invariant ExpandedUpTo(metadata, initialResults, depth, i, expanded)
      {
        var id := GetId(initialResults[i].Metadata).s;
        var connected := GetConnectedChunks(id, depth);
        var chunks := connected.value;
        var merged := MergeChunks(expanded[id := initialResults[i].Metadata], chunks);
        ExpandStep(metadata, initialResults, depth, i, expanded, chunks, merged);
        expanded := merged;
      }
    }

    /** The records `SemanticSearch` returns for its best records: the map
        `Expand` builds, listed. */
    method Gather(initialResults: seq<SimilarityResult>, depth: int) returns (r: seq<Record>)
      requires useSemanticConnections
      requires forall j :: 0 <= j < |initialResults| ==>
        initialResults[j].Metadata in metadata && GetId(initialResults[j].Metadata).Str?
      ensures UniqueIds(r) && forall i :: 0 <= i < |r| ==> r[i] in metadata
      ensures forall h :: h in initialResults ==> exists i :: 0 <= i < |r| && GetId(r[i]) == GetId(h.Metadata)
      ensures forall j, rec :: 0 <= j < |initialResults| && rec in Reach(metadata, GetId(initialResults[j].Metadata).s, depth) ==>
        exists i :: 0 <= i < |r| && GetId(r[i]) == GetId(rec)
      ensures forall i :: 0 <= i < |r| ==> InNeighbourhood(metadata, initialResults, depth, GetId(r[i]))
    {
      var expanded := Expand(initialResults, depth);
      ghost var keys;
      r, keys := Values(expanded);
      ListedUnique(metadata, expanded, r, keys);
      ListedHits(initialResults, expanded, r, keys);
      ListedReach(metadata, initialResults, depth, expanded, r, keys);
      ListedWithin(metadata, initialResults, depth, expanded, r, keys);
    }

    /** `SemanticSearch`: the `topK` best records for the query, each with the
        records connected to it within `depth` links, merged by id. The source
        collects them in a map and lists its values in the map's order, which
        the model leaves open. */
    method SemanticSearch(queryEmbedding: seq<real>, topK: int, depth: int) returns (r: Result<seq<Record>, Error>)
      requires Valid()
      requires topK >= 0 || vectors == []
      requires forall h :: h in Top(vectors, metadata, queryEmbedding, topK) ==> GetId(h.Metadata).Str?
      ensures !useSemanticConnections ==> r == Err(Disabled)
      ensures useSemanticConnections ==> r.Ok?
      ensures r.Ok? ==>
        UniqueIds(r.value)
        && (forall i :: 0 <= i < |r.value| ==> r.value[i] in metadata)
        && (forall h :: h in Top(vectors, metadata, queryEmbedding, topK) ==>
              exists i :: 0 <= i < |r.value| && GetId(r.value[i]) == GetId(h.Metadata))
        && (forall h, rec :: h in Top(vectors, metadata, queryEmbedding, topK) && rec in Reach(metadata, GetId(h.Metadata).s, depth) ==>
              exists i :: 0 <= i < |r.value| && GetId(r.value[i]) == GetId(rec))
        && forall i :: 0 <= i < |r.value| ==>
             InNeighbourhood(metadata, Top(vectors, metadata, queryEmbedding, topK), depth, GetId(r.value[i]))
    {
      if !useSemanticConnections {
        return Err(Disabled);
      }
      var initialResults := TopCosineSimilarity(queryEmbedding, topK);
      TopInTable(vectors, metadata, queryEmbedding, topK);
      var finalResults := Gather(initialResults, depth);
      ReachOfHits(metadata, initialResults, depth, finalResults);
      r := Ok(finalResults);
    }
  }

  /** The values of a map, in an order the model leaves open: `keys` lists
      every key once, and `values[i]` is the value of `keys[i]`. */
  method Values(m: map<string, Record>) returns (values: seq<Record>, ghost keys: seq<string>)
    ensures |values| == |keys| == |m|
    ensures forall i :: 0 <= i < |keys| ==> keys[i] in m && values[i] == m[keys[i]]
    ensures forall i, j :: 0 <= i < j < |keys| ==> keys[i] != keys[j]
    ensures forall key :: key in m ==> key in keys
  {
    values, keys := [], [];
    var left := m.Keys;
    while left != {}
      invariant left <= m.Keys && |values| == |keys|
      invariant forall i :: 0 <= i < |keys| ==> keys[i] in m && keys[i] !in left && values[i] == m[keys[i]]
      invariant forall i, j :: 0 <= i < j < |keys| ==> keys[i] != keys[j]
      invariant forall key :: key in m ==> key in keys || key in left
      invariant |keys| + |left| == |m|
      decreases |left|
    {
      var key :| key in left;
      values, keys := values + [m[key]], keys + [key];
      left := left - {key};
    }
  }

  /** Every record ranked against a target is a record of the table, and its
      id finds one. */
  lemma TopInTable(vectors: seq<seq<real>>, metadata: seq<Record>, target: seq<real>, topN: int)
    requires |vectors| == |metadata|
    requires topN >= 0 || vectors == []
    ensures forall h :: h in Top(vectors, metadata, target, topN) ==>
      h.Metadata in metadata && IndexOf(metadata, GetId(h.Metadata)) >= 0
  {
    TopRanked(vectors, metadata, target, topN);
    CandidatesSound(vectors, metadata, target);
    forall h | h in Top(vectors, metadata, target, topN)
      ensures h.Metadata in metadata && IndexOf(metadata, GetId(h.Metadata)) >= 0
    {
      var i :| 0 <= i < |vectors| && h.Metadata == metadata[i] && Cosine(target, vectors[i]) == Some(h.Similarity);
    }
  }

  lemma {:induction false} BatchRecordsAt(records: seq<Record>)
    ensures forall i :: 0 <= i < |records| ==> BatchRecords(records)[i] == BatchRecord(records[i])
  {
    if records != [] {
      var n := |records| - 1;
      BatchRecordsAt(records[..n]);
      assert forall i :: 0 <= i < n ==> records[..n][i] == records[i];
    }
  }
}
