/** The record model of internal/tools/vector_storage/vector_storage.go and the
    pure content of its ranking (`TopCosineSimilarity`) and of its connection
    maintenance (`updateConnections`), as functions over the table's rows and
    records. The class in vector_database.dfy runs the source's loops and is
    proved to compute these functions. */
module Connections {
  import opened Wrappers
  import opened Sorting
  import opened Similarity

  /** The values a record holds. The two list kinds are kept apart because the
      source tells them apart at run time: a fresh record's `connections` is a
      `[]interface{}` (`Items`), the lists written by `updateConnections` are
      `[]map[string]interface{}` (`Links`). */
  datatype Value =
    | Null
    | Str(s: string)
    | Num(x: real)
    | Flag(b: bool)
    | Floats(v: seq<real>)
    | Items(items: seq<Value>)
    | Links(links: seq<Link>)
    | Dict(d: map<string, Value>)

  /** One entry of a connection list, the map `{"id": …, "score": …}`. */
  datatype Link = Link(id: Value, score: real)

  /** A metadata record, `map[string]interface{}`. */
  type Record = map<string, Value>

  datatype SimilarityResult = SimilarityResult(Metadata: Record, Similarity: real)

  /** The neighbour count `updateConnections` uses when none is given. */
  const DefaultK: nat := 5

  /** `record["id"]`: a missing key reads as nil, and nil equals nil. */
  function GetId(r: Record): Value {
    if "id" in r then r["id"] else Null
  }

  function StripConns(r: Record): Record {
    r - {"connections"}
  }

  function SetConns(r: Record, ls: seq<Link>): Record {
    r["connections" := Links(ls)]
  }

  /** `meta["connections"].([]map[string]interface{})`, with the empty list
      when the assertion fails. */
  function ExistingLinks(r: Record): seq<Link> {
    if "connections" in r && r["connections"].Links? then r["connections"].links else []
  }

  function ResultScore(s: SimilarityResult): real {
    s.Similarity
  }

  function LinkScore(l: Link): real {
    l.score
  }

  // ---------------------------------------------------------------------------
  // Ranking

  /** The rows whose score against `target` is defined, in row order, each
      paired with its record. */
  function Candidates(vectors: seq<seq<real>>, metadata: seq<Record>, target: seq<real>)
    : (r: seq<SimilarityResult>)
    requires |vectors| == |metadata|
    ensures |r| <= |vectors|
  {
    if vectors == [] then []
    else
      var n := |vectors| - 1;
      var rest := Candidates(vectors[..n], metadata[..n], target);
      match Cosine(target, vectors[n])
      case None => rest
      case Some(s) => rest + [SimilarityResult(metadata[n], s)]
  }

  /** Every candidate is a row of the table with a defined score. */
  lemma {:induction false} CandidatesSound(vectors: seq<seq<real>>, metadata: seq<Record>, target: seq<real>)
    requires |vectors| == |metadata|
    ensures forall c :: c in Candidates(vectors, metadata, target) ==>
      exists i :: 0 <= i < |vectors| && c.Metadata == metadata[i] && Cosine(target, vectors[i]) == Some(c.Similarity)
  {
    if vectors != [] {
      var n := |vectors| - 1;
      CandidatesSound(vectors[..n], metadata[..n], target);
      forall c | c in Candidates(vectors, metadata, target)
        ensures exists i :: 0 <= i < |vectors| && c.Metadata == metadata[i] && Cosine(target, vectors[i]) == Some(c.Similarity)
      {
        if c in Candidates(vectors[..n], metadata[..n], target) {
          var i :| 0 <= i < n && c.Metadata == metadata[..n][i] && Cosine(target, vectors[..n][i]) == Some(c.Similarity);
          assert c.Metadata == metadata[i] && Cosine(target, vectors[i]) == Some(c.Similarity);
        } else {
          assert c.Metadata == metadata[n] && Cosine(target, vectors[n]) == Some(c.Similarity);
        }
      }
    }
  }

  /** Every row with a defined score is a candidate. */
  lemma {:induction false} CandidatesComplete(vectors: seq<seq<real>>, metadata: seq<Record>, target: seq<real>, i: int)
    requires |vectors| == |metadata| && 0 <= i < |vectors|
    requires Cosine(target, vectors[i]).Some?
    ensures SimilarityResult(metadata[i], Cosine(target, vectors[i]).value) in Candidates(vectors, metadata, target)
  {
    var n := |vectors| - 1;
    if i < n {
      CandidatesComplete(vectors[..n], metadata[..n], target, i);
      assert vectors[..n][i] == vectors[i] && metadata[..n][i] == metadata[i];
    }
  }

  /** A query of another width than every row scores against nothing. */
  lemma {:induction false} CandidatesWrongWidth(vectors: seq<seq<real>>, metadata: seq<Record>, target: seq<real>)
    requires |vectors| == |metadata|
    requires forall i :: 0 <= i < |vectors| ==> |vectors[i]| != |target|
    ensures Candidates(vectors, metadata, target) == []
  {
    if vectors != [] {
      var n := |vectors| - 1;
      CandidatesWrongWidth(vectors[..n], metadata[..n], target);
    }
  }

  /** What `TopCosineSimilarity` returns: nothing for an empty table, otherwise
      the candidates sorted by descending score and cut after `topN`. */
  function Top(vectors: seq<seq<real>>, metadata: seq<Record>, target: seq<real>, topN: int)
    : seq<SimilarityResult>
    requires |vectors| == |metadata|
    requires topN >= 0 || vectors == []
  {
    if vectors == [] then []
    else TakeBest(Candidates(vectors, metadata, target), topN as nat, ResultScore)
  }

  /** The ranking keeps the `topN` best candidates, best first. */
  lemma TopRanked(vectors: seq<seq<real>>, metadata: seq<Record>, target: seq<real>, topN: int)
    requires |vectors| == |metadata|
    requires topN >= 0 || vectors == []
    ensures vectors == [] ==> Top(vectors, metadata, target, topN) == []
    ensures vectors != [] ==> IsTopN(Top(vectors, metadata, target, topN), Candidates(vectors, metadata, target), topN as nat, ResultScore)
    ensures |Top(vectors, metadata, target, topN)| <= |vectors|
    ensures topN >= 0 ==> |Top(vectors, metadata, target, topN)| <= topN
    ensures forall s :: s in Top(vectors, metadata, target, topN) ==> s in Candidates(vectors, metadata, target)
  {
    if vectors != [] {
      var cs := Candidates(vectors, metadata, target);
      var r := Top(vectors, metadata, target, topN);
      TakeBestIsTopN(cs, topN as nat, ResultScore);
      forall s | s in r
        ensures s in cs
      {
        assert s in multiset(r);
      }
    }
  }

  /** A query of the wrong width gets an empty ranking. */
  lemma TopWrongWidth(vectors: seq<seq<real>>, metadata: seq<Record>, target: seq<real>, topN: int)
    requires |vectors| == |metadata|
    requires topN >= 0 || vectors == []
    requires forall i :: 0 <= i < |vectors| ==> |vectors[i]| != |target|
    ensures Top(vectors, metadata, target, topN) == []
  {
    CandidatesWrongWidth(vectors, metadata, target);
  }

  // ---------------------------------------------------------------------------
  // The list of the updated record

  /** The ranking seen as links, leaving out every entry whose id is `self`. */
  function NonSelf(sims: seq<SimilarityResult>, self: Value): seq<Link> {
    if sims == [] then []
    else
      (if GetId(sims[0].Metadata) == self then [] else [Link(GetId(sims[0].Metadata), sims[0].Similarity)])
      + NonSelf(sims[1..], self)
  }

  /** The loop over the ranking that builds the updated record's own list: an
      entry with its own id is skipped, and the loop stops once the list holds
      `k` links (after the first link, whatever `k`). */
  function OwnLinks(sims: seq<SimilarityResult>, self: Value, k: int): seq<Link> {
    if sims == [] then []
    else if GetId(sims[0].Metadata) == self then OwnLinks(sims[1..], self, k)
    else
      [Link(GetId(sims[0].Metadata), sims[0].Similarity)]
      + (if k <= 1 then [] else OwnLinks(sims[1..], self, k - 1))
  }

  /** The own list is the first `max(k, 1)` entries of the ranking that are not
      the record itself. */
  lemma {:induction false} OwnLinksIsPrefix(sims: seq<SimilarityResult>, self: Value, k: int)
    ensures OwnLinks(sims, self, k) == NonSelf(sims, self)[..Min(Max(k, 1), |NonSelf(sims, self)|)]
  {
    if sims != [] {
      OwnLinksIsPrefix(sims[1..], self, k);
      OwnLinksIsPrefix(sims[1..], self, k - 1);
    }
  }

  /** Every link of `NonSelf` comes from an entry of the ranking, with that
      entry's id and score, and no link has the id `self`. */
  lemma {:induction false} NonSelfJustified(sims: seq<SimilarityResult>, self: Value)
    ensures forall l :: l in NonSelf(sims, self) ==> l.id != self
    ensures forall l :: l in NonSelf(sims, self) ==>
      exists j :: 0 <= j < |sims| && l.id == GetId(sims[j].Metadata) && l.score == sims[j].Similarity
  {
    if sims != [] {
      NonSelfJustified(sims[1..], self);
      forall l | l in NonSelf(sims, self)
        ensures exists j :: 0 <= j < |sims| && l.id == GetId(sims[j].Metadata) && l.score == sims[j].Similarity
      {
        if l in NonSelf(sims[1..], self) {
          var j :| 0 <= j < |sims[1..]| && l.id == GetId(sims[1..][j].Metadata) && l.score == sims[1..][j].Similarity;
          assert sims[1..][j] == sims[j + 1];
        } else {
          assert l.id == GetId(sims[0].Metadata) && l.score == sims[0].Similarity;
        }
      }
    }
  }

  lemma {:induction false} NonSelfSorted(sims: seq<SimilarityResult>, self: Value)
    requires SortedDesc(sims, ResultScore)
    ensures SortedDesc(NonSelf(sims, self), LinkScore)
  {
    if sims != [] {
      var rest := NonSelf(sims[1..], self);
      assert SortedDesc(sims[1..], ResultScore);
      NonSelfSorted(sims[1..], self);
      NonSelfJustified(sims[1..], self);
      forall l | l in rest
        ensures LinkScore(l) <= sims[0].Similarity
      {
        var j :| 0 <= j < |sims[1..]| && l.score == sims[1..][j].Similarity;
        assert sims[1..][j] == sims[j + 1];
      }
      if GetId(sims[0].Metadata) != self {
        PrependSorted(Link(GetId(sims[0].Metadata), sims[0].Similarity), rest, LinkScore);
      }
    }
  }

  lemma PrefixSorted<T>(xs: seq<T>, m: nat, key: T -> real)
    requires SortedDesc(xs, key) && m <= |xs|
    ensures SortedDesc(xs[..m], key)
  {
  }

  /** The updated record's list: no link to itself, at most `max(k, 1)` links,
      best first, each one an entry of the ranking with its score. */
  lemma OwnLinksFacts(sims: seq<SimilarityResult>, self: Value, k: int)
    requires SortedDesc(sims, ResultScore)
    ensures forall l :: l in OwnLinks(sims, self, k) ==> l.id != self
    ensures |OwnLinks(sims, self, k)| <= Max(k, 1)
    ensures SortedDesc(OwnLinks(sims, self, k), LinkScore)
    ensures forall l :: l in OwnLinks(sims, self, k) ==>
      exists j :: 0 <= j < |sims| && l.id == GetId(sims[j].Metadata) && l.score == sims[j].Similarity
  {
    var ns := NonSelf(sims, self);
    OwnLinksIsPrefix(sims, self, k);
    NonSelfJustified(sims, self);
    NonSelfSorted(sims, self);
    var m := Min(Max(k, 1), |ns|);
    PrefixSorted(ns, m, LinkScore);
    forall l | l in ns[..m]
      ensures l in ns
    {
      var i :| 0 <= i < m && ns[..m][i] == l;
      assert ns[i] == l;
    }
  }

  // ---------------------------------------------------------------------------
  // The lists of the other records

  /** The score of the first ranking entry whose id is `id`. */
  function BackScore(sims: seq<SimilarityResult>, id: Value): Option<real> {
    if sims == [] then None
    else if GetId(sims[0].Metadata) == id then Some(sims[0].Similarity)
    else BackScore(sims[1..], id)
  }

  /** `BackScore` finds the first entry with the id, and only fails when there
      is none. */
  lemma {:induction false} BackScoreFirst(sims: seq<SimilarityResult>, id: Value)
    ensures BackScore(sims, id).None? <==> forall j :: 0 <= j < |sims| ==> GetId(sims[j].Metadata) != id
    ensures BackScore(sims, id).Some? ==>
      exists j :: 0 <= j < |sims| && GetId(sims[j].Metadata) == id && BackScore(sims, id).value == sims[j].Similarity
        && forall i :: 0 <= i < j ==> GetId(sims[i].Metadata) != id
  {
    if sims != [] {
      BackScoreFirst(sims[1..], id);
      if GetId(sims[0].Metadata) != id {
        if BackScore(sims, id).Some? {
          var j :| 0 <= j < |sims[1..]| && GetId(sims[1..][j].Metadata) == id && BackScore(sims, id).value == sims[1..][j].Similarity
            && forall i :: 0 <= i < j ==> GetId(sims[1..][i].Metadata) != id;
          assert sims[1..][j] == sims[j + 1];
          forall i | 0 <= i < j + 1
            ensures GetId(sims[i].Metadata) != id
          {
            if i > 0 {
              assert sims[1..][i - 1] == sims[i];
            }
          }
        } else {
          forall j | 0 <= j < |sims|
            ensures GetId(sims[j].Metadata) != id
          {
            if j > 0 {
              assert sims[1..][j - 1] == sims[j];
            }
          }
        }
      }
    }
  }

  /** The link back to the updated record, when the ranking has an entry with
      this record's id. */
  function BackLink(sims: seq<SimilarityResult>, id: Value, self: Value): seq<Link> {
    match BackScore(sims, id)
    case None => []
    case Some(s) => [Link(self, s)]
  }

  /** What the loop over the other records writes into record `r`: its old links
      plus the back link, sorted by descending score and cut after `k`. */
  function Relinked(r: Record, sims: seq<SimilarityResult>, self: Value, k: nat): Record {
    SetConns(r, TakeBest(ExistingLinks(r) + BackLink(sims, GetId(r), self), k, LinkScore))
  }

  /** A relinked record keeps the best `k` of its old links and the back link,
      best first; nothing else in it changes. Old links are kept as they are,
      so a link to the same record can occur twice. */
  lemma RelinkedFacts(r: Record, sims: seq<SimilarityResult>, self: Value, k: nat)
    ensures StripConns(Relinked(r, sims, self, k)) == StripConns(r)
    ensures Relinked(r, sims, self, k)["connections"].Links?
    ensures IsTopN(ExistingLinks(Relinked(r, sims, self, k)), ExistingLinks(r) + BackLink(sims, GetId(r), self), k, LinkScore)
  {
    TakeBestIsTopN(ExistingLinks(r) + BackLink(sims, GetId(r), self), k, LinkScore);
  }

  // ---------------------------------------------------------------------------
  // One call of updateConnections

  /** The records after `updateConnections(index, k)`: nothing changes below two
      rows; otherwise the table is ranked against row `index`, record `index`
      gets its own list and every other record is relinked. */
  function Reconnected(vectors: seq<seq<real>>, metadata: seq<Record>, index: int, k: nat)
    : (r: seq<Record>)
    requires |vectors| == |metadata|
    requires |vectors| < 2 || 0 <= index < |vectors|
    ensures |r| == |metadata|
  {
    if |vectors| < 2 then metadata
    else Relink(metadata, Top(vectors, metadata, vectors[index], |vectors|), index, k)
  }

  /** Record `index` gets its own list from the ranking `sims`, every other
      record is relinked. */
  function Relink(metadata: seq<Record>, sims: seq<SimilarityResult>, index: int, k: nat): (r: seq<Record>)
    requires 0 <= index < |metadata|
    ensures |r| == |metadata|
  {
    var self := GetId(metadata[index]);
    seq(|metadata|, i requires 0 <= i < |metadata| =>
      if i == index then SetConns(metadata[i], OwnLinks(sims, self, k))
      else Relinked(metadata[i], sims, self, k))
  }

  /** A record's list is a written connection list, best first, of at most
      `bound` links. */
  predicate WellLinked(r: Record, bound: int) {
    "connections" in r && r["connections"].Links?
    && SortedDesc(r["connections"].links, LinkScore)
    && |r["connections"].links| <= bound
  }

  /** `updateConnections` changes nothing but the `connections` lists, and does
      nothing at all below two rows. */
  lemma ReconnectedKeepsContent(vectors: seq<seq<real>>, metadata: seq<Record>, index: int, k: nat)
    requires |vectors| == |metadata|
    requires |vectors| < 2 || 0 <= index < |vectors|
    ensures |vectors| < 2 ==> Reconnected(vectors, metadata, index, k) == metadata
    ensures forall i :: 0 <= i < |metadata| ==>
      StripConns(Reconnected(vectors, metadata, index, k)[i]) == StripConns(metadata[i])
  {
    if |vectors| >= 2 {
      forall i | 0 <= i < |metadata|
        ensures StripConns(Reconnected(vectors, metadata, index, k)[i]) == StripConns(metadata[i])
      {
        if i == index {
          ReconnectedOwn(vectors, metadata, index, k);
        } else {
          ReconnectedOther(vectors, metadata, index, k, i);
        }
      }
    }
  }

  /** With two rows or more, `updateConnections` leaves every record with a
      sorted, bounded list, the updated record's list holding no link to
      itself. */
  lemma ReconnectedWellLinked(vectors: seq<seq<real>>, metadata: seq<Record>, index: int, k: nat)
    requires |vectors| == |metadata| && |vectors| >= 2 && 0 <= index < |vectors|
    ensures WellLinked(Reconnected(vectors, metadata, index, k)[index], Max(k, 1))
    ensures forall l :: l in ExistingLinks(Reconnected(vectors, metadata, index, k)[index]) ==> l.id != GetId(metadata[index])
    ensures forall i :: 0 <= i < |metadata| && i != index ==>
      WellLinked(Reconnected(vectors, metadata, index, k)[i], k)
  {
    ReconnectedOwn(vectors, metadata, index, k);
    forall i | 0 <= i < |metadata| && i != index
      ensures WellLinked(Reconnected(vectors, metadata, index, k)[i], k)
    {
      ReconnectedOther(vectors, metadata, index, k, i);
    }
  }

  lemma ReconnectedAt(vectors: seq<seq<real>>, metadata: seq<Record>, index: int, k: nat, i: int)
    requires |vectors| == |metadata| && |vectors| >= 2 && 0 <= index < |vectors|
    requires 0 <= i < |metadata|
    ensures Reconnected(vectors, metadata, index, k)[i]
      == if i == index
         then SetConns(metadata[i], OwnLinks(Top(vectors, metadata, vectors[index], |vectors|), GetId(metadata[index]), k))
         else Relinked(metadata[i], Top(vectors, metadata, vectors[index], |vectors|), GetId(metadata[index]), k)
  {
  }

  lemma ReconnectedOwn(vectors: seq<seq<real>>, metadata: seq<Record>, index: int, k: nat)
    requires |vectors| == |metadata| && |vectors| >= 2 && 0 <= index < |vectors|
    ensures StripConns(Reconnected(vectors, metadata, index, k)[index]) == StripConns(metadata[index])
    ensures WellLinked(Reconnected(vectors, metadata, index, k)[index], Max(k, 1))
    ensures forall l :: l in ExistingLinks(Reconnected(vectors, metadata, index, k)[index]) ==> l.id != GetId(metadata[index])
  {
    var sims := Top(vectors, metadata, vectors[index], |vectors|);
    var self := GetId(metadata[index]);
    TopRanked(vectors, metadata, vectors[index], |vectors|);
    OwnLinksFacts(sims, self, k);
    ReconnectedAt(vectors, metadata, index, k, index);
  }

  lemma ReconnectedOther(vectors: seq<seq<real>>, metadata: seq<Record>, index: int, k: nat, i: int)
    requires |vectors| == |metadata| && |vectors| >= 2 && 0 <= index < |vectors|
    requires 0 <= i < |metadata| && i != index
    ensures StripConns(Reconnected(vectors, metadata, index, k)[i]) == StripConns(metadata[i])
    ensures WellLinked(Reconnected(vectors, metadata, index, k)[i], k)
  {
    var sims := Top(vectors, metadata, vectors[index], |vectors|);
    var self := GetId(metadata[index]);
    RelinkedFacts(metadata[i], sims, self, k);
    ReconnectedAt(vectors, metadata, index, k, i);
  }

  /** `updateConnections(i)` for every `i` from `lo` up to `hi`, in order, as
      `AddVectorsBatch` and `DeleteVector` call it. */
  function ReconnectRange(vectors: seq<seq<real>>, metadata: seq<Record>, lo: int, hi: int, k: nat)
    : (r: seq<Record>)
    requires |vectors| == |metadata|
    requires 0 <= lo <= hi <= |vectors|
    ensures |r| == |metadata|
    decreases hi - lo
  {
    if lo == hi then metadata
    else Reconnected(vectors, ReconnectRange(vectors, metadata, lo, hi - 1, k), hi - 1, k)
  }

  /** However many updates run, only the `connections` lists change. */
  lemma ReconnectRangeKeepsContent(vectors: seq<seq<real>>, metadata: seq<Record>, lo: int, hi: int, k: nat)
    requires |vectors| == |metadata|
    requires 0 <= lo <= hi <= |vectors|
    ensures forall i :: 0 <= i < |metadata| ==>
      StripConns(ReconnectRange(vectors, metadata, lo, hi, k)[i]) == StripConns(metadata[i])
  {
    forall i | 0 <= i < |metadata|
      ensures StripConns(ReconnectRange(vectors, metadata, lo, hi, k)[i]) == StripConns(metadata[i])
    {
      ReconnectRangeKeepsRecord(vectors, metadata, lo, hi, k, i);
    }
  }

  lemma {:induction false} ReconnectRangeKeepsRecord(vectors: seq<seq<real>>, metadata: seq<Record>, lo: int, hi: int, k: nat, i: int)
    requires |vectors| == |metadata|
    requires 0 <= lo <= hi <= |vectors| && 0 <= i < |metadata|
    ensures StripConns(ReconnectRange(vectors, metadata, lo, hi, k)[i]) == StripConns(metadata[i])
    decreases hi - lo
  {
    if lo < hi {
      ReconnectRangeKeepsRecord(vectors, metadata, lo, hi - 1, k, i);
      ReconnectedKeepsContent(vectors, ReconnectRange(vectors, metadata, lo, hi - 1, k), hi - 1, k);
    }
  }
}
