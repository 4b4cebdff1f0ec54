/**
 * The embedding step: all transcript documents are read in directory
 * order, each document's chunk texts are embedded in one batched request,
 * and every chunk becomes a table row carrying a run-wide chunk id and its
 * embedding. The embedding service is a parameter of the model.
 */
module CreatingEmbeddings {
  import opened Wrappers
  import opened Mp3ToJson

  /** An embedding vector; its numbers are opaque to the pipeline. */
  type Vector = seq<real>

  /** A table row: the chunk's own fields, plus `chunk_id` and `embedding`. */
  datatype Row = Row(chunk: Chunk, chunkId: nat, embedding: Vector)

  /**
   * The IndexError raised by `embeddings[i]` when the service returned
   * fewer vectors than the document has chunks: the document's position in
   * the listing and the chunk position that had no vector.
   */
  datatype BuildError = IndexError(file: nat, chunk: nat)

  /** The request body for one document: its chunk texts, in chunk order. */
  function TextBatch(chunks: seq<Chunk>): (r: seq<string>)
    ensures |r| == |chunks|
    ensures forall i :: 0 <= i < |chunks| ==> r[i] == chunks[i].text
  {
    seq(|chunks|, i requires 0 <= i < |chunks| => chunks[i].text)
  }

  /** The embedding service answers a document's batch with a vector for each of its chunks. */
  predicate Covered(embed: seq<string> -> seq<Vector>, t: Transcript)
  {
    |embed(TextBatch(t.chunks))| >= |t.chunks|
  }

  /** All chunks of all documents, document by document. */
  function Flatten(files: seq<Transcript>): seq<Chunk>
  {
    if |files| == 0 then [] else files[0].chunks + Flatten(files[1..])
  }

  /** Number of chunks in the documents before position `f`. */
  function Offset(files: seq<Transcript>, f: nat): (r: nat)
    requires f <= |files|
    ensures f < |files| ==> r + |files[f].chunks| <= |Flatten(files)|
    ensures f == |files| ==> r == |Flatten(files)|
  {
    if f == 0 then 0 else |files[0].chunks| + Offset(files[1..], f - 1)
  }

  /** The document and chunk position behind position `k` of the flattened list. */
  function Locate(files: seq<Transcript>, k: nat): (r: (nat, nat))
    requires k < |Flatten(files)|
    ensures r.0 < |files| && r.1 < |files[r.0].chunks|
    ensures Offset(files, r.0) + r.1 == k
  {
    if k < |files[0].chunks| then (0, k)
    else
      var p := Locate(files[1..], k - |files[0].chunks|);
      assert files[p.0 + 1] == files[1..][p.0];
      (p.0 + 1, p.1)
  }

  /**
   * The vectors of one document's response that its chunks use: the first
   * `|t.chunks|` of them, or all of them when there are fewer.
   */
  function Used(embed: seq<string> -> seq<Vector>, t: Transcript): (r: seq<Vector>)
    ensures Covered(embed, t) ==> |r| == |t.chunks|
    ensures |r| <= |embed(TextBatch(t.chunks))|
    ensures forall i :: 0 <= i < |r| ==> r[i] == embed(TextBatch(t.chunks))[i]
  {
    var response := embed(TextBatch(t.chunks));
    if |response| >= |t.chunks| then response[..|t.chunks|] else response
  }

  /** The used vectors of all documents, document by document, aligned with `Flatten`. */
  function Vectors(files: seq<Transcript>, embed: seq<string> -> seq<Vector>): seq<Vector>
  {
    if |files| == 0 then [] else Used(embed, files[0]) + Vectors(files[1..], embed)
  }

  /**
   * The inner loop for one document: chunk `i` gets id `next + i` and
   * vector `embeddings[i]`; a missing vector raises at the first chunk
   * without one, which is chunk `|embeddings|`.
   */
  function AttachFile(chunks: seq<Chunk>, embeddings: seq<Vector>, next: nat): (r: Result<seq<Row>, nat>)
    ensures r.Success? <==> |embeddings| >= |chunks|
    ensures r.Failure? ==> r.error == |embeddings|
    ensures r.Success? ==> |r.value| == |chunks|
    ensures r.Success? ==> forall i :: 0 <= i < |chunks| ==>
              r.value[i] == Row(chunks[i], next + i, embeddings[i])
  {
    if |chunks| == 0 then Success([])
    else
      var last := |chunks| - 1;
      var prev := AttachFile(chunks[..last], embeddings, next);
      if prev.Failure? then prev
      else if last >= |embeddings| then Failure(last)
      else Success(prev.value + [Row(chunks[last], next + last, embeddings[last])])
  }

  /**
   * The outer loop from the counter value `next` on: documents in order,
   * the counter carried from one document to the next and never reset.
   */
  function BuildFrom(files: seq<Transcript>, embed: seq<string> -> seq<Vector>, next: nat)
    : (r: Result<seq<Row>, BuildError>)
    ensures r.Success? <==> forall f :: 0 <= f < |files| ==> Covered(embed, files[f])
    ensures r.Failure? ==>
              && r.error.file < |files|
              && (forall g :: 0 <= g < r.error.file ==> Covered(embed, files[g]))
              && r.error.chunk == |embed(TextBatch(files[r.error.file].chunks))|
              && r.error.chunk < |files[r.error.file].chunks|
    ensures r.Success? ==> |r.value| == |Flatten(files)|
    ensures r.Success? ==> |Vectors(files, embed)| == |r.value|
    ensures r.Success? ==> forall k :: 0 <= k < |r.value| ==>
              r.value[k] == Row(Flatten(files)[k], next + k, Vectors(files, embed)[k])
  {
    if |files| == 0 then Success([])
    else
      var chunks := files[0].chunks;
      match AttachFile(chunks, embed(TextBatch(chunks)), next)
      case Failure(i) => Failure(IndexError(0, i))
      case Success(rows) =>
        CoveredTail(files, embed);
        match BuildFrom(files[1..], embed, next + |rows|)
        case Failure(e) =>
          assert files[e.file + 1] == files[1..][e.file];
          Failure(IndexError(e.file + 1, e.chunk))
        case Success(more) =>
          JoinRows(files, embed, next, rows, more);
          Success(rows + more)
  }

  /** Every document is covered exactly when the first one and all the rest are. */
  lemma CoveredTail(files: seq<Transcript>, embed: seq<string> -> seq<Vector>)
    requires |files| > 0
    ensures forall g :: 0 <= g < |files[1..]| ==> files[1..][g] == files[g + 1]
    ensures (forall f :: 0 <= f < |files| ==> Covered(embed, files[f]))
            <==> Covered(embed, files[0]) && forall f :: 0 <= f < |files[1..]| ==> Covered(embed, files[1..][f])
  {
    var tail := files[1..];
    if Covered(embed, files[0]) && forall f :: 0 <= f < |tail| ==> Covered(embed, tail[f]) {
      forall f | 0 <= f < |files|
        ensures Covered(embed, files[f])
      {
        if f > 0 {
          assert files[f] == tail[f - 1];
        }
      }
    }
  }

  /** The rows of the first document followed by the rows of the rest line up with `Flatten` and `Vectors`. */
  lemma JoinRows(files: seq<Transcript>, embed: seq<string> -> seq<Vector>, next: nat, rows: seq<Row>, more: seq<Row>)
    requires |files| > 0
    requires AttachFile(files[0].chunks, embed(TextBatch(files[0].chunks)), next) == Success(rows)
    requires |more| == |Flatten(files[1..])| && |Vectors(files[1..], embed)| == |more|
    requires forall k :: 0 <= k < |more| ==>
               more[k] == Row(Flatten(files[1..])[k], next + |rows| + k, Vectors(files[1..], embed)[k])
    ensures |rows + more| == |Flatten(files)| == |Vectors(files, embed)|
    ensures forall k :: 0 <= k < |rows + more| ==>
              (rows + more)[k] == Row(Flatten(files)[k], next + k, Vectors(files, embed)[k])
  {
    var chunks := files[0].chunks;
    var used := Used(embed, files[0]);
    var all := rows + more;
    assert Covered(embed, files[0]);
    assert Flatten(files) == chunks + Flatten(files[1..]);
    assert Vectors(files, embed) == used + Vectors(files[1..], embed);
    assert |used| == |rows| == |chunks|;
    forall k | 0 <= k < |all|
      ensures all[k] == Row(Flatten(files)[k], next + k, Vectors(files, embed)[k])
    {
      if k < |rows| {
        assert all[k] == rows[k];
        assert Flatten(files)[k] == chunks[k];
        assert Vectors(files, embed)[k] == used[k];
      } else {
        var m := k - |rows|;
        assert all[k] == more[m];
        assert Flatten(files)[k] == Flatten(files[1..])[m];
        assert Vectors(files, embed)[k] == Vectors(files[1..], embed)[m];
      }
    }
  }

  /** The whole script: the counter starts at 0. */
  function Build(files: seq<Transcript>, embed: seq<string> -> seq<Vector>)
    : (r: Result<seq<Row>, BuildError>)
    ensures r.Success? <==> forall f :: 0 <= f < |files| ==> Covered(embed, files[f])
    ensures r.Failure? ==>
              && r.error.file < |files|
              && (forall g :: 0 <= g < r.error.file ==> Covered(embed, files[g]))
              && r.error.chunk == |embed(TextBatch(files[r.error.file].chunks))|
              && r.error.chunk < |files[r.error.file].chunks|
    ensures r.Success? ==> |r.value| == |Flatten(files)|
    ensures r.Success? ==> forall k :: 0 <= k < |r.value| ==>
              r.value[k].chunkId == k && r.value[k].chunk == Flatten(files)[k]
  {
    BuildFrom(files, embed, 0)
  }

  /** Chunk `i` of document `f` sits at position `Offset(files, f) + i` of the flattened list. */
  lemma {:induction false} FlattenAt(files: seq<Transcript>, f: nat, i: nat)
    requires f < |files| && i < |files[f].chunks|
    ensures Offset(files, f) + i < |Flatten(files)|
    ensures Flatten(files)[Offset(files, f) + i] == files[f].chunks[i]
    decreases f
  {
    if f > 0 {
      FlattenAt(files[1..], f - 1, i);
    }
  }

  /** When every document is covered, the vector of chunk `i` of document `f` sits at the same position as the chunk. */
  lemma {:induction false} VectorsAt(files: seq<Transcript>, embed: seq<string> -> seq<Vector>, f: nat, i: nat)
    requires forall g :: 0 <= g < |files| ==> Covered(embed, files[g])
    requires f < |files| && i < |files[f].chunks|
    ensures Offset(files, f) + i < |Vectors(files, embed)|
    ensures i < |embed(TextBatch(files[f].chunks))|
    ensures Vectors(files, embed)[Offset(files, f) + i] == embed(TextBatch(files[f].chunks))[i]
    decreases f
  {
    assert Covered(embed, files[0]);
    if f > 0 {
      assert files[f] == files[1..][f - 1];
      VectorsAt(files[1..], embed, f - 1, i);
    }
  }

  /**
   * The table the script builds: chunk `i` of document `f` is the row at
   * `Offset(files, f) + i`, whose id is that position and whose vector is
   * element `i` of the response to that document's batch (later elements
   * of a longer response are never used).
   */
  lemma BuildPositions(files: seq<Transcript>, embed: seq<string> -> seq<Vector>, f: nat, i: nat)
    requires Build(files, embed).Success?
    requires f < |files| && i < |files[f].chunks|
    ensures Offset(files, f) + i < |Build(files, embed).value|
    ensures Build(files, embed).value[Offset(files, f) + i]
            == Row(files[f].chunks[i], Offset(files, f) + i, embed(TextBatch(files[f].chunks))[i])
  {
    FlattenAt(files, f, i);
    VectorsAt(files, embed, f, i);
  }

  /** The offset of the next document is this one's plus its chunk count. */
  lemma {:induction false} OffsetStep(files: seq<Transcript>, f: nat)
    requires f < |files|
    ensures Offset(files, f + 1) == Offset(files, f) + |files[f].chunks|
    decreases f
  {
    if f > 0 {
      assert files[f] == files[1..][f - 1];
      OffsetStep(files[1..], f - 1);
    }
  }

  /** The row at `Offset(files, g) + i` holds chunk `i` of document `g`, that position as id, and its vector. */
  predicate PlacedOne(files: seq<Transcript>, embed: seq<string> -> seq<Vector>, rows: seq<Row>, g: nat, i: nat)
    requires g < |files| && i < |files[g].chunks|
  {
    && Offset(files, g) + i < |rows|
    && i < |embed(TextBatch(files[g].chunks))|
    && rows[Offset(files, g) + i]
       == Row(files[g].chunks[i], Offset(files, g) + i, embed(TextBatch(files[g].chunks))[i])
  }

  /** Every chunk of the documents before `f` is placed. */
  predicate Placed(files: seq<Transcript>, embed: seq<string> -> seq<Vector>, rows: seq<Row>, f: nat)
    requires f <= |files|
  {
    forall g, i :: 0 <= g < f && 0 <= i < |files[g].chunks| ==> PlacedOne(files, embed, rows, g, i)
  }

  /** Appending document `f`'s rows after those of the documents before it keeps them all placed. */
  lemma PlacedExtend(files: seq<Transcript>, embed: seq<string> -> seq<Vector>,
                     before: seq<Row>, rows: seq<Row>, f: nat)
    requires f < |files| && Placed(files, embed, before, f)
    requires |before| == Offset(files, f) <= |rows| && rows[..|before|] == before
    requires |files[f].chunks| <= |embed(TextBatch(files[f].chunks))|
    requires forall j :: 0 <= j < |files[f].chunks| ==> PlacedOne(files, embed, rows, f, j)
    ensures Placed(files, embed, rows, f + 1)
  {
    forall g, i | 0 <= g < f + 1 && 0 <= i < |files[g].chunks|
      ensures PlacedOne(files, embed, rows, g, i)
    {
      if g < f {
        assert PlacedOne(files, embed, before, g, i);
        PlacedOnePrefix(files, embed, before, rows, g, i);
      }
    }
  }

  /** A placed chunk stays placed when rows are appended after it. */
  lemma PlacedOnePrefix(files: seq<Transcript>, embed: seq<string> -> seq<Vector>,
                        before: seq<Row>, rows: seq<Row>, g: nat, i: nat)
    requires g < |files| && i < |files[g].chunks|
    requires PlacedOne(files, embed, before, g, i)
    requires |before| <= |rows| && rows[..|before|] == before
    ensures PlacedOne(files, embed, rows, g, i)
  {
    var k := Offset(files, g) + i;
    assert rows[..|before|][k] == rows[k];
  }

  /** A table with every chunk placed, and no other rows, is the one `Build` returns. */
  lemma PlacedIsBuild(files: seq<Transcript>, embed: seq<string> -> seq<Vector>, rows: seq<Row>)
    requires forall f :: 0 <= f < |files| ==> Covered(embed, files[f])
    requires |rows| == |Flatten(files)| && Placed(files, embed, rows, |files|)
    ensures Build(files, embed) == Success(rows)
  {
    var b := Build(files, embed);
    assert b.Success?;
    var built := b.value;
    assert |built| == |rows|;
    forall k | 0 <= k < |rows|
      ensures rows[k] == built[k]
    {
      var (f, i) := Locate(files, k);
      assert PlacedOne(files, embed, rows, f, i);
      BuildPositions(files, embed, f, i);
      assert built[k] == Row(files[f].chunks[i], k, embed(TextBatch(files[f].chunks))[i]);
    }
    assert rows == built;
  }

  /**
   * The first document whose response is short decides the failure: the
   * script stops there, at the first chunk without a vector.
   */
  lemma BuildFailsAt(files: seq<Transcript>, embed: seq<string> -> seq<Vector>, f: nat)
    requires f < |files| && !Covered(embed, files[f])
    requires forall g :: 0 <= g < f ==> Covered(embed, files[g])
    ensures Build(files, embed) == Failure(IndexError(f, |embed(TextBatch(files[f].chunks))|))
  {
    var b := Build(files, embed);
    assert b.Failure?;
  }

  /**
   * The script's loops as written, with the mutable `chunk_id` counter
   * that starts at 0 and is never reset between documents.
   */
  method BuildTable(files: seq<Transcript>, embed: seq<string> -> seq<Vector>)
    returns (r: Result<seq<Row>, BuildError>)
    ensures r.Success? <==> forall f :: 0 <= f < |files| ==> Covered(embed, files[f])
    ensures r.Failure? ==>
              && r.error.file < |files|
              && (forall g :: 0 <= g < r.error.file ==> Covered(embed, files[g]))
              && r.error.chunk == |embed(TextBatch(files[r.error.file].chunks))|
    ensures r.Success? ==> |r.value| == |Flatten(files)|
    ensures r.Success? ==> forall k :: 0 <= k < |r.value| ==> r.value[k].chunkId == k
    ensures r.Success? ==> Placed(files, embed, r.value, |files|)
    ensures r == Build(files, embed)
  {
    var rows: seq<Row> := [];
    var chunkId: nat := 0;
    for f := 0 to |files|
      invariant chunkId == |rows| == Offset(files, f)
      invariant forall g :: 0 <= g < f ==> Covered(embed, files[g])
      invariant forall k :: 0 <= k < |rows| ==> rows[k].chunkId == k
      invariant Placed(files, embed, rows, f)
    {
      var chunks := files[f].chunks;
      var embeddings := embed(TextBatch(chunks));
      OffsetStep(files, f);
      ghost var before := rows;
      assert Placed(files, embed, before, f);
      for i := 0 to |chunks|
        invariant chunkId == |rows| == Offset(files, f) + i
        invariant i <= |embeddings|
        invariant rows[..|before|] == before
        invariant forall k :: 0 <= k < |rows| ==> rows[k].chunkId == k
        invariant forall j :: 0 <= j < i ==> PlacedOne(files, embed, rows, f, j)
      {
        if i >= |embeddings| {
          BuildFailsAt(files, embed, f);
          r := Failure(IndexError(f, i));
          return;
        }
        ghost var prev := rows;
        rows := rows + [Row(chunks[i], chunkId, embeddings[i])];
        chunkId := chunkId + 1;
        forall j | 0 <= j < i
          ensures PlacedOne(files, embed, rows, f, j)
        {
          assert PlacedOne(files, embed, prev, f, j);
          PlacedOnePrefix(files, embed, prev, rows, f, j);
        }
        assert PlacedOne(files, embed, rows, f, i);
      }
      PlacedExtend(files, embed, before, rows, f);
    }
    if |files| > 0 {
      OffsetStep(files, |files| - 1);
    }
    r := Success(rows);
    PlacedIsBuild(files, embed, rows);
  }
}
