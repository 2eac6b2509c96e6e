/**
 * The record shapes shared by the ingestion and query pipelines.  In the
 * Python sources these are dictionaries with fixed keys; here they are
 * datatypes with one field per key.
 */
module Records {

  datatype Option<+T> = None | Some(value: T)

  /**
   * A corpus row as written by chunk_document and read back by the
   * retriever.  An empty chunkId stands for a missing or falsy "chunk_id";
   * a None docName for a null "doc_name".
   */
  datatype Chunk = Chunk(
    chunkId: string,
    docName: Option<string>,
    pageStart: nat,
    pageEnd: nat,
    section: string,
    text: string,
    tokensRough: nat)

  /** A retrieval result: the corpus row plus its "hybrid_score". */
  datatype Hit = Hit(chunk: Chunk, hybridScore: real)

  /** The chunks of a list of hits, in order. */
  function Chunks(hits: seq<Hit>): (cs: seq<Chunk>)
    ensures |cs| == |hits|
    ensures forall k :: 0 <= k < |hits| ==> cs[k] == hits[k].chunk
  {
    seq(|hits|, k requires 0 <= k < |hits| => hits[k].chunk)
  }
}
