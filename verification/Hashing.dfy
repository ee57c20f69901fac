/**
 Content identifiers. Leaf hashing, Merkle roots and MMR proofs live outside the
 modelled code, so they are functions of a `Crypto` value, and what is assumed of
 them is a hypothesis of the theorem that needs it.
 */
module Hashing {
  import opened Octets
  import opened Format

  /** 256 KiB. */
  const CHUNK_SIZE := 0x4_0000

  datatype Commitment = Commitment(mmrRoot: Cid, startSeq: nat, leafCount: nat)

  datatype MmrProof = MmrProof(leaf: Cid, path: Bytes)

  datatype Crypto = Crypto(
    hashLeaf: Bytes -> Cid,
    merkleRoot: seq<Cid> -> Cid,
    mmrRoot: seq<Cid> -> Cid,
    mmrPath: (seq<Cid>, nat) -> Bytes,
    verifyMmrProof: (MmrProof, nat, Commitment) -> bool)

  /** The chunks of `data`, in order. Empty data has none. */
  function Chunks(data: Bytes): seq<Bytes> {
    if |data| == 0 then []
    else if |data| <= CHUNK_SIZE then [data]
    else [data[..CHUNK_SIZE]] + Chunks(data[CHUNK_SIZE..])
  }

  function LeafHashes(k: Crypto, chunks: seq<Bytes>): (hs: seq<Cid>)
    ensures |hs| == |chunks|
  {
    if chunks == [] then [] else [k.hashLeaf(chunks[0])] + LeafHashes(k, chunks[1..])
  }

  function ChunkHashes(k: Crypto, data: Bytes): seq<Cid> { LeafHashes(k, Chunks(data)) }

  /** The data root of a blob. */
  function ComputeCid(k: Crypto, data: Bytes): Cid { k.merkleRoot(ChunkHashes(k, data)) }

  lemma {:induction false} ChunkCount(data: Bytes)
    ensures |Chunks(data)| == (|data| + CHUNK_SIZE - 1) / CHUNK_SIZE
    decreases |data|
  {
    if |data| > CHUNK_SIZE {
      ChunkCount(data[CHUNK_SIZE..]);
    }
  }

  /** Where chunk number `i` of `size` bytes ends. */
  function ChunkEnd(size: nat, i: nat): nat { if (i + 1) * CHUNK_SIZE < size then (i + 1) * CHUNK_SIZE else size }

  /** Chunk number `i` is the data from byte 262,144 i up to byte 262,144 (i + 1), or up to the end. */
  lemma {:induction false} ChunkIsSlice(data: Bytes, i: nat)
    requires i < |Chunks(data)|
    ensures CHUNK_SIZE == 262_144 && i * CHUNK_SIZE < ChunkEnd(|data|, i) <= |data|
    ensures Chunks(data)[i] == data[i * CHUNK_SIZE..ChunkEnd(|data|, i)]
    decreases i
  {
    if i > 0 {
      var rest := data[CHUNK_SIZE..];
      ChunkIsSlice(rest, i - 1);
      assert ChunkEnd(|data|, i) == ChunkEnd(|rest|, i - 1) + CHUNK_SIZE;
      SliceOfRest(data, CHUNK_SIZE, (i - 1) * CHUNK_SIZE, ChunkEnd(|rest|, i - 1));
    }
  }

  lemma SliceOfRest(data: Bytes, skip: nat, lo: nat, hi: nat)
    requires lo <= hi && skip + hi <= |data|
    ensures data[skip..][lo..hi] == data[skip + lo..skip + hi]
  {
  }

  function Concat(parts: seq<Bytes>): Bytes {
    if parts == [] then [] else parts[0] + Concat(parts[1..])
  }

  /** The chunks put together are the data. */
  lemma {:induction false} ChunksJoin(data: Bytes)
    ensures Concat(Chunks(data)) == data
    decreases |data|
  {
    if |data| > CHUNK_SIZE {
      ChunksJoin(data[CHUNK_SIZE..]);
      assert Chunks(data)[1..] == Chunks(data[CHUNK_SIZE..]);
    } else if data != [] {
      assert Chunks(data)[1..] == [];
    }
  }

  lemma {:induction false} LeafHashAt(k: Crypto, chunks: seq<Bytes>, i: nat)
    requires i < |chunks|
    ensures LeafHashes(k, chunks)[i] == k.hashLeaf(chunks[i])
    decreases i
  {
    if i > 0 {
      LeafHashAt(k, chunks[1..], i - 1);
    }
  }

  /** `hashes` are the leaf hashes of `data` cut every 262,144 bytes. */
  predicate HashesOf(k: Crypto, data: Bytes, hashes: seq<Cid>) {
    && |hashes| == (|data| + CHUNK_SIZE - 1) / CHUNK_SIZE
    && forall i | 0 <= i < |hashes| ::
      i * CHUNK_SIZE <= ChunkEnd(|data|, i) && hashes[i] == k.hashLeaf(data[i * CHUNK_SIZE..ChunkEnd(|data|, i)])
  }

  lemma ChunkHashesAre(k: Crypto, data: Bytes)
    ensures HashesOf(k, data, ChunkHashes(k, data))
  {
    hide Chunks, LeafHashes;
    ChunkCount(data);
    forall i | 0 <= i < |ChunkHashes(k, data)|
      ensures i * CHUNK_SIZE <= ChunkEnd(|data|, i)
      ensures ChunkHashes(k, data)[i] == k.hashLeaf(data[i * CHUNK_SIZE..ChunkEnd(|data|, i)])
    {
      ChunkIsSlice(data, i);
      LeafHashAt(k, Chunks(data), i);
    }
  }

  /** The CID of a blob is the Merkle root over the leaf hashes of its 256 KiB pieces. */
  lemma CidMeaning(k: Crypto, data: Bytes, hashes: seq<Cid>)
    requires HashesOf(k, data, hashes)
    ensures ComputeCid(k, data) == k.merkleRoot(hashes)
  {
    hide Chunks, LeafHashes, ChunkHashes;
    ChunkHashesAre(k, data);
    var own := ChunkHashes(k, data);
    assert forall i | 0 <= i < |own| :: own[i] == hashes[i];
    assert own == hashes;
  }

  /** No two different byte strings in `seen` share a CID. */
  ghost predicate NoCollision(k: Crypto, seen: set<Bytes>) {
    forall a, b {:trigger ComputeCid(k, a), ComputeCid(k, b)} ::
      a in seen && b in seen && ComputeCid(k, a) == ComputeCid(k, b) ==> a == b
  }

  /** The leaf lists that were committed to in a run, and the proofs that were answered. */
  datatype Trail = Trail(lists: set<seq<Cid>>, proofs: set<MmrProof>) {
    function Listed(leaves: seq<Cid>): Trail { Trail(lists + {leaves}, proofs) }

    function Answered(p: MmrProof): Trail { Trail(lists, proofs + {p}) }

    predicate Within(t: Trail) { lists <= t.lists && proofs <= t.proofs }
  }

  /** The commitment `c` is to these leaves. */
  predicate CommitsTo(k: Crypto, c: Commitment, leaves: seq<Cid>) {
    c.mmrRoot == k.mmrRoot(leaves) && c.leafCount == |leaves|
  }

  /** No proof of the run proves a false leaf under a commitment to a leaf list of the run. */
  ghost predicate MmrSound(k: Crypto, t: Trail) {
    forall leaves <- t.lists, p <- t.proofs, i: nat, c: Commitment
      {:trigger k.verifyMmrProof(p, i, c), CommitsTo(k, c, leaves)} ::
      i < |leaves| && CommitsTo(k, c, leaves) && k.verifyMmrProof(p, i, c) ==> p.leaf == leaves[i]
  }

  /** The proof of a leaf, made from the list it is in. */
  function ProofAt(k: Crypto, leaves: seq<Cid>, i: nat): MmrProof
    requires i < |leaves|
  {
    MmrProof(leaves[i], k.mmrPath(leaves, i))
  }

  /** The proof made from a leaf list of the run verifies under a commitment to the same list. */
  ghost predicate MmrComplete(k: Crypto, t: Trail) {
    forall leaves <- t.lists, i: nat, c: Commitment
      {:trigger k.verifyMmrProof(ProofAt(k, leaves, i), i, c)} ::
      i < |leaves| && CommitsTo(k, c, leaves) ==> k.verifyMmrProof(ProofAt(k, leaves, i), i, c)
  }

  lemma ShorterTrail(k: Crypto, t: Trail, longer: Trail)
    requires t.Within(longer)
    ensures MmrSound(k, longer) ==> MmrSound(k, t)
    ensures MmrComplete(k, longer) ==> MmrComplete(k, t)
  {
  }
}
