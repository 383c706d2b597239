/** The content hash of one provenance block (generateHash in
    service/blockchain_service.go). The source feeds SHA-256 the plain
    concatenation data + previousHash + timestamp and hex-encodes the digest;
    here the digest is a parameter `h`, and the timestamp is its rendered
    text, so only the concatenation itself is modelled. */
module Hashing {

  /** SHA-256 followed by hex encoding, left uninterpreted. */
  type Digest = string -> string

  /** Collision freedom of the digest: an assumption, stated wherever it is needed. */
  ghost predicate Injective(h: Digest)
  {
    forall x, y :: h(x) == h(y) ==> x == y
  }

  /** The hash stored in and recomputed for a block. */
  function GenerateHash(h: Digest, data: string, previousHash: string, timestamp: string): string
  {
    h(data + previousHash + timestamp)
  }

  /** The hash sees one string only: two field triples with the same
      concatenation get the same hash, whatever the digest. */
  lemma SameConcatenationSameHash(h: Digest, d1: string, p1: string, t1: string,
                                  d2: string, p2: string, t2: string)
    requires d1 + p1 + t1 == d2 + p2 + t2
    ensures GenerateHash(h, d1, p1, t1) == GenerateHash(h, d2, p2, t2)
  {
  }

  /** Field boundaries are ambiguous: moving a character from the data to the
      previous hash leaves the hash unchanged. */
  lemma BoundaryAmbiguity(h: Digest, timestamp: string)
    ensures ("ab", "") != ("a", "b")
    ensures GenerateHash(h, "ab", "", timestamp) == GenerateHash(h, "a", "b", timestamp)
  {
    assert "ab" + "" == "a" + "b";
  }

  /** Cancelling a common suffix of a concatenation. */
  lemma CancelSuffix(x: string, y: string, s: string)
    requires x + s == y + s
    ensures x == y
  {
    assert |x| == |y|;
    assert x == (x + s)[..|x|];
    assert y == (y + s)[..|y|];
  }

  /** Cancelling a common prefix of a concatenation. */
  lemma CancelPrefix(s: string, x: string, y: string)
    requires s + x == s + y
    ensures x == y
  {
    assert x == (s + x)[|s|..];
    assert y == (s + y)[|s|..];
  }

  /** Under a collision-free digest, the hash pins down the data of a block
      whose previous hash and timestamp are kept. */
  lemma HashDeterminesData(h: Digest, d1: string, d2: string, previousHash: string, timestamp: string)
    requires Injective(h)
    ensures GenerateHash(h, d1, previousHash, timestamp) == GenerateHash(h, d2, previousHash, timestamp)
            <==> d1 == d2
  {
    if GenerateHash(h, d1, previousHash, timestamp) == GenerateHash(h, d2, previousHash, timestamp) {
      assert d1 + previousHash + timestamp == d1 + (previousHash + timestamp);
      assert d2 + previousHash + timestamp == d2 + (previousHash + timestamp);
      CancelSuffix(d1, d2, previousHash + timestamp);
    }
  }

  /** Under a collision-free digest, the hash pins down the previous hash of
      a block whose data and timestamp are kept. */
  lemma HashDeterminesPreviousHash(h: Digest, data: string, p1: string, p2: string, timestamp: string)
    requires Injective(h)
    ensures GenerateHash(h, data, p1, timestamp) == GenerateHash(h, data, p2, timestamp)
            <==> p1 == p2
  {
    if GenerateHash(h, data, p1, timestamp) == GenerateHash(h, data, p2, timestamp) {
      assert data + p1 + timestamp == data + (p1 + timestamp);
      assert data + p2 + timestamp == data + (p2 + timestamp);
      CancelPrefix(data, p1 + timestamp, p2 + timestamp);
      CancelSuffix(p1, p2, timestamp);
    }
  }

  /** Under a collision-free digest, the hash pins down the timestamp of a
      block whose data and previous hash are kept. */
  lemma HashDeterminesTimestamp(h: Digest, data: string, previousHash: string, t1: string, t2: string)
    requires Injective(h)
    ensures GenerateHash(h, data, previousHash, t1) == GenerateHash(h, data, previousHash, t2)
            <==> t1 == t2
  {
    if GenerateHash(h, data, previousHash, t1) == GenerateHash(h, data, previousHash, t2) {
      CancelPrefix(data + previousHash, t1, t2);
    }
  }
}
