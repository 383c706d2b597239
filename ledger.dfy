/** The per-product provenance log of service/blockchain_service.go: the
    BlockchainLog table as a map from SKU to its chain, the append operation
    AddToBlockchain and the verification entry point. The clock, the outcome
    of the "latest block" query and the outcome of the row insert are
    parameters of the operations. */
module Ledger {
  import opened Hashing
  import opened Chain

  /** The error AddToBlockchain passes back when the row insert fails. */
  datatype StoreError = WriteFailed

  datatype Result<T> = Ok(value: T) | Err(error: StoreError)

  /** The previous hash and height the next block gets from the query for
      the latest block: the tail when the query returns one, otherwise an
      empty previous hash and height 1. A failed query is treated like an
      empty chain. */
  function LatestBlock(blocks: seq<Block>, queryFails: bool): Option<Block>
  {
    if queryFails || blocks == [] then None else Some(blocks[|blocks| - 1])
  }

  /** The row AddToBlockchain writes after the tail query returned `tail`. */
  function NextBlock(h: Digest, productSku: string, recordType: int, data: string,
                     now: string, tail: Option<Block>): Block
  {
    var previousHash := if tail.Some? then tail.value.hash else "";
    var blockHeight := if tail.Some? then tail.value.blockHeight + 1 else 1;
    Block(productSku, recordType, data, GenerateHash(h, data, previousHash, now),
          previousHash, blockHeight, now)
  }

  /** A chain as successive appends leave it: it passes every check, its
      heights count 1, 2, 3, ... and every row carries the chain's SKU. */
  predicate WellFormedChain(h: Digest, productSku: string, blocks: seq<Block>)
  {
    ChainValid(h, blocks) &&
    forall i :: 0 <= i < |blocks| ==> blocks[i].blockHeight == i + 1 && blocks[i].productSku == productSku
  }

  /** Appending what AddToBlockchain writes after a successful tail query
      keeps a chain well formed. */
  lemma AppendPreservesWellFormed(h: Digest, productSku: string, blocks: seq<Block>,
                                  recordType: int, data: string, now: string)
    requires WellFormedChain(h, productSku, blocks)
    ensures WellFormedChain(h, productSku,
              blocks + [NextBlock(h, productSku, recordType, data, now, LatestBlock(blocks, false))])
  {
    var b := NextBlock(h, productSku, recordType, data, now, LatestBlock(blocks, false));
    var next := blocks + [b];
    forall i | 0 <= i < |next|
      ensures BlockPasses(h, next, i)
      ensures next[i].blockHeight == i + 1 && next[i].productSku == productSku
    {
      if i < |blocks| {
        assert BlockPasses(h, blocks, i);
        assert next[i] == blocks[i];
        assert i > 0 ==> next[i - 1] == blocks[i - 1];
      } else {
        assert next[i] == b;
        assert i > 0 ==> next[i - 1] == blocks[|blocks| - 1];
      }
    }
  }

  /** One event passed to AddToBlockchain, with the time it is hashed at. */
  datatype Event = Event(recordType: int, data: string, now: string)

  /** The chain that successive successful appends of `events` build for one
      SKU, starting from no blocks. */
  function Replay(h: Digest, productSku: string, events: seq<Event>): seq<Block>
  {
    if events == [] then []
    else
      var blocks := Replay(h, productSku, events[..|events| - 1]);
      var e := events[|events| - 1];
      blocks + [NextBlock(h, productSku, e.recordType, e.data, e.now, LatestBlock(blocks, false))]
  }

  /** A chain built only by appends is well formed and has one block per append. */
  lemma {:induction false} ReplayWellFormed(h: Digest, productSku: string, events: seq<Event>)
    ensures |Replay(h, productSku, events)| == |events|
    ensures WellFormedChain(h, productSku, Replay(h, productSku, events))
  {
    if events != [] {
      var e := events[|events| - 1];
      ReplayWellFormed(h, productSku, events[..|events| - 1]);
      AppendPreservesWellFormed(h, productSku, Replay(h, productSku, events[..|events| - 1]),
                                e.recordType, e.data, e.now);
    }
  }

  /** A chain built only by appends verifies: not found when nothing was
      appended, otherwise intact with one block per append. */
  lemma ReplayVerifies(h: Digest, productSku: string, events: seq<Event>)
    ensures Expected(h, Replay(h, productSku, events)) ==
            if events == [] then NotFound else Intact(|events|)
  {
    ReplayWellFormed(h, productSku, events);
  }

  /** When the tail query fails on a chain that has blocks, the append starts
      a second first block: its empty previous hash breaks the link to the
      old tail, and verification reports the new block. */
  lemma QueryFailureBreaksChain(h: Digest, productSku: string, blocks: seq<Block>,
                                recordType: int, data: string, now: string)
    requires WellFormedChain(h, productSku, blocks)
    requires blocks != [] && blocks[|blocks| - 1].hash != ""
    ensures var next := blocks + [NextBlock(h, productSku, recordType, data, now, LatestBlock(blocks, true))];
            Expected(h, next) == Broken(|blocks| + 1, |blocks| + 1) &&
            next[|blocks|].blockHeight == 1
  {
    var next := blocks + [NextBlock(h, productSku, recordType, data, now, LatestBlock(blocks, true))];
    forall i | 0 <= i < |blocks|
      ensures BlockPasses(h, next, i)
    {
      assert BlockPasses(h, blocks, i);
      assert next[i] == blocks[i];
      assert i > 0 ==> next[i - 1] == blocks[i - 1];
    }
    assert !LinkHolds(next, |blocks|);
    FirstBadIsFirstFailure(h, next, |blocks|);
  }

  /** The BlockchainLog table with the digest the service hashes with. */
  class Ledger {
    const digest: Digest
    var chains: map<string, seq<Block>>

    /** Every stored chain has blocks and is as appends leave it. */
    ghost predicate WellFormed()
      reads this
    {
      forall sku :: sku in chains ==> chains[sku] != [] && WellFormedChain(digest, sku, chains[sku])
    }

    /** The rows stored for a SKU, in the order the store returns them. */
    function ChainOf(productSku: string): seq<Block>
      reads this
    {
      if productSku in chains then chains[productSku] else []
    }

    constructor (digest: Digest)
      ensures this.digest == digest && chains == map[]
      ensures WellFormed()
    {
      this.digest := digest;
      chains := map[];
    }

    /** Appends one row for `productSku` hashed at time `now`; `queryFails`
        is the tail query failing, `writeOk` the row insert succeeding.
        Returns the new row's hash, or the insert error with nothing added. */
    method AddToBlockchain(productSku: string, recordType: int, data: string,
                           now: string, queryFails: bool, writeOk: bool) returns (r: Result<string>)
      modifies this
      ensures !writeOk ==> r == Err(WriteFailed) && chains == old(chains)
      ensures writeOk ==>
        var b := NextBlock(digest, productSku, recordType, data, now, LatestBlock(old(ChainOf(productSku)), queryFails));
        r == Ok(b.hash) &&
        chains == old(chains)[productSku := old(ChainOf(productSku)) + [b]]
      ensures writeOk && !queryFails && old(ChainOf(productSku)) != [] ==>
        var tail := old(ChainOf(productSku))[|old(ChainOf(productSku))| - 1];
        chains[productSku][|chains[productSku]| - 1].previousHash == tail.hash &&
        chains[productSku][|chains[productSku]| - 1].blockHeight == tail.blockHeight + 1
      ensures writeOk && (queryFails || old(ChainOf(productSku)) == []) ==>
        chains[productSku][|chains[productSku]| - 1].previousHash == "" &&
        chains[productSku][|chains[productSku]| - 1].blockHeight == 1
      ensures writeOk ==> HashMatches(digest, chains[productSku][|chains[productSku]| - 1])
      ensures forall sku :: sku != productSku ==> ChainOf(sku) == old(ChainOf(sku))
      ensures old(WellFormed()) && !queryFails ==> WellFormed()
    {
      var blocks := ChainOf(productSku);
      var previousHash := "";
      var blockHeight := 1;
      if !queryFails && blocks != [] {
        var lastBlock := blocks[|blocks| - 1];
        previousHash := lastBlock.hash;
        blockHeight := lastBlock.blockHeight + 1;
      }
      var hashed := GenerateHash(digest, data, previousHash, now);
      var block := Block(productSku, recordType, data, hashed, previousHash, blockHeight, now);
      assert block == NextBlock(digest, productSku, recordType, data, now, LatestBlock(blocks, queryFails));
      if !writeOk {
        return Err(WriteFailed);
      }
      if WellFormed() && !queryFails {
        AppendPreservesWellFormed(digest, productSku, blocks, recordType, data, now);
      }
      chains := chains[productSku := blocks + [block]];
      r := Ok(hashed);
    }

    /** Verifies the stored chain of `productSku`. */
    method VerifyBlockchain(productSku: string) returns (r: Report)
      ensures r == Expected(digest, ChainOf(productSku))
      ensures r == NotFound <==> productSku !in chains || chains[productSku] == []
      ensures WellFormed() && productSku in chains ==> r == Intact(|chains[productSku]|)
    {
      r := VerifyChain(digest, ChainOf(productSku));
    }
  }
}
