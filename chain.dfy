/** One product's provenance chain and its verification (the BlockchainLog
    rows of configs/mysql.go and the walk inside VerifyBlockchain in
    service/blockchain_service.go). A chain is the sequence of a SKU's rows in
    the order the store returns them. */
module Chain {
  import opened Hashing

  datatype Option<T> = None | Some(value: T)

  /** Record types the callers pass (the service itself does not check them). */
  const ProductApproved: int := 1
  const LogisticsUpdate: int := 2
  const CustodyTransfer: int := 3

  /** One BlockchainLog row. `createdAt` is the rendered timestamp of the
      block, used both when it is hashed and when it is verified. */
  datatype Block = Block(
    productSku: string,
    recordType: int,
    recordData: string,
    hash: string,
    previousHash: string,
    blockHeight: int,
    createdAt: string)

  /** The block's stored hash is the hash recomputed from its own fields. */
  predicate HashMatches(h: Digest, b: Block)
  {
    GenerateHash(h, b.recordData, b.previousHash, b.createdAt) == b.hash
  }

  /** The first block has an empty previous hash; every later one names its
      predecessor's hash. */
  predicate LinkHolds(blocks: seq<Block>, i: nat)
    requires i < |blocks|
  {
    if i == 0 then blocks[0].previousHash == "" else blocks[i].previousHash == blocks[i - 1].hash
  }

  /** Both checks the verification walk makes on the block at position i. */
  predicate BlockPasses(h: Digest, blocks: seq<Block>, i: nat)
    requires i < |blocks|
  {
    LinkHolds(blocks, i) && HashMatches(h, blocks[i])
  }

  /** Every link and every recomputed hash holds. */
  predicate ChainValid(h: Digest, blocks: seq<Block>)
  {
    forall i :: 0 <= i < |blocks| ==> BlockPasses(h, blocks, i)
  }

  /** The first position at or after `start` whose block fails a check. */
  function FirstBadFrom(h: Digest, blocks: seq<Block>, start: nat): (r: Option<nat>)
    requires start <= |blocks|
    ensures r.None? <==> forall i :: start <= i < |blocks| ==> BlockPasses(h, blocks, i)
    ensures r.Some? ==> start <= r.value < |blocks| && !BlockPasses(h, blocks, r.value)
    ensures r.Some? ==> forall i :: start <= i < r.value ==> BlockPasses(h, blocks, i)
    decreases |blocks| - start
  {
    if start == |blocks| then None
    else if !BlockPasses(h, blocks, start) then Some(start)
    else FirstBadFrom(h, blocks, start + 1)
  }

  /** The first failing position of the whole chain, if any. */
  function FirstBad(h: Digest, blocks: seq<Block>): Option<nat>
  {
    FirstBadFrom(h, blocks, 0)
  }

  /** What the verify endpoint reports: no blocks at all, an intact chain
      with its length, or the 1-based position of the first failing block
      together with the length. */
  datatype Report = NotFound | Intact(totalBlocks: nat) | Broken(invalidBlock: nat, totalBlocks: nat)

  /** The report the verification walk must produce for a chain. */
  function Expected(h: Digest, blocks: seq<Block>): Report
  {
    if blocks == [] then NotFound
    else match FirstBad(h, blocks)
      case None => Intact(|blocks|)
      case Some(i) => Broken(i + 1, |blocks|)
  }

  /** A first failure is unique: a failing position with every earlier
      position passing is the one FirstBad finds. */
  lemma FirstBadIsFirstFailure(h: Digest, blocks: seq<Block>, k: nat)
    requires k < |blocks| && !BlockPasses(h, blocks, k)
    requires forall i :: 0 <= i < k ==> BlockPasses(h, blocks, i)
    ensures FirstBad(h, blocks) == Some(k)
    ensures Expected(h, blocks) == Broken(k + 1, |blocks|)
  {
  }

  /** The verification walk: blocks in stored order, a running previous hash,
      and a stop at the first block whose link or recomputed hash is wrong. */
  method VerifyChain(h: Digest, blocks: seq<Block>) returns (r: Report)
    ensures r == Expected(h, blocks)
    ensures r == NotFound <==> blocks == []
    ensures r.Intact? <==> blocks != [] && ChainValid(h, blocks)
    ensures r.Intact? ==> r.totalBlocks == |blocks|
    ensures r.Broken? ==> r.totalBlocks == |blocks| && 1 <= r.invalidBlock <= |blocks|
    ensures r.Broken? ==> !BlockPasses(h, blocks, r.invalidBlock - 1)
    ensures r.Broken? ==> forall i :: 0 <= i < r.invalidBlock - 1 ==> BlockPasses(h, blocks, i)
  {
    if |blocks| == 0 {
      return NotFound;
    }
    var valid := true;
    var invalidBlock := 0;
    var previousHash := "";
    var i := 0;
    while i < |blocks|
      invariant 0 <= i <= |blocks|
      invariant forall j :: 0 <= j < i ==> BlockPasses(h, blocks, j)
      invariant 0 < i ==> previousHash == blocks[i - 1].hash
      invariant valid  // it turns false only right before a break
    {
      var block := blocks[i];
      if i == 0 {
        if block.previousHash != "" {
          valid := false;
          invalidBlock := i + 1;
          break;
        }
      } else {
        if block.previousHash != previousHash {
          valid := false;
          invalidBlock := i + 1;
          break;
        }
      }
      var calculatedHash := GenerateHash(h, block.recordData, block.previousHash, block.createdAt);
      if calculatedHash != block.hash {
        valid := false;
        invalidBlock := i + 1;
        break;
      }
      previousHash := block.hash;
      i := i + 1;
    }
    if valid {
      r := Intact(|blocks|);
    } else {
      FirstBadIsFirstFailure(h, blocks, invalidBlock - 1);
      r := Broken(invalidBlock, |blocks|);
    }
  }
}
