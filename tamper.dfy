/** What the verification walk of service/blockchain_service.go does and does
    not detect when stored rows are edited after the fact. */
module Tamper {
  import opened Hashing
  import opened Chain
  import opened Ledger

  /** A change to one field of a stored row that keeps it in its SKU's
      chain (a change of SKU moves the row out: see SkuEditDetected). */
  datatype Edit =
    | SetRecordData(data: string)
    | SetPreviousHash(previousHash: string)
    | SetHash(hash: string)
    | SetCreatedAt(createdAt: string)
    | SetRecordType(recordType: int)
    | SetBlockHeight(blockHeight: int)
  {
    /** The fields the walk reads: data, previous hash, hash and timestamp. */
    predicate Checked()
    {
      SetRecordData? || SetPreviousHash? || SetHash? || SetCreatedAt?
    }
  }

  function Apply(b: Block, e: Edit): Block
  {
    match e
    case SetRecordData(d) => b.(recordData := d)
    case SetPreviousHash(p) => b.(previousHash := p)
    case SetHash(x) => b.(hash := x)
    case SetCreatedAt(t) => b.(createdAt := t)
    case SetRecordType(k) => b.(recordType := k)
    case SetBlockHeight(n) => b.(blockHeight := n)
  }

  /** The verdict depends only on which positions pass their checks. */
  lemma SamePassesSameReport(h: Digest, a: seq<Block>, b: seq<Block>)
    requires |a| == |b|
    requires forall i :: 0 <= i < |a| ==> (BlockPasses(h, a, i) <==> BlockPasses(h, b, i))
    ensures Expected(h, a) == Expected(h, b)
  {
  }

  /** Replacing row k leaves the checks of every earlier row as they were. */
  lemma PrefixUnaffected(h: Digest, blocks: seq<Block>, k: nat, b: Block)
    requires k < |blocks|
    ensures forall i :: 0 <= i < k ==>
              (BlockPasses(h, blocks[k := b], i) <==> BlockPasses(h, blocks, i))
  {
  }

  /** Tamper evidence: in a chain that passes every check, and under a
      collision-free digest, changing the data, previous hash, hash or
      timestamp of row k, with the row kept in its place, makes verification
      report exactly position k + 1. */
  lemma SingleEditDetected(h: Digest, blocks: seq<Block>, k: nat, e: Edit)
    requires Injective(h)
    requires ChainValid(h, blocks)
    requires k < |blocks| && e.Checked() && Apply(blocks[k], e) != blocks[k]
    ensures Expected(h, blocks[k := Apply(blocks[k], e)]) == Broken(k + 1, |blocks|)
  {
    var b := blocks[k];
    var t := blocks[k := Apply(b, e)];
    PrefixUnaffected(h, blocks, k, Apply(b, e));
    forall i | 0 <= i < k
      ensures BlockPasses(h, t, i)
    {
      assert BlockPasses(h, blocks, i);
    }
    assert BlockPasses(h, blocks, k);
    assert k > 0 ==> t[k - 1] == blocks[k - 1];
    match e {
      case SetRecordData(d) =>
        HashDeterminesData(h, d, b.recordData, b.previousHash, b.createdAt);
        assert !HashMatches(h, t[k]);
      case SetPreviousHash(p) =>
        assert !LinkHolds(t, k);
      case SetHash(x) =>
        assert !HashMatches(h, t[k]);
      case SetCreatedAt(c) =>
        HashDeterminesTimestamp(h, b.recordData, b.previousHash, c, b.createdAt);
        assert !HashMatches(h, t[k]);
    }
    FirstBadIsFirstFailure(h, t, k);
  }

  /** The walk orders rows by their timestamp, so a timestamp edit that sorts
      row k before the first row moves it to the front. In a valid chain
      whose row k - 1 has a non-empty hash, row k then carries a non-empty
      previous hash at position 1, and verification reports position 1. */
  lemma TimestampEditMovesRowFirst(h: Digest, blocks: seq<Block>, k: nat, t: string)
    requires ChainValid(h, blocks)
    requires 0 < k < |blocks| && blocks[k - 1].hash != ""
    ensures Expected(h, [Apply(blocks[k], SetCreatedAt(t))] + blocks[..k] + blocks[k + 1..])
            == Broken(1, |blocks|)
  {
    var walked := [Apply(blocks[k], SetCreatedAt(t))] + blocks[..k] + blocks[k + 1..];
    assert BlockPasses(h, blocks, k);
    assert walked[0].previousHash == blocks[k - 1].hash;
    assert !LinkHolds(walked, 0);
    FirstBadIsFirstFailure(h, walked, 0);
  }

  /** The walk never reads the record type or the height of a row: editing
      one of them leaves the verdict of any chain unchanged. */
  lemma UncheckedEditInvisible(h: Digest, blocks: seq<Block>, k: nat, e: Edit)
    requires k < |blocks| && !e.Checked()
    ensures Expected(h, blocks[k := Apply(blocks[k], e)]) == Expected(h, blocks)
  {
    var t := blocks[k := Apply(blocks[k], e)];
    forall i | 0 <= i < |blocks|
      ensures BlockPasses(h, t, i) <==> BlockPasses(h, blocks, i)
    {
      assert t[i].recordData == blocks[i].recordData && t[i].previousHash == blocks[i].previousHash;
      assert t[i].hash == blocks[i].hash && t[i].createdAt == blocks[i].createdAt;
      assert i > 0 ==> t[i - 1].hash == blocks[i - 1].hash;
    }
    SamePassesSameReport(h, t, blocks);
  }

  /** A row whose stored hash does not match its own fields makes
      verification fail at that row or earlier, whatever the other rows are. */
  lemma BadHashBoundsReport(h: Digest, blocks: seq<Block>, k: nat)
    requires k < |blocks| && !HashMatches(h, blocks[k])
    ensures Expected(h, blocks).Broken?
    ensures Expected(h, blocks).invalidBlock <= k + 1
  {
    assert !BlockPasses(h, blocks, k);
  }

  /** Editing the data of a row that was hashed correctly, under a
      collision-free digest, makes verification fail at that row or earlier,
      even if earlier rows were edited too. */
  lemma DataEditBoundsReport(h: Digest, blocks: seq<Block>, k: nat, original: Block)
    requires Injective(h) && HashMatches(h, original)
    requires k < |blocks| && blocks[k] == original.(recordData := blocks[k].recordData)
    requires blocks[k].recordData != original.recordData
    ensures Expected(h, blocks).Broken?
    ensures Expected(h, blocks).invalidBlock <= k + 1
  {
    HashDeterminesData(h, blocks[k].recordData, original.recordData, original.previousHash, original.createdAt);
    BadHashBoundsReport(h, blocks, k);
  }

  /** Changing a row's SKU takes it out of the rows the walk selects for the
      chain, which are then the others in their order. In a valid chain whose
      row k is not the last, and whose hash differs from what row k + 1 would
      need to link past it, verification reports the row after the gap. */
  lemma SkuEditDetected(h: Digest, blocks: seq<Block>, k: nat)
    requires ChainValid(h, blocks)
    requires k + 1 < |blocks|
    requires blocks[k].hash != (if k == 0 then "" else blocks[k - 1].hash)
    ensures Expected(h, blocks[..k] + blocks[k + 1..]) == Broken(k + 1, |blocks| - 1)
  {
    var t := blocks[..k] + blocks[k + 1..];
    forall i | 0 <= i < k
      ensures BlockPasses(h, t, i)
    {
      assert BlockPasses(h, blocks, i);
      assert t[i] == blocks[i];
      assert i > 0 ==> t[i - 1] == blocks[i - 1];
    }
    assert BlockPasses(h, blocks, k + 1);
    assert t[k] == blocks[k + 1];
    assert k > 0 ==> t[k - 1] == blocks[k - 1];
    assert !LinkHolds(t, k);
    FirstBadIsFirstFailure(h, t, k);
  }

  /** Changing the SKU of the last row of a valid chain goes unseen: the
      remaining rows still verify as an intact, shorter chain. */
  lemma TailSkuEditUndetected(h: Digest, blocks: seq<Block>)
    requires ChainValid(h, blocks) && |blocks| > 1
    ensures Expected(h, blocks[..|blocks| - 1]) == Intact(|blocks| - 1)
  {
    var t := blocks[..|blocks| - 1];
    forall i | 0 <= i < |t|
      ensures BlockPasses(h, t, i)
    {
      assert BlockPasses(h, blocks, i);
      assert t[i] == blocks[i];
      assert i > 0 ==> t[i - 1] == blocks[i - 1];
    }
    assert FirstBad(h, t) == None;
  }

  /** Because the hash sees one concatenated string, moving the last
      character of the first row's data to the front of its timestamp
      changes the row but not the verdict. This is a fact about the hash of
      strings: a stored DATETIME always renders with a leading year, so the
      shifted timestamp is not one the store can hold. */
  lemma GenesisShiftUndetected(h: Digest, blocks: seq<Block>, x: string, c: char)
    requires ChainValid(h, blocks)
    requires blocks != [] && blocks[0].recordData == x + [c]
    ensures blocks[0 := blocks[0].(recordData := x, createdAt := [c] + blocks[0].createdAt)][0] != blocks[0]
    ensures Expected(h, blocks[0 := blocks[0].(recordData := x, createdAt := [c] + blocks[0].createdAt)])
            == Expected(h, blocks)
    ensures Expected(h, blocks) == Intact(|blocks|)
  {
    var b := blocks[0];
    var b' := b.(recordData := x, createdAt := [c] + b.createdAt);
    var t := blocks[0 := b'];
    assert |b'.recordData| < |b.recordData|;
    assert BlockPasses(h, blocks, 0);
    assert b.previousHash == "";
    assert x + "" + ([c] + b.createdAt) == (x + [c]) + "" + b.createdAt;
    assert HashMatches(h, b');
    forall i | 0 <= i < |blocks|
      ensures BlockPasses(h, t, i) <==> BlockPasses(h, blocks, i)
    {
      assert BlockPasses(h, blocks, i);
      if i > 0 {
        assert t[i] == blocks[i];
        assert t[i - 1].hash == blocks[i - 1].hash;
      }
    }
    SamePassesSameReport(h, t, blocks);
    assert FirstBad(h, blocks) == None;
  }

  /** Two appends for one SKU verify as an intact chain of two; overwriting
      the second row's data without rehashing is reported at position 2. */
  lemma TwoAppendScenario(h: Digest, sku: string)
    requires Injective(h)
    ensures var blocks := Replay(h, sku, [Event(ProductApproved, "P1", "t1"), Event(LogisticsUpdate, "P2", "t2")]);
            Expected(h, blocks) == Intact(2) &&
            Expected(h, blocks[1 := blocks[1].(recordData := "P3")]) == Broken(2, 2)
  {
    var events := [Event(ProductApproved, "P1", "t1"), Event(LogisticsUpdate, "P2", "t2")];
    var blocks := Replay(h, sku, events);
    ReplayVerifies(h, sku, events);
    ReplayWellFormed(h, sku, events);
    assert blocks[1].recordData == "P2";
    SingleEditDetected(h, blocks, 1, SetRecordData("P3"));
  }
}
