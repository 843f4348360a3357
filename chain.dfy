/** The chain: the append-only list of blocks starting from the genesis block,
    the pool of accepted transactions, intake into the pool, the mining round
    that seals the pool into a block, and validation of the whole chain. */
module Chains {
  import opened LedgerTypes
  import opened Transactions
  import opened Blocks

  /** The amount a mining reward pays. */
  const MinerReward: int := 50

  /** The placeholder text the genesis block holds instead of transactions. */
  const GenesisNote: string := "\U{6211}\U{662F}\U{7956}\U{5148}"

  /** The reward transaction a mining round pays to the given address: system-minted, unsigned. */
  function RewardRecord(minerRewardAddress: string): TxRecord {
    TxRecord(None, minerRewardAddress, MinerReward, None)
  }

  /** What addTransaction decides about a transaction: a falsy sender or
      recipient is refused first, then the validity check is made, whose
      error propagates and whose false is refused. */
  function Intake(c: Primitives, t: TxRecord): (r: Outcome)
    ensures r == Done <==> Truthy(t.from) && t.to != "" && TxValidity(c, t) == Ok(true)
    ensures !Truthy(t.from) || t.to == "" ==> r == Fail(InvalidFromOrTo)
    ensures r == Fail(InvalidTransaction) <==> Truthy(t.from) && t.to != "" && TxValidity(c, t) == Ok(false)
    ensures r == Fail(SignatureMissing) <==> Truthy(t.from) && t.to != "" && !Truthy(t.signature)
  {
    if !Truthy(t.from) || t.to == "" then Fail(InvalidFromOrTo)
    else match TxValidity(c, t)
      case Err(e) => Fail(e)
      case Ok(false) => Fail(InvalidTransaction)
      case Ok(true) => Done
  }

  /** A signed transfer whose signature does not verify under its sender's
      key is refused as an invalid transaction. */
  lemma ForgedSignatureRefused(c: Primitives, t: TxRecord)
    requires Truthy(t.from) && t.to != "" && Truthy(t.signature)
    requires !c.verify(t.from.value, TxHash(c, t), t.signature.value)
    ensures Intake(c, t) == Fail(InvalidTransaction)
  {
  }

  /** A pool made of transactions that each pass intake, followed by the
      reward, validates; so mining such a pool is never refused. */
  lemma AcceptedPoolValidates(c: Primitives, pool: seq<TxRecord>, minerRewardAddress: string)
    requires forall i :: 0 <= i < |pool| ==> Intake(c, pool[i]) == Done
    ensures TxsVerdict(c, pool + [RewardRecord(minerRewardAddress)]) == Ok(true)
  {
    var s := pool + [RewardRecord(minerRewardAddress)];
    assert forall i :: 0 <= i < |s| ==> TxValidity(c, s[i]) == Ok(true) by {
      forall i | 0 <= i < |s| ensures TxValidity(c, s[i]) == Ok(true) {
        if i < |pool| {
          assert s[i] == pool[i];
        }
      }
    }
    TxsVerdictAllValid(c, s);
  }

  /** Adding the reward never changes what validating a pool reports. */
  lemma RewardKeepsVerdict(c: Primitives, pool: seq<TxRecord>, minerRewardAddress: string)
    ensures TxsVerdict(c, pool + [RewardRecord(minerRewardAddress)]) == TxsVerdict(c, pool)
  {
    var reward := [RewardRecord(minerRewardAddress)];
    TxsVerdictAppend(c, pool, reward);
    assert reward[1..] == [];
  }

  /** Block i passes every check validateChain makes of it. */
  predicate BlockSound(c: Primitives, bs: seq<BlockView>, i: nat)
    requires 1 <= i < |bs|
  {
    PayloadVerdict(c, bs[i].transactions) == Ok(true) && bs[i].hash == BlockHashOf(c, bs[i]) && bs[i].previousHash == bs[i - 1].hash
  }

  /** The checks validateChain makes of block i, in its order: the block's
      transactions (whose error propagates), its stored hash against the
      recomputed one, and its link to the block before it. */
  function StepVerdict(c: Primitives, bs: seq<BlockView>, i: nat): (r: Result<bool>)
    requires 1 <= i < |bs|
    ensures r == Ok(true) <==> BlockSound(c, bs, i)
    ensures r.Err? ==> r == PayloadVerdict(c, bs[i].transactions)
  {
    var v := PayloadVerdict(c, bs[i].transactions);
    if v != Ok(true) then v
    else Ok(bs[i].hash == BlockHashOf(c, bs[i]) && bs[i].previousHash == bs[i - 1].hash)
  }

  /** The verdict of validateChain's loop from block i on. */
  function LinksFrom(c: Primitives, bs: seq<BlockView>, i: nat): Result<bool>
    requires 1 <= i
    decreases |bs| - i
  {
    if i >= |bs| then Ok(true)
    else if StepVerdict(c, bs, i) != Ok(true) then StepVerdict(c, bs, i)
    else LinksFrom(c, bs, i + 1)
  }

  /** What validateChain reports: a chain of only one block is checked by that
      block's stored hash alone; any other chain by the checks of every block
      after the first. */
  function ChainVerdict(c: Primitives, bs: seq<BlockView>): Result<bool> {
    if |bs| == 1 then Ok(bs[0].hash == BlockHashOf(c, bs[0])) else LinksFrom(c, bs, 1)
  }

  lemma {:induction false} LinksFromIff(c: Primitives, bs: seq<BlockView>, i: nat)
    requires 1 <= i
    ensures LinksFrom(c, bs, i) == Ok(true) <==> forall j :: i <= j < |bs| ==> BlockSound(c, bs, j)
    decreases |bs| - i
  {
    if i < |bs| {
      LinksFromIff(c, bs, i + 1);
    }
  }

  /** A genesis-only chain validates exactly when its stored hash is the recomputed one. */
  lemma ChainVerdictGenesisOnly(c: Primitives, bs: seq<BlockView>)
    requires |bs| == 1
    ensures ChainVerdict(c, bs) == Ok(true) <==> bs[0].hash == BlockHashOf(c, bs[0])
  {
  }

  /** A longer chain validates exactly when every block after the first has
      valid transactions, carries the hash of its own contents, and names the
      hash of the block before it. */
  lemma ChainVerdictIff(c: Primitives, bs: seq<BlockView>)
    requires |bs| != 1
    ensures ChainVerdict(c, bs) == Ok(true) <==> forall j :: 1 <= j < |bs| ==> BlockSound(c, bs, j)
  {
    LinksFromIff(c, bs, 1);
  }

  /** validateChain stops at the first block that fails a check: that block's
      verdict is the chain's, and the blocks after it play no part. */
  lemma {:induction false} ChainVerdictFirstFailure(c: Primitives, bs: seq<BlockView>, k: nat)
    requires 1 <= k < |bs|
    requires forall j :: 1 <= j < k ==> StepVerdict(c, bs, j) == Ok(true)
    requires StepVerdict(c, bs, k) != Ok(true)
    ensures ChainVerdict(c, bs) == StepVerdict(c, bs, k)
  {
    var i := 1;
    while i < k
      invariant 1 <= i <= k
      invariant LinksFrom(c, bs, 1) == LinksFrom(c, bs, i)
    {
      i := i + 1;
    }
  }

  /** Appending a block whose transactions validate, whose stored hash is the
      hash of its contents, and which names the hash of the last block, keeps
      a valid chain valid. */
  lemma ChainVerdictAppend(c: Primitives, bs: seq<BlockView>, b: BlockView)
    requires |bs| >= 1 && ChainVerdict(c, bs) == Ok(true)
    requires PayloadVerdict(c, b.transactions) == Ok(true)
    requires b.hash == BlockHashOf(c, b)
    requires b.previousHash == bs[|bs| - 1].hash
    ensures ChainVerdict(c, bs + [b]) == Ok(true)
  {
    var ext := bs + [b];
    ChainVerdictIff(c, ext);
    if |bs| >= 2 {
      ChainVerdictIff(c, bs);
      assert forall j :: 1 <= j < |bs| ==> BlockSound(c, bs, j);
      forall j | 1 <= j < |ext| ensures BlockSound(c, ext, j) {
        if j < |bs| {
          assert BlockSound(c, bs, j);
          assert ext[j] == bs[j] && ext[j - 1] == bs[j - 1];
        }
      }
    }
  }

  /** Once a chain has a second block, the first block's own contents are never
      checked: only its stored hash, through the link from the second block. */
  lemma GenesisUncheckedOnceExtended(c: Primitives, bs: seq<BlockView>, g: BlockView)
    requires |bs| >= 2 && g.hash == bs[0].hash
    ensures ChainVerdict(c, [g] + bs[1..]) == ChainVerdict(c, bs)
  {
    var alt := [g] + bs[1..];
    assert |alt| == |bs|;
    forall j | 1 <= j < |bs| ensures StepVerdict(c, alt, j) == StepVerdict(c, bs, j) {
      assert alt[j] == bs[j];
      assert alt[j - 1].hash == bs[j - 1].hash;
    }
    LinksFromAgree(c, alt, bs, 1);
  }

  /** validateChain's loop gives the same verdict on two chains of one length
      whose blocks from i on get the same verdicts. */
  lemma {:induction false} LinksFromAgree(c: Primitives, a: seq<BlockView>, b: seq<BlockView>, i: nat)
    requires 1 <= i && |a| == |b|
    requires forall j :: i <= j < |a| ==> StepVerdict(c, a, j) == StepVerdict(c, b, j)
    ensures LinksFrom(c, a, i) == LinksFrom(c, b, i)
    decreases |a| - i
  {
    if i < |a| {
      LinksFromAgree(c, a, b, i + 1);
    }
  }

  /** Tampering with a block after the first and resealing it (storing the
      hash of its new contents) is still detected: the next block's link no
      longer matches. */
  lemma ResealedBlockBreaksLink(c: Primitives, bs: seq<BlockView>, i: nat, t: BlockView)
    requires 1 <= i && i + 1 < |bs|
    requires ChainVerdict(c, bs) == Ok(true)
    requires t.hash != bs[i].hash
    ensures ChainVerdict(c, bs[i := t]) != Ok(true)
  {
    var ts := bs[i := t];
    ChainVerdictIff(c, bs);
    assert BlockSound(c, bs, i + 1);
    ChainVerdictIff(c, ts);
    assert !BlockSound(c, ts, i + 1);
  }

  /** The current fields of a list of block objects, as values. */
  function ViewsOf(bs: seq<Block>): (r: seq<BlockView>)
    reads bs
    ensures |r| == |bs|
    ensures forall i :: 0 <= i < |bs| ==> r[i] == bs[i].View()
  {
    seq(|bs|, i requires 0 <= i < |bs| reads bs => bs[i].View())
  }

  class Chain {
    var chain: seq<Block>
    var transactionPool: seq<Transaction>
    const minerReward: int
    var difficulty: nat
    const primitives: Primitives

    /** The chain is never empty. */
    ghost predicate Valid()
      reads this
    {
      |chain| >= 1 && minerReward == MinerReward
    }

    /** What validateChain reports about the chain as it now stands. */
    ghost function Verdict(): Result<bool>
      reads this, chain
    {
      ChainVerdict(primitives, ViewsOf(chain))
    }

    /** A chain holding only a fresh genesis block and an empty pool; now is
        the clock reading for the genesis block. */
    constructor (primitives: Primitives, difficulty: nat, now: int)
      ensures Valid() && this.primitives == primitives && this.difficulty == difficulty
      ensures |chain| == 1 && fresh(chain[0])
      ensures chain[0].transactions == Note(GenesisNote) && chain[0].previousHash == ""
      ensures chain[0].timestamp == now && chain[0].nonce == 1
      ensures transactionPool == []
      ensures Verdict() == Ok(true)
    {
      var genesis := BigBang(primitives, now);
      chain := [genesis];
      transactionPool := [];
      minerReward := MinerReward;
      this.difficulty := difficulty;
      this.primitives := primitives;
    }

    /** The genesis block: the placeholder text, no previous hash, not mined. */
    static method BigBang(c: Primitives, now: int) returns (genesis: Block)
      ensures fresh(genesis)
      ensures genesis.transactions == Note(GenesisNote) && genesis.previousHash == ""
      ensures genesis.timestamp == now && genesis.nonce == 1
      ensures genesis.hash == genesis.ComputeHash(c)
    {
      genesis := new Block(c, Note(GenesisNote), "", now);
    }

    /** Sets the difficulty the next mining round uses. */
    method SetDifficulty(difficulty: nat)
      requires Valid()
      modifies this`difficulty
      ensures Valid()
      ensures this.difficulty == difficulty
    {
      this.difficulty := difficulty;
    }

    /** The last block of the chain. */
    method GetLatestBlock() returns (latest: Block)
      requires Valid()
      ensures latest == chain[|chain| - 1]
    {
      latest := chain[|chain| - 1];
    }

    /** Guarded intake into the pool: the pool grows by the transaction
        exactly when intake accepts it, and is untouched otherwise. */
    method AddTransaction(t: Transaction) returns (r: Outcome)
      requires Valid()
      modifies this`transactionPool
      ensures Valid()
      ensures r == Intake(primitives, t.Record())
      ensures transactionPool == if r.Done? then old(transactionPool) + [t] else old(transactionPool)
    {
      if !Truthy(t.from) || t.to == "" {
        return Fail(InvalidFromOrTo);
      }
      var v := t.IsValid(primitives);
      if v.Err? {
        return Fail(v.error);
      }
      if !v.value {
        return Fail(InvalidTransaction);
      }
      transactionPool := transactionPool + [t];
      r := Done;
    }

    /** A mining round: the reward is added to the pool, the pool is sealed
        into a block linked to the latest one and mined at the current
        difficulty; on success the block is appended and the pool cleared.
        When mining refuses, the chain is unchanged and the reward stays in
        the pool. now is the clock reading for the new block, fuel the bound
        on the nonce search. */
    method MineTransactionPool(minerRewardAddress: string, now: int, fuel: nat) returns (r: Outcome)
      requires Valid()
      modifies this
      ensures Valid() && difficulty == old(difficulty)
      ensures r.Fail? ==> chain == old(chain)
      ensures r.Fail? ==> |transactionPool| == |old(transactionPool)| + 1
                          && transactionPool[..|old(transactionPool)|] == old(transactionPool)
                          && fresh(transactionPool[|old(transactionPool)|])
                          && transactionPool[|old(transactionPool)|].Record() == RewardRecord(minerRewardAddress)
      ensures r.Done? ==> |chain| == |old(chain)| + 1 && chain[..|old(chain)|] == old(chain)
      ensures r.Done? ==> transactionPool == []
      ensures r.Done? ==> var b := chain[|chain| - 1];
                          fresh(b) && b.previousHash == old(chain[|chain| - 1].hash) && b.timestamp == now
                          && b.transactions == Batch(old(RecordsOf(transactionPool)) + [RewardRecord(minerRewardAddress)])
                          && b.hash == b.ComputeHash(primitives) && MeetsTarget(b.hash, difficulty)
      ensures var v := TxsVerdict(primitives, old(RecordsOf(transactionPool)));
              (v != Ok(true) ==> r == Fail(AbortOf(v))) && (v == Ok(true) ==> r == Done || r == Fail(SearchExhausted))
      ensures r.Done? && old(Verdict()) == Ok(true) ==> Verdict() == Ok(true)
    {
      ghost var before := ViewsOf(chain);
      ghost var pooled := RecordsOf(transactionPool);
      ghost var latestHash := chain[|chain| - 1].hash;
      var reward := PushReward(minerRewardAddress);
      var latest := GetLatestBlock();
      var block := new Block(primitives, Batch(RecordsOf(transactionPool)), latest.hash, now);
      assert RecordsOf(transactionPool) == pooled + [RewardRecord(minerRewardAddress)];
      RewardKeepsVerdict(primitives, pooled, minerRewardAddress);
      assert latest.hash == latestHash;
      r := block.Mine(primitives, difficulty, fuel);
      if r.Fail? {
        return;
      }
      assert block.previousHash == latestHash;
      assert PayloadVerdict(primitives, block.transactions) == Ok(true);
      assert ViewsOf(chain) == before;
      assert Verdict() == old(Verdict());
      AppendBlock(block);
    }

    /** Pushes a fresh system-minted reward to the given address onto the pool. */
    method PushReward(minerRewardAddress: string) returns (reward: Transaction)
      requires Valid()
      modifies this`transactionPool
      ensures Valid()
      ensures fresh(reward) && reward.Record() == RewardRecord(minerRewardAddress)
      ensures transactionPool == old(transactionPool) + [reward]
    {
      reward := new Transaction(None, minerRewardAddress, minerReward);
      transactionPool := transactionPool + [reward];
    }

    /** Appends a mined block to the chain and clears the pool. A block whose
        transactions validate, whose stored hash is the hash of its contents
        and which names the latest block's hash keeps a valid chain valid. */
    method AppendBlock(block: Block)
      requires Valid()
      modifies this`chain, this`transactionPool
      ensures Valid()
      ensures chain == old(chain) + [block] && transactionPool == []
      ensures old(Verdict()) == Ok(true) && PayloadVerdict(primitives, block.transactions) == Ok(true)
              && block.hash == block.ComputeHash(primitives) && block.previousHash == old(chain[|chain| - 1].hash)
              ==> Verdict() == Ok(true)
    {
      ghost var before := ViewsOf(chain);
      chain := chain + [block];
      transactionPool := [];
      assert ViewsOf(chain) == before + [block.View()];
      if ChainVerdict(primitives, before) == Ok(true) && PayloadVerdict(primitives, block.transactions) == Ok(true)
         && block.hash == block.ComputeHash(primitives) && block.previousHash == before[|before| - 1].hash {
        ChainVerdictAppend(primitives, before, block.View());
      }
    }

    /** Checks the whole chain, stopping at the first block that fails. */
    method ValidateChain() returns (r: Result<bool>)
      ensures r == Verdict()
    {
      ghost var bs := ViewsOf(chain);
      assert Verdict() == ChainVerdict(primitives, bs);
      if |chain| == 1 {
        var h := chain[0].ComputeHash(primitives);
        return Ok(chain[0].hash == h);
      }
      var i := 1;
      while i <= |chain| - 1
        invariant 1 <= i
        invariant i <= |chain| || |chain| == 0
        invariant LinksFrom(primitives, bs, i) == LinksFrom(primitives, bs, 1)
        invariant Verdict() == ChainVerdict(primitives, bs)
      {
        var block := chain[i];
        assert block.View() == bs[i] && chain[i - 1].View() == bs[i - 1];
        var v := block.ValidateTransactions(primitives);
        if v != Ok(true) {
          assert StepVerdict(primitives, bs, i) == v;
          assert LinksFrom(primitives, bs, i) == v;
          return v;
        }
        if block.hash != block.ComputeHash(primitives) {
          return Ok(false);
        }
        var previous := chain[i - 1];
        if block.previousHash != previous.hash {
          return Ok(false);
        }
        assert StepVerdict(primitives, bs, i) == Ok(true);
        i := i + 1;
      }
      r := Ok(true);
    }
  }
}
