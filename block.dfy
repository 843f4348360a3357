/** Blocks: hashing, the difficulty target, validation of the transactions a
    block holds, and the proof-of-work search. */
module Blocks {
  import opened LedgerTypes
  import opened Transactions

  /** The hash of a block with the given contents: the serialised payload,
      the previous hash, the nonce and the timestamp, joined as text. */
  function BlockHash(c: Primitives, p: Payload, previousHash: string, nonce: int, timestamp: int): string {
    c.sha256(c.serialize(p) + previousHash + c.numeral(nonce) + c.numeral(timestamp))
  }

  /** The hash a block view should carry; the stored hash itself does not enter it. */
  function BlockHashOf(c: Primitives, b: BlockView): string {
    BlockHash(c, b.transactions, b.previousHash, b.nonce, b.timestamp)
  }

  /** The target answer: difficulty zero characters. */
  function GetAnswer(difficulty: nat): (r: string)
    ensures |r| == difficulty
    ensures forall i :: 0 <= i < difficulty ==> r[i] == '0'
  {
    if difficulty == 0 then "" else GetAnswer(difficulty - 1) + "0"
  }

  /** The leading characters of s that substring(0, n) returns: all of s when
      s is shorter than n. */
  function Prefix(s: string, n: nat): string {
    if n <= |s| then s[..n] else s
  }

  /** Whether a hash meets the difficulty target. */
  predicate MeetsTarget(h: string, difficulty: nat) {
    Prefix(h, difficulty) == GetAnswer(difficulty)
  }

  /** A hash meets the target exactly when it has at least difficulty
      characters and each of the first difficulty of them is '0'. */
  lemma MeetsTargetIff(h: string, difficulty: nat)
    ensures MeetsTarget(h, difficulty) <==> difficulty <= |h| && forall i :: 0 <= i < difficulty ==> h[i] == '0'
  {
    var a := GetAnswer(difficulty);
    if difficulty <= |h| && forall i :: 0 <= i < difficulty ==> h[i] == '0' {
      assert h[..difficulty] == a;
    }
  }

  /** What validateTransactions reports for a list of transactions: the
      outcome of the first one that is not valid (its error, or false), and
      true when every one is valid. */
  function TxsVerdict(c: Primitives, s: seq<TxRecord>): (r: Result<bool>)
    ensures r.Err? ==> r.error == SignatureMissing
    decreases |s|
  {
    if s == [] then Ok(true)
    else match TxValidity(c, s[0])
      case Err(e) => Err(e)
      case Ok(false) => Ok(false)
      case Ok(true) => TxsVerdict(c, s[1..])
  }

  /** validateTransactions on a payload: iterating the genesis text reaches no
      transaction to validate when it is empty, and throws otherwise. */
  function PayloadVerdict(c: Primitives, p: Payload): (r: Result<bool>)
    ensures r.Err? ==> r.error == SignatureMissing || r.error == NotATransaction
  {
    match p
    case Note(text) => if text == "" then Ok(true) else Err(NotATransaction)
    case Batch(s) => TxsVerdict(c, s)
  }

  /** A list of transactions validates exactly when every transaction in it is valid. */
  lemma {:induction false} TxsVerdictAllValid(c: Primitives, s: seq<TxRecord>)
    ensures TxsVerdict(c, s) == Ok(true) <==> forall i :: 0 <= i < |s| ==> TxValidity(c, s[i]) == Ok(true)
    decreases |s|
  {
    if s != [] {
      TxsVerdictAllValid(c, s[1..]);
      if TxValidity(c, s[0]) == Ok(true) {
        forall i | 1 <= i < |s| ensures s[i] == s[1..][i - 1] { }
      }
    }
  }

  /** Validation stops at the first transaction that is not valid: its
      outcome is the verdict, and the transactions after it play no part. */
  lemma {:induction false} TxsVerdictFirstFailure(c: Primitives, s: seq<TxRecord>, k: nat)
    requires k < |s|
    requires forall j :: 0 <= j < k ==> TxValidity(c, s[j]) == Ok(true)
    requires TxValidity(c, s[k]) != Ok(true)
    ensures TxsVerdict(c, s) == TxValidity(c, s[k])
    ensures TxsVerdict(c, s) != Ok(true)
    decreases k
  {
    if k > 0 {
      TxsVerdictFirstFailure(c, s[1..], k - 1);
    }
  }

  /** Validating a concatenation validates the first part, and the second only
      when the first is valid throughout. */
  lemma {:induction false} TxsVerdictAppend(c: Primitives, a: seq<TxRecord>, b: seq<TxRecord>)
    ensures TxsVerdict(c, a + b) == if TxsVerdict(c, a) == Ok(true) then TxsVerdict(c, b) else TxsVerdict(c, a)
    decreases |a|
  {
    if a == [] {
      assert a + b == b;
    } else {
      assert (a + b)[0] == a[0];
      assert (a + b)[1..] == a[1..] + b;
      TxsVerdictAppend(c, a[1..], b);
    }
  }

  /** The error mine throws when validation does not succeed: validation's own
      error, or the tampering error when validation reported false. */
  function AbortOf(v: Result<bool>): Error {
    if v.Err? then v.error else TamperedTransactions
  }

  class Block {
    var transactions: Payload
    var previousHash: string
    var timestamp: int
    var nonce: int
    var hash: string

    /** A new block with nonce 1 and its hash computed; now is the clock reading. */
    constructor (c: Primitives, transactions: Payload, previousHash: string, now: int)
      ensures this.transactions == transactions && this.previousHash == previousHash
      ensures timestamp == now && nonce == 1
      ensures hash == ComputeHash(c)
    {
      this.transactions := transactions;
      this.previousHash := previousHash;
      this.timestamp := now;
      this.nonce := 1;
      hash := BlockHash(c, transactions, previousHash, 1, now);
    }

    /** The block's current fields as a value. */
    function View(): BlockView
      reads this
    {
      BlockView(transactions, previousHash, timestamp, nonce, hash)
    }

    /** The hash of the block's current contents; the stored hash does not enter it. */
    function ComputeHash(c: Primitives): (h: string)
      reads this
      ensures h == BlockHashOf(c, View())
    {
      BlockHash(c, transactions, previousHash, nonce, timestamp)
    }

    /** Checks the transactions in order and stops at the first one that is
        not valid. */
    method ValidateTransactions(c: Primitives) returns (r: Result<bool>)
      ensures r == PayloadVerdict(c, transactions)
    {
      match transactions
      case Note(text) =>
        r := if text == "" then Ok(true) else Err(NotATransaction);
      case Batch(txs) =>
        var i := 0;
        while i < |txs|
          invariant 0 <= i <= |txs|
          invariant TxsVerdict(c, txs[i..]) == TxsVerdict(c, txs)
        {
          var v := TxValidity(c, txs[i]);
          assert txs[i..][0] == txs[i] && txs[i..][1..] == txs[i + 1..];
          if v.Err? {
            return Err(v.error);
          }
          if !v.value {
            return Ok(false);
          }
          i := i + 1;
        }
        r := Ok(true);
    }

    /** Proof-of-work: refuses a block whose transactions do not validate,
        leaving it untouched; otherwise raises the nonce until the hash meets
        the difficulty target. The search is bounded by fuel, a bound the
        source does not have. */
    method Mine(c: Primitives, difficulty: nat, fuel: nat) returns (r: Outcome)
      modifies this
      ensures transactions == old(transactions) && previousHash == old(previousHash) && timestamp == old(timestamp)
      ensures PayloadVerdict(c, transactions) != Ok(true) ==>
                r == Fail(AbortOf(PayloadVerdict(c, transactions))) && nonce == old(nonce) && hash == old(hash)
      ensures PayloadVerdict(c, transactions) == Ok(true) ==> r == Done || r == Fail(SearchExhausted)
      ensures r.Done? ==> hash == ComputeHash(c) && MeetsTarget(hash, difficulty)
      ensures r == Fail(SearchExhausted) && fuel > 0 ==> hash == ComputeHash(c)
      ensures old(nonce) <= nonce
      ensures forall n :: old(nonce) <= n < nonce ==>
                !MeetsTarget(BlockHash(c, transactions, previousHash, n, timestamp), difficulty)
    {
      var v := ValidateTransactions(c);
      if v != Ok(true) {
        return Fail(AbortOf(v));
      }
      var tries := 0;
      while tries < fuel
        invariant tries <= fuel
        invariant transactions == old(transactions) && previousHash == old(previousHash) && timestamp == old(timestamp)
        invariant old(nonce) <= nonce
        invariant tries > 0 ==> hash == ComputeHash(c)
        invariant forall n :: old(nonce) <= n < nonce ==>
                    !MeetsTarget(BlockHash(c, transactions, previousHash, n, timestamp), difficulty)
      {
        hash := ComputeHash(c);
        if Prefix(hash, difficulty) != GetAnswer(difficulty) {
          nonce := nonce + 1;
          hash := ComputeHash(c);
        } else {
          return Done;
        }
        tries := tries + 1;
      }
      return Fail(SearchExhausted);
    }
  }
}
