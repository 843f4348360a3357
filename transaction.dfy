/** Transactions: the content hash, signing, and signature validity. */
module Transactions {
  import opened LedgerTypes

  /** The text a transaction's content hash is taken over: the sender (the
      text "null" for a system-minted transaction), the recipient and the
      amount, joined with no separator. */
  function Content(c: Primitives, t: TxRecord): string {
    (match t.from case None => "null" case Some(f) => f) + t.to + c.numeral(t.amount)
  }

  /** The content hash of a transaction. */
  function TxHash(c: Primitives, t: TxRecord): string {
    c.sha256(Content(c, t))
  }

  /** The content hash covers the sender, recipient and amount only, never the signature. */
  lemma TxHashIgnoresSignature(c: Primitives, t: TxRecord, s: Option<string>)
    ensures TxHash(c, t.(signature := s)) == TxHash(c, t)
  {
  }

  /** Whether a transaction is valid: a system-minted one always is; one with a
      sender but no signature throws; otherwise the signature is checked
      against the content hash under the sender's key. */
  function TxValidity(c: Primitives, t: TxRecord): (r: Result<bool>)
    ensures t.from.None? ==> r == Ok(true)
    ensures r.Err? <==> t.from.Some? && !Truthy(t.signature)
    ensures r.Err? ==> r.error == SignatureMissing
    ensures r == Ok(false) ==> t.from.Some? && !c.verify(t.from.value, TxHash(c, t), t.signature.value)
    ensures t.from.Some? && Truthy(t.signature) ==> r == Ok(c.verify(t.from.value, TxHash(c, t), t.signature.value))
  {
    match t.from
    case None => Ok(true)
    case Some(sender) =>
      if !Truthy(t.signature) then Err(SignatureMissing)
      else Ok(c.verify(sender, TxHash(c, t), t.signature.value))
  }

  /** Under a sound signature scheme, a transaction signed with the private
      key whose public half is its sender is valid. */
  lemma SignedByOwnerIsValid(c: Primitives, key: string, t: TxRecord)
    requires SignaturesSound(c)
    requires t.from == Some(c.publicKey(key))
    requires t.signature == Some(c.sign(key, TxHash(c, t)))
    ensures TxValidity(c, t) == Ok(true)
  {
  }

  /** A transfer, mutable as the source's object is: fields may be changed by
      whoever holds a reference, and sign fills in the signature. */
  class Transaction {
    var from: Option<string>
    var to: string
    var amount: int
    var signature: Option<string>

    constructor (from: Option<string>, to: string, amount: int)
      ensures Record() == TxRecord(from, to, amount, None)
    {
      this.from := from;
      this.to := to;
      this.amount := amount;
      this.signature := None;
    }

    /** The transaction's current fields as a value. */
    function Record(): TxRecord
      reads this
    {
      TxRecord(from, to, amount, signature)
    }

    /** The content hash; whatever the signature is, it is the same. */
    function ComputeHash(c: Primitives): (h: string)
      reads this
      ensures h == TxHash(c, TxRecord(from, to, amount, None))
    {
      TxHash(c, Record())
    }

    /** Signs the content hash with the given private key; it does not check
        that the key belongs to the sender. */
    method Sign(c: Primitives, privateKey: string)
      modifies this`signature
      ensures signature == Some(c.sign(privateKey, ComputeHash(c)))
      ensures Record() == old(Record()).(signature := signature)
    {
      signature := Some(c.sign(privateKey, ComputeHash(c)));
    }

    /** Validity of the transaction as its fields stand now. */
    function IsValid(c: Primitives): (r: Result<bool>)
      reads this
      ensures r == TxValidity(c, Record())
    {
      TxValidity(c, Record())
    }
  }

  /** The current fields of a list of transaction objects, as values. */
  function RecordsOf(ts: seq<Transaction>): (r: seq<TxRecord>)
    reads ts
    ensures |r| == |ts|
    ensures forall i :: 0 <= i < |ts| ==> r[i] == ts[i].Record()
  {
    seq(|ts|, i requires 0 <= i < |ts| reads ts => ts[i].Record())
  }
}
