/** Value types shared by the whole ledger: optional values, the error conditions
    the ledger raises, results, the abstract cryptographic primitives, and the
    value snapshots of transactions, block payloads and blocks that the
    specifications are written over. */
module LedgerTypes {

  datatype Option<T> = None | Some(value: T)

  /** The conditions under which an operation of the ledger throws. */
  datatype Error =
    | SignatureMissing      // isValid on a transaction with a sender but no signature
    | InvalidFromOrTo       // addTransaction given a falsy sender or recipient
    | InvalidTransaction    // addTransaction given a transaction whose signature does not verify
    | TamperedTransactions  // mine on a block holding a transaction that does not verify
    | NotATransaction       // the genesis block's text payload iterated as if it held transactions
    | SearchExhausted       // the proof-of-work search ran out of its fuel bound (model only)

  /** The result of a query that may throw. */
  datatype Result<T> = Ok(value: T) | Err(error: Error)

  /** The result of a command that may throw. */
  datatype Outcome = Done | Fail(error: Error)

  /** JavaScript truthiness of a value that is a string or null: null and "" are falsy. */
  predicate Truthy(s: Option<string>) {
    s.Some? && s.value != ""
  }

  /** A transaction as a value: who pays (None for a system-minted reward),
      who receives, how much, and the signature once there is one. */
  datatype TxRecord = TxRecord(from: Option<string>, to: string, amount: int, signature: Option<string>)

  /** What a block holds: the genesis block a text, every other block a
      list of transactions. */
  datatype Payload = Note(text: string) | Batch(txs: seq<TxRecord>)

  /** A block as a value: every field the block object carries. */
  datatype BlockView = BlockView(transactions: Payload, previousHash: string, timestamp: int, nonce: int, hash: string)

  /** The foreign primitives the ledger is built on, left uninterpreted:
      sha256 renders the digest of a text as a hex string; serialize is the
      JSON rendering of a payload; numeral is the text a number becomes when
      joined to a string; sign(privateKey, message) is an ECDSA signature
      rendered as hex DER; verify(publicKey, message, signature) checks one;
      publicKey(privateKey) is the public half of a key pair. */
  datatype Primitives = Primitives(
    sha256: string -> string,
    serialize: Payload -> string,
    numeral: int -> string,
    sign: (string, string) -> string,
    verify: (string, string, string) -> bool,
    publicKey: string -> string)

  /** The one property of the signature scheme the ledger relies on: a
      signature made with a private key verifies under its public key, and is
      never the empty string. */
  ghost predicate SignaturesSound(c: Primitives) {
    forall k: string, m: string :: c.sign(k, m) != "" && c.verify(c.publicKey(k), m, c.sign(k, m))
  }
}
