/**
 * The `modify.blockchain_tx` message modifier (internal/modify/blockchain_tx.go):
 * it leaves sender and recipients alone and, when a message's headers name the
 * configured chain, hands the raw transaction carried in a header to that chain.
 */
module BlockchainTx {
  import opened Wrappers
  import Text

  /** The header carrying a raw transaction, and the one naming the chain it is for. */
  const RawTxHeader: string := "X-Blockchain-Tx"
  const ChainTypeHeader: string := "X-Blockchain-Type"

  /** One header field, in message order. */
  datatype Field = Field(key: string, value: string)

  type Header = seq<Field>

  /** Header keys compare without regard to ASCII letter case, as canonical MIME keys do. */
  predicate SameKey(a: string, b: string) {
    Text.ToLower(a) == Text.ToLower(b)
  }

  /** `Header.Get`: the value of the first field with the given key, or "" when there is none. */
  function HeaderGet(h: Header, key: string): (v: string)
    ensures v != "" ==> exists i :: 0 <= i < |h| && SameKey(h[i].key, key) && h[i].value == v
  {
    if h == [] then ""
    else if SameKey(h[0].key, key) then h[0].value
    else HeaderGet(h[1..], key)
  }

  lemma {:induction false} HeaderGetFirst(h: Header, key: string, i: nat)
    requires i < |h| && SameKey(h[i].key, key)
    requires forall j :: 0 <= j < i ==> !SameKey(h[j].key, key)
    ensures HeaderGet(h, key) == h[i].value
  {
    if i > 0 {
      HeaderGetFirst(h[1..], key, i - 1);
    }
  }

  lemma {:induction false} HeaderGetAbsent(h: Header, key: string)
    requires forall j :: 0 <= j < |h| ==> !SameKey(h[j].key, key)
    ensures HeaderGet(h, key) == ""
  {
    if h != [] {
      HeaderGetAbsent(h[1..], key);
    }
  }

  /**
   * The `module.BlockChain` capability the modifier uses, as an oracle: the
   * chain's type name and the outcome (an error, if any) of submitting a raw
   * transaction. Signature checking is not used by the modifier.
   */
  datatype BlockChain = BlockChain(chainType: string, sendRawTx: string -> Option<string>)

  /** What RewriteBody did: the raw transaction it submitted, if any, and the error it returns. */
  datatype BodyOutcome = BodyOutcome(sent: Option<string>, err: Option<string>)

  class BlockchainTxSender {
    const modName: string
    const instName: string
    const inlineArgs: seq<string>
    var chain: Option<BlockChain>

    /** `NewBlockchainTxSender`: no chain until Init has resolved one. */
    constructor (modName: string, instName: string, inlineArgs: seq<string>)
      ensures this.modName == modName && this.instName == instName && this.inlineArgs == inlineArgs
      ensures chain.None?
    {
      this.modName := modName;
      this.instName := instName;
      this.inlineArgs := inlineArgs;
      chain := None;
    }

    /**
     * `Init`: binds the chain module named by the configuration. Resolving
     * that reference is done by the configuration package and arrives here
     * as `resolved`; on failure the chain stays as it was.
     */
    method Init(resolved: Result<BlockChain, string>) returns (err: Option<string>)
      modifies this
      ensures resolved.Ok? ==> err.None? && chain == Some(resolved.value)
      ensures resolved.Err? ==> err == Some(resolved.error) && chain == old(chain)
    {
      match resolved
      case Ok(c) =>
        chain := Some(c);
        err := None;
      case Err(e) =>
        err := Some(e);
    }

    function Name(): (r: string)
      ensures r == modName
    {
      modName
    }

    function InstanceName(): (r: string)
      ensures r == instName
    {
      instName
    }

    /** The per-message state is the modifier itself. */
    method ModStateForMsg() returns (state: BlockchainTxSender, err: Option<string>)
      ensures state == this && err.None?
    {
      state, err := this, None;
    }

    /** The envelope sender passes through unchanged. */
    function RewriteSender(mailFrom: string): (r: Result<string, string>)
      ensures r.Ok? && r.value == mailFrom
    {
      Ok(mailFrom)
    }

    /** Each recipient stays a single, unchanged recipient. */
    function RewriteRcpt(rcptTo: string): (r: Result<seq<string>, string>)
      ensures r.Ok? && r.value == [rcptTo]
    {
      Ok([rcptTo])
    }

    /**
     * Submits the header's raw transaction exactly when a chain is bound,
     * the chain's type is the one the message names and the transaction is
     * non-empty; the chain's answer is returned as it is. The header and
     * body are only read.
     */
    function RewriteBody(h: Header, body: seq<bv8>): (o: BodyOutcome)
      reads this
      ensures o.sent.Some? <==>
        chain.Some? && chain.value.chainType == HeaderGet(h, ChainTypeHeader) && HeaderGet(h, RawTxHeader) != ""
      ensures o.sent.Some? ==> o.sent.value == HeaderGet(h, RawTxHeader) && o.err == chain.value.sendRawTx(o.sent.value)
      ensures o.sent.None? ==> o.err.None?
    {
      match chain
      case None => BodyOutcome(None, None)
      case Some(c) =>
        if c.chainType == HeaderGet(h, ChainTypeHeader) && HeaderGet(h, RawTxHeader) != "" then
          var tx := HeaderGet(h, RawTxHeader);
          BodyOutcome(Some(tx), c.sendRawTx(tx))
        else
          BodyOutcome(None, None)
    }

    function Close(): (err: Option<string>)
      ensures err.None?
    {
      None
    }
  }

  /**
   * A message whose first X-Blockchain-Type field names the bound chain and
   * whose first X-Blockchain-Tx field is non-empty has that transaction
   * submitted, whatever other fields it has.
   */
  lemma SubmitsNamedTransaction(m: BlockchainTxSender, h: Header, body: seq<bv8>, i: nat, j: nat)
    requires m.chain.Some?
    requires i < |h| && SameKey(h[i].key, ChainTypeHeader) && h[i].value == m.chain.value.chainType
    requires forall k :: 0 <= k < i ==> !SameKey(h[k].key, ChainTypeHeader)
    requires j < |h| && SameKey(h[j].key, RawTxHeader) && h[j].value != ""
    requires forall k :: 0 <= k < j ==> !SameKey(h[k].key, RawTxHeader)
    ensures m.RewriteBody(h, body).sent == Some(h[j].value)
  {
    HeaderGetFirst(h, ChainTypeHeader, i);
    HeaderGetFirst(h, RawTxHeader, j);
  }

  /** Without an X-Blockchain-Tx field nothing is submitted and no error is returned. */
  lemma NothingSentWithoutTransaction(m: BlockchainTxSender, h: Header, body: seq<bv8>)
    requires forall k :: 0 <= k < |h| ==> !SameKey(h[k].key, RawTxHeader)
    ensures m.RewriteBody(h, body) == BodyOutcome(None, None)
  {
    HeaderGetAbsent(h, RawTxHeader);
  }
}
