/**
 * Validation of one TokensDeposited event: the replay check against the state
 * DB, the destination chain id check, the presence of recipient and amount,
 * and the relay payload built from an accepted event.
 */
module EventProcessing {
  import opened Wrappers
  import opened HexKeys
  import opened StateStore

  /** The decoded arguments of a TokensDeposited log that the relay reads; `get` may find any of them absent. */
  datatype DepositArgs = DepositArgs(
    recipient: Option<string>,
    amount: Option<nat>,
    destinationChainId: Option<int>)

  /** A TokensDeposited log entry as the event filter returns it. */
  datatype DepositEvent = DepositEvent(
    transactionHash: seq<Byte>,
    blockNumber: Option<int>,
    logIndex: nat,
    args: DepositArgs)

  /** The prepared transaction handed to the broadcaster. */
  datatype RelayPayload = RelayPayload(
    recipient: string,
    amount: nat,
    sourceTxHash: seq<Byte>,
    originalEvent: DepositEvent)

  /** Why an event was skipped; each stands for one of the log lines before `return None`. */
  datatype SkipReason = AlreadyProcessed | OtherChain | MissingArguments

  /** The outcome of `process_event`. */
  datatype Decision = Skip(reason: SkipReason) | Relay(payload: RelayPayload)
  {
    /** The value `process_event` returns: None, or the prepared transaction. */
    function ToOption(): Option<RelayPayload>
    {
      match this
      case Skip(_) => None
      case Relay(p) => Some(p)
    }
  }

  /** Python truthiness of an optional address: present and not the empty string. */
  predicate PresentText(v: Option<string>)
  {
    v.Some? && v.value != ""
  }

  /** Python truthiness of an optional amount: present and not zero. */
  predicate PresentAmount(v: Option<nat>)
  {
    v.Some? && v.value != 0
  }

  /**
   * `process_event` against the recorded hashes `processed` and the configured
   * destination chain: the replay check first, then the chain id, then the
   * recipient and amount.
   */
  function Decide(processed: seq<string>, destinationChainId: int, event: DepositEvent): (d: Decision)
    ensures Key(event.transactionHash) in processed ==> d == Skip(AlreadyProcessed)
    ensures d.Relay? <==>
      && Key(event.transactionHash) !in processed
      && event.args.destinationChainId == Some(destinationChainId)
      && PresentText(event.args.recipient)
      && PresentAmount(event.args.amount)
    ensures d.ToOption() == None <==>
      || Key(event.transactionHash) in processed
      || event.args.destinationChainId != Some(destinationChainId)
      || !PresentText(event.args.recipient)
      || !PresentAmount(event.args.amount)
    ensures d.Relay? ==>
      && Some(d.payload.recipient) == event.args.recipient
      && Some(d.payload.amount) == event.args.amount
      && d.payload.amount > 0
      && d.payload.sourceTxHash == event.transactionHash
      && d.payload.originalEvent == event
  {
    var args := event.args;
    if Key(event.transactionHash) in processed then Skip(AlreadyProcessed)
    else if args.destinationChainId != Some(destinationChainId) then Skip(OtherChain)
    else if !(PresentText(args.recipient) && PresentAmount(args.amount)) then Skip(MissingArguments)
    else Relay(RelayPayload(args.recipient.value, args.amount.value, event.transactionHash, event))
  }

  /** An event for another chain, or with no chain id, is skipped unless it was already processed. */
  lemma OtherChainSkipped(processed: seq<string>, destinationChainId: int, event: DepositEvent)
    requires event.args.destinationChainId != Some(destinationChainId)
    ensures Decide(processed, destinationChainId, event) ==
      if Key(event.transactionHash) in processed then Skip(AlreadyProcessed) else Skip(OtherChain)
  {
  }

  /** A missing recipient, an empty recipient, a missing amount or a zero amount is rejected. */
  lemma MissingArgumentsSkipped(processed: seq<string>, destinationChainId: int, event: DepositEvent)
    requires !PresentText(event.args.recipient) || !PresentAmount(event.args.amount)
    requires Key(event.transactionHash) !in processed
    requires event.args.destinationChainId == Some(destinationChainId)
    ensures Decide(processed, destinationChainId, event) == Skip(MissingArguments)
  {
  }

  /**
   * Recording more hashes only ever turns an acceptance into an
   * AlreadyProcessed skip; every other decision stays as it was.
   */
  lemma DecideUnderMoreHashes(processed: seq<string>, more: seq<string>, destinationChainId: int, event: DepositEvent)
    requires forall h :: h in processed ==> h in more
    ensures var d, e := Decide(processed, destinationChainId, event), Decide(more, destinationChainId, event);
      e == d || e == Skip(AlreadyProcessed)
  {
  }

  /**
   * Only the transaction hash is consulted by the replay check: two events of
   * one transaction (say two deposits with different log indexes) are skipped
   * together once that hash is recorded.
   */
  lemma SameTransactionSameGuard(processed: seq<string>, destinationChainId: int, e1: DepositEvent, e2: DepositEvent)
    requires e1.transactionHash == e2.transactionHash
    requires Key(e1.transactionHash) in processed
    ensures Decide(processed, destinationChainId, e1) == Decide(processed, destinationChainId, e2) == Skip(AlreadyProcessed)
  {
  }

  /** The keys under which a list of transaction hashes is recorded. */
  function KeysOf(hashes: seq<seq<Byte>>): (keys: seq<string>)
    ensures |keys| == |hashes|
    ensures forall k :: 0 <= k < |hashes| ==> keys[k] == Key(hashes[k])
  {
    seq(|hashes|, k requires 0 <= k < |hashes| => Key(hashes[k]))
  }

  /** The replay check rejects an event only if its own transaction hash was recorded, never another's. */
  lemma GuardIsExact(recorded: seq<seq<Byte>>, destinationChainId: int, event: DepositEvent)
    requires event.transactionHash !in recorded
    ensures Decide(KeysOf(recorded), destinationChainId, event) != Skip(AlreadyProcessed)
  {
    forall k | 0 <= k < |recorded| ensures KeysOf(recorded)[k] != Key(event.transactionHash) {
      KeyInjective(recorded[k], event.transactionHash);
    }
  }

  class EventProcessor {
    const stateDb: StateDB
    const destinationChainId: int

    constructor (stateDb: StateDB, destinationChainId: int)
      ensures this.stateDb == stateDb && this.destinationChainId == destinationChainId
    {
      this.stateDb := stateDb;
      this.destinationChainId := destinationChainId;
    }

    /** Validates an event against the current contents of the state DB, which it only reads. */
    method ProcessEvent(event: DepositEvent) returns (d: Decision)
      ensures d == Decide(stateDb.processedHashes, destinationChainId, event)
    {
      var txHash := Key(event.transactionHash);
      var done := stateDb.IsProcessed(txHash);
      if done {
        return Skip(AlreadyProcessed);
      }
      var args := event.args;
      if args.destinationChainId != Some(destinationChainId) {
        return Skip(OtherChain);
      }
      var recipient, amount := args.recipient, args.amount;
      if !(PresentText(recipient) && PresentAmount(amount)) {
        return Skip(MissingArguments);
      }
      d := Relay(RelayPayload(recipient.value, amount.value, event.transactionHash, event));
    }
  }
}
