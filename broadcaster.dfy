/**
 * The outcome of `TransactionBroadcaster.broadcast`. Building, signing,
 * submitting and waiting for the receipt are library calls; a BroadcastRun
 * records what they did for one payload, and the broadcaster turns that into
 * the hash it returns or None.
 */
module Broadcasting {
  import opened Wrappers
  import opened HexKeys

  /** What happened after signing, when the transaction is really sent. */
  datatype Submission =
    | SendFailed                              // send_raw_transaction raised
    | Mined(txHash: seq<Byte>, status: int)   // a receipt arrived with this status
    | ReceiptTimedOut                         // wait_for_transaction_receipt raised

  /** What the library calls did for one payload. */
  datatype BroadcastRun =
    | PreparationFailed                                   // nonce, gas price, build or signing raised
    | Signed(signedHash: seq<Byte>, submission: Submission)

  /** Whether the run ever handed the signed transaction to the node, given the mode. */
  predicate Submitted(simulateOnly: bool, run: BroadcastRun)
  {
    !simulateOnly && run.Signed?
  }

  datatype Broadcaster = Broadcaster(simulateOnly: bool)
  {
    /**
     * The hash `broadcast` returns: in simulate mode the signed transaction's
     * own hash, without submission; otherwise the submitted hash when its
     * receipt has status 1. Every raised exception yields None.
     */
    function Broadcast(run: BroadcastRun): (r: Option<string>)
      ensures simulateOnly ==> r == if run.Signed? then Some(Key(run.signedHash)) else None
      ensures !simulateOnly ==>
        (r.Some? <==> run.Signed? && run.submission.Mined? && run.submission.status == 1)
      ensures !simulateOnly && r.Some? ==> r == Some(Key(run.submission.txHash))
      ensures r.Some? ==> r.value[..2] == "0x"
    {
      match run
      case PreparationFailed => None
      case Signed(signedHash, submission) =>
        if simulateOnly then Some(Key(signedHash))
        else match submission
          case Mined(txHash, status) => if status == 1 then Some(Key(txHash)) else None
          case _ => None
    }
  }

  /** A returned hash is never the empty string, so the caller's truthiness test is a test for Some. */
  lemma ReturnedHashIsTruthy(b: Broadcaster, run: BroadcastRun)
    ensures b.Broadcast(run).Some? ==> b.Broadcast(run).value != ""
  {
  }

  /** In simulate mode what would have happened after signing has no bearing on the result. */
  lemma SimulationIgnoresSubmission(signedHash: seq<Byte>, s1: Submission, s2: Submission)
    ensures Broadcaster(true).Broadcast(Signed(signedHash, s1)) == Broadcaster(true).Broadcast(Signed(signedHash, s2))
  {
  }

  /** A real broadcast succeeds only after a submission whose receipt reports success. */
  lemma RealSuccessNeedsReceipt(run: BroadcastRun)
    requires Broadcaster(false).Broadcast(run).Some?
    ensures Submitted(false, run)
    ensures run.submission == Mined(run.submission.txHash, 1)
  {
  }
}
