/**
 * One pass of `BridgeContractListener.run` over the new entries of the event
 * filter: the confirmation-depth gate, validation, broadcast, and recording the
 * source hash after a successful broadcast. `Pass` specifies the pass as a fold
 * over the events; the listener's method is proved to compute it, and the
 * lemmas state the replay protection it gives.
 */
module BridgeListener {
  import opened Wrappers
  import opened HexKeys
  import opened StateStore
  import opened EventProcessing
  import opened Broadcasting

  /** The listener's default confirmation depth, in blocks. */
  const DefaultConfirmationBlocks := 6

  /** What one pass did with one event; each stands for the log line the pass wrote. */
  datatype EventOutcome =
    | TooRecent                                          // left for later: not enough confirmations
    | Skipped(reason: SkipReason)                        // process_event returned None
    | BroadcastFailed                                    // broadcast returned None
    | Relayed(sourceKey: string, destinationHash: string) // broadcast returned a hash; source recorded

  /** Whether the broadcaster was called for the event. */
  predicate Broadcasted(o: EventOutcome)
  {
    o.BroadcastFailed? || o.Relayed?
  }

  /** The configuration one pass depends on. */
  datatype Settings = Settings(destinationChainId: int, broadcaster: Broadcaster, confirmationBlocks: int)

  /**
   * The confirmation gate: an event with a (non-zero) block number fewer than
   * `confirmationBlocks` blocks below the latest block is too recent. An event
   * without a block number, or in block 0, is not held back.
   */
  predicate TooRecentAt(confirmationBlocks: int, latestBlock: int, event: DepositEvent)
    ensures TooRecentAt(confirmationBlocks, latestBlock, event) ==> event.blockNumber.Some? && event.blockNumber.value != 0
    ensures event.blockNumber.Some? && latestBlock >= event.blockNumber.value + confirmationBlocks ==>
      !TooRecentAt(confirmationBlocks, latestBlock, event)
  {
    event.blockNumber.Some? && event.blockNumber.value != 0
    && latestBlock - event.blockNumber.value < confirmationBlocks
  }

  /** The recorded hashes and the outcome after the pass handles one event with the network's behaviour `run`. */
  function Step(s: Settings, latestBlock: int, processed: seq<string>, event: DepositEvent, run: BroadcastRun): (r: (seq<string>, EventOutcome))
    ensures r.1 == TooRecent <==> TooRecentAt(s.confirmationBlocks, latestBlock, event)
    ensures Broadcasted(r.1) <==>
      !TooRecentAt(s.confirmationBlocks, latestBlock, event) && Decide(processed, s.destinationChainId, event).Relay?
    ensures r.0 == processed + if r.1.Relayed? then [r.1.sourceKey] else []
    ensures r.1.Relayed? ==> r.1.sourceKey == Key(event.transactionHash) && r.1.sourceKey !in processed
  {
    if TooRecentAt(s.confirmationBlocks, latestBlock, event) then (processed, TooRecent)
    else match Decide(processed, s.destinationChainId, event)
      case Skip(reason) => (processed, Skipped(reason))
      case Relay(p) =>
        var h := s.broadcaster.Broadcast(run);
        if h.Some? && h.value != "" then
          (Marked(processed, Key(p.sourceTxHash)), Relayed(Key(p.sourceTxHash), h.value))
        else (processed, BroadcastFailed)
  }

  /** The recorded hashes and the outcomes of a pass. */
  datatype PassState = PassState(processed: seq<string>, trace: seq<EventOutcome>)

  /** The source keys of the relayed outcomes, in order. */
  function RelayedKeys(trace: seq<EventOutcome>): (keys: seq<string>)
    ensures forall x :: x in keys <==> exists k :: 0 <= k < |trace| && trace[k].Relayed? && trace[k].sourceKey == x
  {
    if trace == [] then []
    else
      var last := trace[|trace| - 1];
      RelayedKeys(trace[..|trace| - 1]) + if last.Relayed? then [last.sourceKey] else []
  }

  /**
   * A pass over `events`, starting from the recorded hashes `processed`;
   * `network(k)` is what the library calls do if the k-th event is broadcast.
   * The recorded list only grows, by the keys of the relayed events, in order.
   */
  function Pass(s: Settings, latestBlock: int, processed: seq<string>, events: seq<DepositEvent>, network: nat -> BroadcastRun): (r: PassState)
    ensures |r.trace| == |events|
    ensures r.processed == processed + RelayedKeys(r.trace)
    decreases |events|
  {
    if events == [] then PassState(processed, [])
    else
      var k := |events| - 1;
      var before := Pass(s, latestBlock, processed, events[..k], network);
      var (after, outcome) := Step(s, latestBlock, before.processed, events[k], network(k));
      assert (before.trace + [outcome])[..k] == before.trace;
      PassState(after, before.trace + [outcome])
  }

  /** The outcome of the k-th event is the step taken from the state the first k events left. */
  lemma PassOutcomeAt(s: Settings, latestBlock: int, processed: seq<string>, events: seq<DepositEvent>, network: nat -> BroadcastRun, k: nat)
    requires k < |events|
    ensures Pass(s, latestBlock, processed, events, network).trace[k] ==
      Step(s, latestBlock, Pass(s, latestBlock, processed, events[..k], network).processed, events[k], network(k)).1
  {
    var r := Pass(s, latestBlock, processed, events, network);
    PassPrefix(s, latestBlock, processed, events, network, k + 1);
    PassSnoc(s, latestBlock, processed, events, network, k);
    assert r.trace[k] == r.trace[..k + 1][k];
  }

  /** The pass over the first k events leaves the first k outcomes of the whole pass. */
  lemma {:induction false} PassPrefix(s: Settings, latestBlock: int, processed: seq<string>, events: seq<DepositEvent>, network: nat -> BroadcastRun, k: nat)
    requires k <= |events|
    ensures Pass(s, latestBlock, processed, events[..k], network).trace == Pass(s, latestBlock, processed, events, network).trace[..k]
  {
    var n := |events| - 1;
    if k < |events| {
      var before := Pass(s, latestBlock, processed, events[..n], network);
      PassSnoc(s, latestBlock, processed, events, network, n);
      assert events[..n + 1] == events;
      assert Pass(s, latestBlock, processed, events, network).trace[..k] == before.trace[..k];
      PassPrefix(s, latestBlock, processed, events[..n], network, k);
      assert events[..n][..k] == events[..k];
    } else {
      assert events[..k] == events;
    }
  }

  /** Extending the events by one extends the pass by one step. */
  lemma PassSnoc(s: Settings, latestBlock: int, processed: seq<string>, events: seq<DepositEvent>, network: nat -> BroadcastRun, i: nat)
    requires i < |events|
    ensures var before := Pass(s, latestBlock, processed, events[..i], network);
      var step := Step(s, latestBlock, before.processed, events[i], network(i));
      Pass(s, latestBlock, processed, events[..i + 1], network) == PassState(step.0, before.trace + [step.1])
  {
    assert events[..i + 1][..i] == events[..i];
  }

  /** A step on an event whose key is recorded neither broadcasts nor records. */
  lemma StepOnRecorded(s: Settings, latestBlock: int, processed: seq<string>, event: DepositEvent, run: BroadcastRun)
    requires Key(event.transactionHash) in processed
    ensures var o := Step(s, latestBlock, processed, event, run).1;
      o == TooRecent || o == Skipped(AlreadyProcessed)
  {
  }

  /** The gate decides exactly which events are left as too recent; those are neither broadcast nor recorded. */
  lemma GateDecidesTooRecent(s: Settings, latestBlock: int, processed: seq<string>, events: seq<DepositEvent>, network: nat -> BroadcastRun, k: nat)
    requires k < |events|
    ensures var o := Pass(s, latestBlock, processed, events, network).trace[k];
      (o == TooRecent <==> TooRecentAt(s.confirmationBlocks, latestBlock, events[k]))
      && (TooRecentAt(s.confirmationBlocks, latestBlock, events[k]) ==> !Broadcasted(o))
  {
    PassOutcomeAt(s, latestBlock, processed, events, network, k);
  }

  /**
   * An event is relayed only if it passed the gate and validation and the
   * broadcast returned a hash; its transaction hash is the key recorded.
   */
  lemma RelayedOnlyAfterSuccess(s: Settings, latestBlock: int, processed: seq<string>, events: seq<DepositEvent>, network: nat -> BroadcastRun, k: nat)
    requires k < |events|
    requires Pass(s, latestBlock, processed, events, network).trace[k].Relayed?
    ensures var o := Pass(s, latestBlock, processed, events, network).trace[k];
      && !TooRecentAt(s.confirmationBlocks, latestBlock, events[k])
      && Decide(Pass(s, latestBlock, processed, events[..k], network).processed, s.destinationChainId, events[k]).Relay?
      && s.broadcaster.Broadcast(network(k)) == Some(o.destinationHash)
      && o.sourceKey == Key(events[k].transactionHash)
  {
    PassOutcomeAt(s, latestBlock, processed, events, network, k);
    var before := Pass(s, latestBlock, processed, events[..k], network).processed;
    var step := Step(s, latestBlock, before, events[k], network(k));
    assert Broadcasted(step.1);
    var d := Decide(before, s.destinationChainId, events[k]);
    assert d.Relay?;
    var h := s.broadcaster.Broadcast(network(k));
    assert step == (Marked(before, Key(d.payload.sourceTxHash)), Relayed(Key(d.payload.sourceTxHash), h.value));
  }

  /**
   * Every hash the pass records belongs to an event that passed the gate and
   * validation and whose broadcast returned a hash.
   */
  lemma RecordedOnlyAfterSuccess(s: Settings, latestBlock: int, processed: seq<string>, events: seq<DepositEvent>, network: nat -> BroadcastRun)
    ensures forall x :: x in Pass(s, latestBlock, processed, events, network).processed && x !in processed ==>
      exists k :: (0 <= k < |events| && x == Key(events[k].transactionHash) &&
        !TooRecentAt(s.confirmationBlocks, latestBlock, events[k]) &&
        Decide(Pass(s, latestBlock, processed, events[..k], network).processed, s.destinationChainId, events[k]).Relay? &&
        s.broadcaster.Broadcast(network(k)).Some?)
  {
    var r := Pass(s, latestBlock, processed, events, network);
    forall x | x in r.processed && x !in processed
      ensures exists k :: (0 <= k < |events| && x == Key(events[k].transactionHash) &&
        !TooRecentAt(s.confirmationBlocks, latestBlock, events[k]) &&
        Decide(Pass(s, latestBlock, processed, events[..k], network).processed, s.destinationChainId, events[k]).Relay? &&
        s.broadcaster.Broadcast(network(k)).Some?)
    {
      var k := RelayedKeyFound(r.trace, x);
      RelayedOnlyAfterSuccess(s, latestBlock, processed, events, network, k);
    }
  }

  /** Whenever validation accepts and the broadcast returns a hash, the event is relayed. */
  lemma SuccessIsRelayed(s: Settings, latestBlock: int, processed: seq<string>, events: seq<DepositEvent>, network: nat -> BroadcastRun, k: nat)
    requires k < |events|
    requires !TooRecentAt(s.confirmationBlocks, latestBlock, events[k])
    requires Decide(Pass(s, latestBlock, processed, events[..k], network).processed, s.destinationChainId, events[k]).Relay?
    requires s.broadcaster.Broadcast(network(k)).Some?
    ensures Pass(s, latestBlock, processed, events, network).trace[k] ==
      Relayed(Key(events[k].transactionHash), s.broadcaster.Broadcast(network(k)).value)
  {
    PassOutcomeAt(s, latestBlock, processed, events, network, k);
    ReturnedHashIsTruthy(s.broadcaster, network(k));
  }

  /**
   * The replay protection of one pass: the keys it records are pairwise
   * distinct and none was recorded before the pass.
   */
  lemma {:induction false} NoReplayInPass(s: Settings, latestBlock: int, processed: seq<string>, events: seq<DepositEvent>, network: nat -> BroadcastRun)
    ensures var keys := RelayedKeys(Pass(s, latestBlock, processed, events, network).trace);
      NoDuplicates(keys) && forall x :: x in keys ==> x !in processed
  {
    if events != [] {
      var k := |events| - 1;
      var before := Pass(s, latestBlock, processed, events[..k], network);
      NoReplayInPass(s, latestBlock, processed, events[..k], network);
      var step := Step(s, latestBlock, before.processed, events[k], network(k));
      PassSnoc(s, latestBlock, processed, events, network, k);
      assert events[..k + 1] == events;
      var trace := before.trace + [step.1];
      assert trace[..k] == before.trace;
      var keys := RelayedKeys(before.trace);
      assert RelayedKeys(trace) == keys + if step.1.Relayed? then [step.1.sourceKey] else [];
      if step.1.Relayed? {
        assert Marked(keys, step.1.sourceKey) == keys + [step.1.sourceKey];
      }
    }
  }

  /** With no duplicates on entry, the recorded list has none after the pass. */
  lemma PassKeepsNoDuplicates(s: Settings, latestBlock: int, processed: seq<string>, events: seq<DepositEvent>, network: nat -> BroadcastRun)
    requires NoDuplicates(processed)
    ensures NoDuplicates(Pass(s, latestBlock, processed, events, network).processed)
  {
    var r := Pass(s, latestBlock, processed, events, network);
    var keys := RelayedKeys(r.trace);
    NoReplayInPass(s, latestBlock, processed, events, network);
    forall i, j | 0 <= i < j < |r.processed| ensures r.processed[i] != r.processed[j] {
      if j >= |processed| {
        assert r.processed[j] == keys[j - |processed|];
        if i >= |processed| {
          assert r.processed[i] == keys[i - |processed|];
        } else {
          assert r.processed[i] in processed;
          assert r.processed[j] in keys;
        }
      }
    }
  }

  /** A relayed outcome's key is among the relayed keys. */
  lemma {:induction false} RelayedKeyListed(trace: seq<EventOutcome>, k: nat)
    requires k < |trace| && trace[k].Relayed?
    ensures trace[k].sourceKey in RelayedKeys(trace)
  {
    var n := |trace| - 1;
    if k < n {
      RelayedKeyListed(trace[..n], k);
    }
  }

  /** An event whose hash was recorded before the pass is never broadcast in it. */
  lemma {:induction false} RecordedNeverBroadcast(s: Settings, latestBlock: int, processed: seq<string>, events: seq<DepositEvent>, network: nat -> BroadcastRun, k: nat)
    requires k < |events|
    requires Key(events[k].transactionHash) in processed
    ensures var o := Pass(s, latestBlock, processed, events, network).trace[k];
      o == TooRecent || o == Skipped(AlreadyProcessed)
  {
    PassOutcomeAt(s, latestBlock, processed, events, network, k);
  }

  /**
   * Within a pass, once an event is relayed every later event of the same
   * transaction, whatever its log index, is skipped as already processed.
   */
  lemma SameTransactionRelayedOnce(s: Settings, latestBlock: int, processed: seq<string>, events: seq<DepositEvent>, network: nat -> BroadcastRun, i: nat, j: nat)
    requires i < j < |events|
    requires events[i].transactionHash == events[j].transactionHash
    requires Pass(s, latestBlock, processed, events, network).trace[i].Relayed?
    ensures var o := Pass(s, latestBlock, processed, events, network).trace[j];
      o == TooRecent || o == Skipped(AlreadyProcessed)
  {
    var r := Pass(s, latestBlock, processed, events, network);
    var before := Pass(s, latestBlock, processed, events[..j], network);
    RelayedOnlyAfterSuccess(s, latestBlock, processed, events, network, i);
    PassPrefix(s, latestBlock, processed, events, network, j);
    assert before.trace[i] == r.trace[i];
    RelayedKeyListed(before.trace, i);
    PassOutcomeAt(s, latestBlock, processed, events, network, j);
    StepOnRecorded(s, latestBlock, before.processed, events[j], network(j));
  }

  /**
   * The guard is exact: an event is skipped as already processed in a pass
   * only if its hash was recorded before the pass or an earlier event of the
   * same transaction was relayed in it.
   */
  lemma AlreadyProcessedMeansSameTransaction(s: Settings, latestBlock: int, processed: seq<string>, events: seq<DepositEvent>, network: nat -> BroadcastRun, j: nat)
    requires j < |events|
    requires Pass(s, latestBlock, processed, events, network).trace[j] == Skipped(AlreadyProcessed)
    requires Key(events[j].transactionHash) !in processed
    ensures exists i :: (0 <= i < j && Pass(s, latestBlock, processed, events, network).trace[i].Relayed? &&
      events[i].transactionHash == events[j].transactionHash)
  {
    var r := Pass(s, latestBlock, processed, events, network);
    var before := Pass(s, latestBlock, processed, events[..j], network);
    var key := Key(events[j].transactionHash);
    PassOutcomeAt(s, latestBlock, processed, events, network, j);
    assert key in before.processed;
    var i := RelayedKeyFound(before.trace, key);
    PassPrefix(s, latestBlock, processed, events, network, j);
    assert r.trace[i] == before.trace[i];
    RelayedOnlyAfterSuccess(s, latestBlock, processed, events, network, i);
    KeyInjective(events[i].transactionHash, events[j].transactionHash);
  }

  /** The position of a relayed key in a trace. */
  lemma {:induction false} RelayedKeyFound(trace: seq<EventOutcome>, key: string) returns (i: nat)
    requires key in RelayedKeys(trace)
    ensures i < |trace| && trace[i].Relayed? && trace[i].sourceKey == key
  {
    var n := |trace| - 1;
    if key in RelayedKeys(trace[..n]) {
      i := RelayedKeyFound(trace[..n], key);
    } else {
      i := n;
    }
  }

  /**
   * Across two consecutive passes, the second never relays a transaction the
   * first relayed: the recorded list carries the guard from one poll to the next.
   */
  lemma NoReplayAcrossPasses(s: Settings, latest1: int, latest2: int, processed: seq<string>,
                             events1: seq<DepositEvent>, events2: seq<DepositEvent>,
                             network1: nat -> BroadcastRun, network2: nat -> BroadcastRun)
    ensures var first := Pass(s, latest1, processed, events1, network1);
      var second := Pass(s, latest2, first.processed, events2, network2);
      forall x :: x in RelayedKeys(first.trace) ==> x !in RelayedKeys(second.trace)
  {
    var first := Pass(s, latest1, processed, events1, network1);
    NoReplayInPass(s, latest2, first.processed, events2, network2);
  }

  /**
   * In simulate mode an event that passes the gate and validation is relayed,
   * under its signed hash, exactly when building and signing succeed.
   */
  lemma SimulatedStep(destinationChainId: int, confirmationBlocks: int, latestBlock: int, processed: seq<string>, event: DepositEvent, run: BroadcastRun)
    requires !TooRecentAt(confirmationBlocks, latestBlock, event)
    requires Decide(processed, destinationChainId, event).Relay?
    ensures var (after, o) := Step(Settings(destinationChainId, Broadcaster(true), confirmationBlocks), latestBlock, processed, event, run);
      if run.Signed? then
        o == Relayed(Key(event.transactionHash), Key(run.signedHash)) && after == processed + [Key(event.transactionHash)]
      else
        o == BroadcastFailed && after == processed
  {
  }

  /**
   * As written, the gate drops a deposit rather than delaying it: with the
   * default depth, a deposit seen while its block is still the latest block
   * leaves a pass with nothing recorded and nothing kept for a later pass.
   */
  lemma FreshDepositDropped(destinationChainId: int, broadcaster: Broadcaster, processed: seq<string>, event: DepositEvent, network: nat -> BroadcastRun)
    requires event.blockNumber.Some? && event.blockNumber.value != 0
    ensures var s := Settings(destinationChainId, broadcaster, DefaultConfirmationBlocks);
      Pass(s, event.blockNumber.value, processed, [event], network) == PassState(processed, [TooRecent])
  {
    var s := Settings(destinationChainId, broadcaster, DefaultConfirmationBlocks);
    PassSnoc(s, event.blockNumber.value, processed, [event], network, 0);
    assert [event][..1] == [event];
  }

  /**
   * The events a pass leaves as too recent: what a listener that waits for
   * confirmations carries into its next poll.
   */
  function Deferred(confirmationBlocks: int, latestBlock: int, events: seq<DepositEvent>): (pending: seq<DepositEvent>)
    ensures forall e :: e in pending <==> e in events && TooRecentAt(confirmationBlocks, latestBlock, e)
  {
    if events == [] then []
    else
      var n := |events| - 1;
      assert events == events[..n] + [events[n]];
      Deferred(confirmationBlocks, latestBlock, events[..n]) +
        if TooRecentAt(confirmationBlocks, latestBlock, events[n]) then [events[n]] else []
  }

  /**
   * The intended behaviour: when the deferred events are polled again ahead of
   * the new ones, each of them is handled, not held back again, once the head
   * is the confirmation depth past its own block. Every deferred event has a
   * block number, since the gate holds back only events that have one.
   */
  lemma DeferredEventIsRetried(s: Settings, latest1: int, latest2: int, events1: seq<DepositEvent>,
                               processed: seq<string>, events2: seq<DepositEvent>, network: nat -> BroadcastRun)
    ensures var pending := Deferred(s.confirmationBlocks, latest1, events1);
      forall i :: 0 <= i < |pending| ==>
        && pending[i].blockNumber.Some?
        && (latest2 >= pending[i].blockNumber.value + s.confirmationBlocks ==>
              Pass(s, latest2, processed, pending + events2, network).trace[i] != TooRecent)
  {
    var pending := Deferred(s.confirmationBlocks, latest1, events1);
    forall i | 0 <= i < |pending|
      ensures pending[i].blockNumber.Some?
      ensures latest2 >= pending[i].blockNumber.value + s.confirmationBlocks ==>
        Pass(s, latest2, processed, pending + events2, network).trace[i] != TooRecent
    {
      var e := pending[i];
      assert e in pending;
      assert (pending + events2)[i] == e;
      GateDecidesTooRecent(s, latest2, processed, pending + events2, network, i);
    }
  }

  class BridgeContractListener {
    const processor: EventProcessor
    const broadcaster: Broadcaster
    const confirmationBlocks: int

    constructor (processor: EventProcessor, broadcaster: Broadcaster, confirmationBlocks: int)
      ensures this.processor == processor && this.broadcaster == broadcaster
      ensures this.confirmationBlocks == confirmationBlocks
    {
      this.processor := processor;
      this.broadcaster := broadcaster;
      this.confirmationBlocks := confirmationBlocks;
    }

    function Config(): Settings
    {
      Settings(processor.destinationChainId, broadcaster, confirmationBlocks)
    }

    /**
     * One event of a batch: the gate, validation, the broadcast with the
     * network's behaviour `run`, and the mark once a hash came back.
     */
    method HandleEvent(latestBlock: int, event: DepositEvent, run: BroadcastRun) returns (outcome: EventOutcome)
      modifies processor.stateDb
      ensures (processor.stateDb.processedHashes, outcome) ==
        Step(Config(), latestBlock, old(processor.stateDb.processedHashes), event, run)
      ensures processor.stateDb.processedHashes == old(processor.stateDb.processedHashes) ==>
        processor.stateDb.file == old(processor.stateDb.file)
      ensures processor.stateDb.processedHashes != old(processor.stateDb.processedHashes) ==>
        processor.stateDb.file == Written(processor.stateDb.processedHashes)
    {
      var db := processor.stateDb;
      if TooRecentAt(confirmationBlocks, latestBlock, event) {
        outcome := TooRecent;
      } else {
        var decision := processor.ProcessEvent(event);
        match decision
        case Skip(reason) =>
          outcome := Skipped(reason);
        case Relay(prepared) =>
          var broadcastHash := broadcaster.Broadcast(run);
          if broadcastHash.Some? && broadcastHash.value != "" {
            var sourceTxHash := Key(prepared.sourceTxHash);
            db.MarkAsProcessed(sourceTxHash);
            outcome := Relayed(sourceTxHash, broadcastHash.value);
          } else {
            outcome := BroadcastFailed;
          }
      }
    }

    /**
     * The body of one iteration of `run`: handles the filter's new entries
     * given the latest block number and what the network does for each
     * broadcast. Every hash it records is saved before the next event, and
     * the state file is left alone when nothing is recorded.
     */
    method ProcessNewEntries(latestBlock: int, events: seq<DepositEvent>, network: nat -> BroadcastRun) returns (trace: seq<EventOutcome>)
      modifies processor.stateDb
      ensures PassState(processor.stateDb.processedHashes, trace) ==
        Pass(Config(), latestBlock, old(processor.stateDb.processedHashes), events, network)
      ensures processor.stateDb.processedHashes == old(processor.stateDb.processedHashes) ==>
        processor.stateDb.file == old(processor.stateDb.file)
      ensures processor.stateDb.processedHashes != old(processor.stateDb.processedHashes) ==>
        processor.stateDb.file == Written(processor.stateDb.processedHashes)
      ensures old(processor.stateDb.Durable()) ==> processor.stateDb.Durable()
    {
      var db := processor.stateDb;
      trace := [];
      var i := 0;
      while i < |events|
        invariant 0 <= i <= |events|
        invariant PassState(db.processedHashes, trace) == Pass(Config(), latestBlock, old(db.processedHashes), events[..i], network)
        invariant db.processedHashes == old(db.processedHashes) ==> db.file == old(db.file)
        invariant db.processedHashes != old(db.processedHashes) ==> db.file == Written(db.processedHashes)
      {
        var outcome := HandleEvent(latestBlock, events[i], network(i));
        PassSnoc(Config(), latestBlock, old(db.processedHashes), events, network, i);
        trace := trace + [outcome];
        i := i + 1;
      }
      assert events[..|events|] == events;
    }
  }
}
