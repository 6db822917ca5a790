/** The transaction loop of a block: one gas pool, one running total of gas used, one receipt per transaction. */
module StateProcessors {
  import opened Wrappers
  import opened Balances
  import opened Gas
  import opened StateTransitions

  datatype Receipt = Receipt(gasUsed: nat, cumulativeGasUsed: nat, failed: bool)

  datatype ProcessResult = ProcessResult(receipts: seq<Receipt>, gasUsed: nat, world: World)

  type Oracle = Message -> Evm

  function MessageOf(tx: Transaction, ctx: BlockContext): Message {
    TransactionToMessage(tx, HeaderBaseFee(ctx))
  }

  // ----- Receipts -----

  /** Cumulative gas adds up receipt by receipt. */
  ghost predicate AddsUp(receipts: seq<Receipt>) {
    forall i {:trigger AddsUpAt(receipts, i)} | 0 <= i < |receipts| :: AddsUpAt(receipts, i)
  }

  ghost predicate AddsUpAt(receipts: seq<Receipt>, i: nat)
    requires i < |receipts|
  {
    receipts[i].cumulativeGasUsed == LastCumulative(receipts[..i]) + receipts[i].gasUsed
  }

  ghost function LastCumulative(receipts: seq<Receipt>): nat {
    if receipts == [] then 0 else receipts[|receipts| - 1].cumulativeGasUsed
  }

  /** Each transaction meets its own world with the gas the earlier ones left, no error applies to it, its receipt tells
    the gas it is charged and whether its call failed, and it leaves the next world. */
  ghost predicate AppliedAll(txs: seq<Transaction>, ctx: BlockContext, oracle: Oracle, gasLimit: nat,
                             worlds: seq<World>, receipts: seq<Receipt>)
    requires |receipts| <= |txs| && |worlds| == |receipts| + 1
  {
    forall i {:trigger AppliedAt(txs, ctx, oracle, gasLimit, worlds, receipts, i)} | 0 <= i < |receipts| ::
      AppliedAt(txs, ctx, oracle, gasLimit, worlds, receipts, i)
  }

  ghost predicate AppliedAt(txs: seq<Transaction>, ctx: BlockContext, oracle: Oracle, gasLimit: nat,
                            worlds: seq<World>, receipts: seq<Receipt>, i: nat)
    requires i < |receipts| <= |txs| && |worlds| == |receipts| + 1
  {
    && LastCumulative(receipts[..i]) <= gasLimit
    && OutcomeOf(txs[i], ctx, oracle, worlds[i], gasLimit - LastCumulative(receipts[..i]), receipts[i].gasUsed,
                 receipts[i].failed, worlds[i + 1])
  }

  ghost predicate OutcomeOf(tx: Transaction, ctx: BlockContext, oracle: Oracle, w: World, pool: nat, used: nat,
                            failed: bool, after: World)
  {
    Outcome(MessageOf(tx, ctx), ctx, oracle(MessageOf(tx, ctx)), w, pool, used, failed, after)
  }

  /** The money the first transactions of a block destroy: base fees and blob fees. */
  ghost function Destroyed(txs: seq<Transaction>, ctx: BlockContext, receipts: seq<Receipt>): nat
    requires |receipts| <= |txs|
  {
    if receipts == [] then 0
    else
      var last := |receipts| - 1;
      Destroyed(txs, ctx, receipts[..last]) + receipts[last].gasUsed * BurntPerGas(ctx) +
        BlobCost(MessageOf(txs[last], ctx), ctx)
  }

  // ----- Cumulative gas -----

  /** A charged transaction pays for at least half of its intrinsic cost, so for some gas, and at most
    its gas limit. */
  lemma ChargedPositive(tx: Transaction, ctx: BlockContext, oracle: Oracle, call: EvmResult, floor: nat, used: nat)
    requires forall msg :: SoundEvm(oracle(msg))
    requires Charged(MessageOf(tx, ctx), ctx, oracle(MessageOf(tx, ctx)), call, floor, used) && InMemory(tx.payload)
    ensures 0 < used <= tx.gas
    ensures 2 * used >= DataGas(GasPayload(MessageOf(tx, ctx)), ctx.rules.gas) + ListCost(tx.payload)
  {
    var msg := MessageOf(tx, ctx);
    CostPositive(GasPayload(msg), ctx.rules.gas);
    ChargedHalf(msg, ctx, oracle(msg), call, floor, used,
                DataGas(GasPayload(msg), ctx.rules.gas) + ListCost(tx.payload));
  }

  lemma {:induction false} OutcomeCharged(tx: Transaction, ctx: BlockContext, oracle: Oracle, w: World, pool: nat,
                                          used: nat, failed: bool, after: World)
    returns (call: EvmResult, floor: nat)
    requires OutcomeOf(tx, ctx, oracle, w, pool, used, failed, after)
    ensures Charged(MessageOf(tx, ctx), ctx, oracle(MessageOf(tx, ctx)), call, floor, used)
  {
    var refund, given;
    refund, call, floor, given :|
      Applied(MessageOf(tx, ctx), ctx, oracle(MessageOf(tx, ctx)), w, ExecutionResult(used, refund, failed), call,
              floor, given, after);
  }

  lemma CostPositive(p: Payload, r: GasRules)
    requires InMemory(p)
    ensures Intrinsic(p, r) == Some(DataGas(p, r) + ListCost(p)) && DataGas(p, r) > 0
  {
    CostsExact(p, r);
  }

  /** At most half of what a call spent with the intrinsic gas is refunded. */
  lemma ChargedHalf(msg: Message, ctx: BlockContext, evm: Evm, call: EvmResult, floor: nat, used: nat, cost: nat)
    requires SoundEvm(evm) && Intrinsic(GasPayload(msg), ctx.rules.gas) == Some(cost)
    requires Charged(msg, ctx, evm, call, floor, used)
    ensures 2 * used >= cost && used <= msg.gasLimit
  {
    SpentAtLeast(evm, msg.gasLimit - cost, call);
    Half(msg.gasLimit - call.gasLeft, call.refund, floor, ctx.rules.london);
  }

  lemma SpentAtLeast(evm: Evm, gas: nat, call: EvmResult)
    requires SoundEvm(evm) && CalledWith(evm, gas, call)
    ensures call.gasLeft <= gas
  {
    var w :| call == evm(w, gas);
  }

  lemma Half(spent: nat, refund: nat, floor: nat, london: bool)
    ensures 2 * ChargedGas(spent, refund, floor, london) >= spent
  {
  }

  /** Cumulative gas strictly increases when every transaction pays for some gas. */
  lemma {:induction false} StrictlyIncreasing(receipts: seq<Receipt>, i: nat, j: nat)
    requires AddsUp(receipts) && i < j < |receipts|
    requires forall k | 0 <= k < |receipts| :: receipts[k].gasUsed > 0
    ensures receipts[i].cumulativeGasUsed < receipts[j].cumulativeGasUsed
    decreases j
  {
    assert AddsUpAt(receipts, j);
    assert receipts[..j][j - 1] == receipts[j - 1];
    if i < j - 1 {
      StrictlyIncreasing(receipts, i, j - 1);
    }
  }

  /** Over the receipts of a block whose transactions fit in memory cumulative gas strictly increases. */
  lemma {:induction false} BlockIncreasing(txs: seq<Transaction>, ctx: BlockContext, oracle: Oracle, gasLimit: nat,
                                           worlds: seq<World>, receipts: seq<Receipt>)
    requires |receipts| <= |txs| && |worlds| == |receipts| + 1
    requires AddsUp(receipts) && AppliedAll(txs, ctx, oracle, gasLimit, worlds, receipts)
    requires forall msg :: SoundEvm(oracle(msg))
    requires forall tx | tx in txs :: InMemory(tx.payload)
    ensures Increasing(receipts)
  {
    forall k | 0 <= k < |receipts| ensures receipts[k].gasUsed > 0 {
      assert AppliedAt(txs, ctx, oracle, gasLimit, worlds, receipts, k) && txs[k] in txs;
      var call, floor := OutcomeCharged(txs[k], ctx, oracle, worlds[k], gasLimit - LastCumulative(receipts[..k]),
                                        receipts[k].gasUsed, receipts[k].failed, worlds[k + 1]);
      ChargedPositive(txs[k], ctx, oracle, call, floor, receipts[k].gasUsed);
    }
    forall i: nat, j: nat | i < j < |receipts| ensures receipts[i].cumulativeGasUsed < receipts[j].cumulativeGasUsed {
      StrictlyIncreasing(receipts, i, j);
    }
  }

  ghost predicate Increasing(receipts: seq<Receipt>) {
    forall i, j | 0 <= i < j < |receipts| :: receipts[i].cumulativeGasUsed < receipts[j].cumulativeGasUsed
  }

  // ----- Nonces -----

  /** The EVM lowers no nonce. */
  ghost predicate KeepsNonces(evm: Evm) {
    forall w, g, a {:trigger NonceOf(evm(w, g).world, a)} :: NonceOf(evm(w, g).world, a) >= NonceOf(w, a)
  }

  /** No later transaction repeats a nonce that its sender has used for a plain call, nor an earlier one. */
  ghost predicate NoReplay(txs: seq<Transaction>) {
    forall i, j | 0 <= i < j < |txs| && txs[i].from == txs[j].from && txs[i].to.Some? :: txs[i].nonce < txs[j].nonce
  }

  /** A transaction met its sender's nonce, lowered no nonce and, as a plain call, raised its sender's. */
  ghost predicate NonceStep(tx: Transaction, w: World, after: World) {
    && NonceOf(w, tx.from) == tx.nonce
    && (forall a :: NonceOf(after, a) >= NonceOf(w, a))
    && (tx.to.Some? ==> NonceOf(after, tx.from) > tx.nonce)
  }

  lemma {:induction false} NonceMatches(msg: Message, ctx: BlockContext, w: World, pool: nat)
    requires Accepts(msg, ctx, w, pool) && !msg.skipNonceChecks
    ensures NonceOf(w, msg.from) == msg.nonce < MAX_UINT64
  {
    assert !Violates(NonceTooHigh, msg, ctx, w, pool) && !Violates(NonceTooLow, msg, ctx, w, pool);
    assert !Violates(NonceMax, msg, ctx, w, pool);
  }

  lemma {:induction false} NonceRaised(msg: Message, ctx: BlockContext, evm: Evm, w: World, r: ExecutionResult,
                                       call: EvmResult, floor: nat, given: World, after: World, a: Address)
    requires Applied(msg, ctx, evm, w, r, call, floor, given, after) && KeepsNonces(evm)
    requires NonceOf(w, msg.from) < MAX_UINT64
    ensures NonceOf(after, a) >= NonceOf(w, a)
    ensures msg.to.Some? && a == msg.from ==> NonceOf(after, a) > NonceOf(w, a)
  {
    var gas := msg.gasLimit - Intrinsic(GasPayload(msg), ctx.rules.gas).value;
    assert NonceOf(evm(given, gas).world, a) >= NonceOf(given, a);
    assert NonceOf(after, a) == NonceOf(call.world, a);
    WordFits(NonceOf(w, msg.from) + 1);
    assert msg.to.None? ==> NonceOf(given, a) == NonceOf(w, a);
  }

  lemma {:induction false} AcceptedSteps(tx: Transaction, ctx: BlockContext, oracle: Oracle, w: World, pool: nat,
                                         used: nat, failed: bool, after: World)
    requires OutcomeOf(tx, ctx, oracle, w, pool, used, failed, after) && KeepsNonces(oracle(MessageOf(tx, ctx)))
    ensures NonceStep(tx, w, after)
  {
    var msg := MessageOf(tx, ctx);
    NonceMatches(msg, ctx, w, pool);
    var refund, call, floor, given :|
      Applied(msg, ctx, oracle(msg), w, ExecutionResult(used, refund, failed), call, floor, given, after);
    forall a ensures NonceOf(after, a) >= NonceOf(w, a) {
      NonceRaised(msg, ctx, oracle(msg), w, ExecutionResult(used, refund, failed), call, floor, given, after, a);
    }
    NonceRaised(msg, ctx, oracle(msg), w, ExecutionResult(used, refund, failed), call, floor, given, after, tx.from);
  }

  lemma {:induction false} NoncesGrow(txs: seq<Transaction>, worlds: seq<World>, i: nat, j: nat, a: Address)
    requires i <= j <= |txs| < |worlds| && forall k | 0 <= k < |txs| :: NonceStep(txs[k], worlds[k], worlds[k + 1])
    ensures NonceOf(worlds[j], a) >= NonceOf(worlds[i], a)
    decreases j
  {
    if i < j {
      NoncesGrow(txs, worlds, i, j - 1, a);
      assert NonceStep(txs[j - 1], worlds[j - 1], worlds[j - 1 + 1]);
    }
  }

  lemma {:induction false} StepsOnce(txs: seq<Transaction>, worlds: seq<World>)
    requires |txs| < |worlds| && forall k | 0 <= k < |txs| :: NonceStep(txs[k], worlds[k], worlds[k + 1])
    ensures NoReplay(txs)
  {
    forall i, j | 0 <= i < j < |txs| && txs[i].from == txs[j].from && txs[i].to.Some?
      ensures txs[i].nonce < txs[j].nonce
    {
      assert NonceStep(txs[i], worlds[i], worlds[i + 1]) && NonceStep(txs[j], worlds[j], worlds[j + 1]);
      NoncesGrow(txs, worlds, i + 1, j, txs[i].from);
    }
  }

  /** When the EVM lowers no nonce, no plain call of a block is accepted twice. */
  lemma {:induction false} AppliedOnce(txs: seq<Transaction>, ctx: BlockContext, oracle: Oracle, gasLimit: nat,
                                       worlds: seq<World>, receipts: seq<Receipt>)
    requires |receipts| == |txs| && |worlds| == |receipts| + 1
    requires AppliedAll(txs, ctx, oracle, gasLimit, worlds, receipts) && forall msg :: KeepsNonces(oracle(msg))
    ensures NoReplay(txs)
  {
    forall k | 0 <= k < |txs| ensures NonceStep(txs[k], worlds[k], worlds[k + 1]) {
      assert AppliedAt(txs, ctx, oracle, gasLimit, worlds, receipts, k);
      AcceptedSteps(txs[k], ctx, oracle, worlds[k], gasLimit - LastCumulative(receipts[..k]), receipts[k].gasUsed,
                    receipts[k].failed, worlds[k + 1]);
    }
    StepsOnce(txs, worlds);
  }

  // ----- The loop -----

  /** The state of the loop after some transactions. */
  ghost predicate Progress(txs: seq<Transaction>, ctx: BlockContext, oracle: Oracle, gasLimit: nat,
                           worlds: seq<World>, receipts: seq<Receipt>)
  {
    && |receipts| <= |txs| && |worlds| == |receipts| + 1
    && AddsUp(receipts) && LastCumulative(receipts) <= gasLimit
    && AppliedAll(txs, ctx, oracle, gasLimit, worlds, receipts)
    && Total(worlds[|receipts|].balances) == Total(worlds[0].balances) - Destroyed(txs, ctx, receipts)
  }

  lemma {:induction false} ProgressNext(txs: seq<Transaction>, ctx: BlockContext, oracle: Oracle, gasLimit: nat,
                                        worlds: seq<World>, receipts: seq<Receipt>, receipt: Receipt, pool: nat,
                                        r: ExecutionResult, after: World)
    requires Progress(txs, ctx, oracle, gasLimit, worlds, receipts) && |receipts| < |txs|
    requires pool == gasLimit - LastCumulative(receipts) && r.usedGas <= pool
    requires receipt == Receipt(r.usedGas, LastCumulative(receipts) + r.usedGas, r.failed)
    requires OutcomeOf(txs[|receipts|], ctx, oracle, worlds[|receipts|], pool, r.usedGas, r.failed, after)
    requires Total(after.balances) ==
               Total(worlds[|receipts|].balances) - r.usedGas * BurntPerGas(ctx)
               - BlobCost(MessageOf(txs[|receipts|], ctx), ctx)
    ensures Progress(txs, ctx, oracle, gasLimit, worlds + [after], receipts + [receipt])
    ensures LastCumulative(receipts + [receipt]) == receipt.cumulativeGasUsed
  {
    AddsUpNext(receipts, receipt);
    DestroyedNext(txs, ctx, receipts, receipt);
    AppliedNext(txs, ctx, oracle, gasLimit, worlds, receipts, receipt, after);
  }

  lemma {:induction false} AppliedNext(txs: seq<Transaction>, ctx: BlockContext, oracle: Oracle, gasLimit: nat,
                                       worlds: seq<World>, receipts: seq<Receipt>, receipt: Receipt, after: World)
    requires |receipts| < |txs| && |worlds| == |receipts| + 1 && LastCumulative(receipts) <= gasLimit
    requires AppliedAll(txs, ctx, oracle, gasLimit, worlds, receipts)
    requires OutcomeOf(txs[|receipts|], ctx, oracle, worlds[|receipts|], gasLimit - LastCumulative(receipts),
                       receipt.gasUsed, receipt.failed, after)
    ensures AppliedAll(txs, ctx, oracle, gasLimit, worlds + [after], receipts + [receipt])
  {
    var more, worlds' := receipts + [receipt], worlds + [after];
    forall i | 0 <= i < |more| ensures AppliedAt(txs, ctx, oracle, gasLimit, worlds', more, i) {
      assert more[..i] == receipts[..i] && worlds'[i] == worlds[i];
      if i < |receipts| {
        assert AppliedAt(txs, ctx, oracle, gasLimit, worlds, receipts, i);
        assert worlds'[i + 1] == worlds[i + 1] && more[i] == receipts[i];
      } else {
        assert receipts[..i] == receipts && worlds'[i + 1] == after && more[i] == receipt;
      }
    }
  }

  lemma AddsUpNext(receipts: seq<Receipt>, receipt: Receipt)
    requires AddsUp(receipts) && receipt.cumulativeGasUsed == LastCumulative(receipts) + receipt.gasUsed
    ensures AddsUp(receipts + [receipt]) && LastCumulative(receipts + [receipt]) == receipt.cumulativeGasUsed
  {
    var more := receipts + [receipt];
    assert more[..|receipts|] == receipts;
    forall i | 0 <= i < |more| ensures AddsUpAt(more, i) {
      if i < |receipts| {
        assert AddsUpAt(receipts, i) && more[..i] == receipts[..i];
      }
    }
  }

  lemma DestroyedNext(txs: seq<Transaction>, ctx: BlockContext, receipts: seq<Receipt>, receipt: Receipt)
    requires |receipts| < |txs|
    ensures Destroyed(txs, ctx, receipts + [receipt]) ==
            Destroyed(txs, ctx, receipts) + receipt.gasUsed * BurntPerGas(ctx) +
              BlobCost(MessageOf(txs[|receipts|], ctx), ctx)
  {
    assert (receipts + [receipt])[..|receipts|] == receipts;
  }

  /** Processes a block's transactions in order, stopping at the first that cannot be applied. It leaves the worlds that
    the transactions met one after the other, and the receipts of those that were applied. The one it stops at is
    rejected with the first error that applies to it. */
  method Process(txs: seq<Transaction>, gasLimit: nat, ctx: BlockContext, world: World, oracle: Oracle)
    returns (r: Result<ProcessResult, TxError>, panicked: bool, ghost worlds: seq<World>, ghost done: seq<Receipt>)
    requires gasLimit <= MAX_UINT64 && Total(world.balances) < TWO_256 && !ctx.noBaseFee
    requires forall tx | tx in txs :: tx.gas <= MAX_UINT64 && (!ctx.rules.london ==> tx.fee.Legacy?)
    requires forall msg :: SoundEvm(oracle(msg))
    ensures !panicked
    ensures |done| <= |txs| && |worlds| == |done| + 1 && worlds[0] == world
    ensures AddsUp(done) && LastCumulative(done) <= gasLimit
    ensures AppliedAll(txs, ctx, oracle, gasLimit, worlds, done)
    ensures Total(worlds[|done|].balances) == Total(world.balances) - Destroyed(txs, ctx, done)
    ensures r.Ok? ==> |done| == |txs| && r.value == ProcessResult(done, LastCumulative(done), worlds[|done|])
    ensures r.Err? ==>
              && |done| < |txs|
              && Rejects(r.error, MessageOf(txs[|done|], ctx), ctx, worlds[|done|], gasLimit - LastCumulative(done))
    ensures r.Ok? && (forall tx | tx in txs :: InMemory(tx.payload)) ==> Increasing(done)
    ensures r.Ok? && (forall msg :: KeepsNonces(oracle(msg))) ==> NoReplay(txs)
    ensures r != Err(InsufficientFundsForTransfer)
  {
    var receipts: seq<Receipt>, usedGas: nat, current := [], 0, world;
    worlds, done := [world], [];
    var gp := new GasPool(0);
    panicked := gp.AddGas(gasLimit);
    for i := 0 to |txs|
      invariant !panicked && fresh(gp) && gp.Valid() && gp.gas + usedGas == gasLimit
      invariant Progress(txs, ctx, oracle, gasLimit, worlds, receipts) && |receipts| == i && worlds[0] == world
      invariant usedGas == LastCumulative(receipts) && current == worlds[i] && done == receipts
    {
      var error;
      error, receipts, usedGas, current, panicked :=
        ProcessNext(gp, txs, ctx, oracle, gasLimit, worlds, receipts, usedGas, current);
      if error.Some? {
        return Err(error.value), panicked, worlds, done;
      }
      worlds, done := worlds + [current], receipts;
    }
    BlockFacts(txs, ctx, oracle, gasLimit, worlds, receipts);
    return Ok(ProcessResult(receipts, usedGas, current)), panicked, worlds, done;
  }

  /** One iteration of the loop of Process. */
  method ProcessNext(gp: GasPool, txs: seq<Transaction>, ctx: BlockContext, oracle: Oracle, ghost gasLimit: nat,
                     ghost worlds: seq<World>, receipts: seq<Receipt>, usedGas: nat, current: World)
    returns (error: Option<TxError>, receipts': seq<Receipt>, usedGas': nat, current': World, panicked: bool)
    requires gp.Valid() && gp.gas + usedGas == gasLimit <= MAX_UINT64 && !ctx.noBaseFee
    requires Progress(txs, ctx, oracle, gasLimit, worlds, receipts) && |receipts| < |txs|
    requires usedGas == LastCumulative(receipts) && current == worlds[|receipts|] && Total(worlds[0].balances) < TWO_256
    requires txs[|receipts|].gas <= MAX_UINT64 && (!ctx.rules.london ==> txs[|receipts|].fee.Legacy?)
    requires SoundEvm(oracle(MessageOf(txs[|receipts|], ctx)))
    modifies gp
    ensures gp.Valid() && !panicked && error != Some(InsufficientFundsForTransfer)
    ensures error.Some? ==> Rejects(error.value, MessageOf(txs[|receipts|], ctx), ctx, current, gasLimit - usedGas)
    ensures error.None? ==>
              && |receipts'| == |receipts| + 1 && gp.gas + usedGas' == gasLimit
              && usedGas' == LastCumulative(receipts')
              && Progress(txs, ctx, oracle, gasLimit, worlds + [current'], receipts')
  {
    ghost var pool := gp.gas;
    var result;
    result, current', panicked := Apply(gp, txs[|receipts|], ctx, current, oracle);
    if result.Err? {
      return Some(result.error), receipts, usedGas, current', panicked;
    }
    WordFits(usedGas + result.value.usedGas);
    usedGas' := (usedGas + result.value.usedGas) % TWO_64;
    var receipt := Receipt(result.value.usedGas, usedGas', result.value.failed);
    ProgressNext(txs, ctx, oracle, gasLimit, worlds, receipts, receipt, pool, result.value, current');
    receipts' := receipts + [receipt];
    error := None;
  }

  lemma {:induction false} BlockFacts(txs: seq<Transaction>, ctx: BlockContext, oracle: Oracle, gasLimit: nat,
                                      worlds: seq<World>, receipts: seq<Receipt>)
    requires Progress(txs, ctx, oracle, gasLimit, worlds, receipts) && |receipts| == |txs|
    requires forall msg :: SoundEvm(oracle(msg))
    ensures (forall msg :: KeepsNonces(oracle(msg))) ==> NoReplay(txs)
    ensures (forall tx | tx in txs :: InMemory(tx.payload)) ==> Increasing(receipts)
  {
    if forall tx | tx in txs :: InMemory(tx.payload) {
      BlockIncreasing(txs, ctx, oracle, gasLimit, worlds, receipts);
    }
    if forall msg :: KeepsNonces(oracle(msg)) {
      AppliedOnce(txs, ctx, oracle, gasLimit, worlds, receipts);
    }
  }

  /** Applies one transaction on the pool of the block. */
  method Apply(gp: GasPool, tx: Transaction, ctx: BlockContext, world: World, oracle: Oracle)
    returns (r: Result<ExecutionResult, TxError>, after: World, panicked: bool)
    requires gp.Valid() && tx.gas <= MAX_UINT64 && Total(world.balances) < TWO_256 && !ctx.noBaseFee
    requires !ctx.rules.london ==> tx.fee.Legacy?
    requires SoundEvm(oracle(MessageOf(tx, ctx)))
    modifies gp
    ensures gp.Valid() && !panicked && r != Err(InsufficientFundsForTransfer)
    ensures r.Err? ==> Rejects(r.error, MessageOf(tx, ctx), ctx, world, old(gp.gas))
    ensures r.Ok? ==>
              && OutcomeOf(tx, ctx, oracle, world, old(gp.gas), r.value.usedGas, r.value.failed, after)
              && gp.gas == old(gp.gas) - r.value.usedGas
              && Total(after.balances) ==
                 Total(world.balances) - r.value.usedGas * BurntPerGas(ctx) - BlobCost(MessageOf(tx, ctx), ctx)
  {
    var msg := MessageOf(tx, ctx);
    MessagePriced(tx, ctx);
    var st := new StateTransition(gp, msg, ctx, world);
    ghost var call, floor, given;
    r, panicked, call, floor, given := st.Execute(oracle(msg));
    after := st.world;
    if r.Ok? {
      assert Applied(msg, ctx, oracle(msg), world,
                     ExecutionResult(r.value.usedGas, r.value.refundedGas, r.value.failed), call, floor, given, after);
    }
  }
}
