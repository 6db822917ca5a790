/** Applying a message: buying gas, running the EVM, refunding, returning gas and paying the tip. The EVM call itself is
  an oracle. */
module StateTransitions {
  import opened Wrappers
  import opened Balances
  import opened Gas

  const BLOB_TX_BLOB_GAS_PER_BLOB: nat := 0x20000
  const MAX_INIT_CODE_SIZE: nat := 49152

  datatype Rules = Rules(london: bool, cancun: bool, prague: bool, shanghai: bool, gas: GasRules)

  /** What a block tells its transactions; baseFee counts only from London on, blobBaseFee only from Cancun on. */
  datatype BlockContext = BlockContext(rules: Rules, baseFee: nat, blobBaseFee: nat, coinbase: Address, noBaseFee: bool)

  /** The fee fields of a transaction: a legacy price, or a fee cap and a tip cap. */
  datatype Fee = Legacy(price: nat) | Dynamic(feeCap: nat, tipCap: nat)

  datatype Transaction = Transaction(
    from: Address, nonce: nat, gas: nat, fee: Fee, value: nat, to: Option<Address>, payload: Payload,
    blobHashes: Option<seq<bool>>, blobFeeCap: nat)

  /** blobHashes says of each blob hash whether its version is valid. Messages of a block never skip a check; those of
    simulated calls may. */
  datatype Message = Message(
    from: Address, nonce: nat, gasLimit: nat, gasPrice: nat, gasFeeCap: nat, gasTipCap: nat, value: nat,
    to: Option<Address>, payload: Payload, blobHashes: Option<seq<bool>>, blobGasFeeCap: nat,
    skipNonceChecks: bool, skipFromEOACheck: bool)

  /** What the intrinsic gas is charged for: a message without a recipient creates a contract. */
  function GasPayload(msg: Message): (p: Payload)
    ensures p.creation <==> msg.to == None
    ensures p.data == msg.payload.data && p.accessList == msg.payload.accessList && p.auths == msg.payload.auths
  {
    msg.payload.(creation := msg.to.None?)
  }

  /** Accounts: balances, nonces, and the accounts whose code is not a delegation. */
  datatype World = World(balances: BalanceMap, nonces: map<Address, nat>, coded: set<Address>)

  datatype TxError =
    | NonceTooHigh | NonceTooLow | NonceMax | SenderNoEOA
    | FeeCapVeryHigh | TipVeryHigh | TipAboveFeeCap | FeeCapTooLow
    | BlobTxCreate | MissingBlobHashes | BadBlobVersion | BlobFeeCapTooLow
    | SetCodeTxCreate | EmptyAuthList
    | InsufficientFunds | GasLimitReached
    | GasUintOverflow | IntrinsicGasTooLow | FloorDataGasTooLow
    | InsufficientFundsForTransfer | MaxInitCodeSizeExceeded

  /** What the EVM call leaves: the world, the gas left, the refund counter, and whether it failed. */
  datatype EvmResult = EvmResult(world: World, gasLeft: nat, refund: nat, failed: bool)

  type Evm = (World, nat) -> EvmResult

  datatype ExecutionResult = ExecutionResult(usedGas: nat, refundedGas: nat, failed: bool)

  function NonceOf(w: World, a: Address): nat {
    if a in w.nonces then w.nonces[a] else 0
  }

  /** The EVM never returns more gas than it got, and moves balance without creating or destroying any. */
  ghost predicate SoundEvm(evm: Evm) {
    forall w, g {:trigger evm(w, g)} ::
      evm(w, g).gasLeft <= g && Total(evm(w, g).world.balances) == Total(w.balances) && evm(w, g).refund <= MAX_UINT64
  }

  /** The message of a transaction; with a base fee, the price is the effective one. */
  function TransactionToMessage(tx: Transaction, baseFee: Option<nat>): Message {
    var (price, feeCap, tipCap) :=
      match tx.fee case Legacy(p) => (p, p, p) case Dynamic(f, t) => (f, f, t);
    var gasPrice := if baseFee.None? then price else Min(tipCap + baseFee.value, feeCap);
    Message(tx.from, tx.nonce, tx.gas, gasPrice, feeCap, tipCap, tx.value, tx.to, tx.payload, tx.blobHashes,
            tx.blobFeeCap, false, false)
  }

  function BlobGas(msg: Message): nat {
    if msg.blobHashes.Some? then |msg.blobHashes.value| * BLOB_TX_BLOB_GAS_PER_BLOB else 0
  }

  /** The gas of the blobs, 131072 for each. */
  ghost function BlobUnits(msg: Message): nat {
    if msg.blobHashes.Some? then |msg.blobHashes.value| * 131072 else 0
  }

  ghost function BlobCost(msg: Message, ctx: BlockContext): nat {
    if ctx.rules.cancun then BlobUnits(msg) * ctx.blobBaseFee else 0
  }

  /** What buying the gas takes from the sender. */
  ghost function Purchase(msg: Message, ctx: BlockContext): nat {
    msg.gasLimit * msg.gasPrice + BlobCost(msg, ctx)
  }

  /** What the sender must have before buying gas. */
  ghost function Required(msg: Message, ctx: BlockContext): nat {
    msg.gasLimit * msg.gasFeeCap + msg.value + if ctx.rules.cancun then BlobUnits(msg) * msg.blobGasFeeCap else 0
  }

  /** The message is priced for the block: at the effective gas price from London on, at its only price before. */
  ghost predicate PricedFor(msg: Message, ctx: BlockContext) {
    msg.gasPrice ==
    if ctx.rules.london && msg.gasTipCap + ctx.baseFee <= msg.gasFeeCap then msg.gasTipCap + ctx.baseFee
    else msg.gasFeeCap
  }

  /** The header's base fee, present from London on. */
  function HeaderBaseFee(ctx: BlockContext): Option<nat> {
    if ctx.rules.london then Some(ctx.baseFee) else None
  }

  /** The checks before buying gas, in the source's order. */
  function FeeChecks(msg: Message, ctx: BlockContext, w: World): (error: Option<TxError>)
    ensures error.None? ==> (msg.skipNonceChecks || NonceOf(w, msg.from) == msg.nonce)
                            && (msg.skipFromEOACheck || msg.from !in w.coded)
    ensures error !in [Some(InsufficientFunds), Some(GasLimitReached), Some(InsufficientFundsForTransfer)]
  {
    if !msg.skipNonceChecks && NonceOf(w, msg.from) < msg.nonce then Some(NonceTooHigh)
    else if !msg.skipNonceChecks && NonceOf(w, msg.from) > msg.nonce then Some(NonceTooLow)
    else if !msg.skipNonceChecks && NonceOf(w, msg.from) + 1 > MAX_UINT64 then Some(NonceMax)
    else if !msg.skipFromEOACheck && msg.from in w.coded then Some(SenderNoEOA)
    else
      var skip := ctx.noBaseFee && msg.gasFeeCap == 0 && msg.gasTipCap == 0;
      if ctx.rules.london && !skip && msg.gasFeeCap >= TWO_256 then Some(FeeCapVeryHigh)
      else if ctx.rules.london && !skip && msg.gasTipCap >= TWO_256 then Some(TipVeryHigh)
      else if ctx.rules.london && !skip && msg.gasFeeCap < msg.gasTipCap then Some(TipAboveFeeCap)
      else if ctx.rules.london && !skip && msg.gasFeeCap < ctx.baseFee then Some(FeeCapTooLow)
      else if msg.blobHashes.Some? && msg.to.None? then Some(BlobTxCreate)
      else if msg.blobHashes.Some? && msg.blobHashes.value == [] then Some(MissingBlobHashes)
      else if msg.blobHashes.Some? && false in msg.blobHashes.value then Some(BadBlobVersion)
      else if ctx.rules.cancun && BlobGas(msg) > 0 && !(ctx.noBaseFee && msg.blobGasFeeCap == 0)
              && msg.blobGasFeeCap < ctx.blobBaseFee then Some(BlobFeeCapTooLow)
      else if msg.payload.auths.Some? && msg.to.None? then Some(SetCodeTxCreate)
      else if msg.payload.auths == Some(0) then Some(EmptyAuthList)
      else None
  }

  /** The tip per gas paid to the coinbase. */
  ghost function EffectiveTip(msg: Message, ctx: BlockContext): int {
    if !ctx.rules.london then msg.gasPrice
    else if msg.gasFeeCap - ctx.baseFee > msg.gasTipCap then msg.gasTipCap
    else msg.gasFeeCap - ctx.baseFee
  }

  /** The part of the price per gas that nobody receives. */
  ghost function BurntPerGas(ctx: BlockContext): nat {
    if ctx.rules.london then ctx.baseFee else 0
  }

  /** NoBaseFee is on and the message offers no fee at all: the fee checks and the tip are skipped. */
  ghost predicate TipSkipped(msg: Message, ctx: BlockContext) {
    ctx.noBaseFee && msg.gasFeeCap == 0 && msg.gasTipCap == 0
  }

  /** What the coinbase gets per gas, and what is burnt per gas; both nothing when the tip is skipped. */
  ghost function TipPaid(msg: Message, ctx: BlockContext): int {
    if TipSkipped(msg, ctx) then 0 else EffectiveTip(msg, ctx)
  }

  ghost function Burnt(msg: Message, ctx: BlockContext): nat {
    if TipSkipped(msg, ctx) then 0 else BurntPerGas(ctx)
  }

  /** The blob fee cap covers the blob base fee: the check that NoBaseFee skips for a zero cap. */
  ghost predicate BlobFeeCapped(msg: Message, ctx: BlockContext) {
    ctx.rules.cancun && BlobUnits(msg) > 0 ==> msg.blobGasFeeCap >= ctx.blobBaseFee
  }

  /** What the blob fee exceeds its cap by is no more than what the gas costs less than its cap. */
  ghost predicate PurchaseCovered(msg: Message, ctx: BlockContext) {
    ctx.rules.cancun ==>
      BlobUnits(msg) * ctx.blobBaseFee <=
      BlobUnits(msg) * msg.blobGasFeeCap + msg.gasLimit * (msg.gasFeeCap - msg.gasPrice)
  }

  /** A message priced for its block whose blob fee is covered, be it by the check alone. */
  ghost predicate Payable(msg: Message, ctx: BlockContext) {
    PricedFor(msg, ctx) && (!ctx.noBaseFee || PurchaseCovered(msg, ctx))
  }

  // ----- Facts about the fees -----

  /** Every message built from a transaction of the block is priced for it; before London only legacy fees exist. It
    says what the transaction says, and skips no check. */
  lemma MessagePriced(tx: Transaction, ctx: BlockContext)
    requires !ctx.rules.london ==> tx.fee.Legacy?
    ensures PricedFor(TransactionToMessage(tx, HeaderBaseFee(ctx)), ctx)
    ensures var msg := TransactionToMessage(tx, HeaderBaseFee(ctx));
            && msg.from == tx.from && msg.nonce == tx.nonce && msg.to == tx.to && msg.value == tx.value
            && msg.gasLimit == tx.gas && msg.payload == tx.payload
            && msg.blobHashes == tx.blobHashes && msg.blobGasFeeCap == tx.blobFeeCap
            && msg.gasFeeCap == (if tx.fee.Legacy? then tx.fee.price else tx.fee.feeCap)
            && msg.gasTipCap == (if tx.fee.Legacy? then tx.fee.price else tx.fee.tipCap)
            && !msg.skipNonceChecks && !msg.skipFromEOACheck
  {
  }

  /** Once the fee checks pass, the price is what is burnt plus what the coinbase gets, which is never negative,
    although the tip the source computes is, exactly when it is skipped under a base fee. */
  lemma FeesSplit(msg: Message, ctx: BlockContext, w: World)
    requires PricedFor(msg, ctx) && FeeChecks(msg, ctx, w) == None
    ensures msg.gasPrice == Burnt(msg, ctx) + TipPaid(msg, ctx) && TipPaid(msg, ctx) >= 0
    ensures EffectiveTip(msg, ctx) < 0 <==> TipSkipped(msg, ctx) && BurntPerGas(ctx) > 0
    ensures ctx.rules.london ==> TipPaid(msg, ctx) <= msg.gasTipCap && msg.gasPrice <= msg.gasFeeCap
  {
  }

  /** Once the fee checks pass, the balance required pays for the purchase and the transferred value if and only if the
    blob fee is covered. A blob fee cap not below the blob base fee covers it, and is needed when the gas costs its full
    cap; only NoBaseFee with a zero blob fee cap can let a message pass without. */
  lemma RequiredSuffices(msg: Message, ctx: BlockContext, w: World)
    requires PricedFor(msg, ctx) && FeeChecks(msg, ctx, w) == None
    ensures Purchase(msg, ctx) + msg.value <= Required(msg, ctx) <==> PurchaseCovered(msg, ctx)
    ensures BlobFeeCapped(msg, ctx) ==> PurchaseCovered(msg, ctx)
    ensures msg.gasPrice == msg.gasFeeCap ==> (PurchaseCovered(msg, ctx) <==> BlobFeeCapped(msg, ctx))
    ensures !BlobFeeCapped(msg, ctx) ==>
              ctx.noBaseFee && ctx.rules.cancun && BlobUnits(msg) > 0 && msg.blobGasFeeCap == 0 && ctx.blobBaseFee > 0
  {
    CapSlack(msg.gasLimit, msg.gasFeeCap, msg.gasPrice);
    if ctx.rules.cancun && BlobUnits(msg) > 0 {
      Compare(BlobUnits(msg), ctx.blobBaseFee, msg.blobGasFeeCap);
    }
  }

  lemma CapSlack(limit: nat, cap: nat, price: nat)
    requires price <= cap
    ensures limit * cap == limit * price + limit * (cap - price)
  {
  }

  lemma Compare(n: nat, a: nat, b: nat)
    requires n > 0
    ensures n * a <= n * b <==> a <= b
  {
    if a > b {
      assert n * a == n * b + n * (a - b);
    }
  }

  /** The purchase takes exactly its price from the sender if and only if the sender has it. With what is required and a
    covered blob fee the sender also keeps enough for the value; with no more than what is required, only then. */
  lemma PurchaseExact(msg: Message, ctx: BlockContext, w: World)
    requires PricedFor(msg, ctx) && FeeChecks(msg, ctx, w) == None
    requires BalanceOf(w.balances, msg.from) >= Required(msg, ctx) && Total(w.balances) < TWO_256
    ensures BalanceOf(Bought(msg, ctx, w).balances, msg.from) ==
              BalanceOf(w.balances, msg.from) - Purchase(msg, ctx) <==>
            Purchase(msg, ctx) <= BalanceOf(w.balances, msg.from)
    ensures PurchaseCovered(msg, ctx) ==>
              && Purchase(msg, ctx) + msg.value <= BalanceOf(w.balances, msg.from)
              && Total(Bought(msg, ctx, w).balances) == Total(w.balances) - Purchase(msg, ctx)
              && BalanceOf(Bought(msg, ctx, w).balances, msg.from) >= msg.value
    ensures BalanceOf(w.balances, msg.from) == Required(msg, ctx) && !PurchaseCovered(msg, ctx) ==>
              BalanceOf(w.balances, msg.from) < Purchase(msg, ctx) + msg.value
  {
    RequiredSuffices(msg, ctx, w);
    if Purchase(msg, ctx) <= BalanceOf(w.balances, msg.from) {
      SubExact(w.balances, msg.from, Purchase(msg, ctx));
    }
  }

  /** Once the gas has been bought its price fits in 256 bits, so the conversion when gas is returned cannot panic. */
  lemma {:induction false} PriceFits(msg: Message, ctx: BlockContext, w: World)
    requires PricedFor(msg, ctx) && msg.gasLimit > 0
    requires BalanceOf(w.balances, msg.from) >= Required(msg, ctx) && Total(w.balances) < TWO_256
    ensures msg.gasPrice < TWO_256
  {
    TotalUpdate(w.balances, msg.from, 0);
    Compare(msg.gasLimit, msg.gasPrice, msg.gasFeeCap);
    Times(msg.gasLimit, msg.gasFeeCap);
  }

  lemma Times(n: nat, a: nat)
    requires n > 0
    ensures a <= n * a
  {
  }

  lemma SubExact(m: BalanceMap, a: Address, x: nat)
    requires x <= BalanceOf(m, a) && Total(m) < TWO_256
    ensures Total(SubBalance(m, a, x % TWO_256)) == Total(m) - x
    ensures BalanceOf(SubBalance(m, a, x % TWO_256), a) == BalanceOf(m, a) - x
    ensures x <= Total(m)
  {
    TotalUpdate(m, a, 0);
    ModSmall(x);
    SubTotal(m, a, x);
  }

  /** Such a message: without a blob fee cap it passes the checks although buying its gas underflows the sender. */
  lemma NoBaseFeeUnderflows()
    ensures exists msg, ctx, w ::
              PricedFor(msg, ctx) && ctx.noBaseFee && FeeChecks(msg, ctx, w) == None && !BlobFeeCapped(msg, ctx)
              && BalanceOf(w.balances, msg.from) >= Required(msg, ctx)
                 && BalanceOf(w.balances, msg.from) < Purchase(msg, ctx)
  {
    var rules := Rules(true, true, true, true, GasRules(true, true, true));
    var ctx := BlockContext(rules, 7, 1, 9, true);
    var payload := Payload([], None, None, false);
    var tx := Transaction(1, 0, 21000, Dynamic(0, 0), 0, Some(2), payload, Some([true]), 0);
    var msg := TransactionToMessage(tx, HeaderBaseFee(ctx));
    var w := World(map[], map[], {});
    assert |msg.blobHashes.value| == 1;
    assert BlobGas(msg) == BLOB_TX_BLOB_GAS_PER_BLOB;
    assert FeeChecks(msg, ctx, w) == None;
    assert Required(msg, ctx) == 0 && Purchase(msg, ctx) == 131072;
  }

  /** The world after buying the gas. */
  ghost function Bought(msg: Message, ctx: BlockContext, w: World): World {
    w.(balances := SubBalance(w.balances, msg.from, Purchase(msg, ctx) % TWO_256))
  }

  // ----- Why a message is rejected -----

  /** What an error says of a message, of the world it meets and of the gas left in the block. */
  ghost predicate Violates(e: TxError, msg: Message, ctx: BlockContext, w: World, pool: nat) {
    if Rank(e) < 14 then IllFormed(e, msg, ctx, w) else Unpaid(e, msg, ctx, w, pool)
  }

  /** The errors found before anything is bought. */
  ghost predicate IllFormed(e: TxError, msg: Message, ctx: BlockContext, w: World)
    requires Rank(e) < 14
  {
    var feesChecked := ctx.rules.london && !(ctx.noBaseFee && msg.gasFeeCap == 0 && msg.gasTipCap == 0);
    match e
    case NonceTooHigh => !msg.skipNonceChecks && msg.nonce > NonceOf(w, msg.from)
    case NonceTooLow => !msg.skipNonceChecks && msg.nonce < NonceOf(w, msg.from)
    case NonceMax => !msg.skipNonceChecks && NonceOf(w, msg.from) >= 0xFFFF_FFFF_FFFF_FFFF
    case SenderNoEOA => !msg.skipFromEOACheck && msg.from in w.coded
    case FeeCapVeryHigh => feesChecked && msg.gasFeeCap >= LIMIT_256
    case TipVeryHigh => feesChecked && msg.gasTipCap >= LIMIT_256
    case TipAboveFeeCap => feesChecked && msg.gasTipCap > msg.gasFeeCap
    case FeeCapTooLow => feesChecked && msg.gasFeeCap < ctx.baseFee
    case BlobTxCreate => msg.blobHashes.Some? && msg.to.None?
    case MissingBlobHashes => msg.blobHashes.Some? && |msg.blobHashes.value| == 0
    case BadBlobVersion =>
      msg.blobHashes.Some? && exists i :: 0 <= i < |msg.blobHashes.value| && !msg.blobHashes.value[i]
    case BlobFeeCapTooLow =>
      && ctx.rules.cancun && msg.blobHashes.Some? && |msg.blobHashes.value| > 0
      && msg.blobGasFeeCap < ctx.blobBaseFee && !(ctx.noBaseFee && msg.blobGasFeeCap == 0)
    case SetCodeTxCreate => msg.payload.auths.Some? && msg.to.None?
    case EmptyAuthList => msg.payload.auths == Some(0)
  }

  /** The errors found when gas is bought and afterwards. */
  ghost predicate Unpaid(e: TxError, msg: Message, ctx: BlockContext, w: World, pool: nat)
    requires Rank(e) >= 14
  {
    var intrinsic, floor := Intrinsic(GasPayload(msg), ctx.rules.gas), FloorCost(msg.payload.data);
    match e
    case InsufficientFunds => Required(msg, ctx) >= LIMIT_256 || BalanceOf(w.balances, msg.from) < Required(msg, ctx)
    case GasLimitReached => msg.gasLimit > pool
    case GasUintOverflow => intrinsic.None? || (intrinsic.value <= msg.gasLimit && ctx.rules.prague && floor.None?)
    case IntrinsicGasTooLow => intrinsic.Some? && msg.gasLimit < intrinsic.value
    case FloorDataGasTooLow => ctx.rules.prague && floor.Some? && msg.gasLimit < floor.value
    case InsufficientFundsForTransfer =>
      msg.value >= LIMIT_256 || (msg.value > 0 && BalanceOf(Bought(msg, ctx, w).balances, msg.from) < msg.value)
    case MaxInitCodeSizeExceeded => ctx.rules.shanghai && msg.to.None? && |msg.payload.data| > 49152
  }

  ghost const LIMIT_256: nat := 0x1_0000000000000000_0000000000000000_0000000000000000_0000000000000000

  /** The order in which the source looks for errors. */
  ghost function Rank(e: TxError): nat {
    match e
    case NonceTooHigh => 0 case NonceTooLow => 1 case NonceMax => 2 case SenderNoEOA => 3
    case FeeCapVeryHigh => 4 case TipVeryHigh => 5 case TipAboveFeeCap => 6 case FeeCapTooLow => 7
    case BlobTxCreate => 8 case MissingBlobHashes => 9 case BadBlobVersion => 10 case BlobFeeCapTooLow => 11
    case SetCodeTxCreate => 12 case EmptyAuthList => 13
    case InsufficientFunds => 14 case GasLimitReached => 15
    case GasUintOverflow => 16 case IntrinsicGasTooLow => 17 case FloorDataGasTooLow => 18
    case InsufficientFundsForTransfer => 19 case MaxInitCodeSizeExceeded => 20
  }

  /** None of the errors with lo <= rank < hi applies. */
  ghost predicate Passes(msg: Message, ctx: BlockContext, w: World, pool: nat, lo: nat, hi: nat) {
    forall e | lo <= Rank(e) < hi :: !Violates(e, msg, ctx, w, pool)
  }

  /** The message is rejected with the first error that applies. */
  ghost predicate Rejects(e: TxError, msg: Message, ctx: BlockContext, w: World, pool: nat) {
    Violates(e, msg, ctx, w, pool) && Passes(msg, ctx, w, pool, 0, Rank(e))
  }

  /** No error applies. */
  ghost predicate Accepts(msg: Message, ctx: BlockContext, w: World, pool: nat) {
    forall e :: !Violates(e, msg, ctx, w, pool)
  }

  /** The checks before buying gas find the first error that applies, if it is one of theirs. */
  lemma {:induction false} FeeChecksFirst(msg: Message, ctx: BlockContext, w: World, pool: nat)
    ensures FeeChecks(msg, ctx, w).Some? ==>
              Rank(FeeChecks(msg, ctx, w).value) < 14 && Rejects(FeeChecks(msg, ctx, w).value, msg, ctx, w, pool)
    ensures FeeChecks(msg, ctx, w).None? ==> Passes(msg, ctx, w, pool, 0, 14)
  {
    if msg.blobHashes.Some? {
      assert false in msg.blobHashes.value <==> exists i :: 0 <= i < |msg.blobHashes.value| && !msg.blobHashes.value[i];
      assert BlobGas(msg) > 0 <==> |msg.blobHashes.value| > 0;
    }
  }

  // ----- What a message does -----

  /** The world given to the EVM differs from a world in one nonce: a plain call has raised the sender's, a creation
    leaves that to the EVM. */
  ghost predicate GivenTo(msg: Message, w: World, given: World) {
    && given.balances == w.balances && given.coded == w.coded
    && (msg.to.None? ==> given.nonces == w.nonces)
    && (msg.to.Some? ==> NonceOf(given, msg.from) == (NonceOf(w, msg.from) + 1) % 0x1_0000_0000_0000_0000)
    && (forall a | a != msg.from :: NonceOf(given, a) == NonceOf(w, a))
  }

  // ----- The transition -----

  class StateTransition {
    const gp: GasPool
    const msg: Message
    const ctx: BlockContext
    var gasRemaining: nat
    var initialGas: nat
    var world: World

    constructor (gp: GasPool, msg: Message, ctx: BlockContext, world: World)
      ensures this.gp == gp && this.msg == msg && this.ctx == ctx && this.world == world
      ensures gasRemaining == 0 && initialGas == 0
    {
      this.gp, this.msg, this.ctx, this.world, gasRemaining, initialGas := gp, msg, ctx, world, 0, 0;
    }

    /** Gas and money are 64-bit and 256-bit words. */
    ghost predicate Words()
      reads this, gp
    {
      gp.Valid() && msg.gasLimit <= MAX_UINT64 && Total(world.balances) < TWO_256
    }

    /** Takes the gas from the pool and its price from the sender, if the sender has what is required. */
    method BuyGas() returns (error: Option<TxError>)
      requires Words()
      modifies this, gp
      ensures gp.Valid()
      ensures error == if Required(msg, ctx) >= TWO_256 || BalanceOf(old(world).balances, msg.from) < Required(msg, ctx)
              then Some(InsufficientFunds)
                       else if old(gp.gas) < msg.gasLimit then Some(GasLimitReached) else None
      ensures error.Some? ==> world == old(world) && gp.gas == old(gp.gas)
      ensures error.None? ==> gp.gas == old(gp.gas) - msg.gasLimit && gasRemaining == initialGas == msg.gasLimit
      ensures error.None? ==> world == Bought(msg, ctx, old(world))
    {
      var mgval := msg.gasLimit * msg.gasPrice;
      var balanceCheck := msg.gasLimit * msg.gasFeeCap;
      balanceCheck := balanceCheck + msg.value;
      if ctx.rules.cancun {
        var blobGas := BlobGas(msg);
        if blobGas > 0 {
          balanceCheck := balanceCheck + blobGas * msg.blobGasFeeCap;
          mgval := mgval + blobGas * ctx.blobBaseFee;
        }
      }
      assert balanceCheck == Required(msg, ctx) && mgval == Purchase(msg, ctx);
      if balanceCheck >= TWO_256 || BalanceOf(world.balances, msg.from) < balanceCheck {
        return Some(InsufficientFunds);
      }
      var ok := gp.SubGas(msg.gasLimit);
      if !ok {
        return Some(GasLimitReached);
      }
      gasRemaining := msg.gasLimit;
      initialGas := msg.gasLimit;
      world := world.(balances := SubBalance(world.balances, msg.from, mgval % TWO_256));
      return None;
    }

    /** All consensus checks before execution, ending with the purchase. */
    method PreCheck() returns (error: Option<TxError>)
      requires Words()
      modifies this, gp
      ensures gp.Valid()
      ensures error.Some? ==> Rank(error.value) < 16 && Rejects(error.value, msg, ctx, old(world), old(gp.gas))
      ensures error.None? ==> Passes(msg, ctx, old(world), old(gp.gas), 0, 16)
      ensures error.Some? ==> world == old(world) && gp.gas == old(gp.gas)
      ensures error.None? ==>
                FeeChecks(msg, ctx, old(world)) == None
                && BalanceOf(old(world).balances, msg.from) >= Required(msg, ctx)
      ensures error.None? ==> gp.gas == old(gp.gas) - msg.gasLimit && gasRemaining == initialGas == msg.gasLimit
      ensures error.None? ==> world == Bought(msg, ctx, old(world))
    {
      FeeChecksFirst(msg, ctx, world, gp.gas);
      error := FeeChecks(msg, ctx, world);
      if error.Some? {
        return;
      }
      error := BuyGas();
      BuyingFirst(msg, ctx, old(world), old(gp.gas), error);
    }

    /** Buying gas adds the two errors of its own. */
    static lemma {:induction false} BuyingFirst(msg: Message, ctx: BlockContext, w: World, pool: nat,
                                                error: Option<TxError>)
      requires Passes(msg, ctx, w, pool, 0, 14)
      requires error == if Required(msg, ctx) >= TWO_256 || BalanceOf(w.balances, msg.from) < Required(msg, ctx)
               then Some(InsufficientFunds)
               else if pool < msg.gasLimit then Some(GasLimitReached) else None
      ensures error.Some? ==> Rank(error.value) < 16 && Rejects(error.value, msg, ctx, w, pool)
      ensures error.None? ==> Passes(msg, ctx, w, pool, 0, 16)
    {
      assert Violates(InsufficientFunds, msg, ctx, w, pool) <==>
             Required(msg, ctx) >= TWO_256 || BalanceOf(w.balances, msg.from) < Required(msg, ctx);
      assert Violates(GasLimitReached, msg, ctx, w, pool) <==> pool < msg.gasLimit;
    }

    /** The checks between the purchase and the call: intrinsic gas, floor, transfer funds and init code size. */
    method Prepare(ghost before: World, ghost pool: nat) returns (error: Option<TxError>, floor: nat)
      requires gasRemaining == msg.gasLimit && world == Bought(msg, ctx, before)
      modifies this`gasRemaining
      ensures error.Some? ==>
                && Rank(error.value) >= 16 && Violates(error.value, msg, ctx, before, pool)
                && Passes(msg, ctx, before, pool, 16, Rank(error.value))
      ensures error.None? ==> Passes(msg, ctx, before, pool, 16, 21)
      ensures error.None? ==> Intrinsic(GasPayload(msg), ctx.rules.gas).Some?
      ensures error.None? ==> gasRemaining == msg.gasLimit - Intrinsic(GasPayload(msg), ctx.rules.gas).value
      ensures error.None? ==> FloorIs(msg, ctx, floor) && floor <= msg.gasLimit
      ensures error == Some(InsufficientFundsForTransfer) ==>
                msg.value >= TWO_256 || (msg.value > 0 && BalanceOf(world.balances, msg.from) < msg.value)
    {
      error, floor := ChargeCosts(before, pool);
      if error.Some? {
        return;
      }
      error := CheckTransfer(before, pool);
    }

    /** Takes the intrinsic gas, and checks the floor. */
    method ChargeCosts(ghost before: World, ghost pool: nat) returns (error: Option<TxError>, floor: nat)
      requires gasRemaining == msg.gasLimit
      modifies this`gasRemaining
      ensures error.Some? ==>
                && 16 <= Rank(error.value) < 19 && Violates(error.value, msg, ctx, before, pool)
                && Passes(msg, ctx, before, pool, 16, Rank(error.value))
      ensures error.None? ==> Passes(msg, ctx, before, pool, 16, 19)
      ensures error.None? ==> Intrinsic(GasPayload(msg), ctx.rules.gas).Some?
      ensures error.None? ==> gasRemaining == msg.gasLimit - Intrinsic(GasPayload(msg), ctx.rules.gas).value
      ensures error.None? ==> FloorIs(msg, ctx, floor) && floor <= msg.gasLimit
    {
      floor := 0;
      var gas := IntrinsicGas(GasPayload(msg), ctx.rules.gas);
      if gas.None? {
        return Some(GasUintOverflow), 0;
      }
      if gasRemaining < gas.value {
        return Some(IntrinsicGasTooLow), 0;
      }
      if ctx.rules.prague {
        var f := FloorDataGas(msg.payload.data);
        if f.None? {
          return Some(GasUintOverflow), 0;
        }
        floor := f.value;
        if msg.gasLimit < floor {
          return Some(FloorDataGasTooLow), floor;
        }
      }
      gasRemaining := gasRemaining - gas.value;
      return None, floor;
    }

    /** Checks that the value can be transferred, and the size of init code. */
    method CheckTransfer(ghost before: World, ghost pool: nat) returns (error: Option<TxError>)
      requires world == Bought(msg, ctx, before) && Passes(msg, ctx, before, pool, 16, 19)
      ensures error.Some? ==>
                && Rank(error.value) >= 19 && Violates(error.value, msg, ctx, before, pool)
                && Passes(msg, ctx, before, pool, 16, Rank(error.value))
      ensures error.None? ==> Passes(msg, ctx, before, pool, 16, 21)
      ensures error == Some(InsufficientFundsForTransfer) ==>
                msg.value >= TWO_256 || (msg.value > 0 && BalanceOf(world.balances, msg.from) < msg.value)
    {
      error := None;
      if msg.value >= TWO_256 {
        error := Some(InsufficientFundsForTransfer);
      } else if msg.value != 0 && BalanceOf(world.balances, msg.from) < msg.value {
        error := Some(InsufficientFundsForTransfer);
      } else if ctx.rules.shanghai && msg.to.None? && |msg.payload.data| > MAX_INIT_CODE_SIZE {
        error := Some(MaxInitCodeSizeExceeded);
      }
      assert Violates(InsufficientFundsForTransfer, msg, ctx, before, pool) <==>
             msg.value >= TWO_256 || (msg.value > 0 && BalanceOf(world.balances, msg.from) < msg.value);
      assert Violates(MaxInitCodeSizeExceeded, msg, ctx, before, pool) <==>
             ctx.rules.shanghai && msg.to.None? && |msg.payload.data| > MAX_INIT_CODE_SIZE;
    }

    /** The refund is the most that neither exceeds the counter nor, taken twice before London and five times from then
      on, the gas used. */
    method CalcRefund(refundCounter: nat) returns (refund: nat)
      requires gasRemaining <= initialGas
      ensures MayRefund(initialGas - gasRemaining, refundCounter, ctx.rules.london, refund)
      ensures !MayRefund(initialGas - gasRemaining, refundCounter, ctx.rules.london, refund + 1)
    {
      var gasUsed := initialGas - gasRemaining;
      refund := if !ctx.rules.london then gasUsed / REFUND_QUOTIENT else gasUsed / REFUND_QUOTIENT_EIP3529;
      if refund > refundCounter {
        refund := refundCounter;
      }
      CappedIsMost(gasUsed, refundCounter, ctx.rules.london, refund);
    }

    /** Gives the remaining gas back, to the sender in money and to the pool in gas. */
    method ReturnGas() returns (panicked: bool)
      requires gp.Valid() && gasRemaining <= MAX_UINT64
      modifies this`world, gp
      ensures gp.Valid() && (panicked <==> old(gp.gas) + gasRemaining > MAX_UINT64)
      ensures !panicked ==> gp.gas == old(gp.gas) + gasRemaining
      ensures world == old(world).(balances :=
                                   AddBalance(old(world).balances, msg.from, gasRemaining * msg.gasPrice % TWO_256))
    {
      var remaining := gasRemaining * msg.gasPrice % TWO_256;
      world := world.(balances := AddBalance(world.balances, msg.from, remaining));
      panicked := gp.AddGas(gasRemaining);
    }

    /** Pays the coinbase, unless the fees were disabled. */
    method PayTip()
      requires gasRemaining <= initialGas
      modifies this`world
      ensures world == if TipSkipped(msg, ctx) then old(world)
                       else old(world).(balances := AddBalance(old(world).balances, ctx.coinbase,
                                          (initialGas - gasRemaining) * (EffectiveTip(msg, ctx) % TWO_256) % TWO_256))
    {
      var effectiveTip: int := msg.gasPrice;
      if ctx.rules.london {
        effectiveTip := msg.gasFeeCap - ctx.baseFee;
        if effectiveTip > msg.gasTipCap {
          effectiveTip := msg.gasTipCap;
        }
      }
      if !(ctx.noBaseFee && msg.gasFeeCap == 0 && msg.gasTipCap == 0) {
        var fee := (initialGas - gasRemaining) * (effectiveTip % TWO_256) % TWO_256;
        world := world.(balances := AddBalance(world.balances, ctx.coinbase, fee));
      }
    }

    /** Everything after the call: refund, floor, return of gas, tip. */
    method Settle(refundCounter: nat, floor: nat) returns (refund: nat, panicked: bool)
      requires gp.Valid() && gasRemaining <= initialGas <= MAX_UINT64 && floor <= initialGas
      requires !ctx.rules.prague ==> floor == 0
      modifies this, gp
      ensures gp.Valid() && initialGas == old(initialGas) && gasRemaining <= initialGas
      ensures initialGas - gasRemaining ==
                ChargedGas(initialGas - old(gasRemaining), refundCounter, floor, ctx.rules.london)
      ensures refund == CappedRefund(initialGas - old(gasRemaining), refundCounter, ctx.rules.london)
      ensures panicked <==> old(gp.gas) + gasRemaining > MAX_UINT64
      ensures !panicked ==> gp.gas == old(gp.gas) + gasRemaining
      ensures world == old(world).(balances := Settled(msg, ctx, old(world).balances, gasRemaining,
                                                        initialGas - gasRemaining))
    {
      refund := ChargeGas(refundCounter, floor);
      panicked := ReturnGas();
      PayTip();
    }

    /** Adds the capped refund, and takes gas away again to reach the floor. */
    method ChargeGas(refundCounter: nat, floor: nat) returns (refund: nat)
      requires gasRemaining <= initialGas <= MAX_UINT64 && floor <= initialGas
      requires !ctx.rules.prague ==> floor == 0
      modifies this`gasRemaining
      ensures gasRemaining <= initialGas
      ensures initialGas - gasRemaining ==
                ChargedGas(initialGas - old(gasRemaining), refundCounter, floor, ctx.rules.london)
      ensures refund == CappedRefund(initialGas - old(gasRemaining), refundCounter, ctx.rules.london)
    {
      refund := CalcRefund(refundCounter);
      CappedIsMost(initialGas - gasRemaining, refundCounter, ctx.rules.london, refund);
      WordFits(gasRemaining + refund);
      gasRemaining := (gasRemaining + refund) % TWO_64;
      if ctx.rules.prague {
        if initialGas - gasRemaining < floor {
          gasRemaining := initialGas - floor;
        }
      }
    }

    /** Applies the message. It is rejected with the first error that applies, and applied when none does: then the EVM
      has got the gas above the intrinsic cost and a world that differs in the price and the nonce; the gas charged is
      what was spent less the most that may be refunded, at least the floor, and exactly it leaves the pool; nonces and
      code are as the EVM left them; and, when the message is payable, the total balance falls by exactly the burnt
      fees. */
    method Execute(evm: Evm)
      returns (r: Result<ExecutionResult, TxError>, panicked: bool, ghost call: EvmResult, ghost floor: nat,
               ghost given: World)
      requires Words() && SoundEvm(evm)
      modifies this, gp
      ensures gp.Valid() && !panicked
      ensures r.Err? ==> Rejects(r.error, msg, ctx, old(world), old(gp.gas))
      ensures r.Ok? ==> Accepts(msg, ctx, old(world), old(gp.gas))
      ensures r.Ok? ==> Applied(msg, ctx, evm, old(world), r.value, call, floor, given, world)
                        && gp.gas == old(gp.gas) - r.value.usedGas
      ensures r.Ok? && Payable(msg, ctx) ==>
                Total(world.balances) == Total(old(world).balances) - r.value.usedGas * Burnt(msg, ctx)
                  - BlobCost(msg, ctx)
      ensures Payable(msg, ctx) ==> r != Err(InsufficientFundsForTransfer)
    {
      ghost var before := world;
      r, panicked, call, floor, given := Perform(evm);
      if r.Ok? {
        AppliedTotal(msg, ctx, evm, before, r.value, call, floor, given, world);
      }
    }

    /** The same without the total. */
    method Perform(evm: Evm)
      returns (r: Result<ExecutionResult, TxError>, panicked: bool, ghost call: EvmResult, ghost floor: nat,
               ghost given: World)
      requires Words() && SoundEvm(evm)
      modifies this, gp
      ensures gp.Valid() && !panicked
      ensures r.Err? ==> Rejects(r.error, msg, ctx, old(world), old(gp.gas))
      ensures r.Ok? ==> Accepts(msg, ctx, old(world), old(gp.gas))
      ensures r.Ok? ==> FeeChecks(msg, ctx, old(world)) == None
                        && BalanceOf(old(world).balances, msg.from) >= Required(msg, ctx)
                        && Total(call.world.balances) == Total(Bought(msg, ctx, old(world)).balances)
      ensures r.Ok? ==> Applied(msg, ctx, evm, old(world), r.value, call, floor, given, world)
                        && gp.gas == old(gp.gas) - r.value.usedGas
      ensures Payable(msg, ctx) ==> r != Err(InsufficientFundsForTransfer)
    {
      ghost var before := world;
      call, floor, given, panicked := EvmResult(world, 0, 0, false), 0, world, false;
      var error, f := CheckAndBuy();
      if error.Some? {
        return Err(error.value), panicked, call, floor, given;
      }
      var result;
      result, panicked, call, given := CallAndSettle(evm, f, before);
      floor := f;
      r := Ok(result);
    }

    /** The call of an accepted message, and what follows it. */
    method CallAndSettle(evm: Evm, floor: nat, ghost before: World)
      returns (r: ExecutionResult, panicked: bool, ghost call: EvmResult, ghost given: World)
      requires gp.Valid() && SoundEvm(evm) && gp.gas + msg.gasLimit <= MAX_UINT64
      requires Intrinsic(GasPayload(msg), ctx.rules.gas).Some?
      requires gasRemaining == msg.gasLimit - Intrinsic(GasPayload(msg), ctx.rules.gas).value
               && initialGas == msg.gasLimit
      requires FloorIs(msg, ctx, floor) && floor <= msg.gasLimit && world == Bought(msg, ctx, before)
      modifies this, gp
      ensures gp.Valid() && !panicked
      ensures Total(call.world.balances) == Total(Bought(msg, ctx, before).balances)
      ensures Applied(msg, ctx, evm, before, r, call, floor, given, world)
      ensures gp.gas == old(gp.gas) + msg.gasLimit - r.usedGas
    {
      var result, used, refund;
      result, used, refund, panicked, given := Call(evm, floor);
      r := ExecutionResult(used, refund, result.failed);
      call := result;
      IsApplied(msg, ctx, evm, before, r, call, floor, given, world);
    }

    lemma {:induction false} PreparedFirst(error: Option<TxError>, w: World, pool: nat)
      requires Passes(msg, ctx, w, pool, 0, 16)
      requires error.Some? ==> Rank(error.value) >= 16 && Violates(error.value, msg, ctx, w, pool)
                               && Passes(msg, ctx, w, pool, 16, Rank(error.value))
      requires error.None? ==> Passes(msg, ctx, w, pool, 16, 21)
      ensures error.Some? ==> Rejects(error.value, msg, ctx, w, pool)
      ensures error.None? ==> Accepts(msg, ctx, w, pool)
    {
      forall e | error.None? ensures !Violates(e, msg, ctx, w, pool) {
        assert 0 <= Rank(e) < 16 || 16 <= Rank(e) < 21;
      }
      forall e | error.Some? && Rank(e) < Rank(error.value) ensures !Violates(e, msg, ctx, w, pool) {
        assert 0 <= Rank(e) < 16 || 16 <= Rank(e) < Rank(error.value);
      }
    }

    /** Everything before the call. */
    method CheckAndBuy() returns (error: Option<TxError>, floor: nat)
      requires Words()
      modifies this, gp
      ensures gp.Valid()
      ensures error.Some? ==> Rejects(error.value, msg, ctx, old(world), old(gp.gas))
      ensures error.None? ==> Accepts(msg, ctx, old(world), old(gp.gas))
      ensures Payable(msg, ctx) ==> error != Some(InsufficientFundsForTransfer)
      ensures error.None? ==>
                FeeChecks(msg, ctx, old(world)) == None
                && BalanceOf(old(world).balances, msg.from) >= Required(msg, ctx)
      ensures error.None? ==> world == Bought(msg, ctx, old(world))
      ensures error.None? ==> gp.gas == old(gp.gas) - msg.gasLimit && initialGas == msg.gasLimit
      ensures error.None? ==> Intrinsic(GasPayload(msg), ctx.rules.gas).Some?
      ensures error.None? ==> gasRemaining == msg.gasLimit - Intrinsic(GasPayload(msg), ctx.rules.gas).value
      ensures error.None? ==> FloorIs(msg, ctx, floor) && floor <= msg.gasLimit
    {
      ghost var before := world;
      error := PreCheck();
      floor := 0;
      if error.Some? {
        return;
      }
      if Payable(msg, ctx) {
        RequiredSuffices(msg, ctx, before);
        PurchaseExact(msg, ctx, before);
      }
      error, floor := Prepare(before, old(gp.gas));
      PreparedFirst(error, before, old(gp.gas));
    }

    /** The EVM call and what follows it. */
    method Call(evm: Evm, floor: nat)
      returns (result: EvmResult, used: nat, refund: nat, panicked: bool, ghost given: World)
      requires gp.Valid() && SoundEvm(evm) && gp.gas + msg.gasLimit <= MAX_UINT64
      requires gasRemaining <= initialGas == msg.gasLimit && floor <= msg.gasLimit && (!ctx.rules.prague ==> floor == 0)
      modifies this, gp
      ensures gp.Valid() && !panicked
      ensures Total(result.world.balances) == Total(old(world).balances)
      ensures GivenTo(msg, old(world), given)
      ensures result == evm(given, old(gasRemaining)) && result.gasLeft <= old(gasRemaining)
      ensures CalledWith(evm, old(gasRemaining), result)
      ensures used == ChargedGas(msg.gasLimit - result.gasLeft, result.refund, floor, ctx.rules.london) <= msg.gasLimit
      ensures refund == CappedRefund(msg.gasLimit - result.gasLeft, result.refund, ctx.rules.london)
      ensures gp.gas == old(gp.gas) + msg.gasLimit - used
      ensures world == result.world.(balances := Settled(msg, ctx, result.world.balances, msg.gasLimit - used, used))
    {
      result, given := RunEvm(evm);
      refund, panicked := Settle(result.refund, floor);
      used := initialGas - gasRemaining;
    }

    /** The EVM call. */
    method RunEvm(evm: Evm) returns (result: EvmResult, ghost given: World)
      requires SoundEvm(evm)
      modifies this`world, this`gasRemaining
      ensures GivenTo(msg, old(world), given)
      ensures result == evm(given, old(gasRemaining)) && CalledWith(evm, old(gasRemaining), result)
      ensures Total(result.world.balances) == Total(old(world).balances)
      ensures world == result.world && gasRemaining == result.gasLeft <= old(gasRemaining)
    {
      if msg.to.Some? {
        world := world.(nonces := world.nonces[msg.from := (NonceOf(world, msg.from) + 1) % TWO_64]);
      }
      ghost var g := gasRemaining;
      given := world;
      result := evm(world, gasRemaining);
      assert result == evm(given, g);
      gasRemaining := result.gasLeft;
      world := result.world;
    }
  }

  /** The balances after returning gas and paying the tip. */
  ghost function Settled(msg: Message, ctx: BlockContext, m: BalanceMap, remaining: nat, used: nat): BalanceMap {
    var m' := AddBalance(m, msg.from, remaining * msg.gasPrice % TWO_256);
    if TipSkipped(msg, ctx) then m'
    else AddBalance(m', ctx.coinbase, used * (EffectiveTip(msg, ctx) % TWO_256) % TWO_256)
  }

  /** The result of some EVM call that was given the gas. */
  ghost predicate CalledWith(evm: Evm, gas: nat, call: EvmResult) {
    exists w :: call == evm(w, gas)
  }

  /** The least gas a message pays for: the floor for its data from Prague on. */
  ghost predicate FloorIs(msg: Message, ctx: BlockContext, floor: nat) {
    if ctx.rules.prague then FloorCost(msg.payload.data) == Some(floor) else floor == 0
  }

  /** The gas charged for a call: what it spent with the intrinsic gas, less the capped refund, at least the floor. */
  ghost predicate Charged(msg: Message, ctx: BlockContext, evm: Evm, call: EvmResult, floor: nat, used: nat) {
    && Intrinsic(GasPayload(msg), ctx.rules.gas).Some?
    && Intrinsic(GasPayload(msg), ctx.rules.gas).value <= msg.gasLimit
    && CalledWith(evm, msg.gasLimit - Intrinsic(GasPayload(msg), ctx.rules.gas).value, call)
    && call.gasLeft <= msg.gasLimit
    && FloorIs(msg, ctx, floor)
    && used == ChargedGas(msg.gasLimit - call.gasLeft, call.refund, floor, ctx.rules.london)
    && used <= msg.gasLimit
  }

  /** The refund is the most that neither exceeds the counter nor, taken five times, or twice before London, what was
    spent; the gas used is what was spent less the refund, but no less than the floor. */
  ghost predicate Refunded(msg: Message, ctx: BlockContext, call: EvmResult, refund: nat, floor: nat, used: nat) {
    && call.gasLeft <= msg.gasLimit
    && MayRefund(msg.gasLimit - call.gasLeft, call.refund, ctx.rules.london, refund)
    && !MayRefund(msg.gasLimit - call.gasLeft, call.refund, ctx.rules.london, refund + 1)
    && used == (if msg.gasLimit - call.gasLeft - refund >= floor then msg.gasLimit - call.gasLeft - refund else floor)
  }

  /** What applying a message makes of a world. */
  ghost predicate Applied(msg: Message, ctx: BlockContext, evm: Evm, w: World, r: ExecutionResult, call: EvmResult,
                          floor: nat, given: World, after: World)
  {
    && Charged(msg, ctx, evm, call, floor, r.usedGas)
    && GivenTo(msg, Bought(msg, ctx, w), given)
    && call == evm(given, msg.gasLimit - Intrinsic(GasPayload(msg), ctx.rules.gas).value)
    && Refunded(msg, ctx, call, r.refundedGas, floor, r.usedGas) && r.failed == call.failed
    && after == call.world.(balances := Settled(msg, ctx, call.world.balances, msg.gasLimit - r.usedGas, r.usedGas))
  }

  /** An accepted message, and what some call makes of its world. */
  ghost predicate Outcome(msg: Message, ctx: BlockContext, evm: Evm, w: World, pool: nat, used: nat, failed: bool,
                          after: World)
  {
    && Accepts(msg, ctx, w, pool)
    && exists refund, call, floor, given ::
         Applied(msg, ctx, evm, w, ExecutionResult(used, refund, failed), call, floor, given, after)
  }

  lemma {:induction false} IsCharged(msg: Message, ctx: BlockContext, evm: Evm, call: EvmResult, floor: nat,
                                     refund: nat, used: nat)
    requires Intrinsic(GasPayload(msg), ctx.rules.gas).Some?
             && Intrinsic(GasPayload(msg), ctx.rules.gas).value <= msg.gasLimit
    requires CalledWith(evm, msg.gasLimit - Intrinsic(GasPayload(msg), ctx.rules.gas).value, call)
             && call.gasLeft <= msg.gasLimit
    requires FloorIs(msg, ctx, floor) && floor <= msg.gasLimit
    requires refund == CappedRefund(msg.gasLimit - call.gasLeft, call.refund, ctx.rules.london)
    requires used == ChargedGas(msg.gasLimit - call.gasLeft, call.refund, floor, ctx.rules.london)
    ensures Charged(msg, ctx, evm, call, floor, used) && Refunded(msg, ctx, call, refund, floor, used)
  {
    CappedIsMost(msg.gasLimit - call.gasLeft, call.refund, ctx.rules.london, refund);
  }

  lemma {:induction false} IsApplied(msg: Message, ctx: BlockContext, evm: Evm, w: World, r: ExecutionResult,
                                     call: EvmResult, floor: nat, given: World, after: World)
    requires Intrinsic(GasPayload(msg), ctx.rules.gas).Some?
             && Intrinsic(GasPayload(msg), ctx.rules.gas).value <= msg.gasLimit
    requires CalledWith(evm, msg.gasLimit - Intrinsic(GasPayload(msg), ctx.rules.gas).value, call)
    requires GivenTo(msg, Bought(msg, ctx, w), given)
    requires call == evm(given, msg.gasLimit - Intrinsic(GasPayload(msg), ctx.rules.gas).value)
             && call.gasLeft <= msg.gasLimit
    requires FloorIs(msg, ctx, floor) && floor <= msg.gasLimit
    requires r.refundedGas == CappedRefund(msg.gasLimit - call.gasLeft, call.refund, ctx.rules.london)
    requires r.usedGas == ChargedGas(msg.gasLimit - call.gasLeft, call.refund, floor, ctx.rules.london) <= msg.gasLimit
    requires r.failed == call.failed
    requires after == call.world.(balances :=
                                  Settled(msg, ctx, call.world.balances, msg.gasLimit - r.usedGas, r.usedGas))
    ensures Applied(msg, ctx, evm, w, r, call, floor, given, after)
  {
    IsCharged(msg, ctx, evm, call, floor, r.refundedGas, r.usedGas);
  }

  /** Returning the gas and paying the tip gives back all of the gas purchase but the burnt part. */
  lemma SettleTotal(msg: Message, ctx: BlockContext, total: nat, m: BalanceMap, remaining: nat, used: nat)
    requires TipPaid(msg, ctx) >= 0 && msg.gasPrice == Burnt(msg, ctx) + TipPaid(msg, ctx)
    requires Purchase(msg, ctx) <= total < TWO_256
    requires Total(m) == total - Purchase(msg, ctx) && remaining + used == msg.gasLimit
    ensures Total(Settled(msg, ctx, m, remaining, used)) == total - used * Burnt(msg, ctx) - BlobCost(msg, ctx)
  {
    var tip, burnt := TipPaid(msg, ctx), Burnt(msg, ctx);
    GasSplit(msg.gasLimit, remaining, used, msg.gasPrice, tip, burnt);
    SettleSums(msg, ctx, total, m, remaining, used, tip, remaining * msg.gasPrice, used * tip, used * burnt,
               msg.gasLimit * msg.gasPrice, BlobCost(msg, ctx));
  }

  /** What each account gets when a message is settled: the sender the unused gas at the price paid, the coinbase what
    the used gas was paid above the burnt part, nobody else anything. */
  lemma {:induction false} SettledBalances(msg: Message, ctx: BlockContext, w: World, m: BalanceMap, remaining: nat,
                                           used: nat, a: Address)
    requires PricedFor(msg, ctx) && FeeChecks(msg, ctx, w) == None && remaining + used == msg.gasLimit
    requires Total(m) + msg.gasLimit * msg.gasPrice < TWO_256
    ensures BalanceOf(Settled(msg, ctx, m, remaining, used), a) ==
            BalanceOf(m, a)
            + (if a == msg.from then remaining * msg.gasPrice else 0)
            + (if a == ctx.coinbase then used * (msg.gasPrice - Burnt(msg, ctx)) else 0)
  {
    FeesSplit(msg, ctx, w);
    SettledSplit(msg, ctx, m, remaining, used, a, TipPaid(msg, ctx), msg.gasPrice - Burnt(msg, ctx));
  }

  lemma {:induction false} SettledSplit(msg: Message, ctx: BlockContext, m: BalanceMap, remaining: nat, used: nat,
                                        a: Address, tip: nat, above: nat)
    requires tip == TipPaid(msg, ctx) && above == tip && above == msg.gasPrice - Burnt(msg, ctx)
             && remaining + used == msg.gasLimit
    requires Total(m) + msg.gasLimit * msg.gasPrice < TWO_256
    ensures BalanceOf(Settled(msg, ctx, m, remaining, used), a) ==
            BalanceOf(m, a) + (if a == msg.from then remaining * msg.gasPrice else 0) +
              (if a == ctx.coinbase then used * above else 0)
  {
    GasSplit(msg.gasLimit, remaining, used, msg.gasPrice, tip, Burnt(msg, ctx));
    SettledPays(msg, ctx, m, remaining, used, tip, remaining * msg.gasPrice, used * tip, used * Burnt(msg, ctx),
                msg.gasLimit * msg.gasPrice, a);
  }

  lemma SettledPays(msg: Message, ctx: BlockContext, m: BalanceMap, remaining: nat, used: nat, tip: nat,
                    x: nat, y: nat, z: nat, price: nat, a: Address)
    requires tip == TipPaid(msg, ctx) && x == remaining * msg.gasPrice && y == used * tip
    requires x + y + z == price && Total(m) + price < TWO_256
    ensures BalanceOf(Settled(msg, ctx, m, remaining, used), a) ==
            BalanceOf(m, a) + (if a == msg.from then x else 0) + (if a == ctx.coinbase then y else 0)
  {
    SettledIs(msg, ctx, m, remaining, used, tip, x, y, a);
    PaidBoth(m, msg.from, ctx.coinbase, x, y, a);
  }

  lemma PaidBoth(m: BalanceMap, a: Address, b: Address, x: nat, y: nat, c: Address)
    requires Total(m) + x + y < TWO_256
    ensures BalanceOf(AddBalance(AddBalance(m, a, x), b, y), c) ==
            BalanceOf(m, c) + (if c == a then x else 0) + (if c == b then y else 0)
  {
    AddTotal(m, a, x);
    AddTotal(AddBalance(m, a, x), b, y);
  }

  /** From the purchase to the tip, the total falls by the burnt fees. */
  lemma ExecuteTotal(msg: Message, ctx: BlockContext, w: World, m: BalanceMap, remaining: nat, used: nat)
    requires FeeChecks(msg, ctx, w) == None
    requires BalanceOf(w.balances, msg.from) >= Required(msg, ctx) && Total(w.balances) < TWO_256
    requires Total(m) == Total(Bought(msg, ctx, w).balances) && remaining + used == msg.gasLimit
    ensures Payable(msg, ctx) ==>
              Total(Settled(msg, ctx, m, remaining, used)) ==
                Total(w.balances) - used * Burnt(msg, ctx) - BlobCost(msg, ctx)
  {
    if Payable(msg, ctx) {
      FeesSplit(msg, ctx, w);
      RequiredSuffices(msg, ctx, w);
      PurchaseExact(msg, ctx, w);
      TotalUpdate(w.balances, msg.from, 0);
      SettleTotal(msg, ctx, Total(w.balances), m, remaining, used);
    }
  }

  lemma {:induction false} AppliedTotal(msg: Message, ctx: BlockContext, evm: Evm, w: World, r: ExecutionResult,
                                        call: EvmResult, floor: nat, given: World, after: World)
    requires Applied(msg, ctx, evm, w, r, call, floor, given, after) && FeeChecks(msg, ctx, w) == None
    requires BalanceOf(w.balances, msg.from) >= Required(msg, ctx) && Total(w.balances) < TWO_256
    requires Total(call.world.balances) == Total(Bought(msg, ctx, w).balances)
    ensures Payable(msg, ctx) ==>
              Total(after.balances) == Total(w.balances) - r.usedGas * Burnt(msg, ctx) - BlobCost(msg, ctx)
  {
    ExecuteTotal(msg, ctx, w, call.world.balances, msg.gasLimit - r.usedGas, r.usedGas);
  }

  lemma SettleSums(msg: Message, ctx: BlockContext, total: nat, m: BalanceMap, remaining: nat, used: nat, tip: nat,
                   x: nat, y: nat, z: nat, price: nat, blob: nat)
    requires tip == TipPaid(msg, ctx) && x == remaining * msg.gasPrice && y == used * tip
    requires x + y + z == price && price + blob <= total < TWO_256 && Total(m) == total - price - blob
    ensures Total(Settled(msg, ctx, m, remaining, used)) == total - z - blob
  {
    SettledIs(msg, ctx, m, remaining, used, tip, x, y, 0);
    TwoPayments(m, msg.from, ctx.coinbase, x, y);
  }

  /** Settling a message is two payments; a skipped tip is a payment of nothing. */
  lemma SettledIs(msg: Message, ctx: BlockContext, m: BalanceMap, remaining: nat, used: nat, tip: nat, x: nat, y: nat,
                  a: Address)
    requires tip == TipPaid(msg, ctx) && x == remaining * msg.gasPrice && y == used * tip
    requires x < TWO_256 && y < TWO_256 && Total(m) + x < TWO_256
    ensures var paid := AddBalance(AddBalance(m, msg.from, x), ctx.coinbase, y);
            && Total(Settled(msg, ctx, m, remaining, used)) == Total(paid)
            && BalanceOf(Settled(msg, ctx, m, remaining, used), a) == BalanceOf(paid, a)
  {
    ModSmall(x);
    if TipSkipped(msg, ctx) {
      assert y == 0;
      AddTotal(m, msg.from, x);
      var m' := AddBalance(m, msg.from, x);
      TotalUpdate(m', ctx.coinbase, 0);
      AddTotal(m', ctx.coinbase, 0);
    } else {
      SmallMod(tip, used, y);
    }
  }

  lemma WordFits(x: nat)
    ensures x <= MAX_UINT64 ==> x % TWO_64 == x
  {
  }

  lemma ModSmall(x: nat)
    requires x < TWO_256
    ensures x % TWO_256 == x
  {
  }

  lemma TwoPayments(m: BalanceMap, a: Address, b: Address, x: nat, y: nat)
    requires Total(m) + x + y < TWO_256
    ensures Total(AddBalance(AddBalance(m, a, x), b, y)) == Total(m) + x + y
  {
    AddTotal(m, a, x);
    AddTotal(AddBalance(m, a, x), b, y);
  }

  lemma GasSplit(limit: nat, remaining: nat, used: nat, price: nat, tip: nat, burnt: nat)
    requires remaining + used == limit && price == burnt + tip
    ensures remaining * price + used * tip + used * burnt == limit * price
  {
    assert used * price == used * burnt + used * tip;
  }

  /** A tip that is paid out at all is far below 256 bits. */
  lemma SmallMod(tip: nat, used: nat, bound: nat)
    requires used * tip <= bound < TWO_256
    ensures used * (tip % TWO_256) % TWO_256 == used * tip
  {
    if used > 0 {
      assert tip <= used * tip;
    }
  }
}
