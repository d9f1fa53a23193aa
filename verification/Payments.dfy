/** Block rewards: what the producer pays out, and what the validator lets be minted. */
module Payments {
  import opened Common

  datatype TxOut = TxOut(nValue: int, script: seq<nat>) {
    predicate IsEmpty() { nValue == 0 && script == [] }
  }

  function Total(outs: seq<TxOut>): int {
    if outs == [] then 0 else outs[0].nValue + Total(outs[1..])
  }

  lemma {:induction false} TotalAppend(a: seq<TxOut>, b: seq<TxOut>)
    ensures Total(a + b) == Total(a) + Total(b)
  {
    if a == [] {
      assert a + b == b;
    } else {
      assert (a + b)[1..] == a[1..] + b;
      TotalAppend(a[1..], b);
    }
  }

  lemma {:induction false} TotalUpdate(outs: seq<TxOut>, i: nat, o: TxOut)
    requires i < |outs|
    ensures Total(outs[i := o]) == Total(outs) - outs[i].nValue + o.nValue
  {
    if i > 0 {
      assert outs[i := o][1..] == outs[1..][i - 1 := o];
      TotalUpdate(outs[1..], i - 1, o);
    }
  }

  /** Division that drops the fraction, also of negative amounts. */
  function Truncated(a: int, b: int): int
    requires b > 0
  {
    if a >= 0 then a / b else -(-a / b)
  }

  /** It is the quotient rounded towards zero. */
  lemma TruncatedIs(a: int, b: int)
    requires b > 0
    ensures a >= 0 ==> b * Truncated(a, b) <= a < b * Truncated(a, b) + b
    ensures a <= 0 ==> b * Truncated(a, b) - b < a <= b * Truncated(a, b)
  {
  }

  // ----- the producer ------------------------------------------------------

  /** A masternode to pay: its share goes to its operator, in hundredths of a percent. */
  datatype Payee = Payee(operatorReward: nat, payout: seq<nat>, operatorPayout: seq<nat>)

  function Commission(reward: int, payee: Payee): int {
    Truncated(reward * payee.operatorReward, 10000)
  }

  /** What the chain and the masternode index answer for the next block. */
  datatype ChainView = ChainView(hasPrevious: bool, active: bool, indexReady: bool, reward: int, payee: Option<Payee>)

  /** Without a previous block, or without a usable index where one is needed, nobody knows
      what to pay. */
  predicate PaymentKnown(v: ChainView) { v.hasPrevious && (!v.active || v.indexReady) }

  predicate PaymentDue(v: ChainView) { PaymentKnown(v) && v.active && v.reward > 0 && v.payee.Some? }

  /** The outputs the payment consists of. */
  function PaymentOutputs(v: ChainView): seq<TxOut> {
    if !PaymentDue(v) then [] else
      var commission := Commission(v.reward, v.payee.value);
      (if v.reward > commission then [TxOut(v.reward - commission, v.payee.value.payout)] else [])
      + (if commission > 0 then [TxOut(commission, v.payee.value.operatorPayout)] else [])
  }

  /** What the outputs with that script pay. */
  function PaidTo(outs: seq<TxOut>, script: seq<nat>): int {
    if outs == [] then 0 else (if outs[0].script == script then outs[0].nValue else 0) + PaidTo(outs[1..], script)
  }

  /** A payment that is due comes to exactly the reward as long as no operator takes more than
      all of it, and to the commission otherwise; the operator gets the commission, the owner
      the rest. */
  lemma PaymentIs(v: ChainView)
    requires PaymentDue(v)
    ensures var outs, p := PaymentOutputs(v), v.payee.value;
            var commission := Commission(v.reward, p);
            && Total(outs) == Max(v.reward, commission)
            && (p.operatorReward <= 10000 ==> Total(outs) == v.reward)
            && 1 <= |outs| <= 2 && (forall o <- outs :: o.nValue > 0)
            && 10000 * commission <= v.reward * p.operatorReward < 10000 * commission + 10000
            && (p.payout != p.operatorPayout ==>
                  PaidTo(outs, p.operatorPayout) == commission && PaidTo(outs, p.payout) == Max(v.reward - commission, 0))
  {
    hide Commission, Truncated, Total, PaidTo;
    var p := v.payee.value;
    var commission := Commission(v.reward, p);
    CommissionBound(v.reward, p);
    var owner, operator := TxOut(v.reward - commission, p.payout), TxOut(commission, p.operatorPayout);
    OneOutput(owner, p.payout);
    OneOutput(owner, p.operatorPayout);
    OneOutput(operator, p.payout);
    OneOutput(operator, p.operatorPayout);
    TwoOutputs(owner, operator, p.payout);
    TwoOutputs(owner, operator, p.operatorPayout);
  }

  lemma OneOutput(o: TxOut, script: seq<nat>)
    ensures Total([o]) == o.nValue && PaidTo([o], script) == if o.script == script then o.nValue else 0
    ensures [] + [o] == [o] == [o] + []
  {
    assert [o][1..] == [];
  }

  lemma TwoOutputs(a: TxOut, b: TxOut, script: seq<nat>)
    ensures Total([a] + [b]) == a.nValue + b.nValue
    ensures PaidTo([a] + [b], script) == PaidTo([a], script) + PaidTo([b], script)
  {
    assert ([a] + [b])[1..] == [b];
    OneOutput(a, script);
    OneOutput(b, script);
  }

  method GetPQMasternodePayment(v: ChainView) returns (ok: bool, outputs: seq<TxOut>)
    ensures ok <==> v.hasPrevious && (v.active ==> v.indexReady)
    ensures outputs != [] <==> ok && v.active && v.reward > 0 && v.payee.Some?
    ensures ok == PaymentKnown(v) && outputs == PaymentOutputs(v)
  {
    outputs := [];
    if !v.hasPrevious { return false, outputs; }
    if !v.active { return true, outputs; }
    if !v.indexReady { return false, outputs; }
    if v.reward <= 0 { return true, outputs; }
    if v.payee.None? { return true, outputs; }
    var p := v.payee.value;
    var commission := Truncated(v.reward * p.operatorReward, 10000);
    if v.reward > commission { outputs := outputs + [TxOut(v.reward - commission, p.payout)]; }
    if commission > 0 { outputs := outputs + [TxOut(commission, p.operatorPayout)]; }
    ok := true;
  }

  lemma CommissionBound(reward: int, p: Payee)
    requires reward > 0
    ensures Commission(reward, p) >= 0
    ensures 10000 * Commission(reward, p) <= reward * p.operatorReward < 10000 * Commission(reward, p) + 10000
    ensures p.operatorReward <= 10000 ==> Commission(reward, p) <= reward
  {
    Scale(0, p.operatorReward, reward);
    TruncatedIs(reward * p.operatorReward, 10000);
    if p.operatorReward <= 10000 { Scale(p.operatorReward, 10000, reward); }
  }

  class MutableTransaction {
    var vout: seq<TxOut>
  }

  method Sum(outputs: seq<TxOut>) returns (total: int)
    ensures total == Total(outputs)
  {
    total := 0;
    for i := 0 to |outputs|
      invariant total == Total(outputs[..i])
    {
      assert outputs[..i + 1] == outputs[..i] + [outputs[i]];
      TotalAppend(outputs[..i], [outputs[i]]);
      total := total + outputs[i].nValue;
    }
    assert outputs[..|outputs|] == outputs;
  }

  /** Whether there is enough to take the payment out of: the one stake output of a fresh
      coinstake, or the first coinbase output. */
  predicate CanPay(coinbase: MutableTransaction, coinstake: MutableTransaction?, total: int)
    reads coinbase, coinstake
  {
    if coinstake != null then |coinstake.vout| == 2 && coinstake.vout[0].IsEmpty() && coinstake.vout[1].nValue >= total
    else coinbase.vout != [] && coinbase.vout[0].nValue >= total
  }

  /** Takes the payment out of the stake, or out of the first coinbase output, and pays it
      in the coinbase. On failure nothing changes. The total of both transactions stays the
      same, except that a coinbase beside a coinstake loses what it paid before. */
  method FillPQMasternodePayment(coinbase: MutableTransaction, coinstake: MutableTransaction?, v: ChainView) returns (ok: bool)
    requires coinstake != coinbase
    modifies if coinstake == null then {coinbase} else {coinbase, coinstake}
    ensures ok <==> PaymentKnown(v) && (PaymentOutputs(v) == [] || old(CanPay(coinbase, coinstake, Total(PaymentOutputs(v)))))
    ensures !ok || PaymentOutputs(v) == [] ==>
      coinbase.vout == old(coinbase.vout) && (coinstake != null ==> coinstake.vout == old(coinstake.vout))
    ensures ok && PaymentOutputs(v) != [] && coinstake != null ==>
      && coinbase.vout == PaymentOutputs(v)
      && Total(coinbase.vout) + Total(coinstake.vout) == old(Total(coinstake.vout))
      && |coinstake.vout| == |old(coinstake.vout)| == 2 && coinstake.vout[0] == old(coinstake.vout[0]) && coinstake.vout[1].script == old(coinstake.vout[1].script)
      && coinstake.vout[1].nValue >= 0
    ensures ok && PaymentOutputs(v) != [] && coinstake == null ==>
      && Total(coinbase.vout) == old(Total(coinbase.vout))
      && |coinbase.vout| == |old(coinbase.vout)| + |PaymentOutputs(v)| > |PaymentOutputs(v)|
      && coinbase.vout[1..|PaymentOutputs(v)| + 1] == PaymentOutputs(v)
      && coinbase.vout[|PaymentOutputs(v)| + 1..] == old(coinbase.vout)[1..]
      && coinbase.vout[0].nValue >= 0 && coinbase.vout[0].script == old(coinbase.vout[0].script)
  {
    var known, outputs := GetPQMasternodePayment(v);
    if !known { return false; }
    if outputs == [] { return true; }
    var total := Sum(outputs);
    if coinstake != null {
      if |coinstake.vout| != 2 || !coinstake.vout[0].IsEmpty() || coinstake.vout[1].nValue < total { return false; }
      var stake := coinstake.vout[1].(nValue := coinstake.vout[1].nValue - total);
      TotalUpdate(coinstake.vout, 1, stake);
      coinstake.vout := coinstake.vout[1 := stake];
      coinbase.vout := outputs;
    } else {
      if coinbase.vout == [] || coinbase.vout[0].nValue < total { return false; }
      var was := coinbase.vout;
      var first := was[0].(nValue := was[0].nValue - total);
      TotalAppend([first], outputs);
      TotalAppend([first] + outputs, was[1..]);
      coinbase.vout := [first] + outputs + was[1..];
    }
    ok := true;
  }

  /** Takes the payment off the stake outputs: as evenly as it divides, and the rest from
      the last one. The stake loses exactly the payment. */
  method SubtractMnPaymentFromCoinstake(txCoinstake: MutableTransaction, payment: int, stakerOuts: nat)
    requires 2 <= stakerOuts <= |txCoinstake.vout|
    modifies txCoinstake
    ensures |txCoinstake.vout| == |old(txCoinstake.vout)|
    ensures Total(txCoinstake.vout) == old(Total(txCoinstake.vout)) - payment
    ensures forall j :: 0 <= j < |txCoinstake.vout| ==> txCoinstake.vout[j].script == old(txCoinstake.vout[j].script)
    ensures forall j :: 0 <= j < |txCoinstake.vout| && !(1 <= j < stakerOuts) ==> txCoinstake.vout[j] == old(txCoinstake.vout[j])
    ensures forall j :: 1 <= j < stakerOuts - 1 ==>
              txCoinstake.vout[j].nValue == old(txCoinstake.vout[j].nValue) - Truncated(payment, stakerOuts - 1)
  {
    if stakerOuts == 2 {
      var o := txCoinstake.vout[1];
      TotalUpdate(txCoinstake.vout, 1, o.(nValue := o.nValue - payment));
      txCoinstake.vout := txCoinstake.vout[1 := o.(nValue := o.nValue - payment)];
    } else {
      var outputs := stakerOuts - 1;
      var split := Truncated(payment, outputs);
      var remainder := payment - split * outputs;
      ghost var was := txCoinstake.vout;
      for j := 1 to outputs + 1
        invariant |txCoinstake.vout| == |was|
        invariant Total(txCoinstake.vout) == Total(was) - split * (j - 1)
        invariant forall k :: 0 <= k < |was| ==>
          txCoinstake.vout[k] == if 1 <= k < j then was[k].(nValue := was[k].nValue - split) else was[k]
      {
        var o := txCoinstake.vout[j];
        TotalUpdate(txCoinstake.vout, j, o.(nValue := o.nValue - split));
        txCoinstake.vout := txCoinstake.vout[j := o.(nValue := o.nValue - split)];
      }
      var o := txCoinstake.vout[outputs];
      TotalUpdate(txCoinstake.vout, outputs, o.(nValue := o.nValue - remainder));
      txCoinstake.vout := txCoinstake.vout[outputs := o.(nValue := o.nValue - remainder)];
    }
  }

  // ----- the validator -----------------------------------------------------

  /** The network and what the rest of the node answers at this height. */
  datatype Context = Context(
    isRegTest: bool, isMain: bool, nMaxMoneyOut: int, nBudgetCycleAmount: int, nTotalBudget: int,
    pqPayments: bool, pqPayment: Option<int>, isSynced: bool, inBudgetWindow: bool,
    superblocks: bool, expectedPayee: Option<int>, v53Active: bool, v61Active: bool)

  /** There is a budget, the supply is in range, and after it and the issue of the block the
      whole budget fits below the cap. */
  predicate BudgetFits(c: Context, nChainMinted: int, nBaseIssuance: int) {
    0 < c.nTotalBudget && 0 <= nChainMinted <= c.nMaxMoneyOut && nChainMinted + nBaseIssuance + c.nTotalBudget <= c.nMaxMoneyOut
  }

  /** A whole cycle's budget, or nothing if that does not fit below the cap. */
  function GetGovernanceCapacity(c: Context, nChainMinted: int, nBaseIssuance: int): (r: int)
    ensures !c.isRegTest ==> r >= 0
    ensures !c.isRegTest && r > 0 ==> nChainMinted + nBaseIssuance + r <= c.nMaxMoneyOut
    ensures !c.isRegTest ==> (r == c.nTotalBudget <==> c.nTotalBudget == 0 || BudgetFits(c, nChainMinted, nBaseIssuance))
    ensures !c.isRegTest && r != c.nTotalBudget ==> r == 0
    ensures c.isRegTest ==> r == c.nBudgetCycleAmount
  {
    if c.isRegTest then c.nBudgetCycleAmount
    else if c.nTotalBudget <= 0 then 0
    else if nChainMinted < 0 || nChainMinted > c.nMaxMoneyOut then 0
    else if c.nMaxMoneyOut - nChainMinted - nBaseIssuance >= c.nTotalBudget then c.nTotalBudget
    else 0
  }

  /** The ordinary reward, cut to what is left below the cap. */
  function BaseValue(c: Context, nExpectedValue: int, nChainMinted: int, nRecycledFees: int): int {
    if c.isRegTest then nExpectedValue else Min(nExpectedValue, c.nMaxMoneyOut - nChainMinted + nRecycledFees)
  }

  predicate PqGovernance(c: Context) { c.pqPayments && c.v61Active }

  /** Without budget data any payment up to the capacity has to be let through. */
  predicate BudgetUnknown(c: Context) { !PqGovernance(c) && !c.isSynced && c.inBudgetWindow }

  /** What governance may add: its payment in full or not at all. */
  function Governance(c: Context, capacity: int): int {
    if PqGovernance(c) then
      if c.pqPayment.Some? && 0 < c.pqPayment.value <= capacity then c.pqPayment.value else 0
    else if BudgetUnknown(c) then capacity
    else if c.isSynced && c.superblocks && c.expectedPayee.Some? && capacity > 0 && c.expectedPayee.value <= capacity
    then c.expectedPayee.value
    else 0
  }

  /** The most that a block may mint. */
  function Limit(c: Context, nExpectedValue: int, nChainMinted: int, nRecycledFees: int): int {
    var base := BaseValue(c, nExpectedValue, nChainMinted, nRecycledFees);
    base + Governance(c, GetGovernanceCapacity(c, nChainMinted, base - nRecycledFees))
  }

  /** The budget amount handed back: what governance adds, or what was passed in if
      governance has no say. */
  function BudgetAmount(c: Context, nBudgetAmt: int, nExpectedValue: int, nChainMinted: int, nRecycledFees: int): int {
    var governance := Limit(c, nExpectedValue, nChainMinted, nRecycledFees) - BaseValue(c, nExpectedValue, nChainMinted, nRecycledFees);
    if PqGovernance(c) then (if governance > 0 then governance else nBudgetAmt)
    else if c.isSynced && c.superblocks && c.expectedPayee.Some? then governance
    else nBudgetAmt
  }

  /** What a block has to mint: exactly the limit where that is enforced, otherwise no more. */
  predicate MintAllowed(c: Context, nExpectedValue: int, nMinted: int, nChainMinted: int, nRecycledFees: int) {
    var limit := Limit(c, nExpectedValue, nChainMinted, nRecycledFees);
    && (c.isRegTest || (0 <= nChainMinted <= c.nMaxMoneyOut && nRecycledFees >= 0))
    && nMinted <= limit
    && (PqGovernance(c) ==> nMinted == limit)
    && (!PqGovernance(c) && c.v53Active ==> nMinted >= 0)
    && (!PqGovernance(c) && c.isMain && c.v61Active ==>
          if BudgetUnknown(c) then nMinted >= BaseValue(c, nExpectedValue, nChainMinted, nRecycledFees) else nMinted == limit)
  }

  /** Off the regression network no block that brings the supply above the cap is allowed. */
  lemma CapHolds(c: Context, nExpectedValue: int, nMinted: int, nChainMinted: int, nRecycledFees: int)
    requires !c.isRegTest && MintAllowed(c, nExpectedValue, nMinted, nChainMinted, nRecycledFees)
    ensures nChainMinted + nMinted - nRecycledFees <= c.nMaxMoneyOut
  {
    var base := BaseValue(c, nExpectedValue, nChainMinted, nRecycledFees);
    var capacity := GetGovernanceCapacity(c, nChainMinted, base - nRecycledFees);
    assert Governance(c, capacity) <= capacity;
  }

  // ----- which blocks are accepted -----------------------------------------

  /** The reward, off the regression network no more than what is left below the cap with the
      fees that were taken out. */
  predicate IsReward(c: Context, nExpectedValue: int, nChainMinted: int, nRecycledFees: int, base: int) {
    if c.isRegTest then base == nExpectedValue
    else
      && base <= nExpectedValue && nChainMinted + base - nRecycledFees <= c.nMaxMoneyOut
      && (base == nExpectedValue || nChainMinted + base - nRecycledFees == c.nMaxMoneyOut)
  }

  /** A payment fits if the regression network's budget covers it, or elsewhere the total one,
      and that fits below the cap. */
  predicate PaymentFits(c: Context, nChainMinted: int, nBaseIssuance: int, payment: int) {
    if c.isRegTest then payment <= c.nBudgetCycleAmount
    else payment <= c.nTotalBudget && BudgetFits(c, nChainMinted, nBaseIssuance)
  }

  predicate InRange(c: Context, nChainMinted: int, nRecycledFees: int) {
    c.isRegTest || (0 <= nChainMinted <= c.nMaxMoneyOut && nRecycledFees >= 0)
  }

  /** A scheduled payment by vote that fits has to be minted on top of the reward, to the coin,
      and none may be otherwise. */
  lemma VotedPayment(c: Context, nExpectedValue: int, nMinted: int, nChainMinted: int, nRecycledFees: int, base: int)
    requires c.pqPayments && c.v61Active && IsReward(c, nExpectedValue, nChainMinted, nRecycledFees, base)
    ensures MintAllowed(c, nExpectedValue, nMinted, nChainMinted, nRecycledFees) <==>
            && InRange(c, nChainMinted, nRecycledFees)
            && nMinted == base + if c.pqPayment.Some? && c.pqPayment.value > 0 && PaymentFits(c, nChainMinted, base - nRecycledFees, c.pqPayment.value)
                                 then c.pqPayment.value else 0
  {
  }

  /** With budget data, a superblock's payment that fits may be minted on top of the reward, and
      has to be where the mint is exact. */
  lemma SuperblockPayment(c: Context, nExpectedValue: int, nMinted: int, nChainMinted: int, nRecycledFees: int, base: int)
    requires !(c.pqPayments && c.v61Active) && c.isSynced && IsReward(c, nExpectedValue, nChainMinted, nRecycledFees, base)
    ensures var due := c.superblocks && c.expectedPayee.Some?
                       && PaymentFits(c, nChainMinted, base - nRecycledFees, c.expectedPayee.value)
                       && (c.isRegTest ==> c.nBudgetCycleAmount > 0);
            var all := base + if due then c.expectedPayee.value else 0;
            MintAllowed(c, nExpectedValue, nMinted, nChainMinted, nRecycledFees) <==>
              && InRange(c, nChainMinted, nRecycledFees) && (c.v53Active ==> nMinted >= 0)
              && if c.isMain && c.v61Active then nMinted == all else nMinted <= all
  {
  }

  /** Without budget data, at a height where there may be a superblock, anything up to the whole
      budget may be minted on top of the reward; the reward has to be where the mint is exact. */
  lemma UnknownPayment(c: Context, nExpectedValue: int, nMinted: int, nChainMinted: int, nRecycledFees: int, base: int)
    requires !(c.pqPayments && c.v61Active) && !c.isSynced && IsReward(c, nExpectedValue, nChainMinted, nRecycledFees, base)
    ensures var all := base + if !c.inBudgetWindow then 0
                              else if c.isRegTest then c.nBudgetCycleAmount
                              else if BudgetFits(c, nChainMinted, base - nRecycledFees) then c.nTotalBudget else 0;
            MintAllowed(c, nExpectedValue, nMinted, nChainMinted, nRecycledFees) <==>
              && InRange(c, nChainMinted, nRecycledFees) && (c.v53Active ==> nMinted >= 0) && nMinted <= all
              && (c.isMain && c.v61Active ==> nMinted >= base)
  {
  }

  /** The reward and the budget amount that are handed back. */
  lemma HandedBack(c: Context, nBudgetAmt: int, nExpectedValue: int, nChainMinted: int, nRecycledFees: int, base: int)
    requires IsReward(c, nExpectedValue, nChainMinted, nRecycledFees, base)
    ensures c.pqPayments && c.v61Active ==>
              var due := c.pqPayment.Some? && c.pqPayment.value > 0 && PaymentFits(c, nChainMinted, base - nRecycledFees, c.pqPayment.value);
              && Limit(c, nExpectedValue, nChainMinted, nRecycledFees) == base + (if due then c.pqPayment.value else 0)
              && BudgetAmount(c, nBudgetAmt, nExpectedValue, nChainMinted, nRecycledFees) == if due then c.pqPayment.value else nBudgetAmt
    ensures !(c.pqPayments && c.v61Active) && c.isSynced && c.superblocks && c.expectedPayee.Some? ==>
              var due := PaymentFits(c, nChainMinted, base - nRecycledFees, c.expectedPayee.value) && (c.isRegTest ==> c.nBudgetCycleAmount > 0);
              && Limit(c, nExpectedValue, nChainMinted, nRecycledFees) == base + (if due then c.expectedPayee.value else 0)
              && BudgetAmount(c, nBudgetAmt, nExpectedValue, nChainMinted, nRecycledFees) == if due then c.expectedPayee.value else 0
    ensures !(c.pqPayments && c.v61Active) && !(c.isSynced && c.superblocks && c.expectedPayee.Some?) ==>
              BudgetAmount(c, nBudgetAmt, nExpectedValue, nChainMinted, nRecycledFees) == nBudgetAmt
  {
  }

  /** Whether a block may mint that much. The expected value and the budget amount are
      passed in and out. */
  method IsBlockValueValid(c: Context, nExpectedValue0: int, nMinted: int, nBudgetAmt0: int, nChainMinted: int, nRecycledFees: int)
    returns (ok: bool, nExpectedValue: int, nBudgetAmt: int)
    ensures ok <==> MintAllowed(c, nExpectedValue0, nMinted, nChainMinted, nRecycledFees)
    ensures ok ==> nExpectedValue == Limit(c, nExpectedValue0, nChainMinted, nRecycledFees)
    ensures ok ==> nBudgetAmt == BudgetAmount(c, nBudgetAmt0, nExpectedValue0, nChainMinted, nRecycledFees)
  {
    nExpectedValue, nBudgetAmt := nExpectedValue0, nBudgetAmt0;
    if !c.isRegTest {
      if nChainMinted < 0 || nChainMinted > c.nMaxMoneyOut { return false, nExpectedValue, nBudgetAmt; }
      if nRecycledFees < 0 { return false, nExpectedValue, nBudgetAmt; }
      nExpectedValue := Min(nExpectedValue, c.nMaxMoneyOut - nChainMinted + nRecycledFees);
    }
    var nBaseExpectedValue := nExpectedValue;
    var nCapacity := GetGovernanceCapacity(c, nChainMinted, nBaseExpectedValue - nRecycledFees);
    if c.pqPayments && c.v61Active {
      if c.pqPayment.Some? && c.pqPayment.value > 0 && c.pqPayment.value <= nCapacity {
        nBudgetAmt := c.pqPayment.value;
        nExpectedValue := nExpectedValue + c.pqPayment.value;
      }
      return nMinted == nExpectedValue, nExpectedValue, nBudgetAmt;
    }
    var usingFallback := false;
    if !c.isSynced {
      if c.inBudgetWindow {
        nExpectedValue := nExpectedValue + nCapacity;
        usingFallback := true;
      }
    } else if c.superblocks && c.expectedPayee.Some? {
      nBudgetAmt := c.expectedPayee.value;
      if nCapacity > 0 && nBudgetAmt <= nCapacity {
        nExpectedValue := nExpectedValue + nBudgetAmt;
      } else {
        nBudgetAmt := 0;
      }
    }
    if nMinted < 0 && c.v53Active { return false, nExpectedValue, nBudgetAmt; }
    if c.isMain && c.v61Active {
      if usingFallback {
        return nMinted >= nBaseExpectedValue && nMinted <= nExpectedValue, nExpectedValue, nBudgetAmt;
      }
      return nMinted == nExpectedValue, nExpectedValue, nBudgetAmt;
    }
    ok := nMinted <= nExpectedValue;
  }

  /** What a block brings to the supply check. */
  datatype Block = Block(c: Context, nExpectedValue: int, nBudgetAmt: int, nMinted: int, nRecycledFees: int)

  /** Checks a chain of blocks on one network that is not the regression network. However
      many are accepted, the supply stays below the cap. */
  method Validate(blocks: seq<Block>, nMaxMoneyOut: int, start: int) returns (accepted: nat, nChainMinted: int)
    requires start <= nMaxMoneyOut && forall b <- blocks :: !b.c.isRegTest && b.c.nMaxMoneyOut == nMaxMoneyOut
    ensures accepted <= |blocks| && nChainMinted <= nMaxMoneyOut
    ensures nChainMinted == Supply(start, blocks[..accepted])
    ensures accepted < |blocks| ==> var b := blocks[accepted]; !MintAllowed(b.c, b.nExpectedValue, b.nMinted, nChainMinted, b.nRecycledFees)
  {
    nChainMinted := start;
    accepted := 0;
    assert blocks[..0] == [];
    while accepted < |blocks|
      invariant 0 <= accepted <= |blocks| && nChainMinted <= nMaxMoneyOut && nChainMinted == Supply(start, blocks[..accepted])
    {
      var b := blocks[accepted];
      var ok, expected, budget := IsBlockValueValid(b.c, b.nExpectedValue, b.nMinted, b.nBudgetAmt, nChainMinted, b.nRecycledFees);
      if !ok { return; }
      CapHolds(b.c, b.nExpectedValue, b.nMinted, nChainMinted, b.nRecycledFees);
      assert blocks[..accepted + 1][..accepted] == blocks[..accepted];
      nChainMinted := nChainMinted + b.nMinted - b.nRecycledFees;
      accepted := accepted + 1;
    }
  }

  /** The supply after some blocks. */
  function Supply(start: int, blocks: seq<Block>): int {
    if blocks == [] then start
    else Supply(start, blocks[..|blocks| - 1]) + blocks[|blocks| - 1].nMinted - blocks[|blocks| - 1].nRecycledFees
  }
}
