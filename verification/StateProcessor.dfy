/** Processing the transactions of a block: core/state_processor.go, with the
    receipts of core/blockchain.go. */
module StateProcessor {
  import opened Options
  import opened Ledger
  import opened StateTransition

  /** A receipt; a chief update's own gas is not recorded. */
  datatype Receipt = Receipt(failed: bool, cumulativeGasUsed: nat, gasUsed: Option<nat>)

  /** What a receipt adds to the cumulative gas. */
  function Own(r: Receipt): nat { if r.gasUsed.Some? then r.gasUsed.value else 0 }

  function Before(receipts: seq<Receipt>, j: nat): nat
    requires j < |receipts|
  {
    if j == 0 then 0 else receipts[j - 1].cumulativeGasUsed
  }

  /** A receipt says that its transaction failed exactly if the virtual machine's
      step for it ended in an error. */
  ghost predicate StatusOk(steps: seq<VmStep>, receipts: seq<Receipt>) {
    && |receipts| <= |steps|
    && (forall j {:trigger receipts[j]} :: 0 <= j < |receipts| ==> (receipts[j].failed <==> !steps[j].err.VmOk?))
  }

  /** Cumulative gas grows by each transaction's own, and only chief updates
      record none. */
  ghost predicate ReceiptsOk(rules: Rules, txs: seq<Message>, receipts: seq<Receipt>) {
    && |receipts| <= |txs|
    && (forall j {:trigger ReceiptAt(rules, txs, receipts, j)} :: 0 <= j < |receipts| ==>
         ReceiptAt(rules, txs, receipts, j))
  }

  ghost predicate ReceiptAt(rules: Rules, txs: seq<Message>, receipts: seq<Receipt>, j: nat)
    requires j < |receipts| <= |txs|
  {
    && receipts[j].cumulativeGasUsed == Before(receipts, j) + Own(receipts[j])
    && (receipts[j].gasUsed.None? <==> Exempt(rules, txs[j]))
  }

  function Cumulative(receipts: seq<Receipt>): nat {
    if receipts == [] then 0 else receipts[|receipts| - 1].cumulativeGasUsed
  }

  lemma {:induction false} AppendReceipt(rules: Rules, txs: seq<Message>, steps: seq<VmStep>, receipts: seq<Receipt>,
                                         r: Receipt)
    requires ReceiptsOk(rules, txs, receipts) && |receipts| < |txs| == |steps| && StatusOk(steps, receipts)
    requires r.failed <==> !steps[|receipts|].err.VmOk?
    requires r.cumulativeGasUsed == Cumulative(receipts) + Own(r)
    requires r.gasUsed.None? <==> Exempt(rules, txs[|receipts|])
    ensures ReceiptsOk(rules, txs, receipts + [r]) && Cumulative(receipts + [r]) == r.cumulativeGasUsed
    ensures StatusOk(steps, receipts + [r])
  {
    var rs := receipts + [r];
    forall j | 0 <= j < |rs|
      ensures ReceiptAt(rules, txs, rs, j)
    {
      if j < |receipts| {
        assert ReceiptAt(rules, txs, receipts, j);
        assert rs[j] == receipts[j] && Before(rs, j) == Before(receipts, j);
      }
    }
  }

  /** ApplyTransaction: under SIP001 the pool and the used gas keep their sum. */
  method ApplyTransaction(rules: Rules, coinbase: Address, gp: GasPool, state: StateDb, tx: Message, step: VmStep,
                          usedGas: nat)
    returns (e: Error, r: Receipt, used: nat)
    modifies gp, state
    ensures e.Accepted? <==>
      && Fits(tx, old(state.nonces)) && Buys(rules, tx, old(gp.gas), old(state.balances))
      && Pays(rules, tx) && !step.err.VmInsufficientBalance?
    ensures e.Accepted? ==>
      && Total(state.balances) == Total(old(state.balances))
      && (r.failed <==> !step.err.VmOk?)
      && used == r.cumulativeGasUsed == usedGas + Own(r)
      && (r.gasUsed.None? <==> Exempt(rules, tx)) && Own(r) <= GasBought(rules, tx)
      && (rules.sip001 ==> gp.gas + used == old(gp.gas) + usedGas)
      && (!rules.sip001 ==> gp.gas + used == old(gp.gas) + usedGas + tx.gas)
  {
    used, r := usedGas, Receipt(true, usedGas, None);
    var st := new StateTransition(gp, state, rules, tx, coinbase);
    var required, gas, failed;
    e, required, gas, failed := st.TransitionDb(step);
    if !e.Accepted? {
      return;
    }
    if Exempt(rules, tx) {
      gp.AddGas(gas);
    } else {
      used := used + gas;
    }
    r := Receipt(failed, used, None);
    if !Exempt(rules, tx) {
      r := r.(gasUsed := Some(gas));
    }
  }

  /** Process, up to the engine's Finalize: in an accepted block the sum of
      balances is unchanged, and under SIP001 the pool and the gas used make up
      the gas limit. */
  method Process(rules: Rules, coinbase: Address, gasLimit: nat, txs: seq<Message>, steps: seq<VmStep>, state: StateDb)
    returns (e: Error, receipts: seq<Receipt>, totalUsedGas: nat, gp: GasPool)
    requires |steps| == |txs|
    modifies state
    ensures fresh(gp)
    ensures e.Accepted? ==>
      && Total(state.balances) == Total(old(state.balances))
      && |receipts| == |txs| && ReceiptsOk(rules, txs, receipts) && totalUsedGas == Cumulative(receipts)
      && StatusOk(steps, receipts)
      && (rules.sip001 ==> gp.gas + totalUsedGas == gasLimit)
      && (!rules.sip001 ==> gp.gas + totalUsedGas == gasLimit + Bought(txs))
  {
    gp := new GasPool();
    gp.AddGas(gasLimit);
    e, receipts, totalUsedGas := Accepted, [], 0;
    for i := 0 to |txs|
      invariant |receipts| == i && ReceiptsOk(rules, txs, receipts) && totalUsedGas == Cumulative(receipts)
      invariant StatusOk(steps, receipts)
      invariant Total(state.balances) == Total(old(state.balances)) && e.Accepted?
      invariant rules.sip001 ==> gp.gas + totalUsedGas == gasLimit
      invariant !rules.sip001 ==> gp.gas + totalUsedGas == gasLimit + Bought(txs[..i])
      modifies gp, state
    {
      var r;
      e, r, totalUsedGas := ApplyTransaction(rules, coinbase, gp, state, txs[i], steps[i], totalUsedGas);
      if !e.Accepted? {
        return;
      }
      AppendReceipt(rules, txs, steps, receipts, r);
      receipts := receipts + [r];
      assert txs[..i + 1][..i] == txs[..i];
    }
    assert txs[..|txs|] == txs;
  }

  /** A block before SIP001 whose pool and used gas do not make up its limit: one
      message that buys gas is enough. */
  method GrowingPool() returns (gasLimit: nat, totalUsedGas: nat, gp: GasPool)
    ensures fresh(gp) && gp.gas + totalUsedGas > gasLimit
  {
    gasLimit, totalUsedGas := 50000, 0;
    gp := new GasPool();
    gp.AddGas(gasLimit);
    var state := new StateDb(map[], map[]);
    var msg := Message(1, Some(2), 30000, 0, 0, false, []);
    var e, r;
    var step := VmStep(0, VmOk, [], 0, map[]);
    e, r, totalUsedGas := ApplyTransaction(Rules(false, false, true, {}), 3, gp, state, msg, step, 0);
  }

  /** All gas bought by the messages of a block. */
  function Bought(txs: seq<Message>): nat {
    if txs == [] then 0 else Bought(txs[..|txs| - 1]) + txs[|txs| - 1].gas
  }

  /** The gas part of SetReceiptsData: each transaction's gas is the difference
      of cumulative values. */
  method SetReceiptsData(receipts: seq<Receipt>) returns (rs: seq<Receipt>)
    requires forall j {:trigger receipts[j]} :: 0 <= j < |receipts| ==>
      Before(receipts, j) <= receipts[j].cumulativeGasUsed
    ensures |rs| == |receipts|
    ensures forall j {:trigger rs[j]} :: 0 <= j < |rs| ==>
      rs[j] == receipts[j].(gasUsed := Some(receipts[j].cumulativeGasUsed - Before(receipts, j)))
  {
    rs := receipts;
    for j := 0 to |receipts|
      invariant |rs| == |receipts|
      invariant forall k {:trigger rs[k]} :: 0 <= k < |rs| ==>
        rs[k] == if k < j then receipts[k].(gasUsed := Some(receipts[k].cumulativeGasUsed - Before(receipts,
          k))) else receipts[k]
    {
      assert receipts[j] == rs[j];
      if j == 0 {
        rs := rs[j := rs[j].(gasUsed := Some(rs[j].cumulativeGasUsed))];
      } else {
        rs := rs[j := rs[j].(gasUsed := Some(rs[j].cumulativeGasUsed - rs[j - 1].cumulativeGasUsed))];
      }
    }
  }

  /** SetReceiptsData gives back the gas that ApplyTransaction recorded, for
      every transaction that is not a chief update, and zero for those. */
  method Recomputed(rules: Rules, txs: seq<Message>, receipts: seq<Receipt>) returns (rs: seq<Receipt>)
    requires ReceiptsOk(rules, txs, receipts)
    ensures |rs| == |receipts|
    ensures forall j {:trigger rs[j]} :: 0 <= j < |rs| ==>
      rs[j] == if Exempt(rules, txs[j]) then receipts[j].(gasUsed := Some(0)) else receipts[j]
  {
    assert forall j {:trigger receipts[j]} :: 0 <= j < |receipts| ==> ReceiptAt(rules, txs, receipts, j);
    rs := SetReceiptsData(receipts);
    forall j | 0 <= j < |rs|
      ensures rs[j] == if Exempt(rules, txs[j]) then receipts[j].(gasUsed := Some(0)) else receipts[j]
    {
      assert ReceiptAt(rules, txs, receipts, j);
    }
  }
}
