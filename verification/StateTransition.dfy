/** Buying, using, refunding and paying gas: core/state_transition.go. */
module StateTransition {
  import opened Numbers
  import opened Options
  import opened Ledger

  type Byte = x: nat | x < 256

  datatype Message = Message(from: Address, to: Option<Address>, gas: nat, gasPrice: nat,
                             nonce: nat, checkNonce: bool, data: seq<Byte>)

  /** The rules in force at a block and the chief contracts. */
  datatype Rules = Rules(sip001: bool, sip100: bool, homestead: bool, chiefs: set<Address>)

  datatype Error = Accepted | NonceTooHigh | NonceTooLow | OutOfGas | GasLimitReached
                 | InsufficientBalanceForGas | InsufficientBalance

  const TX_GAS := 21000
  const TX_GAS_CONTRACT_CREATION := 53000
  const TX_DATA_ZERO_GAS := 4
  const TX_DATA_NON_ZERO_GAS := 68

  predicate IsChiefAddress(rules: Rules, a: Address) {
    a != 0 && a in rules.chiefs
  }

  predicate IsChiefUpdate(data: seq<Byte>) {
    |data| >= 4 && data[..4] == [28, 27, 135, 114]
  }

  predicate ToChief(rules: Rules, msg: Message) {
    msg.to.Some? && IsChiefAddress(rules, msg.to.value)
  }

  /** A chief update pays no gas under SIP001. */
  predicate Exempt(rules: Rules, msg: Message) {
    rules.sip001 && ToChief(rules, msg) && IsChiefUpdate(msg.data)
  }

  /** The gas a message buys. */
  function GasBought(rules: Rules, msg: Message): nat {
    if Exempt(rules, msg) then 0 else msg.gas
  }

  function NonceOf(nonces: map<Address, nat>, a: Address): nat { if a in nonces then nonces[a] else 0 }

  function Least(a: nat, b: nat): nat { if a < b then a else b }

  // ---------------------------------------------------------- intrinsic gas

  function ByteCost(b: Byte): nat { if b == 0 then TX_DATA_ZERO_GAS else TX_DATA_NON_ZERO_GAS }

  /** The charge for the data, byte by byte. */
  function DataCost(data: seq<Byte>): nat {
    if data == [] then 0 else DataCost(data[..|data| - 1]) + ByteCost(data[|data| - 1])
  }

  /** The charge for a message before it runs. */
  function IntrinsicCost(msg: Message, homestead: bool): nat {
    (if msg.to.None? && homestead then TX_GAS_CONTRACT_CREATION else TX_GAS) + DataCost(msg.data)
  }

  ghost function NonZeros(data: seq<Byte>): set<nat> { set i | 0 <= i < |data| && data[i] != 0 }

  /** 21000 gas, or 53000 to create a contract since Homestead, and 4 for each byte
      and 64 more for each byte that is not zero. */
  lemma {:induction false} IntrinsicIs(msg: Message, homestead: bool)
    ensures IntrinsicCost(msg, homestead)
         == (if msg.to.None? && homestead then 53000 else 21000) + 4 * |msg.data| + 64 * |NonZeros(msg.data)|
  {
    DataCostIs(msg.data);
  }

  lemma {:induction false} DataCostIs(data: seq<Byte>)
    ensures DataCost(data) == 4 * |data| + 64 * |NonZeros(data)|
    decreases |data|
  {
    if data != [] {
      var n := |data| - 1;
      DataCostIs(data[..n]);
      assert NonZeros(data) == if data[n] != 0 then NonZeros(data[..n]) + {n} else NonZeros(data[..n]);
    }
  }

  /** IntrinsicGas. */
  method IntrinsicGas(data: seq<Byte>, contractCreation: bool, homestead: bool) returns (gas: nat)
    ensures gas == (if contractCreation && homestead then TX_GAS_CONTRACT_CREATION else TX_GAS) + DataCost(data)
  {
    gas := if contractCreation && homestead then TX_GAS_CONTRACT_CREATION else TX_GAS;
    if |data| > 0 {
      var nz: nat := 0;
      for i := 0 to |data|
        invariant nz <= i && DataCost(data[..i]) == nz * TX_DATA_NON_ZERO_GAS + (i - nz) * TX_DATA_ZERO_GAS
      {
        assert data[..i + 1][..i] == data[..i];
        if data[i] != 0 {
          nz := nz + 1;
        }
      }
      assert data[..|data|] == data;
      gas := gas + nz * TX_DATA_NON_ZERO_GAS;
      gas := gas + (|data| - nz) * TX_DATA_ZERO_GAS;
    }
  }

  // ------------------------------------------------------------ acceptance

  /** What buyGas asks for. */
  ghost predicate Buys(rules: Rules, msg: Message, pool: nat, balances: map<Address, int>) {
    && GasBought(rules, msg) < UINT64_LIMIT
    && (rules.sip001 ==> GasBought(rules, msg) <= pool)
    && (!(rules.sip100 && ToChief(rules, msg)) ==>
         BalanceOf(balances, msg.from) >= GasBought(rules, msg) * msg.gasPrice)
  }

  /** What preCheck asks for besides. */
  ghost predicate Fits(msg: Message, nonces: map<Address, nat>) {
    msg.checkNonce ==> msg.nonce == NonceOf(nonces, msg.from)
  }

  /** The nonces once the sender of a call has used the next one. */
  function NonceUsed(msg: Message, nonces: map<Address, nat>): map<Address, nat> {
    if msg.to.None? then nonces
    else nonces[msg.from := NonceOf(nonces, msg.from) + 1]
  }

  /** The gas a message needs: its own charge and what the virtual machine asks for,
      as far as the gas bought goes. */
  function GasNeeded(rules: Rules, msg: Message, step: VmStep): nat {
    var own := if Exempt(rules, msg) then 0 else IntrinsicCost(msg, rules.homestead);
    if own + step.used <= GasBought(rules, msg) then own + step.used else GasBought(rules, msg)
  }

  /** A message to an account that is no chief, or without the chief's selector,
      always buys its gas; one that buys none calls a chief. */
  lemma {:induction false} ExemptOnlyChiefs(rules: Rules, msg: Message)
    ensures msg.to.None? || msg.to.value !in rules.chiefs ==> GasBought(rules, msg) == msg.gas
    ensures !rules.sip001 || |msg.data| < 4 ==> GasBought(rules, msg) == msg.gas
    ensures GasBought(rules, msg) == 0 || GasBought(rules, msg) == msg.gas
    ensures Exempt(rules, msg) <==>
      && rules.sip001 && msg.to.Some? && msg.to.value in rules.chiefs && msg.to.value != 0 && |msg.data| >= 4
      && msg.data[0] == 0x1c && msg.data[1] == 0x1b && msg.data[2] == 0x87 && msg.data[3] == 0x72
  {
    if |msg.data| >= 4 {
      var head := msg.data[..4];
      assert head == [head[0], head[1], head[2], head[3]];
    }
  }

  /** The gas bought covers the charge for the message itself. */
  ghost predicate Pays(rules: Rules, msg: Message) {
    Exempt(rules, msg) || IntrinsicCost(msg, rules.homestead) <= GasBought(rules, msg)
  }

  // --------------------------------------------------------- the transition

  class StateTransition {
    const gp: GasPool
    const state: StateDb
    const rules: Rules
    const msg: Message
    const coinbase: Address
    var gas: nat
    var initialGas: nat

    constructor (gp: GasPool, state: StateDb, rules: Rules, msg: Message, coinbase: Address)
      ensures this.gp == gp && this.state == state && this.rules == rules && this.msg == msg &&
        this.coinbase == coinbase
      ensures gas == 0 && initialGas == 0
    {
      this.gp, this.state, this.rules, this.msg, this.coinbase := gp, state, rules, msg, coinbase;
      gas, initialGas := 0, 0;
    }

    /** gasUsed. */
    function GasUsed(): nat
      requires gas <= initialGas
      reads this
    {
      initialGas - gas
    }

    /** useGas. */
    method UseGas(amount: nat) returns (ok: bool)
      modifies this`gas
      ensures ok <==> old(gas) >= amount
      ensures gas == if ok then old(gas) - amount else old(gas)
    {
      if gas < amount {
        return false;
      }
      gas := gas - amount;
      ok := true;
    }

    /** buyGas.  Before SIP001 the pool is not charged; a message to a chief under
        SIP100 is not checked for its balance. */
    method BuyGas() returns (e: Error)
      requires gas == 0
      modifies this`gas, this`initialGas, gp, state`balances
      ensures e.Accepted? <==> Buys(rules, msg, old(gp.gas), old(state.balances))
      ensures e.GasLimitReached? <==>
        GasBought(rules, msg) < UINT64_LIMIT && rules.sip001 && GasBought(rules, msg) > old(gp.gas)
      ensures e.OutOfGas? <==> GasBought(rules, msg) >= UINT64_LIMIT
      ensures e in {Accepted, OutOfGas, GasLimitReached, InsufficientBalanceForGas}
      ensures e.Accepted? ==>
        && gas == initialGas == GasBought(rules, msg)
        && state.balances == Credit(old(state.balances), msg.from, -(initialGas * msg.gasPrice))
        && Total(state.balances) == Total(old(state.balances)) - initialGas * msg.gasPrice
        && gp.gas == if rules.sip001 then old(gp.gas) - initialGas else old(gp.gas)
      ensures !e.Accepted? ==> state.balances == old(state.balances)
    {
      var mgas := if Exempt(rules, msg) then 0 else msg.gas;
      if mgas >= UINT64_LIMIT {
        return OutOfGas;
      }
      var mgval := mgas * msg.gasPrice;
      if rules.sip001 {
        var ok := gp.SubGas(mgas);
        if !ok {
          return GasLimitReached;
        }
      }
      gas := gas + mgas;
      initialGas := mgas;
      if !(rules.sip100 && ToChief(rules, msg)) {
        if BalanceOf(state.balances, msg.from) < mgval {
          return InsufficientBalanceForGas;
        }
      }
      state.AddBalance(msg.from, -mgval);
      e := Accepted;
    }

    /** preCheck. */
    method PreCheck() returns (e: Error)
      requires gas == 0
      modifies this`gas, this`initialGas, gp, state`balances
      ensures e.Accepted? <==> Fits(msg, old(state.nonces)) && Buys(rules, msg, old(gp.gas), old(state.balances))
      ensures e.NonceTooLow? <==> msg.checkNonce && msg.nonce < NonceOf(old(state.nonces), msg.from)
      ensures e.NonceTooHigh? <==> msg.checkNonce && msg.nonce > NonceOf(old(state.nonces), msg.from)
      ensures e.Accepted? ==>
        && gas == initialGas == GasBought(rules, msg) && gas < UINT64_LIMIT
        && state.balances == Credit(old(state.balances), msg.from, -(initialGas * msg.gasPrice))
        && Total(state.balances) == Total(old(state.balances)) - initialGas * msg.gasPrice
        && gp.gas == if rules.sip001 then old(gp.gas) - initialGas else old(gp.gas)
      ensures !e.Accepted? ==> state.balances == old(state.balances)
    {
      if msg.checkNonce {
        var nonce := NonceOf(state.nonces, msg.from);
        if nonce < msg.nonce {
          return NonceTooHigh;
        } else if nonce > msg.nonce {
          return NonceTooLow;
        }
      }
      e := BuyGas();
    }

    /** refundGas: at most half of the gas used comes back, and the sender is
        paid for all that is left. */
    method RefundGas()
      requires gas <= initialGas
      modifies this`gas, gp, state`balances
      ensures old(gas) <= gas <= initialGas && 2 * GasUsed() >= old(GasUsed())
      ensures gas - old(gas) == Least(old(GasUsed()) / 2, state.refund)
      ensures gp.gas == old(gp.gas) + gas
      ensures state.balances == Credit(old(state.balances), msg.from, gas * msg.gasPrice)
      ensures Total(state.balances) == Total(old(state.balances)) + gas * msg.gasPrice
    {
      var refund := GasUsed() / 2;
      if refund > state.refund {
        refund := state.refund;
      }
      gas := gas + refund;
      state.AddBalance(msg.from, gas * msg.gasPrice);
      gp.AddGas(gas);
    }

    /** The balances after an accepted message: the sender buys the gas, the virtual
        machine makes its payments, and the gas left and used is paid out. */
    ghost function Settled(balances: map<Address, int>, step: VmStep, usedGas: nat): map<Address, int> {
      var bought := GasBought(rules, msg);
      var vm := Transferred(Credit(balances, msg.from, -(bought * msg.gasPrice)), step.transfers);
      PaidOut(vm, bought, usedGas)
    }

    /** The sender is paid for the gas left and the coinbase, or the sender of a
        message to a chief, for the gas used. */
    ghost function PaidOut(balances: map<Address, int>, bought: nat, usedGas: nat): map<Address, int> {
      Credit(Credit(balances, msg.from, (bought - usedGas) * msg.gasPrice),
             if ToChief(rules, msg) then msg.from else coinbase, usedGas * msg.gasPrice)
    }

    /** Besides the payments of the virtual machine, an accepted message moves the
        price of the gas used from its sender to the coinbase, and nothing if it
        calls a chief. */
    lemma {:induction false} SettledAt(balances: map<Address, int>, step: VmStep, usedGas: nat, a: Address)
      ensures BalanceOf(Settled(balances, step, usedGas), a) == BalanceOf(balances, a) + Net(step.transfers, a)
        - (if a == msg.from && !ToChief(rules, msg) then usedGas * msg.gasPrice else 0)
        + (if a == coinbase && !ToChief(rules, msg) then usedGas * msg.gasPrice else 0)
    {
      var bought := GasBought(rules, msg);
      var rewarded := if ToChief(rules, msg) then msg.from else coinbase;
      var price, back, reward := bought * msg.gasPrice, (bought - usedGas) * msg.gasPrice, usedGas * msg.gasPrice;
      assert back == price - reward by {
        Distributes(bought, usedGas, msg.gasPrice);
      }
      MovedAt(balances, step.transfers, msg.from, rewarded, price, back, reward, a);
    }

    static lemma {:induction false} Distributes(x: int, y: int, z: int)
      ensures (x - y) * z == x * z - y * z
    {
    }

    static lemma {:induction false} MovedAt(m: map<Address, int>, ts: seq<Transfer>, from: Address, to: Address,
                                            price: int, back: int, reward: int, a: Address)
      requires back == price - reward
      ensures BalanceOf(Credit(Credit(Transferred(Credit(m, from, -price), ts), from, back), to, reward), a)
           == BalanceOf(m, a) + Net(ts, a) - (if a == from then reward else 0) + (if a == to then reward else 0)
    {
      NetIs(Credit(m, from, -price), ts, a);
    }

    /** TransitionDb: a message that is accepted leaves the sum of balances
        unchanged, and it failed exactly if the virtual machine ended in an error.
        Under SIP001 the pool loses exactly the gas used; before, it gains the gas
        that was bought and not used. */
    method TransitionDb(step: VmStep) returns (e: Error, requiredGas: nat, usedGas: nat, failed: bool)
      requires gas == 0 && initialGas == 0
      modifies this, gp, state
      ensures e.Accepted? <==>
        && Fits(msg, old(state.nonces)) && Buys(rules, msg, old(gp.gas), old(state.balances))
        && Pays(rules, msg) && !step.err.VmInsufficientBalance?
      ensures e.Accepted? ==>
        && Total(state.balances) == Total(old(state.balances))
        && (failed <==> !step.err.VmOk?)
        && requiredGas == GasNeeded(rules, msg, step) && usedGas == requiredGas - Least(requiredGas / 2, step.refund)
        && (!Exempt(rules, msg) ==> requiredGas >= IntrinsicCost(msg, rules.homestead))
        && state.balances == Settled(old(state.balances), step, usedGas)
        && state.nonces == NonceUsed(msg, old(state.nonces)) + step.nonces
        && gp.gas + usedGas == if rules.sip001 then old(gp.gas) else old(gp.gas) + GasBought(rules, msg)
    {
      requiredGas, usedGas, failed := 0, 0, false;
      e := Prepare();
      if !e.Accepted? {
        return;
      }
      requiredGas, usedGas := RunAndSettle(step);
      if step.err.VmInsufficientBalance? {
        return InsufficientBalance, 0, 0, false;
      }
      NeededIs(rules, msg, step, requiredGas);
      failed := step.err != VmOk;
    }

    /** The virtual machine and, unless the first transfer failed, the settlement. */
    method RunAndSettle(step: VmStep) returns (requiredGas: nat, usedGas: nat)
      requires gas <= initialGas
      modifies this`gas, gp, state
      ensures !step.err.VmInsufficientBalance? ==>
        && requiredGas <= initialGas
        && initialGas - requiredGas == (if step.used <= old(gas) then old(gas) - step.used else 0)
        && usedGas == requiredGas - Least(requiredGas / 2, step.refund)
        && gp.gas + usedGas == old(gp.gas) + initialGas
        && state.balances == PaidOut(Transferred(old(state.balances), step.transfers), initialGas, usedGas)
        && Total(state.balances) == Total(old(state.balances)) + initialGas * msg.gasPrice
        && state.nonces == NonceUsed(msg, old(state.nonces)) + step.nonces
    {
      requiredGas, usedGas := 0, 0;
      RunVm(step);
      if !step.err.VmInsufficientBalance? {
        requiredGas := GasUsed();
        usedGas := Settle();
      }
    }

    static lemma {:induction false} NeededIs(rules: Rules, msg: Message, step: VmStep, needed: nat)
      requires Pays(rules, msg) && needed <= GasBought(rules, msg)
      requires var own := if Exempt(rules, msg) then 0 else IntrinsicCost(msg, rules.homestead);
        var left := GasBought(rules, msg) - own;
        GasBought(rules, msg) - needed == if step.used <= left then left - step.used else 0
      ensures needed == GasNeeded(rules, msg, step)
      ensures !Exempt(rules, msg) ==> needed >= IntrinsicCost(msg, rules.homestead)
    {
    }

    /** What comes before the virtual machine. */
    method Prepare() returns (e: Error)
      requires gas == 0
      modifies this`gas, this`initialGas, gp, state`balances
      ensures e.Accepted? <==>
        && Fits(msg, old(state.nonces)) && Buys(rules, msg, old(gp.gas), old(state.balances)) && Pays(rules, msg)
      ensures e.Accepted? ==>
        && initialGas == GasBought(rules, msg)
        && initialGas == gas + (if Exempt(rules, msg) then 0 else IntrinsicCost(msg, rules.homestead))
        && state.balances == Credit(old(state.balances), msg.from, -(initialGas * msg.gasPrice))
        && Total(state.balances) == Total(old(state.balances)) - initialGas * msg.gasPrice
        && gp.gas == if rules.sip001 then old(gp.gas) - initialGas else old(gp.gas)
    {
      e := PreCheck();
      if e.Accepted? {
        e := PayIntrinsic();
      }
    }

    /** The call of the virtual machine. */
    method RunVm(step: VmStep)
      modifies this`gas, state
      ensures gas == if step.used <= old(gas) then old(gas) - step.used else 0
      ensures state.balances == Transferred(old(state.balances), step.transfers)
      ensures Total(state.balances) == Total(old(state.balances))
      ensures state.nonces == NonceUsed(msg, old(state.nonces)) + step.nonces && state.refund == step.refund
    {
      if msg.to.Some? {
        state.nonces := state.nonces[msg.from := NonceOf(state.nonces, msg.from) + 1];
      }
      var left := state.Execute(gas, step);
      gas := left;
    }

    /** The charge for the message itself. */
    method PayIntrinsic() returns (e: Error)
      requires gas == initialGas == GasBought(rules, msg) < UINT64_LIMIT
      modifies this`gas
      ensures e.Accepted? <==> Pays(rules, msg)
      ensures e.Accepted? ==>
        initialGas == gas + if Exempt(rules, msg) then 0 else IntrinsicCost(msg, rules.homestead)
    {
      var intrinsicGas := 0;
      if !Exempt(rules, msg) {
        intrinsicGas := IntrinsicGas(msg.data, msg.to.None?, rules.homestead);
      }
      if intrinsicGas >= UINT64_LIMIT {
        return OutOfGas;
      }
      var ok := UseGas(intrinsicGas);
      e := if ok then Accepted else OutOfGas;
    }

    /** The refund and the payment for the used gas: together they return what
        the sender paid. */
    method Settle() returns (usedGas: nat)
      requires gas <= initialGas
      modifies this`gas, gp, state`balances
      ensures usedGas == old(GasUsed()) - Least(old(GasUsed()) / 2, state.refund)
      ensures gp.gas + usedGas == old(gp.gas) + initialGas
      ensures state.balances == PaidOut(old(state.balances), initialGas, usedGas)
      ensures Total(state.balances) == Total(old(state.balances)) + initialGas * msg.gasPrice
    {
      RefundGas();
      usedGas := GasUsed();
      var rewarded := if ToChief(rules, msg) then msg.from else coinbase;
      Paid(initialGas, gas, msg.gasPrice);
      state.AddBalance(rewarded, usedGas * msg.gasPrice);
    }

    static lemma {:induction false} Paid(bought: nat, left: nat, price: nat)
      requires left <= bought
      ensures left * price + (bought - left) * price == bought * price
    {
    }
  }
}
