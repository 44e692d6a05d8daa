/** Account balances and the gas pool: the state that core/state_transition.go
    and core/gaspool.go update. */
module Ledger {

  type Address = nat

  /** The sum of all balances. */
  ghost function Total(m: map<Address, int>): int
    decreases |m|
  {
    if m.Keys == {} then 0
    else
      var a: Address :| a in m;
      m[a] + Total(m - {a})
  }

  lemma {:induction false} TotalWithout(m: map<Address, int>, a: Address)
    requires a in m
    ensures Total(m) == m[a] + Total(m - {a})
    decreases |m|
  {
    var b: Address :| b in m && Total(m) == m[b] + Total(m - {b});
    if a != b {
      TotalWithout(m - {b}, a);
      TotalWithout(m - {a}, b);
      assert (m - {b}) - {a} == (m - {a}) - {b};
    }
  }

  function BalanceOf(m: map<Address, int>, a: Address): int {
    if a in m then m[a] else 0
  }

  function Credit(m: map<Address, int>, a: Address, amount: int): map<Address, int> {
    m[a := BalanceOf(m, a) + amount]
  }

  /** Changing one balance changes the sum by as much. */
  lemma {:induction false} TotalUpdate(m: map<Address, int>, a: Address, x: int)
    ensures Total(m[a := x]) == Total(m) - BalanceOf(m, a) + x
  {
    TotalWithout(m[a := x], a);
    if a in m {
      TotalWithout(m, a);
      assert m[a := x] - {a} == m - {a};
    } else {
      assert m[a := x] - {a} == m;
    }
  }

  class GasPool {
    var gas: nat

    constructor ()
      ensures gas == 0
    {
      gas := 0;
    }

    method AddGas(amount: nat)
      modifies this
      ensures gas == old(gas) + amount
    {
      gas := gas + amount;
    }

    method SubGas(amount: nat) returns (ok: bool)
      modifies this
      ensures ok <==> old(gas) >= amount
      ensures gas == if ok then old(gas) - amount else old(gas)
    {
      ok := gas >= amount;
      if ok {
        gas := gas - amount;
      }
    }
  }

  datatype VmError = VmOk | VmInsufficientBalance | VmOther

  /** A payment between two accounts. */
  datatype Transfer = Transfer(from: Address, to: Address, amount: int)

  function Paid(m: map<Address, int>, t: Transfer): map<Address, int> {
    Credit(Credit(m, t.from, -t.amount), t.to, t.amount)
  }

  function Transferred(m: map<Address, int>, ts: seq<Transfer>): map<Address, int> {
    if ts == [] then m else Paid(Transferred(m, ts[..|ts| - 1]), ts[|ts| - 1])
  }

  lemma {:induction false} CreditTotal(m: map<Address, int>, a: Address, amount: int)
    ensures Total(Credit(m, a, amount)) == Total(m) + amount
  {
    TotalUpdate(m, a, BalanceOf(m, a) + amount);
  }

  /** What an account gains by some payments. */
  function Net(ts: seq<Transfer>, a: Address): int {
    if ts == [] then 0
    else
      var t := ts[|ts| - 1];
      Net(ts[..|ts| - 1], a) - (if t.from == a then t.amount else 0) + (if t.to == a then t.amount else 0)
  }

  lemma {:induction false} NetIs(m: map<Address, int>, ts: seq<Transfer>, a: Address)
    ensures BalanceOf(Transferred(m, ts), a) == BalanceOf(m, a) + Net(ts, a)
    decreases |ts|
  {
    if ts != [] {
      NetIs(m, ts[..|ts| - 1], a);
    }
  }

  /** Payments change no sum of balances. */
  lemma {:induction false} TransfersConserve(m: map<Address, int>, ts: seq<Transfer>)
    ensures Total(Transferred(m, ts)) == Total(m)
    decreases |ts|
  {
    if ts != [] {
      var t, before := ts[|ts| - 1], Transferred(m, ts[..|ts| - 1]);
      TransfersConserve(m, ts[..|ts| - 1]);
      CreditTotal(before, t.from, -t.amount);
      CreditTotal(Credit(before, t.from, -t.amount), t.to, t.amount);
    }
  }

  /** What a step of the virtual machine does: the gas it asks for, how it ends, the
      payments it makes, the refund counter and the nonces it leaves. */
  datatype VmStep = VmStep(used: nat, err: VmError, transfers: seq<Transfer>, refund: nat, nonces: map<Address, nat>)

  class StateDb {
    var balances: map<Address, int>
    var nonces: map<Address, nat>
    var refund: nat

    constructor (balances: map<Address, int>, nonces: map<Address, nat>)
      ensures this.balances == balances && this.nonces == nonces
    {
      this.balances, this.nonces, refund := balances, nonces, 0;
    }

    method AddBalance(a: Address, amount: int)
      modifies this`balances
      ensures balances == Credit(old(balances), a, amount)
      ensures Total(balances) == Total(old(balances)) + amount
    {
      CreditTotal(balances, a, amount);
      balances := balances[a := BalanceOf(balances, a) + amount];
    }

    /** Create or Call of the virtual machine: any step that conserves the sum of
        balances and returns no more gas than it was given. */
    method Execute(gas: nat, step: VmStep) returns (left: nat)
      modifies this
      ensures balances == Transferred(old(balances), step.transfers) && Total(balances) == Total(old(balances))
      ensures nonces == old(nonces) + step.nonces && refund == step.refund
      ensures left == if step.used <= gas then gas - step.used else 0
    {
      left := if step.used <= gas then gas - step.used else 0;
      nonces, refund := nonces + step.nonces, step.refund;
      TransfersConserve(balances, step.transfers);
      PayAll(step.transfers);
    }

    method PayAll(ts: seq<Transfer>)
      modifies this`balances
      ensures balances == Transferred(old(balances), ts)
    {
      for i := 0 to |ts|
        invariant balances == Transferred(old(balances), ts[..i])
      {
        assert ts[..i + 1][..i] == ts[..i];
        AddBalance(ts[i].from, -ts[i].amount);
        AddBalance(ts[i].to, ts[i].amount);
      }
      assert ts[..|ts|] == ts;
    }
  }
}
