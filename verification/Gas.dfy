/**
 Gas and balance accounting of core/state_transition.go, core/gaspool.go and
 core/state_processor.go. The virtual machine is a parameter that may change
 balances and nonces as it likes but never returns more gas than it was given.
 */
module Gas {
  import opened Basics

  type Address = nat

  type Balances = map<Address, int>

  type Nonces = map<Address, nat>

  const MAX_UINT64: nat := 0xFFFF_FFFF_FFFF_FFFF

  const TX_GAS: nat := 21000

  const TX_GAS_CONTRACT_CREATION: nat := 53000

  const TX_DATA_ZERO_GAS: nat := 4

  const TX_DATA_NON_ZERO_GAS: nat := 68

  // ----- Intrinsic gas -----

  function NonZeroBytes(data: seq<bv8>): (n: nat)
    ensures n <= |data|
  {
    if data == [] then 0 else NonZeroBytes(data[..|data| - 1]) + if data[|data| - 1] != 0 then 1 else 0
  }

  /** The intrinsic gas of a message, without any bound. */
  function TrueIntrinsicGas(data: seq<bv8>, contractCreation: bool): nat {
    var nz := NonZeroBytes(data);
    (if contractCreation then TX_GAS_CONTRACT_CREATION else TX_GAS)
    + nz * TX_DATA_NON_ZERO_GAS + (|data| - nz) * TX_DATA_ZERO_GAS
  }

  /** An empty message costs 21000, a creation 32000 more, one more byte 4 if it is zero and 68 if not. */
  lemma IntrinsicGasOf(data: seq<bv8>, x: bv8, contractCreation: bool)
    ensures TrueIntrinsicGas([], false) == 21000 && TrueIntrinsicGas(data, true) == TrueIntrinsicGas(data, false) + 32000
    ensures TrueIntrinsicGas(data + [x], contractCreation)
         == TrueIntrinsicGas(data, contractCreation) + if x == 0 then 4 else 68
  {
    assert (data + [x])[..|data|] == data;
  }

  /** Computed in 64 bits, it fails exactly when the true value does not fit. */
  method IntrinsicGas(data: seq<bv8>, contractCreation: bool) returns (gas: nat, err: bool)
    requires |data| <= MAX_UINT64
    ensures err <==> TrueIntrinsicGas(data, contractCreation) > MAX_UINT64
    ensures !err ==> gas == TrueIntrinsicGas(data, contractCreation)
  {
    gas := if contractCreation then TX_GAS_CONTRACT_CREATION else TX_GAS;
    if |data| > 0 {
      var nz := 0;
      for i := 0 to |data|
        invariant nz == NonZeroBytes(data[..i])
      {
        assert data[..i + 1][..i] == data[..i];
        if data[i] != 0 { nz := nz + 1; }
      }
      assert data[..|data|] == data;
      if (MAX_UINT64 - gas) / TX_DATA_NON_ZERO_GAS < nz { return 0, true; }
      gas := gas + nz * TX_DATA_NON_ZERO_GAS;
      var z := |data| - nz;
      if (MAX_UINT64 - gas) / TX_DATA_ZERO_GAS < z { return 0, true; }
      gas := gas + z * TX_DATA_ZERO_GAS;
    }
    err := false;
  }

  // ----- Balances -----

  function BalanceOf(m: Balances, a: Address): int {
    ValueOf(m, a)
  }

  function NonceOf(m: Nonces, a: Address): nat {
    if a in m then m[a] else 0
  }

  function AddBalance(m: Balances, a: Address, v: int): Balances {
    m[a := BalanceOf(m, a) + v]
  }

  ghost function Total(m: Balances): int {
    SumOf(m)
  }

  /** Adding to one balance adds to the total. */
  lemma TotalAdd(m: Balances, a: Address, v: int)
    ensures Total(AddBalance(m, a, v)) == Total(m) + v
  {
    SumUpdate(m, a, BalanceOf(m, a) + v);
  }

  // ----- The gas pool -----

  class GasPool {
    var gas: nat

    constructor ()
      ensures gas == 0
    {
      gas := 0;
    }

    /** Adding past 64 bits is a panic, reported as false. */
    method AddGas(amount: nat) returns (ok: bool)
      modifies this
      ensures ok <==> old(gas) + amount <= MAX_UINT64
      ensures gas == if ok then old(gas) + amount else old(gas)
    {
      if gas > MAX_UINT64 - amount { return false; }
      gas := gas + amount;
      return true;
    }

    method SubGas(amount: nat) returns (err: bool)
      modifies this
      ensures err <==> old(gas) < amount
      ensures gas == if err then old(gas) else old(gas) - amount
    {
      if gas < amount { return true; }
      gas := gas - amount;
      return false;
    }
  }

  // ----- Messages and the virtual machine -----

  datatype Destination = Create | To(address: Address)

  datatype Message = Message(hash: nat, from: Address, to: Destination, nonce: nat, checkNonce: bool, gas: nat,
                             gasPrice: nat, value: nat, data: seq<bv8>)

  datatype VmError = NoError | InsufficientBalance | OtherError

  /** What the machine leaves behind; `dead` are the accounts that destroyed themselves. */
  datatype Outcome = Outcome(gasLeft: nat, refund: nat, balances: Balances, nonces: Nonces, dead: set<Address>,
                             error: VmError)

  /** One run: which transaction of the block, the message, the state before and the gas supplied. */
  type Machine = (nat, Message, Balances, Nonces, nat) -> Outcome

  /** The machine returns no more gas than it was given. */
  ghost predicate Fair(evm: Machine) {
    forall i, m, b, n, g :: evm(i, m, b, n, g).gasLeft <= g
  }

  datatype TxError = NonceTooHigh | NonceTooLow | CannotPayGas | GasLimitReached | OutOfGas | CannotPayValue | Panic

  datatype Result<T> = Ok(value: T) | Err(error: TxError)

  /** What the refund counter gives back of the gas used: at most half. */
  function Refund(used: nat, counter: nat): (r: nat)
    ensures r <= counter && 2 * r <= used && (r == counter || 2 * r + 1 >= used)
  {
    if used / 2 > counter then counter else used / 2
  }

  /** What all of the message's gas costs. */
  function Cost(msg: Message): int {
    msg.gas * msg.gasPrice
  }

  /** The balances the machine starts with. */
  ghost function Prepaid(msg: Message, balances: Balances): Balances {
    AddBalance(balances, msg.from, -Cost(msg))
  }

  /** The sender gets back the gas left, the coinbase the price of the gas used. */
  ghost function Paid(msg: Message, balances: Balances, left: int, coinbase: Address): Balances {
    AddBalance(AddBalance(balances, msg.from, left * msg.gasPrice), coinbase, (msg.gas - left) * msg.gasPrice)
  }

  /** The gas a run uses up, after the refund. */
  ghost function UsedBy(msg: Message, run: Outcome): (used: nat)
    ensures used <= msg.gas
  {
    if run.gasLeft > msg.gas then 0
    else
      var used := msg.gas - run.gasLeft;
      used - Refund(used, run.refund)
  }

  lemma PrepaidTotal(msg: Message, balances: Balances)
    ensures Total(Prepaid(msg, balances)) == Total(balances) - Cost(msg)
  {
    TotalAdd(balances, msg.from, -Cost(msg));
  }

  lemma UsedAfterRefund(msg: Message, run: Outcome)
    requires run.gasLeft <= msg.gas
    ensures UsedBy(msg, run) == msg.gas - run.gasLeft - Refund(msg.gas - run.gasLeft, run.refund)
    ensures 2 * UsedBy(msg, run) >= msg.gas - run.gasLeft
  {}

  /** The machine's run for this message, on the state after gas was bought. */
  ghost function Execution(i: nat, msg: Message, evm: Machine, balances: Balances, nonces: Nonces): Outcome
    requires TrueIntrinsicGas(msg.data, msg.to.Create?) <= msg.gas
  {
    evm(i, msg, Prepaid(msg, balances),
        if msg.to.Create? then nonces else nonces[msg.from := NonceOf(nonces, msg.from) + 1],
        msg.gas - TrueIntrinsicGas(msg.data, msg.to.Create?))
  }

  /** The nonce is the expected one, and sender and block can afford the gas. */
  ghost predicate Buyable(msg: Message, balances: Balances, nonces: Nonces, pool: nat) {
    && (msg.checkNonce ==> NonceOf(nonces, msg.from) == msg.nonce)
    && BalanceOf(balances, msg.from) >= Cost(msg) && pool >= msg.gas
  }

  /** The message can be applied in this state. */
  ghost predicate Applicable(i: nat, msg: Message, evm: Machine, balances: Balances, nonces: Nonces, pool: nat) {
    && Buyable(msg, balances, nonces, pool)
    && TrueIntrinsicGas(msg.data, msg.to.Create?) <= msg.gas
    && Execution(i, msg, evm, balances, nonces).error != InsufficientBalance
  }

  /** Why the message cannot be applied: the first of the checks that fails. */
  ghost function Refusal(i: nat, msg: Message, evm: Machine, balances: Balances, nonces: Nonces, pool: nat)
    : (e: Option<TxError>)
    ensures e.None? <==> Applicable(i, msg, evm, balances, nonces, pool)
  {
    if msg.checkNonce && NonceOf(nonces, msg.from) < msg.nonce then Some(NonceTooHigh)
    else if msg.checkNonce && NonceOf(nonces, msg.from) > msg.nonce then Some(NonceTooLow)
    else if BalanceOf(balances, msg.from) < Cost(msg) then Some(CannotPayGas)
    else if pool < msg.gas then Some(GasLimitReached)
    else if TrueIntrinsicGas(msg.data, msg.to.Create?) > msg.gas then Some(OutOfGas)
    else if Execution(i, msg, evm, balances, nonces).error == InsufficientBalance then Some(CannotPayValue)
    else None
  }

  lemma RefusedAfterBuying(i: nat, msg: Message, evm: Machine, balances: Balances, nonces: Nonces, pool: nat)
    requires Buyable(msg, balances, nonces, pool)
    ensures var intrinsic := TrueIntrinsicGas(msg.data, msg.to.Create?);
            Refusal(i, msg, evm, balances, nonces, pool)
            == if intrinsic > msg.gas then Some(OutOfGas)
               else if Execution(i, msg, evm, balances, nonces).error == InsufficientBalance then Some(CannotPayValue)
               else None
  {}

  // ----- Money that self-destructed accounts take along -----

  /** Credits that arrive after the run at accounts about to be deleted. */
  ghost function Burnt(msg: Message, dead: set<Address>, used: nat, coinbase: Address): int {
    (if msg.from in dead then (msg.gas - used) * msg.gasPrice else 0) + if coinbase in dead then used * msg.gasPrice else 0
  }

  /** Some positive refund or fee goes to an account about to be deleted. */
  ghost predicate Burns(msg: Message, dead: set<Address>, used: nat, coinbase: Address) {
    msg.gasPrice > 0 && ((msg.from in dead && used < msg.gas) || (coinbase in dead && used > 0))
  }

  lemma PositiveProduct(a: nat, b: nat)
    ensures a * b >= 0 && (a * b > 0 <==> a > 0 && b > 0)
  {}

  lemma BurntIffBurns(msg: Message, dead: set<Address>, used: nat, coinbase: Address)
    requires used <= msg.gas
    ensures Burnt(msg, dead, used, coinbase) >= 0
    ensures Burnt(msg, dead, used, coinbase) > 0 <==> Burns(msg, dead, used, coinbase)
  {
    PositiveProduct(msg.gas - used, msg.gasPrice);
    PositiveProduct(used, msg.gasPrice);
  }

  /** A credit counts after deletion exactly if its account is not deleted. */
  lemma TotalWithout(m: Balances, a: Address, v: int, dead: set<Address>)
    ensures Total(AddBalance(m, a, v) - dead) == Total(m - dead) + if a in dead then 0 else v
  {
    if a in dead {
      assert AddBalance(m, a, v) - dead == m - dead;
    } else {
      assert AddBalance(m, a, v) - dead == AddBalance(m - dead, a, v);
      TotalAdd(m - dead, a, v);
    }
  }

  lemma Distribute(a: int, b: int, p: int)
    ensures (a - b) * p == a * p - b * p
  {}

  /** Once the dead are deleted, the total is the run's own, plus the prepayment, less what is burnt. */
  lemma FinalTotal(msg: Message, balances: Balances, dead: set<Address>, used: nat, coinbase: Address)
    requires used <= msg.gas
    ensures Total(Paid(msg, balances, msg.gas - used, coinbase) - dead)
         == Total(balances - dead) + Cost(msg) - Burnt(msg, dead, used, coinbase)
  {
    hide Total, AddBalance;
    var left := msg.gas - used;
    TotalWithout(balances, msg.from, left * msg.gasPrice, dead);
    TotalWithout(AddBalance(balances, msg.from, left * msg.gasPrice), coinbase, (msg.gas - left) * msg.gasPrice, dead);
    Distribute(msg.gas, used, msg.gasPrice);
  }

  // ----- Applying a message -----

  class StateDB {
    var balances: Balances
    var nonces: Nonces
    var suicided: set<Address>

    constructor (balances: Balances, nonces: Nonces)
      ensures this.balances == balances && this.nonces == nonces && suicided == {}
    {
      this.balances, this.nonces, suicided := balances, nonces, {};
    }

    /** Delete self-destructed accounts; empty ones count for nothing anyway. */
    method Finalise()
      modifies this
      ensures balances == old(balances) - old(suicided) && nonces == old(nonces) - old(suicided) && suicided == {}
    {
      balances, nonces := balances - suicided, nonces - suicided;
      suicided := {};
    }
  }

  class StateTransition {
    const gp: GasPool
    const msg: Message
    const state: StateDB
    var gas: nat
    var initialGas: nat

    constructor (gp: GasPool, msg: Message, state: StateDB)
      ensures this.gp == gp && this.msg == msg && this.state == state && gas == 0 && initialGas == 0
    {
      this.gp, this.msg, this.state, gas, initialGas := gp, msg, state, 0, 0;
    }

    /** Pay for all of the message's gas in advance. */
    method BuyGas() returns (err: Result<()>)
      requires gas == 0
      modifies this, gp, state`balances
      ensures var short := BalanceOf(old(state.balances), msg.from) < Cost(msg);
              && (err == Err(CannotPayGas) <==> short)
              && (err == Err(GasLimitReached) <==> !short && old(gp.gas) < msg.gas)
              && (err.Ok? <==> !short && old(gp.gas) >= msg.gas)
      ensures err.Ok? ==>
                && gas == initialGas == msg.gas && gp.gas == old(gp.gas) - msg.gas
                && state.balances == Prepaid(msg, old(state.balances))
                && BalanceOf(state.balances, msg.from) >= 0
      ensures err.Err? ==> gp.gas == old(gp.gas) && state.balances == old(state.balances)
    {
      var mgval := msg.gas * msg.gasPrice;
      if BalanceOf(state.balances, msg.from) < mgval { return Err(CannotPayGas); }
      var full := gp.SubGas(msg.gas);
      if full { return Err(GasLimitReached); }
      gas := gas + msg.gas;
      initialGas := msg.gas;
      state.balances := AddBalance(state.balances, msg.from, -mgval);
      return Ok(());
    }

    /** Nonce first, then gas; a message may ask for its nonce not to be checked. */
    method PreCheck() returns (err: Result<()>)
      requires gas == 0
      modifies this, gp, state`balances
      ensures err == Err(NonceTooHigh) <==> msg.checkNonce && NonceOf(state.nonces, msg.from) < msg.nonce
      ensures err == Err(NonceTooLow) <==> msg.checkNonce && NonceOf(state.nonces, msg.from) > msg.nonce
      ensures err.Ok? <==> Buyable(msg, old(state.balances), state.nonces, old(gp.gas))
      ensures err.Err? ==> err.error in {NonceTooHigh, NonceTooLow, CannotPayGas, GasLimitReached}
      ensures err == Err(CannotPayGas) ==> BalanceOf(old(state.balances), msg.from) < Cost(msg)
      ensures err == Err(GasLimitReached) ==> BalanceOf(old(state.balances), msg.from) >= Cost(msg) && old(gp.gas) < msg.gas
      ensures err.Ok? ==> gas == initialGas == msg.gas && gp.gas == old(gp.gas) - msg.gas
                          && state.balances == Prepaid(msg, old(state.balances))
      ensures err.Err? ==> gp.gas == old(gp.gas) && state.balances == old(state.balances)
    {
      if msg.checkNonce {
        var nonce := NonceOf(state.nonces, msg.from);
        if nonce < msg.nonce { return Err(NonceTooHigh); }
        if nonce > msg.nonce { return Err(NonceTooLow); }
      }
      err := BuyGas();
    }

    function GasUsed(): int
      reads this
    {
      initialGas - gas
    }

    /** Refund up to half of the gas used, and give back what is left to the sender and the pool. */
    method RefundGas(counter: nat) returns (ok: bool)
      requires gas <= initialGas && gp.gas + initialGas <= MAX_UINT64
      modifies this`gas, gp, state`balances
      ensures ok && gas == old(gas) + Refund(initialGas - old(gas), counter)
      ensures gp.gas == old(gp.gas) + gas
      ensures state.balances == AddBalance(old(state.balances), msg.from, gas * msg.gasPrice)
    {
      var refund := GasUsed() / 2;
      if refund > counter { refund := counter; }
      gas := gas + refund;
      state.balances := AddBalance(state.balances, msg.from, gas * msg.gasPrice);
      ok := gp.AddGas(gas);
    }

    /** Refund the sender and pay the coinbase: together all that was paid in advance. */
    method Settle(counter: nat, coinbase: Address) returns (ok: bool)
      requires gas <= initialGas == msg.gas && gp.gas + initialGas <= MAX_UINT64
      modifies this`gas, gp, state`balances
      ensures ok && gas == old(gas) + Refund(initialGas - old(gas), counter) && gp.gas == old(gp.gas) + gas
      ensures state.balances == Paid(msg, old(state.balances), gas, coinbase)
      ensures Total(state.balances) == Total(old(state.balances)) + Cost(msg)
    {
      hide Total;
      ok := RefundGas(counter);
      TotalAdd(old(state.balances), msg.from, gas * msg.gasPrice);
      TotalAdd(state.balances, coinbase, GasUsed() * msg.gasPrice);
      Distribute(initialGas, gas, msg.gasPrice);
      state.balances := AddBalance(state.balances, coinbase, GasUsed() * msg.gasPrice);
    }

    /** Pay the intrinsic gas and run the machine on what is left. */
    method RunMachine(i: nat, evm: Machine, ghost balances: Balances) returns (r: Result<Outcome>)
      requires gas == msg.gas <= MAX_UINT64 && |msg.data| <= MAX_UINT64 && Fair(evm)
      requires state.balances == Prepaid(msg, balances)
      modifies this`gas, state
      ensures var intrinsic := TrueIntrinsicGas(msg.data, msg.to.Create?);
              && (r == Err(OutOfGas) <==> intrinsic > msg.gas)
              && (r.Err? ==> r.error in {OutOfGas, CannotPayValue})
              && (intrinsic <= msg.gas ==>
                    var out := Execution(i, msg, evm, balances, old(state.nonces));
                    && (r == Err(CannotPayValue) <==> out.error == InsufficientBalance)
                    && (r.Ok? ==>
                          && r.value == out && gas == out.gasLeft <= msg.gas - intrinsic && state.balances == out.balances
                          && state.nonces == out.nonces && state.suicided == out.dead))
    {
      hide TrueIntrinsicGas, Prepaid;
      var intrinsic, tooMuch := IntrinsicGas(msg.data, msg.to.Create?);
      if tooMuch || gas < intrinsic { return Err(OutOfGas); }
      gas := gas - intrinsic;
      if msg.to.To? { state.nonces := state.nonces[msg.from := NonceOf(state.nonces, msg.from) + 1]; }
      var out := evm(i, msg, state.balances, state.nonces, gas);
      gas, state.balances, state.nonces, state.suicided := out.gasLeft, out.balances, out.nonces, out.dead;
      if out.error == InsufficientBalance { return Err(CannotPayValue); }
      return Ok(out);
    }

    /**
     Apply the message. Gas used leaves the pool for good, and up to the deletion
     of dead accounts only what the machine itself did changes the total.
     */
    method TransitionDb(i: nat, evm: Machine, coinbase: Address) returns (r: Result<(nat, bool)>)
      requires gas == 0 && Fair(evm) && gp.gas <= MAX_UINT64 && msg.gas <= MAX_UINT64 && |msg.data| <= MAX_UINT64
      modifies this, gp, state
      ensures r.Ok? <==> Applicable(i, msg, evm, old(state.balances), old(state.nonces), old(gp.gas))
      ensures r == Err(NonceTooHigh) <==> msg.checkNonce && NonceOf(old(state.nonces), msg.from) < msg.nonce
      ensures r == Err(NonceTooLow) <==> msg.checkNonce && NonceOf(old(state.nonces), msg.from) > msg.nonce
      ensures r.Err? ==> Refusal(i, msg, evm, old(state.balances), old(state.nonces), old(gp.gas)) == Some(r.error)
      ensures r != Err(Panic)
      ensures r.Ok? ==>
                && r.value.0 <= msg.gas && gp.gas == old(gp.gas) - r.value.0
                && TrueIntrinsicGas(msg.data, msg.to.Create?) <= 2 * r.value.0
                && var run := Execution(i, msg, evm, old(state.balances), old(state.nonces));
                   && r.value.1 == (run.error != NoError) && state.nonces == run.nonces && state.suicided == run.dead
                   && r.value.0 == UsedBy(msg, run)
                   && state.balances == Paid(msg, run.balances, msg.gas - r.value.0, coinbase)
                   && Total(state.balances) - old(Total(state.balances))
                      == Total(run.balances) - Total(Prepaid(msg, old(state.balances)))
    {
      hide Total, AddBalance, TrueIntrinsicGas, Buyable, Cost, Prepaid, Paid, UsedBy, Refund, Execution;
      ghost var balances, nonces := state.balances, state.nonces;
      var checked := PreCheck();
      if checked.Err? { return Err(checked.error); }
      RefusedAfterBuying(i, msg, evm, balances, nonces, old(gp.gas));
      var ran := RunMachine(i, evm, balances);
      if ran.Err? { return Err(ran.error); }
      var out := ran.value;
      var ok := Settle(out.refund, coinbase);
      if !ok { return Err(Panic); }
      PrepaidTotal(msg, old(state.balances));
      UsedAfterRefund(msg, out);
      return Ok((GasUsed(), out.error != NoError));
    }
  }

  // ----- A whole block -----

  datatype Log = Log(blockNumber: nat, blockHash: nat, txHash: nat, txIndex: nat, index: nat)

  /** contractAddress is zero unless the transaction created a contract. */
  datatype Receipt = Receipt(txHash: nat, failed: bool, contractAddress: Address, cumulativeGasUsed: nat, gasUsed: nat,
                             logs: seq<Log>)

  const NO_ADDRESS: Address := 0

  function GasBefore(rs: seq<Receipt>, j: nat): nat
    requires j <= |rs|
  {
    if j == 0 then 0 else rs[j - 1].cumulativeGasUsed
  }

  /** Each cumulative figure is the one before plus the transaction's own gas. */
  ghost predicate Accumulates(rs: seq<Receipt>) {
    rs == [] || (&& rs[|rs| - 1].cumulativeGasUsed == GasBefore(rs, |rs| - 1) + rs[|rs| - 1].gasUsed
                 && Accumulates(rs[..|rs| - 1]))
  }

  /** The cumulative figures fit into 64 bits. */
  ghost predicate Storable(rs: seq<Receipt>) {
    forall j :: 0 <= j < |rs| ==> rs[j].cumulativeGasUsed <= MAX_UINT64
  }

  lemma {:induction false} AccumulatesAt(rs: seq<Receipt>, j: nat)
    requires Accumulates(rs) && j < |rs|
    ensures rs[j].cumulativeGasUsed == GasBefore(rs, j) + rs[j].gasUsed
  {
    if j < |rs| - 1 { AccumulatesAt(rs[..|rs| - 1], j); }
  }

  function SumGas(rs: seq<Receipt>): nat {
    if rs == [] then 0 else SumGas(rs[..|rs| - 1]) + rs[|rs| - 1].gasUsed
  }

  lemma AccumulateMore(rs: seq<Receipt>, r: Receipt)
    requires Accumulates(rs) && r.cumulativeGasUsed == GasBefore(rs, |rs|) + r.gasUsed
    ensures Storable(rs) && r.cumulativeGasUsed <= MAX_UINT64 ==> Storable(rs + [r])
    ensures Accumulates(rs + [r]) && GasBefore(rs + [r], |rs| + 1) == r.cumulativeGasUsed
    ensures SumGas(rs + [r]) == SumGas(rs) + r.gasUsed
  {
    assert (rs + [r])[..|rs|] == rs;
  }

  /**
   One run of the machine: the balances it started with, those it leaves once
   the dead are deleted, and what refund and fee lose to the dead.
   */
  datatype Change = Change(before: Balances, after: Balances, burnt: nat)

  /** c is a run of the machine on the message, and burns something exactly if a credit goes to a dead account. */
  ghost predicate IsRun(evm: Machine, i: nat, msg: Message, coinbase: Address, c: Change) {
    exists nonces: Nonces, gas: nat ::
      var out := evm(i, msg, c.before, nonces, gas);
      && c.after == out.balances - out.dead && c.burnt == Burnt(msg, out.dead, UsedBy(msg, out), coinbase)
      && (c.burnt > 0 <==> Burns(msg, out.dead, UsedBy(msg, out), coinbase))
  }

  /** By how much the runs themselves changed the total. */
  ghost function NetChange(cs: seq<Change>): int {
    if cs == [] then 0 else NetChange(cs[..|cs| - 1]) + Total(cs[|cs| - 1].after) - Total(cs[|cs| - 1].before)
  }

  ghost function AllBurnt(cs: seq<Change>): nat {
    if cs == [] then 0 else AllBurnt(cs[..|cs| - 1]) + cs[|cs| - 1].burnt
  }

  lemma {:induction false} NoneBurnt(cs: seq<Change>)
    ensures AllBurnt(cs) == 0 <==> forall i :: 0 <= i < |cs| ==> cs[i].burnt == 0
  {
    if cs != [] { NoneBurnt(cs[..|cs| - 1]); }
  }

  lemma OneMoreChange(cs: seq<Change>, c: Change)
    ensures NetChange(cs + [c]) == NetChange(cs) + Total(c.after) - Total(c.before)
    ensures AllBurnt(cs + [c]) == AllBurnt(cs) + c.burnt
  {
    hide Total;
    assert (cs + [c])[..|cs|] == cs;
  }

  lemma Ran(i: nat, msg: Message, evm: Machine, balances: Balances, nonces: Nonces, coinbase: Address)
    requires TrueIntrinsicGas(msg.data, msg.to.Create?) <= msg.gas
    ensures var run := Execution(i, msg, evm, balances, nonces);
            var burnt := Burnt(msg, run.dead, UsedBy(msg, run), coinbase);
            burnt >= 0 && IsRun(evm, i, msg, coinbase, Change(Prepaid(msg, balances), run.balances - run.dead, burnt))
  {
    var run := Execution(i, msg, evm, balances, nonces);
    BurntIffBurns(msg, run.dead, UsedBy(msg, run), coinbase);
  }

  /** The created contract's address, for transactions that create one. */
  function Created(msg: Message, createAddress: (Address, nat) -> Address): Address {
    if msg.to.Create? then createAddress(msg.from, msg.nonce) else NO_ADDRESS
  }

  /**
   Apply one transaction of a block and finalise the state. The total moves by
   the run, less what is burnt: by the run alone if and only if no positive
   refund or fee is credited to an account that destroyed itself.
   */
  method ApplyTransaction(i: nat, msg: Message, gp: GasPool, state: StateDB, usedGas: nat, evm: Machine, coinbase: Address,
                          createAddress: (Address, nat) -> Address)
    returns (r: Result<Receipt>, ghost run: Change)
    requires Fair(evm) && gp.gas <= MAX_UINT64 && msg.gas <= MAX_UINT64 && |msg.data| <= MAX_UINT64
    modifies gp, state
    ensures r.Ok? <==> Applicable(i, msg, evm, old(state.balances), old(state.nonces), old(gp.gas))
    ensures r.Err? ==> Refusal(i, msg, evm, old(state.balances), old(state.nonces), old(gp.gas)) == Some(r.error)
    ensures r.Ok? ==>
              && r.value.gasUsed <= msg.gas && r.value.txHash == msg.hash
              && r.value.contractAddress == Created(msg, createAddress) && r.value.logs == []
              && gp.gas == old(gp.gas) - r.value.gasUsed && r.value.cumulativeGasUsed == usedGas + r.value.gasUsed
              && IsRun(evm, i, msg, coinbase, run)
              && Total(state.balances) == old(Total(state.balances)) + Total(run.after) - Total(run.before) - run.burnt
              && var out := Execution(i, msg, evm, old(state.balances), old(state.nonces));
                 && r.value.gasUsed == UsedBy(msg, out) && r.value.failed == (out.error != NoError)
                 && state.balances == Paid(msg, out.balances, msg.gas - UsedBy(msg, out), coinbase) - out.dead
                 && state.nonces == out.nonces - out.dead
                 && run.before == Prepaid(msg, old(state.balances)) && run.after == out.balances - out.dead
                 && run.burnt == Burnt(msg, out.dead, UsedBy(msg, out), coinbase)
                 && (run.burnt == 0 <==> !Burns(msg, out.dead, UsedBy(msg, out), coinbase))
  {
    hide Total, IsRun, Paid, Prepaid, Burnt, Burns, UsedBy;
    var st := new StateTransition(gp, msg, state);
    ghost var balances, nonces := state.balances, state.nonces;
    run := Change(balances, balances, 0);
    var applied := st.TransitionDb(i, evm, coinbase);
    if applied.Err? { return Err(applied.error), run; }
    ghost var out := Execution(i, msg, evm, balances, nonces);
    ghost var used := UsedBy(msg, out);
    Ran(i, msg, evm, balances, nonces, coinbase);
    BurntIffBurns(msg, out.dead, used, coinbase);
    FinalTotal(msg, out.balances, out.dead, used, coinbase);
    PrepaidTotal(msg, balances);
    state.Finalise();
    var gas := applied.value.0;
    run := Change(Prepaid(msg, balances), out.balances - out.dead, Burnt(msg, out.dead, used, coinbase));
    return Ok(Receipt(msg.hash, applied.value.1, Created(msg, createAddress), usedGas + gas, gas, [])), run;
  }

  const SELF_DESTRUCT_GAS: nat := 5000
  const SELF_DESTRUCT_REFUND: nat := 24000

  /** Account 9, once it can pay for pushing its caller and for destroying itself, does so. */
  function DestroyNine(b: Balances, n: Nonces, gas: nat): Outcome {
    if gas >= 2 + SELF_DESTRUCT_GAS then
      Outcome(gas - 2 - SELF_DESTRUCT_GAS, SELF_DESTRUCT_REFUND, b, n, {9}, NoError)
    else
      Outcome(0, 0, b, n, {}, OtherError)
  }

  lemma DeadCoinbaseRun(msg: Message, evm: Machine)
    requires msg == Message(0, 1, To(9), 0, true, 60000, 1, 0, [])
    requires forall i, m, b, n, g :: evm(i, m, b, n, g) == DestroyNine(b, n, g)
    ensures Fair(evm) && Applicable(0, msg, evm, map[1 := 100000], map[], 80000)
    ensures var out := Execution(0, msg, evm, map[1 := 100000], map[]);
            UsedBy(msg, out) == 13001 && Paid(msg, out.balances, 46999, 9) - out.dead == map[1 := 86999]
    ensures Total(map[1 := 86999]) == Total(map[1 := 100000]) - 13001
  {
    hide Total;
    var before: Balances := map[1 := 100000];
    TotalAdd(before, 1, -13001);
    assert AddBalance(before, 1, -13001) == map[1 := 86999];
    var out := Execution(0, msg, evm, before, map[]);
    assert out.balances == map[1 := 40000] && out.gasLeft == 33998;
    assert AddBalance(out.balances, 1, 46999) == map[1 := 86999];
    assert Paid(msg, out.balances, 46999, 9) - {9} == map[1 := 86999];
  }

  /**
   A coinbase that destroys itself in the transaction it is paid for: of 60000
   gas it is left with the fee for 13001 after the refund, at price 1, and the
   fee disappears with it, although the run moved no money.
   */
  method DeadCoinbaseLosesFee() returns (state: StateDB, r: Result<Receipt>)
    ensures r.Ok? && r.value.gasUsed == 13001 && state.balances == map[1 := 86999]
    ensures Total(state.balances) == Total(map[1 := 100000]) - 13001
  {
    var msg := Message(0, 1, To(9), 0, true, 60000, 1, 0, []);
    var evm: Machine := (i, m, b, n, g) => DestroyNine(b, n, g);
    DeadCoinbaseRun(msg, evm);
    hide *;
    state := new StateDB(map[1 := 100000], map[]);
    var gp := new GasPool();
    var ok := gp.AddGas(80000);
    ghost var run;
    r, run := ApplyTransaction(0, msg, gp, state, 0, evm, 9, (a, n) => NO_ADDRESS);
  }

  lemma NoReceipts()
    ensures Accumulates([]) && Storable([]) && SumGas([]) == GasBefore([], 0) == 0 && NetChange([]) == 0 && AllBurnt([]) == 0
  {}

  /** The accounts between two transactions of a block, and the gas left for the rest of it. */
  datatype Snapshot = Snapshot(balances: Balances, nonces: Nonces, pool: nat)

  /** The machine's run for message i of a block, or nothing if it cannot pay its intrinsic gas. */
  ghost function RunOf(evm: Machine, i: nat, msg: Message, b: Snapshot): Outcome {
    if TrueIntrinsicGas(msg.data, msg.to.Create?) <= msg.gas then Execution(i, msg, evm, b.balances, b.nonces)
    else Outcome(msg.gas, 0, b.balances, b.nonces, {}, OtherError)
  }

  /** The run settled with sender and coinbase, without the dead accounts; the gas used leaves the block's. */
  ghost function Settled(evm: Machine, i: nat, msg: Message, coinbase: Address, b: Snapshot): Snapshot {
    var out := RunOf(evm, i, msg, b);
    var used := UsedBy(msg, out);
    Snapshot(Paid(msg, out.balances, msg.gas - used, coinbase) - out.dead, out.nonces - out.dead,
             if used <= b.pool then b.pool - used else 0)
  }

  /** The state before message i of a block that starts with b. */
  ghost function Before(evm: Machine, msgs: seq<Message>, coinbase: Address, b: Snapshot, i: nat): Snapshot
    requires i <= |msgs|
  {
    if i == 0 then b else Settled(evm, i - 1, msgs[i - 1], coinbase, Before(evm, msgs, coinbase, b, i - 1))
  }

  ghost predicate ApplicableAt(evm: Machine, msgs: seq<Message>, coinbase: Address, b: Snapshot, i: nat)
    requires i < |msgs|
  {
    var s := Before(evm, msgs, coinbase, b, i);
    Applicable(i, msgs[i], evm, s.balances, s.nonces, s.pool)
  }

  /** All of the first n messages can be applied, each in the state the one before leaves. */
  ghost predicate AllApplicable(evm: Machine, msgs: seq<Message>, coinbase: Address, b: Snapshot, n: nat)
    requires n <= |msgs|
  {
    forall i {:trigger ApplicableAt(evm, msgs, coinbase, b, i)} ::
      0 <= i < n ==> ApplicableAt(evm, msgs, coinbase, b, i)
  }

  /** The block stops at message k, the first that cannot be applied, with this error. */
  ghost predicate StopsAt(evm: Machine, msgs: seq<Message>, coinbase: Address, b: Snapshot, k: nat, error: TxError) {
    && k < |msgs| && AllApplicable(evm, msgs, coinbase, b, k)
    && var s := Before(evm, msgs, coinbase, b, k);
       Refusal(k, msgs[k], evm, s.balances, s.nonces, s.pool) == Some(error)
  }

  /** What receipt and recorded change say of message i: outcome, address, gas and money of its run. */
  ghost predicate Reported(evm: Machine, i: nat, msg: Message, coinbase: Address, createAddress: (Address, nat) -> Address,
                           b: Snapshot, r: Receipt, c: Change) {
    var out := RunOf(evm, i, msg, b);
    var used := UsedBy(msg, out);
    && r.txHash == msg.hash && r.failed == (out.error != NoError) && r.gasUsed == used && r.logs == []
    && r.contractAddress == (if msg.to.Create? then createAddress(msg.from, msg.nonce) else NO_ADDRESS)
    && c.before == Prepaid(msg, b.balances) && c.after == out.balances - out.dead
    && c.burnt == Burnt(msg, out.dead, used, coinbase) && (c.burnt == 0 <==> !Burns(msg, out.dead, used, coinbase))
  }

  ghost predicate AllReported(evm: Machine, msgs: seq<Message>, coinbase: Address,
                              createAddress: (Address, nat) -> Address, b: Snapshot, rs: seq<Receipt>, cs: seq<Change>) {
    && |rs| == |cs| <= |msgs|
    && forall i {:trigger rs[i]} :: 0 <= i < |rs| ==>
         Reported(evm, i, msgs[i], coinbase, createAddress, Before(evm, msgs, coinbase, b, i), rs[i], cs[i])
  }

  lemma ReportedMore(evm: Machine, msgs: seq<Message>, coinbase: Address, createAddress: (Address, nat) -> Address, b: Snapshot,
                     rs: seq<Receipt>, cs: seq<Change>, r: Receipt, c: Change)
    requires AllReported(evm, msgs, coinbase, createAddress, b, rs, cs) && |rs| < |msgs|
    requires Reported(evm, |rs|, msgs[|rs|], coinbase, createAddress, Before(evm, msgs, coinbase, b, |rs|), r, c)
    ensures AllReported(evm, msgs, coinbase, createAddress, b, rs + [r], cs + [c])
  {
    hide Reported, Before;
    var more := rs + [r];
    forall i {:trigger more[i]} | 0 <= i < |more|
      ensures Reported(evm, i, msgs[i], coinbase, createAddress, Before(evm, msgs, coinbase, b, i), more[i], (cs + [c])[i])
    {
      if i < |rs| { assert more[i] == rs[i]; }
    }
  }

  lemma ApplicableMore(evm: Machine, msgs: seq<Message>, coinbase: Address, b: Snapshot, n: nat)
    requires n < |msgs| && AllApplicable(evm, msgs, coinbase, b, n) && ApplicableAt(evm, msgs, coinbase, b, n)
    ensures AllApplicable(evm, msgs, coinbase, b, n + 1)
  {
    hide ApplicableAt;
  }

  lemma NoneYet(evm: Machine, msgs: seq<Message>, coinbase: Address, createAddress: (Address, nat) -> Address, b: Snapshot)
    ensures AllApplicable(evm, msgs, coinbase, b, 0) && Before(evm, msgs, coinbase, b, 0) == b
    ensures AllReported(evm, msgs, coinbase, createAddress, b, [], [])
  {}

  lemma Stopped(evm: Machine, msgs: seq<Message>, coinbase: Address, b: Snapshot, k: nat, error: TxError)
    requires k < |msgs| && AllApplicable(evm, msgs, coinbase, b, k)
    requires var s := Before(evm, msgs, coinbase, b, k);
             Refusal(k, msgs[k], evm, s.balances, s.nonces, s.pool) == Some(error)
    ensures StopsAt(evm, msgs, coinbase, b, k, error)
  {}

  /** A block that stops at a message has one that cannot be applied. */
  lemma StoppedIsNotAll(evm: Machine, msgs: seq<Message>, coinbase: Address, b: Snapshot, k: nat, error: TxError)
    requires StopsAt(evm, msgs, coinbase, b, k, error)
    ensures !AllApplicable(evm, msgs, coinbase, b, |msgs|)
  {
    hide Before, Applicable, Refusal;
    assert !ApplicableAt(evm, msgs, coinbase, b, k);
  }

  /** One transaction of the block applied. */
  method ProcessOne(msgs: seq<Message>, i: nat, evm: Machine, coinbase: Address, createAddress: (Address, nat) -> Address,
                    gp: GasPool, state: StateDB, usedGas: nat, ghost b: Snapshot)
    returns (r: Result<Receipt>, ghost run: Change)
    requires i < |msgs| && Fair(evm) && gp.gas <= MAX_UINT64 && msgs[i].gas <= MAX_UINT64 && |msgs[i].data| <= MAX_UINT64
    requires Snapshot(state.balances, state.nonces, gp.gas) == Before(evm, msgs, coinbase, b, i)
    modifies gp, state
    ensures r.Ok? <==> ApplicableAt(evm, msgs, coinbase, b, i)
    ensures var s := Before(evm, msgs, coinbase, b, i);
            && (r.Err? ==> Refusal(i, msgs[i], evm, s.balances, s.nonces, s.pool) == Some(r.error))
            && (r.Ok? ==>
                  && Reported(evm, i, msgs[i], coinbase, createAddress, s, r.value, run)
                  && Snapshot(state.balances, state.nonces, gp.gas) == Before(evm, msgs, coinbase, b, i + 1)
                  && r.value.gasUsed <= msgs[i].gas && gp.gas == old(gp.gas) - r.value.gasUsed
                  && r.value.cumulativeGasUsed == usedGas + r.value.gasUsed && IsRun(evm, i, msgs[i], coinbase, run)
                  && Total(state.balances)
                     == old(Total(state.balances)) + Total(run.after) - Total(run.before) - run.burnt)
  {
    hide Total, IsRun, Paid, Prepaid, Burnt, Burns, UsedBy, Refusal, Execution, TrueIntrinsicGas, Buyable;
    r, run := ApplyTransaction(i, msgs[i], gp, state, usedGas, evm, coinbase, createAddress);
  }

  /**
   Process a block's messages: it succeeds if and only if each can be applied in
   the state the one before leaves, and then the state is the last one's. Each
   receipt tells outcome, created address and gas of its run. Gas used and gas
   left make up the block's limit, and the total of all balances changes by the
   machine's own runs alone if and only if none of them burns a credit.
   */
  method Process(msgs: seq<Message>, gasLimit: nat, evm: Machine, coinbase: Address,
                 createAddress: (Address, nat) -> Address, state: StateDB)
    returns (r: Result<seq<Receipt>>, usedGas: nat, gasLeft: nat, ghost runs: seq<Change>)
    requires gasLimit <= MAX_UINT64 && Fair(evm)
    requires forall m :: m in msgs ==> m.gas <= MAX_UINT64 && |m.data| <= MAX_UINT64
    modifies state
    ensures var b := Snapshot(old(state.balances), old(state.nonces), gasLimit);
            && (r.Ok? <==> AllApplicable(evm, msgs, coinbase, b, |msgs|))
            && (r.Err? ==> usedGas == 0 && exists k :: StopsAt(evm, msgs, coinbase, b, k, r.error))
            && (r.Ok? ==>
                  && Snapshot(state.balances, state.nonces, gasLeft) == Before(evm, msgs, coinbase, b, |msgs|)
                  && |r.value| == |msgs| && AllReported(evm, msgs, coinbase, createAddress, b, r.value, runs))
    ensures r.Ok? ==>
              && usedGas + gasLeft == gasLimit
              && |r.value| == |msgs| == |runs| && Accumulates(r.value) && Storable(r.value) && SumGas(r.value) == usedGas
              && GasBefore(r.value, |msgs|) == usedGas
              && (forall i :: 0 <= i < |msgs| ==> r.value[i].gasUsed <= msgs[i].gas)
              && (forall i :: 0 <= i < |msgs| ==> IsRun(evm, i, msgs[i], coinbase, runs[i]))
              && Total(state.balances) == old(Total(state.balances)) + NetChange(runs) - AllBurnt(runs)
              && (Total(state.balances) == old(Total(state.balances)) + NetChange(runs)
                  <==> forall i :: 0 <= i < |runs| ==> runs[i].burnt == 0)
  {
    hide *;
    NoReceipts();
    ghost var b := Snapshot(state.balances, state.nonces, gasLimit);
    NoneYet(evm, msgs, coinbase, createAddress, b);
    var gp := new GasPool();
    var fits := gp.AddGas(gasLimit);
    var receipts: seq<Receipt> := [];
    usedGas, gasLeft, runs := 0, gasLimit, [];
    for i := 0 to |msgs|
      invariant fresh(gp) && usedGas + gp.gas == gasLimit && |receipts| == |runs| == i
      invariant Snapshot(state.balances, state.nonces, gp.gas) == Before(evm, msgs, coinbase, b, i)
      invariant AllApplicable(evm, msgs, coinbase, b, i)
      invariant AllReported(evm, msgs, coinbase, createAddress, b, receipts, runs)
      invariant Accumulates(receipts) && SumGas(receipts) == usedGas == GasBefore(receipts, i) && Storable(receipts)
      invariant forall j :: 0 <= j < i ==> receipts[j].gasUsed <= msgs[j].gas
      invariant forall j :: 0 <= j < i ==> IsRun(evm, j, msgs[j], coinbase, runs[j])
      invariant Total(state.balances) == old(Total(state.balances)) + NetChange(runs) - AllBurnt(runs)
    {
      var applied;
      ghost var run;
      applied, run := ProcessOne(msgs, i, evm, coinbase, createAddress, gp, state, usedGas, b);
      if applied.Err? {
        Stopped(evm, msgs, coinbase, b, i, applied.error);
        StoppedIsNotAll(evm, msgs, coinbase, b, i, applied.error);
        return Err(applied.error), 0, gp.gas, runs;
      }
      usedGas := applied.value.cumulativeGasUsed;
      ApplicableMore(evm, msgs, coinbase, b, i);
      ReportedMore(evm, msgs, coinbase, createAddress, b, receipts, runs, applied.value, run);
      OneMoreChange(runs, run);
      runs := runs + [run];
      AccumulateMore(receipts, applied.value);
      receipts := receipts + [applied.value];
    }
    NoneBurnt(runs);
    return Ok(receipts), usedGas, gp.gas, runs;
  }

  // ----- Receipts recomputed from stored ones -----

  /** 64-bit subtraction. */
  function WrapSub(a: nat, b: nat): nat
    requires a <= MAX_UINT64 && b <= MAX_UINT64
  {
    if a >= b then a - b else a - b + MAX_UINT64 + 1
  }

  function LogsBefore(rs: seq<Receipt>, j: nat): nat
    requires j <= |rs|
  {
    if j == 0 then 0 else LogsBefore(rs, j - 1) + |rs[j - 1].logs|
  }

  /** The block whose receipts are derived. */
  datatype Header = Header(number: nat, hash: nat)

  function NumberLogs(count: nat, block: Header, txHash: nat, txIndex: nat, first: nat): (r: seq<Log>)
    ensures |r| == count
  {
    seq(count, k requires 0 <= k => Log(block.number, block.hash, txHash, txIndex, first + k))
  }

  /** The derived fields of receipt j; a contract address already there stays if nothing was created. */
  function Derived(block: Header, msgs: seq<Message>, createAddress: (Address, nat) -> Address, rs: seq<Receipt>, j: nat)
    : Receipt
    requires j < |rs| == |msgs|
    requires rs[j].cumulativeGasUsed <= MAX_UINT64 && GasBefore(rs, j) <= MAX_UINT64
  {
    Receipt(msgs[j].hash, rs[j].failed,
            if msgs[j].to.Create? then createAddress(msgs[j].from, msgs[j].nonce) else rs[j].contractAddress,
            rs[j].cumulativeGasUsed, WrapSub(rs[j].cumulativeGasUsed, GasBefore(rs, j)),
            NumberLogs(|rs[j].logs|, block, msgs[j].hash, j, LogsBefore(rs, j)))
  }

  method SetReceiptsData(block: Header, msgs: seq<Message>, createAddress: (Address, nat) -> Address,
                         receipts: array<Receipt>)
    returns (err: bool)
    requires Storable(receipts[..])
    modifies receipts
    ensures err <==> |msgs| != receipts.Length
    ensures err ==> receipts[..] == old(receipts[..])
    ensures !err ==> forall j :: 0 <= j < receipts.Length ==>
                       receipts[j] == Derived(block, msgs, createAddress, old(receipts[..]), j)
  {
    if |msgs| != receipts.Length { return true; }
    ghost var rs := receipts[..];
    var logIndex := 0;
    for j := 0 to receipts.Length
      invariant logIndex == LogsBefore(rs, j)
      invariant forall i :: 0 <= i < j ==> receipts[i] == Derived(block, msgs, createAddress, rs, i)
      invariant forall i :: j <= i < receipts.Length ==> receipts[i] == rs[i]
    {
      var r, m := receipts[j], msgs[j];
      var address := if m.to.Create? then createAddress(m.from, m.nonce) else r.contractAddress;
      var before := if j == 0 then 0 else receipts[j - 1].cumulativeGasUsed;
      assert before == GasBefore(rs, j);
      var logs := [];
      for k := 0 to |r.logs|
        invariant logs == NumberLogs(k, block, m.hash, j, LogsBefore(rs, j)) && logIndex == LogsBefore(rs, j) + k
      {
        logs := logs + [Log(block.number, block.hash, m.hash, j, logIndex)];
        logIndex := logIndex + 1;
      }
      receipts[j] := Receipt(m.hash, r.failed, address, r.cumulativeGasUsed, WrapSub(r.cumulativeGasUsed, before), logs);
    }
    return false;
  }

  /** From the cumulative figures alone, each transaction's own gas comes back. */
  lemma GasIsRecovered(block: Header, msgs: seq<Message>, createAddress: (Address, nat) -> Address, rs: seq<Receipt>,
                       stored: seq<Receipt>, j: nat)
    requires Accumulates(rs) && Storable(rs) && |stored| == |rs| == |msgs| && j < |rs|
    requires forall i :: 0 <= i < |rs| ==> stored[i].cumulativeGasUsed == rs[i].cumulativeGasUsed
    ensures GasBefore(stored, j) <= MAX_UINT64 && Derived(block, msgs, createAddress, stored, j).gasUsed == rs[j].gasUsed
  {
    AccumulatesAt(rs, j);
  }

  /** Log numbers run on through the block without gap or repetition. */
  lemma LogsAreNumbered(block: Header, msgs: seq<Message>, createAddress: (Address, nat) -> Address, rs: seq<Receipt>,
                        j: nat, k: nat)
    requires Storable(rs) && |rs| == |msgs| && j < |rs| && k < |rs[j].logs|
    ensures GasBefore(rs, j) <= MAX_UINT64
    ensures Derived(block, msgs, createAddress, rs, j).logs[k].index == LogsBefore(rs, j) + k
    ensures j + 1 < |rs| && k + 1 == |rs[j].logs| ==> LogsBefore(rs, j + 1) == LogsBefore(rs, j) + k + 1
  {
    assert j > 0 ==> rs[j - 1].cumulativeGasUsed <= MAX_UINT64;
  }
}
