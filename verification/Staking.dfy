/** The staking contract and its ERC-20 token (contracts/evm/contracts/CclawStaking.sol, CclawToken.sol).
    The token's arithmetic is the ERC-20 base contract's: checked, except for the receiver's balance. */
module Staking {
  import opened Options

  type Address = nat

  const ZERO: Address := 0
  const TWO_256: int := 0x1_0000000000000000_0000000000000000_0000000000000000_0000000000000000
  const MAX: nat := TWO_256 - 1

  type Uint256 = n: int | 0 <= n < TWO_256

  datatype Ledger = Ledger(
    owner: Address,
    balances: map<Address, nat>,
    allowances: map<(Address, Address), nat>,
    supply: nat)

  /** The token and the stakes recorded by the contract at address self. */
  datatype World = World(self: Address, ledger: Ledger, stakes: map<Address, nat>)

  /** A Solidity mapping: absent keys read as zero. */
  function At<K>(m: map<K, nat>, k: K): nat {
    if k in m then m[k] else 0
  }

  // ----- the ERC-20 token: None is a revert -----

  function Move(l: Ledger, from: Address, to: Address, amount: nat): Option<Ledger> {
    if from == ZERO || to == ZERO || At(l.balances, from) < amount then None else
    var debited := l.balances[from := At(l.balances, from) - amount];
    Some(l.(balances := debited[to := (At(debited, to) + amount) % TWO_256]))
  }

  function Spend(l: Ledger, holder: Address, spender: Address, amount: nat): Option<Ledger> {
    var allowance := At(l.allowances, (holder, spender));
    if allowance == MAX then Some(l)
    else if allowance < amount then None
    else if holder == ZERO || spender == ZERO then None
    else Some(l.(allowances := l.allowances[(holder, spender) := allowance - amount]))
  }

  function MoveFrom(l: Ledger, spender: Address, from: Address, to: Address, amount: nat): Option<Ledger> {
    match Spend(l, from, spender, amount)
    case None => None
    case Some(spent) => Move(spent, from, to, amount)
  }

  function Minted(l: Ledger, caller: Address, to: Address, amount: nat): Option<Ledger> {
    if caller != l.owner || to == ZERO || l.supply + amount > MAX then None
    else Some(l.(supply := l.supply + amount,
                 balances := l.balances[to := (At(l.balances, to) + amount) % TWO_256]))
  }

  // ----- transactions -----

  datatype Op =
    | Mint(caller: Address, to: Address, amount: Uint256)
    | Approve(caller: Address, spender: Address, amount: Uint256)
    | Transfer(caller: Address, to: Address, amount: Uint256)
    | TransferFrom(caller: Address, from: Address, to: Address, amount: Uint256)
    | Deposit(caller: Address, amount: Uint256)
    | Claim(caller: Address)
    | ClaimAmount(caller: Address, amount: Uint256)

  /** The payout shared by claim and claimAmount: the stake is reduced first. */
  function Paid(w: World, caller: Address, amount: nat): Option<World>
    requires amount <= At(w.stakes, caller)
  {
    match Move(w.ledger, w.self, caller, amount)
    case None => None
    case Some(l) => Some(w.(ledger := l, stakes := w.stakes[caller := At(w.stakes, caller) - amount]))
  }

  /** The state after a transaction, or None when it reverts. */
  function Apply(w: World, op: Op): Option<World> {
    match op
    case Mint(caller, to, amount) => OnLedger(w, Minted(w.ledger, caller, to, amount))
    case Approve(caller, spender, amount) =>
      if spender == ZERO then None
      else Some(w.(ledger := w.ledger.(allowances := w.ledger.allowances[(caller, spender) := amount])))
    case Transfer(caller, to, amount) => OnLedger(w, Move(w.ledger, caller, to, amount))
    case TransferFrom(caller, from, to, amount) => OnLedger(w, MoveFrom(w.ledger, caller, from, to, amount))
    case Deposit(caller, amount) =>
      if amount == 0 then None else
      (match MoveFrom(w.ledger, w.self, caller, w.self, amount)
       case None => None
       case Some(l) =>
         var stake := At(w.stakes, caller) + amount;
         if stake > MAX then None else Some(w.(ledger := l, stakes := w.stakes[caller := stake])))
    case Claim(caller) =>
      if At(w.stakes, caller) == 0 then None else Paid(w, caller, At(w.stakes, caller))
    case ClaimAmount(caller, amount) =>
      if amount == 0 || At(w.stakes, caller) < amount then None else Paid(w, caller, amount)
  }

  function OnLedger(w: World, l: Option<Ledger>): Option<World> {
    match l case None => None case Some(ledger) => Some(w.(ledger := ledger))
  }

  // ----- sums over a mapping -----

  ghost function Sum(m: map<Address, nat>): nat {
    if m == map[] then 0 else
    var k :| k in m;
    m[k] + Sum(m - {k})
  }

  lemma {:induction false} SumWithout(m: map<Address, nat>, k: Address)
    requires k in m
    ensures Sum(m) == m[k] + Sum(m - {k})
    decreases |m|
  {
    var j :| j in m && Sum(m) == m[j] + Sum(m - {j});
    if j != k {
      SumWithout(m - {j}, k);
      SumWithout(m - {k}, j);
      assert m - {j} - {k} == m - {k} - {j};
    }
  }

  lemma SumUpdate(m: map<Address, nat>, k: Address, v: nat)
    ensures Sum(m[k := v]) == Sum(m) - At(m, k) + v
  {
    var next := m[k := v];
    SumWithout(next, k);
    assert next - {k} == m - {k};
    if k in m {
      SumWithout(m, k);
    } else {
      assert m - {k} == m;
    }
  }

  lemma AtMostSum(m: map<Address, nat>, k: Address)
    ensures At(m, k) <= Sum(m)
  {
    if k in m { SumWithout(m, k); }
  }

  lemma PairAtMostSum(m: map<Address, nat>, j: Address, k: Address)
    requires j != k
    ensures At(m, j) + At(m, k) <= Sum(m)
  {
    if j in m {
      SumWithout(m, j);
      AtMostSum(m - {j}, k);
    } else {
      AtMostSum(m, k);
    }
  }

  // ----- the invariant -----

  ghost predicate LedgerInv(l: Ledger) {
    Sum(l.balances) == l.supply <= MAX
  }

  /** The contract holds at least what it owes, and lets nobody spend for it. */
  ghost predicate Solvent(w: World) {
    && w.self != ZERO && LedgerInv(w.ledger)
    && Sum(w.stakes) <= At(w.ledger.balances, w.self)
    && forall spender :: At(w.ledger.allowances, (w.self, spender)) == 0
  }

  /** A transfer conserves the supply and moves exactly the amount; the unchecked addition never wraps. */
  lemma MoveConserves(l: Ledger, from: Address, to: Address, amount: nat)
    requires LedgerInv(l) && Move(l, from, to, amount).Some?
    ensures var next := Move(l, from, to, amount).value;
            && LedgerInv(next) && next == l.(balances := next.balances)
            && forall a :: At(next.balances, a) ==
                 At(l.balances, a) - (if a == from then amount else 0) + (if a == to then amount else 0)
  {
    hide Sum;
    var debited := l.balances[from := At(l.balances, from) - amount];
    SumUpdate(l.balances, from, At(l.balances, from) - amount);
    AtMostSum(debited, to);
    assert At(debited, to) + amount < TWO_256;
    SumUpdate(debited, to, At(debited, to) + amount);
  }

  lemma MintKeepsLedger(l: Ledger, caller: Address, to: Address, amount: nat)
    requires LedgerInv(l) && Minted(l, caller, to, amount).Some?
    ensures var next := Minted(l, caller, to, amount).value;
            && LedgerInv(next) && next.allowances == l.allowances
            && forall a :: At(next.balances, a) == At(l.balances, a) + (if a == to then amount else 0)
  {
    hide Sum;
    AtMostSum(l.balances, to);
    assert At(l.balances, to) + amount < TWO_256;
    SumUpdate(l.balances, to, At(l.balances, to) + amount);
  }

  /** Every transaction not sent by the contract itself keeps the contract solvent. */
  lemma ApplyKeepsSolvent(w: World, op: Op)
    requires Solvent(w) && op.caller != w.self && Apply(w, op).Some?
    ensures Solvent(Apply(w, op).value) && Apply(w, op).value.self == w.self
  {
    hide Sum;
    var next := Apply(w, op).value;
    match op
    case Mint(caller, to, amount) => MintKeepsLedger(w.ledger, caller, to, amount);
    case Approve(_, _, _) =>
    case Transfer(caller, to, amount) => MoveConserves(w.ledger, caller, to, amount);
    case TransferFrom(caller, from, to, amount) =>
      MoveConserves(Spend(w.ledger, from, caller, amount).value, from, to, amount);
    case Deposit(caller, amount) =>
      MoveConserves(Spend(w.ledger, caller, w.self, amount).value, caller, w.self, amount);
      SumUpdate(w.stakes, caller, At(w.stakes, caller) + amount);
    case Claim(caller) =>
      MoveConserves(w.ledger, w.self, caller, At(w.stakes, caller));
      SumUpdate(w.stakes, caller, 0);
    case ClaimAmount(caller, amount) =>
      MoveConserves(w.ledger, w.self, caller, amount);
      SumUpdate(w.stakes, caller, At(w.stakes, caller) - amount);
  }

  // ----- whole histories -----

  /** A reverted transaction leaves no trace. */
  function After(w: World, op: Op): World {
    match Apply(w, op) case Some(next) => next case None => w
  }

  function AfterAll(w: World, ops: seq<Op>): World {
    if ops == [] then w else After(AfterAll(w, ops[..|ops| - 1]), ops[|ops| - 1])
  }

  lemma {:induction false} HistoryKeepsSolvent(w: World, ops: seq<Op>)
    requires Solvent(w) && forall i :: 0 <= i < |ops| ==> ops[i].caller != w.self
    ensures Solvent(AfterAll(w, ops)) && AfterAll(w, ops).self == w.self
  {
    hide Solvent, Apply;
    if ops != [] {
      var op := ops[|ops| - 1];
      HistoryKeepsSolvent(w, ops[..|ops| - 1]);
      var before := AfterAll(w, ops[..|ops| - 1]);
      if Apply(before, op).Some? {
        ApplyKeepsSolvent(before, op);
      }
    }
  }

  /** A freshly deployed contract is solvent. */
  lemma DeployedSolvent(self: Address, ledger: Ledger)
    requires self != ZERO && LedgerInv(ledger)
    requires forall spender :: At(ledger.allowances, (self, spender)) == 0
    ensures Solvent(World(self, ledger, map[]))
  {
  }

  /** Whatever anybody did before, any user can claim the whole recorded stake, and gets exactly it. */
  lemma StakeAlwaysClaimable(w: World, ops: seq<Op>, user: Address)
    requires Solvent(w) && forall i :: 0 <= i < |ops| ==> ops[i].caller != w.self
    requires user != w.self && user != ZERO
    ensures var now := AfterAll(w, ops);
            At(now.stakes, user) > 0 ==>
              && Apply(now, Claim(user)).Some?
              && At(Apply(now, Claim(user)).value.stakes, user) == 0
              && At(Apply(now, Claim(user)).value.ledger.balances, user)
                 == At(now.ledger.balances, user) + At(now.stakes, user)
  {
    hide Sum, AfterAll;
    HistoryKeepsSolvent(w, ops);
    var now := AfterAll(w, ops);
    if At(now.stakes, user) > 0 {
      AtMostSum(now.stakes, user);
      MoveConserves(now.ledger, now.self, user, At(now.stakes, user));
    }
  }

  /** What a user owns counts the stake: staking calls move it without changing it, for anybody. */
  lemma StakingConservesWealth(w: World, op: Op, user: Address)
    requires Solvent(w) && user != w.self && op.caller != w.self
    requires op.Deposit? || op.Claim? || op.ClaimAmount?
    ensures var next := After(w, op);
            && At(next.ledger.balances, user) + At(next.stakes, user)
                  == At(w.ledger.balances, user) + At(w.stakes, user)
            && next.ledger.supply == w.ledger.supply
  {
    hide Sum;
    if Apply(w, op).Some? {
      match op
      case Deposit(caller, amount) =>
        MoveConserves(Spend(w.ledger, caller, w.self, amount).value, caller, w.self, amount);
      case Claim(caller) => MoveConserves(w.ledger, w.self, caller, At(w.stakes, caller));
      case ClaimAmount(caller, amount) => MoveConserves(w.ledger, w.self, caller, amount);
    }
  }

  /** The checked addition in deposit never is what reverts: a deposit succeeds exactly when it is
      positive and the token lets the contract take it. */
  lemma DepositSucceedsIff(w: World, caller: Address, amount: Uint256)
    requires Solvent(w) && caller != w.self
    ensures Apply(w, Deposit(caller, amount)).Some? <==>
              && amount > 0 && caller != ZERO && amount <= At(w.ledger.balances, caller)
              && amount <= At(w.ledger.allowances, (caller, w.self))
  {
    hide Sum;
    AtMostSum(w.stakes, caller);
    PairAtMostSum(w.ledger.balances, caller, w.self);
  }

  /** What a deposit does: tokens become stake, the allowance is used up by the amount unless it is infinite, and
      nobody else is touched. */
  lemma DepositMoves(w: World, caller: Address, amount: Uint256, user: Address)
    requires Solvent(w) && caller != w.self && Apply(w, Deposit(caller, amount)).Some? && user != w.self
    ensures var (next, moved) := (Apply(w, Deposit(caller, amount)).value, if user == caller then amount else 0);
            && At(next.stakes, user) == At(w.stakes, user) + moved
            && At(next.ledger.balances, user) == At(w.ledger.balances, user) - moved
            && At(next.ledger.balances, w.self) == At(w.ledger.balances, w.self) + amount
            && At(next.ledger.allowances, (caller, w.self))
                 == (if At(w.ledger.allowances, (caller, w.self)) == MAX then MAX
                     else At(w.ledger.allowances, (caller, w.self)) - amount)
  {
    hide Sum;
    MoveConserves(Spend(w.ledger, caller, w.self, amount).value, caller, w.self, amount);
  }

  /** A partial claim succeeds exactly for what is staked, and stake becomes tokens. */
  lemma ClaimAmountMoves(w: World, caller: Address, amount: Uint256, user: Address)
    requires Solvent(w) && caller != w.self && user != w.self
    ensures Apply(w, ClaimAmount(caller, amount)).Some? <==>
              caller != ZERO && 0 < amount <= At(w.stakes, caller)
    ensures Apply(w, ClaimAmount(caller, amount)).Some? ==>
              var (next, moved) := (Apply(w, ClaimAmount(caller, amount)).value, if user == caller then amount else 0);
              && At(next.stakes, user) == At(w.stakes, user) - moved
              && At(next.ledger.balances, user) == At(w.ledger.balances, user) + moved
  {
    hide Sum;
    AtMostSum(w.stakes, caller);
    if Apply(w, ClaimAmount(caller, amount)).Some? {
      MoveConserves(w.ledger, w.self, caller, amount);
    }
  }

  /** A transfer succeeds exactly when sender and receiver are not the zero address and the tokens are there, and
      then moves them. */
  lemma TransferMoves(w: World, caller: Address, to: Address, amount: Uint256, user: Address)
    requires LedgerInv(w.ledger)
    ensures var r := Apply(w, Transfer(caller, to, amount));
            && (r.Some? <==> caller != ZERO && to != ZERO && amount <= At(w.ledger.balances, caller))
            && (r.Some? ==>
                  && At(r.value.ledger.balances, user) == At(w.ledger.balances, user)
                       - (if user == caller then amount else 0) + (if user == to then amount else 0)
                  && r.value.stakes == w.stakes && r.value.ledger.allowances == w.ledger.allowances)
  {
    hide Sum;
    if Apply(w, Transfer(caller, to, amount)).Some? {
      MoveConserves(w.ledger, caller, to, amount);
    }
  }

  /** An approval lets the spender move exactly so much, in one transfer or in several. */
  lemma ApprovalIsUsedUp(w: World, holder: Address, spender: Address, to: Address, amount: Uint256, taken: Uint256)
    requires LedgerInv(w.ledger) && holder != ZERO && spender != ZERO && to != ZERO && amount != MAX
    ensures Apply(w, Approve(holder, spender, amount)).Some?
    ensures var approved := Apply(w, Approve(holder, spender, amount)).value;
            var r := Apply(approved, TransferFrom(spender, holder, to, taken));
            && (r.Some? <==> taken <= amount && taken <= At(w.ledger.balances, holder))
            && (r.Some? ==> At(r.value.ledger.allowances, (holder, spender)) == amount - taken)
  {
    hide Sum, LedgerInv;
  }

  /** The user has approved nobody. */
  ghost predicate ApprovesNobody(w: World, user: Address) {
    forall spender :: At(w.ledger.allowances, (user, spender)) == 0
  }

  lemma OthersTakeNothing(w: World, op: Op, user: Address)
    requires Solvent(w) && user != w.self && op.caller != w.self && op.caller != user && ApprovesNobody(w, user)
    ensures var next := After(w, op);
            && ApprovesNobody(next, user) && At(next.stakes, user) == At(w.stakes, user)
            && At(next.ledger.balances, user) >= At(w.ledger.balances, user)
  {
    hide Sum;
    if Apply(w, op).Some? {
      match op
      case Mint(caller, to, amount) => MintKeepsLedger(w.ledger, caller, to, amount);
      case Approve(_, _, _) =>
      case Transfer(caller, to, amount) => MoveConserves(w.ledger, caller, to, amount);
      case TransferFrom(caller, from, to, amount) =>
        MoveConserves(Spend(w.ledger, from, caller, amount).value, from, to, amount);
      case Deposit(caller, amount) =>
        MoveConserves(Spend(w.ledger, caller, w.self, amount).value, caller, w.self, amount);
      case Claim(caller) => MoveConserves(w.ledger, w.self, caller, At(w.stakes, caller));
      case ClaimAmount(caller, amount) => MoveConserves(w.ledger, w.self, caller, amount);
    }
  }

  /** Whatever others do, a user who has approved nobody keeps the stake and loses no tokens. */
  lemma {:induction false} NobodyTakes(w: World, ops: seq<Op>, user: Address)
    requires Solvent(w) && user != w.self && ApprovesNobody(w, user)
    requires forall i :: 0 <= i < |ops| ==> ops[i].caller != w.self && ops[i].caller != user
    ensures var now := AfterAll(w, ops);
            && ApprovesNobody(now, user) && At(now.stakes, user) == At(w.stakes, user)
            && At(now.ledger.balances, user) >= At(w.ledger.balances, user)
    decreases |ops|
  {
    hide Solvent, Apply, After, ApprovesNobody;
    if ops != [] {
      var before := AfterAll(w, ops[..|ops| - 1]);
      NobodyTakes(w, ops[..|ops| - 1], user);
      HistoryKeepsSolvent(w, ops[..|ops| - 1]);
      OthersTakeNothing(before, ops[|ops| - 1], user);
    }
  }

  /** Only the owner makes tokens: in a history in which the owner mints nothing, the supply stays what it is. */
  lemma {:induction false} OnlyOwnerMints(w: World, ops: seq<Op>)
    requires forall i :: 0 <= i < |ops| ==> !(ops[i].Mint? && ops[i].caller == w.ledger.owner)
    ensures AfterAll(w, ops).ledger.supply == w.ledger.supply && AfterAll(w, ops).ledger.owner == w.ledger.owner
    decreases |ops|
  {
    if ops != [] {
      OnlyOwnerMints(w, ops[..|ops| - 1]);
    }
  }

  /** And what the owner mints is added to the supply and to the receiver's tokens, up to the largest number. */
  lemma MintAdds(w: World, to: Address, amount: Uint256)
    requires LedgerInv(w.ledger)
    ensures var r := Apply(w, Mint(w.ledger.owner, to, amount));
            && (r.Some? <==> to != ZERO && w.ledger.supply + amount < TWO_256)
            && (r.Some? ==>
                  && r.value.ledger.supply == w.ledger.supply + amount
                  && At(r.value.ledger.balances, to) == At(w.ledger.balances, to) + amount)
  {
    hide Sum;
    if Apply(w, Mint(w.ledger.owner, to, amount)).Some? {
      MintKeepsLedger(w.ledger, w.ledger.owner, to, amount);
    }
  }

  // ----- the contracts -----

  class Token {
    var ledger: Ledger

    constructor (ledger: Ledger)
      ensures this.ledger == ledger
    {
      this.ledger := ledger;
    }

    method Transfer(caller: Address, to: Address, amount: nat) returns (ok: bool)
      modifies this
      ensures ok <==> Move(old(ledger), caller, to, amount).Some?
      ensures ledger == if ok then Move(old(ledger), caller, to, amount).value else old(ledger)
    {
      var moved := Move(ledger, caller, to, amount);
      ok := moved.Some?;
      if ok {
        ledger := moved.value;
      }
    }

    method TransferFrom(caller: Address, from: Address, to: Address, amount: nat) returns (ok: bool)
      modifies this
      ensures ok <==> MoveFrom(old(ledger), caller, from, to, amount).Some?
      ensures ledger == if ok then MoveFrom(old(ledger), caller, from, to, amount).value else old(ledger)
    {
      var moved := MoveFrom(ledger, caller, from, to, amount);
      ok := moved.Some?;
      if ok {
        ledger := moved.value;
      }
    }
  }

  /** The staking contract; ok is false when the call reverts. */
  class StakingContract {
    const self: Address
    const token: Token
    var balances: map<Address, nat>

    constructor (self: Address, token: Token)
      ensures this.self == self && this.token == token
      ensures View() == World(self, token.ledger, map[])
    {
      this.self, this.token, balances := self, token, map[];
    }

    function View(): World
      reads this, token
    {
      World(self, token.ledger, balances)
    }

    method DepositTokens(caller: Address, amount: Uint256) returns (ok: bool)
      modifies this, token
      ensures ok <==> Apply(old(View()), Deposit(caller, amount)).Some?
      ensures View() == After(old(View()), Deposit(caller, amount))
    {
      if amount == 0 {
        return false;
      }
      var before := token.ledger;
      ok := token.TransferFrom(self, caller, self, amount);
      if ok {
        if At(balances, caller) + amount > MAX {
          token.ledger := before;
          return false;
        }
        balances := balances[caller := At(balances, caller) + amount];
      }
    }

    method ClaimAll(caller: Address) returns (ok: bool)
      modifies this, token
      ensures ok <==> Apply(old(View()), Claim(caller)).Some?
      ensures View() == After(old(View()), Claim(caller))
    {
      var amount := At(balances, caller);
      if amount == 0 {
        return false;
      }
      var before := balances;
      balances := balances[caller := 0];
      ok := token.Transfer(self, caller, amount);
      if !ok {
        balances := before;
      }
    }

    method ClaimPart(caller: Address, amount: Uint256) returns (ok: bool)
      modifies this, token
      ensures ok <==> Apply(old(View()), ClaimAmount(caller, amount)).Some?
      ensures View() == After(old(View()), ClaimAmount(caller, amount))
    {
      if amount == 0 || At(balances, caller) < amount {
        return false;
      }
      var before := balances;
      balances := balances[caller := At(balances, caller) - amount];
      ok := token.Transfer(self, caller, amount);
      if !ok {
        balances := before;
      }
    }
  }
}
