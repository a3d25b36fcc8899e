/**
 * The ledger step: checking a block body and applying its transactions and
 * affairs to the accounts and the asset filter.
 *
 * Accounts are a map from address to account, which is what the trie holds.
 */
module Ledger {
  import opened Options
  import opened BloomFilter
  import opened Receipts

  type Address = nat
  type Asset = nat

  // The supply of every asset, fixed when it is established.
  const ASSET_MAX_COUNT: nat := 0x10_0000_0000

  datatype Account = Account(nonce: nat, balances: map<Asset, nat>)

  datatype Out = Out(receiver: Address, count: nat)

  datatype Transaction =
    | Append(sender: Address, asset: Asset, nonce: nat, count: nat, outs: seq<Out>)
    | Establish(sender: Address, asset: Asset, nonce: nat)
    | NullOp(sender: Address, asset: Asset, nonce: nat)

  datatype Affair = Affair(owner: Address, nonce: nat, dbLevel: bool)

  datatype Block = Block(height: nat, prev: nat, hash: nat, root: nat, transactions: seq<Transaction>,
    affairs: seq<Affair>)

  datatype Books = Books(accounts: map<Address, Account>, filter: Bits)

  // ---- Accounts ----------------------------------------------------------

  function Balance(acc: Account, a: Asset): nat {
    if a in acc.balances then acc.balances[a] else 0
  }

  // Balances are 64-bit words.
  function AddBalance(acc: Account, a: Asset, n: nat): Account {
    acc.(balances := acc.balances[a := if a in acc.balances then Wrap(acc.balances[a] + n) else n])
  }

  // An asset that is not held cannot be reduced, even by nothing; a balance
  // that reaches zero is removed.
  function ReduceBalance(acc: Account, a: Asset, n: nat): Option<Account> {
    if a !in acc.balances || acc.balances[a] < n then None
    else if acc.balances[a] == n then Some(acc.(balances := acc.balances - {a}))
    else Some(acc.(balances := acc.balances[a := acc.balances[a] - n]))
  }

  // ---- Applying a block --------------------------------------------------

  function PayOut(accounts: map<Address, Account>, a: Asset, out: Out): map<Address, Account> {
    var before := if out.receiver in accounts then accounts[out.receiver] else Account(0, map[]);
    accounts[out.receiver := AddBalance(before, a, out.count)]
  }

  function PayOuts(accounts: map<Address, Account>, a: Asset, outs: seq<Out>): map<Address, Account> {
    if outs == [] then accounts
    else PayOut(PayOuts(accounts, a, outs[..|outs| - 1]), a, outs[|outs| - 1])
  }

  // None where the code throws.
  function ApplyTx(places: Places, s: Books, tx: Transaction): Option<Books> {
    match tx
    case Append(sender, a, nonce, count, outs) =>
      if sender !in s.accounts then None else
      var reduced := ReduceBalance(s.accounts[sender].(nonce := Wrap(nonce + 1)), a, count);
      if reduced.None? then None
      else Some(s.(accounts := PayOuts(s.accounts[sender := reduced.value], a, outs)))
    case Establish(sender, a, _) =>
      if Positive(places, s.filter, a) then None else
      var acc := if sender in s.accounts then s.accounts[sender] else Account(1, map[]);
      Some(Books(s.accounts[sender := AddBalance(acc, a, ASSET_MAX_COUNT)], With(places, s.filter, a)))
    case NullOp(_, _, _) => Some(s)
  }

  function ApplyTxs(places: Places, s: Books, txs: seq<Transaction>): Option<Books> {
    if txs == [] then Some(s) else
    var before := ApplyTxs(places, s, txs[..|txs| - 1]);
    if before.None? then None else ApplyTx(places, before.value, txs[|txs| - 1])
  }

  function ApplyAffair(accounts: map<Address, Account>, air: Affair): map<Address, Account> {
    if !air.dbLevel then accounts
    else if air.owner in accounts then
      accounts[air.owner := accounts[air.owner].(nonce := Wrap(accounts[air.owner].nonce + 1))]
    else accounts[air.owner := Account(1, map[])]
  }

  function ApplyAffairs(accounts: map<Address, Account>, airs: seq<Affair>): map<Address, Account> {
    if airs == [] then accounts
    else ApplyAffair(ApplyAffairs(accounts, airs[..|airs| - 1]), airs[|airs| - 1])
  }

  function ApplyBlock(places: Places, s: Books, blk: Block): Option<Books> {
    var t := ApplyTxs(places, s, blk.transactions);
    if t.None? then None else Some(t.value.(accounts := ApplyAffairs(t.value.accounts, blk.affairs)))
  }

  // ---- Checking a block body ---------------------------------------------

  datatype Slip = Slip(start: nat, nonces: seq<nat>, balances: map<Asset, (nat, nat)>)

  datatype Draft = Draft(slips: map<Address, Slip>, filter: Bits)

  function Spend(slip: Slip, a: Asset, nonce: nat, available: nat, count: nat): Slip {
    var pair := if a in slip.balances then (slip.balances[a].0, Wrap(slip.balances[a].1 + count))
      else (available, count);
    slip.(nonces := slip.nonces + [nonce], balances := slip.balances[a := pair])
  }

  function OutSum(outs: seq<Out>): nat {
    if outs == [] then 0 else OutSum(outs[..|outs| - 1]) + outs[|outs| - 1].count
  }

  // None where the code returns false. A sender that is not in the trie but has
  // a receipt (it established an asset in this block) skips the output check.
  function CheckTx(places: Places, accounts: map<Address, Account>, d: Draft, tx: Transaction): Option<Draft> {
    match tx
    case NullOp(_, _, _) => None
    case Append(sender, a, nonce, count, outs) =>
      if sender !in accounts then
        if sender !in d.slips || a !in d.slips[sender].balances then None
        else Some(d.(slips := d.slips[sender := Spend(d.slips[sender], a, nonce, 0, count)]))
      else if Wrap(OutSum(outs)) != count then None
      else
        var slip := if sender in d.slips then d.slips[sender] else Slip(accounts[sender].nonce, [], map[]);
        Some(d.(slips := d.slips[sender := Spend(slip, a, nonce, Balance(accounts[sender], a), count)]))
    case Establish(sender, a, nonce) =>
      if Positive(places, d.filter, a) then None else
      var slip := if sender in d.slips then d.slips[sender]
                  else Slip(if sender in accounts then accounts[sender].nonce else 0, [], map[]);
      var pair := if a in slip.balances then slip.balances[a] else (0, 0);
      var slip' := slip.(nonces := slip.nonces + [nonce],
                         balances := slip.balances[a := (Wrap(pair.0 + ASSET_MAX_COUNT), pair.1)]);
      Some(Draft(d.slips[sender := slip'], With(places, d.filter, a)))
  }

  function CheckTxs(places: Places, accounts: map<Address, Account>, filter: Bits, txs: seq<Transaction>): Option<Draft>
  {
    if txs == [] then Some(Draft(map[], filter)) else
    var before := CheckTxs(places, accounts, filter, txs[..|txs| - 1]);
    if before.None? then None else CheckTx(places, accounts, before.value, txs[|txs| - 1])
  }

  function CheckAffair(accounts: map<Address, Account>, slips: map<Address, Slip>, air: Affair): map<Address, Slip> {
    if !air.dbLevel then slips else
    var slip := if air.owner in slips then slips[air.owner]
                else Slip(if air.owner in accounts then accounts[air.owner].nonce else 0, [], map[]);
    slips[air.owner := slip.(nonces := slip.nonces + [air.nonce])]
  }

  function CheckAffairs(accounts: map<Address, Account>, slips: map<Address, Slip>, airs: seq<Affair>): map<Address,
      Slip>
  {
    if airs == [] then slips
    else CheckAffair(accounts, CheckAffairs(accounts, slips, airs[..|airs| - 1]), airs[|airs| - 1])
  }

  predicate SlipOk(slip: Slip) {
    Consecutive(slip.start, slip.nonces) && Affordable(slip.balances)
  }

  predicate CheckBody(places: Places, s: Books, blk: Block) {
    var d := CheckTxs(places, s.accounts, s.filter, blk.transactions);
    d.Some? &&
    var slips := CheckAffairs(s.accounts, d.value.slips, blk.affairs);
    forall x :: x in slips ==> SlipOk(slips[x])
  }
}
