/**
 * When the transactions of a block apply: what every account holds before each
 * of them, and what the check of the body says about it.
 */
module LedgerFunds {
  import opened Options
  import opened BloomFilter
  import opened Receipts
  import opened Ledger
  import opened LedgerSupply

  // Counts and balances are 64-bit words.
  predicate WordBalances(accounts: map<Address, Account>) {
    forall k, a :: k in accounts && a in accounts[k].balances ==> accounts[k].balances[a] < WORD
  }

  predicate WordOuts(outs: seq<Out>) {
    forall i :: 0 <= i < |outs| ==> outs[i].count < WORD
  }

  predicate WordTxs(txs: seq<Transaction>) {
    forall i :: 0 <= i < |txs| && txs[i].Append? ==> txs[i].count < WORD && WordOuts(txs[i].outs)
  }

  // ---- What an account holds, by adding up -------------------------------

  function PaidTo(outs: seq<Out>, k: Address): nat {
    if outs == [] then 0
    else PaidTo(outs[..|outs| - 1], k) + if outs[|outs| - 1].receiver == k then outs[|outs| - 1].count else 0
  }

  predicate Pays(outs: seq<Out>, k: Address) {
    exists i :: 0 <= i < |outs| && outs[i].receiver == k
  }

  // What a transaction gives to an account of an asset, and what it takes.
  function Gives(tx: Transaction, k: Address, a: Asset): nat {
    if tx.asset != a then 0
    else if tx.Append? then PaidTo(tx.outs, k)
    else if tx.Establish? && tx.sender == k then ASSET_MAX_COUNT
    else 0
  }

  function Takes(tx: Transaction, k: Address, a: Asset): nat {
    if tx.Append? && tx.sender == k && tx.asset == a then tx.count else 0
  }

  // What it had, and was given, less what was taken.
  function Net(accounts: map<Address, Account>, txs: seq<Transaction>, k: Address, a: Asset): int {
    if txs == [] then BalanceAt(accounts, k, a)
    else Net(accounts, txs[..|txs| - 1], k, a) + Gives(txs[|txs| - 1], k, a) - Takes(txs[|txs| - 1], k, a)
  }

  predicate HasEntry(accounts: map<Address, Account>, k: Address, a: Asset) {
    k in accounts && a in accounts[k].balances
  }

  predicate Enters(tx: Transaction, k: Address, a: Asset) {
    tx.asset == a && ((tx.Append? && Pays(tx.outs, k)) || (tx.Establish? && tx.sender == k))
  }

  // An account gets an entry with the first payment, even of nothing, and loses
  // it when it spends all it has.
  predicate Holds(accounts: map<Address, Account>, txs: seq<Transaction>, k: Address, a: Asset) {
    if txs == [] then HasEntry(accounts, k, a)
    else
      var init, tx := txs[..|txs| - 1], txs[|txs| - 1];
      || Enters(tx, k, a)
      || (Holds(accounts, init, k, a)
          && !(tx.Append? && tx.sender == k && tx.asset == a && Wrap(Net(accounts, init, k, a)) == tx.count))
  }

  function FilterAfter(places: Places, filter: Bits, txs: seq<Transaction>): Bits {
    if txs == [] then filter
    else
      var before, tx := FilterAfter(places, filter, txs[..|txs| - 1]), txs[|txs| - 1];
      if tx.Establish? then With(places, before, tx.asset) else before
  }

  // The sender has an entry and, as a 64-bit word, at least what is taken.
  predicate Payable(accounts: map<Address, Account>, txs: seq<Transaction>, i: nat)
    requires i < |txs|
  {
    var tx := txs[i];
    tx.Append? ==>
      Holds(accounts, txs[..i], tx.sender, tx.asset) && tx.count <= Wrap(Net(accounts, txs[..i], tx.sender, tx.asset))
  }

  predicate IsNew(places: Places, filter: Bits, txs: seq<Transaction>, i: nat)
    requires i < |txs|
  {
    txs[i].Establish? ==> !Positive(places, FilterAfter(places, filter, txs[..i]), txs[i].asset)
  }

  // ---- The books hold what adding up gives -------------------------------

  lemma WrapSum(x: int, y: int, n: int)
    requires y == Wrap(x)
    ensures Wrap(y + n) == Wrap(x + n)
  {
    var q := x / WORD;
    assert x == WORD * q + y;
    var r := (y + n) / WORD;
    assert x + n == WORD * (q + r) + Wrap(y + n);
  }

  lemma {:induction false} PaidBalance(accounts: map<Address, Account>, a: Asset, outs: seq<Out>, k: Address, b: Asset)
    requires WordBalances(accounts) && WordOuts(outs)
    ensures WordBalances(PayOuts(accounts, a, outs))
    ensures BalanceAt(PayOuts(accounts, a, outs), k, b)
         == if a == b then Wrap(BalanceAt(accounts, k, b) + PaidTo(outs, k)) else BalanceAt(accounts, k, b)
    ensures HasEntry(PayOuts(accounts, a, outs), k, b) <==> HasEntry(accounts, k, b) || (a == b && Pays(outs, k))
  {
    hide PayOuts, WordBalances, HasEntry, BalanceAt, Pays, Wrap;
    WordBalance(accounts, k, b);
    if outs == [] {
      PaysNothing(accounts, a, k);
    } else {
      var init, out := outs[..|outs| - 1], outs[|outs| - 1];
      PaidBalance(accounts, a, init, k, b);
      PayStep(accounts, a, outs);
      PaidOnce(PayOuts(accounts, a, init), a, out, k, b);
      var before := BalanceAt(accounts, k, b) + PaidTo(init, k);
      WrapSum(before, Wrap(before), out.count);
      PaysStep(outs, k);
    }
  }

  lemma PaysNothing(accounts: map<Address, Account>, a: Asset, k: Address)
    ensures PayOuts(accounts, a, []) == accounts && !Pays([], k)
  {
  }

  lemma PayStep(accounts: map<Address, Account>, a: Asset, outs: seq<Out>)
    requires outs != []
    ensures PayOuts(accounts, a, outs) == PayOut(PayOuts(accounts, a, outs[..|outs| - 1]), a, outs[|outs| - 1])
  {
  }

  lemma PaysStep(outs: seq<Out>, k: Address)
    requires outs != []
    ensures Pays(outs, k) <==> Pays(outs[..|outs| - 1], k) || outs[|outs| - 1].receiver == k
  {
    var init := outs[..|outs| - 1];
    if Pays(init, k) {
      var i :| 0 <= i < |init| && init[i].receiver == k;
      assert outs[i].receiver == k;
    }
    if Pays(outs, k) && outs[|outs| - 1].receiver != k {
      var i :| 0 <= i < |outs| && outs[i].receiver == k;
      assert init[i].receiver == k;
    }
  }

  lemma PaidOnce(accounts: map<Address, Account>, a: Asset, out: Out, k: Address, b: Asset)
    requires WordBalances(accounts) && out.count < WORD
    ensures WordBalances(PayOut(accounts, a, out))
    ensures BalanceAt(PayOut(accounts, a, out), k, b)
         == if a == b && out.receiver == k then Wrap(BalanceAt(accounts, k, b) + out.count)
           else BalanceAt(accounts, k, b)
    ensures HasEntry(PayOut(accounts, a, out), k, b) <==> HasEntry(accounts, k, b) || (a == b && out.receiver == k)
  {
  }

  // Taking from an account, and only from it.
  lemma TakenBalance(accounts: map<Address, Account>, tx: Transaction, acc: Account, k: Address, b: Asset)
    requires WordBalances(accounts) && tx.Append? && tx.sender in accounts
    requires ReduceBalance(accounts[tx.sender].(nonce := Wrap(tx.nonce + 1)), tx.asset, tx.count) == Some(acc)
    ensures WordBalances(accounts[tx.sender := acc])
    ensures BalanceAt(accounts[tx.sender := acc], k, b) == BalanceAt(accounts, k, b) - Takes(tx, k, b)
    ensures HasEntry(accounts[tx.sender := acc], k, b) <==>
      HasEntry(accounts, k, b) && !(tx.sender == k && tx.asset == b && BalanceAt(accounts, k, b) == tx.count)
  {
  }

  predicate Moved(places: Places, s: Books, s': Books, tx: Transaction, k: Address, b: Asset) {
    && WordBalances(s'.accounts)
    && BalanceAt(s'.accounts, k, b) == Wrap(BalanceAt(s.accounts, k, b) + Gives(tx, k, b) - Takes(tx, k, b))
    && (HasEntry(s'.accounts, k, b) <==>
          || Enters(tx, k, b)
          || (HasEntry(s.accounts, k, b)
              && !(tx.Append? && tx.sender == k && tx.asset == b && BalanceAt(s.accounts, k, b) == tx.count)))
    && s'.filter == if tx.Establish? then With(places, s.filter, tx.asset) else s.filter
  }

  lemma AppendBalance(places: Places, s: Books, tx: Transaction, k: Address, b: Asset)
    requires WordBalances(s.accounts) && tx.Append? && WordOuts(tx.outs) && ApplyTx(places, s, tx).Some?
    ensures Moved(places, s, ApplyTx(places, s, tx).value, tx, k, b)
  {
    hide WordBalances, WordOuts, PayOuts, Positive, With, PaidTo, Pays, ReduceBalance, HasEntry, BalanceAt, Takes;
    var acc := ReduceBalance(s.accounts[tx.sender].(nonce := Wrap(tx.nonce + 1)), tx.asset, tx.count).value;
    var mid := s.accounts[tx.sender := acc];
    TakenBalance(s.accounts, tx, acc, k, b);
    PaidBalance(mid, tx.asset, tx.outs, k, b);
    WordBalance(mid, k, b);
  }

  lemma EstablishBalance(places: Places, s: Books, tx: Transaction, k: Address, b: Asset)
    requires WordBalances(s.accounts) && tx.Establish? && ApplyTx(places, s, tx).Some?
    ensures Moved(places, s, ApplyTx(places, s, tx).value, tx, k, b)
  {
    hide Positive, With, PaidTo, Pays;
    WordBalance(s.accounts, k, b);
  }

  // One transaction moves every balance by what it gives and takes.
  lemma TxBalance(places: Places, s: Books, tx: Transaction, k: Address, b: Asset)
    requires WordBalances(s.accounts) && WordTxs([tx]) && ApplyTx(places, s, tx).Some?
    ensures Moved(places, s, ApplyTx(places, s, tx).value, tx, k, b)
  {
    match tx {
      case Append(_, _, _, _, _) =>
        hide Moved, ApplyTx, WordBalances, WordOuts;
        assert WordOuts([tx][0].outs);
        AppendBalance(places, s, tx, k, b);
      case Establish(_, _, _) =>
        hide Moved, ApplyTx, WordBalances;
        EstablishBalance(places, s, tx, k, b);
      case NullOp(_, _, _) =>
        hide WordBalances, With, Positive;
        WordBalance(s.accounts, k, b);
    }
  }

  lemma WordBalance(accounts: map<Address, Account>, k: Address, a: Asset)
    requires WordBalances(accounts)
    ensures BalanceAt(accounts, k, a) < WORD && Wrap(BalanceAt(accounts, k, a)) == BalanceAt(accounts, k, a)
  {
  }

  // After transactions that apply, every account holds what adding up gives,
  // as a 64-bit word, and has the entries that following them gives.
  lemma {:induction false} RunningBalances(places: Places, s: Books, txs: seq<Transaction>, k: Address, a: Asset)
    requires WordBalances(s.accounts) && WordTxs(txs) && ApplyTxs(places, s, txs).Some?
    ensures var s' := ApplyTxs(places, s, txs).value;
      && WordBalances(s'.accounts)
      && BalanceAt(s'.accounts, k, a) == Wrap(Net(s.accounts, txs, k, a))
      && (HasEntry(s'.accounts, k, a) <==> Holds(s.accounts, txs, k, a))
      && s'.filter == FilterAfter(places, s.filter, txs)
  {
    hide WordBalances, WordTxs, ApplyTx, HasEntry, BalanceAt, Gives, Takes, Enters, With, Wrap;
    if txs == [] {
      WordBalance(s.accounts, k, a);
    } else {
      var init, tx := txs[..|txs| - 1], txs[|txs| - 1];
      WordParts(txs);
      RunningBalances(places, s, init, k, a);
      TxBalance(places, ApplyTxs(places, s, init).value, tx, k, a);
      WrapSum(Net(s.accounts, init, k, a), Wrap(Net(s.accounts, init, k, a)), Gives(tx, k, a) - Takes(tx, k, a));
    }
  }

  lemma WordParts(txs: seq<Transaction>)
    requires WordTxs(txs) && txs != []
    ensures WordTxs(txs[..|txs| - 1]) && WordTxs([txs[|txs| - 1]])
  {
  }

  // A transaction applies if and only if it is payable or new.
  lemma TxApplies(places: Places, s: Books, tx: Transaction)
    ensures ApplyTx(places, s, tx).Some? <==>
      && (tx.Append? ==>
            HasEntry(s.accounts, tx.sender, tx.asset) && tx.count <= BalanceAt(s.accounts, tx.sender, tx.asset))
      && (tx.Establish? ==> !Positive(places, s.filter, tx.asset))
  {
  }

  // Transactions apply, all of them, if and only if each Append finds an entry
  // and enough in it, and each Establish finds its asset new, where what they
  // find is what adding up gives.
  lemma {:induction false} AppliesExact(places: Places, s: Books, txs: seq<Transaction>)
    requires WordBalances(s.accounts) && WordTxs(txs)
    ensures ApplyTxs(places, s, txs).Some? <==>
      forall i :: 0 <= i < |txs| ==> Payable(s.accounts, txs, i) && IsNew(places, s.filter, txs, i)
  {
    hide WordBalances, WordTxs, ApplyTx, HasEntry, BalanceAt, Net, Holds, FilterAfter, Wrap;
    if txs != [] {
      var n := |txs| - 1;
      var init, tx := txs[..n], txs[n];
      WordParts(txs);
      AppliesExact(places, s, init);
      forall i | 0 <= i < n
        ensures Payable(s.accounts, txs, i) <==> Payable(s.accounts, init, i)
        ensures IsNew(places, s.filter, txs, i) <==> IsNew(places, s.filter, init, i)
      {
        assert init[..i] == txs[..i];
      }
      if ApplyTxs(places, s, init).Some? {
        var mid := ApplyTxs(places, s, init).value;
        RunningBalances(places, s, init, tx.sender, tx.asset);
        TxApplies(places, mid, tx);
        assert ApplyTx(places, mid, tx).Some? <==> Payable(s.accounts, txs, n) && IsNew(places, s.filter, txs, n);
      }
    }
  }

  // ---- What the check says about it --------------------------------------

  lemma {:induction false} CheckedNew(places: Places, accounts: map<Address, Account>, filter: Bits,
      txs: seq<Transaction>, i: nat)
    requires CheckTxs(places, accounts, filter, txs).Some?
    ensures CheckTxs(places, accounts, filter, txs).value.filter == FilterAfter(places, filter, txs)
    ensures i < |txs| ==> IsNew(places, filter, txs, i)
  {
    hide Positive, With, OutSum;
    if txs != [] {
      var init := txs[..|txs| - 1];
      CheckedNew(places, accounts, filter, init, i);
      if i < |init| { assert init[..i] == txs[..i]; }
    }
  }

  // A body that passes the check applies if and only if every Append is
  // payable.
  lemma CheckedExact(places: Places, s: Books, blk: Block)
    requires WordBalances(s.accounts) && WordTxs(blk.transactions) && CheckBody(places, s, blk)
    ensures ApplyBlock(places, s, blk).Some? <==>
      forall i :: 0 <= i < |blk.transactions| ==> Payable(s.accounts, blk.transactions, i)
  {
    hide WordBalances, WordTxs, Payable, IsNew, ApplyTxs, CheckTxs, CheckAffairs, SlipOk;
    AppliesExact(places, s, blk.transactions);
    forall i | 0 <= i < |blk.transactions| ensures IsNew(places, s.filter, blk.transactions, i) {
      CheckedNew(places, s.accounts, s.filter, blk.transactions, i);
    }
  }

  function Spent(txs: seq<Transaction>, k: Address, a: Asset): nat {
    if txs == [] then 0 else Spent(txs[..|txs| - 1], k, a) + Takes(txs[|txs| - 1], k, a)
  }

  predicate Grants(tx: Transaction, k: Address, a: Asset) {
    tx.Establish? && tx.sender == k && tx.asset == a
  }

  function Granted(txs: seq<Transaction>, k: Address, a: Asset): nat {
    if txs == [] then 0
    else Granted(txs[..|txs| - 1], k, a) + if Grants(txs[|txs| - 1], k, a) then ASSET_MAX_COUNT else 0
  }

  // A line of a receipt: at most what the sender had and established, and what
  // it spends as a 64-bit word. Without a line nothing was spent.
  predicate LineTrue(slips: map<Address, Slip>, k: Address, a: Asset, most: nat, spent: nat) {
    if k in slips && a in slips[k].balances then slips[k].balances[a].0 <= most && slips[k].balances[a].1 == Wrap(spent)
    else spent == 0
  }

  lemma AppendLine(places: Places, accounts: map<Address, Account>, d: Draft, tx: Transaction, k: Address, a: Asset,
      most: nat, spent: nat)
    requires tx.Append? && tx.count < WORD && CheckTx(places, accounts, d, tx).Some?
    requires LineTrue(d.slips, k, a, most, spent) && BalanceAt(accounts, k, a) <= most
    ensures LineTrue(CheckTx(places, accounts, d, tx).value.slips, k, a, most, spent + Takes(tx, k, a))
  {
    hide OutSum;
    WrapSum(spent, Wrap(spent), Takes(tx, k, a));
  }

  lemma EstablishLine(places: Places, accounts: map<Address, Account>, d: Draft, tx: Transaction, k: Address, a: Asset,
      most: nat, spent: nat)
    requires tx.Establish? && CheckTx(places, accounts, d, tx).Some? && LineTrue(d.slips, k, a, most, spent)
    ensures LineTrue(CheckTx(places, accounts, d, tx).value.slips, k, a,
                     most + (if Grants(tx, k, a) then ASSET_MAX_COUNT else 0), spent)
  {
    hide Positive, With;
  }

  lemma {:induction false} CheckTracks(places: Places, accounts: map<Address, Account>, filter: Bits,
      txs: seq<Transaction>, k: Address, a: Asset)
    requires CheckTxs(places, accounts, filter, txs).Some? && WordTxs(txs)
    ensures LineTrue(CheckTxs(places, accounts, filter, txs).value.slips, k, a,
                     BalanceAt(accounts, k, a) + Granted(txs, k, a), Spent(txs, k, a))
  {
    hide LineTrue, WordOuts, CheckTx, BalanceAt, WordTxs;
    if txs == [] {
      NoLine(k, a, BalanceAt(accounts, k, a));
    } else {
      var init, tx := txs[..|txs| - 1], txs[|txs| - 1];
      WordLast(txs);
      CheckTracks(places, accounts, filter, init, k, a);
      var d := CheckTxs(places, accounts, filter, init).value;
      var most, spent := BalanceAt(accounts, k, a) + Granted(init, k, a), Spent(init, k, a);
      CheckedKind(places, accounts, d, tx);
      if tx.Append? {
        AppendLine(places, accounts, d, tx, k, a, most, spent);
      } else {
        EstablishLine(places, accounts, d, tx, k, a, most, spent);
      }
    }
  }

  lemma NoLine(k: Address, a: Asset, most: nat)
    ensures LineTrue(map[], k, a, most, 0)
  {
  }

  lemma CheckedKind(places: Places, accounts: map<Address, Account>, d: Draft, tx: Transaction)
    requires CheckTx(places, accounts, d, tx).Some?
    ensures tx.Append? || tx.Establish?
  {
  }

  lemma WordLast(txs: seq<Transaction>)
    requires WordTxs(txs) && txs != []
    ensures WordTxs(txs[..|txs| - 1]) && (txs[|txs| - 1].Append? ==> txs[|txs| - 1].count < WORD)
  {
  }

  lemma {:induction false} AffairsKeepBalances(accounts: map<Address, Account>, slips: map<Address, Slip>,
      airs: seq<Affair>, k: Address)
    requires k in slips
    ensures var slips' := CheckAffairs(accounts, slips, airs); k in slips' && slips'[k].balances == slips[k].balances
  {
    if airs != [] { AffairsKeepBalances(accounts, slips, airs[..|airs| - 1], k); }
  }

  // So a checked body spends, as a word, no more than there is.
  lemma CheckedSpending(places: Places, s: Books, blk: Block, k: Address, a: Asset)
    requires WordTxs(blk.transactions) && CheckBody(places, s, blk)
    ensures Wrap(Spent(blk.transactions, k, a)) <= BalanceAt(s.accounts, k, a) + Granted(blk.transactions, k, a)
  {
    hide CheckTxs, CheckAffairs, Consecutive, WordTxs;
    CheckTracks(places, s.accounts, s.filter, blk.transactions, k, a);
    var d := CheckTxs(places, s.accounts, s.filter, blk.transactions).value;
    if k in d.slips && a in d.slips[k].balances {
      AffairsKeepBalances(s.accounts, d.slips, blk.affairs, k);
      assert SlipOk(CheckAffairs(s.accounts, d.slips, blk.affairs)[k]);
    }
  }

  // What the check leaves open. An Append of nothing needs an entry; what a
  // sender spends of an asset must fit in 64 bits, and so must what it then
  // holds; and it must not spend of an asset that it establishes later in the
  // same block.
  predicate Tidy(accounts: map<Address, Account>, txs: seq<Transaction>, i: nat)
    requires i < |txs|
  {
    var tx := txs[i];
    tx.Append? ==>
      && (tx.count > 0 || Holds(accounts, txs[..i], tx.sender, tx.asset))
      && Spent(txs, tx.sender, tx.asset) < WORD
      && Net(accounts, txs[..i], tx.sender, tx.asset) < WORD
      && forall j :: i < j < |txs| ==> !Grants(txs[j], tx.sender, tx.asset)
  }

  lemma {:induction false} NetSplit(accounts: map<Address, Account>, txs: seq<Transaction>, k: Address, a: Asset)
    ensures Net(accounts, txs, k, a) >= BalanceAt(accounts, k, a) + Granted(txs, k, a) - Spent(txs, k, a)
  {
    if txs != [] { NetSplit(accounts, txs[..|txs| - 1], k, a); }
  }

  lemma {:induction false} SpentSoFar(txs: seq<Transaction>, i: nat, k: Address, a: Asset)
    requires i < |txs|
    ensures Spent(txs[..i], k, a) + Takes(txs[i], k, a) <= Spent(txs, k, a)
    ensures (forall j :: i <= j < |txs| ==> !Grants(txs[j], k, a)) ==> Granted(txs[..i], k, a) == Granted(txs, k, a)
  {
    hide Takes, Grants;
    var init := txs[..|txs| - 1];
    if i < |init| {
      SpentSoFar(init, i, k, a);
      assert init[..i] == txs[..i];
    }
  }

  lemma {:induction false} TidyApplies(places: Places, s: Books, blk: Block, n: nat)
    requires WordBalances(s.accounts) && WordTxs(blk.transactions) && CheckBody(places, s, blk)
    requires forall i :: 0 <= i < |blk.transactions| ==> Tidy(s.accounts, blk.transactions, i)
    requires n <= |blk.transactions|
    ensures ApplyTxs(places, s, blk.transactions[..n]).Some?
  {
    hide WordBalances, WordTxs, CheckBody, ApplyTx, Net, Spent, Granted, Holds, Grants, HasEntry, BalanceAt;
    if n > 0 {
      var txs, i := blk.transactions, n - 1;
      var tx, before := txs[i], txs[..i];
      TidyApplies(places, s, blk, i);
      assert txs[..n][..i] == before;
      var mid := ApplyTxs(places, s, before).value;
      WordPrefix(txs, i);
      RunningBalances(places, s, before, tx.sender, tx.asset);
      TxApplies(places, mid, tx);
      CheckedIsNew(places, s, blk, i);
      assert Tidy(s.accounts, txs, i);
      if tx.Append? {
        CheckedSpending(places, s, blk, tx.sender, tx.asset);
        NetSplit(s.accounts, before, tx.sender, tx.asset);
        AppendGrantsNothing(tx, tx.sender, tx.asset);
        SpentSoFar(txs, i, tx.sender, tx.asset);
        BalanceHasEntry(mid.accounts, tx.sender, tx.asset);
      }
    }
  }

  lemma AppendGrantsNothing(tx: Transaction, k: Address, a: Asset)
    requires tx.Append?
    ensures !Grants(tx, k, a)
  {
  }

  lemma BalanceHasEntry(accounts: map<Address, Account>, k: Address, a: Asset)
    ensures BalanceAt(accounts, k, a) > 0 ==> HasEntry(accounts, k, a)
  {
  }

  lemma WordPrefix(txs: seq<Transaction>, n: nat)
    requires WordTxs(txs) && n <= |txs|
    ensures WordTxs(txs[..n])
  {
  }

  lemma CheckedIsNew(places: Places, s: Books, blk: Block, i: nat)
    requires CheckBody(places, s, blk) && i < |blk.transactions|
    ensures IsNew(places, s.filter, blk.transactions, i)
  {
    hide CheckTxs, IsNew;
    CheckedNew(places, s.accounts, s.filter, blk.transactions, i);
  }

  // A checked body in which all this is so applies.
  lemma CheckedTidyApplies(places: Places, s: Books, blk: Block)
    requires WordBalances(s.accounts) && WordTxs(blk.transactions) && CheckBody(places, s, blk)
    requires forall i :: 0 <= i < |blk.transactions| ==> Tidy(s.accounts, blk.transactions, i)
    ensures ApplyBlock(places, s, blk).Some?
  {
    hide WordBalances, WordTxs, CheckBody, Tidy;
    TidyApplies(places, s, blk, |blk.transactions|);
    assert blk.transactions[..|blk.transactions|] == blk.transactions;
  }

  // ---- Checked bodies that do not apply ----------------------------------

  lemma CheckOne(places: Places, accounts: map<Address, Account>, filter: Bits, x: Transaction)
    ensures CheckTxs(places, accounts, filter, [x]) == CheckTx(places, accounts, Draft(map[], filter), x)
  {
    hide CheckTx;
    assert [x][..0] == [];
    assert CheckTxs(places, accounts, filter, []) == Some(Draft(map[], filter));
  }

  lemma CheckTwo(places: Places, accounts: map<Address, Account>, filter: Bits, x: Transaction, y: Transaction)
    requires CheckTx(places, accounts, Draft(map[], filter), x).Some?
    ensures CheckTxs(places, accounts, filter, [x, y])
         == CheckTx(places, accounts, CheckTx(places, accounts, Draft(map[], filter), x).value, y)
  {
    hide CheckTx;
    assert [x, y][..1] == [x];
    CheckOne(places, accounts, filter, x);
  }

  lemma ApplyOne(places: Places, s: Books, x: Transaction)
    ensures ApplyTxs(places, s, [x]) == ApplyTx(places, s, x)
  {
    hide ApplyTx;
    assert [x][..0] == [];
    assert ApplyTxs(places, s, []) == Some(s);
  }

  lemma ApplyTwo(places: Places, s: Books, x: Transaction, y: Transaction)
    ensures ApplyTxs(places, s, [x, y])
         == if ApplyTx(places, s, x).None? then None else ApplyTx(places, ApplyTx(places, s, x).value, y)
  {
    hide ApplyTx;
    assert [x, y][..1] == [x];
    ApplyOne(places, s, x);
  }

  lemma OneOut(out: Out, accounts: map<Address, Account>, a: Asset)
    ensures OutSum([out]) == out.count && PayOuts(accounts, a, [out]) == PayOut(accounts, a, out)
  {
    assert [out][..0] == [];
  }

  // A receipt with one line for asset 7.
  lemma OneLine(start: nat, nonces: seq<nat>, available: nat, spent: nat)
    requires nonces == Counting(Wrap(start + 1), |nonces|) && available >= spent
    ensures SlipOk(Slip(start, nonces, map[7 := (available, spent)]))
  {
  }

  lemma FirstLine(start: nat, nonce: nat, available: nat, count: nat)
    ensures Spend(Slip(start, [], map[]), 7, nonce, available, count)
      == Slip(start, [nonce], map[7 := (available, count)])
  {
    var slip := Spend(Slip(start, [], map[]), 7, nonce, available, count);
    assert slip.balances == map[7 := (available, count)];
  }

  lemma NextLine(start: nat, first: nat, nonce: nat, available: nat, spent: nat, count: nat)
    ensures Spend(Slip(start, [first], map[7 := (available, spent)]), 7, nonce, available, count)
         == Slip(start, [first, nonce], map[7 := (available, Wrap(spent + count))])
  {
    var slip := Spend(Slip(start, [first], map[7 := (available, spent)]), 7, nonce, available, count);
    assert slip.balances == map[7 := (available, Wrap(spent + count))];
  }

  function Pay(k: Address, nonce: nat, count: nat, to: Address): Transaction {
    Append(k, 7, nonce, count, [Out(to, count)])
  }

  // The first payment of a known sender, and its next one.
  lemma FirstPayment(places: Places, accounts: map<Address, Account>, d: Draft, k: Address, nonce: nat, count: nat,
      to: Address)
    requires k in accounts && k !in d.slips && count < WORD
    ensures var slip := Slip(accounts[k].nonce, [nonce], map[7 := (Balance(accounts[k], 7), count)]);
      CheckTx(places, accounts, d, Pay(k, nonce, count, to)) == Some(d.(slips := d.slips[k := slip]))
  {
    hide OutSum;
    OneOut(Out(to, count), map[], 7);
    FirstLine(accounts[k].nonce, nonce, Balance(accounts[k], 7), count);
  }

  lemma NextPayment(places: Places, accounts: map<Address, Account>, d: Draft, k: Address, nonce: nat, count: nat,
      to: Address, first: nat, available: nat, spent: nat)
    requires k in d.slips && d.slips[k].nonces == [first] && d.slips[k].balances == map[7 := (available, spent)]
    requires count < WORD
    ensures var slip := Slip(d.slips[k].start, [first, nonce], map[7 := (available, Wrap(spent + count))]);
      CheckTx(places, accounts, d, Pay(k, nonce, count, to)) == Some(d.(slips := d.slips[k := slip]))
  {
    hide OutSum;
    OneOut(Out(to, count), map[], 7);
    NextLine(d.slips[k].start, first, nonce, available, spent, count);
    assert d.slips[k] == Slip(d.slips[k].start, [first], map[7 := (available, spent)]);
  }

  lemma Establishing(places: Places, accounts: map<Address, Account>, d: Draft, slip: Slip, k: Address, nonce: nat,
      available: nat)
    requires !Positive(places, d.filter, 7)
    requires slip == if k in d.slips then d.slips[k]
      else Slip(if k in accounts then accounts[k].nonce else 0, [], map[])
    requires available == if 7 in slip.balances then slip.balances[7].0 else 0
    ensures var spent := if 7 in slip.balances then slip.balances[7].1 else 0;
      var slip' := Slip(slip.start, slip.nonces + [nonce],
        slip.balances[7 := (Wrap(available + ASSET_MAX_COUNT), spent)]);
      CheckTx(places, accounts, d, Establish(k, 7, nonce))
        == Some(Draft(d.slips[k := slip'], With(places, d.filter, 7)))
  {
    hide Positive, With;
  }

  function TxBlock(txs: seq<Transaction>): Block {
    Block(1, 0, 0, 0, txs, [])
  }

  lemma SlipsPass(places: Places, s: Books, txs: seq<Transaction>, d: Draft)
    requires CheckTxs(places, s.accounts, s.filter, txs) == Some(d) && forall x :: x in d.slips ==> SlipOk(d.slips[x])
    ensures CheckBody(places, s, TxBlock(txs))
  {
    hide SlipOk, CheckTxs;
  }

  // An Append of nothing by an account without an entry.
  lemma NothingFromNoEntry(places: Places, filter: Bits)
    ensures var s, blk := Books(map[2 := Account(0, map[])], filter), TxBlock([Append(2, 7, 1, 0, [])]);
      CheckBody(places, s, blk) && ApplyBlock(places, s, blk).None?
  {
    var s, tx := Books(map[2 := Account(0, map[])], filter), Append(2, 7, 1, 0, []);
    CheckOne(places, s.accounts, filter, tx);
    ApplyOne(places, s, tx);
    assert Counting(1, 1) == [1];
    OneLine(0, [1], 0, 0);
    FirstLine(0, 1, 0, 0);
    var d := CheckTx(places, s.accounts, Draft(map[], filter), tx);
    assert d == Some(Draft(map[2 := Slip(0, [1], map[7 := (0, 0)])], filter));
  }

  // An asset spent before the same sender establishes it.
  lemma SpentTooEarly(places: Places)
    ensures var s, blk := Books(map[1 := Account(0, map[])], NoBits()), TxBlock([Pay(1, 1, 5, 2), Establish(1, 7, 2)]);
      CheckBody(places, s, blk) && ApplyBlock(places, s, blk).None?
  {
    hide Positive, With, NoBits, SlipOk, CheckTx, CheckTxs, CheckBody;
    NothingPositive(places, 7);
    var s, x, y := Books(map[1 := Account(0, map[])], NoBits()), Pay(1, 1, 5, 2), Establish(1, 7, 2);
    FirstPayment(places, s.accounts, Draft(map[], NoBits()), 1, 1, 5, 2);
    var slip := Slip(0, [1], map[7 := (0, 5)]);
    CheckTwo(places, s.accounts, NoBits(), x, y);
    Establishing(places, s.accounts, Draft(map[][1 := slip], NoBits()), slip, 1, 2, 0);
    var balances := slip.balances[7 := (ASSET_MAX_COUNT, 5)];
    assert balances == map[7 := (ASSET_MAX_COUNT, 5)];
    var d := Draft(map[][1 := slip][1 := Slip(0, [1, 2], balances)], With(places, NoBits(), 7));
    assert slip.nonces + [2] == [1, 2];
    assert Counting(1, 2) == [1, 2];
    OneLine(0, [1, 2], ASSET_MAX_COUNT, 5);
    SlipsPass(places, s, [x, y], d);
    ApplyTwo(places, s, x, y);
  }

  // A balance that wraps before it is spent.
  lemma WrappedBalance(places: Places, filter: Bits)
    ensures var s := Books(map[1 := Account(0, map[7 := WORD - 1]), 2 := Account(0, map[7 := 1])], filter);
      var blk := TxBlock([Pay(1, 1, WORD - 1, 2), Pay(2, 1, 1, 1)]);
      CheckBody(places, s, blk) && ApplyBlock(places, s, blk).None?
  {
    hide SlipOk, OutSum, PayOuts, CheckTx, CheckTxs, CheckBody;
    var s := Books(map[1 := Account(0, map[7 := WORD - 1]), 2 := Account(0, map[7 := 1])], filter);
    var x, y := Pay(1, 1, WORD - 1, 2), Pay(2, 1, 1, 1);
    var one, two := Slip(0, [1], map[7 := (WORD - 1, WORD - 1)]), Slip(0, [1], map[7 := (1, 1)]);
    FirstPayment(places, s.accounts, Draft(map[], filter), 1, 1, WORD - 1, 2);
    CheckTwo(places, s.accounts, filter, x, y);
    FirstPayment(places, s.accounts, Draft(map[1 := one], filter), 2, 1, 1, 1);
    assert Counting(1, 1) == [1];
    OneLine(0, [1], WORD - 1, WORD - 1);
    OneLine(0, [1], 1, 1);
    SlipsPass(places, s, [x, y], Draft(map[1 := one][2 := two], filter));
    ApplyTwo(places, s, x, y);
    assert map[7 := WORD - 1] - {7} == map[];
    OneOut(Out(2, WORD - 1), s.accounts[1 := Account(2, map[])], 7);
  }

  // ---- An Append that is refused -----------------------------------------

  function SetBalance(acc: Account, a: Asset, n: nat): Account {
    acc.(balances := if n > 0 then acc.balances[a := n] else acc.balances - {a})
  }

  // The sender's account after an Append whose reduction throws: the nonce was
  // set before, and nonce and balance are then put back.
  function Restored(acc: Account, a: Asset, nonce: nat): Account {
    SetBalance(acc.(nonce := Wrap(nonce + 1)).(nonce := acc.nonce), a, Balance(acc, a))
  }

  // A refused Append leaves the sender as it was if and only if it had no entry
  // of zero for the asset, which is dropped; what it holds stays in any case.
  lemma FailedAppendRestores(acc: Account, a: Asset, nonce: nat, count: nat, b: Asset)
    requires ReduceBalance(acc.(nonce := Wrap(nonce + 1)), a, count).None?
    ensures Restored(acc, a, nonce) == acc <==> !(a in acc.balances && acc.balances[a] == 0)
    ensures Balance(Restored(acc, a, nonce), b) == Balance(acc, b)
  {
    var r := Restored(acc, a, nonce);
    if a in acc.balances && acc.balances[a] == 0 {
      assert a !in r.balances;
    } else {
      assert r.balances == acc.balances;
    }
  }

  // ---- The third gap: what is spent wraps too ----------------------------

  // The books after a block in which address 1 established asset 7 and sent
  // nothing of it to address 2.
  function NothingSent(places: Places): Books {
    Books(map[1 := Account(3, map[7 := ASSET_MAX_COUNT]), 2 := Account(0, map[7 := 0])], With(places, NoBits(), 7))
  }

  lemma NothingSentReached(places: Places)
    ensures var s, blk := Books(map[], NoBits()), TxBlock([Establish(1, 7, 1), Pay(1, 2, 0, 2)]);
      CheckBody(places, s, blk) && ApplyBlock(places, s, blk) == Some(NothingSent(places))
  {
    hide Positive, With, NoBits, SlipOk, OutSum, PayOuts, CheckTx, CheckTxs, CheckBody;
    NothingPositive(places, 7);
    var s, f, none := Books(map[], NoBits()), With(places, NoBits(), 7), Slip(0, [], map[]);
    var x, y := Establish(1, 7, 1), Pay(1, 2, 0, 2);
    var one := Slip(0, [1], map[7 := (ASSET_MAX_COUNT, 0)]);
    Establishing(places, map[], Draft(map[], NoBits()), none, 1, 1, 0);
    assert none.balances[7 := (ASSET_MAX_COUNT, 0)] == map[7 := (ASSET_MAX_COUNT, 0)];
    CheckTwo(places, map[], NoBits(), x, y);
    assert none.nonces + [1] == [1];
    NextPayment(places, map[], Draft(map[][1 := one], f), 1, 2, 0, 2, 1, ASSET_MAX_COUNT, 0);
    assert Counting(1, 2) == [1, 2];
    OneLine(0, [1, 2], ASSET_MAX_COUNT, 0);
    SlipsPass(places, s, [x, y], Draft(map[][1 := one][1 := Slip(0, [1, 2], one.balances)], f));
    NothingSentApplied(places);
  }

  lemma NothingSentApplied(places: Places)
    requires !Positive(places, NoBits(), 7)
    ensures ApplyTxs(places, Books(map[], NoBits()), [Establish(1, 7, 1), Pay(1, 2, 0, 2)]) == Some(NothingSent(places))
  {
    hide Positive, With, NoBits, PayOuts;
    var s, f, x, y := Books(map[], NoBits()), With(places, NoBits(), 7), Establish(1, 7, 1), Pay(1, 2, 0, 2);
    ApplyTwo(places, s, x, y);
    var held := map[7 := ASSET_MAX_COUNT];
    assert AddBalance(Account(1, map[]), 7, ASSET_MAX_COUNT).balances == held;
    assert ApplyTx(places, s, x) == Some(Books(map[1 := Account(1, held)], f));
    assert held[7 := ASSET_MAX_COUNT - 0] == held;
    var left := map[1 := Account(1, held)][1 := Account(3, held)];
    assert left == map[1 := Account(3, held)];
    OneOut(Out(2, 0), left, 7);
    assert AddBalance(Account(0, map[]), 7, 0).balances == map[7 := 0];
  }

  function OverspendingBlock(to: Address): Block {
    TxBlock([Pay(2, 1, HALF, to), Pay(2, 2, HALF, to)])
  }

  // What a receipt says is spent is summed in 64 bits: an account that holds
  // nothing passes the check with two payments of 2^63. The block then fails
  // at the first of them, and putting the sender back drops its entry.
  lemma CheckLetsOverspendingThrough(places: Places, to: Address)
    ensures CheckBody(places, NothingSent(places), OverspendingBlock(to))
    ensures ApplyBlock(places, NothingSent(places), OverspendingBlock(to)).None?
    ensures var acc := NothingSent(places).accounts[2];
      ReduceBalance(acc.(nonce := 2), 7, HALF).None? && Restored(acc, 7, 1) == Account(0, map[]) != acc
  {
    hide Positive, With, NoBits, SlipOk, OutSum, PayOuts, CheckTx, CheckTxs, CheckBody;
    var s, x, y := NothingSent(places), Pay(2, 1, HALF, to), Pay(2, 2, HALF, to);
    var one := Slip(0, [1], map[7 := (0, HALF)]);
    FirstPayment(places, s.accounts, Draft(map[], s.filter), 2, 1, HALF, to);
    CheckTwo(places, s.accounts, s.filter, x, y);
    NextPayment(places, s.accounts, Draft(map[][2 := one], s.filter), 2, 2, HALF, to, 1, 0, HALF);
    assert Counting(1, 2) == [1, 2];
    OneLine(0, [1, 2], 0, 0);
    SlipsPass(places, s, [x, y], Draft(map[][2 := one][2 := Slip(0, [1, 2], map[7 := (0, 0)])], s.filter));
    ApplyTwo(places, s, x, y);
    assert map[7 := 0] - {7} == map[];
  }
}
