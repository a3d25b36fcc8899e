/**
 * Which block bodies pass the check, in terms of the block alone: no receipts.
 */
module LedgerCheck {
  import opened Options
  import opened BloomFilter
  import opened Receipts
  import opened Ledger
  import opened LedgerSupply
  import opened LedgerFunds
  import opened LedgerNonces

  // The sender of this transaction spends or establishes the asset.
  predicate Acts(tx: Transaction, k: Address, a: Asset) {
    !tx.NullOp? && tx.sender == k && tx.asset == a
  }

  predicate Opened(txs: seq<Transaction>, k: Address, a: Asset) {
    exists i :: 0 <= i < |txs| && Acts(txs[i], k, a)
  }

  // The first thing it does with the asset is to spend it.
  predicate OpensBySpending(txs: seq<Transaction>, k: Address, a: Asset) {
    exists i :: 0 <= i < |txs| && Acts(txs[i], k, a) && txs[i].Append? && !Opened(txs[..i], k, a)
  }

  // What the check takes an account to have: its balance, but only if it spends
  // of the asset before it establishes it, and what it establishes.
  function Available(accounts: map<Address, Account>, txs: seq<Transaction>, k: Address, a: Asset): nat {
    (if OpensBySpending(txs, k, a) then BalanceAt(accounts, k, a) else 0) + Granted(txs, k, a)
  }

  // An Append of a known sender pays out what it takes, as a 64-bit word; one of
  // an unknown sender follows an Establish of its asset; and an asset that is
  // established is new.
  predicate Passes(places: Places, accounts: map<Address, Account>, filter: Bits, txs: seq<Transaction>, i: nat)
    requires i < |txs|
  {
    var tx := txs[i];
    && !tx.NullOp? && IsNew(places, filter, txs, i)
    && (tx.Append? ==>
          if tx.sender in accounts then Wrap(OutSum(tx.outs)) == tx.count
          else exists j :: 0 <= j < i && Grants(txs[j], tx.sender, tx.asset))
  }

  lemma OpenedStep(txs: seq<Transaction>, k: Address, a: Asset)
    requires txs != []
    ensures Opened(txs, k, a) <==> Opened(txs[..|txs| - 1], k, a) || Acts(txs[|txs| - 1], k, a)
  {
    hide Acts;
    var init := txs[..|txs| - 1];
    if Opened(init, k, a) {
      var i :| 0 <= i < |init| && Acts(init[i], k, a);
      assert Acts(txs[i], k, a);
    }
    if Opened(txs, k, a) && !Acts(txs[|txs| - 1], k, a) {
      var i :| 0 <= i < |txs| && Acts(txs[i], k, a);
      assert Acts(init[i], k, a);
    }
  }

  lemma OpensStep(txs: seq<Transaction>, k: Address, a: Asset)
    requires txs != []
    ensures var init, tx := txs[..|txs| - 1], txs[|txs| - 1];
      OpensBySpending(txs, k, a) <==>
        OpensBySpending(init, k, a) || (!Opened(init, k, a) && Acts(tx, k, a) && tx.Append?)
  {
    hide Acts, Opened;
    var init, n := txs[..|txs| - 1], |txs| - 1;
    if OpensBySpending(init, k, a) {
      var i :| 0 <= i < |init| && Acts(init[i], k, a) && init[i].Append? && !Opened(init[..i], k, a);
      assert init[..i] == txs[..i] && Acts(txs[i], k, a);
    }
    if OpensBySpending(txs, k, a) {
      var i :| 0 <= i < |txs| && Acts(txs[i], k, a) && txs[i].Append? && !Opened(txs[..i], k, a);
      if i < n { assert init[..i] == txs[..i] && Acts(init[i], k, a); }
    }
  }

  // An account that opens by spending has no balance of its own unless it is
  // known, and a known one spends from its balance.
  lemma {:induction false} GrantsOpen(txs: seq<Transaction>, k: Address, a: Asset)
    ensures !Opened(txs, k, a) ==> Granted(txs, k, a) == 0 && Spent(txs, k, a) == 0
    ensures !Opened(txs, k, a) ==> !OpensBySpending(txs, k, a)
  {
    if txs != [] {
      GrantsOpen(txs[..|txs| - 1], k, a);
      OpenedStep(txs, k, a);
      OpensStep(txs, k, a);
    }
  }

  // ---- The lines of the receipts -----------------------------------------

  // A receipt has a line for an asset if its sender acts on it: what is
  // available and what is spent, as 64-bit words.
  predicate LineIs(slips: map<Address, Slip>, k: Address, a: Asset, acts: bool, available: nat, spent: nat) {
    if acts then k in slips && a in slips[k].balances && slips[k].balances[a] == (Wrap(available), Wrap(spent))
    else k in slips ==> a !in slips[k].balances
  }

  lemma AppendLineIs(places: Places, accounts: map<Address, Account>, d: Draft, tx: Transaction, k: Address, a: Asset,
      acts: bool, available: nat, spent: nat)
    requires tx.Append? && tx.count < WORD && CheckTx(places, accounts, d, tx).Some? && WordBalances(accounts)
    requires LineIs(d.slips, k, a, acts, available, spent) && (!acts ==> available == 0 && spent == 0)
    ensures LineIs(CheckTx(places, accounts, d, tx).value.slips, k, a, acts || Acts(tx, k, a),
      if !acts && Acts(tx, k, a) then BalanceAt(accounts, k, a) else available, spent + Takes(tx, k, a))
  {
    hide OutSum;
    WrapSum(spent, Wrap(spent), Takes(tx, k, a));
  }

  lemma EstablishLineIs(places: Places, accounts: map<Address, Account>, d: Draft, tx: Transaction, k: Address,
      a: Asset, acts: bool, available: nat, spent: nat)
    requires tx.Establish? && CheckTx(places, accounts, d, tx).Some?
    requires LineIs(d.slips, k, a, acts, available, spent) && (!acts ==> available == 0 && spent == 0)
    ensures LineIs(CheckTx(places, accounts, d, tx).value.slips, k, a, acts || Acts(tx, k, a),
      available + if Acts(tx, k, a) then ASSET_MAX_COUNT else 0, spent)
  {
    hide Positive, With;
    WrapSum(available, Wrap(available), ASSET_MAX_COUNT);
  }

  lemma {:induction false} LinesAre(places: Places, accounts: map<Address, Account>, filter: Bits,
      txs: seq<Transaction>, k: Address, a: Asset)
    requires CheckTxs(places, accounts, filter, txs).Some? && WordTxs(txs) && WordBalances(accounts)
    ensures LineIs(CheckTxs(places, accounts, filter, txs).value.slips, k, a, Opened(txs, k, a),
      Available(accounts, txs, k, a), Spent(txs, k, a))
  {
    hide LineIs, CheckTx, WordTxs, WordBalances, BalanceAt, Opened, OpensBySpending;
    if txs == [] {
      NothingOpened(k, a, Available(accounts, txs, k, a), Spent(txs, k, a));
    } else {
      var init, tx := txs[..|txs| - 1], txs[|txs| - 1];
      WordLast(txs);
      LinesAre(places, accounts, filter, init, k, a);
      GrantsOpen(init, k, a);
      OpenedStep(txs, k, a);
      OpensStep(txs, k, a);
      var d := CheckTxs(places, accounts, filter, init).value;
      var acts, available, spent := Opened(init, k, a), Available(accounts, init, k, a), Spent(init, k, a);
      CheckedKind(places, accounts, d, tx);
      if tx.Append? {
        AppendLineIs(places, accounts, d, tx, k, a, acts, available, spent);
      } else {
        EstablishLineIs(places, accounts, d, tx, k, a, acts, available, spent);
      }
    }
  }

  lemma NothingOpened(k: Address, a: Asset, available: nat, spent: nat)
    ensures !Opened([], k, a) && LineIs(map[], k, a, false, available, spent)
  {
  }

  lemma {:induction false} AffairsKeepLines(accounts: map<Address, Account>, slips: map<Address, Slip>,
      airs: seq<Affair>, k: Address, a: Asset, acts: bool, available: nat, spent: nat)
    requires LineIs(slips, k, a, acts, available, spent)
    ensures LineIs(CheckAffairs(accounts, slips, airs), k, a, acts, available, spent)
  {
    if airs != [] { AffairsKeepLines(accounts, slips, airs[..|airs| - 1], k, a, acts, available, spent); }
  }

  // ---- The transactions --------------------------------------------------

  lemma TxPasses(places: Places, accounts: map<Address, Account>, d: Draft, tx: Transaction)
    ensures CheckTx(places, accounts, d, tx).Some? <==>
      && !tx.NullOp? && (tx.Establish? ==> !Positive(places, d.filter, tx.asset))
      && (tx.Append? ==>
            if tx.sender in accounts then Wrap(OutSum(tx.outs)) == tx.count
            else tx.sender in d.slips && tx.asset in d.slips[tx.sender].balances)
  {
    hide Positive, With, OutSum;
  }

  lemma PassesBefore(places: Places, accounts: map<Address, Account>, filter: Bits, txs: seq<Transaction>, i: nat)
    requires i < |txs| - 1
    ensures Passes(places, accounts, filter, txs, i) <==> Passes(places, accounts, filter, txs[..|txs| - 1], i)
  {
    hide OutSum, Grants, FilterAfter, Positive;
    var init := txs[..|txs| - 1];
    assert init[..i] == txs[..i];
    forall j | 0 <= j < i ensures init[j] == txs[j] {}
  }

  // An unknown sender opens a line by establishing.
  lemma {:induction false} UnknownOpens(places: Places, accounts: map<Address, Account>, filter: Bits,
      txs: seq<Transaction>, k: Address, a: Asset)
    requires CheckTxs(places, accounts, filter, txs).Some? && k !in accounts && WordTxs(txs) && WordBalances(accounts)
    ensures Opened(txs, k, a) <==> exists j :: 0 <= j < |txs| && Grants(txs[j], k, a)
  {
    hide CheckTx, WordTxs, WordBalances, Opened, Acts, Grants;
    if txs == [] {
      NothingOpened(k, a, 0, 0);
    } else {
      var init, tx := txs[..|txs| - 1], txs[|txs| - 1];
      WordLast(txs);
      UnknownOpens(places, accounts, filter, init, k, a);
      OpenedStep(txs, k, a);
      UnknownStep(places, accounts, filter, txs, k, a);
      if j :| 0 <= j < |init| && Grants(init[j], k, a) { assert Grants(txs[j], k, a); }
      if j :| 0 <= j < |txs| && Grants(txs[j], k, a) {
        if j < |init| { assert Grants(init[j], k, a); }
      }
    }
  }

  // What the last transaction does: an Append of a line that is there already,
  // or an Establish.
  lemma UnknownStep(places: Places, accounts: map<Address, Account>, filter: Bits, txs: seq<Transaction>,
      k: Address, a: Asset)
    requires txs != [] && CheckTxs(places, accounts, filter, txs).Some? && k !in accounts
    requires WordTxs(txs) && WordBalances(accounts)
    ensures var init, tx := txs[..|txs| - 1], txs[|txs| - 1];
      && (Acts(tx, k, a) ==> Opened(init, k, a) || Grants(tx, k, a))
      && (Grants(tx, k, a) ==> Acts(tx, k, a))
  {
    hide CheckTx, WordTxs, WordBalances, Opened, Positive, OutSum, Available;
    var init, tx := txs[..|txs| - 1], txs[|txs| - 1];
    WordLast(txs);
    LinesAre(places, accounts, filter, init, k, a);
    TxPasses(places, accounts, CheckTxs(places, accounts, filter, init).value, tx);
  }

  // Every transaction passes its check if and only if, in terms of those before
  // it, each may stand where it does.
  lemma {:induction false} TxsPass(places: Places, accounts: map<Address, Account>, filter: Bits,
      txs: seq<Transaction>)
    requires WordTxs(txs) && WordBalances(accounts)
    ensures CheckTxs(places, accounts, filter, txs).Some? <==>
      forall i :: 0 <= i < |txs| ==> Passes(places, accounts, filter, txs, i)
  {
    hide CheckTx, WordTxs, WordBalances, Passes;
    if txs != [] {
      var init := txs[..|txs| - 1];
      WordLast(txs);
      TxsPass(places, accounts, filter, init);
      forall i | 0 <= i < |init| ensures Passes(places, accounts, filter, txs, i) <==>
        Passes(places, accounts, filter, init, i)
      {
        PassesBefore(places, accounts, filter, txs, i);
      }
      if CheckTxs(places, accounts, filter, init).Some? { LastPasses(places, accounts, filter, txs); }
    }
  }

  lemma LastPasses(places: Places, accounts: map<Address, Account>, filter: Bits, txs: seq<Transaction>)
    requires txs != [] && WordTxs(txs) && WordBalances(accounts)
    requires CheckTxs(places, accounts, filter, txs[..|txs| - 1]).Some?
    ensures CheckTxs(places, accounts, filter, txs).Some? <==> Passes(places, accounts, filter, txs, |txs| - 1)
  {
    hide CheckTx, WordTxs, WordBalances, Opened, Positive, OutSum, Available, Grants, FilterAfter;
    var init, tx := txs[..|txs| - 1], txs[|txs| - 1];
    WordLast(txs);
    var d := CheckTxs(places, accounts, filter, init).value;
    TxPasses(places, accounts, d, tx);
    CheckedNew(places, accounts, filter, init, 0);
    if tx.sender !in accounts {
      LinesAre(places, accounts, filter, init, tx.sender, tx.asset);
      UnknownOpens(places, accounts, filter, init, tx.sender, tx.asset);
      forall j | 0 <= j < |init| ensures init[j] == txs[j] {}
    }
  }

  // ---- The body ----------------------------------------------------------

  // The nonces a sender uses are the ones after its own, in any order, and what
  // it spends of an asset, as a 64-bit word, is available.
  predicate Covered(accounts: map<Address, Account>, blk: Block, k: Address) {
    Consecutive(NonceAt(accounts, k), Uses(blk, k))
  }

  predicate Afforded(accounts: map<Address, Account>, txs: seq<Transaction>, k: Address, a: Asset) {
    Wrap(Spent(txs, k, a)) <= Wrap(Available(accounts, txs, k, a))
  }

  lemma SlipsAre(places: Places, s: Books, blk: Block, k: Address, a: Asset)
    requires WordBalances(s.accounts) && WordTxs(blk.transactions)
    requires CheckTxs(places, s.accounts, s.filter, blk.transactions).Some?
    ensures var slips := CheckAffairs(s.accounts,
        CheckTxs(places, s.accounts, s.filter, blk.transactions).value.slips, blk.affairs);
      && Listed(s.accounts, slips, k, Uses(blk, k))
      && LineIs(slips, k, a, Opened(blk.transactions, k, a), Available(s.accounts, blk.transactions, k, a),
                Spent(blk.transactions, k, a))
  {
    hide WordBalances, WordTxs, CheckTxs, CheckAffairs, Listed, LineIs, Opened, Available, Spent;
    var slips := CheckTxs(places, s.accounts, s.filter, blk.transactions).value.slips;
    TxsListed(places, s.accounts, s.filter, blk.transactions, k);
    AffairsListed(s.accounts, slips, blk.affairs, k, TxUses(blk.transactions, k));
    LinesAre(places, s.accounts, s.filter, blk.transactions, k, a);
    AffairsKeepLines(s.accounts, slips, blk.affairs, k, a, Opened(blk.transactions, k, a),
      Available(s.accounts, blk.transactions, k, a), Spent(blk.transactions, k, a));
  }

  // The receipts are good if and only if this is so of every sender and asset.
  lemma ReceiptsGood(places: Places, s: Books, blk: Block)
    requires WordBalances(s.accounts) && WordTxs(blk.transactions)
    requires CheckTxs(places, s.accounts, s.filter, blk.transactions).Some?
    ensures CheckBody(places, s, blk) <==>
      && (forall k :: Covered(s.accounts, blk, k))
      && (forall k, a :: Afforded(s.accounts, blk.transactions, k, a))
  {
    hide CheckTxs, CheckAffairs, Consecutive, Uses, Available, Spent, Opened, NonceAt, WordTxs, WordBalances;
    var accounts, txs := s.accounts, blk.transactions;
    var slips := CheckAffairs(accounts, CheckTxs(places, accounts, s.filter, txs).value.slips, blk.affairs);
    if CheckBody(places, s, blk) {
      forall k ensures Covered(accounts, blk, k) { CheckedUses(places, s, blk, k); }
      forall k, a ensures Afforded(accounts, txs, k, a) {
        SlipsAre(places, s, blk, k, a);
        GrantsOpen(txs, k, a);
        if Opened(txs, k, a) { assert SlipOk(slips[k]); }
      }
    }
    if (forall k :: Covered(accounts, blk, k)) && (forall k, a :: Afforded(accounts, txs, k, a)) {
      forall x | x in slips ensures SlipOk(slips[x]) {
        SlipsAre(places, s, blk, x, 0);
        assert Covered(accounts, blk, x);
        forall a | a in slips[x].balances ensures slips[x].balances[a].0 >= slips[x].balances[a].1 {
          SlipsAre(places, s, blk, x, a);
          assert Afforded(accounts, txs, x, a);
        }
      }
    }
  }

  // A body passes the check if and only if every transaction may stand where it
  // does, the nonces of every sender are those after its own, and no sender
  // spends more of an asset than is available to it.
  lemma CheckExact(places: Places, s: Books, blk: Block)
    requires WordBalances(s.accounts) && WordTxs(blk.transactions)
    ensures CheckBody(places, s, blk) <==>
      && (forall i :: 0 <= i < |blk.transactions| ==> Passes(places, s.accounts, s.filter, blk.transactions, i))
      && (forall k :: Covered(s.accounts, blk, k))
      && (forall k, a :: Afforded(s.accounts, blk.transactions, k, a))
  {
    hide CheckTxs, CheckAffairs, Covered, Afforded, Passes, WordTxs, WordBalances, SlipOk;
    TxsPass(places, s.accounts, s.filter, blk.transactions);
    if CheckTxs(places, s.accounts, s.filter, blk.transactions).Some? { ReceiptsGood(places, s, blk); }
  }
}
