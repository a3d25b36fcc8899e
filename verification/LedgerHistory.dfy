/**
 * Everything a connector goes through: blocks it accepts and, between them,
 * blocks that pass the check and are then refused, which leave what undoing
 * leaves.
 */
module LedgerHistory {
  import opened Options
  import opened BloomFilter
  import opened Receipts
  import opened Ledger
  import opened LedgerSupply
  import opened LedgerFunds
  import opened LedgerUndo

  datatype Event = Accepted(blk: Block) | Failed(blk: Block) | Mismatched(blk: Block)

  ghost predicate Leads(places: Places, s: Books, e: Event, s': Books) {
    && CheckBody(places, s, e.blk)
    && var applied := ApplyBlock(places, s, e.blk);
       match e
       case Accepted(_) => applied == Some(s')
       case Failed(blk) => applied.None? && s' == s.(accounts := AfterFailure(places, s, blk).accounts)
       case Mismatched(blk) => applied.Some? && s' == s.(accounts := AfterMismatch(places, s, blk).accounts)
  }

  ghost predicate IsHistory(places: Places, books: seq<Books>, events: seq<Event>) {
    && |books| == |events| + 1 && books[0].accounts == map[]
    && forall i :: 0 <= i < |events| ==> Leads(places, books[i], events[i], books[i + 1])
  }

  // How often an asset is established by blocks that are accepted.
  function Establishings(events: seq<Event>, a: Asset): nat {
    if events == [] then 0
    else
      var e := events[|events| - 1];
      Establishings(events[..|events| - 1], a) + if e.Accepted? then Count(e.blk.transactions, a) else 0
  }

  // What an event does to a total beyond what it establishes.
  ghost function Change(places: Places, s: Books, e: Event, s': Books, a: Asset): int {
    if e.Accepted? then Excess(e.blk.transactions, a) - WORD * Losses(places, s, e.blk.transactions, a)
    else Total(s'.accounts, a) - Total(s.accounts, a)
  }

  ghost function Changes(places: Places, books: seq<Books>, events: seq<Event>, n: nat, a: Asset): int
    requires n <= |events| && |books| == |events| + 1
  {
    if n == 0 then 0
    else Changes(places, books, events, n - 1, a) + Change(places, books[n - 1], events[n - 1], books[n], a)
  }

  // ---- Established at most once ------------------------------------------

  ghost predicate Noted(places: Places, filter: Bits, est: set<Asset>) {
    forall a :: a in est ==> Positive(places, filter, a)
  }

  lemma TxNoted(places: Places, s: Books, est: set<Asset>, tx: Transaction)
    requires Noted(places, s.filter, est) && ApplyTx(places, s, tx).Some?
    ensures Noted(places, ApplyTx(places, s, tx).value.filter, Established(est, tx))
    ensures tx.Establish? ==> tx.asset !in est
  {
    hide Positive, PayOuts, With, ReduceBalance;
    forall a | a in Established(est, tx) ensures Positive(places, ApplyTx(places, s, tx).value.filter, a) {
      TxFilter(places, s, tx, a);
    }
  }

  lemma {:induction false} TxsNoted(places: Places, s: Books, est: set<Asset>, txs: seq<Transaction>)
    requires Noted(places, s.filter, est) && ApplyTxs(places, s, txs).Some?
    ensures Noted(places, ApplyTxs(places, s, txs).value.filter, EstablishedBy(est, txs))
    ensures forall a :: Count(txs, a) + (if a in est then 1 else 0) == if a in EstablishedBy(est, txs) then 1 else 0
  {
    hide Noted, ApplyTx;
    if txs != [] {
      var init, tx := txs[..|txs| - 1], txs[|txs| - 1];
      TxsNoted(places, s, est, init);
      TxNoted(places, ApplyTxs(places, s, init).value, EstablishedBy(est, init), tx);
    }
  }

  lemma {:induction false} HistoryNoted(places: Places, books: seq<Books>, events: seq<Event>, n: nat)
    returns (est: set<Asset>)
    requires IsHistory(places, books, events) && n <= |events|
    ensures Noted(places, books[n].filter, est)
    ensures forall a :: Establishings(events[..n], a) == if a in est then 1 else 0
  {
    hide CheckBody, Noted, Count, EstablishedBy, AfterFailure, AfterMismatch;
    assert events[..0] == [];
    if n == 0 {
      est := {};
      NothingNoted(places, books[0].filter);
    } else {
      est := HistoryNoted(places, books, events, n - 1);
      var e := events[n - 1];
      assert Leads(places, books[n - 1], e, books[n - 1 + 1]);
      assert events[..n][..n - 1] == events[..n - 1] && events[..n][n - 1] == e;
      if e.Accepted? {
        TxsNoted(places, books[n - 1], est, e.blk.transactions);
        est := EstablishedBy(est, e.blk.transactions);
      }
    }
  }

  lemma NothingNoted(places: Places, filter: Bits)
    ensures Noted(places, filter, {})
  {
  }

  // ---- The total ---------------------------------------------------------

  lemma {:induction false} HistoryTotal(places: Places, books: seq<Books>, events: seq<Event>, n: nat, a: Asset)
    requires IsHistory(places, books, events) && n <= |events|
    ensures Total(books[n].accounts, a)
         == Establishings(events[..n], a) * ASSET_MAX_COUNT + Changes(places, books, events, n, a)
  {
    hide CheckBody, ApplyBlock, Total, Count, Excess, Losses, AfterFailure, AfterMismatch;
    assert events[..0] == [];
    if n == 0 {
      NobodyHas(books[0].accounts, a);
    } else {
      HistoryTotal(places, books, events, n - 1, a);
      var s, e := books[n - 1], events[n - 1];
      assert Leads(places, s, e, books[n - 1 + 1]);
      assert events[..n][..n - 1] == events[..n - 1] && events[..n][n - 1] == e;
      if e.Accepted? { BlockSupply(places, s, e.blk, a); }
    }
  }

  // Through all that a connector can go through, an asset is established at most
  // once, and its total is what that makes it if and only if what accepted
  // blocks paid out beyond what they took in, less what wrapped, and what
  // refused blocks left make up for each other.
  lemma HistorySupply(places: Places, books: seq<Books>, events: seq<Event>, n: nat, a: Asset)
    requires IsHistory(places, books, events) && n <= |events|
    ensures Establishings(events[..n], a) <= 1
    ensures Total(books[n].accounts, a) == Establishings(events[..n], a) * ASSET_MAX_COUNT
            <==> Changes(places, books, events, n, a) == 0
  {
    hide IsHistory, Noted, Total;
    var est := HistoryNoted(places, books, events, n);
    HistoryTotal(places, books, events, n, a);
  }

  // ---- What a refused block changes --------------------------------------

  lemma {:induction false} SameTotals(m: map<Address, Account>, m': map<Address, Account>, a: Asset)
    requires m.Keys == m'.Keys && forall k :: k in m ==> Balance(m'[k], a) == Balance(m[k], a)
    ensures Total(m', a) == Total(m, a)
    decreases |m|
  {
    if m == map[] {
      assert m'.Keys == {};
    } else {
      var k :| k in m && Total(m, a) == Balance(m[k], a) + Total(m - {k}, a);
      assert (m - {k}).Keys == (m' - {k}).Keys;
      SameTotals(m - {k}, m' - {k}, a);
      TotalWithout(m', k, a);
    }
  }

  lemma SameTotalsAt(m: map<Address, Account>, m': map<Address, Account>, a: Asset)
    requires forall k :: (k in m <==> k in m') && BalanceAt(m', k, a) == BalanceAt(m, k, a)
    ensures Total(m', a) == Total(m, a)
  {
    hide Total;
    assert m.Keys == m'.Keys;
    forall k | k in m ensures Balance(m'[k], a) == Balance(m[k], a) {
      assert BalanceAt(m', k, a) == BalanceAt(m, k, a);
    }
    SameTotals(m, m', a);
  }

  // A block refused for its root, whose records run and in which no account that
  // was there establishes the asset, leaves the total as it was.
  lemma MismatchKeepsTotal(places: Places, s: Books, blk: Block, a: Asset)
    requires WordBalances(s.accounts) && WordTxs(blk.transactions) && ApplyBlock(places, s, blk).Some?
    requires MismatchRuns(places, s, blk) && forall k :: k in s.accounts ==> !Establishes(blk.transactions, k, a)
    ensures Total(AfterMismatch(places, s, blk).accounts, a) == Total(s.accounts, a)
  {
    hide WordBalances, WordTxs, ApplyBlock, MismatchRuns, AfterMismatch, Establishes, Total;
    var r := AfterMismatch(places, s, blk).accounts;
    forall k
      ensures (k in s.accounts <==> k in r) && BalanceAt(r, k, a) == BalanceAt(s.accounts, k, a)
    {
      if k in s.accounts { MismatchExact(places, s, blk, k, a); } else { NewAccountsGo(places, s, blk, k); }
    }
    SameTotalsAt(s.accounts, r, a);
  }

  // What outputs pay to accounts that are there.
  function PaidToKnown(outs: seq<Out>, known: set<Address>): nat {
    if outs == [] then 0
    else
      var out := outs[|outs| - 1];
      PaidToKnown(outs[..|outs| - 1], known) + if out.receiver in known then out.count else 0
  }

  // The accounts with an Append of the asset made backwards: the sender is given
  // the count and the receivers that are there lose what they would have got.
  ghost predicate IsBackwards(accounts: map<Address, Account>, r: map<Address, Account>, tx: Transaction, a: Asset) {
    && accounts.Keys == r.Keys
    && forall k :: k in accounts ==>
         Balance(r[k], a) == Balance(accounts[k], a) + Takes(tx, k, a) - Gives(tx, k, a)
  }

  // Nothing wraps and nothing is missing when the Append is made backwards.
  predicate Fits(accounts: map<Address, Account>, tx: Transaction, a: Asset) {
    forall k :: k in accounts ==> 0 <= BalanceAt(accounts, k, a) + Takes(tx, k, a) - Gives(tx, k, a) < WORD
  }

  ghost function SumPaid(keys: set<Address>, outs: seq<Out>): nat {
    if keys == {} then 0 else
    var k :| k in keys;
    PaidTo(outs, k) + SumPaid(keys - {k}, outs)
  }

  lemma {:induction false} SumPaidWithout(keys: set<Address>, outs: seq<Out>, k: Address)
    requires k in keys
    ensures SumPaid(keys, outs) == PaidTo(outs, k) + SumPaid(keys - {k}, outs)
    decreases |keys|
  {
    var c :| c in keys && SumPaid(keys, outs) == PaidTo(outs, c) + SumPaid(keys - {c}, outs);
    if c != k {
      SumPaidWithout(keys - {c}, outs, k);
      SumPaidWithout(keys - {k}, outs, c);
      assert keys - {c} - {k} == keys - {k} - {c};
    }
  }

  lemma {:induction false} SumPaidStep(keys: set<Address>, outs: seq<Out>)
    requires outs != []
    ensures var out := outs[|outs| - 1];
      SumPaid(keys, outs) == SumPaid(keys, outs[..|outs| - 1]) + if out.receiver in keys then out.count else 0
    decreases |keys|
  {
    if keys != {} {
      var k :| k in keys && SumPaid(keys, outs) == PaidTo(outs, k) + SumPaid(keys - {k}, outs);
      SumPaidStep(keys - {k}, outs);
      SumPaidWithout(keys, outs[..|outs| - 1], k);
      var out := outs[|outs| - 1];
      assert PaidTo(outs, k) == PaidTo(outs[..|outs| - 1], k) + if out.receiver == k then out.count else 0;
      assert out.receiver in keys <==> out.receiver == k || out.receiver in keys - {k};
    } else {
      assert SumPaid(keys, outs) == 0 && SumPaid(keys, outs[..|outs| - 1]) == 0;
    }
  }

  lemma {:induction false} SumPaidIsKnown(keys: set<Address>, outs: seq<Out>)
    ensures SumPaid(keys, outs) == PaidToKnown(outs, keys)
  {
    if outs == [] {
      SumPaidNothing(keys);
    } else {
      SumPaidIsKnown(keys, outs[..|outs| - 1]);
      SumPaidStep(keys, outs);
    }
  }

  lemma {:induction false} SumPaidNothing(keys: set<Address>)
    ensures SumPaid(keys, []) == 0
    decreases |keys|
  {
    if keys != {} {
      var k :| k in keys && SumPaid(keys, []) == PaidTo([], k) + SumPaid(keys - {k}, []);
      SumPaidNothing(keys - {k});
      assert PaidTo([], k) == 0;
    } else {
      assert SumPaid(keys, []) == 0;
    }
  }

  lemma {:induction false} BackwardsTotal(accounts: map<Address, Account>, r: map<Address, Account>, tx: Transaction,
      a: Asset)
    requires tx.Append? && tx.asset == a && IsBackwards(accounts, r, tx, a)
    ensures Total(r, a) + SumPaid(accounts.Keys, tx.outs)
         == Total(accounts, a) + if tx.sender in accounts then tx.count else 0
    decreases |accounts|
  {
    hide PaidTo, SumPaid, Total;
    if accounts == map[] {
      NothingThere(tx, a);
      assert accounts.Keys == {} && r == map[];
    } else {
      var k :| k in accounts;
      var less, less' := accounts - {k}, r - {k};
      assert less.Keys == less'.Keys;
      BackwardsTotal(less, less', tx, a);
      TotalWithout(accounts, k, a);
      TotalWithout(r, k, a);
      SumPaidWithout(accounts.Keys, tx.outs, k);
      assert accounts.Keys - {k} == less.Keys;
    }
  }

  lemma NothingThere(tx: Transaction, a: Asset)
    requires tx.Append?
    ensures Total(map[], a) == 0 && SumPaid({}, tx.outs) == 0
  {
  }

  // A block that fails at an Append of the asset, whose records run and in which
  // no account that was there establishes it: if nothing wraps, the total grows
  // by the count of that Append less what it would have paid to accounts that
  // were there. So what it would have paid to new accounts is minted.
  lemma FailureChangesTotal(places: Places, s: Books, blk: Block, a: Asset)
    requires WordBalances(s.accounts) && WordTxs(blk.transactions) && ApplyBlock(places, s, blk).None?
    requires FailureRuns(places, s, blk) && forall k :: k in s.accounts ==> !Establishes(blk.transactions, k, a)
    requires var tx := blk.transactions[Applied(places, s, blk.transactions)];
      tx.Append? && tx.asset == a && Fits(s.accounts, tx, a)
    ensures var tx := blk.transactions[Applied(places, s, blk.transactions)];
      Total(AfterFailure(places, s, blk).accounts, a) + PaidToKnown(tx.outs, s.accounts.Keys)
        == Total(s.accounts, a) + if tx.sender in s.accounts then tx.count else 0
  {
    hide WordBalances, WordTxs, FailureRuns, AfterFailure, Establishes, Total, PaidToKnown, SumPaid, Fits, Takes, Gives;
    var tx := blk.transactions[Applied(places, s, blk.transactions)];
    var r := AfterFailure(places, s, blk).accounts;
    forall k
      ensures k in s.accounts <==> k in r
      ensures k in s.accounts ==> BalanceAt(r, k, a) == BalanceAt(s.accounts, k, a) + Takes(tx, k, a) - Gives(tx, k, a)
    {
      FailureIsBackwards(places, s, blk, tx, k, a);
    }
    IsBackwardsAt(s.accounts, r, tx, a);
    BackwardsTotal(s.accounts, r, tx, a);
    SumPaidIsKnown(s.accounts.Keys, tx.outs);
  }

  lemma IsBackwardsAt(accounts: map<Address, Account>, r: map<Address, Account>, tx: Transaction, a: Asset)
    requires forall k :: k in accounts <==> k in r
    requires forall k :: k in accounts ==>
      BalanceAt(r, k, a) == BalanceAt(accounts, k, a) + Takes(tx, k, a) - Gives(tx, k, a)
    ensures IsBackwards(accounts, r, tx, a)
  {
    hide Takes, Gives, Balance;
    forall k | k in accounts
      ensures Balance(r[k], a) == Balance(accounts[k], a) + Takes(tx, k, a) - Gives(tx, k, a)
    {
      assert BalanceAt(r, k, a) == BalanceAt(accounts, k, a) + Takes(tx, k, a) - Gives(tx, k, a);
    }
  }

  lemma FailureIsBackwards(places: Places, s: Books, blk: Block, tx: Transaction, k: Address, a: Asset)
    requires WordBalances(s.accounts) && WordTxs(blk.transactions) && ApplyBlock(places, s, blk).None?
    requires FailureRuns(places, s, blk) && (k in s.accounts ==> !Establishes(blk.transactions, k, a))
    requires Applied(places, s, blk.transactions) < |blk.transactions|
    requires tx == blk.transactions[Applied(places, s, blk.transactions)] && tx.Append? && Fits(s.accounts, tx, a)
    ensures var r := AfterFailure(places, s, blk).accounts;
      && (k in s.accounts <==> k in r)
      && (k in s.accounts ==> BalanceAt(r, k, a) == BalanceAt(s.accounts, k, a) + Takes(tx, k, a) - Gives(tx, k, a))
  {
    hide WordBalances, WordTxs, ApplyBlock, ApplyTx, ApplyTxs, FailureRuns, AfterFailure, Establishes, Takes, Gives,
         BalanceAt,
         Owed;
    if k in s.accounts {
      EstablishesPrefix(blk.transactions, Applied(places, s, blk.transactions), k, a);
      FailureExact(places, s, blk, k, a);
      var x := BalanceAt(s.accounts, k, a) + Takes(tx, k, a) - Gives(tx, k, a);
      assert 0 <= x < WORD;
      WrapSmall(x);
    } else {
      NewAccountsGo(places, s, blk, k);
    }
  }

  lemma {:induction false} EstablishesPrefix(txs: seq<Transaction>, n: nat, k: Address, a: Asset)
    requires n <= |txs|
    ensures Establishes(txs[..n], k, a) ==> Establishes(txs, k, a)
  {
    if n < |txs| {
      assert txs[..|txs| - 1][..n] == txs[..n];
      EstablishesPrefix(txs[..|txs| - 1], n, k, a);
    } else {
      assert txs[..n] == txs;
    }
  }
}
