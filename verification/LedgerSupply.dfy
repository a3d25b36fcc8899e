/** Conservation of supply: what accepted blocks do to the total of each asset. */
module LedgerSupply {
  import opened Options
  import opened BloomFilter
  import opened Receipts
  import opened Ledger

  // ---- Totals ------------------------------------------------------------

  ghost function Total(accounts: map<Address, Account>, a: Asset): nat
    decreases |accounts|
  {
    if accounts == map[] then 0 else
    var k :| k in accounts;
    Balance(accounts[k], a) + Total(accounts - {k}, a)
  }

  lemma {:induction false} TotalWithout(accounts: map<Address, Account>, k: Address, a: Asset)
    requires k in accounts
    ensures Total(accounts, a) == Balance(accounts[k], a) + Total(accounts - {k}, a)
    decreases |accounts|
  {
    var c :| c in accounts && Total(accounts, a) == Balance(accounts[c], a) + Total(accounts - {c}, a);
    if c != k {
      TotalWithout(accounts - {c}, k, a);
      TotalWithout(accounts - {k}, c, a);
      assert accounts - {c} - {k} == accounts - {k} - {c};
    }
  }

  function BalanceAt(accounts: map<Address, Account>, k: Address, a: Asset): nat {
    if k in accounts then Balance(accounts[k], a) else 0
  }

  lemma TotalSet(accounts: map<Address, Account>, k: Address, acc: Account, a: Asset)
    ensures Total(accounts[k := acc], a) == Total(accounts, a) - BalanceAt(accounts, k, a) + Balance(acc, a)
    ensures BalanceAt(accounts, k, a) <= Total(accounts, a)
  {
    TotalWithout(accounts[k := acc], k, a);
    assert accounts[k := acc] - {k} == accounts - {k};
    if k in accounts { TotalWithout(accounts, k, a); } else { assert accounts - {k} == accounts; }
  }

  lemma NobodyHas(accounts: map<Address, Account>, a: Asset)
    requires forall k :: k in accounts ==> a !in accounts[k].balances
    ensures Total(accounts, a) == 0
    decreases |accounts|
  {
    if accounts != map[] {
      var k :| k in accounts && Total(accounts, a) == Balance(accounts[k], a) + Total(accounts - {k}, a);
      NobodyHas(accounts - {k}, a);
    }
  }

  // ---- One transaction ---------------------------------------------------

  lemma PayOutTotal(accounts: map<Address, Account>, a: Asset, out: Out, b: Asset)
    requires Total(accounts, a) + out.count < WORD
    ensures Total(PayOut(accounts, a, out), b) == Total(accounts, b) + if a == b then out.count else 0
  {
    var before := if out.receiver in accounts then accounts[out.receiver] else Account(0, map[]);
    TotalSet(accounts, out.receiver, AddBalance(before, a, out.count), b);
  }

  lemma {:induction false} PayOutsTotal(accounts: map<Address, Account>, a: Asset, outs: seq<Out>, b: Asset)
    requires Total(accounts, a) + OutSum(outs) < WORD
    ensures Total(PayOuts(accounts, a, outs), b) == Total(accounts, b) + if a == b then OutSum(outs) else 0
  {
    if outs != [] {
      var init := outs[..|outs| - 1];
      PayOutsTotal(accounts, a, init, a);
      PayOutsTotal(accounts, a, init, b);
      PayOutTotal(PayOuts(accounts, a, init), a, outs[|outs| - 1], b);
    }
  }

  // What the transaction brings into circulation, and what that is net of
  // what it takes out.
  function Rise(tx: Transaction, a: Asset): nat {
    match tx
    case Append(_, b, _, _, outs) => if a == b then OutSum(outs) else 0
    case Establish(_, b, _) => if a == b then ASSET_MAX_COUNT else 0
    case NullOp(_, _, _) => 0
  }

  function Delta(tx: Transaction, a: Asset): int {
    Rise(tx, a) - if tx.Append? && tx.asset == a then tx.count else 0
  }

  lemma AppendSupply(s: Books, tx: Transaction, acc: Account, a: Asset)
    requires tx.Append? && tx.sender in s.accounts
    requires ReduceBalance(s.accounts[tx.sender].(nonce := Wrap(tx.nonce + 1)), tx.asset, tx.count) == Some(acc)
    requires Total(s.accounts, tx.asset) + OutSum(tx.outs) < WORD
    ensures Total(PayOuts(s.accounts[tx.sender := acc], tx.asset, tx.outs), a) == Total(s.accounts, a) + Delta(tx, a)
  {
    hide Total, PayOuts, OutSum;
    TotalSet(s.accounts, tx.sender, acc, a);
    TotalSet(s.accounts, tx.sender, acc, tx.asset);
    PayOutsTotal(s.accounts[tx.sender := acc], tx.asset, tx.outs, a);
  }

  lemma TxSupply(places: Places, s: Books, tx: Transaction, a: Asset)
    requires ApplyTx(places, s, tx).Some?
    requires Total(s.accounts, tx.asset) + Rise(tx, tx.asset) < WORD
    ensures Total(ApplyTx(places, s, tx).value.accounts, a) == Total(s.accounts, a) + Delta(tx, a)
  {
    hide Total, PayOuts, OutSum, Positive, With, ReduceBalance;
    match tx {
      case Append(sender, b, nonce, count, outs) =>
        AppendSupply(s, tx, ReduceBalance(s.accounts[sender].(nonce := Wrap(nonce + 1)), b, count).value, a);
      case Establish(sender, b, _) =>
        var acc := if sender in s.accounts then s.accounts[sender] else Account(1, map[]);
        TotalSet(s.accounts, sender, AddBalance(acc, b, ASSET_MAX_COUNT), a);
      case NullOp(_, _, _) =>
    }
  }

  // ---- Exact accounting, with the additions that wrap --------------------

  // How often 2^64 is lost when n is added to the account's balance.
  function Carry(acc: Account, a: Asset, n: nat): nat {
    if a in acc.balances then (acc.balances[a] + n) / WORD else 0
  }

  lemma AddBalanceExact(acc: Account, a: Asset, n: nat)
    ensures Balance(AddBalance(acc, a, n), a) + WORD * Carry(acc, a, n) == Balance(acc, a) + n
  {
  }

  function Receiver(accounts: map<Address, Account>, out: Out): Account {
    if out.receiver in accounts then accounts[out.receiver] else Account(0, map[])
  }

  function OutsLoss(accounts: map<Address, Account>, a: Asset, outs: seq<Out>): nat {
    if outs == [] then 0
    else
      var init, out := outs[..|outs| - 1], outs[|outs| - 1];
      OutsLoss(accounts, a, init) + Carry(Receiver(PayOuts(accounts, a, init), out), a, out.count)
  }

  lemma PayOutExact(accounts: map<Address, Account>, a: Asset, out: Out, b: Asset)
    ensures Total(PayOut(accounts, a, out), b) + (if a == b then WORD * Carry(Receiver(accounts, out), a, out.count)
      else 0)
         == Total(accounts, b) + if a == b then out.count else 0
  {
    var before := Receiver(accounts, out);
    AddBalanceExact(before, a, out.count);
    hide Carry;
    TotalSet(accounts, out.receiver, AddBalance(before, a, out.count), b);
  }

  lemma {:induction false} PayOutsExact(accounts: map<Address, Account>, a: Asset, outs: seq<Out>, b: Asset)
    ensures Total(PayOuts(accounts, a, outs), b) + (if a == b then WORD * OutsLoss(accounts, a, outs) else 0)
         == Total(accounts, b) + if a == b then OutSum(outs) else 0
  {
    hide Total, PayOut, Carry, Receiver;
    if outs != [] {
      var init := outs[..|outs| - 1];
      PayOutsExact(accounts, a, init, b);
      PayOutExact(PayOuts(accounts, a, init), a, outs[|outs| - 1], b);
    }
  }

  // How often 2^64 is lost from an asset's total by one transaction.
  function TxLoss(s: Books, tx: Transaction, a: Asset): nat {
    if tx.asset != a then 0 else
    match tx
    case Append(sender, _, nonce, count, outs) =>
      if sender !in s.accounts then 0 else
      var reduced := ReduceBalance(s.accounts[sender].(nonce := Wrap(nonce + 1)), a, count);
      if reduced.None? then 0 else OutsLoss(s.accounts[sender := reduced.value], a, outs)
    case Establish(sender, _, _) =>
      Carry(if sender in s.accounts then s.accounts[sender] else Account(1, map[]), a, ASSET_MAX_COUNT)
    case NullOp(_, _, _) => 0
  }

  lemma AppendExact(s: Books, tx: Transaction, acc: Account, a: Asset)
    requires tx.Append? && tx.sender in s.accounts
    requires ReduceBalance(s.accounts[tx.sender].(nonce := Wrap(tx.nonce + 1)), tx.asset, tx.count) == Some(acc)
    ensures Total(PayOuts(s.accounts[tx.sender := acc], tx.asset, tx.outs), a) + WORD * TxLoss(s, tx, a)
         == Total(s.accounts, a) + Delta(tx, a)
  {
    hide Total, PayOuts, OutSum, OutsLoss;
    TotalSet(s.accounts, tx.sender, acc, a);
    PayOutsExact(s.accounts[tx.sender := acc], tx.asset, tx.outs, a);
  }

  // Whatever the transaction, the total moves by what it pays out beyond what
  // it takes in, less 2^64 for every addition that wraps.
  lemma TxSupplyExact(places: Places, s: Books, tx: Transaction, a: Asset)
    requires ApplyTx(places, s, tx).Some?
    ensures Total(ApplyTx(places, s, tx).value.accounts, a) + WORD * TxLoss(s, tx, a)
      == Total(s.accounts, a) + Delta(tx, a)
  {
    hide Total, PayOuts, OutSum, Positive, With, ReduceBalance, Carry, OutsLoss;
    match tx {
      case Append(sender, b, nonce, count, outs) =>
        AppendExact(s, tx, ReduceBalance(s.accounts[sender].(nonce := Wrap(nonce + 1)), b, count).value, a);
      case Establish(sender, b, _) =>
        var acc := if sender in s.accounts then s.accounts[sender] else Account(1, map[]);
        AddBalanceExact(acc, b, ASSET_MAX_COUNT);
        TotalSet(s.accounts, sender, AddBalance(acc, b, ASSET_MAX_COUNT), a);
      case NullOp(_, _, _) =>
    }
  }

  // ---- A block -----------------------------------------------------------

  function Rises(txs: seq<Transaction>, a: Asset): nat {
    if txs == [] then 0 else Rises(txs[..|txs| - 1], a) + Rise(txs[|txs| - 1], a)
  }

  function Deltas(txs: seq<Transaction>, a: Asset): int {
    if txs == [] then 0 else Deltas(txs[..|txs| - 1], a) + Delta(txs[|txs| - 1], a)
  }

  // The losses of a list of transactions, each from the books before it.
  function Losses(places: Places, s: Books, txs: seq<Transaction>, a: Asset): nat {
    if txs == [] then 0
    else
      var init := txs[..|txs| - 1];
      var before := ApplyTxs(places, s, init);
      Losses(places, s, init, a) + if before.Some? then TxLoss(before.value, txs[|txs| - 1], a) else 0
  }

  lemma {:induction false} TxsSupply(places: Places, s: Books, txs: seq<Transaction>, a: Asset)
    requires ApplyTxs(places, s, txs).Some?
    ensures Total(ApplyTxs(places, s, txs).value.accounts, a) + WORD * Losses(places, s, txs, a)
         == Total(s.accounts, a) + Deltas(txs, a)
  {
    hide Total, ApplyTx, TxLoss, Delta;
    if txs != [] {
      var init, tx := txs[..|txs| - 1], txs[|txs| - 1];
      TxsSupply(places, s, init, a);
      TxSupplyExact(places, ApplyTxs(places, s, init).value, tx, a);
    }
  }

  // With room for all outputs in 64 bits nothing is lost.
  lemma {:induction false} RoomMeansNoLoss(places: Places, s: Books, txs: seq<Transaction>, a: Asset)
    requires ApplyTxs(places, s, txs).Some?
    requires forall b :: Total(s.accounts, b) + Rises(txs, b) < WORD
    ensures Losses(places, s, txs, a) == 0
  {
    hide Total, ApplyTx, TxLoss, Rise, Delta;
    if txs != [] {
      var init, tx := txs[..|txs| - 1], txs[|txs| - 1];
      var mid := ApplyTxs(places, s, init).value;
      RoomMeansNoLoss(places, s, init, a);
      TxsSupply(places, s, init, tx.asset);
      DeltasBelowRises(init, tx.asset);
      TxSupply(places, mid, tx, a);
      TxSupplyExact(places, mid, tx, a);
    }
  }

  lemma {:induction false} DeltasBelowRises(txs: seq<Transaction>, a: Asset)
    ensures Deltas(txs, a) <= Rises(txs, a)
  {
    if txs != [] { DeltasBelowRises(txs[..|txs| - 1], a); }
  }

  lemma {:induction false} AffairsSupply(accounts: map<Address, Account>, airs: seq<Affair>, a: Asset)
    ensures Total(ApplyAffairs(accounts, airs), a) == Total(accounts, a)
  {
    if airs != [] {
      var init, air := airs[..|airs| - 1], airs[|airs| - 1];
      AffairsSupply(accounts, init, a);
      var mid := ApplyAffairs(accounts, init);
      TotalSet(mid, air.owner, if air.owner in mid then mid[air.owner].(nonce := Wrap(mid[air.owner].nonce + 1))
                               else Account(1, map[]), a);
    }
  }

  // How many of the transactions establish the asset.
  function Count(txs: seq<Transaction>, a: Asset): nat {
    if txs == [] then 0
    else Count(txs[..|txs| - 1], a) + if txs[|txs| - 1].Establish? && txs[|txs| - 1].asset == a then 1 else 0
  }

  // What the Append transactions of an asset pay out beyond what they take in.
  function Excess(txs: seq<Transaction>, a: Asset): int {
    if txs == [] then 0
    else
      var tx := txs[|txs| - 1];
      Excess(txs[..|txs| - 1], a) + if tx.Append? && tx.asset == a then OutSum(tx.outs) - tx.count else 0
  }

  lemma {:induction false} DeltasSplit(txs: seq<Transaction>, a: Asset)
    ensures Deltas(txs, a) == Count(txs, a) * ASSET_MAX_COUNT + Excess(txs, a)
  {
    if txs != [] { DeltasSplit(txs[..|txs| - 1], a); }
  }

  // For every block that applies, the total of an asset grows by what the
  // block establishes plus what its Append transactions pay out beyond what
  // they take in, less what wraps: exactly if these two are equal the supply is
  // kept.
  lemma BlockSupply(places: Places, s: Books, blk: Block, a: Asset)
    requires ApplyBlock(places, s, blk).Some?
    ensures var s' := ApplyBlock(places, s, blk).value;
      var expected := Total(s.accounts, a) + Count(blk.transactions, a) * ASSET_MAX_COUNT;
      var lost := WORD * Losses(places, s, blk.transactions, a);
      && Total(s'.accounts, a) == expected + Excess(blk.transactions, a) - lost
      && (Total(s'.accounts, a) == expected <==> Excess(blk.transactions, a) == lost)
  {
    hide Total, ApplyTxs, Losses, Count, Excess, Deltas;
    TxsSupply(places, s, blk.transactions, a);
    DeltasSplit(blk.transactions, a);
    AffairsSupply(ApplyTxs(places, s, blk.transactions).value.accounts, blk.affairs, a);
  }

  // ---- Chains ------------------------------------------------------------

  // Every established asset is in the filter with its whole supply in the
  // accounts; of any other asset no account has so much as an entry.
  ghost predicate Sound(places: Places, s: Books, est: set<Asset>) {
    forall a :: if a in est then Positive(places, s.filter, a) && Total(s.accounts, a) == ASSET_MAX_COUNT
                else NoEntry(s.accounts, a)
  }

  predicate NoEntry(accounts: map<Address, Account>, a: Asset) {
    forall k :: k in accounts ==> a !in accounts[k].balances
  }

  predicate BalancedTx(tx: Transaction) {
    tx.Append? ==> OutSum(tx.outs) == tx.count
  }

  function Established(est: set<Asset>, tx: Transaction): set<Asset> {
    if tx.Establish? then est + {tx.asset} else est
  }

  lemma {:induction false} PayOutsEntries(accounts: map<Address, Account>, a: Asset, outs: seq<Out>, b: Asset)
    requires a != b && NoEntry(accounts, b)
    ensures NoEntry(PayOuts(accounts, a, outs), b)
  {
    if outs != [] { PayOutsEntries(accounts, a, outs[..|outs| - 1], b); }
  }

  // Nothing but establishing an asset, or spending it, gives anyone an entry.
  lemma TxEntries(places: Places, s: Books, tx: Transaction, b: Asset)
    requires ApplyTx(places, s, tx).Some? && NoEntry(s.accounts, b)
    requires !(tx.Establish? && tx.asset == b)
    ensures NoEntry(ApplyTx(places, s, tx).value.accounts, b)
    ensures tx.Append? ==> tx.asset != b
  {
    hide Positive, With, OutSum;
    match tx {
      case Append(sender, a, nonce, count, outs) =>
        var acc := ReduceBalance(s.accounts[sender].(nonce := Wrap(nonce + 1)), a, count).value;
        PayOutsEntries(s.accounts[sender := acc], a, outs, b);
      case Establish(_, _, _) =>
      case NullOp(_, _, _) =>
    }
  }

  lemma TxSound(places: Places, s: Books, est: set<Asset>, tx: Transaction)
    requires Sound(places, s, est) && ApplyTx(places, s, tx).Some? && BalancedTx(tx)
    ensures Sound(places, ApplyTx(places, s, tx).value, Established(est, tx))
    ensures tx.Establish? ==> tx.asset !in est
  {
    var s', est' := ApplyTx(places, s, tx).value, Established(est, tx);
    RiseIsSmall(places, s, est, tx);
    forall a ensures if a in est' then Positive(places, s'.filter, a) && Total(s'.accounts, a) == ASSET_MAX_COUNT
                     else NoEntry(s'.accounts, a)
    {
      if a in est' {
        TxSupply(places, s, tx, a);
        TxFilter(places, s, tx, a);
        if a !in est { NobodyHas(s.accounts, a); }
      } else {
        TxEntries(places, s, tx, a);
      }
    }
  }

  lemma TxFilter(places: Places, s: Books, tx: Transaction, a: Asset)
    requires ApplyTx(places, s, tx).Some?
    ensures Positive(places, s.filter, a) || (tx.Establish? && tx.asset == a) ==>
      Positive(places, ApplyTx(places, s, tx).value.filter, a)
  {
    hide Positive, With, PayOuts, ReduceBalance;
    NoFalseNegative(places, s.filter, tx.asset, a);
  }

  // A balanced Append pays out no more than its sender has.
  lemma RiseIsSmall(places: Places, s: Books, est: set<Asset>, tx: Transaction)
    requires Sound(places, s, est) && ApplyTx(places, s, tx).Some? && BalancedTx(tx)
    ensures Total(s.accounts, tx.asset) + Rise(tx, tx.asset) < WORD
    ensures tx.Establish? ==> tx.asset !in est
  {
    hide Total, PayOuts, With, OutSum;
    if tx.asset !in est { NobodyHas(s.accounts, tx.asset); }
    if tx.Append? {
      TotalSet(s.accounts, tx.sender, s.accounts[tx.sender], tx.asset);
    }
  }

  // ---- What the check of a block body guarantees -------------------------

  lemma {:induction false} CheckedSums(places: Places, accounts: map<Address, Account>, filter: Bits,
      txs: seq<Transaction>, i: nat)
    requires CheckTxs(places, accounts, filter, txs).Some? && i < |txs|
    ensures !txs[i].NullOp?
    ensures txs[i].Append? && txs[i].sender in accounts ==> Wrap(OutSum(txs[i].outs)) == txs[i].count
  {
    hide Positive, With, OutSum;
    if i < |txs| - 1 { CheckedSums(places, accounts, filter, txs[..|txs| - 1], i); }
  }

  // What the check leaves to the sender: output sums must fit in 64 bits, and
  // those of a sender that is new in this block must equal the count.
  predicate Honest(accounts: map<Address, Account>, tx: Transaction) {
    tx.Append? ==>
      OutSum(tx.outs) < WORD && (tx.sender !in accounts ==> OutSum(tx.outs) == tx.count)
  }

  predicate HonestBlock(accounts: map<Address, Account>, blk: Block) {
    forall i :: 0 <= i < |blk.transactions| ==> Honest(accounts, blk.transactions[i])
  }

  lemma CheckedIsBalanced(places: Places, s: Books, blk: Block, i: nat)
    requires CheckBody(places, s, blk) && HonestBlock(s.accounts, blk) && i < |blk.transactions|
    ensures BalancedTx(blk.transactions[i])
  {
    hide CheckTxs, CheckAffairs, SlipOk, OutSum;
    CheckedSums(places, s.accounts, s.filter, blk.transactions, i);
    assert Honest(s.accounts, blk.transactions[i]);
  }

  function EstablishedBy(est: set<Asset>, txs: seq<Transaction>): set<Asset> {
    if txs == [] then est else Established(EstablishedBy(est, txs[..|txs| - 1]), txs[|txs| - 1])
  }

  lemma {:induction false} TxsSound(places: Places, s: Books, est: set<Asset>, txs: seq<Transaction>)
    requires Sound(places, s, est) && ApplyTxs(places, s, txs).Some?
    requires forall i :: 0 <= i < |txs| ==> BalancedTx(txs[i])
    ensures Sound(places, ApplyTxs(places, s, txs).value, EstablishedBy(est, txs))
    ensures forall a :: Count(txs, a) + (if a in est then 1 else 0) == if a in EstablishedBy(est, txs) then 1 else 0
  {
    hide Sound, BalancedTx, ApplyTx;
    if txs != [] {
      var init, tx := txs[..|txs| - 1], txs[|txs| - 1];
      TxsSound(places, s, est, init);
      TxSound(places, ApplyTxs(places, s, init).value, EstablishedBy(est, init), tx);
    }
  }

  lemma {:induction false} AffairsEntries(accounts: map<Address, Account>, airs: seq<Affair>, a: Asset)
    requires NoEntry(accounts, a)
    ensures NoEntry(ApplyAffairs(accounts, airs), a)
  {
    if airs != [] { AffairsEntries(accounts, airs[..|airs| - 1], a); }
  }

  lemma BlockSound(places: Places, s: Books, est: set<Asset>, blk: Block)
    requires Sound(places, s, est) && CheckBody(places, s, blk) && ApplyBlock(places, s, blk).Some?
    requires HonestBlock(s.accounts, blk)
    ensures Sound(places, ApplyBlock(places, s, blk).value, EstablishedBy(est, blk.transactions))
    ensures forall a :: Count(blk.transactions, a) + (if a in est then 1 else 0)
                        == if a in EstablishedBy(est, blk.transactions) then 1 else 0
  {
    hide CheckBody, HonestBlock, BalancedTx, Positive, Total, NoEntry;
    forall i | 0 <= i < |blk.transactions| ensures BalancedTx(blk.transactions[i]) {
      CheckedIsBalanced(places, s, blk, i);
    }
    TxsSound(places, s, est, blk.transactions);
    var t := ApplyTxs(places, s, blk.transactions).value;
    forall a ensures Total(ApplyAffairs(t.accounts, blk.affairs), a) == Total(t.accounts, a)
    {
      AffairsSupply(t.accounts, blk.affairs, a);
    }
    forall a | NoEntry(t.accounts, a) ensures NoEntry(ApplyAffairs(t.accounts, blk.affairs), a)
    {
      AffairsEntries(t.accounts, blk.affairs, a);
    }
  }

  // ---- Every chain of accepted blocks ------------------------------------

  // A chain: from empty books, every block passes the check and is applied.
  ghost predicate IsChain(places: Places, books: seq<Books>, blocks: seq<Block>) {
    && |books| == |blocks| + 1
    && books[0].accounts == map[] && (forall j :: 0 <= j < SIZE ==> !books[0].filter[j])
    && forall i :: 0 <= i < |blocks| ==>
         CheckBody(places, books[i], blocks[i]) && ApplyBlock(places, books[i], blocks[i]) == Some(books[i + 1])
  }

  ghost predicate HonestChain(books: seq<Books>, blocks: seq<Block>) {
    |books| == |blocks| + 1 && forall i :: 0 <= i < |blocks| ==> HonestBlock(books[i].accounts, blocks[i])
  }

  function Establishments(blocks: seq<Block>, a: Asset): nat {
    if blocks == [] then 0
    else Establishments(blocks[..|blocks| - 1], a) + Count(blocks[|blocks| - 1].transactions, a)
  }

  // Established assets are in the filter; of any other no account has an entry.
  ghost predicate Entered(places: Places, s: Books, est: set<Asset>) {
    forall a :: if a in est then Positive(places, s.filter, a) else NoEntry(s.accounts, a)
  }

  lemma TxEntered(places: Places, s: Books, est: set<Asset>, tx: Transaction)
    requires Entered(places, s, est) && ApplyTx(places, s, tx).Some?
    ensures Entered(places, ApplyTx(places, s, tx).value, Established(est, tx))
    ensures tx.Establish? ==> tx.asset !in est
  {
    var s', est' := ApplyTx(places, s, tx).value, Established(est, tx);
    hide Positive, NoEntry, PayOuts, With, ReduceBalance;
    forall a ensures if a in est' then Positive(places, s'.filter, a) else NoEntry(s'.accounts, a) {
      if a in est' { TxFilter(places, s, tx, a); } else { TxEntries(places, s, tx, a); }
    }
  }

  lemma {:induction false} TxsEntered(places: Places, s: Books, est: set<Asset>, txs: seq<Transaction>)
    requires Entered(places, s, est) && ApplyTxs(places, s, txs).Some?
    ensures Entered(places, ApplyTxs(places, s, txs).value, EstablishedBy(est, txs))
    ensures forall a :: Count(txs, a) + (if a in est then 1 else 0) == if a in EstablishedBy(est, txs) then 1 else 0
  {
    hide Entered, ApplyTx;
    if txs != [] {
      var init, tx := txs[..|txs| - 1], txs[|txs| - 1];
      TxsEntered(places, s, est, init);
      TxEntered(places, ApplyTxs(places, s, init).value, EstablishedBy(est, init), tx);
    }
  }

  lemma BlockEntered(places: Places, s: Books, est: set<Asset>, blk: Block)
    requires Entered(places, s, est) && ApplyBlock(places, s, blk).Some?
    ensures Entered(places, ApplyBlock(places, s, blk).value, EstablishedBy(est, blk.transactions))
    ensures forall a :: Count(blk.transactions, a) + (if a in est then 1 else 0)
                        == if a in EstablishedBy(est, blk.transactions) then 1 else 0
  {
    hide Positive, NoEntry;
    TxsEntered(places, s, est, blk.transactions);
    var t := ApplyTxs(places, s, blk.transactions).value;
    forall a | NoEntry(t.accounts, a) ensures NoEntry(ApplyAffairs(t.accounts, blk.affairs), a) {
      AffairsEntries(t.accounts, blk.affairs, a);
    }
  }

  // What the blocks of a chain have paid out beyond what they took in, less
  // what wrapped.
  ghost function Drift(places: Places, books: seq<Books>, blocks: seq<Block>, n: nat, a: Asset): int
    requires n <= |blocks| <= |books|
  {
    if n == 0 then 0
    else
      var txs := blocks[n - 1].transactions;
      Drift(places, books, blocks, n - 1, a) + Excess(txs, a) - WORD * Losses(places, books[n - 1], txs, a)
  }

  lemma {:induction false} ChainEntered(places: Places, books: seq<Books>, blocks: seq<Block>, n: nat)
    returns (est: set<Asset>)
    requires IsChain(places, books, blocks) && n < |books|
    ensures Entered(places, books[n], est)
    ensures forall a :: Establishments(blocks[..n], a) == if a in est then 1 else 0
    ensures forall a ::
        Total(books[n].accounts, a)
        == Establishments(blocks[..n], a) * ASSET_MAX_COUNT + Drift(places, books, blocks, n, a)
  {
    hide CheckBody, ApplyBlock, Entered, Count, EstablishedBy, Excess, Losses;
    if n == 0 {
      est := {};
      EmptyEntered(places, books[0]);
      assert blocks[..0] == [];
    } else {
      var s, blk := books[n - 1], blocks[n - 1];
      var before := ChainEntered(places, books, blocks, n - 1);
      assert ApplyBlock(places, s, blk) == Some(books[n - 1 + 1]);
      BlockEntered(places, s, before, blk);
      est := EstablishedBy(before, blk.transactions);
      assert blocks[..n][..n - 1] == blocks[..n - 1] && blocks[..n][n - 1] == blk;
      forall a ensures Total(books[n].accounts, a) ==
        Establishments(blocks[..n], a) * ASSET_MAX_COUNT + Drift(places, books, blocks, n, a)
      {
        BlockSupply(places, s, blk, a);
        assert Total(s.accounts, a) == Establishments(blocks[..n - 1], a) * ASSET_MAX_COUNT + Drift(places, books,
          blocks, n - 1, a);
      }
    }
  }

  lemma EmptyEntered(places: Places, s: Books)
    requires s.accounts == map[]
    ensures Entered(places, s, {}) && forall a :: Total(s.accounts, a) == 0
  {
  }

  // For every chain of accepted blocks, honest or not: an asset is established
  // at most once, and its total is zero before and the fixed supply after that
  // if and only if what was paid out beyond what was taken in is what wrapped.
  lemma ChainSupply(places: Places, books: seq<Books>, blocks: seq<Block>, n: nat, a: Asset)
    requires IsChain(places, books, blocks) && n < |books|
    ensures Establishments(blocks[..n], a) <= 1
    ensures Total(books[n].accounts, a) == Establishments(blocks[..n], a) * ASSET_MAX_COUNT
            <==> Drift(places, books, blocks, n, a) == 0
  {
    hide CheckBody, ApplyBlock, Entered;
    var est := ChainEntered(places, books, blocks, n);
  }

  // ---- Chains of honest blocks -------------------------------------------

  lemma {:induction false} ChainSound(places: Places, books: seq<Books>, blocks: seq<Block>, n: nat)
    returns (est: set<Asset>)
    requires IsChain(places, books, blocks) && HonestChain(books, blocks) && n < |books|
    ensures Sound(places, books[n], est)
    ensures forall a :: Establishments(blocks[..n], a) == if a in est then 1 else 0
  {
    hide CheckBody, HonestBlock, ApplyBlock, Sound, Count, EstablishedBy;
    if n == 0 {
      est := {};
      EmptySound(places, books[0]);
      assert blocks[..0] == [];
    } else {
      var before := ChainSound(places, books, blocks, n - 1);
      assert ApplyBlock(places, books[n - 1], blocks[n - 1]) == Some(books[n - 1 + 1]);
      BlockSound(places, books[n - 1], before, blocks[n - 1]);
      est := EstablishedBy(before, blocks[n - 1].transactions);
      assert blocks[..n][..n - 1] == blocks[..n - 1] && blocks[..n][n - 1] == blocks[n - 1];
    }
  }

  lemma EmptySound(places: Places, s: Books)
    requires s.accounts == map[]
    ensures Sound(places, s, {})
  {
  }

  // Along every chain of honest blocks an asset is established at most once,
  // its total is zero before that and exactly the fixed supply after it, and no
  // balance exceeds that supply, so that no addition ever wraps.
  lemma SupplyConserved(places: Places, books: seq<Books>, blocks: seq<Block>, n: nat, a: Asset, k: Address)
    requires IsChain(places, books, blocks) && HonestChain(books, blocks) && n < |books|
    ensures Establishments(blocks[..n], a) <= 1
    ensures Total(books[n].accounts, a) == Establishments(blocks[..n], a) * ASSET_MAX_COUNT
    ensures BalanceAt(books[n].accounts, k, a) <= ASSET_MAX_COUNT
  {
    hide CheckBody, HonestBlock, ApplyBlock, Total, Positive, Balance;
    var est := ChainSound(places, books, blocks, n);
    if a !in est { NobodyHas(books[n].accounts, a); }
    TotalSet(books[n].accounts, k, Account(0, map[]), a);
  }

  // ---- The first gap: new senders ----------------------------------------

  function NoBits(): Bits { seq(SIZE, _ => false) }

  lemma NothingPositive(places: Places, v: nat)
    ensures !Positive(places, NoBits(), v)
  {
    assert !NoBits()[places(v)[0]];
  }

  function MintingBlock(): Block {
    Block(1, 0, 0, 0, [Establish(1, 7, 1), Append(1, 7, 2, 1, [Out(2, 100)])], [])
  }

  function AfterMinting(places: Places): Books {
    Books(map[1 := Account(3, map[7 := ASSET_MAX_COUNT - 1]), 2 := Account(0, map[7 := 100])],
      With(places, NoBits(), 7))
  }

  // A sender that establishes an asset and spends it in the same block is not
  // in the trie when the body is checked, so its outputs are never summed: this
  // block takes one unit from the sender, pays out a hundred, and is accepted.
  lemma CheckLetsMintingThrough(places: Places)
    ensures CheckBody(places, Books(map[], NoBits()), MintingBlock())
    ensures ApplyBlock(places, Books(map[], NoBits()), MintingBlock()) == Some(AfterMinting(places))
    ensures Total(AfterMinting(places).accounts, 7) == ASSET_MAX_COUNT + 99
  {
    NothingPositive(places, 7);
    MintingChecked(places);
    MintingApplied(places);
    var accounts := AfterMinting(places).accounts;
    TotalWithout(accounts, 1, 7);
    TotalWithout(accounts - {1}, 2, 7);
    assert accounts - {1} - {2} == map[];
  }

  lemma MintingChecked(places: Places)
    requires !Positive(places, NoBits(), 7)
    ensures CheckBody(places, Books(map[], NoBits()), MintingBlock())
  {
    hide Positive, With, NoBits, SlipOk, OutSum;
    MintingSlip();
    var txs := MintingBlock().transactions;
    assert txs[..1] == [txs[0]] && txs[..1][..0] == [];
    var slip := Slip(0, [1, 2], map[7 := (ASSET_MAX_COUNT, 1)]);
    var first := CheckTx(places, map[], Draft(map[], NoBits()), txs[0]);
    assert CheckTxs(places, map[], NoBits(), txs[..1]) == first;
    var slip1 := first.value.slips[1];
    assert slip1.nonces == [1] && slip1.balances == map[7 := (ASSET_MAX_COUNT, 0)];
    var slip2 := CheckTx(places, map[], first.value, txs[1]).value.slips[1];
    assert slip2.nonces == [1, 2] && slip2.balances == map[7 := (ASSET_MAX_COUNT, 1)];
    assert CheckTx(places, map[], first.value, txs[1]).value.slips.Keys == {1};
    assert slip2 == slip;
  }

  lemma MintingSlip()
    ensures SlipOk(Slip(0, [1, 2], map[7 := (ASSET_MAX_COUNT, 1)]))
  {
    assert Counting(1, 2) == [1, 2];
  }

  lemma MintingPays(places: Places)
    ensures PayOuts(map[1 := Account(3, map[7 := ASSET_MAX_COUNT - 1])], 7, [Out(2, 100)])
      == AfterMinting(places).accounts
  {
    var outs := [Out(2, 100)];
    var mid := map[1 := Account(3, map[7 := ASSET_MAX_COUNT - 1])];
    assert outs[..0] == [] && PayOuts(mid, 7, outs) == PayOut(mid, 7, outs[0]);
    assert AddBalance(Account(0, map[]), 7, 100).balances == map[7 := 100];
  }

  lemma MintingApplied(places: Places)
    requires !Positive(places, NoBits(), 7)
    ensures ApplyBlock(places, Books(map[], NoBits()), MintingBlock()) == Some(AfterMinting(places))
  {
    hide Positive, With, NoBits;
    var s := Books(map[], NoBits());
    var txs := MintingBlock().transactions;
    assert txs[..1] == [txs[0]] && txs[..1][..0] == [];
    var first := ApplyTx(places, s, txs[0]);
    assert ApplyTxs(places, s, txs[..1]) == first;
    assert first.value.accounts[1].balances == map[7 := ASSET_MAX_COUNT];
    assert first.value.accounts == map[1 := Account(1, map[7 := ASSET_MAX_COUNT])];
    var reduced := ReduceBalance(Account(3, map[7 := ASSET_MAX_COUNT]), 7, 1).value;
    assert reduced.balances == map[7 := ASSET_MAX_COUNT - 1];
    var mid := map[1 := Account(3, map[7 := ASSET_MAX_COUNT - 1])];
    assert first.value.accounts[1 := reduced] == mid;
    MintingPays(places);
    assert ApplyTx(places, first.value, txs[1]) == Some(AfterMinting(places));
    assert ApplyTxs(places, s, txs) == ApplyTx(places, first.value, txs[1]);
  }

  // ---- The second gap: the sum wraps -------------------------------------

  const HALF: nat := 0x8000_0000_0000_0000

  function WrappingBlock(): Block {
    Block(2, 0, 0, 0, [Append(1, 7, 2, 1, [Out(2, HALF), Out(3, HALF), Out(4, 1)])], [])
  }

  // The books after a block in which address 1 established asset 7.
  function OneAsset(places: Places): Books {
    Books(map[1 := Account(1, map[7 := ASSET_MAX_COUNT])], With(places, NoBits(), 7))
  }

  function AfterWrapping(places: Places): Books {
    Books(map[1 := Account(3, map[7 := ASSET_MAX_COUNT - 1]), 2 := Account(0, map[7 := HALF]),
              3 := Account(0, map[7 := HALF]), 4 := Account(0, map[7 := 1])],
          With(places, NoBits(), 7))
  }

  // Output sums are computed in 64 bits: a known sender that takes one unit and
  // pays out 2^64 + 1 passes the check, and the total grows by 2^64.
  lemma CheckLetsWrappingThrough(places: Places)
    ensures ApplyTx(places, Books(map[], NoBits()), Establish(1, 7, 1)) == Some(OneAsset(places))
    ensures CheckBody(places, OneAsset(places), WrappingBlock())
    ensures ApplyBlock(places, OneAsset(places), WrappingBlock()) == Some(AfterWrapping(places))
    ensures Total(OneAsset(places).accounts, 7) == ASSET_MAX_COUNT
    ensures Total(AfterWrapping(places).accounts, 7) == ASSET_MAX_COUNT + WORD
  {
    hide CheckBody, ApplyBlock, ApplyTx, Total;
    NothingPositive(places, 7);
    WrappingStart(places);
    WrappingChecked(places);
    WrappingApplied(places);
    WrappingTotals(places);
  }

  lemma WrappingTotals(places: Places)
    ensures Total(OneAsset(places).accounts, 7) == ASSET_MAX_COUNT
    ensures Total(AfterWrapping(places).accounts, 7) == ASSET_MAX_COUNT + WORD
  {
    hide Total;
    NobodyHas(map[], 7);
    TotalSet(map[], 1, Account(1, map[7 := ASSET_MAX_COUNT]), 7);
    var m1 := map[1 := Account(3, map[7 := ASSET_MAX_COUNT - 1])];
    TotalSet(map[], 1, m1[1], 7);
    var m2 := m1[2 := Account(0, map[7 := HALF])];
    TotalSet(m1, 2, m2[2], 7);
    var m3 := m2[3 := Account(0, map[7 := HALF])];
    TotalSet(m2, 3, m3[3], 7);
    TotalSet(m3, 4, Account(0, map[7 := 1]), 7);
    assert AfterWrapping(places).accounts == m3[4 := Account(0, map[7 := 1])];
  }

  lemma WrappingStart(places: Places)
    requires !Positive(places, NoBits(), 7)
    ensures ApplyTx(places, Books(map[], NoBits()), Establish(1, 7, 1)) == Some(OneAsset(places))
  {
    hide Positive, With, NoBits;
    assert AddBalance(Account(1, map[]), 7, ASSET_MAX_COUNT).balances == map[7 := ASSET_MAX_COUNT];
  }

  lemma WrappingChecked(places: Places)
    ensures CheckBody(places, OneAsset(places), WrappingBlock())
  {
    hide Positive, With, NoBits, SlipOk;
    var s, txs := OneAsset(places), WrappingBlock().transactions;
    WrappingSum();
    WrappingSlip();
    assert txs[..0] == [];
    var d := CheckTx(places, s.accounts, Draft(map[], s.filter), txs[0]);
    assert CheckTxs(places, s.accounts, s.filter, txs) == d;
    var slip := d.value.slips[1];
    assert slip.nonces == [2] && slip.balances == map[7 := (ASSET_MAX_COUNT, 1)];
    assert d.value.slips.Keys == {1};
    assert slip == Slip(1, [2], map[7 := (ASSET_MAX_COUNT, 1)]);
  }

  lemma WrappingSum()
    ensures OutSum([Out(2, HALF), Out(3, HALF), Out(4, 1)]) == WORD + 1
  {
    var outs := [Out(2, HALF), Out(3, HALF), Out(4, 1)];
    assert outs[..2] == [outs[0], outs[1]] && outs[..2][..1] == [outs[0]] && [outs[0]][..0] == [];
    assert OutSum([outs[0]]) == HALF;
    assert OutSum(outs[..2]) == HALF + HALF;
  }

  lemma WrappingSlip()
    ensures SlipOk(Slip(1, [2], map[7 := (ASSET_MAX_COUNT, 1)]))
  {
    assert Counting(2, 1) == [2];
  }

  lemma WrappingApplied(places: Places)
    ensures ApplyBlock(places, OneAsset(places), WrappingBlock()) == Some(AfterWrapping(places))
  {
    hide Positive, With, NoBits, PayOuts;
    var s, txs := OneAsset(places), WrappingBlock().transactions;
    assert txs[..0] == [];
    var reduced := ReduceBalance(Account(3, map[7 := ASSET_MAX_COUNT]), 7, 1).value;
    assert reduced.balances == map[7 := ASSET_MAX_COUNT - 1];
    assert s.accounts[1 := reduced] == map[1 := Account(3, map[7 := ASSET_MAX_COUNT - 1])];
    WrappingPays(places);
    assert ApplyTx(places, s, txs[0]) == Some(AfterWrapping(places));
    assert ApplyTxs(places, s, txs) == ApplyTx(places, s, txs[0]);
  }

  lemma WrappingPays(places: Places)
    ensures PayOuts(map[1 := Account(3, map[7 := ASSET_MAX_COUNT - 1])], 7, [Out(2, HALF), Out(3, HALF), Out(4, 1)])
         == AfterWrapping(places).accounts
  {
    var outs := [Out(2, HALF), Out(3, HALF), Out(4, 1)];
    var m := map[1 := Account(3, map[7 := ASSET_MAX_COUNT - 1])];
    assert outs[..2] == [outs[0], outs[1]] && outs[..2][..1] == [outs[0]] && [outs[0]][..0] == [];
    assert AddBalance(Account(0, map[]), 7, HALF).balances == map[7 := HALF];
    assert AddBalance(Account(0, map[]), 7, 1).balances == map[7 := 1];
    assert PayOuts(m, 7, [outs[0]]) == PayOut(m, 7, outs[0]);
    assert PayOuts(m, 7, outs[..2]) == PayOut(PayOut(m, 7, outs[0]), 7, outs[1]);
  }
}
