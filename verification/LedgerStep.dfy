/** The connector that checks blocks and applies them, step by step. */
module LedgerStep {
  import opened Options
  import opened BloomFilter
  import opened Receipts
  import opened Ledger
  import opened LedgerFunds
  import opened LedgerUndo

  // Nonces are 64-bit words.
  predicate Words(slips: map<Address, Slip>) {
    forall x :: x in slips ==> SlipWords(slips[x])
  }

  predicate SlipWords(slip: Slip) {
    slip.start < WORD && forall n :: n in slip.nonces ==> n < WORD
  }

  predicate WordBlock(blk: Block) {
    && (forall i :: 0 <= i < |blk.transactions| ==> blk.transactions[i].nonce < WORD)
    && (forall i :: 0 <= i < |blk.affairs| ==> blk.affairs[i].nonce < WORD)
  }

  predicate WordAccounts(accounts: map<Address, Account>) {
    forall x :: x in accounts ==> accounts[x].nonce < WORD
  }

  lemma CheckTxWords(places: Places, accounts: map<Address, Account>, d: Draft, tx: Transaction)
    requires WordAccounts(accounts) && Words(d.slips) && tx.nonce < WORD && CheckTx(places, accounts, d, tx).Some?
    ensures Words(CheckTx(places, accounts, d, tx).value.slips)
  {
    hide Positive, With;
  }

  class Connector {
    const places: Places
    var accounts: map<Address, Account>
    var filter: Bits
    var height: nat
    var top: nat

    constructor (places: Places, filter: Bits)
      ensures this.places == places && this.filter == filter && accounts == map[] && height == 0 && top == 0
    {
      this.places := places;
      this.filter := filter;
      accounts, height, top := map[], 0, 0;
    }

    ghost function Value(): Books
      reads this
    {
      Books(accounts, filter)
    }

    // Fills the receipts transaction by transaction, then affair by affair,
    // then checks every receipt.
    method CheckBlockBody(blk: Block) returns (ok: bool)
      requires WordBlock(blk) && WordAccounts(accounts)
      ensures ok == CheckBody(places, Value(), blk)
    {
      hide CheckTxs, CheckAffairs, SlipOk, Words;
      var draft := FillTransactions(places, accounts, filter, blk.transactions);
      if draft.None? {
        return false;
      }
      var slips := FillAffairs(accounts, draft.value.slips, blk.affairs);
      ok := CheckSlips(slips);
    }

    // The header must extend the top block; the transactions and affairs must
    // all apply; the new root must be the one announced, if it is checked. When
    // something fails on the way, the records made so far are run.
    method InsertBlock(blk: Block, check: bool, rootOf: map<Address, Account> -> nat) returns (ok: bool)
      requires WordBlock(blk) && WordAccounts(accounts)
      modifies this
      ensures var applied := ApplyBlock(places, old(Value()), blk);
        if !CheckBody(places, old(Value()), blk) || blk.height != old(height) + 1 || blk.prev != old(top) then
          !ok && Value() == old(Value()) && height == old(height) && top == old(top)
        else if applied.None? then
          && !ok && filter == old(filter) && height == old(height) && top == old(top)
          && accounts == AfterFailure(places, old(Value()), blk).accounts
        else if check && rootOf(applied.value.accounts) != blk.root then
          && !ok && filter == old(filter) && height == old(height) && top == old(top)
          && accounts == AfterMismatch(places, old(Value()), blk).accounts
        else
          ok && Value() == applied.value && height == blk.height && top == blk.hash
      ensures WordAccounts(accounts)
    {
      hide CheckBody, ApplyBlock, WordAccounts, UndoAll, AfterFailure, AfterMismatch;
      var good := CheckBlockBody(blk);
      if !good || blk.height != height + 1 || blk.prev != top {
        return false;
      }
      var result, left, records := ExecuteBlock(places, Books(accounts, filter), blk);
      if result.None? || (check && rootOf(left) != blk.root) {
        accounts := RunRecords(left, records);
        return false;
      }
      accounts, filter, height, top := result.value.accounts, result.value.filter, blk.height, blk.hash;
      return true;
    }
  }

  // Runs undo records until one throws.
  method RunRecords(accounts0: map<Address, Account>, us: seq<Undo>) returns (accounts: map<Address, Account>)
    requires WordAccounts(accounts0)
    ensures accounts == UndoAll(accounts0, us).accounts && WordAccounts(accounts)
  {
    hide UndoOne, WordAccounts;
    accounts := accounts0;
    for i := 0 to |us|
      invariant UndoAll(accounts0, us[..i]) == Undone(accounts, true) && WordAccounts(accounts)
    {
      assert us[..i + 1][..i] == us[..i];
      var next := UndoOne(accounts, us[i]);
      if next.None? {
        UndoStops(accounts0, us, i + 1);
        return;
      }
      UndoWords(accounts, us[i]);
      accounts := next.value;
    }
    assert us[..|us|] == us;
  }

  lemma {:induction false} UndoStops(accounts: map<Address, Account>, us: seq<Undo>, i: nat)
    requires i <= |us| && !UndoAll(accounts, us[..i]).done
    ensures UndoAll(accounts, us) == UndoAll(accounts, us[..i])
    decreases |us| - i
  {
    hide UndoOne;
    if i < |us| {
      assert us[..i + 1][..i] == us[..i];
      UndoStops(accounts, us, i + 1);
    } else {
      assert us[..i] == us;
    }
  }

  lemma UndoWords(accounts: map<Address, Account>, u: Undo)
    requires WordAccounts(accounts) && UndoOne(accounts, u).Some?
    ensures WordAccounts(UndoOne(accounts, u).value)
  {
  }

  // The sum of the outputs, added up in 64 bits.
  method SumOuts(outs: seq<Out>) returns (sum: nat)
    ensures sum == Wrap(OutSum(outs))
  {
    sum := 0;
    for i := 0 to |outs|
      invariant sum == Wrap(OutSum(outs[..i]))
    {
      assert outs[..i + 1][..i] == outs[..i];
      WrapAdd(OutSum(outs[..i]), outs[i].count);
      sum := Wrap(sum + outs[i].count);
    }
    assert outs[..|outs|] == outs;
  }

  // Wrapping at every addition is wrapping once.
  lemma WrapAdd(a: nat, b: nat)
    ensures Wrap(Wrap(a) + b) == Wrap(a + b)
  {
    var q := a / WORD;
    assert a == WORD * q + Wrap(a);
    var r := (Wrap(a) + b) / WORD;
    assert a + b == WORD * (q + r) + Wrap(Wrap(a) + b);
  }

  // One transaction of the body check; none where the check fails.
  method CheckTransaction(places: Places, accounts: map<Address, Account>, d: Draft, tx: Transaction)
    returns (result: Option<Draft>)
    ensures result == CheckTx(places, accounts, d, tx)
  {
    hide With;
    match tx {
      case NullOp(_, _, _) =>
        return None;
      case Append(sender, a, nonce, count, outs) =>
        if sender !in accounts {
          if sender !in d.slips || a !in d.slips[sender].balances {
            return None;
          }
          return Some(d.(slips := d.slips[sender := Spend(d.slips[sender], a, nonce, 0, count)]));
        }
        var sum := SumOuts(outs);
        if sum != count {
          return None;
        }
        var slip := if sender in d.slips then d.slips[sender] else Slip(accounts[sender].nonce, [], map[]);
        return Some(d.(slips := d.slips[sender := Spend(slip, a, nonce, Balance(accounts[sender], a), count)]));
      case Establish(sender, a, nonce) =>
        if Positive(places, d.filter, a) {
          return None;
        }
        var slip := if sender in d.slips then d.slips[sender]
                    else Slip(if sender in accounts then accounts[sender].nonce else 0, [], map[]);
        var pair := if a in slip.balances then slip.balances[a] else (0, 0);
        slip := slip.(nonces := slip.nonces + [nonce],
                      balances := slip.balances[a := (Wrap(pair.0 + ASSET_MAX_COUNT), pair.1)]);
        return Some(Draft(d.slips[sender := slip], With(places, d.filter, a)));
    }
  }

  method FillTransactions(places: Places, accounts: map<Address, Account>, filter: Bits, txs: seq<Transaction>)
    returns (result: Option<Draft>)
    requires WordAccounts(accounts) && forall i :: 0 <= i < |txs| ==> txs[i].nonce < WORD
    ensures result == CheckTxs(places, accounts, filter, txs)
    ensures result.Some? ==> Words(result.value.slips)
  {
    hide Positive, With, CheckTx, WordAccounts;
    var draft := Draft(map[], filter);
    for i := 0 to |txs|
      invariant CheckTxs(places, accounts, filter, txs[..i]) == Some(draft) && Words(draft.slips)
    {
      assert txs[..i + 1][..i] == txs[..i];
      var next := CheckTransaction(places, accounts, draft, txs[i]);
      if next.None? {
        CheckFails(places, accounts, filter, txs, i + 1);
        return None;
      }
      CheckTxWords(places, accounts, draft, txs[i]);
      draft := next.value;
    }
    assert txs[..|txs|] == txs;
    return Some(draft);
  }

  method FillAffairs(accounts: map<Address, Account>, slips0: map<Address, Slip>, airs: seq<Affair>)
    returns (slips: map<Address, Slip>)
    requires WordAccounts(accounts) && Words(slips0) && forall i :: 0 <= i < |airs| ==> airs[i].nonce < WORD
    ensures slips == CheckAffairs(accounts, slips0, airs) && Words(slips)
  {
    hide CheckAffair, WordAccounts, Words;
    slips := slips0;
    for i := 0 to |airs|
      invariant slips == CheckAffairs(accounts, slips0, airs[..i]) && Words(slips)
    {
      assert airs[..i + 1][..i] == airs[..i];
      AffairWords(accounts, slips, airs[i]);
      slips := CheckAffair(accounts, slips, airs[i]);
    }
    assert airs[..|airs|] == airs;
  }

  method CheckSlips(slips: map<Address, Slip>) returns (ok: bool)
    requires Words(slips)
    ensures ok == forall x :: x in slips ==> SlipOk(slips[x])
  {
    hide SlipOk;
    var left := slips.Keys;
    while left != {}
      invariant left <= slips.Keys && forall x :: x in slips && x !in left ==> SlipOk(slips[x])
      decreases |left|
    {
      var x :| x in left;
      var good := CheckSlip(slips[x]);
      if !good {
        return false;
      }
      left := left - {x};
    }
    return true;
  }

  // The records kept so far, when `n` transactions have been applied.
  ghost predicate RecordsSoFar(places: Places, s: Books, txs: seq<Transaction>, n: nat, books: Books, us: seq<Undo>) {
    n <= |txs| && ApplyTxs(places, s, txs[..n]) == Some(books) && us == Records(places, s, txs[..n])
  }

  lemma RecordsGoOn(places: Places, s: Books, txs: seq<Transaction>, n: nat, books: Books, us: seq<Undo>, next: Books)
    requires RecordsSoFar(places, s, txs, n, books, us) && n < |txs| && ApplyTx(places, books, txs[n]) == Some(next)
    ensures RecordsSoFar(places, s, txs, n + 1, next, us + Record(books.accounts, txs[n]))
  {
    hide ApplyTx, Record;
    assert txs[..n + 1][..n] == txs[..n];
  }

  lemma {:induction false} AppliedIs(places: Places, s: Books, txs: seq<Transaction>, n: nat, books: Books)
    requires n < |txs| && ApplyTxs(places, s, txs[..n]) == Some(books) && ApplyTx(places, books, txs[n]).None?
    ensures Applied(places, s, txs) == n && ApplyTxs(places, s, txs).None?
  {
    hide ApplyTx;
    var m := Applied(places, s, txs);
    assert txs[..n + 1][..n] == txs[..n];
    ApplyFails(places, s, txs, n + 1);
    if m < n {
      assert txs[..m + 1][..m] == txs[..m];
      assert txs[..n][..m + 1] == txs[..m + 1];
      ApplyFails(places, s, txs[..n], m + 1);
    } else if m > n {
      assert txs[..m][..n + 1] == txs[..n + 1];
      ApplyFails(places, s, txs[..m], n + 1);
    }
  }

  lemma FailedBlock(places: Places, s: Books, blk: Block, n: nat, books: Books, us: seq<Undo>)
    requires RecordsSoFar(places, s, blk.transactions, n, books, us) && n < |blk.transactions|
    requires ApplyTx(places, books, blk.transactions[n]).None?
    ensures ApplyBlock(places, s, blk).None?
    ensures var tx := blk.transactions[n];
      AfterFailure(places, s, blk) == UndoAll(Thrown(books.accounts, tx), us + Kept(books.accounts, tx))
  {
    hide ApplyTx, ApplyTxs, UndoAll, Thrown, Kept, Records;
    AppliedIs(places, s, blk.transactions, n, books);
  }

  // Applies a block and keeps the undo records. `left` are the accounts where
  // it stops, or at its end.
  method ExecuteBlock(places: Places, s: Books, blk: Block)
    returns (result: Option<Books>, left: map<Address, Account>, us: seq<Undo>)
    requires WordAccounts(s.accounts)
    ensures result == ApplyBlock(places, s, blk) && WordAccounts(left)
    ensures result.None? ==> UndoAll(left, us) == AfterFailure(places, s, blk)
    ensures result.Some? ==> left == result.value.accounts && UndoAll(left, us) == AfterMismatch(places, s, blk)
  {
    hide ApplyTx, ApplyAffair, WordAccounts, UndoAll, Record, Records, RecordsSoFar, AfterFailure, Kept, Thrown;
    var txs, airs := blk.transactions, blk.affairs;
    var books := s;
    us := [];
    StartRecords(places, s, txs);
    for i := 0 to |txs|
      invariant RecordsSoFar(places, s, txs, i, books, us) && WordAccounts(books.accounts)
    {
      var next := ExecuteTx(places, books, txs[i]);
      if next.None? {
        FailedBlock(places, s, blk, i, books, us);
        ThrownWords(books.accounts, txs[i]);
        return None, Thrown(books.accounts, txs[i]), us + Kept(books.accounts, txs[i]);
      }
      TxWords(places, books, txs[i]);
      RecordsGoOn(places, s, txs, i, books, us, next.value);
      us := us + Record(books.accounts, txs[i]);
      books := next.value;
    }
    ghost var first := us;
    EndRecords(places, s, txs, books, us);
    left := books.accounts;
    assert first + AffairRecords(books.accounts, airs[..0]) == first;
    for i := 0 to |airs|
      invariant left == ApplyAffairs(books.accounts, airs[..i]) && WordAccounts(left)
      invariant us == first + AffairRecords(books.accounts, airs[..i])
    {
      assert airs[..i + 1][..i] == airs[..i];
      NonceWords(left, airs[i]);
      us := us + AffairRecord(left, airs[i]);
      left := ApplyAffair(left, airs[i]);
    }
    assert airs[..|airs|] == airs;
    return Some(books.(accounts := left)), left, us;
  }

  lemma StartRecords(places: Places, s: Books, txs: seq<Transaction>)
    ensures RecordsSoFar(places, s, txs, 0, s, [])
  {
    assert txs[..0] == [];
  }

  lemma EndRecords(places: Places, s: Books, txs: seq<Transaction>, books: Books, us: seq<Undo>)
    requires RecordsSoFar(places, s, txs, |txs|, books, us)
    ensures ApplyTxs(places, s, txs) == Some(books) && us == Records(places, s, txs)
  {
    assert txs[..|txs|] == txs;
  }

  lemma ThrownWords(accounts: map<Address, Account>, tx: Transaction)
    requires WordAccounts(accounts)
    ensures WordAccounts(Thrown(accounts, tx))
  {
  }

  lemma AffairWords(accounts: map<Address, Account>, slips: map<Address, Slip>, air: Affair)
    requires WordAccounts(accounts) && Words(slips) && air.nonce < WORD
    ensures Words(CheckAffair(accounts, slips, air))
  {
  }

  lemma {:induction false} PayWords(accounts: map<Address, Account>, a: Asset, outs: seq<Out>)
    requires WordAccounts(accounts)
    ensures WordAccounts(PayOuts(accounts, a, outs))
  {
    if outs != [] { PayWords(accounts, a, outs[..|outs| - 1]); }
  }

  lemma TxWords(places: Places, s: Books, tx: Transaction)
    requires WordAccounts(s.accounts) && ApplyTx(places, s, tx).Some?
    ensures WordAccounts(ApplyTx(places, s, tx).value.accounts)
  {
    hide Positive, With, PayOuts;
    if tx.Append? {
      var acc := ReduceBalance(s.accounts[tx.sender].(nonce := Wrap(tx.nonce + 1)), tx.asset, tx.count).value;
      PayWords(s.accounts[tx.sender := acc], tx.asset, tx.outs);
    }
  }

  lemma NonceWords(accounts: map<Address, Account>, air: Affair)
    requires WordAccounts(accounts)
    ensures WordAccounts(ApplyAffair(accounts, air))
  {
  }

  // Once a transaction is refused, so is every longer list.
  lemma {:induction false} CheckFails(places: Places, accounts: map<Address, Account>, filter: Bits,
      txs: seq<Transaction>, i: nat)
    requires i <= |txs| && CheckTxs(places, accounts, filter, txs[..i]).None?
    ensures CheckTxs(places, accounts, filter, txs).None?
    decreases |txs| - i
  {
    hide CheckTx;
    if i < |txs| {
      assert txs[..i + 1][..i] == txs[..i];
      CheckFails(places, accounts, filter, txs, i + 1);
    } else {
      assert txs[..i] == txs;
    }
  }

  lemma {:induction false} ApplyFails(places: Places, s: Books, txs: seq<Transaction>, i: nat)
    requires i <= |txs| && ApplyTxs(places, s, txs[..i]).None?
    ensures ApplyTxs(places, s, txs).None?
    decreases |txs| - i
  {
    hide ApplyTx;
    if i < |txs| {
      assert txs[..i + 1][..i] == txs[..i];
      ApplyFails(places, s, txs, i + 1);
    } else {
      assert txs[..i] == txs;
    }
  }

  method CheckSlip(slip: Slip) returns (ok: bool)
    requires SlipWords(slip)
    ensures ok == SlipOk(slip)
  {
    var receipt := new Receipt(slip.start, slip.nonces, slip.balances);
    ok := receipt.Check();
  }

  // Outputs are paid one after the other, each to the accounts the previous
  // one left.
  method PayAll(accounts0: map<Address, Account>, a: Asset, outs: seq<Out>) returns (accounts: map<Address, Account>)
    ensures accounts == PayOuts(accounts0, a, outs)
  {
    accounts := accounts0;
    for i := 0 to |outs|
      invariant accounts == PayOuts(accounts0, a, outs[..i])
    {
      assert outs[..i + 1][..i] == outs[..i];
      var receiver := if outs[i].receiver in accounts then accounts[outs[i].receiver] else Account(0, map[]);
      accounts := accounts[outs[i].receiver := AddBalance(receiver, a, outs[i].count)];
    }
    assert outs[..|outs|] == outs;
  }

  method ExecuteTx(places: Places, books: Books, tx: Transaction) returns (result: Option<Books>)
    ensures result == ApplyTx(places, books, tx)
  {
    hide With;
    match tx {
      case Append(sender, a, nonce, count, outs) =>
        if sender !in books.accounts {
          return None;
        }
        var reduced := ReduceBalance(books.accounts[sender].(nonce := Wrap(nonce + 1)), a, count);
        if reduced.None? {
          return None;
        }
        var accounts := PayAll(books.accounts[sender := reduced.value], a, outs);
        return Some(books.(accounts := accounts));
      case Establish(sender, a, _) =>
        if Positive(places, books.filter, a) {
          return None;
        }
        var acc := if sender in books.accounts then books.accounts[sender] else Account(1, map[]);
        return Some(Books(books.accounts[sender := AddBalance(acc, a, ASSET_MAX_COUNT)],
          With(places, books.filter, a)));
      case NullOp(_, _, _) =>
        return Some(books);
    }
  }
}
