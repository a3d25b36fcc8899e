/**
 * What is left of a block that fails while it is applied: the connector records
 * an undo operation before every change and runs the records, from the first
 * to the last, when a transaction throws or the root is not the announced one.
 */
module LedgerUndo {
  import opened Options
  import opened BloomFilter
  import opened Receipts
  import opened Ledger
  import opened LedgerSupply
  import opened LedgerFunds

  datatype Undo =
    | GiveBack(k: Address, a: Asset, n: nat)
    | TakeBack(k: Address, a: Asset, n: nat)
    | DropAsset(k: Address, a: Asset)
    | DropAccount(k: Address)
    | LowerNonce(k: Address)

  // ---- Records -----------------------------------------------------------

  function OutRecord(accounts: map<Address, Account>, a: Asset, out: Out): Undo {
    if out.receiver in accounts then TakeBack(out.receiver, a, out.count) else DropAccount(out.receiver)
  }

  function OutRecords(accounts: map<Address, Account>, a: Asset, outs: seq<Out>): seq<Undo> {
    if outs == [] then [] else OutRecords(accounts, a, outs[..|outs| - 1]) + [OutRecord(accounts, a, outs[|outs| - 1])]
  }

  // Made before the transaction is executed.
  function Record(accounts: map<Address, Account>, tx: Transaction): seq<Undo> {
    match tx
    case Append(sender, a, _, count, outs) => [GiveBack(sender, a, count)] + OutRecords(accounts, a, outs)
    case Establish(sender, a, _) => [if sender in accounts then DropAsset(sender, a) else DropAccount(sender)]
    case NullOp(_, _, _) => []
  }

  function Records(places: Places, s: Books, txs: seq<Transaction>): seq<Undo>
    requires ApplyTxs(places, s, txs).Some?
  {
    if txs == [] then []
    else
      var init := txs[..|txs| - 1];
      Records(places, s, init) + Record(ApplyTxs(places, s, init).value.accounts, txs[|txs| - 1])
  }

  function AffairRecord(accounts: map<Address, Account>, air: Affair): seq<Undo> {
    if !air.dbLevel then [] else [if air.owner in accounts then LowerNonce(air.owner) else DropAccount(air.owner)]
  }

  function AffairRecords(accounts: map<Address, Account>, airs: seq<Affair>): seq<Undo> {
    if airs == [] then []
    else
      var init := airs[..|airs| - 1];
      AffairRecords(accounts, init) + AffairRecord(ApplyAffairs(accounts, init), airs[|airs| - 1])
  }

  // ---- Running them ------------------------------------------------------

  function Lowered(acc: Account): Account {
    acc.(nonce := Wrap(acc.nonce - 1))
  }

  // None where the code throws. Accounts that are gone are passed over.
  function UndoOne(accounts: map<Address, Account>, u: Undo): Option<map<Address, Account>> {
    if u.k !in accounts then Some(accounts) else
    var acc := accounts[u.k];
    match u
    case GiveBack(k, a, n) => Some(accounts[k := Lowered(AddBalance(acc, a, n))])
    case TakeBack(k, a, n) =>
      var reduced := ReduceBalance(acc, a, n);
      if reduced.None? then None else Some(accounts[k := reduced.value])
    case DropAsset(k, a) => Some(accounts[k := Lowered(acc.(balances := acc.balances - {a}))])
    case DropAccount(k) => Some(accounts - {k})
    case LowerNonce(k) => Some(accounts[k := Lowered(acc)])
  }

  // The accounts when the records have run, or when one of them has thrown.
  datatype Undone = Undone(accounts: map<Address, Account>, done: bool)

  function UndoAll(accounts: map<Address, Account>, us: seq<Undo>): Undone {
    if us == [] then Undone(accounts, true)
    else
      var before := UndoAll(accounts, us[..|us| - 1]);
      if !before.done then before
      else
        var next := UndoOne(before.accounts, us[|us| - 1]);
        if next.None? then before.(done := false) else Undone(next.value, true)
  }

  // ---- One account and one asset -----------------------------------------

  // What an account holds of an asset: nothing, since it is not there; no entry;
  // or an entry.
  datatype Cell = Gone | Bare | Has(n: nat)

  function CellOf(accounts: map<Address, Account>, k: Address, b: Asset): Cell {
    if k !in accounts then Gone else if b !in accounts[k].balances then Bare else Has(accounts[k].balances[b])
  }

  function Held(c: Cell): nat { if c.Has? then c.n else 0 }

  // Taking back throws unless the account is gone or has enough.
  predicate Throws(c: Cell, u: Undo) {
    u.TakeBack? && !c.Gone? && !(c.Has? && u.n <= c.n)
  }

  // What a record does to the cell of k and b.
  function CellUndo(c: Cell, u: Undo, k: Address, b: Asset): Cell {
    if u.k != k || c.Gone? then c else
    match u
    case GiveBack(_, a, n) => if a != b then c else Has(if c.Has? then Wrap(c.n + n) else n)
    case TakeBack(_, a, n) => if a != b || Throws(c, u) then c else if c.n == n then Bare else Has(c.n - n)
    case DropAsset(_, a) => if a != b then c else Bare
    case DropAccount(_) => Gone
    case LowerNonce(_) => c
  }

  function CellUndos(c: Cell, us: seq<Undo>, k: Address, b: Asset): Cell {
    if us == [] then c else CellUndo(CellUndos(c, us[..|us| - 1], k, b), us[|us| - 1], k, b)
  }

  lemma {:induction false} CellJoin(c: Cell, us: seq<Undo>, vs: seq<Undo>, k: Address, b: Asset)
    ensures CellUndos(c, us + vs, k, b) == CellUndos(CellUndos(c, us, k, b), vs, k, b)
  {
    if vs == [] {
      assert us + vs == us;
    } else {
      var n := |vs| - 1;
      CellJoin(c, us, vs[..n], k, b);
      assert (us + vs)[..|us + vs| - 1] == us + vs[..n];
    }
  }

  lemma CellStep(accounts: map<Address, Account>, u: Undo, k: Address, b: Asset)
    ensures UndoOne(accounts, u).None? <==> u.TakeBack? && Throws(CellOf(accounts, u.k, u.a), u)
    ensures UndoOne(accounts, u).Some? ==>
      CellOf(UndoOne(accounts, u).value, k, b) == CellUndo(CellOf(accounts, k, b), u, k, b)
  {
  }

  // The record at i finds less than it is to take back, when those before it
  // have run.
  predicate Stops(accounts: map<Address, Account>, us: seq<Undo>, i: nat)
    requires i < |us|
  {
    var u := us[i];
    u.TakeBack? && Throws(CellUndos(CellOf(accounts, u.k, u.a), us[..i], u.k, u.a), u)
  }

  // How many records run: all, or those before the first that stops.
  function Ran(accounts: map<Address, Account>, us: seq<Undo>): (m: nat)
    ensures m <= |us| && (forall i :: 0 <= i < m ==> !Stops(accounts, us, i)) && (m < |us| ==> Stops(accounts, us, m))
  {
    if us == [] then 0
    else
      var init := us[..|us| - 1];
      var m := Ran(accounts, init);
      StopsBefore(accounts, us);
      if m < |init| || Stops(accounts, us, |us| - 1) then m else |us|
  }

  lemma StopsBefore(accounts: map<Address, Account>, us: seq<Undo>)
    requires us != []
    ensures forall i :: 0 <= i < |us| - 1 ==> (Stops(accounts, us, i) <==> Stops(accounts, us[..|us| - 1], i))
  {
    forall i | 0 <= i < |us| - 1
      ensures Stops(accounts, us, i) <==> Stops(accounts, us[..|us| - 1], i)
    {
      assert us[..|us| - 1][..i] == us[..i];
    }
  }

  lemma RanPrefix(accounts: map<Address, Account>, us: seq<Undo>)
    requires us != []
    ensures var init := us[..|us| - 1];
      Ran(accounts, us)
        == if Ran(accounts, init) < |init| || Stops(accounts, us, |us| - 1) then Ran(accounts, init) else |us|
  {
  }

  // Undoing, exactly: it gets to its end if and only if no record stops, and in
  // any case every account holds of every asset what running the records up to
  // there over that one cell gives.
  lemma {:induction false} UndoExact(accounts: map<Address, Account>, us: seq<Undo>, k: Address, b: Asset)
    ensures var r, m := UndoAll(accounts, us), Ran(accounts, us);
      && (r.done <==> m == |us|)
      && CellOf(r.accounts, k, b) == CellUndos(CellOf(accounts, k, b), us[..m], k, b)
  {
    hide CellOf, UndoOne, CellUndo, Throws;
    if us == [] {
      assert us[..0] == [];
    } else {
      var init, u := us[..|us| - 1], us[|us| - 1];
      UndoExact(accounts, init, k, b);
      RanPrefix(accounts, us);
      var m := Ran(accounts, init);
      assert init[..m] == us[..m] && us[..|us|] == us && init[..|init|] == init;
      if UndoAll(accounts, init).done {
        var mid := UndoAll(accounts, init).accounts;
        if u.TakeBack? { UndoExact(accounts, init, u.k, u.a); }
        CellStep(mid, u, k, b);
      }
    }
  }

  ghost predicate RunThrough(accounts: map<Address, Account>, us: seq<Undo>) {
    forall i :: 0 <= i < |us| ==> !Stops(accounts, us, i)
  }

  lemma RunThroughIsDone(accounts: map<Address, Account>, us: seq<Undo>)
    ensures UndoAll(accounts, us).done <==> RunThrough(accounts, us)
  {
    hide UndoAll, Stops;
    UndoExact(accounts, us, 0, 0);
  }

  // ---- A block that fails ------------------------------------------------

  // How many transactions apply before one fails.
  function Applied(places: Places, s: Books, txs: seq<Transaction>): (n: nat)
    ensures n <= |txs| && ApplyTxs(places, s, txs[..n]).Some?
    ensures n < |txs| ==> ApplyTx(places, ApplyTxs(places, s, txs[..n]).value, txs[n]).None?
    ensures ApplyTxs(places, s, txs).Some? <==> n == |txs|
  {
    if txs == [] then 0
    else
      var init := txs[..|txs| - 1];
      var n := Applied(places, s, init);
      assert txs[..n] == init[..n] && init[..|init|] == init && txs[..|txs|] == txs;
      if n < |init| || ApplyTxs(places, s, txs).None? then n else |txs|
  }

  // The accounts after a transaction has thrown: the sender of an Append is put
  // back.
  function Thrown(accounts: map<Address, Account>, tx: Transaction): map<Address, Account> {
    if tx.Append? && tx.sender in accounts then
      accounts[tx.sender := Restored(accounts[tx.sender], tx.asset, tx.nonce)]
    else accounts
  }

  // An Append that throws keeps its record; an Establish removes it first.
  function Kept(accounts: map<Address, Account>, tx: Transaction): seq<Undo> {
    if tx.Append? then Record(accounts, tx) else []
  }

  // The accounts a failing transaction leaves, and the records that are run.
  function FailureLeft(places: Places, s: Books, blk: Block): map<Address, Account>
    requires ApplyBlock(places, s, blk).None?
  {
    var n := Applied(places, s, blk.transactions);
    Thrown(ApplyTxs(places, s, blk.transactions[..n]).value.accounts, blk.transactions[n])
  }

  function FailureRecords(places: Places, s: Books, blk: Block): seq<Undo>
    requires ApplyBlock(places, s, blk).None?
  {
    var n := Applied(places, s, blk.transactions);
    Records(places, s, blk.transactions[..n])
    + Kept(ApplyTxs(places, s, blk.transactions[..n]).value.accounts, blk.transactions[n])
  }

  // The accounts after a block whose transactions do not all apply.
  function AfterFailure(places: Places, s: Books, blk: Block): Undone
    requires ApplyBlock(places, s, blk).None?
  {
    UndoAll(FailureLeft(places, s, blk), FailureRecords(places, s, blk))
  }

  function MismatchRecords(places: Places, s: Books, blk: Block): seq<Undo>
    requires ApplyBlock(places, s, blk).Some?
  {
    var t := ApplyTxs(places, s, blk.transactions).value;
    Records(places, s, blk.transactions) + AffairRecords(t.accounts, blk.affairs)
  }

  // The accounts after a block that applies and has another root.
  function AfterMismatch(places: Places, s: Books, blk: Block): Undone
    requires ApplyBlock(places, s, blk).Some?
  {
    UndoAll(ApplyBlock(places, s, blk).value.accounts, MismatchRecords(places, s, blk))
  }

  // ---- What the records add up to ----------------------------------------

  function Gain(u: Undo, k: Address, b: Asset): int {
    match u
    case GiveBack(x, a, n) => if x == k && a == b then n else 0
    case TakeBack(x, a, n) => if x == k && a == b then 0 - n else 0
    case _ => 0
  }

  function Gains(us: seq<Undo>, k: Address, b: Asset): int {
    if us == [] then 0 else Gains(us[..|us| - 1], k, b) + Gain(us[|us| - 1], k, b)
  }

  // No record drops the account, or its entry for the asset.
  predicate Spares(us: seq<Undo>, k: Address, b: Asset) {
    forall i :: 0 <= i < |us| ==> us[i] != DropAccount(k) && us[i] != DropAsset(k, b)
  }

  predicate WordUndo(u: Undo) {
    u.GiveBack? || u.TakeBack? ==> u.n < WORD
  }

  predicate WordUndos(us: seq<Undo>) {
    forall i :: 0 <= i < |us| ==> WordUndo(us[i])
  }

  lemma {:induction false} GainsJoin(us: seq<Undo>, vs: seq<Undo>, k: Address, b: Asset)
    ensures Gains(us + vs, k, b) == Gains(us, k, b) + Gains(vs, k, b)
  {
    if vs == [] {
      assert us + vs == us;
    } else {
      var n := |vs| - 1;
      GainsJoin(us, vs[..n], k, b);
      assert (us + vs)[..|us + vs| - 1] == us + vs[..n];
    }
  }

  lemma {:induction false} OutRecordsGain(accounts: map<Address, Account>, a: Asset, outs: seq<Out>, k: Address,
      b: Asset)
    requires k in accounts && WordOuts(outs)
    ensures Gains(OutRecords(accounts, a, outs), k, b) == if a == b then 0 - PaidTo(outs, k) else 0
    ensures Spares(OutRecords(accounts, a, outs), k, b) && WordUndos(OutRecords(accounts, a, outs))
  {
    if outs != [] {
      var init := outs[..|outs| - 1];
      OutRecordsGain(accounts, a, init, k, b);
      var us := OutRecords(accounts, a, outs);
      assert us[..|us| - 1] == OutRecords(accounts, a, init);
    }
  }

  // The records of a transaction are the transaction backwards.
  lemma RecordGain(accounts: map<Address, Account>, tx: Transaction, k: Address, b: Asset)
    requires k in accounts && !Grants(tx, k, b) && WordTxs([tx])
    ensures Gains(Record(accounts, tx), k, b) == Takes(tx, k, b) - Gives(tx, k, b)
    ensures Spares(Record(accounts, tx), k, b) && WordUndos(Record(accounts, tx))
  {
    hide WordOuts, PaidTo, OutRecords, Gains;
    if tx.Append? {
      assert WordOuts([tx][0].outs) && [tx][0].count < WORD;
      var first, rest := GiveBack(tx.sender, tx.asset, tx.count), OutRecords(accounts, tx.asset, tx.outs);
      OutRecordsGain(accounts, tx.asset, tx.outs, k, b);
      OneGain(first, k, b);
      GainsJoin([first], rest, k, b);
    } else if tx.Establish? {
      OneGain(if tx.sender in accounts then DropAsset(tx.sender, tx.asset) else DropAccount(tx.sender), k, b);
    } else {
      NoGains(k, b);
    }
  }

  lemma OneGain(u: Undo, k: Address, b: Asset)
    ensures Gains([u], k, b) == Gain(u, k, b)
  {
    assert [u][..0] == [];
  }

  lemma {:induction false} PayOutsStay(accounts: map<Address, Account>, a: Asset, outs: seq<Out>, k: Address)
    requires k in accounts
    ensures k in PayOuts(accounts, a, outs)
  {
    if outs != [] { PayOutsStay(accounts, a, outs[..|outs| - 1], k); }
  }

  lemma {:induction false} AccountsStay(places: Places, s: Books, txs: seq<Transaction>, k: Address)
    requires k in s.accounts && ApplyTxs(places, s, txs).Some?
    ensures k in ApplyTxs(places, s, txs).value.accounts
  {
    hide Positive, With, PayOuts, ReduceBalance;
    if txs != [] {
      var init, tx := txs[..|txs| - 1], txs[|txs| - 1];
      AccountsStay(places, s, init, k);
      var mid := ApplyTxs(places, s, init).value;
      if tx.Append? {
        var reduced := ReduceBalance(mid.accounts[tx.sender].(nonce := Wrap(tx.nonce + 1)), tx.asset, tx.count);
        PayOutsStay(mid.accounts[tx.sender := reduced.value], tx.asset, tx.outs, k);
      }
    }
  }

  lemma NoGains(k: Address, b: Asset)
    ensures Gains([], k, b) == 0
  {
  }

  // No record of the cell stops.
  ghost predicate CellRuns(c: Cell, us: seq<Undo>, k: Address, b: Asset) {
    forall i :: 0 <= i < |us| && us[i].TakeBack? && us[i].k == k && us[i].a == b ==>
      !Throws(CellUndos(c, us[..i], k, b), us[i])
  }

  lemma RunThroughCell(accounts: map<Address, Account>, us: seq<Undo>, k: Address, b: Asset)
    requires RunThrough(accounts, us)
    ensures CellRuns(CellOf(accounts, k, b), us, k, b)
  {
    forall i | 0 <= i < |us| && us[i].TakeBack? && us[i].k == k && us[i].a == b
      ensures !Throws(CellUndos(CellOf(accounts, k, b), us[..i], k, b), us[i])
    {
      assert !Stops(accounts, us, i);
    }
  }

  lemma CellRunsParts(c: Cell, us: seq<Undo>, vs: seq<Undo>, k: Address, b: Asset)
    requires CellRuns(c, us + vs, k, b)
    ensures CellRuns(c, us, k, b) && CellRuns(CellUndos(c, us, k, b), vs, k, b)
  {
    hide Throws;
    var ws: seq<Undo> := us + vs;
    forall i | 0 <= i < |us| && us[i].TakeBack? && us[i].k == k && us[i].a == b
      ensures !Throws(CellUndos(c, us[..i], k, b), us[i])
    {
      assert ws[..i] == us[..i] && ws[i] == us[i];
    }
    forall i | 0 <= i < |vs| && vs[i].TakeBack? && vs[i].k == k && vs[i].a == b
      ensures !Throws(CellUndos(CellUndos(c, us, k, b), vs[..i], k, b), vs[i])
    {
      assert ws[..|us| + i] == us + vs[..i] && ws[|us| + i] == vs[i];
      CellJoin(c, us, vs[..i], k, b);
    }
  }

  // Records that spare the cell add up, as words.
  lemma {:induction false} CellGains(c: Cell, us: seq<Undo>, k: Address, b: Asset)
    requires !c.Gone? && Held(c) < WORD && WordUndos(us) && Spares(us, k, b) && CellRuns(c, us, k, b)
    ensures !CellUndos(c, us, k, b).Gone? && Held(CellUndos(c, us, k, b)) == Wrap(Held(c) + Gains(us, k, b))
  {
    if us != [] {
      hide CellRuns;
      var init, u := us[..|us| - 1], us[|us| - 1];
      assert us == init + [u];
      CellRunsParts(c, init, [u], k, b);
      assert Spares(init, k, b) && WordUndos(init);
      CellGains(c, init, k, b);
      OneRuns(CellUndos(c, init, k, b), u, k, b);
      CellGain(CellUndos(c, init, k, b), u, k, b);
      var before := Held(c) + Gains(init, k, b);
      WrapSum(before, Wrap(before), Gain(u, k, b));
    }
  }

  lemma OneRuns(c: Cell, u: Undo, k: Address, b: Asset)
    requires CellRuns(c, [u], k, b)
    ensures u.TakeBack? && u.k == k && u.a == b ==> !Throws(c, u)
  {
    assert [u][..0] == [] && CellUndos(c, [], k, b) == c;
    if u.TakeBack? && u.k == k && u.a == b { assert !Throws(CellUndos(c, [u][..0], k, b), [u][0]); }
  }

  lemma CellGain(c: Cell, u: Undo, k: Address, b: Asset)
    requires !c.Gone? && Held(c) < WORD && WordUndo(u) && u != DropAccount(k) && u != DropAsset(k, b)
    requires u.TakeBack? && u.k == k && u.a == b ==> !Throws(c, u)
    ensures !CellUndo(c, u, k, b).Gone? && Held(CellUndo(c, u, k, b)) == Wrap(Held(c) + Gain(u, k, b))
  {
  }

  // ---- What undoing leaves -----------------------------------------------

  // Whether the account establishes the asset, and what was taken from it less
  // what it was given since it last did.
  predicate Establishes(txs: seq<Transaction>, k: Address, b: Asset) {
    txs != [] && (Grants(txs[|txs| - 1], k, b) || Establishes(txs[..|txs| - 1], k, b))
  }

  function Owed(txs: seq<Transaction>, k: Address, b: Asset): int {
    if txs == [] || Grants(txs[|txs| - 1], k, b) then 0
    else Owed(txs[..|txs| - 1], k, b) + Takes(txs[|txs| - 1], k, b) - Gives(txs[|txs| - 1], k, b)
  }

  // The records of transactions run over a cell: a record of an Establish drops
  // what there was, and what was taken before it is not given back again.
  function Undid(held: nat, txs: seq<Transaction>, k: Address, b: Asset): nat {
    Wrap((if Establishes(txs, k, b) then 0 else held) + Owed(txs, k, b))
  }

  lemma RecordCell(accounts: map<Address, Account>, tx: Transaction, c: Cell, k: Address, b: Asset)
    requires k in accounts && WordTxs([tx]) && !c.Gone? && Held(c) < WORD && CellRuns(c, Record(accounts, tx), k, b)
    ensures var c' := CellUndos(c, Record(accounts, tx), k, b);
      && !c'.Gone?
      && Held(c') == if Grants(tx, k, b) then 0 else Wrap(Held(c) + Takes(tx, k, b) - Gives(tx, k, b))
  {
    if Grants(tx, k, b) {
      var u := DropAsset(k, b);
      assert Record(accounts, tx) == [u] && [u][..0] == [];
      assert CellUndos(c, [], k, b) == c && CellUndos(c, [u], k, b) == CellUndo(c, u, k, b);
    } else {
      hide Record, CellRuns, Gives, Takes, Gains, Spares, WordUndos, CellUndos;
      RecordGain(accounts, tx, k, b);
      CellGains(c, Record(accounts, tx), k, b);
    }
  }

  lemma {:induction false} RecordsCell(places: Places, s: Books, txs: seq<Transaction>, c: Cell, k: Address, b: Asset)
    requires k in s.accounts && WordTxs(txs) && ApplyTxs(places, s, txs).Some?
    requires !c.Gone? && Held(c) < WORD && CellRuns(c, Records(places, s, txs), k, b)
    ensures var c' := CellUndos(c, Records(places, s, txs), k, b);
      !c'.Gone? && Held(c') == Undid(Held(c), txs, k, b)
  {
    hide WordTxs, ApplyTx, Grants, Takes, Gives, Record, CellRuns, Wrap, CellUndo;
    if txs == [] {
      WrapSmall(Held(c));
    } else {
      var init, tx := txs[..|txs| - 1], txs[|txs| - 1];
      WordParts(txs);
      AccountsStay(places, s, init, k);
      var mid := ApplyTxs(places, s, init).value;
      var us, vs := Records(places, s, init), Record(mid.accounts, tx);
      CellRunsParts(c, us, vs, k, b);
      RecordsCell(places, s, init, c, k, b);
      var c1 := CellUndos(c, us, k, b);
      WrapRange((if Establishes(init, k, b) then 0 else Held(c)) + Owed(init, k, b));
      RecordCell(mid.accounts, tx, c1, k, b);
      CellJoin(c, us, vs, k, b);
      var before := (if Establishes(init, k, b) then 0 else Held(c)) + Owed(init, k, b);
      WrapSum(before, Wrap(before), Takes(tx, k, b) - Gives(tx, k, b));
      WrapSmall(0);
    }
  }

  lemma WrapSmall(x: nat)
    requires x < WORD
    ensures Wrap(x) == x
  {
  }

  lemma WrapRange(x: int)
    ensures 0 <= Wrap(x) < WORD
  {
  }

  // Without an Establish what is owed is the difference to what there was.
  lemma {:induction false} OwedIsNet(accounts: map<Address, Account>, txs: seq<Transaction>, k: Address, b: Asset)
    requires !Establishes(txs, k, b)
    ensures Owed(txs, k, b) == BalanceAt(accounts, k, b) - Net(accounts, txs, k, b)
  {
    if txs != [] { OwedIsNet(accounts, txs[..|txs| - 1], k, b); }
  }

  // After the last Establish, at i, it is what was spent less what was received.
  lemma {:induction false} OwedSince(txs: seq<Transaction>, i: nat, k: Address, b: Asset)
    requires i < |txs| && Grants(txs[i], k, b) && forall j :: i < j < |txs| ==> !Grants(txs[j], k, b)
    ensures Establishes(txs, k, b)
    ensures Owed(txs, k, b) == Spent(txs[i + 1..], k, b) - Received(txs[i + 1..], k, b)
  {
    hide Grants, Takes, Gives;
    var n := |txs| - 1;
    if i == n {
      assert txs[i + 1..] == [];
    } else {
      OwedSince(txs[..n], i, k, b);
      assert txs[i + 1..][..|txs[i + 1..]| - 1] == txs[..n][i + 1..];
    }
  }

  lemma ThrownKeeps(accounts: map<Address, Account>, tx: Transaction, k: Address, b: Asset)
    requires WordBalances(accounts)
    ensures WordBalances(Thrown(accounts, tx)) && BalanceAt(Thrown(accounts, tx), k, b) == BalanceAt(accounts, k, b)
    ensures k in accounts <==> k in Thrown(accounts, tx)
  {
  }

  lemma WordAt(txs: seq<Transaction>, i: nat)
    requires WordTxs(txs) && i < |txs|
    ensures WordTxs([txs[i]])
  {
  }

  lemma WrapSame(x: nat, d: int)
    requires x < WORD
    ensures Wrap(x + d) == x <==> Wrap(d) == 0
  {
    var q, r := d / WORD, Wrap(d);
    assert d == WORD * q + r;
    if x + r < WORD { assert x + d == WORD * q + (x + r); } else { assert x + d == WORD * (q + 1) + (x + r - WORD); }
  }

  lemma {:induction false} AffairsStay(accounts: map<Address, Account>, airs: seq<Affair>, k: Address, b: Asset)
    requires k in accounts && WordBalances(accounts)
    ensures var r, us := ApplyAffairs(accounts, airs), AffairRecords(accounts, airs);
      && k in r && WordBalances(r) && BalanceAt(r, k, b) == BalanceAt(accounts, k, b)
      && Gains(us, k, b) == 0 && Spares(us, k, b) && WordUndos(us)
  {
    hide WordBalances, BalanceAt, Gains, ApplyAffair, AffairRecord;
    if airs == [] {
      NoGains(k, b);
    } else {
      var init, air := airs[..|airs| - 1], airs[|airs| - 1];
      AffairsStay(accounts, init, k, b);
      var mid := ApplyAffairs(accounts, init);
      AffairStays(mid, air, k, b);
      GainsJoin(AffairRecords(accounts, init), AffairRecord(mid, air), k, b);
    }
  }

  lemma AffairStays(accounts: map<Address, Account>, air: Affair, k: Address, b: Asset)
    requires k in accounts && WordBalances(accounts)
    ensures var r, us := ApplyAffair(accounts, air), AffairRecord(accounts, air);
      && k in r && WordBalances(r) && BalanceAt(r, k, b) == BalanceAt(accounts, k, b)
      && Gains(us, k, b) == 0 && Spares(us, k, b) && WordUndos(us)
  {
    NoGains(k, b);
    if air.dbLevel { OneGain(AffairRecord(accounts, air)[0], k, b); }
  }

  // The records of a block that applies all run over what it leaves.
  ghost predicate MismatchRuns(places: Places, s: Books, blk: Block)
    requires ApplyBlock(places, s, blk).Some?
  {
    RunThrough(ApplyBlock(places, s, blk).value.accounts, MismatchRecords(places, s, blk))
  }

  // A block that applies and has another root, if its records run: an account
  // that was there has its balance back, unless it establishes the asset in the
  // block. Then it has what it spent of it after that less what it received, as
  // a word, whatever it had before.
  lemma MismatchExact(places: Places, s: Books, blk: Block, k: Address, b: Asset)
    requires WordBalances(s.accounts) && WordTxs(blk.transactions) && ApplyBlock(places, s, blk).Some?
    requires k in s.accounts && MismatchRuns(places, s, blk)
    ensures var r, txs := AfterMismatch(places, s, blk), blk.transactions;
      && r.done && k in r.accounts
      && BalanceAt(r.accounts, k, b)
         == if Establishes(txs, k, b) then Wrap(Owed(txs, k, b)) else BalanceAt(s.accounts, k, b)
  {
    hide WordBalances, WordTxs, BalanceAt, Establishes, Owed, Net, ApplyTxs, Records, AffairRecords, ApplyAffairs, Wrap,
         UndoAll, CellOf, CellUndos, CellRuns, RunThrough, Gains, Spares, WordUndos;
    var txs := blk.transactions;
    var t := ApplyTxs(places, s, txs).value;
    var all, us, vs := ApplyAffairs(t.accounts, blk.affairs), Records(places, s, txs),
      AffairRecords(t.accounts, blk.affairs);
    RunningBalances(places, s, txs, k, b);
    AccountsStay(places, s, txs, k);
    AffairsStay(t.accounts, blk.affairs, k, b);
    CellIs(all, k, b);
    WordBalance(all, k, b);
    RunThroughCell(all, us + vs, k, b);
    UndoneCell(all, us + vs, k, b);
    var c := CellOf(all, k, b);
    CellRunsParts(c, us, vs, k, b);
    CellJoin(c, us, vs, k, b);
    RecordsCell(places, s, txs, c, k, b);
    var c1 := CellUndos(c, us, k, b);
    UndidRange(Held(c), txs, k, b);
    CellGains(c1, vs, k, b);
    WrapSmall(Held(c1));
    CellIs(UndoAll(all, us + vs).accounts, k, b);
    WordBalance(s.accounts, k, b);
    UndidBack(s.accounts, txs, k, b);
  }

  lemma CellIs(accounts: map<Address, Account>, k: Address, b: Asset)
    ensures (k in accounts <==> !CellOf(accounts, k, b).Gone?)
      && BalanceAt(accounts, k, b) == Held(CellOf(accounts, k, b))
  {
  }

  lemma UndoneCell(accounts: map<Address, Account>, us: seq<Undo>, k: Address, b: Asset)
    requires RunThrough(accounts, us)
    ensures UndoAll(accounts, us).done
    ensures CellOf(UndoAll(accounts, us).accounts, k, b) == CellUndos(CellOf(accounts, k, b), us, k, b)
  {
    hide UndoAll, Stops, CellOf, CellUndos;
    UndoExact(accounts, us, k, b);
    assert us[..|us|] == us;
  }

  lemma UndidRange(held: nat, txs: seq<Transaction>, k: Address, b: Asset)
    ensures Undid(held, txs, k, b) < WORD
  {
  }

  // Undoing from where the transactions lead.
  lemma UndidBack(accounts: map<Address, Account>, txs: seq<Transaction>, k: Address, b: Asset)
    requires WordBalances(accounts)
    ensures Undid(Wrap(Net(accounts, txs, k, b)), txs, k, b)
         == if Establishes(txs, k, b) then Wrap(Owed(txs, k, b)) else BalanceAt(accounts, k, b)
  {
    hide Net, Owed, BalanceAt, Wrap, WordBalances;
    if !Establishes(txs, k, b) {
      OwedIsNet(accounts, txs, k, b);
      var net := Net(accounts, txs, k, b);
      WrapSum(net, Wrap(net), Owed(txs, k, b));
      WordBalance(accounts, k, b);
    }
  }

  ghost predicate FailureRuns(places: Places, s: Books, blk: Block)
    requires ApplyBlock(places, s, blk).None?
  {
    RunThrough(FailureLeft(places, s, blk), FailureRecords(places, s, blk))
  }

  // A block that fails, if its records run: an account that was there has what
  // it had, or what it is owed since it established the asset in the block, and
  // an Append that failed is made backwards on top of that.
  lemma FailureExact(places: Places, s: Books, blk: Block, k: Address, b: Asset)
    requires WordBalances(s.accounts) && WordTxs(blk.transactions) && ApplyBlock(places, s, blk).None?
    requires k in s.accounts && FailureRuns(places, s, blk)
    ensures var r, n := AfterFailure(places, s, blk), Applied(places, s, blk.transactions);
      var done, tx := blk.transactions[..n], blk.transactions[n];
      && r.done && k in r.accounts
      && BalanceAt(r.accounts, k, b)
         == Wrap((if Establishes(done, k, b) then Owed(done, k, b) else BalanceAt(s.accounts, k, b))
                 + if tx.Append? then Takes(tx, k, b) - Gives(tx, k, b) else 0)
      && (tx.Append? && !Establishes(done, k, b) ==>
            (BalanceAt(r.accounts, k, b) == BalanceAt(s.accounts, k, b) <==>
              Wrap(Takes(tx, k, b) - Gives(tx, k, b)) == 0))
  {
    hide WordBalances, WordTxs, BalanceAt, Establishes, Owed, Net, ApplyTx, ApplyTxs, Records, Kept, Thrown, Takes,
         Gives,
         Wrap, UndoAll, CellOf, CellUndos, CellRuns, RunThrough;
    var txs, n := blk.transactions, Applied(places, s, blk.transactions);
    var tx, done := txs[n], txs[..n];
    WordPrefix(txs, n);
    WordAt(txs, n);
    var mid := ApplyTxs(places, s, done).value;
    var left, us, vs := Thrown(mid.accounts, tx), Records(places, s, done), Kept(mid.accounts, tx);
    RunningBalances(places, s, done, k, b);
    AccountsStay(places, s, done, k);
    ThrownKeeps(mid.accounts, tx, k, b);
    CellIs(left, k, b);
    WordBalance(left, k, b);
    RunThroughCell(left, us + vs, k, b);
    UndoneCell(left, us + vs, k, b);
    var c := CellOf(left, k, b);
    CellRunsParts(c, us, vs, k, b);
    CellJoin(c, us, vs, k, b);
    RecordsCell(places, s, done, c, k, b);
    UndidRange(Held(c), done, k, b);
    KeptCell(mid.accounts, tx, CellUndos(c, us, k, b), k, b);
    CellIs(UndoAll(left, us + vs).accounts, k, b);
    UndidBack(s.accounts, done, k, b);
    WordBalance(s.accounts, k, b);
    WrapSame(BalanceAt(s.accounts, k, b), Takes(tx, k, b) - Gives(tx, k, b));
    var base := if Establishes(done, k, b) then Owed(done, k, b) else BalanceAt(s.accounts, k, b);
    WrapSum(base, Wrap(base), if tx.Append? then Takes(tx, k, b) - Gives(tx, k, b) else 0);
  }

  lemma KeptCell(accounts: map<Address, Account>, tx: Transaction, c: Cell, k: Address, b: Asset)
    requires k in accounts && WordTxs([tx]) && !c.Gone? && Held(c) < WORD && CellRuns(c, Kept(accounts, tx), k, b)
    ensures var c' := CellUndos(c, Kept(accounts, tx), k, b);
      !c'.Gone? && Held(c') == Wrap(Held(c) + if tx.Append? then Takes(tx, k, b) - Gives(tx, k, b) else 0)
  {
    hide WordTxs, Takes, Gives, Record, CellRuns;
    WrapSmall(Held(c));
    if tx.Append? { RecordCell(accounts, tx, c, k, b); }
  }

  // Undoing gets to its end if and only if no record stops.
  lemma UndoingEnds(places: Places, s: Books, blk: Block)
    ensures ApplyBlock(places, s, blk).None? ==> (AfterFailure(places, s, blk).done <==> FailureRuns(places, s, blk))
    ensures ApplyBlock(places, s, blk).Some? ==> (AfterMismatch(places, s, blk).done <==> MismatchRuns(places, s, blk))
  {
    hide UndoAll, RunThrough, ApplyTxs, Records, Kept, Thrown, AffairRecords, ApplyAffairs;
    if ApplyBlock(places, s, blk).None? {
      RunThroughIsDone(FailureLeft(places, s, blk), FailureRecords(places, s, blk));
    } else {
      RunThroughIsDone(ApplyBlock(places, s, blk).value.accounts, MismatchRecords(places, s, blk));
    }
  }

  // ---- Accounts that are new in the block --------------------------------

  lemma UndoAbsent(accounts: map<Address, Account>, us: seq<Undo>, k: Address)
    requires RunThrough(accounts, us) && (k !in accounts || DropAccount(k) in us)
    ensures k !in UndoAll(accounts, us).accounts
  {
    hide RunThrough, UndoAll, CellUndos;
    UndoneCell(accounts, us, k, 0);
    CellGone(CellOf(accounts, k, 0), us, k, 0);
  }

  lemma {:induction false} PaidIsRecorded(accounts: map<Address, Account>, before: map<Address, Account>, a: Asset,
      outs: seq<Out>, k: Address)
    requires k !in before && k in PayOuts(accounts, a, outs)
    ensures k in accounts || DropAccount(k) in OutRecords(before, a, outs)
  {
    if outs != [] && outs[|outs| - 1].receiver != k {
      PaidIsRecorded(accounts, before, a, outs[..|outs| - 1], k);
    }
  }

  lemma {:induction false} NewIsRecorded(places: Places, s: Books, txs: seq<Transaction>, k: Address)
    requires ApplyTxs(places, s, txs).Some? && k in ApplyTxs(places, s, txs).value.accounts
    ensures k in s.accounts || DropAccount(k) in Records(places, s, txs)
  {
    hide Positive, With, PayOuts, ReduceBalance, OutRecords;
    if txs != [] {
      var init, tx := txs[..|txs| - 1], txs[|txs| - 1];
      var mid := ApplyTxs(places, s, init).value;
      if k in mid.accounts {
        NewIsRecorded(places, s, init, k);
      } else if tx.Append? {
        var reduced := ReduceBalance(mid.accounts[tx.sender].(nonce := Wrap(tx.nonce + 1)), tx.asset, tx.count);
        PaidIsRecorded(mid.accounts[tx.sender := reduced.value], mid.accounts, tx.asset, tx.outs, k);
      }
    }
  }

  lemma {:induction false} NewAffairIsRecorded(accounts: map<Address, Account>, airs: seq<Affair>, k: Address)
    requires k in ApplyAffairs(accounts, airs)
    ensures k in accounts || DropAccount(k) in AffairRecords(accounts, airs)
  {
    if airs != [] && k in ApplyAffairs(accounts, airs[..|airs| - 1]) {
      NewAffairIsRecorded(accounts, airs[..|airs| - 1], k);
    }
  }

  // Accounts that are new in the block are gone when its records have run.
  lemma NewAccountsGo(places: Places, s: Books, blk: Block, k: Address)
    requires k !in s.accounts
    ensures ApplyBlock(places, s, blk).None? && FailureRuns(places, s, blk) ==>
      k !in AfterFailure(places, s, blk).accounts
    ensures ApplyBlock(places, s, blk).Some? && MismatchRuns(places, s, blk) ==>
      k !in AfterMismatch(places, s, blk).accounts
  {
    hide ApplyTxs, ApplyTx, Records, Record, ApplyAffairs, AffairRecords, UndoAll, Restored, RunThrough;
    var txs := blk.transactions;
    if ApplyBlock(places, s, blk).None? {
      var n := Applied(places, s, txs);
      var mid := ApplyTxs(places, s, txs[..n]).value;
      if k in mid.accounts { NewIsRecorded(places, s, txs[..n], k); }
      if FailureRuns(places, s, blk) {
        UndoAbsent(Thrown(mid.accounts, txs[n]), FailureRecords(places, s, blk), k);
      }
    } else if MismatchRuns(places, s, blk) {
      var t := ApplyTxs(places, s, txs).value;
      var all := ApplyAffairs(t.accounts, blk.affairs);
      if k in all { NewAffairIsRecorded(t.accounts, blk.affairs, k); }
      if k in t.accounts { NewIsRecorded(places, s, txs, k); }
      UndoAbsent(all, MismatchRecords(places, s, blk), k);
    }
  }

  // ---- Failed blocks that leave something behind -------------------------

  // The accounts after the overspending block has failed: its sender, which
  // held nothing, now holds 2^63 units, and its nonce has wrapped.
  function AfterOverspending(): map<Address, Account> {
    map[1 := Account(3, map[7 := ASSET_MAX_COUNT]), 2 := Account(WORD - 1, map[7 := HALF])]
  }

  // So a block that is refused can mint.
  lemma RefusedBlockMints(places: Places)
    ensures CheckBody(places, NothingSent(places), OverspendingBlock(3))
    ensures ApplyBlock(places, NothingSent(places), OverspendingBlock(3)).None?
    ensures AfterFailure(places, NothingSent(places), OverspendingBlock(3)) == Undone(AfterOverspending(), true)
    ensures Total(NothingSent(places).accounts, 7) == ASSET_MAX_COUNT
    ensures Total(AfterOverspending(), 7) == ASSET_MAX_COUNT + HALF
  {
    hide CheckBody, ApplyBlock, AfterFailure, Total;
    CheckLetsOverspendingThrough(places, 3);
    OverspendingUndone(places);
    OverspendingTotals(places);
  }

  lemma OverspendingTotals(places: Places)
    ensures Total(NothingSent(places).accounts, 7) == ASSET_MAX_COUNT
    ensures Total(AfterOverspending(), 7) == ASSET_MAX_COUNT + HALF
  {
    hide Total;
    NobodyHas(map[], 7);
    var one := Account(3, map[7 := ASSET_MAX_COUNT]);
    TotalSet(map[], 1, one, 7);
    TotalSet(map[1 := one], 2, Account(0, map[7 := 0]), 7);
    TotalSet(map[1 := one], 2, Account(WORD - 1, map[7 := HALF]), 7);
    assert NothingSent(places).accounts == map[1 := one][2 := Account(0, map[7 := 0])];
    assert AfterOverspending() == map[1 := one][2 := Account(WORD - 1, map[7 := HALF])];
  }

  lemma OverspendingUndone(places: Places)
    requires ApplyBlock(places, NothingSent(places), OverspendingBlock(3)).None?
    ensures AfterFailure(places, NothingSent(places), OverspendingBlock(3)) == Undone(AfterOverspending(), true)
  {
    hide With, NoBits, Positive, PayOuts, UndoAll, UndoOne;
    var s, x, y := NothingSent(places), Pay(2, 1, HALF, 3), Pay(2, 2, HALF, 3);
    FirstFails(places, s, x, y);
    OnePaymentRecord(s.accounts, 2, 1, HALF, 3);
    assert map[7 := 0] - {7} == map[];
    var left := s.accounts[2 := Account(0, map[])];
    assert Thrown(s.accounts, x) == left;
    GiveBackHalf(left);
    BothUndos(left, GiveBack(2, 7, HALF), DropAccount(3));
    assert left[2 := Account(WORD - 1, map[7 := HALF])] == AfterOverspending();
    Passed(AfterOverspending(), DropAccount(3));
  }

  lemma GiveBackHalf(accounts: map<Address, Account>)
    requires 2 in accounts && accounts[2] == Account(0, map[])
    ensures UndoOne(accounts, GiveBack(2, 7, HALF)) == Some(accounts[2 := Account(WORD - 1, map[7 := HALF])])
  {
    assert AddBalance(Account(0, map[]), 7, HALF).balances == map[7 := HALF];
  }

  lemma Passed(accounts: map<Address, Account>, u: Undo)
    requires u.k !in accounts
    ensures UndoOne(accounts, u) == Some(accounts)
  {
  }

  lemma OnePaymentRecord(accounts: map<Address, Account>, k: Address, nonce: nat, count: nat, to: Address)
    ensures Record(accounts, Pay(k, nonce, count, to))
      == [GiveBack(k, 7, count), OutRecord(accounts, 7, Out(to, count))]
  {
    assert [Out(to, count)][..0] == [];
    assert OutRecords(accounts, 7, []) == [];
    assert OutRecords(accounts, 7, [Out(to, count)]) == [OutRecord(accounts, 7, Out(to, count))];
  }

  lemma BothUndos(accounts: map<Address, Account>, u: Undo, v: Undo)
    requires UndoOne(accounts, u).Some?
    ensures var mid := UndoOne(accounts, u).value;
      UndoAll(accounts, [u, v]) == if UndoOne(mid, v).None? then Undone(mid, false)
        else Undone(UndoOne(mid, v).value, true)
  {
    hide UndoOne;
    assert [u, v][..1] == [u] && [u][..0] == [];
    assert UndoAll(accounts, []) == Undone(accounts, true);
    assert UndoAll(accounts, [u]) == Undone(UndoOne(accounts, u).value, true);
  }

  // A block of two transactions that fails at the first.
  lemma FirstFails(places: Places, s: Books, x: Transaction, y: Transaction)
    requires ApplyTx(places, s, x).None?
    ensures ApplyBlock(places, s, TxBlock([x, y])).None?
    ensures AfterFailure(places, s, TxBlock([x, y])) == UndoAll(Thrown(s.accounts, x), Kept(s.accounts, x))
  {
    hide ApplyTx, UndoAll, Kept, Thrown;
    FailsAtOnce(places, s, x, y);
    ApplyTwo(places, s, x, y);
    assert [x, y][..0] == [];
    assert ApplyTxs(places, s, []).value == s;
    assert Records(places, s, []) + Kept(s.accounts, x) == Kept(s.accounts, x);
  }

  lemma FailsAtOnce(places: Places, s: Books, x: Transaction, y: Transaction)
    requires ApplyTx(places, s, x).None?
    ensures Applied(places, s, [x, y]) == 0
  {
    hide ApplyTx;
    var n := Applied(places, s, [x, y]);
    assert [x, y][..1] == [x] && [x, y][..2] == [x, y];
    ApplyOne(places, s, x);
    ApplyTwo(places, s, x, y);
  }

  // The same payments to an account that holds less: taking them back throws,
  // and the sender keeps what it was given.
  lemma UndoingCanThrow(places: Places)
    ensures var s, blk := NothingSent(places), OverspendingBlock(1);
      && CheckBody(places, s, blk) && ApplyBlock(places, s, blk).None?
      && AfterFailure(places, s, blk) == Undone(AfterOverspending(), false)
  {
    hide With, NoBits, Positive, PayOuts, UndoAll, UndoOne, CheckBody;
    CheckLetsOverspendingThrough(places, 1);
    var s, x, y := NothingSent(places), Pay(2, 1, HALF, 1), Pay(2, 2, HALF, 1);
    FirstFails(places, s, x, y);
    OnePaymentRecord(s.accounts, 2, 1, HALF, 1);
    assert map[7 := 0] - {7} == map[];
    var left := s.accounts[2 := Account(0, map[])];
    assert Thrown(s.accounts, x) == left;
    GiveBackHalf(left);
    BothUndos(left, GiveBack(2, 7, HALF), TakeBack(1, 7, HALF));
    var r := left[2 := Account(WORD - 1, map[7 := HALF])];
    assert r == AfterOverspending();
    TooMuch(r, 1, 7, HALF);
  }

  lemma TooMuch(accounts: map<Address, Account>, k: Address, a: Asset, n: nat)
    requires k in accounts && BalanceAt(accounts, k, a) < n
    ensures UndoOne(accounts, TakeBack(k, a, n)).None?
  {
  }

  // A known account establishes an asset and spends five units of it. The block
  // is refused for its root, and the account keeps five units of an asset that
  // nobody has established.
  function SpentAtOnce(): Block {
    TxBlock([Establish(1, 7, 2), Pay(1, 3, 5, 2)])
  }

  lemma MismatchCanMint(places: Places)
    ensures var s := Books(map[1 := Account(1, map[])], NoBits());
      && CheckBody(places, s, SpentAtOnce()) && ApplyBlock(places, s, SpentAtOnce()).Some?
      && AfterMismatch(places, s, SpentAtOnce()) == Undone(map[1 := Account(2, map[7 := 5])], true)
  {
    hide Positive, With, NoBits, CheckBody, UndoAll, ApplyTxs, Records;
    NothingPositive(places, 7);
    var s := Books(map[1 := Account(1, map[])], NoBits());
    SpentAtOnceChecked(places);
    SpentAtOnceApplied(places);
    SpentAtOnceRecords(places);
    var us := [DropAsset(1, 7), GiveBack(1, 7, 5), DropAccount(2)];
    assert AffairRecords(AfterSpending(), []) == [] && us + [] == us;
    SpentAtOnceUndone();
  }

  function AfterSpending(): map<Address, Account> {
    map[1 := Account(4, map[7 := ASSET_MAX_COUNT - 5]), 2 := Account(0, map[7 := 5])]
  }

  lemma SpentAtOnceChecked(places: Places)
    requires !Positive(places, NoBits(), 7)
    ensures CheckBody(places, Books(map[1 := Account(1, map[])], NoBits()), SpentAtOnce())
  {
    hide Positive, With, NoBits, SlipOk, CheckTx, CheckTxs, CheckBody;
    var s, f := Books(map[1 := Account(1, map[])], NoBits()), With(places, NoBits(), 7);
    var x, y, none := Establish(1, 7, 2), Pay(1, 3, 5, 2), Slip(1, [], map[]);
    var one := Slip(1, [2], map[7 := (ASSET_MAX_COUNT, 0)]);
    Establishing(places, s.accounts, Draft(map[], NoBits()), none, 1, 2, 0);
    assert none.balances[7 := (ASSET_MAX_COUNT, 0)] == map[7 := (ASSET_MAX_COUNT, 0)];
    CheckTwo(places, s.accounts, NoBits(), x, y);
    assert none.nonces + [2] == [2];
    NextPayment(places, s.accounts, Draft(map[][1 := one], f), 1, 3, 5, 2, 2, ASSET_MAX_COUNT, 0);
    assert Counting(2, 2) == [2, 3];
    OneLine(1, [2, 3], ASSET_MAX_COUNT, 5);
    SlipsPass(places, s, [x, y], Draft(map[][1 := one][1 := Slip(1, [2, 3], map[7 := (ASSET_MAX_COUNT, 5)])], f));
  }

  // The books between the two transactions.
  function Between(places: Places): Books {
    Books(map[1 := Account(1, map[7 := ASSET_MAX_COUNT])], With(places, NoBits(), 7))
  }

  lemma SpentAtOnceApplied(places: Places)
    requires !Positive(places, NoBits(), 7)
    ensures var s := Books(map[1 := Account(1, map[])], NoBits());
      && ApplyTx(places, s, Establish(1, 7, 2)) == Some(Between(places))
      && ApplyTxs(places, s, SpentAtOnce().transactions) == Some(Books(AfterSpending(), With(places, NoBits(), 7)))
  {
    hide Positive, With, NoBits, PayOuts;
    var s, x, y := Books(map[1 := Account(1, map[])], NoBits()), Establish(1, 7, 2), Pay(1, 3, 5, 2);
    ApplyTwo(places, s, x, y);
    var held := map[7 := ASSET_MAX_COUNT];
    assert AddBalance(Account(1, map[]), 7, ASSET_MAX_COUNT).balances == held;
    assert map[1 := Account(1, map[])][1 := Account(1, held)] == map[1 := Account(1, held)];
    var less := map[7 := ASSET_MAX_COUNT - 5];
    assert held[7 := ASSET_MAX_COUNT - 5] == less;
    var left := map[1 := Account(1, held)][1 := Account(4, less)];
    assert left == map[1 := Account(4, less)];
    OneOut(Out(2, 5), left, 7);
    assert AddBalance(Account(0, map[]), 7, 5).balances == map[7 := 5];
  }

  lemma SpentAtOnceRecords(places: Places)
    requires !Positive(places, NoBits(), 7)
    ensures var s := Books(map[1 := Account(1, map[])], NoBits());
      && ApplyTxs(places, s, SpentAtOnce().transactions).Some?
      && Records(places, s, SpentAtOnce().transactions) == [DropAsset(1, 7), GiveBack(1, 7, 5), DropAccount(2)]
  {
    hide Positive, With, NoBits, ApplyTx;
    var s, x, y := Books(map[1 := Account(1, map[])], NoBits()), Establish(1, 7, 2), Pay(1, 3, 5, 2);
    SpentAtOnceApplied(places);
    ApplyOne(places, s, x);
    assert [x, y][..1] == [x] && [x][..0] == [];
    assert ApplyTxs(places, s, []) == Some(s);
    assert Records(places, s, [x]) == [DropAsset(1, 7)];
    OnePaymentRecord(Between(places).accounts, 1, 3, 5, 2);
  }

  lemma SpentAtOnceUndone()
    ensures UndoAll(AfterSpending(), [DropAsset(1, 7), GiveBack(1, 7, 5), DropAccount(2)])
         == Undone(map[1 := Account(2, map[7 := 5])], true)
  {
    hide UndoAll, UndoOne;
    var x, y, z := DropAsset(1, 7), GiveBack(1, 7, 5), DropAccount(2);
    var m := AfterSpending();
    DropOne(m, 1, 7);
    var m1 := m[1 := Account(3, m[1].balances - {7})];
    assert m[1].balances - {7} == map[];
    GiveOne(m1, 1, 7, 5);
    var m2 := m1[1 := Account(2, map[7 := 5])];
    BothUndos(m, x, y);
    DropLast(m2, 2);
    LastUndo(m, x, y, z);
    assert m2 - {2} == map[1 := Account(2, map[7 := 5])];
  }

  lemma DropOne(accounts: map<Address, Account>, k: Address, a: Asset)
    requires k in accounts && 0 < accounts[k].nonce < WORD
    ensures UndoOne(accounts, DropAsset(k, a))
         == Some(accounts[k := Account(accounts[k].nonce - 1, accounts[k].balances - {a})])
  {
  }

  lemma GiveOne(accounts: map<Address, Account>, k: Address, a: Asset, n: nat)
    requires k in accounts && 0 < accounts[k].nonce < WORD && accounts[k].balances == map[]
    ensures UndoOne(accounts, GiveBack(k, a, n)) == Some(accounts[k := Account(accounts[k].nonce - 1, map[a := n])])
  {
    assert accounts[k].balances[a := n] == map[a := n];
  }

  lemma DropLast(accounts: map<Address, Account>, k: Address)
    requires k in accounts
    ensures UndoOne(accounts, DropAccount(k)) == Some(accounts - {k})
  {
  }

  lemma LastUndo(accounts: map<Address, Account>, x: Undo, y: Undo, z: Undo)
    requires UndoAll(accounts, [x, y]).done && UndoOne(UndoAll(accounts, [x, y]).accounts, z).Some?
    ensures UndoAll(accounts, [x, y, z]) == Undone(UndoOne(UndoAll(accounts, [x, y]).accounts, z).value, true)
  {
    hide UndoOne;
    assert [x, y, z][..2] == [x, y];
  }

  // ---- When the records run ----------------------------------------------

  // What the records take back from an account, and what they give it.
  function TakenBack(us: seq<Undo>, k: Address, b: Asset): nat {
    if us == [] then 0
    else
      var u := us[|us| - 1];
      TakenBack(us[..|us| - 1], k, b) + if u.TakeBack? && u.k == k && u.a == b then u.n else 0
  }

  function GivenBack(us: seq<Undo>, k: Address, b: Asset): nat {
    if us == [] then 0
    else
      var u := us[|us| - 1];
      GivenBack(us[..|us| - 1], k, b) + if u.GiveBack? && u.k == k && u.a == b then u.n else 0
  }

  lemma {:induction false} GainsSplit(us: seq<Undo>, k: Address, b: Asset)
    ensures Gains(us, k, b) == GivenBack(us, k, b) - TakenBack(us, k, b)
  {
    if us != [] { GainsSplit(us[..|us| - 1], k, b); }
  }

  lemma {:induction false} BackJoin(us: seq<Undo>, vs: seq<Undo>, k: Address, b: Asset)
    ensures TakenBack(us + vs, k, b) == TakenBack(us, k, b) + TakenBack(vs, k, b)
    ensures GivenBack(us + vs, k, b) == GivenBack(us, k, b) + GivenBack(vs, k, b)
  {
    if vs == [] {
      assert us + vs == us;
    } else {
      var n := |vs| - 1;
      BackJoin(us, vs[..n], k, b);
      assert (us + vs)[..|us + vs| - 1] == us + vs[..n];
    }
  }

  lemma TakenSoFar(us: seq<Undo>, i: nat)
    requires i < |us| && us[i].TakeBack?
    ensures TakenBack(us[..i], us[i].k, us[i].a) + us[i].n <= TakenBack(us, us[i].k, us[i].a)
  {
    var k, b := us[i].k, us[i].a;
    assert us == us[..i + 1] + us[i + 1..] && us[..i + 1][..i] == us[..i];
    BackJoin(us[..i + 1], us[i + 1..], k, b);
  }

  lemma GivenSoFar(us: seq<Undo>, i: nat, k: Address, b: Asset)
    requires i <= |us|
    ensures GivenBack(us[..i], k, b) <= GivenBack(us, k, b)
  {
    assert us == us[..i] + us[i..];
    BackJoin(us[..i], us[i..], k, b);
  }

  // Records can be run over accounts that hold, of every asset, all that is to
  // be taken back and have room for all that is given back, if nothing is taken
  // back for nothing. Accounts dropped before do not matter.
  ghost predicate Runnable(accounts: map<Address, Account>, us: seq<Undo>) {
    forall i :: 0 <= i < |us| && us[i].TakeBack? ==> Takeable(accounts, us, i)
  }

  predicate Takeable(accounts: map<Address, Account>, us: seq<Undo>, i: nat)
    requires i < |us| && us[i].TakeBack?
  {
    var k, b := us[i].k, us[i].a;
    || DropAccount(k) in us[..i]
    || (&& Spares(us, k, b) && us[i].n > 0 && k in accounts
        && TakenBack(us, k, b) <= BalanceAt(accounts, k, b) && BalanceAt(accounts, k, b) + GivenBack(us, k, b) < WORD)
  }

  lemma {:induction false} TakeableRuns(accounts: map<Address, Account>, us: seq<Undo>, k: Address, b: Asset, n: nat)
    requires WordBalances(accounts) && WordUndos(us) && Runnable(accounts, us) && n <= |us|
    ensures CellRuns(CellOf(accounts, k, b), us[..n], k, b)
  {
    hide WordBalances, BalanceAt, Gains, TakenBack, GivenBack, CellOf, CellUndo;
    if n > 0 {
      var i := n - 1;
      var c, u := CellOf(accounts, k, b), us[i];
      TakeableRuns(accounts, us, k, b, i);
      if u.TakeBack? && u.k == k && u.a == b {
        assert Takeable(accounts, us, i);
        CellIs(accounts, k, b);
        WordBalance(accounts, k, b);
        if DropAccount(k) in us[..i] {
          CellGone(c, us[..i], k, b);
        } else {
          CellGains(c, us[..i], k, b);
          GainsSplit(us[..i], k, b);
          TakenSoFar(us, i);
          GivenSoFar(us, i, k, b);
        }
      }
      forall j | 0 <= j < n && us[..n][j].TakeBack? && us[..n][j].k == k && us[..n][j].a == b
        ensures !Throws(CellUndos(c, us[..n][..j], k, b), us[..n][j])
      {
        assert us[..n][..j] == us[..j];
        if j < i { assert us[..i][..j] == us[..j] && us[..i][j] == us[j]; }
      }
    }
  }

  lemma {:induction false} CellGone(c: Cell, us: seq<Undo>, k: Address, b: Asset)
    requires c.Gone? || DropAccount(k) in us
    ensures CellUndos(c, us, k, b).Gone?
  {
    if us != [] {
      var init, u := us[..|us| - 1], us[|us| - 1];
      assert us == init + [u];
      if c.Gone? || u != DropAccount(k) { CellGone(c, init, k, b); }
    }
  }

  lemma RecordsRun(accounts: map<Address, Account>, us: seq<Undo>)
    requires WordBalances(accounts) && WordUndos(us) && Runnable(accounts, us)
    ensures RunThrough(accounts, us)
  {
    hide WordBalances, WordUndos, Runnable, CellOf, CellUndos, Throws;
    assert us[..|us|] == us;
    forall i | 0 <= i < |us|
      ensures !Stops(accounts, us, i)
    {
      if us[i].TakeBack? { TakeableRuns(accounts, us, us[i].k, us[i].a, |us|); }
    }
  }

  // What an account is given in all.
  function Received(txs: seq<Transaction>, k: Address, b: Asset): nat {
    if txs == [] then 0 else Received(txs[..|txs| - 1], k, b) + Gives(txs[|txs| - 1], k, b)
  }

  lemma {:induction false} NetParts(accounts: map<Address, Account>, txs: seq<Transaction>, k: Address, b: Asset)
    ensures Net(accounts, txs, k, b) == BalanceAt(accounts, k, b) + Received(txs, k, b) - Spent(txs, k, b)
  {
    if txs != [] { NetParts(accounts, txs[..|txs| - 1], k, b); }
  }

  lemma {:induction false} OutRecordsBack(accounts: map<Address, Account>, a: Asset, outs: seq<Out>, k: Address,
      b: Asset)
    requires k in accounts
    ensures TakenBack(OutRecords(accounts, a, outs), k, b) == if a == b then PaidTo(outs, k) else 0
    ensures GivenBack(OutRecords(accounts, a, outs), k, b) == 0
  {
    if outs != [] {
      OutRecordsBack(accounts, a, outs[..|outs| - 1], k, b);
      var us := OutRecords(accounts, a, outs);
      assert us[..|us| - 1] == OutRecords(accounts, a, outs[..|outs| - 1]);
    }
  }

  lemma OneBack(u: Undo, k: Address, b: Asset)
    ensures TakenBack([u], k, b) == if u.TakeBack? && u.k == k && u.a == b then u.n else 0
    ensures GivenBack([u], k, b) == if u.GiveBack? && u.k == k && u.a == b then u.n else 0
    ensures TakenBack([], k, b) == 0 && GivenBack([], k, b) == 0
  {
    assert [u][..0] == [];
  }

  lemma RecordBack(accounts: map<Address, Account>, tx: Transaction, k: Address, b: Asset)
    requires k in accounts && !tx.Establish?
    ensures TakenBack(Record(accounts, tx), k, b) == Gives(tx, k, b)
    ensures GivenBack(Record(accounts, tx), k, b) == Takes(tx, k, b)
  {
    hide PaidTo, OutRecords, TakenBack, GivenBack;
    if tx.Append? {
      var first := GiveBack(tx.sender, tx.asset, tx.count);
      OneBack(first, k, b);
      OutRecordsBack(accounts, tx.asset, tx.outs, k, b);
      BackJoin([first], OutRecords(accounts, tx.asset, tx.outs), k, b);
    } else {
      OneBack(DropAccount(k), k, b);
    }
  }

  lemma {:induction false} RecordsBack(places: Places, s: Books, txs: seq<Transaction>, k: Address, b: Asset)
    requires k in s.accounts && ApplyTxs(places, s, txs).Some? && forall i :: 0 <= i < |txs| ==> !txs[i].Establish?
    ensures TakenBack(Records(places, s, txs), k, b) == Received(txs, k, b)
    ensures GivenBack(Records(places, s, txs), k, b) == Spent(txs, k, b)
  {
    hide ApplyTx, Takes, Gives, Record, TakenBack, GivenBack;
    if txs == [] {
      OneBack(DropAccount(k), k, b);
    } else {
      var init, tx := txs[..|txs| - 1], txs[|txs| - 1];
      RecordsBack(places, s, init, k, b);
      AccountsStay(places, s, init, k);
      var mid := ApplyTxs(places, s, init).value;
      RecordBack(mid.accounts, tx, k, b);
      BackJoin(Records(places, s, init), Record(mid.accounts, tx), k, b);
    }
  }

  lemma {:induction false} AffairsTakeNothing(accounts: map<Address, Account>, airs: seq<Affair>, k: Address, b: Asset)
    ensures TakenBack(AffairRecords(accounts, airs), k, b) == GivenBack(AffairRecords(accounts, airs), k, b) == 0
    ensures forall i :: 0 <= i < |AffairRecords(accounts, airs)| ==> !AffairRecords(accounts, airs)[i].TakeBack?
  {
    hide TakenBack, GivenBack;
    OneBack(DropAccount(k), k, b);
    if airs != [] {
      var init := airs[..|airs| - 1];
      AffairsTakeNothing(accounts, init, k, b);
      var us := AffairRecord(ApplyAffairs(accounts, init), airs[|airs| - 1]);
      BackJoin(AffairRecords(accounts, init), us, k, b);
      if us != [] { OneBack(us[0], k, b); }
    }
  }

  predicate PositiveOuts(outs: seq<Out>) {
    forall i :: 0 <= i < |outs| ==> outs[i].count > 0
  }

  lemma {:induction false} OutRecordsTake(accounts: map<Address, Account>, a: Asset, outs: seq<Out>, i: nat)
    requires PositiveOuts(outs) && i < |OutRecords(accounts, a, outs)| && OutRecords(accounts, a, outs)[i].TakeBack?
    ensures var u := OutRecords(accounts, a, outs)[i]; u.k in accounts && u.n > 0
  {
    if i < |OutRecords(accounts, a, outs[..|outs| - 1])| { OutRecordsTake(accounts, a, outs[..|outs| - 1], i); }
  }

  // What is taken back is taken from an account that was there, or from one
  // that an earlier record drops.
  lemma {:induction false} RecordsTake(places: Places, s: Books, txs: seq<Transaction>, i: nat)
    requires ApplyTxs(places, s, txs).Some? && i < |Records(places, s, txs)| && Records(places, s, txs)[i].TakeBack?
    requires forall j :: 0 <= j < |txs| && txs[j].Append? ==> PositiveOuts(txs[j].outs)
    ensures var us := Records(places, s, txs);
      us[i].n > 0 && (us[i].k in s.accounts || DropAccount(us[i].k) in us[..i])
  {
    hide ApplyTx, PositiveOuts, Record;
    var init, tx := txs[..|txs| - 1], txs[|txs| - 1];
    var before, us := Records(places, s, init), Records(places, s, txs);
    if i < |before| {
      RecordsTake(places, s, init, i);
      assert us[..i] == before[..i];
    } else {
      var mid := ApplyTxs(places, s, init).value;
      RecordTakes(mid.accounts, tx, i - |before|);
      var k := us[i].k;
      NewIsRecorded(places, s, init, k);
      assert before <= us[..i];
      if DropAccount(k) in before { InLonger(before, us[..i], DropAccount(k)); }
    }
  }

  lemma RecordTakes(accounts: map<Address, Account>, tx: Transaction, i: nat)
    requires i < |Record(accounts, tx)| && Record(accounts, tx)[i].TakeBack?
    requires tx.Append? ==> PositiveOuts(tx.outs)
    ensures var u := Record(accounts, tx)[i]; u.k in accounts && u.n > 0
  {
    hide OutRecords, PositiveOuts;
    if tx.Append? { OutRecordsTake(accounts, tx.asset, tx.outs, i - 1); }
  }

  lemma InLonger(us: seq<Undo>, vs: seq<Undo>, u: Undo)
    requires us <= vs && u in us
    ensures u in vs
  {
  }

  // A block of payments: outputs are positive, and for every account what it
  // spends, and what it had with what it receives, fits in 64 bits.
  ghost predicate Payments(accounts: map<Address, Account>, txs: seq<Transaction>) {
    && (forall i :: 0 <= i < |txs| ==> txs[i].Append? && PositiveOuts(txs[i].outs))
    && (forall k, b :: Spent(txs, k, b) < WORD && BalanceAt(accounts, k, b) + Received(txs, k, b) < WORD)
  }

  lemma {:induction false} NothingGranted(txs: seq<Transaction>, k: Address, b: Asset)
    requires forall i :: 0 <= i < |txs| ==> !txs[i].Establish?
    ensures Granted(txs, k, b) == 0
  {
    if txs != [] { NothingGranted(txs[..|txs| - 1], k, b); }
  }

  // The records of a checked block of payments run.
  lemma PaymentsRun(places: Places, s: Books, blk: Block)
    requires WordBalances(s.accounts) && WordTxs(blk.transactions) && CheckBody(places, s, blk)
    requires Payments(s.accounts, blk.transactions) && ApplyBlock(places, s, blk).Some?
    ensures MismatchRuns(places, s, blk)
  {
    hide WordBalances, WordTxs, CheckBody, BalanceAt, Spares, Received, Spent, Granted, Net, ApplyTxs, Records,
         AffairRecords,
         ApplyAffairs, TakenBack, GivenBack, PositiveOuts, Takeable, WordUndos, Gains, Grants;
    var txs, airs := blk.transactions, blk.affairs;
    var t := ApplyTxs(places, s, txs).value;
    var all, us, vs := ApplyAffairs(t.accounts, airs), Records(places, s, txs), AffairRecords(t.accounts, airs);
    var ws: seq<Undo> := us + vs;
    forall i | 0 <= i < |ws| && ws[i].TakeBack?
      ensures Takeable(all, ws, i)
    {
      AffairsTakeNothing(t.accounts, airs, ws[i].k, ws[i].a);
      assert i < |us| && ws[..i] == us[..i];
      RecordsTake(places, s, txs, i);
      if ws[i].k in s.accounts { PaymentTakeable(places, s, blk, i); } else { DroppedTakeable(all, ws, i); }
    }
    WordRecords(places, s, txs);
    WordAffairRecords(t.accounts, airs);
    WordJoin(us, vs);
    AllWord(places, s, blk);
    RecordsRun(all, ws);
  }

  lemma DroppedTakeable(accounts: map<Address, Account>, us: seq<Undo>, i: nat)
    requires i < |us| && us[i].TakeBack? && DropAccount(us[i].k) in us[..i]
    ensures Takeable(accounts, us, i)
  {
  }

  lemma PaymentTakeable(places: Places, s: Books, blk: Block, i: nat)
    requires WordBalances(s.accounts) && WordTxs(blk.transactions) && CheckBody(places, s, blk)
    requires Payments(s.accounts, blk.transactions) && ApplyBlock(places, s, blk).Some?
    requires var us := Records(places, s, blk.transactions);
        i < |us| && us[i].TakeBack? && us[i].k in s.accounts && us[i].n > 0
    ensures var t := ApplyTxs(places, s, blk.transactions).value;
      var us, vs := Records(places, s, blk.transactions), AffairRecords(t.accounts, blk.affairs);
      Takeable(ApplyAffairs(t.accounts, blk.affairs), us + vs, i)
  {
    hide WordBalances, WordTxs, CheckBody, BalanceAt, Received, Spent, Granted, Net, ApplyTxs, Records, AffairRecords,
         ApplyAffairs, TakenBack, GivenBack, PositiveOuts, Gains;
    var txs := blk.transactions;
    var t := ApplyTxs(places, s, txs).value;
    var us, vs := Records(places, s, txs), AffairRecords(t.accounts, blk.affairs);
    var k, b := us[i].k, us[i].a;
    RunningBalances(places, s, txs, k, b);
    AccountsStay(places, s, txs, k);
    RecordsSpare(places, s, txs, k, b);
    AffairsStay(t.accounts, blk.affairs, k, b);
    AffairsTakeNothing(t.accounts, blk.affairs, k, b);
    RecordsBack(places, s, txs, k, b);
    BackJoin(us, vs, k, b);
    NetParts(s.accounts, txs, k, b);
    CheckedSpending(places, s, blk, k, b);
    NothingGranted(txs, k, b);
  }

  lemma {:induction false} RecordsSpare(places: Places, s: Books, txs: seq<Transaction>, k: Address, b: Asset)
    requires k in s.accounts && WordTxs(txs) && ApplyTxs(places, s, txs).Some?
    requires forall i :: 0 <= i < |txs| ==> !txs[i].Establish?
    ensures Spares(Records(places, s, txs), k, b)
  {
    hide WordTxs, ApplyTx, Record;
    if txs != [] {
      var init, tx := txs[..|txs| - 1], txs[|txs| - 1];
      WordParts(txs);
      RecordsSpare(places, s, init, k, b);
      AccountsStay(places, s, init, k);
      RecordGain(ApplyTxs(places, s, init).value.accounts, tx, k, b);
    }
  }

  lemma {:induction false} WordRecords(places: Places, s: Books, txs: seq<Transaction>)
    requires ApplyTxs(places, s, txs).Some? && WordTxs(txs)
    ensures WordUndos(Records(places, s, txs))
  {
    hide ApplyTx;
    if txs != [] {
      var init, tx := txs[..|txs| - 1], txs[|txs| - 1];
      WordRecords(places, s, init);
      var mid := ApplyTxs(places, s, init).value;
      if tx.Append? { WordOutRecords(mid.accounts, tx.asset, tx.outs); }
    }
  }

  lemma {:induction false} WordOutRecords(accounts: map<Address, Account>, a: Asset, outs: seq<Out>)
    requires WordOuts(outs)
    ensures WordUndos(OutRecords(accounts, a, outs))
  {
    if outs != [] { WordOutRecords(accounts, a, outs[..|outs| - 1]); }
  }

  lemma {:induction false} WordAffairRecords(accounts: map<Address, Account>, airs: seq<Affair>)
    ensures WordUndos(AffairRecords(accounts, airs))
  {
    if airs != [] { WordAffairRecords(accounts, airs[..|airs| - 1]); }
  }

  lemma WordJoin(us: seq<Undo>, vs: seq<Undo>)
    requires WordUndos(us) && WordUndos(vs)
    ensures WordUndos(us + vs)
  {
  }

  lemma {:induction false} AffairsWord(accounts: map<Address, Account>, airs: seq<Affair>)
    requires WordBalances(accounts)
    ensures WordBalances(ApplyAffairs(accounts, airs))
  {
    if airs != [] { AffairsWord(accounts, airs[..|airs| - 1]); }
  }

  lemma AllWord(places: Places, s: Books, blk: Block)
    requires WordBalances(s.accounts) && WordTxs(blk.transactions) && ApplyBlock(places, s, blk).Some?
    ensures WordBalances(ApplyAffairs(ApplyTxs(places, s, blk.transactions).value.accounts, blk.affairs))
  {
    hide WordBalances, WordTxs, ApplyTxs, ApplyAffairs;
    RunningBalances(places, s, blk.transactions, 0, 0);
    AffairsWord(ApplyTxs(places, s, blk.transactions).value.accounts, blk.affairs);
  }
}
