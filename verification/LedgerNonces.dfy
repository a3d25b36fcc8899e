/**
 * Nonces along a chain: which ones a block of the chain uses, what it leaves in
 * the account, and when a nonce is used twice.
 */
module LedgerNonces {
  import opened Options
  import opened BloomFilter
  import opened Receipts
  import opened Ledger
  import opened LedgerSupply
  import opened LedgerFunds
  import opened LedgerUndo

  function NonceAt(accounts: map<Address, Account>, k: Address): nat {
    if k in accounts then accounts[k].nonce else 0
  }

  // ---- The nonces a block uses -------------------------------------------

  function TxUses(txs: seq<Transaction>, k: Address): seq<nat> {
    if txs == [] then []
    else TxUses(txs[..|txs| - 1], k) + if txs[|txs| - 1].sender == k then [txs[|txs| - 1].nonce] else []
  }

  function AffairUses(airs: seq<Affair>, k: Address): seq<nat> {
    if airs == [] then []
    else
      var air := airs[|airs| - 1];
      AffairUses(airs[..|airs| - 1], k) + if air.dbLevel && air.owner == k then [air.nonce] else []
  }

  function Uses(blk: Block, k: Address): seq<nat> {
    TxUses(blk.transactions, k) + AffairUses(blk.affairs, k)
  }

  // The receipt of a sender lists the nonces it uses.
  predicate Listed(accounts: map<Address, Account>, slips: map<Address, Slip>, k: Address, nonces: seq<nat>) {
    if k in slips then slips[k].start == NonceAt(accounts, k) && slips[k].nonces == nonces else nonces == []
  }

  lemma TxListed(places: Places, accounts: map<Address, Account>, d: Draft, tx: Transaction, k: Address,
      nonces: seq<nat>)
    requires CheckTx(places, accounts, d, tx).Some? && Listed(accounts, d.slips, k, nonces)
    ensures Listed(accounts, CheckTx(places, accounts, d, tx).value.slips, k,
      nonces + if tx.sender == k then [tx.nonce] else [])
  {
    hide Positive, With, OutSum;
  }

  lemma {:induction false} TxsListed(places: Places, accounts: map<Address, Account>, filter: Bits,
      txs: seq<Transaction>, k: Address)
    requires CheckTxs(places, accounts, filter, txs).Some?
    ensures Listed(accounts, CheckTxs(places, accounts, filter, txs).value.slips, k, TxUses(txs, k))
  {
    hide CheckTx;
    if txs != [] {
      var init := txs[..|txs| - 1];
      TxsListed(places, accounts, filter, init, k);
      TxListed(places, accounts, CheckTxs(places, accounts, filter, init).value, txs[|txs| - 1], k, TxUses(init, k));
    }
  }

  lemma {:induction false} AffairsListed(accounts: map<Address, Account>, slips: map<Address, Slip>, airs: seq<Affair>,
      k: Address, nonces: seq<nat>)
    requires Listed(accounts, slips, k, nonces)
    ensures Listed(accounts, CheckAffairs(accounts, slips, airs), k, nonces + AffairUses(airs, k))
  {
    if airs == [] {
      assert nonces + [] == nonces;
    } else {
      var init := airs[..|airs| - 1];
      AffairsListed(accounts, slips, init, k, nonces);
      var before, all := AffairUses(init, k), AffairUses(airs, k);
      assert nonces + all == (nonces + before) + all[|before|..];
    }
  }

  // A checked block uses, in some order, the nonces after the account's own.
  lemma CheckedUses(places: Places, s: Books, blk: Block, k: Address)
    requires CheckBody(places, s, blk)
    ensures Consecutive(NonceAt(s.accounts, k), Uses(blk, k))
  {
    hide CheckTxs, CheckAffairs, Affordable, Consecutive;
    var d := CheckTxs(places, s.accounts, s.filter, blk.transactions).value;
    TxsListed(places, s.accounts, s.filter, blk.transactions, k);
    AffairsListed(s.accounts, d.slips, blk.affairs, k, TxUses(blk.transactions, k));
    var slips := CheckAffairs(s.accounts, d.slips, blk.affairs);
    if k in slips { assert SlipOk(slips[k]); } else { NoneConsecutive(NonceAt(s.accounts, k)); }
  }

  lemma NoneConsecutive(start: nat)
    ensures Consecutive(start, [])
  {
  }

  lemma UsesRange(start: nat, nonces: seq<nat>, x: nat)
    requires Consecutive(start, nonces) && start + 1 < WORD
    ensures x in nonces <==> start < x <= start + |nonces|
  {
    var counted := Counting(start + 1, |nonces|);
    SameElements(nonces, counted, x);
    if start < x <= start + |nonces| { assert counted[x - start - 1] == x; }
  }

  // ---- The nonce a block leaves ------------------------------------------

  datatype Track = Track(known: bool, nonce: nat)

  // An Append sets the nonce past its own; an Establish leaves it, and gives a
  // new account the nonce one.
  function TrackTx(t: Track, tx: Transaction, k: Address): Track {
    if tx.sender == k && tx.Append? then Track(true, Wrap(tx.nonce + 1))
    else if tx.sender == k && tx.Establish? then (if t.known then t else Track(true, 1))
    else if tx.Append? && Pays(tx.outs, k) then t.(known := true)
    else t
  }

  function TrackTxs(accounts: map<Address, Account>, txs: seq<Transaction>, k: Address): Track {
    if txs == [] then Track(k in accounts, NonceAt(accounts, k))
    else TrackTx(TrackTxs(accounts, txs[..|txs| - 1], k), txs[|txs| - 1], k)
  }

  lemma {:induction false} PayOutsNonce(accounts: map<Address, Account>, a: Asset, outs: seq<Out>, k: Address)
    ensures NonceAt(PayOuts(accounts, a, outs), k) == NonceAt(accounts, k)
    ensures k in PayOuts(accounts, a, outs) <==> k in accounts || Pays(outs, k)
  {
    if outs != [] {
      PayOutsNonce(accounts, a, outs[..|outs| - 1], k);
      PaysStep(outs, k);
    }
  }

  lemma TxTracked(places: Places, s: Books, tx: Transaction, k: Address)
    requires ApplyTx(places, s, tx).Some?
    ensures var r := ApplyTx(places, s, tx).value.accounts;
      Track(k in r, NonceAt(r, k)) == TrackTx(Track(k in s.accounts, NonceAt(s.accounts, k)), tx, k)
  {
    hide Positive, With, PayOuts, Pays;
    if tx.Append? {
      var reduced := ReduceBalance(s.accounts[tx.sender].(nonce := Wrap(tx.nonce + 1)), tx.asset, tx.count);
      PayOutsNonce(s.accounts[tx.sender := reduced.value], tx.asset, tx.outs, k);
    }
  }

  lemma {:induction false} TxsTracked(places: Places, s: Books, txs: seq<Transaction>, k: Address)
    requires ApplyTxs(places, s, txs).Some?
    ensures var r := ApplyTxs(places, s, txs).value.accounts;
      Track(k in r, NonceAt(r, k)) == TrackTxs(s.accounts, txs, k)
  {
    hide ApplyTx, TrackTx, NonceAt;
    if txs != [] {
      TxsTracked(places, s, txs[..|txs| - 1], k);
      TxTracked(places, ApplyTxs(places, s, txs[..|txs| - 1]).value, txs[|txs| - 1], k);
    }
  }

  lemma {:induction false} AffairsTracked(accounts: map<Address, Account>, airs: seq<Affair>, k: Address)
    requires NonceAt(accounts, k) + |AffairUses(airs, k)| < WORD
    ensures NonceAt(ApplyAffairs(accounts, airs), k) == NonceAt(accounts, k) + |AffairUses(airs, k)|
  {
    if airs != [] { AffairsTracked(accounts, airs[..|airs| - 1], k); }
  }

  // The nonce after a block: that after its transactions, plus one for every
  // affair.
  lemma BlockNonce(places: Places, s: Books, blk: Block, k: Address)
    requires ApplyBlock(places, s, blk).Some?
    requires TrackTxs(s.accounts, blk.transactions, k).nonce + |AffairUses(blk.affairs, k)| < WORD
    ensures NonceAt(ApplyBlock(places, s, blk).value.accounts, k)
         == TrackTxs(s.accounts, blk.transactions, k).nonce + |AffairUses(blk.affairs, k)|
  {
    hide ApplyTxs, ApplyAffairs, TrackTxs, AffairUses;
    TxsTracked(places, s, blk.transactions, k);
    AffairsTracked(ApplyTxs(places, s, blk.transactions).value.accounts, blk.affairs, k);
  }

  lemma {:induction false} TrackBounds(accounts: map<Address, Account>, txs: seq<Transaction>, k: Address, most: nat)
    requires NonceAt(accounts, k) <= most && most + 1 < WORD
    requires forall x :: x in TxUses(txs, k) ==> NonceAt(accounts, k) < x <= most
    ensures NonceAt(accounts, k) <= TrackTxs(accounts, txs, k).nonce <= most + 1
    ensures TxUses(txs, k) == [] ==> TrackTxs(accounts, txs, k).nonce == NonceAt(accounts, k)
    ensures !TrackTxs(accounts, txs, k).known ==> k !in accounts
  {
    hide Pays;
    if txs != [] {
      var init, tx := txs[..|txs| - 1], txs[|txs| - 1];
      assert forall x :: x in TxUses(init, k) ==> x in TxUses(txs, k);
      TrackBounds(accounts, init, k, most);
      if tx.sender == k {
        assert tx.nonce == TxUses(txs, k)[|TxUses(txs, k)| - 1];
        assert tx.nonce in TxUses(txs, k);
      }
    }
  }

  // ---- Chains ------------------------------------------------------------

  // Far enough below 2^64 for nothing to wrap.
  predicate SmallNonces(s: Books, blk: Block, k: Address) {
    NonceAt(s.accounts, k) + 2 * |Uses(blk, k)| + 1 < WORD
  }

  // The block leaves a nonce that is not below any it used.
  predicate Advances(s: Books, s': Books, blk: Block, k: Address) {
    NonceAt(s'.accounts, k) >= NonceAt(s.accounts, k) + |Uses(blk, k)|
  }

  lemma LeftBound(places: Places, s: Books, blk: Block, k: Address)
    requires CheckBody(places, s, blk) && SmallNonces(s, blk, k)
    ensures var left := TrackTxs(s.accounts, blk.transactions, k).nonce;
      && NonceAt(s.accounts, k) <= left && left + |AffairUses(blk.affairs, k)| < WORD
      && (TxUses(blk.transactions, k) == [] ==> left == NonceAt(s.accounts, k))
  {
    hide CheckBody, TrackTxs, TxUses, AffairUses, NonceAt, Consecutive;
    var n := NonceAt(s.accounts, k);
    CheckedUses(places, s, blk, k);
    forall x | x in TxUses(blk.transactions, k)
      ensures n < x <= n + |Uses(blk, k)|
    {
      UsesRange(n, Uses(blk, k), x);
    }
    TrackBounds(s.accounts, blk.transactions, k, n + |Uses(blk, k)|);
  }

  // The nonce never goes back, and stays where it is when it is not used.
  lemma BlockKeepsNonce(places: Places, s: Books, blk: Block, k: Address)
    requires CheckBody(places, s, blk) && ApplyBlock(places, s, blk).Some? && SmallNonces(s, blk, k)
    ensures var s' := ApplyBlock(places, s, blk).value;
      && NonceAt(s.accounts, k) <= NonceAt(s'.accounts, k)
      && NonceAt(s'.accounts, k) == TrackTxs(s.accounts, blk.transactions, k).nonce + |AffairUses(blk.affairs, k)|
      && (Uses(blk, k) == [] ==> NonceAt(s'.accounts, k) == NonceAt(s.accounts, k))
  {
    hide CheckBody, ApplyBlock, TrackTxs, TxUses, AffairUses, NonceAt;
    LeftBound(places, s, blk, k);
    BlockNonce(places, s, blk, k);
  }

  // A block advances the nonce past what it used if and only if its
  // transactions leave a nonce that is at least the number of them past the
  // account's own.
  lemma AdvancesExact(places: Places, s: Books, blk: Block, k: Address)
    requires CheckBody(places, s, blk) && ApplyBlock(places, s, blk).Some? && SmallNonces(s, blk, k)
    ensures Advances(s, ApplyBlock(places, s, blk).value, blk, k) <==>
      TrackTxs(s.accounts, blk.transactions, k).nonce >= NonceAt(s.accounts, k) + |TxUses(blk.transactions, k)|
  {
    hide CheckBody, ApplyBlock, TrackTxs, NonceAt;
    BlockKeepsNonce(places, s, blk, k);
  }

  ghost predicate SmallChain(books: seq<Books>, blocks: seq<Block>, k: Address) {
    |books| == |blocks| + 1 && forall i :: 0 <= i < |blocks| ==> SmallNonces(books[i], blocks[i], k)
  }

  // No two blocks use the same nonce of an account.
  ghost predicate NeverTwice(blocks: seq<Block>, k: Address) {
    forall i, j, x :: 0 <= i < j < |blocks| && x in Uses(blocks[i], k) ==> x !in Uses(blocks[j], k)
  }

  ghost predicate Active(blocks: seq<Block>, k: Address, i: nat)
    requires i < |blocks|
  {
    Uses(blocks[i], k) != []
  }

  // If both blocks use a nonce, the first advances.
  ghost predicate Passes(books: seq<Books>, blocks: seq<Block>, k: Address, i: nat, j: nat)
    requires |books| == |blocks| + 1 && i < |blocks| && j < |blocks|
  {
    Active(blocks, k, i) && Active(blocks, k, j) ==> Advances(books[i], books[i + 1], blocks[i], k)
  }

  // Every block that uses a nonce and is followed by another that does advances.
  ghost predicate AllAdvance(books: seq<Books>, blocks: seq<Block>, k: Address)
    requires |books| == |blocks| + 1
  {
    forall i, j :: 0 <= i < j < |blocks| ==> Passes(books, blocks, k, i, j)
  }

  lemma ChainBlock(places: Places, books: seq<Books>, blocks: seq<Block>, i: nat, k: Address)
    requires IsChain(places, books, blocks) && SmallChain(books, blocks, k) && i < |blocks|
    ensures CheckBody(places, books[i], blocks[i]) && ApplyBlock(places, books[i], blocks[i]) == Some(books[i + 1])
    ensures SmallNonces(books[i], blocks[i], k)
    ensures var n, n' := NonceAt(books[i].accounts, k), NonceAt(books[i + 1].accounts, k);
      n <= n' && (!Active(blocks, k, i) ==> n == n')
  {
    hide CheckBody, ApplyBlock, NonceAt, Uses;
    assert CheckBody(places, books[i], blocks[i]) && ApplyBlock(places, books[i], blocks[i]) == Some(books[i + 1]);
    assert SmallNonces(books[i], blocks[i], k);
    BlockKeepsNonce(places, books[i], blocks[i], k);
  }

  lemma ChainUses(places: Places, books: seq<Books>, blocks: seq<Block>, i: nat, k: Address, x: nat)
    requires IsChain(places, books, blocks) && SmallChain(books, blocks, k) && i < |blocks|
    ensures x in Uses(blocks[i], k) <==>
      NonceAt(books[i].accounts, k) < x <= NonceAt(books[i].accounts, k) + |Uses(blocks[i], k)|
  {
    hide IsChain, SmallChain, NonceAt, Uses, Consecutive, CheckBody, ApplyBlock;
    ChainLength(places, books, blocks, k);
    ChainBlock(places, books, blocks, i, k);
    CheckedUses(places, books[i], blocks[i], k);
    UsesRange(NonceAt(books[i].accounts, k), Uses(blocks[i], k), x);
  }

  lemma {:induction false} LaterIsHigher(places: Places, books: seq<Books>, blocks: seq<Block>, i: nat, j: nat,
      k: Address)
    requires IsChain(places, books, blocks) && SmallChain(books, blocks, k) && i <= j <= |blocks|
    ensures NonceAt(books[i].accounts, k) <= NonceAt(books[j].accounts, k)
    ensures (forall m :: i <= m < j ==> !Active(blocks, k, m)) ==>
      NonceAt(books[i].accounts, k) == NonceAt(books[j].accounts, k)
  {
    hide IsChain, SmallChain, NonceAt, Active;
    if i < j {
      ChainLength(places, books, blocks, k);
      LaterIsHigher(places, books, blocks, i, j - 1, k);
      ChainBlock(places, books, blocks, j - 1, k);
    }
  }

  lemma ChainLength(places: Places, books: seq<Books>, blocks: seq<Block>, k: Address)
    requires SmallChain(books, blocks, k)
    ensures |books| == |blocks| + 1
  {
  }

  lemma {:induction false} NextActive(blocks: seq<Block>, k: Address, i: nat, j: nat) returns (m: nat)
    requires i < j < |blocks| && Active(blocks, k, j)
    ensures i < m <= j && Active(blocks, k, m) && forall l :: i < l < m ==> !Active(blocks, k, l)
    decreases j - i
  {
    hide Active;
    if Active(blocks, k, i + 1) {
      m := i + 1;
    } else {
      m := NextActive(blocks, k, i + 1, j);
    }
  }

  lemma BlocksApart(places: Places, books: seq<Books>, blocks: seq<Block>, k: Address, i: nat, j: nat, x: nat)
    requires IsChain(places, books, blocks) && SmallChain(books, blocks, k) && i < j < |blocks|
    requires Advances(books[i], books[i + 1], blocks[i], k) && x in Uses(blocks[i], k)
    ensures x !in Uses(blocks[j], k)
  {
    hide IsChain, SmallChain, NonceAt, Uses, Active;
    ChainUses(places, books, blocks, i, k, x);
    ChainUses(places, books, blocks, j, k, x);
    LaterIsHigher(places, books, blocks, i + 1, j, k);
  }

  lemma BlocksMeet(places: Places, books: seq<Books>, blocks: seq<Block>, k: Address, i: nat, j: nat)
    returns (m: nat, x: nat)
    requires IsChain(places, books, blocks) && SmallChain(books, blocks, k) && i < j < |blocks|
    requires !Advances(books[i], books[i + 1], blocks[i], k) && Active(blocks, k, j)
    ensures i < m < |blocks| && x in Uses(blocks[i], k) && x in Uses(blocks[m], k)
  {
    hide IsChain, SmallChain, NonceAt, Uses;
    ChainLength(places, books, blocks, k);
    m := NextActive(blocks, k, i, j);
    x := NonceAt(books[m].accounts, k) + 1;
    ChainUses(places, books, blocks, i, k, x);
    ChainUses(places, books, blocks, m, k, x);
    ChainBlock(places, books, blocks, i, k);
    LaterIsHigher(places, books, blocks, i + 1, m, k);
  }

  // Along every accepted chain whose nonces stay below the wrap, an account's
  // nonces are never used twice if and only if every block that uses some of
  // them, and is not the last to do so, advances.
  lemma NoncesNeverRepeat(places: Places, books: seq<Books>, blocks: seq<Block>, k: Address)
    requires IsChain(places, books, blocks) && SmallChain(books, blocks, k)
    ensures |books| == |blocks| + 1
    ensures NeverTwice(blocks, k) <==> AllAdvance(books, blocks, k)
  {
    hide IsChain, SmallChain, AllAdvance, Uses;
    ChainLength(places, books, blocks, k);
    if AllAdvance(books, blocks, k) {
      AdvancingIsEnough(places, books, blocks, k);
    } else {
      var i, j, x := AdvancingIsNeeded(places, books, blocks, k);
    }
  }

  lemma AdvancingIsEnough(places: Places, books: seq<Books>, blocks: seq<Block>, k: Address)
    requires IsChain(places, books, blocks) && SmallChain(books, blocks, k) && |books| == |blocks| + 1
    requires AllAdvance(books, blocks, k)
    ensures NeverTwice(blocks, k)
  {
    hide IsChain, SmallChain, Uses, Advances;
    forall i, j, x | 0 <= i < j < |blocks| && x in Uses(blocks[i], k)
      ensures x !in Uses(blocks[j], k)
    {
      if Active(blocks, k, j) {
        assert Active(blocks, k, i) && Passes(books, blocks, k, i, j);
        BlocksApart(places, books, blocks, k, i, j, x);
      }
    }
  }

  lemma AdvancingIsNeeded(places: Places, books: seq<Books>, blocks: seq<Block>, k: Address)
    returns (i: nat, j: nat, x: nat)
    requires IsChain(places, books, blocks) && SmallChain(books, blocks, k) && |books| == |blocks| + 1
    requires !AllAdvance(books, blocks, k)
    ensures i < j < |blocks| && x in Uses(blocks[i], k) && x in Uses(blocks[j], k)
  {
    hide IsChain, SmallChain, Uses, Advances, Active;
    i, j :| 0 <= i < j < |blocks| && !Passes(books, blocks, k, i, j);
    j, x := BlocksMeet(places, books, blocks, k, i, j);
  }

  // ---- A nonce used twice ------------------------------------------------

  // A known sender can establish asset after asset with one and the same nonce.
  lemma EstablishKeepsNonce(places: Places, s: Books, k: Address, a: Asset)
    requires k in s.accounts && s.accounts[k].nonce + 3 < WORD && !Positive(places, s.filter, a)
    ensures var n := s.accounts[k].nonce;
      var blk := TxBlock([Establish(k, a, n + 1)]);
      && CheckBody(places, s, blk) && ApplyBlock(places, s, blk).Some?
      && var s' := ApplyBlock(places, s, blk).value;
         k in s'.accounts && s'.accounts[k].nonce == n && !Advances(s, s', blk, k)
           && s'.filter == With(places, s.filter, a)
  {
    hide Positive, With, SlipOk;
    var n := s.accounts[k].nonce;
    var tx := Establish(k, a, n + 1);
    CheckOne(places, s.accounts, s.filter, tx);
    ApplyOne(places, s, tx);
    assert Counting(n + 1, 1) == [n + 1];
    GoodEstablish(n, a);
    assert [] + [n + 1] == [n + 1];
    assert [tx][..0] == [] && TxUses([tx], k) == [n + 1];
  }

  lemma GoodEstablish(n: nat, a: Asset)
    requires n + 3 < WORD
    ensures SlipOk(Slip(n, [n + 1], map[][a := (ASSET_MAX_COUNT, 0)]))
  {
    assert Counting(n + 1, 1) == [n + 1];
  }

  // Two such blocks in a row.
  lemma NonceUsedTwice(places: Places, s: Books, k: Address, a: Asset, b: Asset)
    requires k in s.accounts && s.accounts[k].nonce + 3 < WORD
    requires !Positive(places, s.filter, a) && !Positive(places, With(places, s.filter, a), b)
    ensures var n := s.accounts[k].nonce;
      var first, second := TxBlock([Establish(k, a, n + 1)]), TxBlock([Establish(k, b, n + 1)]);
      && CheckBody(places, s, first) && ApplyBlock(places, s, first).Some?
      && CheckBody(places, ApplyBlock(places, s, first).value, second)
      && ApplyBlock(places, ApplyBlock(places, s, first).value, second).Some?
  {
    hide CheckBody, ApplyBlock, Positive, With, Advances;
    EstablishKeepsNonce(places, s, k, a);
    EstablishKeepsNonce(places, ApplyBlock(places, s, TxBlock([Establish(k, a, s.accounts[k].nonce + 1)])).value, k, b);
  }

  // ---- A block that is undone --------------------------------------------

  // Whether a record lowers the nonce of an account.
  predicate Lowers(u: Undo, k: Address) {
    u.k == k && (u.GiveBack? || u.DropAsset? || u.LowerNonce?)
  }

  function Lowerings(us: seq<Undo>, k: Address): nat {
    if us == [] then 0 else Lowerings(us[..|us| - 1], k) + if Lowers(us[|us| - 1], k) then 1 else 0
  }

  lemma {:induction false} LoweringsJoin(us: seq<Undo>, vs: seq<Undo>, k: Address)
    ensures Lowerings(us + vs, k) == Lowerings(us, k) + Lowerings(vs, k)
  {
    if vs == [] {
      assert us + vs == us;
    } else {
      var n := |vs| - 1;
      LoweringsJoin(us, vs[..n], k);
      assert (us + vs)[..|us + vs| - 1] == us + vs[..n];
    }
  }

  lemma {:induction false} UndoNonce(accounts: map<Address, Account>, us: seq<Undo>, k: Address)
    requires k in accounts && DropAccount(k) !in us && UndoAll(accounts, us).done && NonceAt(accounts, k) < WORD
    ensures var r := UndoAll(accounts, us).accounts;
      k in r && NonceAt(r, k) == Wrap(NonceAt(accounts, k) - Lowerings(us, k))
  {
    if us != [] {
      var init, u := us[..|us| - 1], us[|us| - 1];
      assert us == init + [u];
      UndoNonce(accounts, init, k);
      var before := NonceAt(accounts, k) - Lowerings(init, k);
      WrapSum(before, Wrap(before), -1);
    }
  }

  lemma {:induction false} OutRecordsLower(accounts: map<Address, Account>, a: Asset, outs: seq<Out>, k: Address)
    requires k in accounts
    ensures Lowerings(OutRecords(accounts, a, outs), k) == 0 && DropAccount(k) !in OutRecords(accounts, a, outs)
  {
    if outs != [] {
      OutRecordsLower(accounts, a, outs[..|outs| - 1], k);
      var us := OutRecords(accounts, a, outs);
      assert us[..|us| - 1] == OutRecords(accounts, a, outs[..|outs| - 1]);
    }
  }

  lemma OneLowering(u: Undo, k: Address)
    ensures Lowerings([u], k) == if Lowers(u, k) then 1 else 0
    ensures Lowerings([], k) == 0
  {
    assert [u][..0] == [];
  }

  lemma RecordLowers(accounts: map<Address, Account>, tx: Transaction, k: Address)
    requires k in accounts && !tx.NullOp?
    ensures Lowerings(Record(accounts, tx), k) == if tx.sender == k then 1 else 0
    ensures DropAccount(k) !in Record(accounts, tx)
  {
    hide Lowerings, OutRecords;
    if tx.Append? {
      var first, rest := GiveBack(tx.sender, tx.asset, tx.count), OutRecords(accounts, tx.asset, tx.outs);
      OneLowering(first, k);
      OutRecordsLower(accounts, tx.asset, tx.outs, k);
      LoweringsJoin([first], rest, k);
    } else {
      OneLowering(Record(accounts, tx)[0], k);
    }
  }

  lemma {:induction false} RecordsLower(places: Places, s: Books, txs: seq<Transaction>, k: Address)
    requires k in s.accounts && ApplyTxs(places, s, txs).Some? && forall i :: 0 <= i < |txs| ==> !txs[i].NullOp?
    ensures Lowerings(Records(places, s, txs), k) == |TxUses(txs, k)| && DropAccount(k) !in Records(places, s, txs)
  {
    hide ApplyTx, Record, Lowerings;
    if txs == [] {
      OneLowering(DropAccount(k), k);
    } else {
      var init, tx := txs[..|txs| - 1], txs[|txs| - 1];
      RecordsLower(places, s, init, k);
      AccountsStay(places, s, init, k);
      var mid := ApplyTxs(places, s, init).value;
      RecordLowers(mid.accounts, tx, k);
      LoweringsJoin(Records(places, s, init), Record(mid.accounts, tx), k);
    }
  }

  lemma {:induction false} AffairRecordsLower(accounts: map<Address, Account>, airs: seq<Affair>, k: Address)
    requires k in accounts
    ensures Lowerings(AffairRecords(accounts, airs), k) == |AffairUses(airs, k)|
    ensures DropAccount(k) !in AffairRecords(accounts, airs) && k in ApplyAffairs(accounts, airs)
  {
    hide Lowerings;
    OneLowering(DropAccount(k), k);
    if airs != [] {
      var init := airs[..|airs| - 1];
      AffairRecordsLower(accounts, init, k);
      var us := AffairRecord(ApplyAffairs(accounts, init), airs[|airs| - 1]);
      LoweringsJoin(AffairRecords(accounts, init), us, k);
      if us != [] { OneLowering(us[0], k); }
    }
  }

  // The nonce after a checked block has been undone for its root is the one its
  // transactions left less their number. So it is what it was if and only if
  // they left exactly their number more: one Append more and the nonce is too
  // high by one, since an Append sets it past its own.
  lemma UndoneNonce(places: Places, s: Books, blk: Block, k: Address)
    requires CheckBody(places, s, blk) && ApplyBlock(places, s, blk).Some? && SmallNonces(s, blk, k)
    requires k in s.accounts && MismatchRuns(places, s, blk)
    ensures var r := AfterMismatch(places, s, blk).accounts;
      var left, used := TrackTxs(s.accounts, blk.transactions, k).nonce, |TxUses(blk.transactions, k)|;
      && k in r && NonceAt(r, k) == Wrap(left - used)
      && (NonceAt(r, k) == NonceAt(s.accounts, k) <==> left == NonceAt(s.accounts, k) + used)
  {
    hide CheckBody, ApplyTxs, ApplyAffairs, TrackTxs, TxUses, AffairUses, NonceAt, Records, AffairRecords, Lowerings,
         UndoAll, RunThrough;
    UndoingEnds(places, s, blk);
    var t := ApplyTxs(places, s, blk.transactions).value;
    BlockKeepsNonce(places, s, blk, k);
    LeftBound(places, s, blk, k);
    BlockLowers(places, s, blk, k);
    UndoNonce(ApplyAffairs(t.accounts, blk.affairs),
              Records(places, s, blk.transactions) + AffairRecords(t.accounts, blk.affairs), k);
    WrapAt(TrackTxs(s.accounts, blk.transactions, k).nonce, |TxUses(blk.transactions, k)|, NonceAt(s.accounts, k));
  }

  lemma WrapAt(left: nat, used: nat, n: nat)
    requires n <= left < WORD && used < WORD && n + used < WORD
    ensures Wrap(left - used) == n <==> left == n + used
  {
  }

  lemma BlockLowers(places: Places, s: Books, blk: Block, k: Address)
    requires CheckBody(places, s, blk) && ApplyBlock(places, s, blk).Some? && k in s.accounts
    ensures var t := ApplyTxs(places, s, blk.transactions).value;
      var us := Records(places, s, blk.transactions) + AffairRecords(t.accounts, blk.affairs);
      && Lowerings(us, k) == |TxUses(blk.transactions, k)| + |AffairUses(blk.affairs, k)| && DropAccount(k) !in us
      && k in ApplyAffairs(t.accounts, blk.affairs)
  {
    hide CheckBody, ApplyTxs, ApplyAffairs, TxUses, AffairUses, Records, AffairRecords, Lowerings;
    var txs := blk.transactions;
    var t := ApplyTxs(places, s, txs).value;
    forall i | 0 <= i < |txs|
      ensures !txs[i].NullOp?
    {
      CheckedTxs(places, s, blk);
      CheckedSums(places, s.accounts, s.filter, txs, i);
    }
    AccountsStay(places, s, txs, k);
    RecordsLower(places, s, txs, k);
    AffairRecordsLower(t.accounts, blk.affairs, k);
    LoweringsJoin(Records(places, s, txs), AffairRecords(t.accounts, blk.affairs), k);
  }

  lemma CheckedTxs(places: Places, s: Books, blk: Block)
    requires CheckBody(places, s, blk)
    ensures CheckTxs(places, s.accounts, s.filter, blk.transactions).Some?
  {
  }

  // ---- A block that fails ------------------------------------------------

  lemma {:induction false} TrackSmall(accounts: map<Address, Account>, txs: seq<Transaction>, k: Address)
    requires NonceAt(accounts, k) < WORD
    ensures TrackTxs(accounts, txs, k).nonce < WORD
  {
    hide Pays;
    if txs != [] { TrackSmall(accounts, txs[..|txs| - 1], k); }
  }

  lemma ThrownNonce(accounts: map<Address, Account>, tx: Transaction, k: Address)
    ensures NonceAt(Thrown(accounts, tx), k) == NonceAt(accounts, k) && (k in Thrown(accounts, tx) <==> k in accounts)
  {
  }

  // The nonce after a block that has failed and been undone: the one the
  // transactions before left, less their number, and one less if the Append
  // that failed is the account's own.
  lemma FailedNonce(places: Places, s: Books, blk: Block, k: Address)
    requires CheckBody(places, s, blk) && ApplyBlock(places, s, blk).None? && FailureRuns(places, s, blk)
    requires k in s.accounts && NonceAt(s.accounts, k) < WORD
    ensures var r, n := AfterFailure(places, s, blk).accounts, Applied(places, s, blk.transactions);
      var done, tx := blk.transactions[..n], blk.transactions[n];
      && k in r
      && NonceAt(r, k) == Wrap(TrackTxs(s.accounts, done, k).nonce - |TxUses(done, k)|
                               - if tx.Append? && tx.sender == k then 1 else 0)
  {
    hide CheckBody, ApplyTx, ApplyTxs, TrackTxs, TxUses, NonceAt, Records, Record, Lowerings, UndoAll, RunThrough,
         Thrown;
    UndoingEnds(places, s, blk);
    var n := Applied(places, s, blk.transactions);
    var done, tx := blk.transactions[..n], blk.transactions[n];
    forall i | 0 <= i < |blk.transactions|
      ensures !blk.transactions[i].NullOp?
    {
      CheckedTxs(places, s, blk);
      CheckedSums(places, s.accounts, s.filter, blk.transactions, i);
    }
    var mid := ApplyTxs(places, s, done).value;
    TxsTracked(places, s, done, k);
    TrackSmall(s.accounts, done, k);
    AccountsStay(places, s, done, k);
    RecordsLower(places, s, done, k);
    RecordLowers(mid.accounts, tx, k);
    OneLowering(DropAccount(k), k);
    LoweringsJoin(Records(places, s, done), Kept(mid.accounts, tx), k);
    ThrownNonce(mid.accounts, tx, k);
    UndoNonce(FailureLeft(places, s, blk), FailureRecords(places, s, blk), k);
  }

  // Whatever happened between them, blocks that are refused included, two
  // checked blocks use a nonce of an account both if and only if the ranges
  // after the nonces they find overlap.
  lemma NonceShared(places: Places, s: Books, blk: Block, s': Books, blk': Block, k: Address)
    requires CheckBody(places, s, blk) && CheckBody(places, s', blk')
    requires NonceAt(s.accounts, k) + 1 < WORD && NonceAt(s'.accounts, k) + 1 < WORD
    ensures (exists x :: x in Uses(blk, k) && x in Uses(blk', k)) <==>
      && Uses(blk, k) != [] && Uses(blk', k) != []
      && NonceAt(s.accounts, k) < NonceAt(s'.accounts, k) + |Uses(blk', k)|
      && NonceAt(s'.accounts, k) < NonceAt(s.accounts, k) + |Uses(blk, k)|
  {
    hide CheckBody, NonceAt, Uses, Consecutive;
    var n, n' := NonceAt(s.accounts, k), NonceAt(s'.accounts, k);
    var us, us' := Uses(blk, k), Uses(blk', k);
    CheckedUses(places, s, blk, k);
    CheckedUses(places, s', blk', k);
    if us != [] && us' != [] && n < n' + |us'| && n' < n + |us| {
      var x := if n < n' then n' + 1 else n + 1;
      UsesRange(n, us, x);
      UsesRange(n', us', x);
    }
    if x :| x in us && x in us' {
      UsesRange(n, us, x);
      UsesRange(n', us', x);
    }
  }
}
