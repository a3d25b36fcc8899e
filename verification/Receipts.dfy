/**
 * Receipts: for each sender of a block, the nonces it used and, per asset, what
 * it could spend and what it spends.
 */
module Receipts {

  const WORD: nat := 0x1_0000_0000_0000_0000

  function Wrap(x: int): nat { x % WORD }

  predicate Ascending(s: seq<nat>) {
    |s| <= 1 || (s[0] <= s[1] && Ascending(s[1..]))
  }

  lemma {:induction false} AscendingMin(s: seq<nat>, x: nat)
    requires Ascending(s) && x in s
    ensures s[0] <= x
  {
    if |s| > 1 && x != s[0] { AscendingMin(s[1..], x); }
  }

  function Insert(x: nat, s: seq<nat>): (r: seq<nat>) {
    if s == [] || x <= s[0] then [x] + s else [s[0]] + Insert(x, s[1..])
  }

  lemma {:induction false} InsertSorts(x: nat, s: seq<nat>)
    requires Ascending(s)
    ensures Ascending(Insert(x, s)) && multiset(Insert(x, s)) == multiset(s) + multiset{x}
    ensures Insert(x, s) != [] && (Insert(x, s)[0] == x || (s != [] && Insert(x, s)[0] == s[0]))
  {
    if s == [] || x <= s[0] {
      assert ([x] + s)[1..] == s;
    } else {
      InsertSorts(x, s[1..]);
      assert s == [s[0]] + s[1..];
      assert ([s[0]] + Insert(x, s[1..]))[1..] == Insert(x, s[1..]);
    }
  }

  // Ascending order, as a library sort leaves it.
  function Sort(s: seq<nat>): (r: seq<nat>) {
    if s == [] then [] else Insert(s[0], Sort(s[1..]))
  }

  lemma {:induction false} SortSorts(s: seq<nat>)
    ensures Ascending(Sort(s)) && multiset(Sort(s)) == multiset(s) && |Sort(s)| == |s|
  {
    if s != [] {
      hide Ascending, Insert;
      SortSorts(s[1..]);
      InsertSorts(s[0], Sort(s[1..]));
      TailMultiset(s);
    }
    SameElements(Sort(s), s, 0);
  }

  lemma SameElements(a: seq<nat>, b: seq<nat>, x: nat)
    requires multiset(a) == multiset(b)
    ensures |a| == |b| && (x in a <==> x in b)
  {
    assert x in a <==> x in multiset(a);
    assert x in b <==> x in multiset(b);
    assert |a| == |multiset(a)| && |b| == |multiset(b)|;
  }

  // There is one way to sort: whichever algorithm is used gives this result.
  lemma {:induction false} SortedUnique(a: seq<nat>, b: seq<nat>)
    requires Ascending(a) && Ascending(b) && multiset(a) == multiset(b)
    ensures a == b
  {
    hide *;
    SameElements(a, b, 0);
    if a != [] {
      SameElements(a, b, a[0]);
      SameElements(a, b, b[0]);
      AscendingMin(a, b[0]);
      AscendingMin(b, a[0]);
      AscendingTail(a);
      AscendingTail(b);
      TailsAgree(a, b);
      SortedUnique(a[1..], b[1..]);
      assert a == [a[0]] + a[1..] && b == [b[0]] + b[1..];
    }
  }

  lemma TailsAgree(a: seq<nat>, b: seq<nat>)
    requires a != [] && b != [] && a[0] == b[0] && multiset(a) == multiset(b)
    ensures multiset(a[1..]) == multiset(b[1..])
  {
    TailMultiset(a);
    TailMultiset(b);
  }

  lemma AscendingTail(s: seq<nat>)
    requires Ascending(s) && s != []
    ensures Ascending(s[1..])
  {
  }

  lemma TailMultiset(s: seq<nat>)
    requires s != []
    ensures multiset(s[1..]) == multiset(s) - multiset{s[0]} && multiset(s) == multiset(s[1..]) + multiset{s[0]}
  {
    assert s == [s[0]] + s[1..];
  }

  // from, from + 1, ..., n of them.
  function Counting(from: nat, n: nat): (r: seq<nat>)
    ensures |r| == n
  {
    seq(n, i requires 0 <= i => from + i)
  }

  // The nonces are a permutation of the n values after `start`.
  predicate Consecutive(start: nat, nonces: seq<nat>) {
    multiset(nonces) == multiset(Counting(Wrap(start + 1), |nonces|))
  }

  lemma {:induction false} CountingAscends(from: nat, n: nat)
    ensures Ascending(Counting(from, n))
    decreases n
  {
    if n > 1 {
      CountingAscends(from + 1, n - 1);
      assert Counting(from, n)[1..] == Counting(from + 1, n - 1);
    }
  }

  lemma SortedConsecutive(start: nat, nonces: seq<nat>)
    requires Ascending(nonces)
    ensures Consecutive(start, nonces) <==> nonces == Counting(Wrap(start + 1), |nonces|)
  {
    CountingAscends(Wrap(start + 1), |nonces|);
    if Consecutive(start, nonces) {
      SortedUnique(nonces, Counting(Wrap(start + 1), |nonces|));
    }
  }

  // The scan over the sorted nonces. Next values are computed in 64 bits.
  method Scan(nonces: seq<nat>, first: nat) returns (ok: bool)
    requires nonces != [] && forall i :: 0 <= i < |nonces| ==> nonces[i] < WORD
    requires Ascending(nonces) && first < WORD
    ensures ok == (nonces == Counting(first, |nonces|))
  {
    if nonces[0] != first {
      assert Counting(first, |nonces|)[0] == first;
      return false;
    }
    for i := 1 to |nonces|
      invariant forall j :: 0 <= j < i ==> nonces[j] == first + j
    {
      if nonces[i] != Wrap(nonces[i - 1] + 1) {
        assert Counting(first, |nonces|)[i] == first + i;
        return false;
      }
      AscendingStep(nonces, i);
    }
    return true;
  }

  lemma {:induction false} AscendingStep(s: seq<nat>, i: nat)
    requires Ascending(s) && 0 < i < |s|
    ensures s[i - 1] <= s[i]
  {
    if i > 1 { AscendingStep(s[1..], i - 1); }
  }

  lemma OneAscends(s: seq<nat>)
    requires |s| == 1
    ensures Ascending(s)
  {
  }

  class Receipt {
    var start: nat
    var nonces: seq<nat>
    var balances: map<nat, (nat, nat)>

    constructor (start: nat, nonces: seq<nat>, balances: map<nat, (nat, nat)>)
      ensures this.start == start && this.nonces == nonces && this.balances == balances
    {
      this.start, this.nonces, this.balances := start, nonces, balances;
    }

    ghost predicate Valid()
      reads this
    {
      start < WORD && forall n :: n in nonces ==> n < WORD
    }

    // Accepts exactly the permutations of start + 1, ..., start + n, whatever
    // order the transactions came in; sorts the nonces on the way.
    method CheckNonce() returns (ok: bool)
      requires Valid()
      modifies this`nonces
      ensures ok == Consecutive(start, old(nonces))
      ensures multiset(nonces) == multiset(old(nonces)) && |nonces| == |old(nonces)|
    {
      hide Ascending, Sort;
      if |nonces| == 0 {
        return true;
      }
      if |nonces| > 1 {
        ghost var was := nonces;
        SortSorts(nonces);
        nonces := Sort(nonces);
        SortedConsecutive(start, nonces);
        forall i | 0 <= i < |nonces| ensures nonces[i] < WORD {
          SameElements(nonces, was, nonces[i]);
        }
        ok := Scan(nonces, Wrap(start + 1));
      } else {
        OneAscends(nonces);
        SortedConsecutive(start, nonces);
        return nonces[0] == Wrap(start + 1);
      }
    }

    // A receipt is good if its nonces are and nothing is overspent.
    method Check() returns (ok: bool)
      requires Valid()
      modifies this`nonces
      ensures ok == (Consecutive(start, old(nonces)) && Affordable(balances))
    {
      ok := CheckNonce();
      if ok {
        var left := balances;
        while left != map[]
          invariant left.Keys <= balances.Keys
          invariant forall a :: a in left ==> left[a] == balances[a]
          invariant forall a :: a in balances && a !in left ==> balances[a].0 >= balances[a].1
          decreases |left|
        {
          var a :| a in left;
          if left[a].0 < left[a].1 {
            return false;
          }
          left := left - {a};
        }
      }
    }
  }

  predicate Affordable(balances: map<nat, (nat, nat)>) {
    forall a :: a in balances ==> balances[a].0 >= balances[a].1
  }

  // Without wrap-around the values after `start` are start + 1, ..., start + n.
  lemma ConsecutiveMeaning(start: nat, nonces: seq<nat>, n: nat)
    requires start + |nonces| < WORD && Consecutive(start, nonces)
    ensures n in nonces <==> start < n <= start + |nonces|
    ensures multiset(nonces)[n] <= 1
  {
    var c := Counting(Wrap(start + 1), |nonces|);
    assert n in multiset(nonces) <==> n in multiset(c);
    if start < n <= start + |nonces| { assert c[n - start - 1] == n; }
    CountingOnce(Wrap(start + 1), |nonces|, n);
  }

  lemma {:induction false} CountingOnce(from: nat, k: nat, n: nat)
    ensures multiset(Counting(from, k))[n] == if from <= n < from + k then 1 else 0
  {
    if k > 0 {
      CountingOnce(from, k - 1, n);
      assert Counting(from, k) == Counting(from, k - 1) + [from + k - 1];
    }
  }
}
