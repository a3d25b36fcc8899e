/**
 * The asset filter: a fixed bit set with eight positions per value, and its
 * byte-string form. The two hash functions behind the positions are a parameter.
 */
module BloomFilter {

  const SIZE: nat := 524288
  const HASH_COUNT: nat := 8

  // Eight positions inside the filter for every value.
  type Places = p: nat -> seq<nat> | forall v :: |p(v)| == HASH_COUNT
    && forall i :: 0 <= i < HASH_COUNT ==> p(v)[i] < SIZE
    witness (_ => seq(HASH_COUNT, _ => 0))

  type Bits = b: seq<bool> | |b| == SIZE witness seq(SIZE, _ => false)

  predicate Positive(places: Places, bits: Bits, v: nat) {
    forall i :: 0 <= i < HASH_COUNT ==> bits[places(v)[i]]
  }

  // The filter after v has been added: the old bits and v's positions.
  function With(places: Places, bits: Bits, v: nat): Bits {
    seq(SIZE, j requires 0 <= j < SIZE => bits[j] || j in places(v))
  }

  // Adding keeps what was positive and makes the added value positive: the
  // filter has no false negatives.
  lemma NoFalseNegative(places: Places, bits: Bits, v: nat, w: nat)
    ensures Positive(places, With(places, bits, v), v)
    ensures Positive(places, bits, w) ==> Positive(places, With(places, bits, v), w)
  {
    forall i | 0 <= i < HASH_COUNT ensures With(places, bits, v)[places(v)[i]] {
      assert places(v)[i] in places(v);
    }
  }

  // A value tests positive exactly when none of its positions is unset.
  lemma PositiveExact(places: Places, bits: Bits, v: nat)
    ensures Positive(places, bits, v) <==> forall p <- places(v) :: bits[p]
  {
    if Positive(places, bits, v) {
      forall p | p in places(v) ensures bits[p] {
        var i :| 0 <= i < HASH_COUNT && places(v)[i] == p;
      }
    }
    if forall p <- places(v) :: bits[p] {
      forall i | 0 <= i < HASH_COUNT ensures bits[places(v)[i]] { assert places(v)[i] in places(v); }
    }
  }

  predicate Within(a: Bits, b: Bits) {
    forall j :: 0 <= j < SIZE && a[j] ==> b[j]
  }

  // Adding gives the least filter that holds the old bits and tests the value
  // positive; adding a value that is positive already changes nothing.
  lemma WithIsLeast(places: Places, bits: Bits, v: nat, b: Bits)
    ensures Within(bits, With(places, bits, v)) && Positive(places, With(places, bits, v), v)
    ensures Within(bits, b) && Positive(places, b, v) ==> Within(With(places, bits, v), b)
    ensures Positive(places, bits, v) ==> With(places, bits, v) == bits
  {
    NoFalseNegative(places, bits, v, v);
    PositiveExact(places, b, v);
    PositiveExact(places, bits, v);
  }

  // The filter after these values have been added to the empty one.
  function Filled(places: Places, vs: seq<nat>): Bits {
    if vs == [] then seq(SIZE, _ => false)
    else With(places, Filled(places, vs[..|vs| - 1]), vs[|vs| - 1])
  }

  lemma {:induction false} FilledAt(places: Places, vs: seq<nat>, j: nat)
    requires j < SIZE
    ensures Filled(places, vs)[j] <==> exists v <- vs :: j in places(v)
  {
    if vs != [] {
      var init, last := vs[..|vs| - 1], vs[|vs| - 1];
      FilledAt(places, init, j);
      assert vs == init + [last];
    }
  }

  // False positives, exactly: a value tests positive if and only if each of its
  // positions is a position of some added value.
  lemma PositiveAfter(places: Places, vs: seq<nat>, w: nat)
    ensures Positive(places, Filled(places, vs), w) <==>
      forall p <- places(w) :: exists v <- vs :: p in places(v)
  {
    PositiveExact(places, Filled(places, vs), w);
    forall p | p in places(w) ensures Filled(places, vs)[p] <==> exists v <- vs :: p in places(v) {
      FilledAt(places, vs, p);
    }
  }

  // Eight positions and no fewer: each of them alone can tell a value from those
  // that have been added.
  lemma EachPlaceCounts(places: Places, vs: seq<nat>, w: nat, i: nat)
    requires i < 8 && forall v <- vs :: places(w)[i] !in places(v)
    ensures !Positive(places, Filled(places, vs), w)
  {
    PositiveAfter(places, vs, w);
    assert places(w)[i] in places(w);
  }

  // ---- Bytes -------------------------------------------------------------

  function Mask(j: nat): bv8
    requires j < 8
  {
    (1 as bv8) << j
  }

  lemma MaskTable()
    ensures Mask(0) == 1 && Mask(1) == 2 && Mask(2) == 4 && Mask(3) == 8
    ensures Mask(4) == 16 && Mask(5) == 32 && Mask(6) == 64 && Mask(7) == 128
  {
  }

  predicate HasBit(x: bv8, j: nat)
    requires j < 8
  {
    x & Mask(j) != 0
  }

  lemma SetBit(x: bv8, j: nat, k: nat)
    requires j < 8 && k < 8
    ensures HasBit(x | Mask(j), k) <==> k == j || HasBit(x, k)
  {
    MaskTable();
  }

  // The bits of a byte are those of its binary form, the first the least.
  lemma BitsOfByte(x: bv8)
    ensures x == (if HasBit(x, 0) then 1 else 0) + (if HasBit(x, 1) then 2 else 0)
      + (if HasBit(x, 2) then 4 else 0) + (if HasBit(x, 3) then 8 else 0)
      + (if HasBit(x, 4) then 16 else 0) + (if HasBit(x, 5) then 32 else 0)
      + (if HasBit(x, 6) then 64 else 0) + (if HasBit(x, 7) then 128 else 0)
  {
    MaskTable();
  }

  // Bit k of a byte string.
  predicate StoredBit(buffer: seq<bv8>, k: nat)
    requires k / 8 < |buffer|
  {
    HasBit(buffer[k / 8], k % 8)
  }

  // A byte string holds exactly these bits, least significant bit first.
  predicate Stores(buffer: seq<bv8>, bits: seq<bool>) {
    8 * |buffer| == |bits| && forall k :: 0 <= k < |bits| ==> (StoredBit(buffer, k) <==> bits[k])
  }

  lemma StoreStep(buffer: seq<bv8>, i: nat, k: nat)
    requires i / 8 < |buffer| && k / 8 < |buffer|
    ensures StoredBit(buffer[i / 8 := buffer[i / 8] | Mask(i % 8)], k) <==> k == i || StoredBit(buffer, k)
  {
    if k / 8 == i / 8 { SetBit(buffer[i / 8], i % 8, k % 8); }
  }

  // A byte string determines the bits it stores: reloading loses nothing.
  lemma StoresUnique(buffer: seq<bv8>, a: seq<bool>, b: seq<bool>)
    requires Stores(buffer, a) && Stores(buffer, b)
    ensures a == b
  {
  }

  class Filter {
    const places: Places
    var bits: array<bool>

    ghost predicate Valid()
      reads this
    {
      bits.Length == SIZE
    }

    ghost function Value(): (b: seq<bool>)
      requires Valid()
      reads this, bits
    {
      bits[..]
    }

    constructor (places: Places)
      ensures Valid() && fresh(bits) && this.places == places
      ensures forall j :: 0 <= j < SIZE ==> !Value()[j]
    {
      this.places := places;
      bits := new bool[SIZE](_ => false);
    }

    // From its stored form.
    constructor Load(places: Places, buffer: seq<bv8>)
      requires |buffer| == SIZE / 8
      ensures Valid() && fresh(bits) && this.places == places && Stores(buffer, Value())
    {
      this.places := places;
      bits := new bool[SIZE](_ => false);
      new;
      for i := 0 to SIZE
        invariant bits.Length == SIZE && fresh(bits)
        invariant forall k :: 0 <= k < SIZE ==> (bits[k] <==> k < i && StoredBit(buffer, k))
      {
        if buffer[i / 8] & Mask(i % 8) != 0 {
          bits[i] := true;
        }
      }
    }

    method Test(v: nat) returns (r: bool)
      requires Valid()
      ensures r == Positive(places, Value(), v)
    {
      var place := places(v);
      r := bits[place[0]] && bits[place[1]] && bits[place[2]] && bits[place[3]]
        && bits[place[4]] && bits[place[5]] && bits[place[6]] && bits[place[7]];
      if r {
        forall i | 0 <= i < HASH_COUNT ensures Value()[place[i]] {
          assert i == 0 || i == 1 || i == 2 || i == 3 || i == 4 || i == 5 || i == 6 || i == 7;
        }
      }
    }

    method Insert(v: nat) returns (added: bool)
      requires Valid()
      modifies bits
      ensures Valid() && bits == old(bits)
      ensures Value() == With(places, old(Value()), v)
      ensures added == !Positive(places, old(Value()), v)
    {
      var place := places(v);
      var flag := true;
      for i := 0 to HASH_COUNT
        invariant flag <==> forall j :: 0 <= j < i ==> bits[place[j]]
      {
        flag := flag && bits[place[i]];
      }
      ghost var was := Value();
      if flag {
        assert forall j :: j in place ==> was[j];
        return false;
      }
      for i := 0 to HASH_COUNT
        invariant forall j :: 0 <= j < SIZE ==> (bits[j] <==> was[j] || j in place[..i])
      {
        assert place[..i + 1] == place[..i] + [place[i]];
        bits[place[i]] := true;
      }
      assert place[..HASH_COUNT] == place;
      return true;
    }

    method ToStore() returns (buffer: seq<bv8>)
      requires Valid()
      ensures Stores(buffer, Value())
    {
      hide StoredBit;
      buffer := Zeros(SIZE / 8);
      for i := 0 to SIZE
        invariant |buffer| == SIZE / 8
        invariant forall k :: 0 <= k < SIZE ==> (StoredBit(buffer, k) <==> k < i && bits[k])
      {
        if bits[i] {
          var next := buffer[i / 8 := buffer[i / 8] | Mask(i % 8)];
          forall k | 0 <= k < SIZE ensures StoredBit(next, k) <==> k == i || StoredBit(buffer, k) {
            StoreStep(buffer, i, k);
          }
          buffer := next;
        }
      }
    }
  }

  function Zeros(n: nat): (z: seq<bv8>)
    ensures |z| == n && forall k :: 0 <= k < 8 * n ==> !StoredBit(z, k)
  {
    seq(n, _ => 0)
  }

  // Storing a filter and loading it gives back every bit.
  method Reload(filter: Filter) returns (copy: Filter)
    requires filter.Valid()
    ensures fresh(copy) && copy.Valid() && copy.places == filter.places && copy.Value() == filter.Value()
  {
    var buffer := filter.ToStore();
    copy := new Filter.Load(filter.places, buffer);
    StoresUnique(buffer, copy.Value(), filter.Value());
  }
}
