/** The key map, which has a key pair for every suffix (src/lib/bms/Utilities.cpp:102-114, 301-321). */
module Keypairs {
  import opened Bits
  import opened Script
  import opened Interpreter
  import opened Signatures
  import opened Signing
  import opened SigningFacts
  import opened ScriptHashes

  /** The bit vectors of `n` bits that read as a number below `m`. */
  ghost function VectorsBelow(m: nat, n: nat): (r: set<DataBits>) {
    set v: nat | v < m :: ToBits(v, n)
  }

  lemma {:induction false} CountVectors(m: nat, n: nat)
    requires m <= Pow2(n)
    ensures |VectorsBelow(m, n)| == m
  {
    hide ToBits, FromBits, Pow2;
    if m > 0 {
      CountVectors(m - 1, n);
      var last := ToBits(m - 1, n);
      assert VectorsBelow(m, n) == VectorsBelow(m - 1, n) + {last};
      if last in VectorsBelow(m - 1, n) {
        var v: nat :| v < m - 1 && ToBits(v, n) == last;
        FromToBits(v, n);
        FromToBits(m - 1, n);
      }
    }
  }

  lemma VectorsAreAll(n: nat)
    ensures forall bits: DataBits :: bits in VectorsBelow(Pow2(n), n) <==> |bits| == n
  {
    forall bits: DataBits
      ensures bits in VectorsBelow(Pow2(n), n) <==> |bits| == n
    {
      if |bits| == n {
        ToFromBits(bits);
        FromBitsBound(bits);
        assert FromBits(bits) < Pow2(n);
      }
    }
  }

  lemma {:induction false} SubsetCount<T>(a: set<T>, b: set<T>)
    requires a <= b
    ensures |a| <= |b| && (|a| == |b| ==> a == b)
  {
    if a != {} {
      var x :| x in a;
      SubsetCount(a - {x}, b - {x});
      assert a == (a - {x}) + {x} && b == (b - {x}) + {x};
    }
  }

  /** A map from n-bit vectors has an entry for each of them exactly when it has 2^n entries. */
  lemma FullMap<V>(m: map<DataBits, V>, n: nat)
    requires forall bits :: bits in m ==> |bits| == n
    ensures |m| <= Pow2(n)
    ensures |m| == Pow2(n) <==> forall bits: DataBits :: |bits| == n ==> bits in m
  {
    VectorsAreAll(n);
    CountVectors(Pow2(n), n);
    SubsetCount(m.Keys, VectorsBelow(Pow2(n), n));
    if forall bits: DataBits :: |bits| == n ==> bits in m {
      assert m.Keys == VectorsBelow(Pow2(n), n);
    }
  }

  /** The last `n` bits of a public key as it stands. */
  function KeySuffix(pub: Bytes, n: nat): (r: DataBits)
    requires n <= 8 * |pub|
  {
    var buf := BytesToBits(pub);
    buf[|buf| - n..]
  }

  /** Among the first keys of the supply every suffix turns up. */
  ghost predicate SupplyCovers(supply: nat -> Key, nBits: nat, bound: nat) {
    (forall i: nat :: nBits <= 8 * |supply(i).pub|) &&
    forall bits: DataBits :: |bits| == nBits ==> exists i: nat :: i < bound && KeySuffix(supply(i).pub, nBits) == bits
  }

  /** The key has the suffix and comes from the supply. */
  ghost predicate KeyEntry(bits: DataBits, key: Key, nBits: nat, supply: nat -> Key, bound: nat) {
    nBits <= 8 * |key.pub| && KeySuffix(key.pub, nBits) == bits &&
    exists i: nat :: i < bound && key == supply(i)
  }

  ghost predicate Entries(keyMap: map<DataBits, Key>, nBits: nat, supply: nat -> Key, bound: nat) {
    forall bits :: bits in keyMap ==> |bits| == nBits && KeyEntry(bits, keyMap[bits], nBits, supply, bound)
  }

  ghost predicate Seen(keyMap: map<DataBits, Key>, supply: nat -> Key, nBits: nat, n: nat) {
    forall i: nat :: i < n ==> nBits <= 8 * |supply(i).pub| && KeySuffix(supply(i).pub, nBits) in keyMap
  }

  lemma AddEntry(keyMap: map<DataBits, Key>, nBits: nat, supply: nat -> Key, bound: nat, i: nat, bits: DataBits)
    requires SupplyCovers(supply, nBits, bound) && i < bound && |bits| == nBits
    requires Entries(keyMap, nBits, supply, bound) && Seen(keyMap, supply, nBits, i)
    requires bits == KeySuffix(supply(i).pub, nBits)
    ensures Entries(keyMap[bits := supply(i)], nBits, supply, bound)
    ensures Seen(keyMap[bits := supply(i)], supply, nBits, i + 1)
  {
    hide KeySuffix;
  }

  lemma AllSeen(keyMap: map<DataBits, Key>, nBits: nat, supply: nat -> Key, bound: nat)
    requires SupplyCovers(supply, nBits, bound)
    requires Entries(keyMap, nBits, supply, bound) && Seen(keyMap, supply, nBits, bound)
    ensures |keyMap| == Pow2(nBits)
  {
    hide KeySuffix, Pow2;
    forall bits: DataBits | |bits| == nBits
      ensures bits in keyMap
    {
      var i: nat :| i < bound && KeySuffix(supply(i).pub, nBits) == bits;
    }
    FullMap(keyMap, nBits);
  }

  /** GenerateKeypairMap: `supply` gives the keys in the order in which they are made. */
  method GenerateKeypairMap(nBits: nat, supply: nat -> Key, ghost bound: nat) returns (keyMap: map<DataBits, Key>)
    requires SupplyCovers(supply, nBits, bound)
    ensures Entries(keyMap, nBits, supply, bound)
    ensures forall bits: DataBits :: bits in keyMap <==> |bits| == nBits
  {
    hide KeySuffix, Pow2, KeyEntry;
    keyMap := map[];
    var i := 0;
    assert Seen(keyMap, supply, nBits, i);
    while |keyMap| < Pow2(nBits)
      invariant i <= bound && |keyMap| <= Pow2(nBits)
      invariant Entries(keyMap, nBits, supply, bound) && Seen(keyMap, supply, nBits, i)
      decreases bound - i
    {
      if i == bound {
        AllSeen(keyMap, nBits, supply, bound);
        assert false;
      }
      var val := supply(i);
      var key := SuffixOf(val.pub, nBits);
      AddEntry(keyMap, nBits, supply, bound, i, key);
      keyMap := keyMap[key := val];
      i := i + 1;
      FullMap(keyMap, nBits);
    }
    FullMap(keyMap, nBits);
  }

  method SuffixOf(pub: Bytes, nBits: nat) returns (key: DataBits)
    requires nBits <= 8 * |pub|
    ensures key == KeySuffix(pub, nBits) && |key| == nBits
  {
    var buf := DataToBits(pub);
    key := buf[|buf| - nBits..];
  }

  /** LoadKeystore: the key pairs by the hash of their public keys. */
  method LoadKeystore(keyMap: map<DataBits, Key>, crypto: Crypto) returns (store: KeyStore)
    ensures store.scripts == map[]
    ensures KeyHashesDiffer(keyMap, crypto) ==>
      forall bits :: bits in keyMap ==> HasKey(store, crypto, keyMap[bits])
  {
    store := KeyStore(map[], map[]);
    var rest := keyMap.Keys;
    while rest != {}
      invariant store.scripts == map[] && rest <= keyMap.Keys
      invariant KeyHashesDiffer(keyMap, crypto) ==>
        forall bits :: bits in keyMap && bits !in rest ==> HasKey(store, crypto, keyMap[bits])
      decreases |rest|
    {
      var bits :| bits in rest;
      store := store.(keys := store.keys[crypto.hash160(keyMap[bits].pub) := keyMap[bits]]);
      rest := rest - {bits};
    }
  }

  ghost predicate HasKey(store: KeyStore, crypto: Crypto, key: Key) {
    crypto.hash160(key.pub) in store.keys && store.keys[crypto.hash160(key.pub)] == key
  }

  /** Different keys of the map have different hashes. */
  ghost predicate KeyHashesDiffer(keyMap: map<DataBits, Key>, crypto: Crypto) {
    forall a, b :: a in keyMap && b in keyMap && crypto.hash160(keyMap[a].pub) == crypto.hash160(keyMap[b].pub) ==>
      keyMap[a] == keyMap[b]
  }

  /** Different keys of the supply have different hashes. */
  ghost predicate SuppliedHashesDiffer(supply: nat -> Key, bound: nat, crypto: Crypto) {
    forall i: nat, j: nat | i < bound && j < bound ::
      crypto.hash160(supply(i).pub) == crypto.hash160(supply(j).pub) ==> supply(i) == supply(j)
  }

  lemma EntriesDiffer(keyMap: map<DataBits, Key>, nBits: nat, supply: nat -> Key, bound: nat, crypto: Crypto)
    requires Entries(keyMap, nBits, supply, bound) && SuppliedHashesDiffer(supply, bound, crypto)
    ensures KeyHashesDiffer(keyMap, crypto)
  {
    hide KeySuffix;
    forall a, b | a in keyMap && b in keyMap && crypto.hash160(keyMap[a].pub) == crypto.hash160(keyMap[b].pub)
      ensures keyMap[a] == keyMap[b]
    {
      assert KeyEntry(a, keyMap[a], nBits, supply, bound) && KeyEntry(b, keyMap[b], nBits, supply, bound);
    }
  }

  /** A key as MakeNewKey makes it: compressed and able to sign. */
  ghost predicate GoodKey(crypto: Crypto, signer: Signer, key: Key) {
    CompressedKeys([key.pub]) && SignerWorks(crypto, signer, key)
  }

  /** The generated map together with the loaded store is what embedding relies on. */
  method LoadKeys(setup: Setup, supply: nat -> Key, ghost bound: nat)
    returns (ready: Setup, store: KeyStore)
    requires SupplyCovers(supply, setup.suffixBits, bound)
    requires forall i: nat :: i < bound ==> GoodKey(setup.crypto, setup.signer, supply(i))
    ensures ready == setup.(keyMap := ready.keyMap) && Entries(ready.keyMap, setup.suffixBits, supply, bound)
    ensures KeyHashesDiffer(ready.keyMap, setup.crypto) ==>
              forall bits: DataBits :: |bits| == ready.suffixBits ==> KeyFor(ready, store, bits)
  {
    hide KeyFor, KeyHashesDiffer, HasKey, GoodKey, KeySuffix;
    var keyMap := GenerateKeypairMap(setup.suffixBits, supply, bound);
    store := LoadKeystore(keyMap, setup.crypto);
    ready := setup.(keyMap := keyMap);
    if KeyHashesDiffer(keyMap, setup.crypto) {
      forall bits: DataBits | |bits| == ready.suffixBits
        ensures KeyFor(ready, store, bits)
      {
        assert KeyEntry(bits, keyMap[bits], setup.suffixBits, supply, bound);
        var i: nat :| i < bound && keyMap[bits] == supply(i);
        KeyIsFor(ready, store, bits, keyMap[bits]);
      }
    }
  }

  lemma KeyIsFor(setup: Setup, store: KeyStore, bits: DataBits, key: Key)
    requires bits in setup.keyMap && setup.keyMap[bits] == key && |bits| == setup.suffixBits
    requires GoodKey(setup.crypto, setup.signer, key) && HasKey(store, setup.crypto, key)
    requires setup.suffixBits <= 8 * |key.pub| && KeySuffix(key.pub, setup.suffixBits) == bits
    ensures KeyFor(setup, store, bits)
  {
    assert [key.pub][0] == key.pub;
    assert PubKey(key.pub) == key.pub;
  }
}
