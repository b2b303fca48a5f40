/** Multisig addresses: the signatories are collected, sorted by key and hashed. */
module MultisigAddress {
  import opened Wrappers
  import opened Ordering

  /** A public key as bytes. */
  type Key = seq<nat>

  /** Byte-wise lexicographic order, a prefix first. */
  predicate KeyLe(a: Key, b: Key)
    decreases |a|
  {
    a == [] || (b != [] && (a[0] < b[0] || (a[0] == b[0] && KeyLe(a[1..], b[1..]))))
  }

  lemma {:induction false} KeyLeTotal(a: Key, b: Key)
    ensures KeyLe(a, b) || KeyLe(b, a)
    ensures KeyLe(a, b) && KeyLe(b, a) ==> a == b
    decreases |a|
  {
    if a == [] || b == [] {
    } else {
      KeyLeTotal(a[1..], b[1..]);
      assert a == [a[0]] + a[1..] && b == [b[0]] + b[1..];
    }
  }

  lemma {:induction false} KeyLeTransitive(a: Key, b: Key, c: Key)
    requires KeyLe(a, b) && KeyLe(b, c)
    ensures KeyLe(a, c)
    decreases |a|
  {
    if a == [] || a[0] != b[0] || b[0] != c[0] {
    } else {
      KeyLeTransitive(a[1..], b[1..], c[1..]);
    }
  }

  /** The keys agree up to place `k`, and there the first one ends or has the smaller byte. */
  ghost predicate DecidedAt(a: Key, b: Key, k: nat) {
    && k <= |a| && k <= |b| && a[..k] == b[..k]
    && (k == |a| || (k < |b| && a[k] < b[k]))
  }

  ghost predicate Precedes(a: Key, b: Key) {
    exists k: nat :: DecidedAt(a, b, k)
  }

  lemma SameFirst(a: Key, b: Key, k: nat)
    requires DecidedAt(a, b, k) && k > 0
    ensures a != [] && b != [] && a[0] == b[0]
  {
    assert a[0] == a[..k][0] && b[0] == b[..k][0];
  }

  /** The order is decided by the first byte that differs. */
  lemma {:induction false} KeyLeIsLexicographic(a: Key, b: Key)
    ensures KeyLe(a, b) <==> Precedes(a, b)
    decreases |a|
  {
    if a == [] {
      assert DecidedAt(a, b, 0);
    } else if b == [] || a[0] != b[0] {
      if k: nat :| DecidedAt(a, b, k) && k > 0 {
        SameFirst(a, b, k);
      }
      if b != [] && a[0] < b[0] {
        assert DecidedAt(a, b, 0);
      }
    } else {
      KeyLeIsLexicographic(a[1..], b[1..]);
      if k: nat :| DecidedAt(a[1..], b[1..], k) {
        assert a[..k + 1] == [a[0]] + a[1..][..k] && b[..k + 1] == [b[0]] + b[1..][..k];
        assert DecidedAt(a, b, k + 1);
      }
      if k: nat :| DecidedAt(a, b, k) {
        assert k > 0;
        assert a[1..][..k - 1] == a[..k][1..] && b[1..][..k - 1] == b[..k][1..];
        assert DecidedAt(a[1..], b[1..], k - 1);
      }
    }
  }

  ghost predicate Ascending(keys: seq<Key>) {
    forall i, j :: 0 <= i < j < |keys| ==> Precedes(keys[i], keys[j])
  }

  /** Whatever list of the keys is ascending, it is the one the library sort yields. */
  lemma AscendingIsSorted(keys: seq<Key>, ascending: seq<Key>)
    requires multiset(ascending) == multiset(keys) && Ascending(ascending)
    ensures Sort(KeyLe, keys) == ascending
  {
    KeyOrderIsTotal();
    SortIsSort(KeyLe, keys);
    forall i, j | 0 <= i < j < |ascending| ensures KeyLe(ascending[i], ascending[j]) {
      KeyLeIsLexicographic(ascending[i], ascending[j]);
    }
    SortIsUnique(KeyLe, Sort(KeyLe, keys), ascending);
  }

  lemma KeyOrderIsTotal()
    ensures TotalOrder(KeyLe)
  {
    forall x: Key, y: Key ensures (KeyLe(x, y) || KeyLe(y, x)) && (KeyLe(x, y) && KeyLe(y, x) ==> x == y) {
      KeyLeTotal(x, y);
    }
    forall x: Key, y: Key, z: Key ensures KeyLe(x, y) && KeyLe(y, z) ==> KeyLe(x, z) {
      if KeyLe(x, y) && KeyLe(y, z) {
        KeyLeTransitive(x, y, z);
      }
    }
  }

  /** `getMsAddress`; an absent or empty signer is not added. `derive` stands for
      `createKeyMulti` and the address encoding. */
  function GetMsAddress<A>(derive: (seq<Key>, nat) -> A, threshold: nat, others: seq<Key>, signer: Option<Key>): A {
    var allSignatories := if signer.Some? && signer.value != [] then others + [signer.value] else others;
    derive(Sort(KeyLe, allSignatories), threshold)
  }

  datatype Method = ApproveAsMulti(otherSignatories: seq<Key>, threshold: nat, callMatches: bool)
                  | AsMulti(otherSignatories: seq<Key>, maybeThreshold: Option<nat>)
                  | OtherMethod

  /** The address `multiCheck` reports: none when the call hash does not match or the method
      is not a multisig one; `asMulti` defaults its threshold to one. */
  function MultiCheckAddress<A>(derive: (seq<Key>, nat) -> A, signer: Key, m: Method): Option<A> {
    match m
    case ApproveAsMulti(others, threshold, callMatches) =>
      if callMatches then Some(derive(Sort(KeyLe, others + [signer]), threshold)) else None
    case AsMulti(others, threshold) =>
      var t := if threshold.Some? then threshold.value else 1;
      Some(derive(Sort(KeyLe, others + [signer]), t))
    case OtherMethod => None
  }

  lemma SortOfPermutation(s: seq<Key>, t: seq<Key>)
    requires multiset(s) == multiset(t)
    ensures Sort(KeyLe, s) == Sort(KeyLe, t)
  {
    KeyOrderIsTotal();
    SortIsSort(KeyLe, s);
    SortIsSort(KeyLe, t);
    SortIsUnique(KeyLe, Sort(KeyLe, s), Sort(KeyLe, t));
  }

  /** The address is derived from the signatories in ascending order and the threshold, the
      signer among them if one is given. */
  lemma AddressIsOfAscendingKeys<A>(
      derive: (seq<Key>, nat) -> A, threshold: nat, others: seq<Key>, signer: Option<Key>, ascending: seq<Key>)
    requires Ascending(ascending)
    requires multiset(ascending)
          == multiset(others) + (if signer.Some? && signer.value != [] then multiset{signer.value} else multiset{})
    ensures GetMsAddress(derive, threshold, others, signer) == derive(ascending, threshold)
  {
    var all := if signer.Some? && signer.value != [] then others + [signer.value] else others;
    assert multiset(all) == multiset(ascending);
    AscendingIsSorted(all, ascending);
  }

  /** The address depends on the signatories alone: whichever of them signs and however the
      others are listed, it is the address of the whole list. */
  lemma AddressIsCanonical<A>(
      derive: (seq<Key>, nat) -> A, threshold: nat, all: seq<Key>, others: seq<Key>, signer: Key)
    requires signer != [] && multiset(others + [signer]) == multiset(all)
    ensures GetMsAddress(derive, threshold, others, Some(signer)) == GetMsAddress(derive, threshold, all, None)
  {
    SortOfPermutation(others + [signer], all);
  }

  /** The offline check of either multisig call derives that same address. */
  lemma OfflineCheckAgrees<A>(
      derive: (seq<Key>, nat) -> A, threshold: nat, all: seq<Key>, others: seq<Key>, signer: Key)
    requires signer != [] && multiset(others + [signer]) == multiset(all)
    ensures MultiCheckAddress(derive, signer, ApproveAsMulti(others, threshold, true))
         == Some(GetMsAddress(derive, threshold, all, None))
    ensures MultiCheckAddress(derive, signer, AsMulti(others, Some(threshold)))
         == Some(GetMsAddress(derive, threshold, all, None))
    ensures MultiCheckAddress(derive, signer, AsMulti(others, None))
         == Some(GetMsAddress(derive, 1, all, None))
    ensures MultiCheckAddress(derive, signer, ApproveAsMulti(others, threshold, false)).None?
    ensures MultiCheckAddress(derive, signer, OtherMethod).None?
  {
    SortOfPermutation(others + [signer], all);
  }
}
