/** Consistent-hash ring: every key is placed on the ring at `replicas`
    positions, position `i` being the hash of the 8-byte little-endian
    encoding of `i` followed by the key's bytes; a lookup hashes its key and
    takes the owner of the first ring position at or after that hash. There
    is no wrap-around: a hash past the last position has no owner. The hash
    function is a parameter of the ring; keys are byte strings. */
module ConsistentHash {
  import opened Wrappers
  import opened Ints
  import opened ByteOrder

  predicate Sorted(s: seq<u64>)
  {
    forall i, j :: 0 <= i < j < |s| ==> s[i] <= s[j]
  }

  /** The positions held in `s`. */
  function Elems(s: seq<u64>): set<u64>
  {
    set x | x in s
  }

  /** `x` inserted into sorted `s` before the first element not below it. */
  function InsertSorted(x: u64, s: seq<u64>): (r: seq<u64>)
    requires Sorted(s)
    ensures Sorted(r) && multiset(r) == multiset(s) + multiset{x}
  {
    var p := Search(s, x, 0, |s|);
    InsertAtLowerBound(s, x, p);
    s[..p] + [x] + s[p..]
  }

  lemma InsertAtLowerBound(s: seq<u64>, x: u64, p: nat)
    requires Sorted(s) && IsLowerBound(s, x, p)
    ensures Sorted(s[..p] + [x] + s[p..])
    ensures multiset(s[..p] + [x] + s[p..]) == multiset(s) + multiset{x}
  {
    var r := s[..p] + [x] + s[p..];
    assert s == s[..p] + s[p..];
    forall i, j | 0 <= i < j < |r|
      ensures r[i] <= r[j]
    {
      if j < p {
        assert r[i] == s[i] && r[j] == s[j];
      } else if j == p {
        assert r[i] == s[i];
      } else if i < p {
        assert r[i] == s[i] && r[j] == s[j - 1];
      } else if i == p {
        assert r[j] == s[j - 1];
      } else {
        assert r[i] == s[i - 1] && r[j] == s[j - 1];
      }
    }
  }

  /** The ascending rearrangement of `s`, as `sort` leaves it. */
  function SortAscending(s: seq<u64>): (r: seq<u64>)
    ensures Sorted(r) && multiset(r) == multiset(s)
  {
    if s == [] then []
    else
      assert s == s[..|s| - 1] + [s[|s| - 1]];
      InsertSorted(s[|s| - 1], SortAscending(s[..|s| - 1]))
  }

  /** A sorted rearrangement is unique, so sorting in place leaves exactly
      `SortAscending` of the contents. */
  lemma {:induction false} SortedPermutationUnique(a: seq<u64>, b: seq<u64>)
    requires Sorted(a) && Sorted(b) && multiset(a) == multiset(b)
    ensures a == b
    decreases |a|
  {
    if a != [] {
      SameHead(a, b);
      DropHead(a);
      DropHead(b);
      SortedPermutationUnique(a[1..], b[1..]);
      assert a == [a[0]] + a[1..] && b == [b[0]] + b[1..];
    }
  }

  /** Two sorted rearrangements of the same elements start alike. */
  lemma SameHead(a: seq<u64>, b: seq<u64>)
    requires Sorted(a) && Sorted(b) && multiset(a) == multiset(b) && a != []
    ensures b != [] && a[0] == b[0]
  {
    assert |b| == |multiset(b)| == |a|;
    assert b[0] in multiset(a) && a[0] in multiset(b);
    HeadIsLeast(a, b[0]);
    HeadIsLeast(b, a[0]);
  }

  lemma HeadIsLeast(a: seq<u64>, x: u64)
    requires Sorted(a) && x in multiset(a)
    ensures a[0] <= x
  {
    var i :| 0 <= i < |a| && a[i] == x;
  }

  lemma DropHead(a: seq<u64>)
    requires Sorted(a) && a != []
    ensures Sorted(a[1..]) && multiset(a[1..]) == multiset(a) - multiset{a[0]}
  {
    assert a == [a[0]] + a[1..];
  }

  /** The bytes hashed for replica `i` of `key`. */
  function ReplicaBytes(i: nat, key: seq<byte>): seq<byte>
  {
    LittleEndian(i, 8) + key
  }

  /** Ring positions of the first `n` replicas of `key`, in order. */
  function KeyHashes(hashFn: seq<byte> -> u64, key: seq<byte>, n: nat): (r: seq<u64>)
    ensures |r| == n
  {
    if n == 0 then [] else KeyHashes(hashFn, key, n - 1) + [hashFn(ReplicaBytes(n - 1, key))]
  }

  /** Ring positions of all replicas of all `keys`, in the order they are
      pushed. */
  function ReplicaHashes(hashFn: seq<byte> -> u64, keys: seq<seq<byte>>, n: nat): (r: seq<u64>)
    ensures |r| == |keys| * n
  {
    if keys == [] then []
    else ReplicaHashes(hashFn, keys[..|keys| - 1], n) + KeyHashes(hashFn, keys[|keys| - 1], n)
  }

  /** The owner map after the first `n` replicas of `key` are inserted. */
  function KeyOwners(m: map<u64, seq<byte>>, hashFn: seq<byte> -> u64, key: seq<byte>, n: nat): map<u64, seq<byte>>
  {
    if n == 0 then m else KeyOwners(m, hashFn, key, n - 1)[hashFn(ReplicaBytes(n - 1, key)) := key]
  }

  /** The owner map after all replicas of all `keys` are inserted, a later
      insertion at an equal position replacing the earlier owner. */
  function Owners(m: map<u64, seq<byte>>, hashFn: seq<byte> -> u64, keys: seq<seq<byte>>, n: nat): map<u64, seq<byte>>
  {
    if keys == [] then m
    else KeyOwners(Owners(m, hashFn, keys[..|keys| - 1], n), hashFn, keys[|keys| - 1], n)
  }

  /** Inserting a key's replicas owns exactly its positions, and each of
      them by that key. */
  lemma {:induction false} KeyOwnersFacts(m: map<u64, seq<byte>>, hashFn: seq<byte> -> u64, key: seq<byte>, n: nat)
    ensures KeyOwners(m, hashFn, key, n).Keys == m.Keys + Elems(KeyHashes(hashFn, key, n))
    ensures forall h :: h in KeyHashes(hashFn, key, n) ==> KeyOwners(m, hashFn, key, n)[h] == key
    ensures forall h :: h in m && h !in KeyHashes(hashFn, key, n) ==> KeyOwners(m, hashFn, key, n)[h] == m[h]
  {
    if n > 0 {
      KeyOwnersFacts(m, hashFn, key, n - 1);
      var last := hashFn(ReplicaBytes(n - 1, key));
      assert KeyHashes(hashFn, key, n) == KeyHashes(hashFn, key, n - 1) + [last];
      assert Elems(KeyHashes(hashFn, key, n)) == Elems(KeyHashes(hashFn, key, n - 1)) + {last};
    }
  }

  /** After inserting the replicas of `keys`, the owner map has a key for
      exactly the old positions and the new ones, every new position is owned
      by one of `keys`, and the replicas of the last key are all its own. */
  lemma {:induction false} OwnersFacts(m: map<u64, seq<byte>>, hashFn: seq<byte> -> u64, keys: seq<seq<byte>>, n: nat)
    ensures Owners(m, hashFn, keys, n).Keys == m.Keys + Elems(ReplicaHashes(hashFn, keys, n))
    ensures forall h :: h in ReplicaHashes(hashFn, keys, n) ==> Owners(m, hashFn, keys, n)[h] in keys
    ensures keys != [] ==> forall h :: h in KeyHashes(hashFn, keys[|keys| - 1], n) ==>
              Owners(m, hashFn, keys, n)[h] == keys[|keys| - 1]
  {
    if keys != [] {
      var init := keys[..|keys| - 1];
      var key := keys[|keys| - 1];
      var before := Owners(m, hashFn, init, n);
      var after := Owners(m, hashFn, keys, n);
      assert after == KeyOwners(before, hashFn, key, n);
      OwnersFacts(m, hashFn, init, n);
      KeyOwnersFacts(before, hashFn, key, n);
      var hashes := ReplicaHashes(hashFn, keys, n);
      assert hashes == ReplicaHashes(hashFn, init, n) + KeyHashes(hashFn, key, n);
      assert Elems(hashes) == Elems(ReplicaHashes(hashFn, init, n)) + Elems(KeyHashes(hashFn, key, n));
      forall h | h in hashes
        ensures after[h] in keys
      {
        if h !in KeyHashes(hashFn, key, n) {
          assert h in ReplicaHashes(hashFn, init, n);
          assert before[h] in init;
        }
      }
    }
  }

  /** Taking one more key extends the pushed positions and the owner map
      by that key's replicas. */
  lemma PrefixStep(m: map<u64, seq<byte>>, hashFn: seq<byte> -> u64, keys: seq<seq<byte>>, a: nat, n: nat)
    requires a < |keys|
    ensures ReplicaHashes(hashFn, keys[..a + 1], n) == ReplicaHashes(hashFn, keys[..a], n) + KeyHashes(hashFn, keys[a], n)
    ensures Owners(m, hashFn, keys[..a + 1], n) == KeyOwners(Owners(m, hashFn, keys[..a], n), hashFn, keys[a], n)
  {
    assert keys[..a + 1][..a] == keys[..a];
  }

  /** Rearranging a sequence keeps its length and the positions it holds. */
  lemma SameElements(a: seq<u64>, b: seq<u64>)
    requires multiset(a) == multiset(b)
    ensures |a| == |b| && Elems(a) == Elems(b)
  {
    assert |a| == |multiset(a)|;
    forall x | x in a ensures x in b { assert x in multiset(a); }
    forall x | x in b ensures x in a { assert x in multiset(b); }
  }

  /** Adding the replicas of `keys` to a ring whose positions all have an
      owner gives a sorted ring, longer by `replicas` per key, whose
      positions again all have an owner, every new one a key of `keys`. */
  lemma AddKeysKeepsRing(ring: seq<u64>, m: map<u64, seq<byte>>, hashFn: seq<byte> -> u64, keys: seq<seq<byte>>, n: nat)
    requires m.Keys == Elems(ring)
    ensures Sorted(SortAscending(ring + ReplicaHashes(hashFn, keys, n)))
    ensures |SortAscending(ring + ReplicaHashes(hashFn, keys, n))| == |ring| + |keys| * n
    ensures Owners(m, hashFn, keys, n).Keys == Elems(SortAscending(ring + ReplicaHashes(hashFn, keys, n)))
    ensures forall h :: h in Owners(m, hashFn, keys, n) && h !in m ==> Owners(m, hashFn, keys, n)[h] in keys
  {
    var added := ReplicaHashes(hashFn, keys, n);
    var pushed := ring + added;
    OwnersFacts(m, hashFn, keys, n);
    SameElements(pushed, SortAscending(pushed));
    ElemsAppend(ring, added);
  }

  lemma ElemsAppend(a: seq<u64>, b: seq<u64>)
    ensures Elems(a + b) == Elems(a) + Elems(b)
  {
  }

  /** `p` splits sorted `s` into the positions below `h` and the ones at
      or after it. */
  predicate IsLowerBound(s: seq<u64>, h: u64, p: nat)
  {
    && p <= |s|
    && (forall j :: 0 <= j < p ==> s[j] < h)
    && (forall j :: p <= j < |s| ==> h <= s[j])
  }

  /** There is only one such split. */
  lemma LowerBoundUnique(s: seq<u64>, h: u64, p: nat, q: nat)
    requires IsLowerBound(s, h, p) && IsLowerBound(s, h, q)
    ensures p == q
  {
    var m := if p < q then p else q;
    if m < |s| {
      SplitAgrees(s, h, p, q, m);
    }
  }

  lemma SplitAgrees(s: seq<u64>, h: u64, p: nat, q: nat, j: nat)
    requires IsLowerBound(s, h, p) && IsLowerBound(s, h, q) && j < |s|
    ensures j < p <==> j < q
  {
    assert j < p <==> s[j] < h;
    assert j < q <==> s[j] < h;
  }

  /** Index of the first element of sorted `s` at or after `h`, by halving
      the range `[lo, hi)` that can still hold it. */
  function Search(s: seq<u64>, h: u64, lo: nat, hi: nat): (r: nat)
    requires Sorted(s) && lo <= hi <= |s|
    requires forall j :: 0 <= j < lo ==> s[j] < h
    requires forall j :: hi <= j < |s| ==> h <= s[j]
    ensures lo <= r <= hi && IsLowerBound(s, h, r)
    decreases hi - lo
  {
    if lo == hi then lo
    else
      var mid := lo + (hi - lo) / 2;
      if s[mid] < h then Search(s, h, mid + 1, hi) else Search(s, h, lo, mid)
  }

  /** The answers `binary_search` may give: `Ok` with any index holding
      `h`, or `Err` with the insertion point when `h` is absent. */
  predicate BinarySearchAnswer(s: seq<u64>, h: u64, answer: Result<nat, nat>)
  {
    match answer
    case Ok(i) => i < |s| && s[i] == h
    case Err(i) => h !in s && IsLowerBound(s, h, i)
  }

  /** Whichever answer `binary_search` gives, the index it yields is past
      the end exactly when the first position at or after `h` is, and
      otherwise holds the same ring position. */
  lemma AnyAnswerSamePosition(s: seq<u64>, h: u64, answer: Result<nat, nat>)
    requires Sorted(s) && BinarySearchAnswer(s, h, answer)
    ensures var first := Search(s, h, 0, |s|);
            var i := if answer.Ok? then answer.value else answer.error;
            (i == |s| <==> first == |s|) && (i < |s| ==> s[i] == s[first])
  {
    var first := Search(s, h, 0, |s|);
    match answer
    case Ok(i) =>
      assert s[first] == h by {
        assert first <= i;
        assert h <= s[first] <= s[i];
      }
    case Err(i) =>
      LowerBoundUnique(s, h, i, first);
  }

  /** The lookup of `get` on a sorted ring whose positions all have an
      owner: the owner of the first position at or after `h`, or `None`
      (the out-of-bounds index) when every position is below `h`. */
  function RingOwner(ring: seq<u64>, owners: map<u64, seq<byte>>, h: u64): (r: Option<seq<byte>>)
    requires Sorted(ring) && owners.Keys == Elems(ring)
    ensures r.None? <==> forall j :: 0 <= j < |ring| ==> ring[j] < h
    ensures r.Some? ==> exists j :: 0 <= j < |ring| && h <= ring[j] &&
                          (forall i :: 0 <= i < j ==> ring[i] < h) &&
                          r.value == owners[ring[j]]
  {
    var index := Search(ring, h, 0, |ring|);
    if index == |ring| then None
    else
      assert ring[index] in Elems(ring);
      Some(owners[ring[index]])
  }

  /** The lookup a consistent-hash ring is meant to make: past the last
      position it wraps around to the first, so it fails only on an empty
      ring. */
  function RingOwnerWrapping(ring: seq<u64>, owners: map<u64, seq<byte>>, h: u64): (r: Option<seq<byte>>)
    requires Sorted(ring) && owners.Keys == Elems(ring)
    ensures r.None? <==> ring == []
    ensures RingOwner(ring, owners, h).Some? ==> r == RingOwner(ring, owners, h)
    ensures r.Some? && RingOwner(ring, owners, h).None? ==> r.value == owners[ring[0]]
    ensures r.Some? ==> exists j :: 0 <= j < |ring| && r.value == owners[ring[j]]
  {
    match RingOwner(ring, owners, h)
    case Some(o) => Some(o)
    case None =>
      if ring == [] then None
      else
        assert ring[0] in Elems(ring);
        Some(owners[ring[0]])
  }

  /** A ring with one position, 5, owned by key "a": a key hashing to 9
      makes `get` index past the end, where the wrapping lookup answers
      "a". */
  lemma GetPastLastPosition()
    ensures Sorted([5]) && map[5 := [97]].Keys == Elems([5])
    ensures RingOwner([5], map[5 := [97]], 9).None?
    ensures RingOwnerWrapping([5], map[5 := [97]], 9) == Some([97])
  {
    assert Elems([5]) == {5};
  }

  class ConsistentHash {
    const hashFn: seq<byte> -> u64
    const replicas: u32
    /** Ring positions, duplicates included. */
    var hashKeys: seq<u64>
    var hashMap: map<u64, seq<byte>>

    /** Positions are sorted and every position has an owner. */
    ghost predicate Valid()
      reads this
    {
      && replicas >= 1
      && Sorted(hashKeys)
      && hashMap.Keys == Elems(hashKeys)
    }

    /** `ConsistentHashBuilder::build`: an empty ring; the builder panics
        when `replicas < 1`. */
    constructor Build(replicas: u32, hashFn: seq<byte> -> u64)
      requires replicas >= 1
      ensures Valid() && this.replicas == replicas && this.hashFn == hashFn
      ensures hashKeys == [] && hashMap == map[]
    {
      this.replicas := replicas;
      this.hashFn := hashFn;
      hashKeys := [];
      hashMap := map[];
    }

    /** The ring has no key exactly when it has no position. */
    function IsEmpty(): (r: bool)
      requires Valid()
      reads this
      ensures r <==> hashKeys == []
    {
      assert hashKeys != [] ==> hashKeys[0] in hashMap;
      assert hashKeys == [] ==> hashMap.Keys == {};
      |hashMap| == 0
    }

    /** `add_keys`: places `replicas` positions per key, each owned by
        that key, then sorts the positions. */
    method AddKeys(keys: seq<seq<byte>>)
      requires Valid()
      modifies this
      ensures Valid()
      ensures hashKeys == SortAscending(old(hashKeys) + ReplicaHashes(hashFn, keys, replicas))
      ensures hashMap == Owners(old(hashMap), hashFn, keys, replicas)
    {
      ghost var ring, owners := hashKeys, hashMap;
      PushKeys(keys);
      hashKeys := SortAscending(hashKeys);
      AddKeysKeepsRing(ring, owners, hashFn, keys, replicas);
    }

    /** The loops of `add_keys`, before the sort. */
    method PushKeys(keys: seq<seq<byte>>)
      modifies this
      ensures hashKeys == old(hashKeys) + ReplicaHashes(hashFn, keys, replicas)
      ensures hashMap == Owners(old(hashMap), hashFn, keys, replicas)
    {
      ghost var ring, owners := hashKeys, hashMap;
      var a := 0;
      while a < |keys|
        invariant a <= |keys|
        invariant hashKeys == ring + ReplicaHashes(hashFn, keys[..a], replicas)
        invariant hashMap == Owners(owners, hashFn, keys[..a], replicas)
      {
        AddReplicas(keys[a]);
        PrefixStep(owners, hashFn, keys, a, replicas);
        a := a + 1;
      }
      assert keys[..a] == keys;
    }

    /** The inner loop of `add_keys`: pushes the positions of the
        `replicas` replicas of `k`, each owned by `k`. */
    method AddReplicas(k: seq<byte>)
      modifies this
      ensures hashKeys == old(hashKeys) + KeyHashes(hashFn, k, replicas)
      ensures hashMap == KeyOwners(old(hashMap), hashFn, k, replicas)
    {
      var i := 0;
      while i < replicas
        invariant i <= replicas
        invariant hashKeys == old(hashKeys) + KeyHashes(hashFn, k, i)
        invariant hashMap == KeyOwners(old(hashMap), hashFn, k, i)
      {
        var bytes := LittleEndian(i, 8) + k;
        var hash := hashFn(bytes);
        hashMap := hashMap[hash := k];
        hashKeys := hashKeys + [hash];
        i := i + 1;
      }
    }

    /** `get`: owner of the first ring position at or after the key's hash;
        `None` is the panic on an empty ring or a hash past the last
        position. */
    function Get(key: seq<byte>): (r: Option<seq<byte>>)
      requires Valid()
      reads this
      ensures r.None? <==> forall j :: 0 <= j < |hashKeys| ==> hashKeys[j] < hashFn(key)
      ensures r.Some? ==> exists j :: 0 <= j < |hashKeys| && hashFn(key) <= hashKeys[j] &&
                            (forall i :: 0 <= i < j ==> hashKeys[i] < hashFn(key)) &&
                            r.value == hashMap[hashKeys[j]]
    {
      RingOwner(hashKeys, hashMap, hashFn(key))
    }
  }
}
