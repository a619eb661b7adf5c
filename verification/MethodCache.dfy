/** The cache of resolved virtual methods: hash chains and an order of use, both threaded through the
  * same entries.  Whatever is evicted and re-chained, it answers as the type system would. */
module MethodCache {
  import opened LinkRings

  datatype Option<T> = None | Some(value: T)

  datatype Key = Key(cls: int, mdVirtual: int)

  datatype Payload = Payload(key: Key, md: int)

  // ----- Several rings over one index space

  /** The first occurrence of an element taken out. */
  function Drop(s: seq<nat>, x: nat): seq<nat> {
    if s == [] then [] else if s[0] == x then s[1..] else [s[0]] + Drop(s[1..], x)
  }

  lemma {:induction false} DropAt(s: seq<nat>, j: nat)
    requires j < |s| && forall a, b :: 0 <= a < b < |s| ==> s[a] != s[b]
    ensures Drop(s, s[j]) == Without(s, j)
  {
    if j > 0 {
      assert s[0] != s[j];
      DropAt(s[1..], j - 1);
      assert Without(s, j) == [s[0]] + Without(s[1..], j - 1);
    }
  }

  lemma {:induction false} DropMissing(s: seq<nat>, x: nat)
    requires x !in s
    ensures Drop(s, x) == s
  {
    if s != [] {
      assert s[0] in s;
      DropMissing(s[1..], x);
      assert s == [s[0]] + s[1..];
    }
  }

  /** Entries are the indices below `entries`; ring `b` has its head at `entries + b`.  Every entry is
    * in one ring at most, and the others, except `loose`, are linked to themselves. */
  ghost predicate Family(l: Links, entries: nat, chains: seq<seq<nat>>, loose: set<nat>) {
    && l.Closed(entries + |chains|) && |l.next| == entries + |chains|
    && (forall b :: 0 <= b < |chains| ==> Ring(l, entries + b, chains[b]) && Distinct(entries + b, chains[b]))
    && (forall b, x :: 0 <= b < |chains| && x in chains[b] ==> x < entries)
    && (forall b, c, x :: 0 <= b < |chains| && 0 <= c < |chains| && x in chains[b] && x in chains[c] ==> b == c)
    && (forall x: nat :: x < entries && x !in loose && !Chained(chains, x) ==> l.next[x] == x && l.prev[x] == x)
  }

  ghost predicate Chained(chains: seq<seq<nat>>, x: nat) {
    exists b :: 0 <= b < |chains| && x in chains[b]
  }

  function Dropped(chains: seq<seq<nat>>, x: nat): seq<seq<nat>> {
    seq(|chains|, b requires 0 <= b < |chains| => Drop(chains[b], x))
  }

  function MovedChains(chains: seq<seq<nat>>, b: nat, x: nat): seq<seq<nat>>
    requires b < |chains|
  {
    Dropped(chains, x)[b := [x] + Drop(chains[b], x)]
  }

  /** MoveEntryToTop: the entry leaves its ring, if it is in one, and comes first in ring `b`. */
  lemma FamilyMove(l: Links, entries: nat, chains: seq<seq<nat>>, b: nat, x: nat)
    requires Family(l, entries, chains, {}) && b < |chains| && x < entries
    ensures Family(MovedToTop(l, entries + b, x), entries, MovedChains(chains, b, x), {})
  {
    assert Pair(l, entries + b, chains[b], -1);
    if l.next[entries + b] == x {
      assert chains[b] != [] && chains[b][0] == x;
      AlreadyFirst(l, entries, chains, b, x);
    } else {
      FamilyUnlink(l, entries, chains, x);
      FamilyInsert(Unlinked(l, x), entries, Dropped(chains, x), b, x);
    }
  }

  lemma AlreadyFirst(l: Links, entries: nat, chains: seq<seq<nat>>, b: nat, x: nat)
    requires Family(l, entries, chains, {}) && b < |chains| && chains[b] != [] && chains[b][0] == x
    ensures MovedChains(chains, b, x) == chains
  {
    forall c | 0 <= c < |chains| && c != b ensures Drop(chains[c], x) == chains[c] {
      DropMissing(chains[c], x);
    }
    assert [x] + chains[b][1..] == chains[b];
  }

  lemma FamilyUnlink(l: Links, entries: nat, chains: seq<seq<nat>>, x: nat)
    requires Family(l, entries, chains, {}) && x < entries
    ensures Family(Unlinked(l, x), entries, Dropped(chains, x), {x}) && !Chained(Dropped(chains, x), x)
  {
    if Chained(chains, x) {
      var c :| 0 <= c < |chains| && x in chains[c];
      var j :| 0 <= j < |chains[c]| && chains[c][j] == x;
      UnlinkFrom(l, entries, chains, c, j, x);
    } else {
      forall c | 0 <= c < |chains| ensures Drop(chains[c], x) == chains[c] {
        DropMissing(chains[c], x);
      }
      assert Dropped(chains, x) == chains;
      assert Unlinked(l, x) == l;
    }
  }

  lemma UnlinkFrom(l: Links, entries: nat, chains: seq<seq<nat>>, c: nat, j: nat, x: nat)
    requires Family(l, entries, chains, {}) && c < |chains| && j < |chains[c]| && chains[c][j] == x && x < entries
    ensures Family(Unlinked(l, x), entries, Dropped(chains, x), {x}) && !Chained(Dropped(chains, x), x)
  {
    hide Ring, Distinct, Unlinked, Drop;
    var l' := Unlinked(l, x);
    ChainIsDistinct(l, entries, chains, c);
    DropAt(chains[c], j);
    UnlinkRing(l, entries + c, chains[c], j);
    UnlinkTouches(l, entries + c, chains[c], j);
    forall d | 0 <= d < |chains| && d != c ensures Drop(chains[d], x) == chains[d] && Ring(l', entries + d, chains[d]) {
      assert x !in chains[d];
      DropMissing(chains[d], x);
      RingFrame(l, l', entries + d, chains[d]);
    }
    assert Dropped(chains, x) == chains[c := Without(chains[c], j)];
    forall y: nat | y < entries && y != x && !Chained(Dropped(chains, x), y) ensures l'.next[y] == y && l'.prev[y] == y {
      assert !Chained(chains, y) by {
        forall d | 0 <= d < |chains| ensures y !in chains[d] {
          assert y !in Dropped(chains, x)[d];
        }
      }
    }
  }

  lemma ChainIsDistinct(l: Links, entries: nat, chains: seq<seq<nat>>, c: nat)
    requires Family(l, entries, chains, {}) && c < |chains|
    ensures forall a, b :: 0 <= a < b < |chains[c]| ==> chains[c][a] != chains[c][b]
  {
  }

  /** Unlinking writes to indices of the same ring only. */
  lemma UnlinkTouches(l: Links, head: nat, s: seq<nat>, j: nat)
    requires Ring(l, head, s) && j < |s| && l.Closed(|l.next|) && s[j] < |l.next|
    ensures forall y :: 0 <= y < |l.next| && y != head && y !in s ==>
      Unlinked(l, s[j]).next[y] == l.next[y] && Unlinked(l, s[j]).prev[y] == l.prev[y]
    ensures Unlinked(l, s[j]).Closed(|l.next|)
  {
    assert Pair(l, head, s, j - 1) && Pair(l, head, s, j);
    assert At(head, s, j - 1) == head || At(head, s, j - 1) in s;
    assert At(head, s, j + 1) == head || At(head, s, j + 1) in s;
  }

  lemma FamilyInsert(l: Links, entries: nat, chains: seq<seq<nat>>, b: nat, x: nat)
    requires Family(l, entries, chains, {x}) && b < |chains| && x < entries && !Chained(chains, x)
    ensures Family(InsertedAfter(l, entries + b, x), entries, chains[b := [x] + chains[b]], {})
  {
    hide Ring, Distinct, InsertedAfter;
    var l', chains' := InsertedAfter(l, entries + b, x), chains[b := [x] + chains[b]];
    assert x !in chains[b];
    InsertRing(l, entries + b, chains[b], x);
    InsertTouches(l, entries + b, chains[b], x);
    forall d | 0 <= d < |chains| && d != b ensures Ring(l', entries + d, chains[d]) {
      assert x !in chains[d];
      RingFrame(l, l', entries + d, chains[d]);
    }
    InsertDisjoint(chains, b, x);
    forall y: nat | y < entries && !Chained(chains', y) ensures l'.next[y] == y && l'.prev[y] == y {
      assert x in chains'[b] && y !in chains'[b];
      assert !Chained(chains, y) by {
        forall d | 0 <= d < |chains| ensures y !in chains[d] {
          assert y !in chains'[d];
        }
      }
    }
  }

  lemma InsertDisjoint(chains: seq<seq<nat>>, b: nat, x: nat)
    requires b < |chains| && !Chained(chains, x)
    requires forall c, d, y :: 0 <= c < |chains| && 0 <= d < |chains| && y in chains[c] && y in chains[d] ==> c == d
    ensures var chains' := chains[b := [x] + chains[b]];
      forall c, d, y :: 0 <= c < |chains| && 0 <= d < |chains| && y in chains'[c] && y in chains'[d] ==> c == d
  {
    var chains' := chains[b := [x] + chains[b]];
    forall c, d, y | 0 <= c < |chains| && 0 <= d < |chains| && y in chains'[c] && y in chains'[d] ensures c == d {
      if y == x {
        assert c != b ==> x !in chains[c];
        assert d != b ==> x !in chains[d];
      }
    }
  }

  /** Inserting writes to the new element and to indices of the ring only. */
  lemma InsertTouches(l: Links, head: nat, s: seq<nat>, x: nat)
    requires Ring(l, head, s) && l.Closed(|l.next|) && head < |l.next| && x < |l.next|
    ensures forall y :: 0 <= y < |l.next| && y != head && y !in s && y != x ==>
      InsertedAfter(l, head, x).next[y] == l.next[y] && InsertedAfter(l, head, x).prev[y] == l.prev[y]
    ensures InsertedAfter(l, head, x).Closed(|l.next|)
  {
    assert Pair(l, head, s, -1);
    assert At(head, s, 0) == head || At(head, s, 0) in s;
  }

  // ----- The cache

  ghost predicate Members(s: seq<nat>, n: nat) {
    && |s| == n && (forall x: nat :: x in s <==> x < n)
    && (forall i, j :: 0 <= i < j < |s| ==> s[i] != s[j])
  }

  lemma {:induction false} DropMembers(s: seq<nat>, x: nat)
    requires forall i, j :: 0 <= i < j < |s| ==> s[i] != s[j]
    ensures forall y :: y in Drop(s, x) <==> y in s && y != x
    ensures forall i, j :: 0 <= i < j < |Drop(s, x)| ==> Drop(s, x)[i] != Drop(s, x)[j]
    ensures |Drop(s, x)| == |s| - (if x in s then 1 else 0)
  {
    if x in s {
      var j :| 0 <= j < |s| && s[j] == x;
      DropAt(s, j);
      WithoutMembers(s, j);
    } else {
      DropMissing(s, x);
    }
  }

  /** Every chained payload hashes to its bucket and holds the true answer, and no key is chained
    * twice. */
  ghost predicate Truthful(chains: seq<seq<nat>>, payloads: seq<Payload>, bucket: Key -> nat, lookup: Key -> Option<int>) {
    && (forall b, x {:trigger x in chains[b]} :: 0 <= b < |chains| && x in chains[b] ==>
          x < |payloads| && bucket(payloads[x].key) == b && lookup(payloads[x].key) == Some(payloads[x].md))
    && (forall b, x, y :: 0 <= b < |chains| && x in chains[b] && y in chains[b] && x != y && x < |payloads| && y < |payloads| ==>
          payloads[x].key != payloads[y].key)
  }

  lemma ChainedPayload(chains: seq<seq<nat>>, payloads: seq<Payload>, bucket: Key -> nat, lookup: Key -> Option<int>,
                       c: nat, y: nat)
    requires Truthful(chains, payloads, bucket, lookup) && c < |chains| && y in chains[c]
    ensures y < |payloads|
  {
  }

  /** Storing a true answer for a key that is chained nowhere else keeps the cache truthful. */
  lemma StoreKeeps(chains: seq<seq<nat>>, payloads: seq<Payload>, bucket: Key -> nat, lookup: Key -> Option<int>,
                   b: nat, x: nat, p: Payload)
    requires Truthful(chains, payloads, bucket, lookup) && b < |chains| && x < |payloads|
    requires forall c :: 0 <= c < |chains| ==> forall i, j :: 0 <= i < j < |chains[c]| ==> chains[c][i] != chains[c][j]
    requires bucket(p.key) == b && lookup(p.key) == Some(p.md)
    requires forall y :: y in chains[b] && y != x && y < |payloads| ==> payloads[y].key != p.key
    ensures Truthful(MovedChains(chains, b, x), payloads[x := p], bucket, lookup)
  {
    var chains' := MovedChains(chains, b, x);
    assert |chains'| == |chains|;
    forall c, y: nat | 0 <= c < |chains'| && y in chains'[c]
      ensures (y == x && c == b) || (y != x && y in chains[c] && y < |payloads|)
    {
      DropMembers(chains[c], x);
      assert chains'[c] == if c == b then [x] + Drop(chains[b], x) else Drop(chains[c], x);
      if y in Drop(chains[c], x) {
        ChainedPayload(chains, payloads, bucket, lookup, c, y);
      } else {
        assert c == b && y in [x];
      }
    }
    forall c, y, z | 0 <= c < |chains'| && y in chains'[c] && z in chains'[c] && y != z && y < |payloads| && z < |payloads|
      ensures payloads[x := p][y].key != payloads[x := p][z].key
    {
      assert y != x ==> y in chains[c];
      assert z != x ==> z in chains[c];
    }
  }

  class VirtualMethodTable {
    const entries: nat               // PayloadArraySize
    const buckets: nat               // LinkArraySize - PayloadArraySize
    const hash: Key -> nat
    const lookup: Key -> Option<int> // the type system's own search
    const own: Key -> bool           // the class declares the method itself
    const next: array<nat>
    const prev: array<nat>
    const nextMRU: array<nat>
    const prevMRU: array<nat>
    const payloads: array<Payload>
    ghost var chains: seq<seq<nat>>
    ghost var mru: seq<nat>

    function Bucket(key: Key): nat
      requires 0 < buckets
    {
      hash(key) % buckets
    }

    ghost function Table(): Links
      reads next, prev
    {
      Links(next[..], prev[..])
    }

    ghost function Order(): Links
      reads nextMRU, prevMRU
    {
      Links(nextMRU[..], prevMRU[..])
    }

    ghost predicate Shaped() {
      && 0 < entries && 0 < buckets
      && next.Length == prev.Length == entries + buckets && nextMRU.Length == prevMRU.Length == entries + 1
      && payloads.Length == entries
      && next != prev && nextMRU != prevMRU && next != nextMRU && next != prevMRU && prev != nextMRU && prev != prevMRU
      && (forall key :: own(key) ==> lookup(key) == Some(key.mdVirtual))
    }

    ghost predicate Valid()
      reads this, next, prev, nextMRU, prevMRU, payloads
    {
      && Shaped() && |chains| == buckets
      && Family(Table(), entries, chains, {}) && Family(Order(), entries, [mru], {}) && Members(mru, entries)
      && Truthful(chains, payloads[..], key => Bucket(key), lookup)
    }

    constructor (entries: nat, buckets: nat, hash: Key -> nat, lookup: Key -> Option<int>, own: Key -> bool)
      requires 0 < entries && 0 < buckets && forall key :: own(key) ==> lookup(key) == Some(key.mdVirtual)
      ensures Valid() && this.entries == entries && this.buckets == buckets
      ensures this.hash == hash && this.lookup == lookup && this.own == own
      ensures mru == seq(entries, i => i) && forall b :: 0 <= b < buckets ==> chains[b] == []
    {
      this.entries, this.buckets, this.hash, this.lookup, this.own := entries, buckets, hash, lookup, own;
      next := new nat[entries + buckets](i => i);
      prev := new nat[entries + buckets](i => i);
      nextMRU := new nat[entries + 1](i => if i == entries then 0 else i + 1);
      prevMRU := new nat[entries + 1](i => if i == 0 then entries else i - 1);
      payloads := new Payload[entries](_ => Payload(Key(0, 0), 0));
      chains := seq(buckets, _ => []);
      mru := seq(entries, i => i);
      new;
      InitialTable(Table(), entries, chains);
      InitialOrder(Order(), entries, mru);
    }

    method MoveEntryToTop(next: array<nat>, prev: array<nat>, slot: nat, idx: nat)
      requires next != prev && Links(next[..], prev[..]).Closed(next.Length) && slot < next.Length && idx < next.Length
      modifies next, prev
      ensures Links(next[..], prev[..]) == MovedToTop(old(Links(next[..], prev[..])), slot, idx)
    {
      if next[slot] != idx {
        var n, p := next[idx], prev[idx];
        prev[n] := p;
        next[p] := n;
        n := next[slot];
        next[idx] := n;
        prev[idx] := slot;
        next[slot] := idx;
        prev[n] := idx;
      }
    }

    /** Walks the chain of the key's bucket. */
    method Search(key: Key) returns (idx: nat, found: bool)
      requires Valid()
      ensures found ==> idx in chains[Bucket(key)] && idx < entries && payloads[idx].key == key
      ensures !found ==> !Hit(chains[Bucket(key)], payloads[..], key)
    {
      hide Distinct, Truthful, Members;
      ghost var chain := chains[Bucket(key)];
      var head := Bucket(key) + entries;
      ghost var i := 0;
      assert Pair(Table(), head, chain, -1);
      idx := next[head];
      while idx != head
        invariant 0 <= i <= |chain| && idx == At(head, chain, i)
        invariant forall j :: 0 <= j < i ==> chain[j] < entries && payloads[chain[j]].key != key
        decreases |chain| - i
      {
        assert idx in chain;
        if payloads[idx].key == key {
          return idx, true;
        }
        assert Pair(Table(), head, chain, i);
        idx := next[idx];
        i := i + 1;
      }
      assert head !in chain;
      assert i == |chain|;
      return idx, false;
    }

    /** The entry unused for longest. */
    method GetNewEntry() returns (idx: nat)
      requires Valid()
      ensures |mru| == entries && idx == mru[entries - 1] && idx < entries
    {
      OrderIsFull(mru, entries);
      assert Pair(Order(), entries, [mru][0], |mru| - 1);
      idx := prevMRU[entries];
      assert idx in mru;
    }

    /** The entry with the answer comes first in its bucket and in the order of use. */
    method Promote(key: Key, idx: nat)
      requires Shaped() && |chains| == buckets && idx < entries
      requires Family(Table(), entries, chains, {}) && Family(Order(), entries, [mru], {}) && Members(mru, entries)
      requires Truthful(MovedChains(chains, Bucket(key), idx), payloads[..], key => Bucket(key), lookup)
      modifies this`chains, this`mru, next, prev, nextMRU, prevMRU
      ensures Valid()
      ensures chains == MovedChains(old(chains), Bucket(key), idx) && mru == [idx] + Drop(old(mru), idx)
    {
      hide Family, Truthful, Members;
      var b := Bucket(key);
      FamilyMove(Table(), entries, chains, b, idx);
      FamilyMove(Order(), entries, [mru], 0, idx);
      OneChain(mru, idx);
      StillMembers(mru, entries, idx);
      TablesAreClosed(Table(), Order(), entries, chains, mru);
      MoveEntryToTop(next, prev, entries + b, idx);
      chains := MovedChains(chains, b, idx);
      MoveEntryToTop(nextMRU, prevMRU, entries, idx);
      mru := [idx] + Drop(mru, idx);
    }

    /** FindVirtualMethod: always the type system's answer.  An answer that is not the shortcut for an
      * own method is in the cache afterwards, first in its bucket and first in the order of use; a
      * missing one replaces the entry unused for longest. */
    method FindVirtualMethod(cls: int, mdVirtual: int) returns (res: Option<int>)
      requires Valid()
      modifies this`chains, this`mru, next, prev, nextMRU, prevMRU, payloads
      ensures Valid()
      ensures res == lookup(Key(cls, mdVirtual))
      ensures own(Key(cls, mdVirtual)) || res.None? ==>
        chains == old(chains) && mru == old(mru) && payloads[..] == old(payloads[..])
      ensures !own(Key(cls, mdVirtual)) && res.Some? ==>
        |mru| == |old(mru)| == entries &&
        var key, x := Key(cls, mdVirtual), mru[0];
        && x < entries && payloads[x] == Payload(key, res.value)
        && chains[Bucket(key)] != [] && chains[Bucket(key)][0] == x
        && mru == [x] + Drop(old(mru), x)
        && (Hit(old(chains)[Bucket(key)], old(payloads[..]), key) ==> payloads[..] == old(payloads[..]))
        && (!Hit(old(chains)[Bucket(key)], old(payloads[..]), key) ==> x == old(mru)[entries - 1])
    {
      hide Family, Truthful, Members;
      var key := Key(cls, mdVirtual);
      if own(key) {
        return Some(mdVirtual);
      }
      var idx, found := Search(key);
      if !found {
        res := lookup(key);
        if res.None? {
          return;
        }
        idx := GetNewEntry();
        MissingEverywhere(chains, payloads[..], key => Bucket(key), lookup, key, Bucket(key));
        StoreFits(Table(), entries, chains, payloads[..], key => Bucket(key), lookup, Bucket(key), idx, Payload(key, res.value));
        payloads[idx] := Payload(key, res.value);
      } else {
        HitIsTrue(Table(), entries, chains, payloads[..], key => Bucket(key), lookup, Bucket(key), idx, key);
        res := Some(payloads[idx].md);
      }
      OrderIsFull(mru, entries);
      Promote(key, idx);
      OrderIsFull(mru, entries);
    }
  }

  /** Some entry of the chain has the key. */
  ghost predicate Hit(chain: seq<nat>, payloads: seq<Payload>, key: Key) {
    exists x :: x in chain && x < |payloads| && payloads[x].key == key
  }

  lemma OrderIsFull(mru: seq<nat>, n: nat)
    requires Members(mru, n)
    ensures |mru| == n && forall x :: x in mru ==> x < n
  {
  }

  lemma OneChain(mru: seq<nat>, x: nat)
    ensures MovedChains([mru], 0, x) == [[x] + Drop(mru, x)]
  {
  }

  lemma StillMembers(mru: seq<nat>, n: nat, x: nat)
    requires Members(mru, n) && x < n
    ensures Members([x] + Drop(mru, x), n)
  {
    DropMembers(mru, x);
    var s := [x] + Drop(mru, x);
    forall i, j | 0 <= i < j < |s| ensures s[i] != s[j] {
      assert s[j] in Drop(mru, x);
    }
  }

  lemma TablesAreClosed(table: Links, order: Links, entries: nat, chains: seq<seq<nat>>, mru: seq<nat>)
    requires Family(table, entries, chains, {}) && Family(order, entries, [mru], {})
    ensures table.Closed(entries + |chains|) && order.Closed(entries + 1)
  {
  }

  /** No chain has the key if its own chain does not. */
  lemma MissingEverywhere(chains: seq<seq<nat>>, payloads: seq<Payload>, bucket: Key -> nat, lookup: Key -> Option<int>,
                          key: Key, b: nat)
    requires Truthful(chains, payloads, bucket, lookup) && b == bucket(key) < |chains| && !Hit(chains[b], payloads, key)
    ensures forall c, x :: 0 <= c < |chains| && x in chains[c] && x < |payloads| ==> payloads[x].key != key
  {
  }

  lemma StoreFits(l: Links, entries: nat, chains: seq<seq<nat>>, payloads: seq<Payload>, bucket: Key -> nat,
                  lookup: Key -> Option<int>, b: nat, x: nat, p: Payload)
    requires Family(l, entries, chains, {}) && Truthful(chains, payloads, bucket, lookup) && b < |chains| && x < |payloads|
    requires bucket(p.key) == b && lookup(p.key) == Some(p.md) && !Hit(chains[b], payloads, p.key)
    ensures Truthful(MovedChains(chains, b, x), payloads[x := p], bucket, lookup)
  {
    StoreKeeps(chains, payloads, bucket, lookup, b, x, p);
  }

  lemma HitIsTrue(l: Links, entries: nat, chains: seq<seq<nat>>, payloads: seq<Payload>, bucket: Key -> nat,
                  lookup: Key -> Option<int>, b: nat, x: nat, key: Key)
    requires Family(l, entries, chains, {}) && Truthful(chains, payloads, bucket, lookup) && b < |chains| && x in chains[b]
    requires x < |payloads| && payloads[x].key == key
    ensures Hit(chains[b], payloads, key) && lookup(key) == Some(payloads[x].md)
    ensures Truthful(MovedChains(chains, b, x), payloads, bucket, lookup)
  {
    StoreKeeps(chains, payloads, bucket, lookup, b, x, payloads[x]);
    assert payloads[x := payloads[x]] == payloads;
  }

  lemma InitialTable(l: Links, entries: nat, chains: seq<seq<nat>>)
    requires |l.next| == |l.prev| == entries + |chains|
    requires forall i :: 0 <= i < |l.next| ==> l.next[i] == i && l.prev[i] == i
    requires forall b :: 0 <= b < |chains| ==> chains[b] == []
    ensures Family(l, entries, chains, {})
  {
  }

  lemma InitialOrder(l: Links, entries: nat, mru: seq<nat>)
    requires 0 < entries && |l.next| == |l.prev| == entries + 1 && mru == seq(entries, i => i)
    requires forall i :: 0 <= i <= entries ==>
      l.next[i] == (if i == entries then 0 else i + 1) && l.prev[i] == (if i == 0 then entries else i - 1)
    ensures Family(l, entries, [mru], {}) && Members(mru, entries)
  {
    forall x: nat | x < entries ensures x in mru {
      assert mru[x] == x;
    }
    forall x | x in mru ensures x < entries {
      var i :| 0 <= i < |mru| && mru[i] == x;
      assert mru[i] == i;
    }
    forall i: int | -1 <= i < |mru| ensures Pair(l, entries, mru, i) {
    }
    assert forall x: nat :: x < entries ==> Chained([mru], x) by {
      forall x: nat | x < entries ensures Chained([mru], x) {
        assert x in [mru][0];
      }
    }
  }
}
