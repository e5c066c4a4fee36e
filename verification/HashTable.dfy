/**
 The chained hash table of src/cf_shash.c.  Each bucket has its first element in the
 table itself; a bucket that collides hangs further elements from it, and deleting the
 first element of several copies its successor over it.

 `mem` is the memory the elements live in: addresses below `len` are the table, the
 others come from and go back to the allocator, so that a use after free would be a
 lookup outside the map and a leak an address no bucket reaches.  Three descriptions are
 kept side by side: the addresses of each bucket (`chains`), the entries of each bucket
 (`lists`), and the map the table stands for (`contents`).  Locks are not modelled.
 */
module HashTable {
  import opened Common

  const Null := -1

  datatype Elem<K, V> = Elem(next: int, inUse: bool, key: K, value: V)

  type Mem<K, V> = map<int, Elem<K, V>>

  // ---------------------------------------------------------------------------
  // One bucket in memory
  // ---------------------------------------------------------------------------

  ghost predicate NoRepeats<T>(s: seq<T>)
  {
    forall j, k :: 0 <= j < k < |s| ==> s[j] != s[k]
  }

  ghost function Succ(chain: seq<int>, j: nat): int
    requires j < |chain|
  {
    if j + 1 < |chain| then chain[j + 1] else Null
  }

  ghost predicate Linked<K, V>(mem: Mem<K, V>, chain: seq<int>)
  {
    && chain != [] && NoRepeats(chain)
    && forall j :: 0 <= j < |chain| ==> chain[j] in mem && mem[chain[j]].next == Succ(chain, j)
  }

  ghost predicate Stores<K, V>(e: Elem<K, V>, entry: (K, V))
  {
    e.inUse && e.key == entry.0 && e.value == entry.1
  }

  /** The elements at `chain` form a bucket with the entries `list`: an empty one is its
      unused first element alone. */
  ghost predicate Bucket<K, V>(mem: Mem<K, V>, chain: seq<int>, list: seq<(K, V)>)
  {
    && Linked(mem, chain)
    && if list == [] then |chain| == 1 && !mem[chain[0]].inUse
       else |chain| == |list| && forall j :: 0 <= j < |list| ==> Stores(mem[chain[j]], list[j])
  }

  ghost predicate Agree<K, V>(mem: Mem<K, V>, now: Mem<K, V>, chain: seq<int>)
  {
    forall p :: p in chain && p in mem ==> p in now && now[p] == mem[p]
  }

  lemma BucketStays<K, V>(mem: Mem<K, V>, now: Mem<K, V>, chain: seq<int>, list: seq<(K, V)>)
    requires Bucket(mem, chain, list) && Agree(mem, now, chain)
    ensures Bucket(now, chain, list)
  {
    forall j | 0 <= j < |chain| ensures chain[j] in now && now[chain[j]] == mem[chain[j]]
    {
      var p := chain[j];
      assert p in chain && p in mem;
    }
  }

  function Filled<K, V>(mem: Mem<K, V>, head: int, k: K, v: V): Mem<K, V>
    requires head in mem
  {
    mem[head := mem[head].(inUse := true, key := k, value := v)]
  }

  lemma BucketFills<K, V>(mem: Mem<K, V>, chain: seq<int>, k: K, v: V)
    requires Bucket(mem, chain, [])
    ensures Bucket(Filled(mem, chain[0], k, v), chain, [(k, v)])
  {
  }

  function Inserted<K, V>(mem: Mem<K, V>, head: int, p: int, k: K, v: V): Mem<K, V>
    requires head in mem
  {
    mem[p := Elem(mem[head].next, true, k, v)][head := mem[head].(next := p)]
  }

  lemma BucketInserts<K, V>(mem: Mem<K, V>, chain: seq<int>, list: seq<(K, V)>, p: int, k: K, v: V)
    requires Bucket(mem, chain, list) && list != [] && p !in mem
    ensures Bucket(Inserted(mem, chain[0], p, k, v), [chain[0], p] + chain[1..], [list[0], (k, v)] + list[1..])
  {
    var now, after, entries := Inserted(mem, chain[0], p, k, v), [chain[0], p] + chain[1..],
      [list[0], (k, v)] + list[1..];
    forall j | 0 <= j < |after|
      ensures after[j] in now && now[after[j]].next == Succ(after, j) && Stores(now[after[j]], entries[j])
    {
      if j >= 2 { assert after[j] == chain[j - 1] && entries[j] == list[j - 1]; }
    }
  }

  function Written<K, V>(mem: Mem<K, V>, p: int, v: V): Mem<K, V>
    requires p in mem
  {
    mem[p := mem[p].(value := v)]
  }

  lemma BucketWrites<K, V>(mem: Mem<K, V>, chain: seq<int>, list: seq<(K, V)>, j: nat, v: V)
    requires Bucket(mem, chain, list) && j < |list|
    ensures Bucket(Written(mem, chain[j], v), chain, list[j := (list[j].0, v)])
  {
  }

  /** The patch-up of a deletion: `e` after `prev`, or first in its bucket. */
  function Unlinked<K, V>(mem: Mem<K, V>, prev: int, e: int): Mem<K, V>
    requires e in mem && (prev != Null ==> prev in mem)
    requires prev == Null && mem[e].next != Null ==> mem[e].next in mem
  {
    if prev != Null then
      mem[prev := mem[prev].(next := mem[e].next)] - {e}
    else if mem[e].next == Null then
      mem[e := mem[e].(inUse := false)]
    else
      mem[e := mem[mem[e].next]] - {mem[e].next}
  }

  /** The address a deletion of element `j` frees, if it frees one. */
  ghost function Freed(chain: seq<int>, j: nat): int
    requires j < |chain|
  {
    if j > 0 then chain[j] else Succ(chain, 0)
  }

  ghost function Shortened(chain: seq<int>, j: nat): seq<int>
    requires j < |chain|
  {
    if j > 0 then Without(chain, j) else if |chain| == 1 then chain else Without(chain, 1)
  }

  lemma UnlinksInner<K, V>(mem: Mem<K, V>, chain: seq<int>, list: seq<(K, V)>, j: nat)
    requires Bucket(mem, chain, list) && 0 < j < |list|
    ensures Bucket(mem[chain[j - 1] := mem[chain[j - 1]].(next := mem[chain[j]].next)] - {chain[j]},
                   Without(chain, j), Without(list, j))
  {
    var now := mem[chain[j - 1] := mem[chain[j - 1]].(next := mem[chain[j]].next)] - {chain[j]};
    var after, entries := Without(chain, j), Without(list, j);
    forall i | 0 <= i < |after|
      ensures after[i] in now && now[after[i]].next == Succ(after, i) && Stores(now[after[i]], entries[i])
    {
      var was := if i < j then i else i + 1;
      assert after[i] == chain[was] && entries[i] == list[was];
    }
  }

  lemma UnlinksHead<K, V>(mem: Mem<K, V>, chain: seq<int>, list: seq<(K, V)>)
    requires Bucket(mem, chain, list) && 1 < |list|
    ensures Bucket(mem[chain[0] := mem[chain[1]]] - {chain[1]}, Without(chain, 1), Without(list, 0))
  {
    var now := mem[chain[0] := mem[chain[1]]] - {chain[1]};
    var after, entries := Without(chain, 1), Without(list, 0);
    forall i | 0 <= i < |after|
      ensures after[i] in now && now[after[i]].next == Succ(after, i) && Stores(now[after[i]], entries[i])
    {
      if i > 0 { assert after[i] == chain[i + 1] && entries[i] == list[i + 1]; }
    }
  }

  /** In all three layouts a deletion takes exactly one entry out of the bucket. */
  lemma BucketUnlinks<K, V>(mem: Mem<K, V>, chain: seq<int>, list: seq<(K, V)>, j: nat)
    requires Bucket(mem, chain, list) && j < |list| && Null !in mem
    ensures (if j > 0 then chain[j - 1] else Null) in mem || j == 0
    ensures j == 0 && mem[chain[j]].next != Null ==> mem[chain[j]].next in mem
    ensures Bucket(Unlinked(mem, if j > 0 then chain[j - 1] else Null, chain[j]), Shortened(chain, j), Without(list, j))
    ensures Unlinked(mem, if j > 0 then chain[j - 1] else Null, chain[j]).Keys == mem.Keys - {Freed(chain, j)}
  {
    assert chain[j] in mem && mem[chain[j]].next == Succ(chain, j);
    if j > 0 {
      UnlinksInner(mem, chain, list, j);
    } else if |list| > 1 {
      UnlinksHead(mem, chain, list);
    }
  }

  // ---------------------------------------------------------------------------
  // All buckets
  // ---------------------------------------------------------------------------

  ghost predicate Owned(chain: seq<int>, i: nat, owner: map<int, nat>)
  {
    chain != [] && chain[0] == i && forall p :: p in chain ==> p in owner && owner[p] == i
  }

  ghost predicate BucketAt<K, V>(mem: Mem<K, V>, chains: seq<seq<int>>, lists: seq<seq<(K, V)>>, owner: map<int, nat>,
                                 i: nat)
    requires i < |chains| == |lists|
  {
    Bucket(mem, chains[i], lists[i]) && Owned(chains[i], i, owner)
  }

  /** Every bucket is well formed, no address is in two of them, and every allocated
      address is in one. */
  ghost predicate Buckets<K, V>(len: nat, mem: Mem<K, V>, chains: seq<seq<int>>, lists: seq<seq<(K, V)>>,
                                owner: map<int, nat>)
  {
    && |chains| == |lists| == len
    && (forall i :: 0 <= i < len ==> BucketAt(mem, chains, lists, owner, i))
    && owner.Keys == mem.Keys
    && (forall p :: p in owner ==> 0 <= p && owner[p] < len && p in chains[owner[p]])
  }

  /** Bucket `i` changes, at addresses that are its own or newly allocated. */
  lemma BucketsChange<K, V>(len: nat, mem: Mem<K, V>, chains: seq<seq<int>>, lists: seq<seq<(K, V)>>,
                            owner: map<int, nat>, now: Mem<K, V>, i: nat, chain: seq<int>, list: seq<(K, V)>,
                            newOwner: map<int, nat>)
    requires Buckets(len, mem, chains, lists, owner) && i < len
    requires Bucket(now, chain, list) && Owned(chain, i, newOwner)
    requires newOwner.Keys == now.Keys
    requires forall p :: p in owner && owner[p] != i ==> p in now && now[p] == mem[p] && newOwner[p] == owner[p]
    requires forall p :: p in newOwner && newOwner[p] != i ==> p in owner && owner[p] == newOwner[p]
    requires forall p :: p in newOwner && newOwner[p] == i ==> 0 <= p && p in chain
    ensures Buckets(len, now, chains[i := chain], lists[i := list], newOwner)
  {
    var allChains, allLists := chains[i := chain], lists[i := list];
    forall b | 0 <= b < len
      ensures BucketAt(now, allChains, allLists, newOwner, b)
    {
      if b != i {
        assert BucketAt(mem, chains, lists, owner, b);
        BucketStays(mem, now, chains[b], lists[b]);
      }
    }
  }

  lemma BucketsFill<K, V>(len: nat, mem: Mem<K, V>, chains: seq<seq<int>>, lists: seq<seq<(K, V)>>,
                          owner: map<int, nat>, i: nat, k: K, v: V)
    requires Buckets(len, mem, chains, lists, owner) && i < len && lists[i] == []
    ensures i in mem && Buckets(len, Filled(mem, i, k, v), chains, lists[i := [(k, v)]], owner)
  {
    assert BucketAt(mem, chains, lists, owner, i);
    BucketFills(mem, chains[i], k, v);
    BucketsChange(len, mem, chains, lists, owner, Filled(mem, i, k, v), i, chains[i], [(k, v)], owner);
    assert chains[i := chains[i]] == chains;
  }

  lemma BucketsInsert<K, V>(len: nat, mem: Mem<K, V>, chains: seq<seq<int>>, lists: seq<seq<(K, V)>>,
                            owner: map<int, nat>, i: nat, p: int, k: K, v: V)
    requires Buckets(len, mem, chains, lists, owner) && i < len && lists[i] != [] && p !in mem && 0 <= p
    ensures i in mem && chains[i] != []
    ensures Buckets(len, Inserted(mem, i, p, k, v), chains[i := [i, p] + chains[i][1..]],
                    lists[i := [lists[i][0], (k, v)] + lists[i][1..]], owner[p := i])
  {
    assert BucketAt(mem, chains, lists, owner, i);
    BucketInserts(mem, chains[i], lists[i], p, k, v);
    var chain := [i, p] + chains[i][1..];
    assert forall x :: x in chains[i] ==> x in chain;
    BucketsChange(len, mem, chains, lists, owner, Inserted(mem, i, p, k, v), i, chain,
                  [lists[i][0], (k, v)] + lists[i][1..], owner[p := i]);
  }

  lemma BucketsWrite<K, V>(len: nat, mem: Mem<K, V>, chains: seq<seq<int>>, lists: seq<seq<(K, V)>>,
                           owner: map<int, nat>, i: nat, j: nat, v: V)
    requires Buckets(len, mem, chains, lists, owner) && i < len && j < |lists[i]|
    ensures j < |chains[i]| && chains[i][j] in mem
    ensures Buckets(len, Written(mem, chains[i][j], v), chains, lists[i := lists[i][j := (lists[i][j].0, v)]], owner)
  {
    assert BucketAt(mem, chains, lists, owner, i);
    BucketWrites(mem, chains[i], lists[i], j, v);
    assert chains[i][j] in chains[i];
    BucketsChange(len, mem, chains, lists, owner, Written(mem, chains[i][j], v), i, chains[i],
                  lists[i][j := (lists[i][j].0, v)], owner);
    assert chains[i := chains[i]] == chains;
  }

  ghost function Before(chain: seq<int>, j: nat): int
    requires j <= |chain|
  {
    if j > 0 then chain[j - 1] else Null
  }

  lemma BucketsUnlink<K, V>(len: nat, mem: Mem<K, V>, chains: seq<seq<int>>, lists: seq<seq<(K, V)>>,
                            owner: map<int, nat>, i: nat, j: nat)
    requires Buckets(len, mem, chains, lists, owner) && i < len && j < |lists[i]|
    ensures j < |chains[i]| && chains[i][j] in mem
    ensures Before(chains[i], j) != Null ==> Before(chains[i], j) in mem
    ensures Before(chains[i], j) == Null && mem[chains[i][j]].next != Null ==> mem[chains[i][j]].next in mem
    ensures Buckets(len, Unlinked(mem, Before(chains[i], j), chains[i][j]), chains[i := Shortened(chains[i], j)],
                    lists[i := Without(lists[i], j)], owner - {Freed(chains[i], j)})
  {
    assert BucketAt(mem, chains, lists, owner, i);
    var chain := chains[i];
    BucketUnlinks(mem, chain, lists[i], j);
    UnlinkKeepsOthers(mem, chain, lists[i], j, owner, i);
    ShortenedHas(chain, j);
    if j > 0 { assert chain[j - 1] in chain; }
    BucketsChange(len, mem, chains, lists, owner, Unlinked(mem, Before(chain, j), chain[j]), i, Shortened(chain, j),
                  Without(lists[i], j), owner - {Freed(chain, j)});
  }

  lemma ShortenedHas(chain: seq<int>, j: nat)
    requires j < |chain| && NoRepeats(chain)
    ensures forall p :: p in chain && p != Freed(chain, j) ==> p in Shortened(chain, j)
    ensures forall p :: p in Shortened(chain, j) ==> p in chain && (p != Freed(chain, j) || (p == Null && j == 0))
    ensures Shortened(chain, j)[0] == chain[0]
  {
    var cut := if j > 0 then j else 1;
    if cut < |chain| {
      assert Shortened(chain, j) == Without(chain, cut) && Freed(chain, j) == chain[cut];
      WithoutHas(chain, cut);
    } else {
      assert Freed(chain, j) == Null;
    }
  }

  lemma WithoutHas(chain: seq<int>, cut: nat)
    requires cut < |chain| && NoRepeats(chain)
    ensures forall p :: p in Without(chain, cut) <==> p in chain && p != chain[cut]
  {
    var after := Without(chain, cut);
    forall p | p in chain && p != chain[cut] ensures p in after
    {
      var j :| 0 <= j < |chain| && chain[j] == p;
      assert after[if j < cut then j else j - 1] == p;
    }
    forall p | p in after ensures p in chain && p != chain[cut]
    {
      var j :| 0 <= j < |after| && after[j] == p;
      assert chain[if j < cut then j else j + 1] == p;
    }
  }

  lemma UnlinkKeepsOthers<K, V>(mem: Mem<K, V>, chain: seq<int>, list: seq<(K, V)>, j: nat, owner: map<int, nat>,
                                i: nat)
    requires Bucket(mem, chain, list) && j < |list| && Null !in mem && Owned(chain, i, owner)
    ensures Before(chain, j) != Null ==> Before(chain, j) in mem
    ensures Before(chain, j) == Null && mem[chain[j]].next != Null ==> mem[chain[j]].next in mem
    ensures var now := Unlinked(mem, Before(chain, j), chain[j]);
            forall p :: p in mem && (p in owner ==> owner[p] != i) ==> p in now && now[p] == mem[p]
  {
    assert chain[j] in chain;
    assert mem[chain[j]].next == Succ(chain, j);
    if j > 0 { assert chain[j - 1] in chain; }
    if j + 1 < |chain| { assert chain[j + 1] in chain; }
  }

  // ---------------------------------------------------------------------------
  // Entry lists and the map
  // ---------------------------------------------------------------------------

  ghost predicate DistinctKeys<K, V>(list: seq<(K, V)>)
  {
    forall j, k :: 0 <= j < k < |list| ==> list[j].0 != list[k].0
  }

  ghost predicate ListOf<K, V>(list: seq<(K, V)>, i: nat, contents: map<K, V>, home: K -> nat)
  {
    && DistinctKeys(list)
    && forall j :: 0 <= j < |list| ==> list[j].0 in contents && contents[list[j].0] == list[j].1 && home(list[j].0) == i
  }

  ghost predicate HasKey<K, V>(list: seq<(K, V)>, k: K)
  {
    exists j :: 0 <= j < |list| && list[j].0 == k
  }

  ghost predicate ListAt<K, V>(lists: seq<seq<(K, V)>>, contents: map<K, V>, home: K -> nat, i: nat)
    requires i < |lists|
  {
    ListOf(lists[i], i, contents, home)
  }

  /** Every key is in its own bucket, once, with its value. */
  ghost predicate Represents<K, V>(lists: seq<seq<(K, V)>>, contents: map<K, V>, home: K -> nat)
  {
    && (forall i :: 0 <= i < |lists| ==> ListAt(lists, contents, home, i))
    && (forall k :: k in contents ==> home(k) < |lists| && HasKey(lists[home(k)], k))
  }

  /** A key hangs in its own bucket or nowhere. */
  lemma KeyIsHome<K, V>(lists: seq<seq<(K, V)>>, contents: map<K, V>, home: K -> nat, k: K)
    requires Represents(lists, contents, home) && home(k) < |lists|
    ensures HasKey(lists[home(k)], k) <==> k in contents
  {
    assert ListAt(lists, contents, home, home(k));
  }

  lemma MapAdds<K, V>(lists: seq<seq<(K, V)>>, contents: map<K, V>, home: K -> nat, k: K, v: V, list: seq<(K, V)>,
                      at: nat)
    requires Represents(lists, contents, home) && home(k) < |lists| && k !in contents
    requires at <= |lists[home(k)]| && list == lists[home(k)][..at] + [(k, v)] + lists[home(k)][at..]
    ensures Represents(lists[home(k) := list], contents[k := v], home)
  {
    var i, now := home(k), contents[k := v];
    assert ListAt(lists, contents, home, i);
    var after := lists[i := list];
    forall b | 0 <= b < |lists| ensures ListAt(after, now, home, b)
    {
      assert ListAt(lists, contents, home, b);
    }
    assert list[at].0 == k;
    forall x | x in now ensures home(x) < |lists| && HasKey(after[home(x)], x)
    {
      if x != k && home(x) == i {
        var j :| 0 <= j < |lists[i]| && lists[i][j].0 == x;
        assert list[if j < at then j else j + 1].0 == x;
      }
    }
  }

  lemma MapWrites<K, V>(lists: seq<seq<(K, V)>>, contents: map<K, V>, home: K -> nat, k: K, v: V, j: nat)
    requires Represents(lists, contents, home) && home(k) < |lists| && j < |lists[home(k)]| && lists[home(k)][j].0 == k
    ensures k in contents
    ensures Represents(lists[home(k) := lists[home(k)][j := (k, v)]], contents[k := v], home)
  {
    var i, now := home(k), contents[k := v];
    var list := lists[i][j := (k, v)];
    assert ListAt(lists, contents, home, i);
    var after := lists[i := list];
    forall b | 0 <= b < |lists| ensures ListAt(after, now, home, b)
    {
      assert ListAt(lists, contents, home, b);
    }
    forall x | x in now ensures home(x) < |lists| && HasKey(after[home(x)], x)
    {
      if home(x) == i {
        var m :| 0 <= m < |lists[i]| && lists[i][m].0 == x;
        assert list[m].0 == x;
      }
    }
  }

  lemma MapRemoves<K, V>(lists: seq<seq<(K, V)>>, contents: map<K, V>, home: K -> nat, i: nat, j: nat)
    requires Represents(lists, contents, home) && i < |lists| && j < |lists[i]|
    ensures lists[i][j].0 in contents
    ensures Represents(lists[i := Without(lists[i], j)], contents - {lists[i][j].0}, home)
  {
    var k, list := lists[i][j].0, Without(lists[i], j);
    var now := contents - {k};
    assert ListAt(lists, contents, home, i);
    var after := lists[i := list];
    forall b | 0 <= b < |lists| ensures ListAt(after, now, home, b)
    {
      assert ListAt(lists, contents, home, b);
    }
    forall x | x in now ensures home(x) < |lists| && HasKey(after[home(x)], x)
    {
      if home(x) == i {
        var m :| 0 <= m < |lists[i]| && lists[i][m].0 == x;
        assert list[if m < j then m else m - 1].0 == x;
      }
    }
  }

  // ---------------------------------------------------------------------------
  // A traversal that deletes
  // ---------------------------------------------------------------------------

  /** The answer that asks for a deletion. */
  const DeleteIt := 1

  /** What the calls made so far leave of the entries `all`. */
  ghost function Kept<K, V>(all: map<K, V>, calls: seq<(K, V)>, answer: (K, V) -> int): map<K, V>
  {
    map k | k in all && ((k, all[k]) !in calls || answer(k, all[k]) != DeleteIt) :: all[k]
  }

  ghost predicate KeptOrDeleted<K, V>(c: (K, V), answer: (K, V) -> int)
  {
    answer(c.0, c.1) == 0 || answer(c.0, c.1) == 1
  }

  ghost predicate KeepsOrDeletes<K, V>(calls: seq<(K, V)>, answer: (K, V) -> int)
  {
    forall c :: c in calls ==> answer(c.0, c.1) == 0 || answer(c.0, c.1) == DeleteIt
  }

  /** The calls were about entries of `all`, no entry twice. */
  ghost predicate OncePerEntry<K, V>(all: map<K, V>, calls: seq<(K, V)>)
  {
    DistinctKeys(calls) && forall c :: c in calls ==> c.0 in all && all[c.0] == c.1
  }

  /** The traversal is at element `j` of bucket `i`. */
  ghost predicate Passed<K, V>(lists: seq<seq<(K, V)>>, home: K -> nat, i: nat, j: nat, k: K)
    requires i < |lists| ==> j <= |lists[i]|
  {
    home(k) < i || (i < |lists| && home(k) == i && HasKey(lists[i][..j], k))
  }

  ghost predicate Progress<K, V>(lists: seq<seq<(K, V)>>, contents: map<K, V>, home: K -> nat, all: map<K, V>,
                                 calls: seq<(K, V)>, answer: (K, V) -> int, i: nat, j: nat)
    requires i < |lists| ==> j <= |lists[i]|
  {
    && Represents(lists, contents, home)
    && OncePerEntry(all, calls) && KeepsOrDeletes(calls, answer)
    && contents == Kept(all, calls, answer)
    && forall k :: k in contents ==> ((k, contents[k]) in calls <==> Passed(lists, home, i, j, k))
  }

  /** The element the traversal is at has not been called back for. */
  lemma NotYetCalled<K, V>(lists: seq<seq<(K, V)>>, contents: map<K, V>, home: K -> nat, all: map<K, V>,
                           calls: seq<(K, V)>, answer: (K, V) -> int, i: nat, j: nat)
    requires i < |lists| && j < |lists[i]| && Progress(lists, contents, home, all, calls, answer, i, j)
    ensures var entry := lists[i][j];
            && entry.0 in all && all[entry.0] == entry.1 && entry.0 in contents && contents[entry.0] == entry.1
              && home(entry.0) == i
            && entry !in calls && OncePerEntry(all, calls + [entry])
  {
    assert ListAt(lists, contents, home, i);
    var entry := lists[i][j];
    assert entry == (entry.0, entry.1);
    assert forall m :: 0 <= m < j ==> lists[i][..j][m] == lists[i][m];
    assert !HasKey(lists[i][..j], entry.0);
    forall m | 0 <= m < |calls| ensures calls[m].0 != entry.0
    {
      assert calls[m] in calls;
      assert calls[m] == (calls[m].0, calls[m].1);
    }
  }

  /** The last call's answer ended the traversal. */
  ghost predicate Stopped<K, V>(contents: map<K, V>, all: map<K, V>, calls: seq<(K, V)>, answer: (K, V) -> int, rv: int)
  {
    && calls != [] && OncePerEntry(all, calls) && contents == Kept(all, calls, answer)
    && KeepsOrDeletes(calls[..|calls| - 1], answer)
    && rv == answer(calls[|calls| - 1].0, calls[|calls| - 1].1) && rv != DeleteIt
  }

  lemma ProgressStops<K, V>(lists: seq<seq<(K, V)>>, contents: map<K, V>, home: K -> nat, all: map<K, V>,
                            calls: seq<(K, V)>, answer: (K, V) -> int, i: nat, j: nat)
    requires i < |lists| && j < |lists[i]| && Progress(lists, contents, home, all, calls, answer, i, j)
    requires answer(lists[i][j].0, lists[i][j].1) != DeleteIt
    ensures Stopped(contents, all, calls + [lists[i][j]], answer, answer(lists[i][j].0, lists[i][j].1))
  {
    var more := calls + [lists[i][j]];
    NotYetCalled(lists, contents, home, all, calls, answer, i, j);
    KeptAfter(all, calls, answer, lists[i][j]);
    assert more[..|more| - 1] == calls;
  }

  lemma PrefixGrows<K, V>(list: seq<(K, V)>, j: nat, k: K)
    requires j < |list|
    ensures HasKey(list[..j + 1], k) <==> HasKey(list[..j], k) || list[j].0 == k
  {
    var longer, shorter := list[..j + 1], list[..j];
    if HasKey(longer, k) {
      var m :| 0 <= m < |longer| && longer[m].0 == k;
      if m < j { assert shorter[m].0 == k; }
    }
    if HasKey(shorter, k) {
      var m :| 0 <= m < |shorter| && shorter[m].0 == k;
      assert longer[m].0 == k;
    }
    if list[j].0 == k { assert longer[j].0 == k; }
  }

  lemma KeptAfter<K, V>(all: map<K, V>, calls: seq<(K, V)>, answer: (K, V) -> int, entry: (K, V))
    requires entry.0 in all && all[entry.0] == entry.1
    ensures Kept(all, calls + [entry], answer) ==
              if answer(entry.0, entry.1) == DeleteIt then Kept(all, calls, answer) - {entry.0}
                else Kept(all, calls, answer)
  {
    assert entry == (entry.0, entry.1);
    var more := calls + [entry];
    forall k | k in all ensures (k, all[k]) in more <==> (k, all[k]) in calls || k == entry.0 {}
  }

  lemma ProgressKeeps<K, V>(lists: seq<seq<(K, V)>>, contents: map<K, V>, home: K -> nat, all: map<K, V>,
                            calls: seq<(K, V)>, answer: (K, V) -> int, i: nat, j: nat)
    requires i < |lists| && j < |lists[i]| && Progress(lists, contents, home, all, calls, answer, i, j)
    requires answer(lists[i][j].0, lists[i][j].1) == 0
    ensures Progress(lists, contents, home, all, calls + [lists[i][j]], answer, i, j + 1)
  {
    var entry, more := lists[i][j], calls + [lists[i][j]];
    NotYetCalled(lists, contents, home, all, calls, answer, i, j);
    KeptAfter(all, calls, answer, entry);
    forall k | k in contents ensures (k, contents[k]) in more <==> Passed(lists, home, i, j + 1, k)
    {
      PrefixGrows(lists[i], j, k);
      assert (k, contents[k]) in more <==> (k, contents[k]) in calls || k == entry.0;
    }
  }

  lemma ProgressDeletes<K, V>(lists: seq<seq<(K, V)>>, contents: map<K, V>, home: K -> nat, all: map<K, V>,
                              calls: seq<(K, V)>, answer: (K, V) -> int, i: nat, j: nat)
    requires i < |lists| && j < |lists[i]| && Progress(lists, contents, home, all, calls, answer, i, j)
    requires answer(lists[i][j].0, lists[i][j].1) == DeleteIt
    ensures Progress(lists[i := Without(lists[i], j)], contents - {lists[i][j].0}, home, all, calls + [lists[i][j]],
                     answer, i, j)
  {
    var entry, more, now, after := lists[i][j], calls + [lists[i][j]], contents - {lists[i][j].0},
      lists[i := Without(lists[i], j)];
    NotYetCalled(lists, contents, home, all, calls, answer, i, j);
    KeptAfter(all, calls, answer, entry);
    MapRemoves(lists, contents, home, i, j);
    assert after[i][..j] == lists[i][..j];
    forall k | k in now ensures (k, now[k]) in more <==> Passed(after, home, i, j, k)
    {
      assert (k, now[k]) in more <==> (k, now[k]) in calls || k == entry.0;
    }
  }

  lemma ProgressNextBucket<K, V>(lists: seq<seq<(K, V)>>, contents: map<K, V>, home: K -> nat, all: map<K, V>,
                                 calls: seq<(K, V)>, answer: (K, V) -> int, i: nat)
    requires i < |lists| && Progress(lists, contents, home, all, calls, answer, i, |lists[i]|)
    ensures Progress(lists, contents, home, all, calls, answer, i + 1, 0)
  {
    forall k | k in contents ensures Passed(lists, home, i + 1, 0, k) <==> Passed(lists, home, i, |lists[i]|, k)
    {
      assert lists[i][..|lists[i]|] == lists[i];
    }
  }

  lemma ProgressEnds<K, V>(lists: seq<seq<(K, V)>>, contents: map<K, V>, home: K -> nat, all: map<K, V>,
                           calls: seq<(K, V)>, answer: (K, V) -> int)
    requires Progress(lists, contents, home, all, calls, answer, |lists|, 0)
    ensures forall k :: k in all ==> (k, all[k]) in calls
  {
    forall k | k in all ensures (k, all[k]) in calls
    {
      assert (k, all[k]) !in calls ==> k in contents;
    }
  }

  // ---------------------------------------------------------------------------
  // The table
  // ---------------------------------------------------------------------------

  /** Memory and lists of a table stand for a map of `size` keys. */
  ghost predicate StandsFor<K, V>(len: nat, mem: Mem<K, V>, chains: seq<seq<int>>, lists: seq<seq<(K, V)>>,
                                  owner: map<int, nat>, contents: map<K, V>, home: K -> nat, size: nat)
  {
    forall yes | Asked(yes) ::
      Buckets(len, mem, chains, lists, owner) && Represents(lists, contents, home) && size == |contents|
  }

  /** Memory, counter and map of a table agree. */
  ghost predicate Sound<K, V>(len: nat, mem: Mem<K, V>, elements: nat, chains: seq<seq<int>>, lists: seq<seq<(K, V)>>,
                              owner: map<int, nat>, contents: map<K, V>, home: K -> nat)
  {
    && |chains| == |lists| == len
    && exists size: nat :: size == elements && StandsFor(len, mem, chains, lists, owner, contents, home, size)
  }

  lemma SoundParts<K, V>(len: nat, mem: Mem<K, V>, elements: nat, chains: seq<seq<int>>, lists: seq<seq<(K, V)>>,
                         owner: map<int, nat>, contents: map<K, V>, home: K -> nat)
    requires Sound(len, mem, elements, chains, lists, owner, contents, home)
    ensures Buckets(len, mem, chains, lists, owner) && Represents(lists, contents, home) && elements == |contents|
  {
    assert Asked(true);
  }

  /** The home of a key is its hash modulo the table length. */
  ghost predicate Hashes<K>(hash: K -> nat, len: nat, home: K -> nat, k: K)
    requires 0 < len
  {
    home(k) == hash(k) % len
  }

  // What the changes of a table make of its memory, its lists and its map.

  lemma SoundFill<K, V>(len: nat, mem: Mem<K, V>, elements: nat, chains: seq<seq<int>>, lists: seq<seq<(K, V)>>,
                        owner: map<int, nat>, contents: map<K, V>, home: K -> nat, k: K, v: V)
    requires Sound(len, mem, elements, chains, lists, owner, contents, home)
    requires home(k) < len && k !in contents && lists[home(k)] == []
    ensures home(k) in mem
    ensures Sound(len, Filled(mem, home(k), k, v), elements + 1, chains, lists[home(k) := [(k, v)]], owner,
                  contents[k := v], home)
  {
    SoundParts(len, mem, elements, chains, lists, owner, contents, home);
    BucketsFill(len, mem, chains, lists, owner, home(k), k, v);
    MapAdds(lists, contents, home, k, v, [(k, v)], 0);
    assert StandsFor(len, Filled(mem, home(k), k, v), chains, lists[home(k) := [(k, v)]], owner, contents[k := v],
                     home, elements + 1);
  }

  lemma SoundInsert<K, V>(len: nat, mem: Mem<K, V>, elements: nat, chains: seq<seq<int>>, lists: seq<seq<(K, V)>>,
                          owner: map<int, nat>, contents: map<K, V>, home: K -> nat, p: int, k: K, v: V)
    requires Sound(len, mem, elements, chains, lists, owner, contents, home)
    requires home(k) < len && k !in contents && lists[home(k)] != [] && p !in mem && 0 <= p
    ensures home(k) in mem && chains[home(k)] != []
    ensures var i := home(k);
            Sound(len, Inserted(mem, i, p, k, v), elements + 1, chains[i := [i, p] + chains[i][1..]],
                  lists[i := [lists[i][0], (k, v)] + lists[i][1..]], owner[p := i], contents[k := v], home)
  {
    SoundParts(len, mem, elements, chains, lists, owner, contents, home);
    var i := home(k);
    var list := [lists[i][0], (k, v)] + lists[i][1..];
    BucketsInsert(len, mem, chains, lists, owner, i, p, k, v);
    assert list == lists[i][..1] + [(k, v)] + lists[i][1..];
    MapAdds(lists, contents, home, k, v, list, 1);
    assert StandsFor(len, Inserted(mem, i, p, k, v), chains[i := [i, p] + chains[i][1..]], lists[i := list],
                     owner[p := i],
                     contents[k := v], home, elements + 1);
  }

  lemma SoundWrite<K, V>(len: nat, mem: Mem<K, V>, elements: nat, chains: seq<seq<int>>, lists: seq<seq<(K, V)>>,
                         owner: map<int, nat>, contents: map<K, V>, home: K -> nat, j: nat, k: K, v: V)
    requires Sound(len, mem, elements, chains, lists, owner, contents, home)
    requires home(k) < len && j < |lists[home(k)]| && lists[home(k)][j].0 == k
    ensures j < |chains[home(k)]| && chains[home(k)][j] in mem
    ensures var i := home(k);
            Sound(len, Written(mem, chains[i][j], v), elements, chains, lists[i := lists[i][j := (k, v)]], owner,
                  contents[k := v], home)
  {
    SoundParts(len, mem, elements, chains, lists, owner, contents, home);
    BucketsWrite(len, mem, chains, lists, owner, home(k), j, v);
    MapWrites(lists, contents, home, k, v, j);
    assert contents[k := v].Keys == contents.Keys;
    SameSize(contents, contents[k := v]);
    var i := home(k);
    assert StandsFor(len, Written(mem, chains[i][j], v), chains, lists[i := lists[i][j := (k, v)]], owner,
                     contents[k := v], home, elements);
  }

  lemma SameSize<K, V>(m: map<K, V>, n: map<K, V>)
    requires m.Keys == n.Keys
    ensures |m| == |n|
  {
    assert |m.Keys| == |m| && |n.Keys| == |n|;
  }

  lemma SoundUnlink<K, V>(len: nat, mem: Mem<K, V>, elements: nat, chains: seq<seq<int>>, lists: seq<seq<(K, V)>>,
                          owner: map<int, nat>, contents: map<K, V>, home: K -> nat, i: nat, j: nat)
    requires Sound(len, mem, elements, chains, lists, owner, contents, home) && i < len && j < |lists[i]|
    ensures lists[i][j].0 in contents && j < |chains[i]| && chains[i][j] in mem && elements > 0
    ensures Before(chains[i], j) != Null ==> Before(chains[i], j) in mem
    ensures Before(chains[i], j) == Null && mem[chains[i][j]].next != Null ==> mem[chains[i][j]].next in mem
    ensures Sound(len, Unlinked(mem, Before(chains[i], j), chains[i][j]), elements - 1,
                  chains[i := Shortened(chains[i], j)],
                  lists[i := Without(lists[i], j)], owner - {Freed(chains[i], j)}, contents - {lists[i][j].0}, home)
    ensures Unlinked(mem, Before(chains[i], j), chains[i][j]).Keys == mem.Keys - {Freed(chains[i], j)}
  {
    SoundParts(len, mem, elements, chains, lists, owner, contents, home);
    BucketsUnlink(len, mem, chains, lists, owner, i, j);
    MapRemoves(lists, contents, home, i, j);
    assert StandsFor(len, Unlinked(mem, Before(chains[i], j), chains[i][j]), chains[i := Shortened(chains[i], j)],
                     lists[i := Without(lists[i], j)], owner - {Freed(chains[i], j)}, contents - {lists[i][j].0},
                     home, elements - 1);
  }

  lemma SoundEmpty<K, V>(len: nat, mem: Mem<K, V>, chains: seq<seq<int>>, lists: seq<seq<(K, V)>>,
                         owner: map<int, nat>, home: K -> nat)
    requires forall p :: p in mem <==> 0 <= p < len
    requires forall p :: 0 <= p < len ==> !mem[p].inUse && mem[p].next == Null
    requires chains == seq(len, b requires 0 <= b < len => [b]) && lists == seq(len, b requires 0 <= b < len => [])
    requires owner == map p | p in mem :: p
    ensures Sound(len, mem, 0, chains, lists, owner, map[], home)
  {
    var contents: map<K, V> := map[];
    forall b | 0 <= b < len ensures BucketAt(mem, chains, lists, owner, b) {}
    forall b | 0 <= b < len ensures ListAt(lists, contents, home, b) {}
    assert StandsFor(len, mem, chains, lists, owner, contents, home, 0);
  }

  /** Some address is always free. */
  lemma FreeAddress<K, V>(mem: Mem<K, V>, len: nat) returns (p: int)
    ensures p !in mem && len <= p
  {
    p := AboveAll(mem.Keys, len);
  }

  lemma {:induction false} AboveAll(used: set<int>, len: nat) returns (p: int)
    ensures len <= p && forall q :: q in used ==> q < p
    decreases |used|
  {
    if x :| x in used {
      var rest := AboveAll(used - {x}, len);
      p := if x < rest then rest else x + 1;
      assert forall q :: q in used ==> q == x || q in used - {x};
    } else {
      p := len;
    }
  }

  class Table<K(0,==,!new), V(0)> {
    const len: nat
    const hash: K -> nat
    ghost const home: K -> nat
    var mem: Mem<K, V>
    var elements: nat
    ghost var chains: seq<seq<int>>
    ghost var lists: seq<seq<(K, V)>>
    ghost var owner: map<int, nat>
    ghost var contents: map<K, V>

    ghost predicate Valid()
      reads this
    {
      && 0 < len && (forall k :: Hashes(hash, len, home, k))
      && Sound(len, mem, elements, chains, lists, owner, contents, home)
    }

    constructor (len: nat, hash: K -> nat)
      requires 0 < len
      ensures Valid() && contents == map[] && this.len == len && this.hash == hash
    {
      this.len, this.hash := len, hash;
      home := k => hash(k) % len;
      var table: Mem<K, V> := map[];
      var i := 0;
      var key, value := *, *;
      while i < len
        invariant 0 <= i <= len
        invariant forall p :: p in table <==> 0 <= p < i
        invariant forall p :: 0 <= p < i ==> !table[p].inUse && table[p].next == Null
      {
        table := table[i := Elem(Null, false, key, value)];
        i := i + 1;
      }
      mem, elements, contents := table, 0, map[];
      chains, lists := seq(len, b requires 0 <= b < len => [b]), seq(len, b requires 0 <= b < len => []);
      owner := map p | p in table :: p;
      new;
      SoundEmpty(len, mem, chains, lists, owner, home);
    }

    method Size() returns (n: nat)
      requires Valid()
      ensures n == |contents|
    {
      SoundParts(len, mem, elements, chains, lists, owner, contents, home);
      n := elements;
    }

    lemma Head(i: nat)
      requires Valid() && i < len
      ensures i in mem && (mem[i].inUse <==> lists[i] != []) && |lists[i]| <= |chains[i]|
      ensures chains[i] != [] && chains[i][0] == i
    {
      SoundParts(len, mem, elements, chains, lists, owner, contents, home);
      assert BucketAt(mem, chains, lists, owner, i);
    }

    lemma ElementAt(i: nat, j: nat)
      requires Valid() && i < len && j < |lists[i]|
      ensures |chains[i]| == |lists[i]| && chains[i][j] in mem && chains[i][j] != Null
      ensures lists[i][j] == (mem[chains[i][j]].key, mem[chains[i][j]].value)
      ensures mem[chains[i][j]].next == if j + 1 < |lists[i]| then chains[i][j + 1] else Null
    {
      SoundParts(len, mem, elements, chains, lists, owner, contents, home);
      assert BucketAt(mem, chains, lists, owner, i);
      assert chains[i][j] in chains[i];
    }

    /** The search all operations start with, in bucket `i`; `j` is the place of the
        element found, or the end. */
    method Seek(i: nat, key: K) returns (prev: int, e: int, ghost j: nat)
      requires Valid() && i < len
      ensures j <= |lists[i]| && |lists[i]| <= |chains[i]| && forall m :: 0 <= m < j ==> lists[i][m].0 != key
      ensures if e == Null then j == |lists[i]|
              else j < |lists[i]| && lists[i][j].0 == key && e == chains[i][j] && prev == Before(chains[i], j)
    {
      Head(i);
      prev, e, j := Null, i, 0;
      if !mem[e].inUse {
        return Null, Null, 0;
      }
      while e != Null
        invariant j <= |lists[i]| && forall m :: 0 <= m < j ==> lists[i][m].0 != key
        invariant prev == Before(chains[i], j)
        invariant e == if j < |lists[i]| then chains[i][j] else Null
        decreases |lists[i]| - j
      {
        ElementAt(i, j);
        if mem[e].key == key {
          return;
        }
        prev, e, j := e, mem[e].next, j + 1;
      }
      if j < |lists[i]| { ElementAt(i, j); }
    }

    /** Whether the search found the key is whether the map has it. */
    lemma Found(key: K, i: nat, j: nat)
      requires Valid() && i == home(key) && i < |lists| && j <= |lists[i]|
      requires forall m :: 0 <= m < j ==> lists[i][m].0 != key
      requires j < |lists[i]| ==> lists[i][j].0 == key
      ensures key in contents <==> j < |lists[i]|
      ensures j < |lists[i]| ==> contents[key] == lists[i][j].1
    {
      SoundParts(len, mem, elements, chains, lists, owner, contents, home);
      assert ListAt(lists, contents, home, i);
      KeyIsHome(lists, contents, home, key);
    }

    method Get(key: K) returns (value: Option<V>)
      requires Valid()
      ensures value == if key in contents then Some(contents[key]) else None
    {
      var i := hash(key) % len;
      assert Hashes(hash, len, home, key);
      var prev, e;
      ghost var j;
      prev, e, j := Seek(i, key);
      Found(key, i, j);
      if e != Null { ElementAt(i, j); }
      value := if e == Null then None else Some(mem[e].value);
    }

    /** Stores an absent key in the unused first element of its bucket. */
    method AddFirst(i: nat, key: K, value: V)
      requires Valid() && i == home(key) && i < len && key !in contents && lists[i] == []
      modifies this
      ensures Valid() && contents == old(contents)[key := value]
    {
      SoundFill(len, mem, elements, chains, lists, owner, contents, home, key, value);
      mem := Filled(mem, i, key, value);
      lists := lists[i := [(key, value)]];
      contents := contents[key := value];
      elements := elements + 1;
    }

    /** Any free address. */
    method Allocate() returns (p: int)
      ensures p !in mem && 0 <= p
    {
      ghost var free := FreeAddress(mem, len);
      p :| p !in mem && 0 <= p;
    }

    /** Stores an absent key in a new element, second in its bucket. */
    method AddSecond(i: nat, key: K, value: V)
      requires Valid() && i == home(key) && i < len && key !in contents && lists[i] != []
      modifies this
      ensures Valid() && contents == old(contents)[key := value]
    {
      var p := Allocate();
      SoundInsert(len, mem, elements, chains, lists, owner, contents, home, p, key, value);
      ghost var chain, list := [i, p] + chains[i][1..], [lists[i][0], (key, value)] + lists[i][1..];
      mem, elements := Inserted(mem, i, p, key, value), elements + 1;
      chains, lists, owner, contents := chains[i := chain], lists[i := list], owner[p := i], contents[key := value];
    }

    /** Stores a key known to be absent. */
    method Add(i: nat, key: K, value: V)
      requires Valid() && i == home(key) && i < len && key !in contents
      modifies this
      ensures Valid() && contents == old(contents)[key := value]
    {
      Head(i);
      if !mem[i].inUse {
        AddFirst(i, key, value);
      } else {
        AddSecond(i, key, value);
      }
    }

    method Overwrite(i: nat, e: int, ghost j: nat, key: K, value: V)
      requires Valid() && i == home(key) && i < len && j < |lists[i]| && lists[i][j].0 == key
      requires j < |chains[i]| && e == chains[i][j]
      modifies this
      ensures Valid() && contents == old(contents)[key := value]
    {
      SoundWrite(len, mem, elements, chains, lists, owner, contents, home, j, key, value);
      mem := Written(mem, e, value);
      lists := lists[i := lists[i][j := (key, value)]];
      contents := contents[key := value];
    }

    method Put(key: K, value: V)
      requires Valid()
      modifies this
      ensures Valid() && contents == old(contents)[key := value]
    {
      var i := hash(key) % len;
      assert Hashes(hash, len, home, key);
      var prev, e;
      ghost var j;
      prev, e, j := Seek(i, key);
      Found(key, i, j);
      if e != Null {
        Overwrite(i, e, j, key, value);
      } else {
        Add(i, key, value);
      }
    }

    method PutUnique(key: K, value: V) returns (stored: bool)
      requires Valid()
      modifies this
      ensures Valid() && stored == (key !in old(contents))
      ensures contents == if stored then old(contents)[key := value] else old(contents)
    {
      var i := hash(key) % len;
      assert Hashes(hash, len, home, key);
      var prev, e;
      ghost var j;
      prev, e, j := Seek(i, key);
      Found(key, i, j);
      if e != Null {
        return false;
      }
      Add(i, key, value);
      return true;
    }

    /** Takes the element at `e`, after `prev`, out of bucket `i` and frees what it
        occupied. */
    method Remove(i: nat, prev: int, e: int, ghost j: nat)
      requires Valid() && i < len && j < |lists[i]| && |lists[i]| <= |chains[i]|
      requires e == chains[i][j] && prev == Before(chains[i], j)
      modifies this
      ensures Valid() && contents == old(contents) - {old(lists[i][j].0)}
      ensures old(lists[i][j].0) in old(contents)
      ensures chains == old(chains[i := Shortened(chains[i], j)]) && lists == old(lists[i := Without(lists[i], j)])
      ensures mem.Keys == old(mem.Keys) - {old(Freed(chains[i], j))}
    {
      SoundUnlink(len, mem, elements, chains, lists, owner, contents, home, i, j);
      mem, elements := Unlinked(mem, prev, e), elements - 1;
      owner, contents := owner - {Freed(chains[i], j)}, contents - {lists[i][j].0};
      chains, lists := chains[i := Shortened(chains[i], j)], lists[i := Without(lists[i], j)];
    }

    method Delete(key: K) returns (found: bool)
      requires Valid()
      modifies this
      ensures Valid() && found == (key in old(contents)) && contents == old(contents) - {key}
    {
      var value := GetAndDelete(key);
      found := value.Some?;
    }

    method GetAndDelete(key: K) returns (value: Option<V>)
      requires Valid()
      modifies this
      ensures Valid() && contents == old(contents) - {key}
      ensures value == if key in old(contents) then Some(old(contents)[key]) else None
    {
      var i := hash(key) % len;
      assert Hashes(hash, len, home, key);
      var prev, e;
      ghost var j;
      prev, e, j := Seek(i, key);
      Found(key, i, j);
      if e == Null {
        return None;
      }
      ElementAt(i, j);
      value := Some(mem[e].value);
      Remove(i, prev, e, j);
    }

    /** The traversal of `ReduceDelete` is at `e`, after `prev`, element `j` of bucket `i`. */
    ghost predicate At(i: nat, j: nat, prev: int, e: int)
      requires Valid()
      reads this
    {
      && i < len && j <= |lists[i]| && |lists[i]| <= |chains[i]| && prev == Before(chains[i], j)
      && (e == (if j < |lists[i]| then chains[i][j] else Null) || (e == i && lists[i] == []))
    }

    /** Deletes the element the traversal is at and leaves it at the next one. */
    method RemoveAt(i: nat, prev: int, e: int, ghost j: nat) returns (next: int)
      requires Valid() && At(i, j, prev, e) && j < |lists[i]|
      modifies this
      ensures Valid() && At(i, j, prev, next) && contents == old(contents) - {old(lists[i][j].0)}
      ensures lists == old(lists[i := Without(lists[i], j)]) && chains == old(chains[i := Shortened(chains[i], j)])
    {
      ElementAt(i, j);
      Head(i);
      if prev != Null {
        ElementAt(i, j - 1);
        Remove(i, prev, e, j);
        Head(i);
        ElementAt(i, j - 1);
        next := mem[prev].next;
      } else {
        assert j == 0 by {
          if j > 0 { ElementAt(i, j - 1); }
        }
        if 1 < |lists[i]| { ElementAt(i, 1); }
        var alone := mem[e].next == Null;
        Remove(i, prev, e, j);
        Head(i);
        next := if alone then Null else e;
      }
    }

    lemma IsEntry(i: nat, j: nat, prev: int, e: int)
      requires Valid() && At(i, j, prev, e)
      ensures e != Null ==> e in mem
      ensures j == |lists[i]| <==> (e == Null || !mem[e].inUse)
      ensures j < |lists[i]| ==> lists[i][j] == (mem[e].key, mem[e].value) && At(i, j + 1, e, mem[e].next)
    {
      SoundParts(len, mem, elements, chains, lists, owner, contents, home);
      assert BucketAt(mem, chains, lists, owner, i);
    }

    /** The traversal is at element `j` of bucket `i`, having made `calls`. */
    ghost predicate Touring(i: nat, j: nat, prev: int, e: int, all: map<K, V>, calls: seq<(K, V)>,
                            answer: (K, V) -> int)
      requires Valid()
      reads this
    {
      At(i, j, prev, e) && Progress(lists, contents, home, all, calls, answer, i, j)
    }

    method DeleteHere(i: nat, prev: int, e: int, answer: (K, V) -> int, ghost j: nat, ghost all: map<K, V>,
                      ghost calls: seq<(K, V)>)
      returns (next: int, ghost more: seq<(K, V)>)
      requires Valid() && Touring(i, j, prev, e, all, calls, answer) && j < |lists[i]|
      requires answer(lists[i][j].0, lists[i][j].1) == DeleteIt
      modifies this
      ensures Valid() && Touring(i, j, prev, next, all, more, answer) && |lists[i]| == old(|lists[i]|) - 1
    {
      ProgressDeletes(lists, contents, home, all, calls, answer, i, j);
      more := calls + [lists[i][j]];
      next := RemoveAt(i, prev, e, j);
    }

    lemma KeepHere(i: nat, prev: int, e: int, answer: (K, V) -> int, j: nat, all: map<K, V>, calls: seq<(K, V)>)
      requires Valid() && Touring(i, j, prev, e, all, calls, answer) && j < |lists[i]|
      requires answer(lists[i][j].0, lists[i][j].1) == 0
      ensures e in mem && Touring(i, j + 1, e, mem[e].next, all, calls + [lists[i][j]], answer)
    {
      IsEntry(i, j, prev, e);
      ProgressKeeps(lists, contents, home, all, calls, answer, i, j);
    }

    lemma StopHere(i: nat, prev: int, e: int, answer: (K, V) -> int, j: nat, all: map<K, V>, calls: seq<(K, V)>)
      requires Valid() && Touring(i, j, prev, e, all, calls, answer) && j < |lists[i]|
      requires answer(lists[i][j].0, lists[i][j].1) != DeleteIt
      ensures Stopped(contents, all, calls + [lists[i][j]], answer, answer(lists[i][j].0, lists[i][j].1))
    {
      ProgressStops(lists, contents, home, all, calls, answer, i, j);
    }

    lemma BucketDone(i: nat, prev: int, e: int, answer: (K, V) -> int, j: nat, all: map<K, V>, calls: seq<(K, V)>)
      requires Valid() && Touring(i, j, prev, e, all, calls, answer) && (e == Null || (e in mem && !mem[e].inUse))
      ensures Progress(lists, contents, home, all, calls, answer, i + 1, 0)
    {
      IsEntry(i, j, prev, e);
      ProgressNextBucket(lists, contents, home, all, calls, answer, i);
    }

    /** One turn of the traversal, at an element in use. */
    method CallAt(i: nat, prev: int, e: int, answer: (K, V) -> int, ghost j: nat, ghost all: map<K, V>,
                  ghost calls: seq<(K, V)>)
      returns (rv: int, prev': int, e': int, ghost j': nat, ghost more: seq<(K, V)>)
      requires Valid() && Touring(i, j, prev, e, all, calls, answer) && e in mem && mem[e].inUse && e != Null
      modifies this
      ensures Valid()
      ensures rv == 0 ==> Touring(i, j', prev', e', all, more, answer) && |lists[i]| - j' < old(|lists[i]|) - j
      ensures rv != 0 ==> Stopped(contents, all, more, answer, rv)
    {
      IsEntry(i, j, prev, e);
      rv := answer(mem[e].key, mem[e].value);
      more, prev', e', j' := calls + [lists[i][j]], prev, e, j;
      if rv == DeleteIt {
        e', more := DeleteHere(i, prev, e, answer, j, all, calls);
        rv := 0;
        return;
      }
      if rv != 0 {
        StopHere(i, prev, e, answer, j, all, calls);
        return;
      }
      KeepHere(i, prev, e, answer, j, all, calls);
      prev', e', j' := e, mem[e].next, j + 1;
    }

    /** The traversal of bucket `i`. */
    method ReduceBucket(i: nat, answer: (K, V) -> int, ghost all: map<K, V>, ghost before: seq<(K, V)>)
      returns (rv: int, ghost calls: seq<(K, V)>)
      requires Valid() && i < len && Progress(lists, contents, home, all, before, answer, i, 0)
      modifies this
      ensures Valid()
      ensures rv == 0 ==> Progress(lists, contents, home, all, calls, answer, i + 1, 0)
      ensures rv != 0 ==> Stopped(contents, all, calls, answer, rv)
    {
      var prev, e := Null, i as int;
      ghost var j: nat := 0;
      rv, calls := 0, before;
      Head(i);
      while e != Null
        invariant Valid() && rv == 0 && Touring(i, j, prev, e, all, calls, answer)
        decreases |lists[i]| - j
      {
        IsEntry(i, j, prev, e);
        if !mem[e].inUse {
          break;
        }
        rv, prev, e, j, calls := CallAt(i, prev, e, answer, j, all, calls);
        if rv != 0 {
          return;
        }
      }
      BucketDone(i, prev, e, answer, j, all, calls);
    }

    /** Calls back for every entry, deleting those answered with 1; any answer but that
        and 0 ends the traversal and is returned. */
    method ReduceDelete(answer: (K, V) -> int) returns (rv: int, ghost calls: seq<(K, V)>)
      requires Valid()
      modifies this
      ensures Valid() && OncePerEntry(old(contents), calls)
      ensures forall k :: k in contents <==>
                k in old(contents) && !((k, old(contents)[k]) in calls && answer(k, old(contents)[k]) == 1)
      ensures forall k :: k in contents ==> contents[k] == old(contents)[k]
      ensures forall i :: 0 <= i < |calls| - (if rv == 0 then 0 else 1) ==> KeptOrDeleted(calls[i], answer)
      ensures rv == 0 ==> forall k :: k in old(contents) ==> (k, old(contents)[k]) in calls
      ensures rv != 0 ==> calls != [] && rv != 1 && rv == answer(calls[|calls| - 1].0, calls[|calls| - 1].1)
    {
      SoundParts(len, mem, elements, chains, lists, owner, contents, home);
      ghost var all := contents;
      rv, calls := 0, [];
      var i: nat := 0;
      while i < len
        invariant i <= len && Valid() && rv == 0
        invariant Progress(lists, contents, home, all, calls, answer, i, 0)
      {
        rv, calls := ReduceBucket(i, answer, all, calls);
        if rv != 0 {
          return;
        }
        i := i + 1;
      }
      ProgressEnds(lists, contents, home, all, calls, answer);
    }

    /** Calls back for every entry until an answer is not 0, which is returned. */
    method Reduce(answer: (K, V) -> int) returns (rv: int, calls: seq<(K, V)>)
      requires Valid()
      ensures OncePerEntry(contents, calls)
      ensures rv == 0 ==> (forall k :: k in contents ==> (k, contents[k]) in calls) && forall c :: c in calls ==>
                answer(c.0, c.1) == 0
      ensures rv != 0 ==> calls != [] && rv == answer(calls[|calls| - 1].0, calls[|calls| - 1].1)
                          && forall c :: c in calls[..|calls| - 1] ==> answer(c.0, c.1) == 0
    {
      SoundParts(len, mem, elements, chains, lists, owner, contents, home);
      ghost var zero := (k: K, v: V) => 0;
      rv, calls := 0, [];
      var i: nat := 0;
      assert Kept(contents, calls, zero) == contents;
      while i < len
        invariant i <= len && rv == 0
        invariant Progress(lists, contents, home, contents, calls, zero, i, 0)
        invariant forall c :: c in calls ==> answer(c.0, c.1) == 0
      {
        rv, calls := CallBucket(i, answer, zero, calls);
        if rv != 0 {
          return;
        }
        i := i + 1;
      }
      ProgressEnds(lists, contents, home, contents, calls, zero);
    }

    method CallBucket(i: nat, answer: (K, V) -> int, ghost zero: (K, V) -> int, before: seq<(K, V)>)
      returns (rv: int, calls: seq<(K, V)>)
      requires Valid() && i < len && (forall k, v :: zero(k, v) == 0)
      requires Progress(lists, contents, home, contents, before, zero, i, 0)
      requires forall c :: c in before ==> answer(c.0, c.1) == 0
      ensures rv == 0 ==> Progress(lists, contents, home, contents, calls, zero, i + 1, 0)
      ensures rv == 0 ==> forall c :: c in calls ==> answer(c.0, c.1) == 0
      ensures rv != 0 ==> OncePerEntry(contents, calls) && calls != []
      ensures rv != 0 ==> rv == answer(calls[|calls| - 1].0, calls[|calls| - 1].1)
      ensures rv != 0 ==> forall c :: c in calls[..|calls| - 1] ==> answer(c.0, c.1) == 0
    {
      var e := i as int;
      ghost var j: nat, prev := 0, Null;
      rv, calls := 0, before;
      Head(i);
      while e != Null
        invariant rv == 0 && At(i, j, prev, e)
        invariant Progress(lists, contents, home, contents, calls, zero, i, j)
        invariant forall c :: c in calls ==> answer(c.0, c.1) == 0
        decreases |lists[i]| - j, if e == Null then 0 else 1
      {
        IsEntry(i, j, prev, e);
        if !mem[e].inUse {
          break;
        }
        rv := answer(mem[e].key, mem[e].value);
        ProgressKeeps(lists, contents, home, contents, calls, zero, i, j);
        calls := calls + [(mem[e].key, mem[e].value)];
        if rv != 0 {
          assert calls[|calls| - 1] == lists[i][j];
          return;
        }
        prev, e, j := e, mem[e].next, j + 1;
      }
      IsEntry(i, j, prev, e);
      ProgressNextBucket(lists, contents, home, contents, calls, zero, i);
    }
  }
}
