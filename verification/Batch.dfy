/**
 The batch read of src/cl_batch.c: the digests of one call are spread over the nodes that
 own them, one request a node is handed to the worker threads, and the node references
 are dropped when every worker has reported.
 */
module Batch {
  import opened Common
  import opened ByteOrder
  import W = WireCodec
  import C = Cluster
  import V = ServerView

  type Node = nat

  /** Distinct nodes a call has room for. */
  const MaxNodes := 32

  const DigestArrayType: Byte := 6

  // ---------------------------------------------------------------------------
  // Scattering
  // ---------------------------------------------------------------------------

  /** The items that belong to node `n`, in order. */
  ghost function Mine<T>(items: seq<T>, nodes: seq<Node>, n: Node): (mine: seq<T>)
    requires |items| == |nodes|
  {
    if items == [] then []
    else (if nodes[0] == n then [items[0]] else []) + Mine(items[1..], nodes[1..], n)
  }

  ghost function Count(nodes: seq<Node>, n: Node): (c: nat)
  {
    if nodes == [] then 0 else (if nodes[0] == n then 1 else 0) + Count(nodes[1..], n)
  }

  ghost function Sum(counts: seq<nat>): (s: nat)
  {
    if counts == [] then 0 else counts[0] + Sum(counts[1..])
  }

  /** All digest arrays one after the other. */
  ghost function Gathered<T>(items: seq<T>, nodes: seq<Node>, unique: seq<Node>): (all: seq<T>)
    requires |items| == |nodes|
  {
    if unique == [] then [] else Mine(items, nodes, unique[0]) + Gathered(items, nodes, unique[1..])
  }

  ghost predicate Distinct<T(!new)>(s: seq<T>)
  {
    forall j, k :: 0 <= j < k < |s| ==> s[j] != s[k]
  }

  lemma {:induction false} MineCount<T>(items: seq<T>, nodes: seq<Node>, n: Node)
    requires |items| == |nodes|
    ensures |Mine(items, nodes, n)| == Count(nodes, n)
  {
    if items != [] { MineCount(items[1..], nodes[1..], n); }
  }

  /** Where the items of node `n` come from. */
  ghost function Places(nodes: seq<Node>, n: Node): (at: seq<nat>)
  {
    if nodes == [] then []
    else
      var last := |nodes| - 1;
      Places(nodes[..last], n) + if nodes[last] == n then [last] else []
  }

  lemma {:induction false} MineLast<T>(items: seq<T>, nodes: seq<Node>, n: Node)
    requires |items| == |nodes| > 0
    ensures var last := |items| - 1;
            Mine(items, nodes, n) == Mine(items[..last], nodes[..last], n) + if nodes[last] == n then [items[last]]
              else []
  {
    var last := |items| - 1;
    if last > 0 {
      MineLast(items[1..], nodes[1..], n);
      assert items[1..][..last - 1] == items[..last][1..] && nodes[1..][..last - 1] == nodes[..last][1..];
    } else {
      assert items[..0] == [] && items[1..] == [];
    }
  }

  lemma {:induction false} PlacesAscend(nodes: seq<Node>, n: Node)
    ensures forall k :: 0 <= k < |Places(nodes, n)| ==> Places(nodes, n)[k] < |nodes|
    ensures forall j, k :: 0 <= j < k < |Places(nodes, n)| ==> Places(nodes, n)[j] < Places(nodes, n)[k]
  {
    if nodes != [] { PlacesAscend(nodes[..|nodes| - 1], n); }
  }

  /** Order is kept: each item of a node's array comes from a later place than the one
      before it, and belongs to the node. */
  lemma MineInOrder<T>(items: seq<T>, nodes: seq<Node>, n: Node, k: nat)
    requires |items| == |nodes| && k < |Mine(items, nodes, n)|
    ensures |Places(nodes, n)| == |Mine(items, nodes, n)|
    ensures var at := Places(nodes, n);
            && at[k] < |items| && nodes[at[k]] == n && Mine(items, nodes, n)[k] == items[at[k]]
            && (k > 0 ==> at[k - 1] < at[k])
  {
    PlacesAscend(nodes, n);
    MinePlaces(items, nodes, n);
    assert Taken(items, nodes, n, Mine(items, nodes, n), Places(nodes, n), k);
  }

  lemma {:induction false} MinePlaces<T>(items: seq<T>, nodes: seq<Node>, n: Node)
    requires |items| == |nodes|
    ensures |Places(nodes, n)| == |Mine(items, nodes, n)|
    ensures forall k :: 0 <= k < |Places(nodes, n)| ==>
              Taken(items, nodes, n, Mine(items, nodes, n), Places(nodes, n), k)
  {
    if items != [] {
      var last := |items| - 1;
      MineLast(items, nodes, n);
      MinePlaces(items[..last], nodes[..last], n);
      var mine, at := Mine(items[..last], nodes[..last], n), Places(nodes[..last], n);
      forall k | 0 <= k < |Places(nodes, n)| ensures Taken(items, nodes, n, Mine(items, nodes, n), Places(nodes, n), k)
      {
        if k < |at| { assert Taken(items[..last], nodes[..last], n, mine, at, k); }
      }
    }
  }

  ghost predicate Taken<T>(items: seq<T>, nodes: seq<Node>, n: Node, mine: seq<T>, at: seq<nat>, k: nat)
    requires |items| == |nodes| && |at| == |mine| && k < |at|
  {
    at[k] < |items| && nodes[at[k]] == n && mine[k] == items[at[k]]
  }

  ghost function OneIf<T>(b: bool, x: T): (m: multiset<T>)
  {
    if b then multiset{x} else multiset{}
  }

  lemma MineHead<T>(items: seq<T>, nodes: seq<Node>, n: Node)
    requires |items| == |nodes| > 0
    ensures multiset(Mine(items, nodes, n)) == OneIf(nodes[0] == n, items[0])
            + multiset(Mine(items[1..], nodes[1..], n))
  {
  }

  lemma FourParts<T>(a: multiset<T>, b: multiset<T>, c: multiset<T>, d: multiset<T>)
    ensures (a + b) + (c + d) == (a + c) + (b + d)
  {
  }

  lemma DistinctTail(unique: seq<Node>)
    requires Distinct(unique) && unique != []
    ensures Distinct(unique[1..]) && unique[0] !in unique[1..]
  {
  }

  lemma InTail(unique: seq<Node>, n: Node)
    requires unique != [] && unique[0] !in unique[1..]
    ensures n in unique <==> n == unique[0] || n in unique[1..]
    ensures !(n == unique[0] && n in unique[1..])
  {
  }

  lemma {:induction false} GatheredHead<T>(items: seq<T>, nodes: seq<Node>, unique: seq<Node>)
    requires |items| == |nodes| > 0 && Distinct(unique)
    ensures multiset(Gathered(items, nodes, unique))
            == OneIf(nodes[0] in unique, items[0]) + multiset(Gathered(items[1..], nodes[1..], unique))
  {
    if unique != [] {
      DistinctTail(unique);
      InTail(unique, nodes[0]);
      GatheredHead(items, nodes, unique[1..]);
      MineHead(items, nodes, unique[0]);
      FourParts(OneIf(nodes[0] == unique[0], items[0]), multiset(Mine(items[1..], nodes[1..], unique[0])),
                OneIf(nodes[0] in unique[1..], items[0]), multiset(Gathered(items[1..], nodes[1..], unique[1..])));
    }
  }

  lemma {:induction false} GatheredEmpty<T>(items: seq<T>, nodes: seq<Node>, unique: seq<Node>)
    requires items == [] && nodes == []
    ensures Gathered(items, nodes, unique) == []
  {
    if unique != [] { GatheredEmpty(items, nodes, unique[1..]); }
  }

  lemma MultisetHead<T>(items: seq<T>)
    requires items != []
    ensures multiset(items) == OneIf(true, items[0]) + multiset(items[1..])
  {
    assert items == [items[0]] + items[1..];
  }

  /** Together the arrays are a permutation of the digests. */
  lemma {:induction false} GatheredIsPermutation<T>(items: seq<T>, nodes: seq<Node>, unique: seq<Node>)
    requires |items| == |nodes| && Distinct(unique) && forall n :: n in nodes ==> n in unique
    ensures multiset(Gathered(items, nodes, unique)) == multiset(items)
  {
    if items == [] {
      GatheredEmpty(items, nodes, unique);
    } else {
      GatheredHead(items, nodes, unique);
      GatheredIsPermutation(items[1..], nodes[1..], unique);
      assert nodes[0] in nodes;
      MultisetHead(items);
    }
  }

  lemma {:induction false} GatheredLength<T>(items: seq<T>, nodes: seq<Node>, unique: seq<Node>, counts: seq<nat>)
    requires |items| == |nodes| && |counts| == |unique|
    requires forall k :: 0 <= k < |unique| ==> counts[k] == Count(nodes, unique[k])
    ensures |Gathered(items, nodes, unique)| == Sum(counts)
  {
    if unique != [] {
      MineCount(items, nodes, unique[0]);
      GatheredLength(items, nodes, unique[1..], counts[1..]);
    }
  }

  /** The node list of a call and its counts. */
  ghost predicate Tallied(nodes: seq<Node>, unique: seq<Node>, counts: seq<nat>)
  {
    && |unique| == |counts| && Distinct(unique) && (forall n :: n in nodes <==> n in unique)
    && forall k :: 0 <= k < |unique| ==> counts[k] == Count(nodes, unique[k])
  }

  /** Every digest is counted once. */
  lemma CountsSumUp(nodes: seq<Node>, unique: seq<Node>, counts: seq<nat>)
    requires Tallied(nodes, unique, counts)
    ensures Sum(counts) == |nodes|
  {
    GatheredIsPermutation(nodes, nodes, unique);
    GatheredLength(nodes, nodes, unique, counts);
    assert |multiset(Gathered(nodes, nodes, unique))| == |multiset(nodes)|;
  }

  lemma {:induction false} CountMore(nodes: seq<Node>, i: nat, n: Node)
    requires i < |nodes|
    ensures Count(nodes[..i + 1], n) == Count(nodes[..i], n) + if nodes[i] == n then 1 else 0
  {
    if i > 0 {
      CountMore(nodes[1..], i - 1, n);
      assert nodes[..i + 1][1..] == nodes[1..][..i] && nodes[..i][1..] == nodes[1..][..i - 1];
    } else {
      assert nodes[..1][1..] == [];
    }
  }

  lemma {:induction false} CountAbsent(nodes: seq<Node>, n: Node)
    requires n !in nodes
    ensures Count(nodes, n) == 0
  {
    if nodes != [] { CountAbsent(nodes[1..], n); }
  }

  lemma TalliedStep(nodes: seq<Node>, i: nat, unique: seq<Node>, counts: seq<nat>, j: nat)
    requires i < |nodes| && Tallied(nodes[..i], unique, counts)
    requires j <= |unique| && (forall k :: 0 <= k < j ==> unique[k] != nodes[i])
             && (j < |unique| ==> unique[j] == nodes[i])
    ensures j < |unique| ==> Tallied(nodes[..i + 1], unique, counts[j := counts[j] + 1])
    ensures j == |unique| ==> Tallied(nodes[..i + 1], unique + [nodes[i]], counts + [1])
  {
    assert nodes[..i + 1] == nodes[..i] + [nodes[i]];
    forall n ensures Count(nodes[..i + 1], n) == Count(nodes[..i], n) + if nodes[i] == n then 1 else 0
    {
      CountMore(nodes, i, n);
    }
    if j == |unique| {
      assert nodes[i] !in nodes[..i];
      CountAbsent(nodes[..i], nodes[i]);
    }
  }

  /** The distinct nodes among `nodes` are not more than the call has room for. */
  ghost predicate FewNodes(nodes: seq<Node>)
  {
    forall unique: seq<Node> :: Distinct(unique) && (forall n :: n in unique ==> n in nodes) ==> |unique| <= MaxNodes
  }

  /** The search for a node in the list so far. */
  method FindNode(unique: array<Node>, n: nat, x: Node) returns (j: nat)
    requires n <= unique.Length
    ensures j <= n && (forall k :: 0 <= k < j ==> unique[..n][k] != x) && (j < n ==> unique[..n][j] == x)
  {
    j := 0;
    while j < n && unique[j] != x
      invariant j <= n && forall k :: 0 <= k < j ==> unique[..n][k] != x
    {
      j := j + 1;
    }
  }

  /** Counts digest `i`. */
  method TallyOne(nodes: seq<Node>, i: nat, unique: array<Node>, counts: array<nat>, n: nat) returns (m: nat)
    requires unique.Length == counts.Length == MaxNodes && FewNodes(nodes) && unique != counts
    requires i < |nodes| && n <= MaxNodes && Tallied(nodes[..i], unique[..n], counts[..n])
    modifies unique, counts
    ensures m <= MaxNodes && Tallied(nodes[..i + 1], unique[..m], counts[..m])
  {
    var j := FindNode(unique, n, nodes[i]);
    ghost var us, cs := unique[..n], counts[..n];
    TalliedStep(nodes, i, us, cs, j);
    m := n;
    if j < n {
      counts[j] := counts[j] + 1;
      assert counts[..n] == cs[j := cs[j] + 1] && unique[..n] == us;
    } else {
      RoomForOne(nodes, i, us);
      unique[n], counts[n] := nodes[i], 1;
      m := n + 1;
      assert unique[..m] == us + [nodes[i]] && counts[..m] == cs + [1];
    }
  }

  /** The loop that lists the distinct nodes and counts their digests, into arrays of
      fixed size. */
  method Tally(nodes: seq<Node>, unique: array<Node>, counts: array<nat>) returns (n: nat)
    requires unique.Length == counts.Length == MaxNodes && FewNodes(nodes) && unique != counts
    modifies unique, counts
    ensures n <= MaxNodes && Tallied(nodes, unique[..n], counts[..n])
  {
    n := 0;
    var i := 0;
    while i < |nodes|
      invariant i <= |nodes| && n <= MaxNodes && Tallied(nodes[..i], unique[..n], counts[..n])
    {
      n := TallyOne(nodes, i, unique, counts, n);
      i := i + 1;
    }
    assert nodes[..i] == nodes;
  }

  lemma RoomForOne(nodes: seq<Node>, i: nat, unique: seq<Node>)
    requires FewNodes(nodes) && i < |nodes| && Distinct(unique) && nodes[i] !in unique && forall n :: n in unique ==>
               n in nodes[..i]
    ensures |unique| < MaxNodes
  {
    var more := unique + [nodes[i]];
    assert Distinct(more) && forall n :: n in more ==> n in nodes;
  }

  // ---------------------------------------------------------------------------
  // The digest array of one request
  // ---------------------------------------------------------------------------

  ghost function Joined(digests: seq<Bytes>): (b: Bytes)
  {
    if digests == [] then [] else digests[0] + Joined(digests[1..])
  }

  ghost predicate AreDigests(digests: seq<Bytes>)
  {
    forall d :: d in digests ==> |d| == W.DigestSize
  }

  lemma {:induction false} JoinedLength(digests: seq<Bytes>, nodes: seq<Node>, n: Node)
    requires |digests| == |nodes| && AreDigests(digests)
    ensures |Joined(Mine(digests, nodes, n))| == W.DigestSize * Count(nodes, n)
  {
    if digests != [] {
      assert digests[0] in digests;
      JoinedLength(digests[1..], nodes[1..], n);
      MineStep(digests, nodes, n);
    }
  }

  lemma MineStep(digests: seq<Bytes>, nodes: seq<Node>, n: Node)
    requires |digests| == |nodes| > 0
    ensures Joined(Mine(digests, nodes, n))
            == (if nodes[0] == n then digests[0] else []) + Joined(Mine(digests[1..], nodes[1..], n))
  {
    var rest := Mine(digests[1..], nodes[1..], n);
    if nodes[0] == n {
      assert ([digests[0]] + rest)[1..] == rest;
    } else {
      assert [] + rest == rest;
      Empty(Joined(rest));
    }
  }

  lemma CopyStep(digests: seq<Bytes>, nodes: seq<Node>, my: Node, i: nat, copied: Bytes)
    requires i < |digests| == |nodes|
    ensures copied + Joined(Mine(digests[i..], nodes[i..], my))
            == (if nodes[i] == my then copied + digests[i] else copied)
              + Joined(Mine(digests[i + 1..], nodes[i + 1..], my))
  {
    var rest := Joined(Mine(digests[i + 1..], nodes[i + 1..], my));
    MineStep(digests[i..], nodes[i..], my);
    assert digests[i..][1..] == digests[i + 1..] && nodes[i..][1..] == nodes[i + 1..];
    Assoc(copied, digests[i], rest);
    Empty(rest);
  }

  /** The loop that copies the node's digests, after the bytes `done`. */
  method CopyMine(buf: array<Byte>, at: nat, digests: seq<Bytes>, nodes: seq<Node>, my: Node, ghost start: Bytes,
                  ghost from: nat, ghost done: Bytes)
    returns (end: nat)
    requires |digests| == |nodes| && AreDigests(digests)
    requires at == from + |done| && at + |Joined(Mine(digests, nodes, my))| <= buf.Length == |start|
    requires buf[..] == Splice(start, from, done)
    modifies buf
    ensures end == at + |Joined(Mine(digests, nodes, my))|
    ensures buf[..] == Splice(start, from, done + Joined(Mine(digests, nodes, my)))
  {
    end := at;
    var i := 0;
    ghost var copied: Bytes, all := done, done + Joined(Mine(digests, nodes, my));
    while i < |digests|
      invariant i <= |digests| && end == from + |copied| && |copied| <= |all| && from + |all| <= buf.Length == |start|
      invariant copied + Joined(Mine(digests[i..], nodes[i..], my)) == all
      invariant buf[..] == Splice(start, from, copied)
    {
      CopyStep(digests, nodes, my, i, copied);
      if nodes[i] == my {
        CopyNext(buf, end, digests[i], start, from, copied);
        assert digests[i] in digests;
        end, copied := end + W.DigestSize, copied + digests[i];
      }
      i := i + 1;
    }
    assert copied + Joined(Mine(digests[i..], nodes[i..], my)) == copied;
  }

  /** The fields of one request: the declared size of the digest array, computed from the
      count alone, is what is copied. */
  method WriteFields(buf: array<Byte>, at: nat, ns: Option<Bytes>, digests: seq<Bytes>, nodes: seq<Node>, my: Node,
                     myCount: nat)
    returns (next: nat)
    requires |digests| == |nodes| && AreDigests(digests) && myCount == Count(nodes, my)
    requires at + |FieldsOf(ns, digests, nodes, my)| <= buf.Length
    modifies buf
    ensures buf[..] == Splice(old(buf[..]), at, FieldsOf(ns, digests, nodes, my))
            && next == at + |FieldsOf(ns, digests, nodes, my)|
  {
    ghost var start, front: Bytes := buf[..], if ns.Some? then W.FieldBytes(0, ns.value) else [];
    next := at;
    if ns.Some? {
      next := W.WriteField(buf, at, 0, ns.value);
    }
    assert buf[..] == Splice(start, at, front);
    ghost var mid := buf[..];
    next := WriteDigestArray(buf, next, digests, nodes, my, myCount);
    SpliceNext(start, at, front, W.FieldBytes(DigestArrayType, Joined(Mine(digests, nodes, my))));
  }

  ghost function FieldsOf(ns: Option<Bytes>, digests: seq<Bytes>, nodes: seq<Node>, my: Node): (b: Bytes)
    requires |digests| == |nodes|
  {
    (if ns.Some? then W.FieldBytes(0, ns.value) else [])
      + W.FieldBytes(DigestArrayType, Joined(Mine(digests, nodes, my)))
  }

  method WriteDigestArray(buf: array<Byte>, at: nat, digests: seq<Bytes>, nodes: seq<Node>, my: Node, myCount: nat)
    returns (next: nat)
    requires |digests| == |nodes| && AreDigests(digests) && myCount == Count(nodes, my)
    requires at + W.FieldHeader + |Joined(Mine(digests, nodes, my))| <= buf.Length
    modifies buf
    ensures var field := W.FieldBytes(DigestArrayType, Joined(Mine(digests, nodes, my)));
            buf[..] == Splice(old(buf[..]), at, field) && next == at + |field|
  {
    ghost var start, data := buf[..], Joined(Mine(digests, nodes, my));
    JoinedLength(digests, nodes, my);
    var size := W.DigestSize * myCount + 1;
    ghost var stored := Host(size, 4);
    Store(buf, at, 4, size);
    CopyNext(buf, at + 4, [DigestArrayType], start, at, stored);
    var end := CopyMine(buf, at + W.FieldHeader, digests, nodes, my, start, at, stored + [DigestArrayType]);
    next := at + 4 + size;
    Assoc(stored, [DigestArrayType], data);
    SwapFirst(buf, at, 4, size, start, [DigestArrayType] + data);
    Assoc(Network(size, 4), [DigestArrayType], data);
  }

  function SentFields(ns: Option<Bytes>, data: Bytes): (fields: seq<W.Field>)
  {
    (if ns.Some? then [W.Field(0, ns.value)] else []) + [W.Field(DigestArrayType, data)]
  }

  lemma SentBytes(ns: Option<Bytes>, data: Bytes)
    ensures W.FieldsBytes(SentFields(ns, data))
            == (if ns.Some? then W.FieldBytes(0, ns.value) else []) + W.FieldBytes(DigestArrayType, data)
  {
    var last := W.Field(DigestArrayType, data);
    W.OneField(last);
    if ns.Some? {
      W.FieldsBytesAppend([W.Field(0, ns.value)], [last]);
      W.OneField(W.Field(0, ns.value));
    } else {
      assert SentFields(ns, data) == [last];
    }
  }

  lemma SentSeen(ns: Option<Bytes>, data: Bytes)
    ensures V.Seen(SentFields(ns, data)) == (if ns.Some? then [V.Field(0, ns.value)] else []) + [V.Field(6, data)]
  {
  }

  /** What the server reads there: the namespace under its type, and under that of digest
      arrays the digests of this node, twenty bytes each, in their order. */
  lemma ServerReadsFields(ns: Option<Bytes>, digests: seq<Bytes>, nodes: seq<Node>, my: Node, rest: Bytes)
    requires |digests| == |nodes| && AreDigests(digests) && |FieldsOf(ns, digests, nodes, my)| < 0x1_0000_0000
    ensures var data := Joined(Mine(digests, nodes, my));
            var fields := (if ns.Some? then [V.Field(0, ns.value)] else []) + [V.Field(6, data)];
            V.TakeFields(FieldsOf(ns, digests, nodes, my) + rest, |fields|) == Some((fields, rest))
    ensures forall k :: 0 <= k < |Mine(digests, nodes, my)| ==>
              DigestAt(Joined(Mine(digests, nodes, my)), k, Mine(digests, nodes, my)[k])
  {
    var mine := Mine(digests, nodes, my);
    SentBytes(ns, Joined(mine));
    SentSeen(ns, Joined(mine));
    V.FieldsSeen(SentFields(ns, Joined(mine)), rest);
    MineAreDigests(digests, nodes, my);
    forall k | 0 <= k < |mine| ensures DigestAt(Joined(mine), k, mine[k])
    {
      JoinedAt(mine, k);
    }
  }

  /** The `k`-th twenty bytes are the digest. */
  ghost predicate DigestAt(data: Bytes, k: nat, digest: Bytes)
  {
    20 * k + 20 <= |data| && data[20 * k..20 * k + 20] == digest
  }

  lemma {:induction false} MineAreDigests(digests: seq<Bytes>, nodes: seq<Node>, my: Node)
    requires |digests| == |nodes| && AreDigests(digests)
    ensures AreDigests(Mine(digests, nodes, my))
  {
    if digests != [] {
      assert digests[0] in digests && forall d :: d in digests[1..] ==> d in digests;
      MineAreDigests(digests[1..], nodes[1..], my);
    }
  }

  lemma {:induction false} JoinedAt(mine: seq<Bytes>, k: nat)
    requires AreDigests(mine) && k < |mine|
    ensures DigestAt(Joined(mine), k, mine[k])
  {
    assert mine[0] in mine && forall d :: d in mine[1..] ==> d in mine;
    var more := Joined(mine[1..]);
    assert Joined(mine) == mine[0] + more;
    if k == 0 {
      assert (mine[0] + more)[..20] == mine[0];
    } else {
      JoinedAt(mine[1..], k - 1);
      SliceShifts(mine[0], more, 20 * (k - 1), 20 * (k - 1) + 20);
    }
  }

  lemma SliceShifts(a: Bytes, b: Bytes, i: nat, j: nat)
    requires i <= j <= |b|
    ensures (a + b)[|a| + i..|a| + j] == b[i..j]
  {
  }

  // ---------------------------------------------------------------------------
  // Node references
  // ---------------------------------------------------------------------------

  ghost predicate AllFound(found: seq<Option<Node>>)
  {
    forall o :: o in found ==> o.Some?
  }

  /** The nodes found before the first digest that gets none. */
  function FoundPrefix(found: seq<Option<Node>>): (nodes: seq<Node>)
  {
    if found == [] || found[0].None? then [] else [found[0].value] + FoundPrefix(found[1..])
  }

  lemma {:induction false} FoundPrefixWhole(found: seq<Option<Node>>)
    ensures |FoundPrefix(found)| <= |found|
    ensures |FoundPrefix(found)| == |found| <==> AllFound(found)
  {
    if found != [] {
      FoundPrefixWhole(found[1..]);
      if found[0].Some? {
        assert AllFound(found) <==> AllFound(found[1..]) by {
          assert forall o :: o in found ==> o == found[0] || o in found[1..];
          assert forall o :: o in found[1..] ==> o in found;
        }
      } else {
        assert found[0] in found;
      }
    }
  }

  /** The loop that takes a reference for every digest; `found` is what the lookups
      answer. */
  method TakeAll(found: seq<Option<Node>>, refs: multiset<Node>)
    returns (ok: bool, nodes: seq<Node>, after: multiset<Node>)
    ensures ok == AllFound(found) && nodes == FoundPrefix(found) && after == refs + multiset(nodes)
  {
    ok, nodes, after := true, [], refs;
    var i := 0;
    FoundPrefixWhole(found);
    while i < |found|
      invariant i <= |found| && |nodes| == i && nodes + FoundPrefix(found[i..]) == FoundPrefix(found)
      invariant after == refs + multiset(nodes)
    {
      if found[i].None? {
        assert FoundPrefix(found[i..]) == [];
        ok := false;
        return;
      }
      assert found[i..][1..] == found[i + 1..];
      Regroup(nodes, found[i].value, FoundPrefix(found[i + 1..]));
      nodes := nodes + [found[i].value];
      after := after + multiset{found[i].value};
      i := i + 1;
    }
    assert FoundPrefix(found[i..]) == [];
  }

  lemma Regroup(a: seq<Node>, n: Node, b: seq<Node>)
    ensures a + ([n] + b) == (a + [n]) + b
  {
  }

  /** The loop that drops them. */
  method DropAll(nodes: seq<Node>, refs: multiset<Node>) returns (after: multiset<Node>)
    requires multiset(nodes) <= refs
    ensures after == refs - multiset(nodes)
  {
    after := refs;
    var i := 0;
    while i < |nodes|
      invariant i <= |nodes| && multiset(nodes[..i]) <= refs && after == refs - multiset(nodes[..i])
    {
      DropOne(nodes, refs, i);
      after := after - multiset{nodes[i]};
      i := i + 1;
    }
    assert nodes[..i] == nodes;
  }

  lemma DropOne(nodes: seq<Node>, refs: multiset<Node>, i: nat)
    requires i < |nodes| && multiset(nodes) <= refs
    ensures multiset(nodes[..i + 1]) <= refs
    ensures refs - multiset(nodes[..i + 1]) == refs - multiset(nodes[..i]) - multiset{nodes[i]}
  {
    assert nodes[..i + 1] == nodes[..i] + [nodes[i]];
    assert nodes == nodes[..i + 1] + nodes[i + 1..];
  }

  /** A call takes its references and drops them all at its end; if a lookup answers
      nothing it fails at once. */
  method TakeAndDrop(found: seq<Option<Node>>, refs: multiset<Node>) returns (ok: bool, after: multiset<Node>)
    ensures ok == AllFound(found)
    ensures after == if ok then refs else refs + multiset(FoundPrefix(found))
  {
    var nodes;
    ok, nodes, after := TakeAll(found, refs);
    if ok {
      after := DropAll(nodes, after);
    }
  }

  /** A call leaves the references as it found them exactly if every digest gets a node,
      or the first one already does not: what was taken before a failure is not dropped. */
  lemma ReferencesBalance(found: seq<Option<Node>>, refs: multiset<Node>)
    ensures (if AllFound(found) then refs else refs + multiset(FoundPrefix(found))) == refs
            <==> AllFound(found) || found[0].None?
  {
    if !AllFound(found) {
      var nodes := FoundPrefix(found);
      assert found != [];
      assert |refs + multiset(nodes)| == |refs| + |nodes|;
      assert nodes == [] ==> multiset(nodes) == multiset{} && refs + multiset{} == refs;
    }
  }

  lemma FirstOfTwo(refs: multiset<Node>, n: Node)
    ensures var found := [Some(n), None];
            !AllFound(found) && refs + multiset(FoundPrefix(found)) == refs + multiset{n} != refs
  {
    var found: seq<Option<Node>> := [Some(n), None];
    assert found[1] in found;
    assert found[1..] == [None];
    assert FoundPrefix(found) == [n];
    assert (refs + multiset{n})[n] == refs[n] + 1;
  }

  /** A call on two digests that meets the eviction of the last node fails with a node
      reference it never drops. */
  lemma EvictionLeaks(refs: multiset<Node>)
    ensures exists run :: C.FindsThenNone(run, 0)
    ensures var found := [Some(0), None];
            !AllFound(found) && refs + multiset(FoundPrefix(found)) == refs + multiset{0} != refs
  {
    C.AnswerThenNone();
    FirstOfTwo(refs, 0);
  }

  // ---------------------------------------------------------------------------
  // Dispatching, waiting and dropping, interleaved with the workers
  // ---------------------------------------------------------------------------

  /** Where the request for one node is; its worker reports a result code. */
  datatype Where = NotSent | Queued | Running | Reported(rc: int) | Collected(rc: int)

  datatype Caller = Dispatching(sent: nat) | Waiting(collected: nat) | Dropping(dropped: nat)

  /** `rv` is what the call will return. */
  datatype State = State(caller: Caller, requests: seq<Where>, references: nat, rv: int)

  datatype Step = Dispatch | StartWait | Take(k: nat) | Report(k: nat, rc: int) | Collect(k: nat) | StartDrop | Drop

  ghost predicate Init(s: State, nRequests: nat, nDigests: nat)
  {
    s == State(Dispatching(0), seq(nRequests, _ => NotSent), nDigests, 0)
  }

  ghost predicate Enabled(s: State, e: Step)
  {
    match e
    case Dispatch => s.caller.Dispatching? && s.caller.sent < |s.requests|
    case StartWait => s.caller.Dispatching? && s.caller.sent >= |s.requests|
    case Take(k) => k < |s.requests| && s.requests[k] == Queued
    case Report(k, _) => k < |s.requests| && s.requests[k] == Running
    case Collect(k) => s.caller.Waiting? && s.caller.collected < |s.requests| && k < |s.requests|
      && s.requests[k].Reported?
    case StartDrop => s.caller.Waiting? && s.caller.collected >= |s.requests|
    case Drop => s.caller.Dropping? && s.references > 0
  }

  ghost function Apply(s: State, e: Step): State
    requires Enabled(s, e)
  {
    match e
    case Dispatch => s.(caller := Dispatching(s.caller.sent + 1), requests := s.requests[s.caller.sent := Queued])
    case StartWait => s.(caller := Waiting(0))
    case Take(k) => s.(requests := s.requests[k := Running])
    case Report(k, rc) => s.(requests := s.requests[k := Reported(rc)])
    case Collect(k) =>
      var rc := s.requests[k].rc;
      s.(caller := Waiting(s.caller.collected + 1), requests := s.requests[k := Collected(rc)],
         rv := if rc != 0 then rc else s.rv)
    case StartDrop => s.(caller := Dropping(0))
    case Drop => s.(caller := Dropping(s.caller.dropped + 1), references := s.references - 1)
  }

  ghost function CollectedIn(requests: seq<Where>): (n: nat)
    ensures n <= |requests|
  {
    if requests == [] then 0 else (if requests[0].Collected? then 1 else 0) + CollectedIn(requests[1..])
  }

  lemma {:induction false} CollectedAfter(requests: seq<Where>, k: nat, w: Where)
    requires k < |requests|
    ensures CollectedIn(requests[k := w]) ==
              CollectedIn(requests) - (if requests[k].Collected? then 1 else 0) + if w.Collected? then 1 else 0
  {
    if k > 0 {
      CollectedAfter(requests[1..], k - 1, w);
      assert requests[k := w][1..] == requests[1..][k - 1 := w];
    } else {
      assert requests[0 := w][1..] == requests[1..];
    }
  }

  lemma {:induction false} AllCollected(requests: seq<Where>)
    ensures CollectedIn(requests) == |requests| <==> forall k :: 0 <= k < |requests| ==> requests[k].Collected?
  {
    if requests != [] {
      AllCollected(requests[1..]);
      assert (forall k :: 0 <= k < |requests| ==> requests[k].Collected?)
        <==> requests[0].Collected? && forall k :: 0 <= k < |requests[1..]| ==> requests[1..][k].Collected? by {
        assert forall k :: 0 < k < |requests| ==> requests[k] == requests[1..][k - 1];
        assert forall k :: 0 <= k < |requests[1..]| ==> requests[1..][k] == requests[k + 1];
      }
    }
  }

  ghost predicate FailedWith(requests: seq<Where>, k: nat, rc: int)
    requires k < |requests|
  {
    requests[k] == Collected(rc)
  }

  /** What the call is about to return is 0 or the code of a request that failed, and 0 only
      if no request collected so far failed. */
  ghost predicate ReturnsFailure(s: State)
  {
    && (s.rv != 0 ==> exists k: nat :: k < |s.requests| && FailedWith(s.requests, k, s.rv))
    && (s.rv == 0 ==> forall k: nat, rc :: k < |s.requests| && FailedWith(s.requests, k, rc) ==> rc == 0)
  }

  ghost predicate Inv(s: State, nRequests: nat, nDigests: nat)
  {
    && |s.requests| == nRequests && CollectedIn(s.requests) == (match s.caller
                                                               case Dispatching(_) => 0
                                                               case Waiting(collected) => collected
                                                               case Dropping(_) => nRequests)
    && (match s.caller
        case Dispatching(sent) => sent <= nRequests && forall k :: 0 <= k < nRequests ==>
            (s.requests[k] == NotSent <==> sent <= k)
        case Waiting(_) => forall k :: 0 <= k < nRequests ==> s.requests[k] != NotSent
        case Dropping(dropped) => true)
    && s.references + (if s.caller.Dropping? then s.caller.dropped else 0) == nDigests
    && ReturnsFailure(s)
  }

  lemma InitHolds(s: State, nRequests: nat, nDigests: nat)
    requires Init(s, nRequests, nDigests)
    ensures Inv(s, nRequests, nDigests)
  {
    NoneCollected(s.requests);
  }

  lemma {:induction false} NoneCollected(requests: seq<Where>)
    requires forall k :: 0 <= k < |requests| ==> !requests[k].Collected?
    ensures CollectedIn(requests) == 0
  {
    if requests != [] { NoneCollected(requests[1..]); }
  }

  lemma StepKeeps(s: State, e: Step, nRequests: nat, nDigests: nat)
    requires Inv(s, nRequests, nDigests) && Enabled(s, e)
    ensures Inv(Apply(s, e), nRequests, nDigests)
  {
    StepKeepsResult(s, e, nRequests, nDigests);
    match e
    case Dispatch => CollectedAfter(s.requests, s.caller.sent, Queued);
    case Take(k) => CollectedAfter(s.requests, k, Running);
    case Report(k, rc) => CollectedAfter(s.requests, k, Reported(rc));
    case Collect(k) => CollectedAfter(s.requests, k, Collected(s.requests[k].rc));
    case _ =>
  }

  lemma StepKeepsResult(s: State, e: Step, nRequests: nat, nDigests: nat)
    requires Inv(s, nRequests, nDigests) && Enabled(s, e)
    ensures ReturnsFailure(Apply(s, e))
  {
    var t := Apply(s, e);
    if s.rv != 0 {
      var k: nat :| k < |s.requests| && FailedWith(s.requests, k, s.rv);
      if t.rv == s.rv { assert FailedWith(t.requests, k, t.rv); }
    }
    if e.Collect? { assert FailedWith(t.requests, e.k, s.requests[e.k].rc); }
    forall k: nat, rc | k < |t.requests| && FailedWith(t.requests, k, rc) && t.rv == 0 ensures rc == 0
    {
      assert FailedWith(s.requests, k, rc) || (e.Collect? && e.k == k && rc == s.requests[k].rc);
    }
  }

  ghost predicate Next(s: State, t: State)
  {
    exists e :: Enabled(s, e) && t == Apply(s, e)
  }

  ghost predicate IsRun(run: seq<State>, nRequests: nat, nDigests: nat)
  {
    run != [] && Init(run[0], nRequests, nDigests) && forall k :: 0 <= k < |run| - 1 ==> Next(run[k], run[k + 1])
  }

  lemma {:induction false} RunKeeps(run: seq<State>, nRequests: nat, nDigests: nat)
    requires IsRun(run, nRequests, nDigests)
    ensures Inv(run[|run| - 1], nRequests, nDigests)
  {
    if |run| == 1 {
      InitHolds(run[0], nRequests, nDigests);
    } else {
      var k := |run| - 1;
      RunKeeps(run[..k], nRequests, nDigests);
      assert Next(run[k - 1], run[k]);
      var e :| Enabled(run[k - 1], e) && run[k] == Apply(run[k - 1], e);
      StepKeeps(run[k - 1], e, nRequests, nDigests);
    }
  }

  /** In every run a reference is dropped only when every request has been dispatched,
      finished by its worker and collected, so no worker still uses the node list. */
  lemma DroppedOnlyAfterAll(run: seq<State>, nRequests: nat, nDigests: nat)
    requires IsRun(run, nRequests, nDigests) && run[|run| - 1].references < nDigests
    ensures var s := run[|run| - 1];
            s.caller.Dropping? && |s.requests| == nRequests && forall k :: 0 <= k < nRequests ==>
                s.requests[k].Collected?
  {
    RunKeeps(run, nRequests, nDigests);
    AllCollected(run[|run| - 1].requests);
  }

  /** Once it drops references the call will return 0 exactly if every worker reported 0,
      and otherwise a code some worker reported. */
  lemma ReturnsTheFailure(run: seq<State>, nRequests: nat, nDigests: nat)
    requires IsRun(run, nRequests, nDigests) && run[|run| - 1].caller.Dropping?
    ensures var s := run[|run| - 1];
            && |s.requests| == nRequests
            && (s.rv == 0 <==> forall k :: 0 <= k < nRequests ==> s.requests[k] == Collected(0))
            && (s.rv != 0 ==> Collected(s.rv) in s.requests)
  {
    var s := run[|run| - 1];
    RunKeeps(run, nRequests, nDigests);
    AllCollected(s.requests);
    if s.rv == 0 {
      forall k: nat | k < nRequests ensures s.requests[k] == Collected(0)
      {
        assert FailedWith(s.requests, k, s.requests[k].rc);
      }
    } else {
      var k: nat :| k < |s.requests| && FailedWith(s.requests, k, s.rv);
    }
  }

  /** How many steps are still to come for the requests. */
  ghost function Stages(requests: seq<Where>): (n: nat)
  {
    if requests == [] then 0 else Stage(requests[0]) + Stages(requests[1..])
  }

  ghost function Stage(w: Where): (n: nat)
  {
    match w
    case NotSent => 4
    case Queued => 3
    case Running => 2
    case Reported(_) => 1
    case Collected(_) => 0
  }

  lemma {:induction false} StagesAfter(requests: seq<Where>, k: nat, w: Where)
    requires k < |requests|
    ensures Stages(requests[k := w]) == Stages(requests) - Stage(requests[k]) + Stage(w)
  {
    if k > 0 {
      StagesAfter(requests[1..], k - 1, w);
      assert requests[k := w][1..] == requests[1..][k - 1 := w];
    } else {
      assert requests[0 := w][1..] == requests[1..];
    }
  }

  ghost function ToCome(s: State): (n: nat)
  {
    s.references + Stages(s.requests)
    + match s.caller
      case Dispatching(_) => 2
      case Waiting(_) => 1
      case Dropping(_) => 0
  }

  lemma StepCounts(s: State, e: Step, nRequests: nat, nDigests: nat)
    requires Inv(s, nRequests, nDigests) && Enabled(s, e)
    ensures ToCome(Apply(s, e)) == ToCome(s) - 1
  {
    match e
    case Dispatch => StagesAfter(s.requests, s.caller.sent, Queued);
    case Take(k) => StagesAfter(s.requests, k, Running);
    case Report(k, rc) => StagesAfter(s.requests, k, Reported(rc));
    case Collect(k) => StagesAfter(s.requests, k, Collected(s.requests[k].rc));
    case _ =>
  }

  lemma {:induction false} StagesAtFirst(requests: seq<Where>)
    requires forall k :: 0 <= k < |requests| ==> requests[k] == NotSent
    ensures Stages(requests) == 4 * |requests|
  {
    if requests != [] { StagesAtFirst(requests[1..]); }
  }

  /** Every call ends: each step of caller or worker is one of four for each request, two of
      the caller and one for each reference, in whatever order they come. */
  lemma {:induction false} CallsEnd(run: seq<State>, nRequests: nat, nDigests: nat)
    requires IsRun(run, nRequests, nDigests)
    ensures |run| - 1 + ToCome(run[|run| - 1]) == 4 * nRequests + 2 + nDigests
  {
    if |run| == 1 {
      StagesAtFirst(run[0].requests);
    } else {
      var k := |run| - 1;
      CallsEnd(run[..k], nRequests, nDigests);
      RunKeeps(run[..k], nRequests, nDigests);
      assert Next(run[k - 1], run[k]);
      var e :| Enabled(run[k - 1], e) && run[k] == Apply(run[k - 1], e);
      StepCounts(run[k - 1], e, nRequests, nDigests);
    }
  }

  /** The call cannot hang on a lost completion: until the last reference is dropped some
      step of the caller or of a worker is possible. */
  lemma NeverStuck(run: seq<State>, nRequests: nat, nDigests: nat) returns (e: Step)
    requires IsRun(run, nRequests, nDigests)
    requires !(run[|run| - 1].caller.Dropping? && run[|run| - 1].references == 0)
    ensures Enabled(run[|run| - 1], e)
  {
    var s := run[|run| - 1];
    RunKeeps(run, nRequests, nDigests);
    match s.caller
    case Dispatching(sent) => e := if sent < nRequests then Dispatch else StartWait;
    case Dropping(_) => e := Drop;
    case Waiting(collected) =>
      if collected >= nRequests {
        e := StartDrop;
      } else {
        AllCollected(s.requests);
        var k :| 0 <= k < nRequests && !s.requests[k].Collected?;
        e := if s.requests[k] == Queued then Take(k) else if s.requests[k] == Running then Report(k, 0) else Collect(k);
      }
  }
}
