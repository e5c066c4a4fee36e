/**
 The partition map and its reference-counted nodes (src/cl_partition.c,
 src/cl_cluster.c, src/cf_alloc.c).

 `State` and `Event` describe the atomic steps: everything done under one partition
 lock, or under the cluster lock, is one step.  Lookups and releases by transaction
 threads may fall between any two steps of the tender, whose loops (Tender.dfy) perform
 its steps one by one.
 */
module Cluster {
  import opened Common

  type Node = nat
  type Ns = seq<bv8>
  type Slot = (Ns, nat)

  /** The generation value that forces a refetch of a node's replicas. */
  const Forced: nat := 0xFFFF_FFFF
  const MaxIntervalsAbsent: nat := 1

  datatype Part = Part(master: Option<Node>, prole: Option<Node>)

  /** `rc` has a key for every allocated node; a release that brings the counter to
      zero removes the key.  `holds` are the references of running transactions and
      of the tender's own hand.  `claims` is history: the partitions a node's last
      parsed report claimed as master. */
  datatype State = State(
    nodes: seq<Node>,
    parts: map<Slot, Part>,
    rc: map<Node, nat>,
    gen: map<Node, nat>,
    holds: multiset<Node>,
    claims: map<Node, set<Slot>>,
    closed: bool)

  // ---------------------------------------------------------------------------
  // Reference counts
  // ---------------------------------------------------------------------------

  ghost function Masters(s: State, n: Node): set<Slot>
  {
    set k | k in s.parts && s.parts[k].master == Some(n)
  }

  ghost function Proles(s: State, n: Node): set<Slot>
  {
    set k | k in s.parts && s.parts[k].prole == Some(n)
  }

  /** All references to a node. */
  ghost function Refs(s: State, n: Node): nat
  {
    (if n in s.nodes then 1 else 0) + |Masters(s, n)| + |Proles(s, n)| + s.holds[n]
  }

  ghost predicate NoDup(l: seq<Node>)
  {
    forall i, j :: 0 <= i < j < |l| ==> l[i] != l[j]
  }

  /** Each counter equals the number of references, and a node is freed exactly
      when that number is zero. */
  ghost predicate RcInv(s: State)
  {
    && NoDup(s.nodes)
    && forall n {:trigger Refs(s, n)} ::
         && (n in s.rc <==> Refs(s, n) > 0)
         && (n in s.rc ==> s.rc[n] == Refs(s, n))
  }

  /** `cf_client_rc_reserve`. */
  function Inc(rc: map<Node, nat>, n: Node): map<Node, nat>
    requires n in rc
  {
    rc[n := rc[n] + 1]
  }

  /** `cl_cluster_node_release`: the last release frees the node. */
  function Dec(rc: map<Node, nat>, n: Node): map<Node, nat>
    requires n in rc
  {
    if rc[n] <= 1 then rc - {n} else rc[n := rc[n] - 1]
  }

  // ---------------------------------------------------------------------------
  // Moves on one reference; each keeps the counts right
  // ---------------------------------------------------------------------------

  /** How one changed slot changes the slot sets of every node. */
  lemma SlotSets(s: State, k: Slot, q: Part, n: Node)
    requires k in s.parts
    ensures var t := s.(parts := s.parts[k := q]);
            && Masters(t, n) == (if q.master == Some(n) then Masters(s, n) + {k} else Masters(s, n) - {k})
            && Proles(t, n) == (if q.prole == Some(n) then Proles(s, n) + {k} else Proles(s, n) - {k})
            && (k in Masters(s, n) <==> s.parts[k].master == Some(n))
            && (k in Proles(s, n) <==> s.parts[k].prole == Some(n))
  {
  }

  function ClearMaster(s: State, k: Slot): (t: State)
    requires k in s.parts
    requires s.parts[k].master.Some? ==> s.parts[k].master.value in s.rc
    ensures RcInv(s) ==> RcInv(t)
  {
    var p := s.parts[k];
    if p.master.None? then s
    else
      var t := s.(parts := s.parts[k := p.(master := None)], rc := Dec(s.rc, p.master.value));
      assert RcInv(s) ==> RcInv(t) by {
        forall n: Node ensures Refs(t, n) == Refs(s, n) - (if p.master == Some(n) then 1 else 0) {
          SlotSets(s, k, p.(master := None), n);
        }
      }
      t
  }

  function ClearProle(s: State, k: Slot): (t: State)
    requires k in s.parts
    requires s.parts[k].prole.Some? ==> s.parts[k].prole.value in s.rc
    ensures RcInv(s) ==> RcInv(t)
  {
    var p := s.parts[k];
    if p.prole.None? then s
    else
      var t := s.(parts := s.parts[k := p.(prole := None)], rc := Dec(s.rc, p.prole.value));
      assert RcInv(s) ==> RcInv(t) by {
        forall n: Node ensures Refs(t, n) == Refs(s, n) - (if p.prole == Some(n) then 1 else 0) {
          SlotSets(s, k, p.(prole := None), n);
        }
      }
      t
  }

  function SetMaster(s: State, k: Slot, m: Node): (t: State)
    requires k in s.parts && s.parts[k].master.None? && m in s.rc
    ensures RcInv(s) ==> RcInv(t)
  {
    var p := s.parts[k];
    var t := s.(parts := s.parts[k := p.(master := Some(m))], rc := Inc(s.rc, m));
    assert RcInv(s) ==> RcInv(t) by {
      forall n: Node ensures Refs(t, n) == Refs(s, n) + (if m == n then 1 else 0) {
        SlotSets(s, k, p.(master := Some(m)), n);
      }
    }
    t
  }

  function SetProle(s: State, k: Slot, m: Node): (t: State)
    requires k in s.parts && s.parts[k].prole.None? && m in s.rc
    ensures RcInv(s) ==> RcInv(t)
  {
    var p := s.parts[k];
    var t := s.(parts := s.parts[k := p.(prole := Some(m))], rc := Inc(s.rc, m));
    assert RcInv(s) ==> RcInv(t) by {
      forall n: Node ensures Refs(t, n) == Refs(s, n) + (if m == n then 1 else 0) {
        SlotSets(s, k, p.(prole := Some(m)), n);
      }
    }
    t
  }

  /** `force_replicas_refresh` on a displaced node, if there is one. */
  function Force(s: State, n: Option<Node>): State
  {
    if n.None? then s else s.(gen := s.gen[n.value := Forced])
  }

  // ---------------------------------------------------------------------------
  // Atomic steps
  // ---------------------------------------------------------------------------

  ghost predicate Listed(s: State, party: Option<Node>)
  {
    party.Some? ==> party.value in s.nodes
  }

  /** No node has both roles in the slot, and until closing both parties are listed. */
  ghost predicate SlotOk(s: State, k: Slot)
    requires k in s.parts
  {
    && (s.parts[k].master.Some? ==> s.parts[k].master != s.parts[k].prole)
    && (!s.closed ==> Listed(s, s.parts[k].master) && Listed(s, s.parts[k].prole))
  }

  ghost predicate ClaimOk(s: State, n: Node, k: Slot)
    requires n in s.gen
  {
    k in s.parts && (s.parts[k].master == Some(n) || s.gen[n] == Forced)
  }

  ghost predicate NodeOk(s: State, n: Node)
  {
    n in s.gen && n in s.claims && forall k :: k in s.claims[n] ==> ClaimOk(s, n, k)
  }

  /** The table names only listed nodes, never one node in both roles, and backs
      every claim of a last report unless that node is due for a refetch. */
  ghost predicate TableInv(s: State)
  {
    && (forall k :: k in s.parts ==> SlotOk(s, k))
    && (!s.closed ==> forall n :: n in s.nodes ==> NodeOk(s, n))
  }

  ghost predicate Inv(s: State)
  {
    RcInv(s) && TableInv(s)
  }

  /** Any node in a slot, in the list or in a hand is allocated. */
  lemma ReferencedIsAllocated(s: State, n: Node)
    requires RcInv(s)
    ensures n in s.nodes || n in s.holds ==> n in s.rc
    ensures forall k :: k in s.parts && (s.parts[k].master == Some(n) || s.parts[k].prole == Some(n)) ==> n in s.rc
  {
    forall k | k in s.parts && (s.parts[k].master == Some(n) || s.parts[k].prole == Some(n))
      ensures n in s.rc
    {
      if s.parts[k].master == Some(n) {
        assert k in Masters(s, n);
      } else {
        assert k in Proles(s, n);
      }
      assert Refs(s, n) > 0;
    }
    assert n in s.nodes || n in s.holds ==> Refs(s, n) > 0;
  }

  lemma ListedAllocated(s: State, n: Node)
    requires RcInv(s) && n in s.nodes
    ensures n in s.rc
  {
    ReferencedIsAllocated(s, n);
  }

  /** The two parties of one locked slot are allocated. */
  lemma SlotAllocated(s: State, k: Slot)
    requires RcInv(s) && k in s.parts
    ensures s.parts[k].master.Some? ==> s.parts[k].master.value in s.rc
    ensures s.parts[k].prole.Some? ==> s.parts[k].prole.value in s.rc
  {
    if s.parts[k].master.Some? { ReferencedIsAllocated(s, s.parts[k].master.value); }
    if s.parts[k].prole.Some? { ReferencedIsAllocated(s, s.parts[k].prole.value); }
  }

  /** Takes `n` itself out of both roles of the slot. */
  function Withdraw(s: State, n: Node, k: Slot): (t: State)
    requires RcInv(s) && k in s.parts
    ensures RcInv(t) && t == s.(parts := t.parts, rc := t.rc) && k in t.parts
    ensures t.parts == s.parts[k := t.parts[k]]
    ensures t.parts[k].master == (if s.parts[k].master == Some(n) then None else s.parts[k].master)
    ensures t.parts[k].prole == (if s.parts[k].prole == Some(n) then None else s.parts[k].prole)
  {
    SlotAllocated(s, k);
    var s1 := if s.parts[k].master == Some(n) then ClearMaster(s, k) else s;
    SlotAllocated(s1, k);
    if s1.parts[k].prole == Some(n) then ClearProle(s1, k) else s1
  }

  /** Makes `n` the master; another master is displaced and due for a refetch. */
  function TakeMaster(s: State, n: Node, k: Slot): (t: State)
    requires RcInv(s) && k in s.parts && n in s.nodes && s.parts[k].master != Some(n)
    ensures RcInv(t)
    ensures t == s.(parts := s.parts[k := s.parts[k].(master := Some(n))], rc := t.rc,
                    gen := if s.parts[k].master.Some? then s.gen[s.parts[k].master.value := Forced] else s.gen)
  {
    SlotAllocated(s, k);
    var displaced := s.parts[k].master;
    NotesKeepRc(s, Force(s, displaced));
    var s1 := ClearMaster(Force(s, displaced), k);
    ListedAllocated(s1, n);
    SetMaster(s1, k, n)
  }

  /** Makes `n` the prole; another prole is displaced and due for a refetch. */
  function TakeProle(s: State, n: Node, k: Slot): (t: State)
    requires RcInv(s) && k in s.parts && n in s.nodes && s.parts[k].prole != Some(n)
    ensures RcInv(t)
    ensures t == s.(parts := s.parts[k := s.parts[k].(prole := Some(n))], rc := t.rc,
                    gen := if s.parts[k].prole.Some? then s.gen[s.parts[k].prole.value := Forced] else s.gen)
  {
    SlotAllocated(s, k);
    var displaced := s.parts[k].prole;
    NotesKeepRc(s, Force(s, displaced));
    var s1 := ClearProle(Force(s, displaced), k);
    ListedAllocated(s1, n);
    SetProle(s1, k, n)
  }

  /** Gives `n`, which holds no role in the slot, the role it claims. */
  function TakeRole(s: State, n: Node, k: Slot, isMaster: bool, isProle: bool): (t: State)
    requires RcInv(s) && k in s.parts && n in s.nodes
    requires s.parts[k].master != Some(n) && s.parts[k].prole != Some(n)
    ensures RcInv(t)
    ensures t == s.(parts := s.parts[k := SlotAfter(s.parts[k], n, isMaster, isProle)], rc := t.rc,
                    gen := GenAfter(s.gen, s.parts[k], n, isMaster, isProle))
  {
    if isMaster then TakeMaster(s, n, k)
    else if isProle then TakeProle(s, n, k)
    else
      assert s.parts == s.parts[k := s.parts[k]];
      s
  }

  lemma SlotAfterWithdrawal(p: Part, q: Part, gen: map<Node, nat>, n: Node, isMaster: bool, isProle: bool)
    requires q == Part(if p.master == Some(n) then None else p.master, if p.prole == Some(n) then None else p.prole)
    ensures SlotAfter(q, n, isMaster, isProle) == SlotAfter(p, n, isMaster, isProle)
    ensures GenAfter(gen, q, n, isMaster, isProle) == GenAfter(gen, p, n, isMaster, isProle)
  {
  }

  lemma SetTwice(parts: map<Slot, Part>, k: Slot, p: Part, q: Part)
    ensures parts[k := p][k := q] == parts[k := q]
  {
  }

  /** Takes `n` out of the slot and gives it back the role it claims. */
  function Settle(s: State, n: Node, k: Slot, isMaster: bool, isProle: bool): (t: State)
    requires RcInv(s) && k in s.parts && n in s.nodes
    ensures RcInv(t)
    ensures t == s.(parts := s.parts[k := SlotAfter(s.parts[k], n, isMaster, isProle)], rc := t.rc,
                    gen := GenAfter(s.gen, s.parts[k], n, isMaster, isProle))
  {
    var s1 := Withdraw(s, n, k);
    SlotAfterWithdrawal(s.parts[k], s1.parts[k], s.gen, n, isMaster, isProle);
    SetTwice(s.parts, k, s1.parts[k], SlotAfter(s.parts[k], n, isMaster, isProle));
    TakeRole(s1, n, k, isMaster, isProle)
  }

  /** One locked step of `cl_partition_table_update`.  The releases of `n` itself
      never free it. */
  function UpdateSlot(s: State, n: Node, k: Slot, isMaster: bool, isProle: bool): (t: State)
    requires RcInv(s) && k in s.parts && n in s.nodes && n in s.claims
    ensures RcInv(t) && n in Withdraw(s, n, k).rc && n in t.rc
    ensures t == s.(parts := s.parts[k := SlotAfter(s.parts[k], n, isMaster, isProle)],
                    rc := t.rc,
                    gen := GenAfter(s.gen, s.parts[k], n, isMaster, isProle),
                    claims := s.claims[n := if isMaster then s.claims[n] + {k} else s.claims[n] - {k}])
  {
    var s1 := Settle(s, n, k, isMaster, isProle);
    var t := s1.(claims := s.claims[n := if isMaster then s.claims[n] + {k} else s.claims[n] - {k}]);
    NotesKeepRc(s1, t);
    ListedAllocated(Withdraw(s, n, k), n);
    ListedAllocated(t, n);
    t
  }

  /** What a report makes of a slot: the reporter holds exactly the role it claims,
      and the other party stays unless it held that role. */
  function SlotAfter(p: Part, n: Node, isMaster: bool, isProle: bool): Part
  {
    Part(if isMaster then Some(n) else if p.master == Some(n) then None else p.master,
         if !isMaster && isProle then Some(n) else if p.prole == Some(n) then None else p.prole)
  }

  /** What a report that claims the roles `isMaster` and `isProle` for `n` makes of a slot:
      `n` has the role it claims, master before prole, and no other, and apart from what
      `n` takes or leaves the slot is as it was. */
  ghost predicate RolesAsReported(p: Part, q: Part, n: Node, isMaster: bool, isProle: bool)
  {
    && (q.master == Some(n) <==> isMaster)
    && (q.prole == Some(n) <==> isProle && !isMaster)
    && (q.master != Some(n) ==> q.master == if p.master == Some(n) then None else p.master)
    && (q.prole != Some(n) ==> q.prole == if p.prole == Some(n) then None else p.prole)
  }

  function GenAfter(gen: map<Node, nat>, p: Part, n: Node, isMaster: bool, isProle: bool): map<Node, nat>
  {
    if isMaster && p.master.Some? && p.master != Some(n) then gen[p.master.value := Forced]
    else if !isMaster && isProle && p.prole.Some? && p.prole != Some(n) then gen[p.prole.value := Forced]
    else gen
  }

  /** `cl_partition_table_get`: which node a lookup takes from a slot. */
  function Pick(p: Part, write: bool, dice: bool): Option<Node>
  {
    if write || p.prole.None? then p.master
    else if p.master.None? then p.prole
    else if dice then p.master else p.prole
  }

  datatype Event =
    | Lookup(k: Slot, write: bool, dice: bool)
    | GetRandom(i: nat)
    | Put(n: Node)
    | AddNode(n: Node)
    | CreateTable(ns: Ns, count: nat)
    | BeginReport(n: Node, newGen: Option<nat>)
    | Update(n: Node, k: Slot, isMaster: bool, isProle: bool)
    | DropProle(n: Node, k: Slot)
    | Evict(i: nat)
    | Close
    | CloseNode
    | CloseSlot(k: Slot)

  ghost predicate Enabled(s: State, e: Event)
  {
    match e
    case Lookup(k, write, dice) => k in s.parts && Pick(s.parts[k], write, dice).Some?
    case GetRandom(i) => i < |s.nodes|
    case Put(n) => n in s.holds
    case AddNode(n) => n !in s.rc && !s.closed
    case CreateTable(ns, count) => !s.closed && forall pid :: (ns, pid) !in s.parts
    case BeginReport(n, _) => n in s.nodes && !s.closed
    case Update(n, k, _, _) => n in s.nodes && k in s.parts && !s.closed
    case DropProle(n, k) => k in s.parts && s.parts[k].prole == Some(n) && !s.closed
    case Evict(i) => i < |s.nodes| && !s.closed
      && forall k :: k in s.parts ==> s.parts[k].master != Some(s.nodes[i]) && s.parts[k].prole != Some(s.nodes[i])
    case Close => !s.closed
    case CloseNode => s.closed && s.nodes != []
    case CloseSlot(k) => s.closed && k in s.parts
  }

  function Reserve(s: State, n: Node): State
    requires n in s.rc
  {
    s.(rc := Inc(s.rc, n), holds := s.holds + multiset{n})
  }

  function Release(s: State, n: Node): State
    requires n in s.rc
  {
    s.(rc := Dec(s.rc, n), holds := s.holds - multiset{n})
  }

  /** Takes a node out of the list; its reference stays in the tender's hand. */
  function Delist(s: State, i: nat): State
    requires i < |s.nodes|
  {
    s.(nodes := s.nodes[..i] + s.nodes[i + 1..], holds := s.holds + multiset{s.nodes[i]})
  }

  function EmptySlots(ns: Ns, count: nat): map<Slot, Part>
  {
    map pid | 0 <= pid < count :: (ns, pid) := Part(None, None)
  }

  function Apply(s: State, e: Event): State
    requires Inv(s) && Enabled(s, e)
  {
    match e
    case Lookup(k, write, dice) =>
      SlotAllocated(s, k);
      Reserve(s, Pick(s.parts[k], write, dice).value)
    case GetRandom(i) =>
      ReferencedIsAllocated(s, s.nodes[i]);
      Reserve(s, s.nodes[i])
    case Put(n) =>
      ReferencedIsAllocated(s, n);
      Release(s, n)
    case AddNode(n) =>
      s.(nodes := s.nodes + [n], rc := s.rc[n := 1], gen := s.gen[n := Forced], claims := s.claims[n := {}])
    case CreateTable(ns, count) =>
      s.(parts := s.parts + EmptySlots(ns, count))
    case BeginReport(n, newGen) =>
      s.(claims := s.claims[n := {}], gen := if newGen.Some? then s.gen[n := newGen.value] else s.gen)
    case Update(n, k, isMaster, isProle) => UpdateSlot(s, n, k, isMaster, isProle)
    case DropProle(n, k) =>
      SlotAllocated(s, k);
      ClearProle(s, k)
    case Evict(i) =>
      Delist(s, i)
    case Close => s.(closed := true)
    case CloseNode =>
      EvictKeepsRc(s, 0);
      ReferencedIsAllocated(Delist(s, 0), s.nodes[0]);
      Release(Delist(s, 0), s.nodes[0])
    case CloseSlot(k) =>
      SlotAllocated(s, k);
      var t := ClearMaster(s, k);
      SlotAllocated(t, k);
      ClearProle(t, k)
  }

  lemma SameSlots(s: State, t: State)
    requires s.parts == t.parts
    ensures forall n: Node :: Masters(t, n) == Masters(s, n) && Proles(t, n) == Proles(s, n)
  {
  }

  lemma ReserveKeepsRc(s: State, n: Node)
    requires RcInv(s) && n in s.rc
    ensures RcInv(Reserve(s, n))
  {
    var t := Reserve(s, n);
    SameSlots(s, t);
    forall x: Node
      ensures (x in t.rc <==> Refs(t, x) > 0) && (x in t.rc ==> t.rc[x] == Refs(t, x))
    {
      assert Refs(t, x) == Refs(s, x) + (if x == n then 1 else 0);
    }
  }

  lemma ReleaseKeepsRc(s: State, n: Node)
    requires RcInv(s) && n in s.holds && n in s.rc
    ensures RcInv(Release(s, n))
  {
    var t := Release(s, n);
    SameSlots(s, t);
    forall x: Node
      ensures (x in t.rc <==> Refs(t, x) > 0) && (x in t.rc ==> t.rc[x] == Refs(t, x))
    {
      assert Refs(t, x) == Refs(s, x) - (if x == n then 1 else 0);
    }
  }

  /** Generations, claims and the closed flag do not count. */
  lemma NotesKeepRc(s: State, t: State)
    requires RcInv(s) && t == s.(gen := t.gen, claims := t.claims, closed := t.closed)
    ensures RcInv(t)
  {
    SameSlots(s, t);
    forall x: Node
      ensures (x in t.rc <==> Refs(t, x) > 0) && (x in t.rc ==> t.rc[x] == Refs(t, x))
    {
      assert Refs(t, x) == Refs(s, x);
    }
  }

  lemma AddNodeKeepsRc(s: State, e: Event)
    requires Inv(s) && Enabled(s, e) && e.AddNode?
    ensures RcInv(Apply(s, e))
  {
    var t := Apply(s, e);
    SameSlots(s, t);
    assert Refs(s, e.n) == 0;
    forall n: Node
      ensures (n in t.rc <==> Refs(t, n) > 0) && (n in t.rc ==> t.rc[n] == Refs(t, n))
    {
      var before := Refs(s, n);
    }
  }

  /** Delisting a node moves its listing reference to the tender's hand. */
  lemma EvictKeepsRc(s: State, i: nat)
    requires RcInv(s) && i < |s.nodes|
    ensures RcInv(Delist(s, i))
  {
    var t := Delist(s, i);
    SameSlots(s, t);
    Delisted(s.nodes, i);
    forall n: Node
      ensures (n in t.rc <==> Refs(t, n) > 0) && (n in t.rc ==> t.rc[n] == Refs(t, n))
    {
      assert Refs(t, n) == Refs(s, n);
    }
  }

  lemma Delisted(l: seq<Node>, i: nat)
    requires NoDup(l) && i < |l|
    ensures var r := l[..i] + l[i + 1..]; NoDup(r) && forall x :: x in r <==> x in l && x != l[i]
  {
    var r := l[..i] + l[i + 1..];
    forall x ensures x in r <==> x in l && x != l[i] {
      if x in l && x != l[i] {
        var j :| 0 <= j < |l| && l[j] == x;
        assert r[if j < i then j else j - 1] == x;
      }
    }
  }

  lemma CreateTableKeepsRc(s: State, e: Event)
    requires Inv(s) && Enabled(s, e) && e.CreateTable?
    ensures RcInv(Apply(s, e))
  {
    var t := Apply(s, e);
    forall n: Node
      ensures (n in t.rc <==> Refs(t, n) > 0) && (n in t.rc ==> t.rc[n] == Refs(t, n))
    {
      EmptySlotsCountNothing(s, e.ns, e.count, n);
      var before := Refs(s, n);
    }
  }

  lemma EmptySlotsCountNothing(s: State, ns: Ns, count: nat, n: Node)
    requires forall pid :: (ns, pid) !in s.parts
    ensures var t := s.(parts := s.parts + EmptySlots(ns, count));
            Masters(t, n) == Masters(s, n) && Proles(t, n) == Proles(s, n)
  {
  }

  lemma StepKeepsRc(s: State, e: Event)
    requires Inv(s) && Enabled(s, e)
    ensures RcInv(Apply(s, e))
  {
    match e
    case CreateTable(_, _) => CreateTableKeepsRc(s, e);
    case AddNode(_) => AddNodeKeepsRc(s, e);
    case Evict(i) => EvictKeepsRc(s, i);
    case CloseNode =>
      EvictKeepsRc(s, 0);
      ReferencedIsAllocated(Delist(s, 0), s.nodes[0]);
      ReleaseKeepsRc(Delist(s, 0), s.nodes[0]);
    case Update(_, _, _, _) =>
    case DropProle(_, k) => SlotAllocated(s, k);
    case CloseSlot(k) =>
      SlotAllocated(s, k);
      SlotAllocated(ClearMaster(s, k), k);
    case Lookup(k, write, dice) =>
      SlotAllocated(s, k);
      ReserveKeepsRc(s, Pick(s.parts[k], write, dice).value);
    case GetRandom(i) =>
      ReferencedIsAllocated(s, s.nodes[i]);
      ReserveKeepsRc(s, s.nodes[i]);
    case Put(n) =>
      ReferencedIsAllocated(s, n);
      ReleaseKeepsRc(s, n);
    case BeginReport(_, _) => NotesKeepRc(s, Apply(s, e));
    case Close => NotesKeepRc(s, Apply(s, e));
  }

  lemma UpdateKeepsTable(s: State, t: State, n: Node, k: Slot, isMaster: bool, isProle: bool)
    requires TableInv(s) && !s.closed && k in s.parts && n in s.nodes
    requires t == s.(parts := s.parts[k := SlotAfter(s.parts[k], n, isMaster, isProle)],
                     rc := t.rc,
                     gen := GenAfter(s.gen, s.parts[k], n, isMaster, isProle),
                     claims := s.claims[n := if isMaster then s.claims[n] + {k} else s.claims[n] - {k}])
    ensures TableInv(t)
  {
    forall j | j in t.parts ensures SlotOk(t, j)
    {
      assert SlotOk(s, j);
    }
    forall x | x in t.nodes ensures NodeOk(t, x)
    {
      assert NodeOk(s, x);
      forall j | j in t.claims[x] ensures ClaimOk(t, x, j)
      {
        if j in s.claims[x] { assert ClaimOk(s, x, j); }
      }
    }
  }

  lemma BeginReportKeepsTable(s: State, t: State, n: Node)
    requires TableInv(s) && n in s.nodes
    requires t == s.(claims := s.claims[n := {}], gen := t.gen)
    requires s.gen.Keys <= t.gen.Keys && forall x :: x in s.gen && x != n ==> t.gen[x] == s.gen[x]
    ensures TableInv(t)
  {
    forall k | k in t.parts ensures SlotOk(t, k)
    {
      if k in s.parts { assert SlotOk(s, k); }
    }
    if !t.closed {
      forall x | x in t.nodes ensures NodeOk(t, x)
      {
        if x in s.nodes { assert NodeOk(s, x); }
        forall c | c in t.claims[x] ensures ClaimOk(t, x, c)
        {
          if c in s.claims[x] { assert ClaimOk(s, x, c); }
        }
      }
    }
  }

  lemma AddNodeKeepsTable(s: State, t: State, n: Node)
    requires TableInv(s) && !s.closed && n !in s.nodes
    requires t == s.(nodes := s.nodes + [n], rc := t.rc, gen := s.gen[n := Forced], claims := s.claims[n := {}])
    ensures TableInv(t)
  {
    forall k | k in t.parts ensures SlotOk(t, k)
    {
      if k in s.parts { assert SlotOk(s, k); }
    }
    if !t.closed {
      forall x | x in t.nodes ensures NodeOk(t, x)
      {
        if x in s.nodes { assert NodeOk(s, x); }
        forall c | c in t.claims[x] ensures ClaimOk(t, x, c)
        {
          if c in s.claims[x] { assert ClaimOk(s, x, c); }
        }
      }
    }
  }

  lemma EvictKeepsTable(s: State, t: State, i: nat)
    requires RcInv(s) && TableInv(s) && i < |s.nodes|
    requires t == s.(nodes := s.nodes[..i] + s.nodes[i + 1..], rc := t.rc, holds := t.holds)
    requires forall k :: k in s.parts ==> s.parts[k].master != Some(s.nodes[i]) && s.parts[k].prole != Some(s.nodes[i])
    ensures TableInv(t)
  {
    Delisted(s.nodes, i);
    forall k | k in t.parts ensures SlotOk(t, k)
    {
      if k in s.parts { assert SlotOk(s, k); }
    }
    if !t.closed {
      forall x | x in t.nodes ensures NodeOk(t, x)
      {
        if x in s.nodes { assert NodeOk(s, x); }
        forall c | c in t.claims[x] ensures ClaimOk(t, x, c)
        {
          if c in s.claims[x] { assert ClaimOk(s, x, c); }
        }
      }
    }
  }

  lemma CreateTableKeepsTable(s: State, t: State, ns: Ns, count: nat)
    requires TableInv(s) && t == s.(parts := s.parts + EmptySlots(ns, count))
    requires forall pid :: (ns, pid) !in s.parts
    ensures TableInv(t)
  {
    forall k | k in t.parts ensures SlotOk(t, k)
    {
      if k in s.parts { assert SlotOk(s, k); }
    }
    if !t.closed {
      forall n | n in t.nodes ensures NodeOk(t, n)
      {
        if n in s.nodes { assert NodeOk(s, n); }
        forall c | c in t.claims[n] ensures ClaimOk(t, n, c)
        {
          if c in s.claims[n] { assert ClaimOk(s, n, c); }
        }
      }
    }
  }

  lemma HoldKeepsTable(s: State, t: State)
    requires TableInv(s) && t == s.(rc := t.rc, holds := t.holds)
    ensures TableInv(t)
  {
    forall k | k in t.parts ensures SlotOk(t, k)
    {
      if k in s.parts { assert SlotOk(s, k); }
    }
    if !t.closed {
      forall n | n in t.nodes ensures NodeOk(t, n)
      {
        if n in s.nodes { assert NodeOk(s, n); }
        forall c | c in t.claims[n] ensures ClaimOk(t, n, c)
        {
          if c in s.claims[n] { assert ClaimOk(s, n, c); }
        }
      }
    }
  }

  lemma DropKeepsTable(s: State, t: State, k: Slot)
    requires TableInv(s) && k in s.parts && k in t.parts
    requires t == s.(parts := s.parts[k := t.parts[k]], rc := t.rc)
    requires t.parts[k] == s.parts[k].(prole := None) || (s.closed && t.parts[k] == Part(None, None))
    ensures TableInv(t)
  {
    forall j | j in t.parts ensures SlotOk(t, j)
    {
      if j in s.parts { assert SlotOk(s, j); }
    }
    if !t.closed {
      forall n | n in t.nodes ensures NodeOk(t, n)
      {
        if n in s.nodes { assert NodeOk(s, n); }
        forall c | c in t.claims[n] ensures ClaimOk(t, n, c)
        {
          if c in s.claims[n] { assert ClaimOk(s, n, c); }
        }
      }
    }
  }

  lemma UpdateStepKeepsTable(s: State, n: Node, k: Slot, isMaster: bool, isProle: bool)
    requires Inv(s) && Enabled(s, Update(n, k, isMaster, isProle))
    ensures TableInv(UpdateSlot(s, n, k, isMaster, isProle))
  {
    UpdateKeepsTable(s, UpdateSlot(s, n, k, isMaster, isProle), n, k, isMaster, isProle);
  }

  lemma DropStepKeepsTable(s: State, e: Event)
    requires Inv(s) && Enabled(s, e) && (e.DropProle? || e.CloseSlot?)
    ensures TableInv(Apply(s, e))
  {
    SlotAllocated(s, e.k);
    DropKeepsTable(s, Apply(s, e), e.k);
  }

  lemma NodeStepKeepsTable(s: State, e: Event)
    requires Inv(s) && Enabled(s, e) && (e.AddNode? || e.Evict? || e.BeginReport?)
    ensures TableInv(Apply(s, e))
  {
    ReferencedIsAllocated(s, if e.Evict? then s.nodes[e.i] else e.n);
    match e
    case AddNode(n) => AddNodeKeepsTable(s, Apply(s, e), n);
    case Evict(i) => EvictKeepsTable(s, Apply(s, e), i);
    case BeginReport(n, _) => BeginReportKeepsTable(s, Apply(s, e), n);
  }

  lemma StepKeepsTable(s: State, e: Event)
    requires Inv(s) && Enabled(s, e)
    ensures TableInv(Apply(s, e))
  {
    match e
    case Update(n, k, isMaster, isProle) => UpdateStepKeepsTable(s, n, k, isMaster, isProle);
    case DropProle(_, k) => DropStepKeepsTable(s, e);
    case CloseSlot(k) => DropStepKeepsTable(s, e);
    case AddNode(_) => NodeStepKeepsTable(s, e);
    case Evict(_) => NodeStepKeepsTable(s, e);
    case BeginReport(_, _) => NodeStepKeepsTable(s, e);
    case CreateTable(ns, count) => CreateTableKeepsTable(s, Apply(s, e), ns, count);
    case Close =>
    case CloseNode =>
    case _ => HoldKeepsTable(s, Apply(s, e));
  }

  /** Every atomic step, of the tender or of any other thread, keeps the counts and
      the table consistent. */
  lemma StepKeeps(s: State, e: Event)
    requires Inv(s) && Enabled(s, e)
    ensures Inv(Apply(s, e))
  {
    StepKeepsRc(s, e);
    StepKeepsTable(s, e);
  }

  // ---------------------------------------------------------------------------
  // Whole runs, any interleaving of atomic steps
  // ---------------------------------------------------------------------------

  const Init: State := State([], map[], map[], map[], multiset{}, map[], false)

  ghost predicate Next(s: State, e: Event, t: State)
  {
    Inv(s) ==> Enabled(s, e) && t == Apply(s, e)
  }

  /** A step in a state without the invariant (say, a reservation on a freed node)
      would be undefined behaviour: anything may follow it.  The theorems below show
      that no run gets there. */
  ghost predicate IsRun(run: seq<State>, events: seq<Event>)
  {
    && |run| == |events| + 1
    && run[0] == Init
    && forall i :: 0 <= i < |events| ==> Next(run[i], events[i], run[i + 1])
  }

  lemma InitInv()
    ensures Inv(Init)
  {
    forall n: Node ensures Refs(Init, n) == 0 {
      assert Masters(Init, n) == {} && Proles(Init, n) == {};
    }
  }

  /** In every reachable state the reference count of a node is its listing, its
      master slots, its prole slots and its outstanding holds, and the node is
      allocated exactly while that sum is positive. */
  lemma {:induction false} CountsAreExact(run: seq<State>, events: seq<Event>, i: nat, n: Node)
    requires IsRun(run, events) && i < |run|
    ensures Inv(run[i])
    ensures n in run[i].rc <==> Refs(run[i], n) > 0
    ensures n in run[i].rc ==> run[i].rc[n] == Refs(run[i], n)
  {
    if i == 0 {
      InitInv();
    } else {
      CountsAreExact(run, events, i - 1, n);
      assert Next(run[i - 1], events[i - 1], run[i]);
      StepKeeps(run[i - 1], events[i - 1]);
    }
    var refs := Refs(run[i], n);
  }

  /** The states of runs. */
  ghost predicate Reachable(s: State)
  {
    exists run, events :: IsRun(run, events) && run[|events|] == s
  }

  lemma ReachableInv(s: State)
    requires Reachable(s)
    ensures Inv(s)
  {
    var run, events :| IsRun(run, events) && run[|events|] == s;
    CountsAreExact(run, events, |events|, 0);
  }

  lemma InitReachable()
    ensures Reachable(Init)
  {
    var none: seq<Event> := [];
    assert IsRun([Init], none) && [Init][|none|] == Init;
  }

  lemma ReachableStep(s: State, e: Event)
    requires Reachable(s) && Inv(s) && Enabled(s, e)
    ensures Reachable(Apply(s, e))
  {
    var run, events :| IsRun(run, events) && run[|events|] == s;
    var t := Apply(s, e);
    var run', events' := run + [t], events + [e];
    assert Next(s, e, t);
    forall i | 0 <= i < |events'|
      ensures Next(run'[i], events'[i], run'[i + 1])
    {
      if i < |events| {
        assert Next(run[i], events[i], run[i + 1]);
      }
    }
    assert IsRun(run', events') && run'[|events'|] == t;
  }

  /** Until the cluster is closed: each claim of a last report is in the table or its
      node is due for a refetch, so two nodes claiming one partition never both keep
      a normal generation; and slots name listed nodes only, each in one role. */
  lemma LastReportsAgree(run: seq<State>, events: seq<Event>, i: nat, m: Node, n: Node, k: Slot)
    requires IsRun(run, events) && i < |run| && !run[i].closed
    ensures n in run[i].nodes ==> n in run[i].claims && n in run[i].gen
    ensures n in run[i].nodes && k in run[i].claims[n] ==>
              k in run[i].parts && (run[i].parts[k].master == Some(n) || run[i].gen[n] == Forced)
    ensures m in run[i].nodes ==> m in run[i].claims && m in run[i].gen
    ensures m in run[i].nodes && n in run[i].nodes && m != n && k in run[i].claims[m] && k in run[i].claims[n] ==>
              run[i].gen[m] == Forced || run[i].gen[n] == Forced
    ensures k in run[i].parts ==>
              var p := run[i].parts[k];
              && (p.master.Some? ==> p.master.value in run[i].nodes && p.master.value in run[i].rc)
              && (p.master.Some? ==> p.master != p.prole)
              && (p.prole.Some? ==> p.prole.value in run[i].nodes && p.prole.value in run[i].rc)
  {
    CountsAreExact(run, events, i, n);
    CountsAreExact(run, events, i, m);
    if k in run[i].parts {
      SlotAllocated(run[i], k);
    }
  }

  /** Once closing has emptied list and table, exactly the nodes still held by some
      transaction are allocated. */
  lemma CloseFreesTheRest(run: seq<State>, events: seq<Event>, i: nat, n: Node)
    requires IsRun(run, events) && i < |run|
    requires run[i].closed && run[i].nodes == []
    requires forall k :: k in run[i].parts ==> run[i].parts[k] == Part(None, None)
    ensures n in run[i].rc <==> n in run[i].holds
    ensures n in run[i].rc ==> run[i].rc[n] == run[i].holds[n]
  {
    CountsAreExact(run, events, i, n);
    assert Masters(run[i], n) == {} && Proles(run[i], n) == {};
  }

  // ---------------------------------------------------------------------------
  // Which node a lookup reserves
  // ---------------------------------------------------------------------------

  /** The event is possible and its one effect is a new hold on `n`. */
  ghost predicate Reserves(s: State, e: Event, n: Node)
    requires Inv(s)
  {
    Enabled(s, e) && n in s.rc && Apply(s, e) == s.(rc := s.rc[n := s.rc[n] + 1], holds := s.holds + multiset{n})
  }

  /** A lookup for a write reserves the master of the slot, and is not served without one. */
  lemma WriteLookupReserves(s: State, k: Slot, dice: bool)
    requires Inv(s) && k in s.parts
    ensures s.parts[k].master.Some? ==> Reserves(s, Lookup(k, true, dice), s.parts[k].master.value)
    ensures s.parts[k].master.None? ==> !Enabled(s, Lookup(k, true, dice))
  {
    SlotAllocated(s, k);
  }

  /** A lookup for a read reserves the only party there is, or either of two as the dice
      falls. */
  lemma ReadLookupReserves(s: State, k: Slot, dice: bool)
    requires Inv(s) && k in s.parts
    ensures var p, e := s.parts[k], Lookup(k, false, dice);
            && (p.master.Some? && p.prole.None? ==> Reserves(s, e, p.master.value))
            && (p.master.None? && p.prole.Some? ==> Reserves(s, e, p.prole.value))
            && (p.master.Some? && p.prole.Some? ==> Reserves(s, e, if dice then p.master.value else p.prole.value))
            && (p.master.None? && p.prole.None? ==> !Enabled(s, e))
  {
    SlotAllocated(s, k);
  }

  /** A lookup that falls back on the list reserves a listed node, each being possible. */
  lemma RandomReserves(s: State, i: nat)
    requires Inv(s)
    ensures Enabled(s, GetRandom(i)) <==> i < |s.nodes|
    ensures i < |s.nodes| ==> Reserves(s, GetRandom(i), s.nodes[i])
  {
    if i < |s.nodes| { ListedAllocated(s, s.nodes[i]); }
  }

  /** In every run a lookup for a write takes the master of the slot, never a node that is
      only its prole. */
  lemma WritesGoToTheMaster(run: seq<State>, events: seq<Event>, i: nat, k: Slot, dice: bool)
    requires IsRun(run, events) && i < |events| && events[i] == Lookup(k, true, dice)
    ensures k in run[i].parts && run[i].parts[k].master.Some?
    ensures run[i + 1].holds == run[i].holds + multiset{run[i].parts[k].master.value}
    ensures run[i].parts[k].prole != run[i].parts[k].master
  {
    CountsAreExact(run, events, i, 0);
    assert Next(run[i], events[i], run[i + 1]);
    WriteLookupReserves(run[i], k, dice);
    assert SlotOk(run[i], k);
  }

  // ---------------------------------------------------------------------------
  // What one call's lookups may answer
  // ---------------------------------------------------------------------------

  /** `cl_cluster_node_get`: a node of the slot, else any listed node, else none. */
  ghost predicate Answers(s: State, answer: Option<Node>)
  {
    match answer
    case Some(n) =>
      || (exists k, write, dice :: Enabled(s, Lookup(k, write, dice)) && Pick(s.parts[k], write, dice) == Some(n))
      || (exists i: nat :: Enabled(s, GetRandom(i)) && s.nodes[i] == n)
    case None =>
      && (forall k, write, dice :: !Enabled(s, Lookup(k, write, dice)))
      && (forall i: nat :: !Enabled(s, GetRandom(i)))
  }

  /** A node is found, held, and evicted by the tender. */
  const LastNodeLeaves: seq<Event> := [AddNode(0), GetRandom(0), Evict(0)]

  lemma NextHolds(s: State, e: Event)
    requires Inv(s) && Enabled(s, e)
    ensures Next(s, e, Apply(s, e)) && Inv(Apply(s, e))
  {
    StepKeeps(s, e);
  }

  ghost predicate OnlyNode(s: State, n: Node)
  {
    forall yes | Asked(yes) :: Inv(s) && s.nodes == [n] && s.parts == map[] && !s.closed
  }

  lemma OneNode() returns (s: State)
    ensures Next(Init, AddNode(0), s) && OnlyNode(s, 0) && s.holds == multiset{}
  {
    InitInv();
    NextHolds(Init, AddNode(0));
    s := Apply(Init, AddNode(0));
  }

  lemma OneNodeLookup(s: State) returns (t: State)
    requires OnlyNode(s, 0) && s.holds == multiset{}
    ensures Answers(s, Some(0)) && Next(s, GetRandom(0), t) && OnlyNode(t, 0) && t.holds[0] == 1
  {
    assert Asked(true);
    assert Enabled(s, GetRandom(0));
    NextHolds(s, GetRandom(0));
    t := Apply(s, GetRandom(0));
  }

  lemma OneNodeLeaves(s: State) returns (t: State)
    requires OnlyNode(s, 0)
    ensures Next(s, Evict(0), t) && Answers(t, None)
  {
    assert Asked(true);
    NextHolds(s, Evict(0));
    t := Apply(s, Evict(0));
  }

  /** The run finds a node, holds it, and then finds none. */
  ghost predicate FindsThenNone(run: seq<State>, n: Node)
  {
    IsRun(run, LastNodeLeaves) && Answers(run[1], Some(n)) && run[2].holds[n] == 1 && Answers(run[3], None)
  }

  lemma ThreeSteps(s: State, t: State, u: State)
    requires Next(Init, LastNodeLeaves[0], s) && Next(s, LastNodeLeaves[1], t) && Next(t, LastNodeLeaves[2], u)
    ensures IsRun([Init, s, t, u], LastNodeLeaves)
  {
  }

  /** Two lookups of one call may find a node and then none, nothing but the tender's
      eviction coming between them. */
  lemma AnswerThenNone()
    ensures exists run :: FindsThenNone(run, 0)
  {
    var s1 := OneNode();
    var s2 := OneNodeLookup(s1);
    var s3 := OneNodeLeaves(s2);
    ThreeSteps(s1, s2, s3);
    assert FindsThenNone([Init, s1, s2, s3], 0);
  }

  // ---------------------------------------------------------------------------
  // At most one tender
  // ---------------------------------------------------------------------------

  type Thread = nat

  /** The state word of a cluster and who is inside `cluster_tend`. */
  datatype Gate = Gate(running: bool, freed: bool, tending: set<Thread>)

  datatype GateEvent = Enter(t: Thread) | Leave(t: Thread) | TryFree

  /** `cluster_tend` turns back unless neither bit is set; destroy waits while a tender
      runs. */
  function GateStep(g: Gate, e: GateEvent): Gate
  {
    match e
    case Enter(t) =>
      if g.freed || g.running || t in g.tending then g else Gate(true, g.freed, g.tending + {t})
    case Leave(t) =>
      if t in g.tending then Gate(false, g.freed, g.tending - {t}) else g
    case TryFree =>
      if g.running then g else g.(freed := true)
  }

  function GateRun(es: seq<GateEvent>): Gate
  {
    if es == [] then Gate(false, false, {})
    else GateStep(GateRun(es[..|es| - 1]), es[|es| - 1])
  }

  /** Whatever the threads attempt, at most one of them tends, the running bit says
      so, and after FREED nobody tends or ever starts to. */
  lemma {:induction false} OneTender(es: seq<GateEvent>, n: nat)
    requires n <= |es|
    ensures |GateRun(es).tending| <= 1
    ensures GateRun(es).running <==> GateRun(es).tending != {}
    ensures GateRun(es[..n]).freed ==> GateRun(es).freed && GateRun(es).tending == {}
    decreases |es|
  {
    if es != [] {
      var front := es[..|es| - 1];
      OneTender(front, if n < |es| then n else |front|);
      if n < |es| {
        assert front[..n] == es[..n];
      } else {
        assert es[..n] == es && front[..|front|] == front;
      }
      if es[|es| - 1].Leave? && es[|es| - 1].t in GateRun(front).tending {
        assert GateRun(front).tending - {es[|es| - 1].t} == {} by {
          OnlyOne(GateRun(front).tending, es[|es| - 1].t);
        }
      }
    }
  }

  /** The gate turns nobody away without need: a thread gets in exactly if nobody tends
      and the cluster is not freed, leaving takes it out, and freeing waits only for it. */
  lemma GateOpens(es: seq<GateEvent>, t: Thread)
    ensures var g := GateRun(es);
            && GateRun(es + [Enter(t)]).tending == (if g.tending == {} && !g.freed then {t} else g.tending)
            && GateRun(es + [Leave(t)]).tending == g.tending - {t}
            && (GateRun(es + [TryFree]).freed <==> g.freed || g.tending == {})
  {
    OneTender(es, |es|);
    forall e: GateEvent ensures GateRun(es + [e]) == GateStep(GateRun(es), e)
    {
      assert (es + [e])[..|es|] == es;
    }
    assert es[..|es|] == es;
  }

  lemma OnlyOne(ts: set<Thread>, t: Thread)
    requires |ts| <= 1 && t in ts
    ensures ts == {t}
  {
    assert |ts - {t}| == |ts| - 1;
  }
}
