/**
 The tender: the loops of src/cl_partition.c and src/cl_cluster.c that read and
 rebuild the partition tables and drop nodes that left the cluster.  Transaction
 threads look nodes up and put them back between any two locked steps of these
 loops; `OtherThreads` stands for them.
 */
module Tender {
  import opened Common
  import opened Cluster

  /** One namespace of a parsed replicas report. */
  datatype NsMap = NsMap(ns: Ns, masters: seq<bool>, proles: seq<bool>)

  datatype Report = Report(newGen: Option<nat>, maps: seq<NsMap>)

  /** What a ping of a node yields: nothing, a reply under another name, or a
      generation and, where it asks for it, a report. */
  datatype PingReply = Unreachable | OtherName | Checked(gen: nat, fetched: Option<Report>)

  /** The partitions a report claims as master. */
  ghost function Claimed(maps: seq<NsMap>): set<Slot>
  {
    if maps == [] then {}
    else Claimed(maps[..|maps| - 1]) + ClaimedIn(maps[|maps| - 1].ns, maps[|maps| - 1].masters)
  }

  ghost function ClaimedIn(ns: Ns, masters: seq<bool>): set<Slot>
  {
    set pid | 0 <= pid < |masters| && masters[pid] :: (ns, pid)
  }

  /** Only reference counts and holds differ. */
  ghost predicate SameTable(s: State, t: State)
  {
    t == s.(rc := t.rc, holds := t.holds)
  }

  /** Only counts and holds differ, and `n` lost some of its prole slots. */
  ghost predicate Struck(s: State, t: State, n: Node)
  {
    && t == s.(rc := t.rc, holds := t.holds, parts := t.parts)
    && t.parts.Keys == s.parts.Keys
    && forall k :: k in t.parts ==>
         t.parts[k] == s.parts[k] || (s.parts[k].prole == Some(n) && t.parts[k] == s.parts[k].(prole := None))
  }

  ghost predicate Emptied(s: State, ns: Ns, upTo: nat)
  {
    forall k: Slot :: k in s.parts && k.0 == ns && k.1 < upTo ==> s.parts[k] == Part(None, None)
  }

  ghost predicate EmptiedTables(s: State, tables: seq<Ns>, nParts: nat)
  {
    forall j :: 0 <= j < |tables| ==> Emptied(s, tables[j], nParts)
  }

  lemma EmptiedStep(s: State, t: State, tables: seq<Ns>, nParts: nat, i: nat)
    requires i < |tables| && EmptiedTables(s, tables[..i], nParts) && Emptied(t, tables[i], nParts)
    requires t.parts.Keys == s.parts.Keys && forall k :: k in t.parts ==>
               t.parts[k] == s.parts[k] || t.parts[k] == Part(None, None)
    ensures EmptiedTables(t, tables[..i + 1], nParts)
  {
    forall j | 0 <= j < i ensures Emptied(t, tables[j], nParts)
    {
      assert Emptied(s, tables[..i][j], nParts);
    }
  }

  lemma AllEmptied(s: State, tables: seq<Ns>, nParts: nat)
    requires EmptiedTables(s, tables, nParts)
    requires forall k :: k in s.parts ==> k.0 in tables && k.1 < nParts
    ensures forall k :: k in s.parts ==> s.parts[k] == Part(None, None)
  {
    forall k | k in s.parts ensures s.parts[k] == Part(None, None)
    {
      var j :| 0 <= j < |tables| && tables[j] == k.0;
      assert Emptied(s, tables[j], nParts);
    }
  }

  lemma OnlyHolds(s: State)
    requires Reachable(s) && s.nodes == [] && forall k :: k in s.parts ==> s.parts[k] == Part(None, None)
    ensures forall n :: (n in s.rc <==> n in s.holds) && (n in s.rc ==> s.rc[n] == s.holds[n])
  {
    ReachableInv(s);
    forall n ensures (n in s.rc <==> n in s.holds) && (n in s.rc ==> s.rc[n] == s.holds[n])
    {
      assert Masters(s, n) == {} && Proles(s, n) == {};
      assert Refs(s, n) == s.holds[n];
    }
  }

  /** The nodes of `l` not in `left`, in order. */
  ghost function Keep(l: seq<Node>, left: set<Node>): seq<Node>
  {
    if l == [] then []
    else Keep(l[..|l| - 1], left) + (if l[|l| - 1] in left then [] else [l[|l| - 1]])
  }

  lemma {:induction false} KeepIgnores(l: seq<Node>, left: set<Node>, n: Node)
    requires n !in l
    ensures Keep(l, left + {n}) == Keep(l, left)
  {
    if l != [] {
      KeepIgnores(l[..|l| - 1], left, n);
    }
  }

  lemma {:induction false} KeepIsShorter(l: seq<Node>, left: set<Node>)
    ensures |Keep(l, left)| <= |l|
  {
    if l != [] { KeepIsShorter(l[..|l| - 1], left); }
  }

  lemma {:induction false} KeepHas(l: seq<Node>, left: set<Node>, n: Node)
    ensures n in Keep(l, left) <==> n in l && n !in left
  {
    if l != [] { KeepHas(l[..|l| - 1], left, n); }
  }

  /** The loop has passed over `visited`, dropped `left` and stands at index `i`. */
  ghost predicate Passed(all: seq<Node>, visited: seq<Node>, nodes: seq<Node>, left: set<Node>, i: nat)
  {
    && NoDup(all)
    && visited <= all
    && nodes == Keep(visited, left) + all[|visited|..]
    && i == |Keep(visited, left)|
    && forall n :: n in left ==> n in visited
  }

  lemma PassedAt(all: seq<Node>, visited: seq<Node>, nodes: seq<Node>, left: set<Node>, i: nat)
    requires Passed(all, visited, nodes, left, i) && i < |nodes|
    ensures |visited| < |all| && nodes[i] == all[|visited|] && nodes[i] !in visited && nodes[i] !in left
    ensures all[|visited|..] == [nodes[i]] + all[|visited| + 1..]
  {
    assert nodes[i] == all[|visited|..][0];
  }

  lemma KeepGrows(visited: seq<Node>, left: set<Node>, n: Node, gone: bool)
    requires n !in visited && n !in left
    ensures Keep(visited + [n], if gone then left + {n} else left) == Keep(visited, left) + if gone then [] else [n]
  {
    assert (visited + [n])[..|visited|] == visited;
    KeepIgnores(visited, left, n);
  }

  lemma PassedStep(all: seq<Node>, visited: seq<Node>, nodes: seq<Node>, nodes': seq<Node>, left: set<Node>, i: nat,
                   gone: bool)
    requires Passed(all, visited, nodes, left, i) && i < |nodes|
    requires nodes' == if gone then nodes[..i] + nodes[i + 1..] else nodes
    ensures |visited| < |all| && nodes[i] == all[|visited|] && nodes[i] !in visited && nodes[i] !in left
    ensures Passed(all, visited + [nodes[i]], nodes', if gone then left + {nodes[i]} else left,
                   if gone then i else i + 1)
  {
    PassedAt(all, visited, nodes, left, i);
    KeepGrows(visited, left, nodes[i], gone);
    var kept, rest := Keep(visited, left), all[|visited| + 1..];
    assert nodes == kept + ([nodes[i]] + rest);
    assert nodes[..i] == kept && nodes[i + 1..] == rest;
    assert nodes == kept + [nodes[i]] + rest;
  }

  /** The last two checks of `n` both found it master of nothing. */
  ghost predicate TwiceAbsent(seen: map<Node, seq<bool>>, n: Node)
  {
    n in seen && |seen[n]| >= 2 && !seen[n][|seen[n]| - 1] && !seen[n][|seen[n]| - 2]
  }

  // A check of `n` that finds it master somewhere or nowhere.

  function AbsentAfter(absent: map<Node, nat>, n: Node, present: bool): map<Node, nat>
    requires n in absent
  {
    absent[n := if absent[n] == 0 || present then 1 else absent[n] + 1]
  }

  /** A new node is not looked up at its first check. */
  ghost function SeenAfter(absent: map<Node, nat>, seen: map<Node, seq<bool>>, n: Node, present: bool)
    : map<Node, seq<bool>>
    requires n in absent && n in seen
  {
    if absent[n] == 0 then seen else seen[n := seen[n] + [present]]
  }

  function Leaves(absent: map<Node, nat>, n: Node, present: bool): bool
    requires n in absent
  {
    absent[n] > MaxIntervalsAbsent && !present
  }

  /** How many of the last checks in a row failed. */
  ghost function Failures(checks: seq<bool>): (n: nat)
  {
    if checks == [] || checks[|checks| - 1] then 0 else 1 + Failures(checks[..|checks| - 1])
  }

  /** A node's counter is 0 until its first pass, and then 1 more than the checks that
      failed in a row. */
  ghost predicate CountsChecks(absent: map<Node, nat>, seen: map<Node, seq<bool>>, n: Node)
  {
    && n in absent && n in seen
    && if absent[n] == 0 then seen[n] == [] else absent[n] == 1 + Failures(seen[n])
  }

  lemma CheckCounts(absent: map<Node, nat>, seen: map<Node, seq<bool>>, n: Node, present: bool, x: Node)
    requires CountsChecks(absent, seen, n) && CountsChecks(absent, seen, x)
    ensures CountsChecks(AbsentAfter(absent, n, present), SeenAfter(absent, seen, n, present), x)
    ensures Leaves(absent, n, present) <==> TwiceAbsent(SeenAfter(absent, seen, n, present), n)
  {
    var checks := seen[n];
    assert (checks + [present])[..|checks|] == checks;
  }

  /** The pass that started with `absent0` and `seen0` decided about `n`: it checked it,
      unless this was its first pass, and `n` leaves exactly if that check and the one
      before both failed. */
  ghost predicate Decided(absent0: map<Node, nat>, seen0: map<Node, seq<bool>>, absent: map<Node, nat>,
                          seen: map<Node, seq<bool>>, left: set<Node>, n: Node)
  {
    && n in absent0 && n in seen0 && n in absent && n in seen && absent[n] > 0
    && (n in left <==> TwiceAbsent(seen, n))
    && (absent0[n] == 0 ==> seen[n] == seen0[n] == [])
    && (absent0[n] > 0 ==> |seen[n]| == |seen0[n]| + 1 && seen0[n] <= seen[n])
  }

  ghost predicate Unreached(absent0: map<Node, nat>, seen0: map<Node, seq<bool>>, absent: map<Node, nat>,
                            seen: map<Node, seq<bool>>, n: Node)
  {
    && n in absent0 && n in absent && absent[n] == absent0[n]
    && n in seen0 && n in seen && seen[n] == seen0[n]
  }

  ghost predicate SameChecks(before: map<Node, seq<bool>>, after: map<Node, seq<bool>>, n: Node)
  {
    n in before ==> n in after && after[n] == before[n]
  }

  /** The decisions made about `visited`; those about the rest of `all` are to come. */
  ghost predicate DecidedFor(all: seq<Node>, visited: seq<Node>, left: set<Node>, absent0: map<Node, nat>,
                             seen0: map<Node, seq<bool>>, absent: map<Node, nat>, seen: map<Node, seq<bool>>)
  {
    && |visited| <= |all|
    && (forall n :: n in visited ==> Decided(absent0, seen0, absent, seen, left, n))
    && (forall n :: n in all[|visited|..] ==> Unreached(absent0, seen0, absent, seen, n))
  }

  lemma DecidedStep(all: seq<Node>, visited: seq<Node>, left: set<Node>, absent0: map<Node, nat>,
                    seen0: map<Node, seq<bool>>, absent: map<Node, nat>, seen: map<Node, seq<bool>>, present: bool)
    requires NoDup(all) && visited < all && all[|visited|] !in left
    requires DecidedFor(all, visited, left, absent0, seen0, absent, seen)
    requires CountsChecks(absent, seen, all[|visited|])
    ensures var n := all[|visited|];
            DecidedFor(all, visited + [n], if Leaves(absent, n, present) then left + {n} else left, absent0, seen0,
                       AbsentAfter(absent, n, present), SeenAfter(absent, seen, n, present))
  {
    var n := all[|visited|];
    var absent', seen' := AbsentAfter(absent, n, present), SeenAfter(absent, seen, n, present);
    var left' := if Leaves(absent, n, present) then left + {n} else left;
    assert n in all[|visited|..];
    assert Unreached(absent0, seen0, absent, seen, n);
    assert n !in visited;
    CheckCounts(absent, seen, n, present, n);
    forall x | x in visited + [n] ensures Decided(absent0, seen0, absent', seen', left', x)
    {
      if x != n { assert Decided(absent0, seen0, absent, seen, left, x); }
    }
    forall x | x in all[|visited| + 1..] ensures Unreached(absent0, seen0, absent', seen', x)
    {
      assert x in all[|visited|..] && Unreached(absent0, seen0, absent, seen, x);
    }
  }

  /** No check after the first `from` failed right after a failed one. */
  ghost predicate NeverTwice(checks: seq<bool>, from: nat)
  {
    forall j :: from <= j < |checks| && j > 0 ==> checks[j] || checks[j - 1]
  }

  /** What some passes came to for `n`. */
  ghost predicate Lasts(absent0: map<Node, nat>, seen0: map<Node, seq<bool>>, absent: map<Node, nat>,
                        seen: map<Node, seq<bool>>, nodes: seq<Node>, passes: nat, n: Node)
  {
    && n in absent0 && n in seen0 && n in seen && seen0[n] <= seen[n]
    && (n in nodes <==> NeverTwice(seen[n], |seen0[n]|))
    && (n in nodes ==> |seen[n]| == |seen0[n]| + passes - if absent0[n] == 0 && passes > 0 then 1 else 0)
    && (n in nodes ==> n in absent && (absent[n] == 0 <==> absent0[n] == 0 && passes == 0))
  }

  lemma LastsOn(absent0: map<Node, nat>, seen0: map<Node, seq<bool>>, absent: map<Node, nat>,
                seen: map<Node, seq<bool>>, absent': map<Node, nat>, seen': map<Node, seq<bool>>, nodes: seq<Node>,
                nodes': seq<Node>, left: set<Node>, passes: nat, n: Node)
    requires Lasts(absent0, seen0, absent, seen, nodes, passes, n)
    requires n in nodes' <==> n in nodes && n !in left
    requires n in nodes ==> Decided(absent, seen, absent', seen', left, n)
    requires n !in nodes ==> SameChecks(seen, seen', n)
    ensures Lasts(absent0, seen0, absent', seen', nodes', passes + 1, n)
  {
    var from, was, now := |seen0[n]|, seen[n], seen'[n];
    if n in nodes {
      assert was <= now;
      assert NeverTwice(now, from) <==> NeverTwice(was, from) && !(|now| > |was| && TwiceAbsent(seen', n)) by {
        assert forall j :: 0 <= j < |was| ==> now[j] == was[j];
      }
      if absent[n] == 0 {
        assert now == was == [];
      }
    }
  }

  ghost predicate AllLast(all: seq<Node>, absent0: map<Node, nat>, seen0: map<Node, seq<bool>>, absent: map<Node, nat>,
                          seen: map<Node, seq<bool>>, nodes: seq<Node>, passes: nat)
  {
    && (forall n :: n in nodes ==> n in all)
    && (forall n :: n in all ==> Lasts(absent0, seen0, absent, seen, nodes, passes, n))
  }

  lemma AllLastOn(all: seq<Node>, absent0: map<Node, nat>, seen0: map<Node, seq<bool>>, absent: map<Node, nat>,
                  seen: map<Node, seq<bool>>, absent': map<Node, nat>, seen': map<Node, seq<bool>>, nodes: seq<Node>,
                  left: set<Node>, passes: nat)
    requires AllLast(all, absent0, seen0, absent, seen, nodes, passes)
    requires forall n :: n in nodes ==> Decided(absent, seen, absent', seen', left, n)
    requires forall n :: n !in nodes ==> SameChecks(seen, seen', n)
    ensures AllLast(all, absent0, seen0, absent', seen', Keep(nodes, left), passes + 1)
  {
    forall n | n in Keep(nodes, left) ensures n in all
    {
      KeepHas(nodes, left, n);
    }
    forall n | n in all ensures Lasts(absent0, seen0, absent', seen', Keep(nodes, left), passes + 1, n)
    {
      KeepHas(nodes, left, n);
      LastsOn(absent0, seen0, absent, seen, absent', seen', nodes, Keep(nodes, left), left, passes, n);
    }
  }

  // What a ping makes of the tables.

  /** Some namespace of the report flags the partition as one the node is master of. */
  ghost predicate Flagged(maps: seq<NsMap>, k: Slot)
  {
    exists i :: 0 <= i < |maps| && maps[i].ns == k.0 && k.1 < |maps[i].masters| && maps[i].masters[k.1]
  }

  lemma {:induction false} ClaimedIsFlagged(maps: seq<NsMap>, k: Slot)
    ensures k in Claimed(maps) <==> Flagged(maps, k)
  {
    if maps != [] {
      var front, last := maps[..|maps| - 1], maps[|maps| - 1];
      ClaimedIsFlagged(front, k);
      assert forall i :: 0 <= i < |front| ==> front[i] == maps[i];
      assert k in ClaimedIn(last.ns, last.masters) <==> last.ns == k.0 && k.1 < |last.masters| && last.masters[k.1];
    }
  }

  ghost predicate HasRole(p: Part, x: Node, asMaster: bool)
  {
    if asMaster then p.master == Some(x) else p.prole == Some(x)
  }

  ghost predicate LosesAt(s: State, t: State, x: Node, k: Slot, asMaster: bool)
  {
    HasRole(SlotOf(s, k), x, asMaster) && !HasRole(SlotOf(t, k), x, asMaster)
  }

  /** `x` has lost a role in some slot. */
  ghost predicate Loses(s: State, t: State, x: Node)
  {
    exists k, asMaster :: LosesAt(s, t, x, k, asMaster)
  }

  ghost predicate GainsAt(s: State, t: State, x: Node, k: Slot, asMaster: bool)
  {
    !HasRole(SlotOf(s, k), x, asMaster) && HasRole(SlotOf(t, k), x, asMaster)
  }

  ghost predicate GenFollows(s: State, t: State, x: Node)
    requires x in s.gen
  {
    x in t.gen && t.gen[x] == if Loses(s, t, x) then Forced else s.gen[x]
  }

  /** Only `n` gains roles; the others are due for a refetch exactly if they lost one. */
  ghost predicate GensFollow(s: State, t: State, n: Node)
  {
    && (forall k, x, asMaster :: GainsAt(s, t, x, k, asMaster) ==> x == n)
    && (forall x :: x in s.gen && x != n ==> GenFollows(s, t, x))
  }

  lemma GensFollowOn(s: State, t: State, u: State, n: Node)
    requires GensFollow(s, t, n) && GensFollow(t, u, n)
    ensures GensFollow(s, u, n)
  {
    forall k, x, asMaster | GainsAt(s, u, x, k, asMaster) ensures x == n
    {
      assert GainsAt(s, t, x, k, asMaster) || GainsAt(t, u, x, k, asMaster);
    }
    forall x | x in s.gen && x != n ensures GenFollows(s, u, x)
    {
      assert GenFollows(s, t, x) && GenFollows(t, u, x);
      LossesAddUp(s, t, u, n, x);
    }
  }

  lemma LossesAddUp(s: State, t: State, u: State, n: Node, x: Node)
    requires GensFollow(s, t, n) && GensFollow(t, u, n) && x != n
    ensures Loses(s, u, x) <==> Loses(s, t, x) || Loses(t, u, x)
  {
    if k, asMaster :| LosesAt(s, u, x, k, asMaster) {
      assert LosesAt(s, t, x, k, asMaster) || LosesAt(t, u, x, k, asMaster);
    }
    if k, asMaster :| LosesAt(s, t, x, k, asMaster) {
      assert !GainsAt(t, u, x, k, asMaster);
      assert LosesAt(s, u, x, k, asMaster);
    }
    if k, asMaster :| LosesAt(t, u, x, k, asMaster) {
      assert !GainsAt(s, t, x, k, asMaster);
      assert LosesAt(s, u, x, k, asMaster);
    }
  }

  /** The same tables and generations, but for roles that `n` lost. */
  lemma OnlyLosesFollow(s: State, t: State, n: Node)
    requires t.gen == s.gen
    requires forall k, x, asMaster :: HasRole(SlotOf(t, k), x, asMaster) ==> HasRole(SlotOf(s, k), x, asMaster)
    requires forall k, x, asMaster :: LosesAt(s, t, x, k, asMaster) ==> x == n
    ensures GensFollow(s, t, n)
  {
  }

  lemma SlotFollows(s: State, t: State, n: Node, k: Slot, isMaster: bool, isProle: bool)
    requires k in s.parts && SlotOk(s, k) && t.parts == s.parts[k := SlotAfter(s.parts[k], n, isMaster, isProle)]
    requires t.gen == GenAfter(s.gen, s.parts[k], n, isMaster, isProle)
    ensures GensFollow(s, t, n)
  {
    forall x | x in s.gen && x != n ensures GenFollows(s, t, x)
    {
      if HasRole(s.parts[k], x, true) && isMaster { assert LosesAt(s, t, x, k, true); }
      if HasRole(s.parts[k], x, false) && !isMaster && isProle { assert LosesAt(s, t, x, k, false); }
    }
  }

  ghost predicate RolesAt(s: State, t: State, n: Node, m: NsMap, pid: nat)
    requires pid < |m.masters| && pid < |m.proles|
  {
    (m.ns, pid) in t.parts
    && RolesAsReported(SlotOf(s, (m.ns, pid)), SlotOf(t, (m.ns, pid)), n, m.masters[pid], m.proles[pid])
  }

  /** In every slot of the report `n` has the role it claims. */
  ghost predicate RolesTaken(s: State, t: State, n: Node, maps: seq<NsMap>)
  {
    forall i, pid: nat :: 0 <= i < |maps| && pid < |maps[i].masters| && pid < |maps[i].proles| ==>
      RolesAt(s, t, n, maps[i], pid)
  }

  /** The slot is as it was, except that `n` may have lost its prole role. */
  ghost predicate SameOrStruck(s: State, t: State, n: Node, k: Slot)
  {
    && (k in s.parts <==> k in t.parts)
    && SlotOf(t, k).master == SlotOf(s, k).master
    && (SlotOf(t, k).prole == SlotOf(s, k).prole || (SlotOf(s, k).prole == Some(n) && SlotOf(t, k).prole == None))
  }

  /** The report says nothing about the namespace. */
  ghost predicate Unnamed(maps: seq<NsMap>, ns: Ns)
  {
    forall i :: 0 <= i < |maps| ==> maps[i].ns != ns
  }

  ghost predicate Elsewhere(s: State, t: State, n: Node, maps: seq<NsMap>)
  {
    forall k: Slot :: Unnamed(maps, k.0) ==> SameOrStruck(s, t, n, k)
  }

  /** A report is taken over: the claims of `n` are its flags, its generation is the
      report's if there is one, `n` has the roles it claims, and whoever it displaced, and
      nobody else, is due for a refetch. */
  ghost predicate TakenOver(s: State, t: State, n: Node, r: Report)
  {
    && t.nodes == s.nodes && n in s.gen && n in t.gen && n in t.claims
    && (forall k :: k in t.claims[n] <==> Flagged(r.maps, k))
    && t.claims == s.claims[n := t.claims[n]]
    && t.gen[n] == (if r.newGen.Some? then r.newGen.value else s.gen[n])
    && RolesTaken(s, t, n, r.maps) && Elsewhere(s, t, n, r.maps)
    && GensFollow(s, t, n)
  }

  lemma StruckFollows(s: State, t: State, n: Node)
    requires Struck(s, t, n)
    ensures GensFollow(s, t, n)
  {
    OnlyLosesFollow(s, t, n);
  }

  lemma StruckRoles(s: State, t: State, u: State, n: Node, maps: seq<NsMap>)
    requires Struck(s, t, n) && RolesTaken(t, u, n, maps) && Elsewhere(t, u, n, maps)
    ensures RolesTaken(s, u, n, maps) && Elsewhere(s, u, n, maps)
  {
    forall i, pid: nat | 0 <= i < |maps| && pid < |maps[i].masters| && pid < |maps[i].proles|
      ensures RolesAt(s, u, n, maps[i], pid)
    {
      assert RolesAt(t, u, n, maps[i], pid);
    }
    forall k: Slot | Unnamed(maps, k.0) ensures SameOrStruck(s, u, n, k)
    {
      assert SameOrStruck(t, u, n, k);
    }
  }

  lemma StruckThenTaken(s: State, t: State, u: State, n: Node, r: Report)
    requires Struck(s, t, n) && TakenOver(t, u, n, r)
    ensures TakenOver(s, u, n, r)
  {
    StruckRoles(s, t, u, n, r.maps);
    StruckFollows(s, t, n);
    GensFollowOn(s, t, u, n);
  }

  /** A report that is fetched whether or not the node was displaced meanwhile. */
  predicate IsFresh(reply: PingReply, gen: nat)
  {
    reply.Checked? && reply.fetched.Some? && reply.gen != gen && reply.gen != Forced
  }

  /** The claims of `n` are those it reported, if it reported under a new generation, and
      those it had if it sent no report. */
  ghost predicate Refreshed(net: Node -> PingReply, s: State, t: State, n: Node)
  {
    && n in s.gen && n in s.claims && n in t.claims
    && (IsFresh(net(n), s.gen[n]) ==> forall k :: k in t.claims[n] <==> Flagged(net(n).fetched.value.maps, k))
    && (!net(n).Checked? || net(n).fetched.None? ==> t.claims[n] == s.claims[n])
  }

  ghost predicate Unpinged(s: State, t: State, n: Node)
  {
    && n in s.claims && n in t.claims && t.claims[n] == s.claims[n]
    && n in s.gen && n in t.gen && (t.gen[n] == s.gen[n] || t.gen[n] == Forced)
  }

  /** The nodes visited and kept claim what they reported; the rest are as they were. */
  ghost predicate PingedFor(net: Node -> PingReply, all: seq<Node>, visited: seq<Node>, left: set<Node>, s: State,
                            t: State)
  {
    && |visited| <= |all|
    && (forall n :: n in visited && n !in left ==> Refreshed(net, s, t, n))
    && (forall n :: n in all[|visited|..] ==> Unpinged(s, t, n))
  }

  lemma PingedStep(net: Node -> PingReply, all: seq<Node>, visited: seq<Node>, left: set<Node>, s: State, t: State,
                   u: State, gone: bool)
    requires NoDup(all) && visited < all && all[|visited|] !in left && PingedFor(net, all, visited, left, s, t)
    requires Turned(t, u, all[|visited|], net(all[|visited|]), gone)
    ensures var n := all[|visited|]; PingedFor(net, all, visited + [n], if gone then left + {n} else left, s, u)
  {
    var n := all[|visited|];
    var left' := if gone then left + {n} else left;
    assert n in all[|visited|..] && n !in visited;
    assert Unpinged(s, t, n);
    forall x | x in visited + [n] && x !in left' ensures Refreshed(net, s, u, x)
    {
      if x != n { assert Refreshed(net, s, t, x); }
    }
    forall x | x in all[|visited| + 1..] ensures Unpinged(s, u, x)
    {
      assert x in all[|visited|..] && Unpinged(s, t, x) && x != n;
      if !gone && net(n).Checked? && net(n).fetched.Some? && net(n).gen != t.gen[n] { assert GenFollows(t, u, x); }
    }
  }

  /** The tables before and after a turn that takes no report over: claims, generations and
      masters stay, and `n` may lose prole roles. */
  ghost predicate Unmoved(s: State, t: State, n: Node)
  {
    t.claims == s.claims && t.gen == s.gen && t.parts.Keys == s.parts.Keys && forall k :: SameOrStruck(s, t, n, k)
  }

  ghost predicate Absent(s: State, n: Node)
  {
    forall k :: k in s.parts ==> s.parts[k].master != Some(n) && s.parts[k].prole != Some(n)
  }

  ghost predicate MasterAt(parts: map<Slot, Part>, n: Node, k: Slot)
  {
    k in parts && parts[k].master == Some(n)
  }

  ghost predicate IsMaster(s: State, n: Node)
  {
    exists k :: MasterAt(s.parts, n, k)
  }

  /** What a state of a run offers before, and what is left after, a step. */
  lemma TakeStep(s: State, e: Event)
    requires Reachable(s) && Enabled(s, e)
    ensures Inv(s) && Inv(Apply(s, e)) && Reachable(Apply(s, e))
  {
    ReachableInv(s);
    ReachableStep(s, e);
    ReachableInv(Apply(s, e));
  }

  lemma SlotIsOk(s: State, k: Slot)
    requires Reachable(s) && k in s.parts
    ensures SlotOk(s, k)
  {
    ReachableInv(s);
  }

  /** What a turn does to the tables: a node that stays and sends a report under another
      generation than the stored one has it taken over; nothing else moves. */
  ghost predicate Turned(s: State, t: State, n: Node, reply: PingReply, gone: bool)
  {
    && n in s.gen
    && if !gone && reply.Checked? && reply.fetched.Some? && reply.gen != s.gen[n]
       then TakenOver(s, t, n, reply.fetched.value) else Unmoved(s, t, n)
  }

  lemma StruckIsUnmoved(s: State, t: State, n: Node)
    requires Struck(s, t, n)
    ensures Unmoved(s, t, n)
  {
  }

  lemma SameSlotsUnmoved(s: State, t: State, u: State, n: Node)
    requires Unmoved(s, t, n) && u.parts == t.parts && u.claims == t.claims && u.gen == t.gen
    ensures Unmoved(s, u, n)
  {
    forall k ensures SameOrStruck(s, u, n, k)
    {
      assert SameOrStruck(s, t, n, k);
    }
  }

  /** In every state every claim is backed by the table or its node due for a refetch. */
  lemma ClaimsAreBacked(s: State, n: Node, k: Slot)
    requires Reachable(s) && !s.closed && n in s.nodes
    ensures n in s.claims && n in s.gen
    ensures k in s.claims[n] ==> MasterAt(s.parts, n, k) || s.gen[n] == Forced
  {
    ReachableInv(s);
    assert NodeOk(s, n);
    if k in s.claims[n] { assert ClaimOk(s, n, k); }
  }

  lemma ListedIsKnown(s: State)
    requires Reachable(s)
    ensures NoDup(s.nodes)
    ensures !s.closed ==> forall n :: n in s.nodes ==> n in s.gen && n in s.claims
    ensures !s.closed ==> forall n, k :: n in s.nodes && k in s.claims[n] ==> k in s.parts
  {
    ReachableInv(s);
  }

  class Tender {
    const nParts: nat
    var st: State
    var tables: seq<Ns>
    var intervalsAbsent: map<Node, nat>
    /** The reference in the tender's hand while it evicts a node. */
    var hand: Option<Node>
    /** History: for each node, the outcomes of its checks against the tables. */
    ghost var seen: map<Node, seq<bool>>

    ghost predicate Valid()
      reads this
    {
      && Reachable(st) && !st.closed
      && (forall n :: n in st.nodes ==> n in st.gen && n in st.claims)
      && (forall k :: k in st.parts <==> k.0 in tables && k.1 < nParts)
      && (hand.Some? ==> hand.value in st.holds)
    }

    ghost predicate Watched()
      reads this
    {
      forall n :: n in st.nodes ==> CountsChecks(intervalsAbsent, seen, n)
    }

    /** Between two nodes of the tender loop. */
    ghost predicate Steady()
      reads this
    {
      Valid() && Watched() && hand.None?
    }

    constructor (nParts: nat)
      ensures Steady() && st == Init && this.nParts == nParts
    {
      InitReachable();
      this.nParts := nParts;
      st := Init;
      tables := [];
      intervalsAbsent := map[];
      hand := None;
      seen := map[];
    }

    /** Any number of lookups and puts by transaction threads. */
    method OtherThreads()
      requires Valid()
      modifies this`st
      ensures Valid() && SameTable(old(st), st)
    {
      var more: nat := *;
      while more > 0
        invariant Valid() && SameTable(old(st), st)
      {
        var e: Event := *;
        if e.Lookup? && e.k in st.parts && Pick(st.parts[e.k], e.write, e.dice).Some? {
          ThreadStep(e);
        } else if e.GetRandom? && e.i < |st.nodes| {
          ThreadStep(e);
        } else if e.Put? && st.holds[e.n] > (if hand == Some(e.n) then 1 else 0) {
          ThreadStep(e);
        }
        more := more - 1;
      }
    }

    method ThreadStep(e: Event)
      requires Reachable(st) && Enabled(st, e) && (e.Lookup? || e.GetRandom? || e.Put?)
      modifies this`st
      ensures Reachable(st) && SameTable(old(st), st)
      ensures forall n :: st.holds[n] >= old(st).holds[n] - (if e == Put(n) then 1 else 0)
    {
      TakeStep(st, e);
      st := Apply(st, e);
    }

    /** One locked step of `cl_partition_table_update`. */
    method UpdateStep(n: Node, k: Slot, isMaster: bool, isProle: bool)
      requires Valid() && n in st.nodes && k in st.parts
      modifies this`st
      ensures Valid() && n in old(st).claims
      ensures st == old(st).(
                rc := st.rc,
                parts := old(st).parts[k := SlotAfter(old(st).parts[k], n, isMaster, isProle)],
                gen := GenAfter(old(st).gen, old(st).parts[k], n, isMaster, isProle),
                claims := old(st).claims[n := if isMaster then old(st).claims[n] + {k} else old(st).claims[n] - {k}])
    {
      var e := Update(n, k, isMaster, isProle);
      TakeStep(st, e);
      st := UpdateSlot(st, n, k, isMaster, isProle);
    }

    method DropProleStep(n: Node, k: Slot)
      requires Valid() && k in st.parts && st.parts[k].prole == Some(n)
      modifies this`st
      ensures Valid()
      ensures st == old(st).(rc := st.rc, parts := old(st).parts[k := old(st).parts[k].(prole := None)])
    {
      var e := DropProle(n, k);
      TakeStep(st, e);
      SlotAllocated(st, k);
      st := ClearProle(st, k);
    }

    /** `cl_partition_table_is_node_present`: a node that is master nowhere is also
        struck from the prole slots. */
    method IsNodePresent(n: Node) returns (present: bool)
      requires Valid()
      modifies this`st
      ensures Valid() && present == IsMaster(old(st), n)
      ensures if present then SameTable(old(st), st) else Absent(st, n) && Struck(old(st), st, n)
    {
      present := MasterSomewhere(n);
      if !present {
        StrikeProles(n);
      }
    }

    method MasterInTable(n: Node, ns: Ns) returns (found: bool)
      requires Valid() && ns in tables
      modifies this`st
      ensures Valid() && SameTable(old(st), st)
      ensures found <==> exists pid :: 0 <= pid < nParts && MasterAt(st.parts, n, (ns, pid))
    {
      var pid := 0;
      while pid < nParts
        invariant pid <= nParts && Valid() && SameTable(old(st), st)
        invariant forall q :: 0 <= q < pid ==> !MasterAt(st.parts, n, (ns, q))
      {
        OtherThreads();
        if st.parts[(ns, pid)].master == Some(n) {
          assert MasterAt(st.parts, n, (ns, pid));
          return true;
        }
        pid := pid + 1;
      }
      return false;
    }

    method MasterSomewhere(n: Node) returns (found: bool)
      requires Valid()
      modifies this`st
      ensures Valid() && SameTable(old(st), st) && found == IsMaster(st, n)
    {
      var t := 0;
      while t < |tables|
        invariant t <= |tables| && Valid() && SameTable(old(st), st)
        invariant forall j, q :: 0 <= j < t && 0 <= q < nParts ==> !MasterAt(st.parts, n, (tables[j], q))
      {
        found := MasterInTable(n, tables[t]);
        if found {
          return;
        }
        t := t + 1;
      }
      forall k | k in st.parts
        ensures !MasterAt(st.parts, n, k)
      {
        var j :| 0 <= j < |tables| && tables[j] == k.0;
        assert k == (tables[j], k.1);
      }
      return false;
    }

    method StrikeProles(n: Node)
      requires Valid() && !IsMaster(st, n)
      modifies this`st
      ensures Valid() && Absent(st, n) && Struck(old(st), st, n)
    {
      var t := 0;
      while t < |tables|
        invariant t <= |tables| && Valid() && Struck(old(st), st, n) && ClearTables(st, n, tables[..t], nParts)
      {
        ghost var s := st;
        StrikeTable(n, tables[t]);
        ClearStep(old(st), s, st, n, tables, nParts, t);
        t := t + 1;
      }
      assert tables[..t] == tables;
      AllClear(old(st), st, n, tables, nParts);
    }

    method StrikeSlot(n: Node, k: Slot)
      requires Valid() && k in st.parts
      modifies this`st
      ensures Valid() && Struck(old(st), st, n)
      ensures st.parts == old(st).parts[k := st.parts[k]] && st.parts[k].prole != Some(n)
    {
      OtherThreads();
      if st.parts[k].prole == Some(n) {
        DropProleStep(n, k);
      }
    }

    method StrikeTable(n: Node, ns: Ns)
      requires Valid() && ns in tables
      modifies this`st
      ensures Valid() && Struck(old(st), st, n) && Clear(st, n, ns, nParts)
    {
      var pid := 0;
      while pid < nParts
        invariant pid <= nParts && Valid() && ns in tables && Struck(old(st), st, n) && Clear(st, n, ns, pid)
      {
        ghost var s := st;
        StrikeSlot(n, (ns, pid));
        StruckStep(old(st), s, st, n, ns, pid);
        pid := pid + 1;
      }
    }

    method CreateTableStep(ns: Ns)
      requires Valid() && ns !in tables
      modifies this`st, this`tables
      ensures Valid() && tables == [ns] + old(tables)
      ensures st == old(st).(parts := old(st).parts + EmptySlots(ns, nParts))
    {
      var e := CreateTable(ns, nParts);
      TakeStep(st, e);
      st := Apply(st, e);
      tables := [ns] + tables;
    }

    method FillTable(n: Node, ns: Ns, masters: seq<bool>, proles: seq<bool>)
      requires Valid() && n in st.nodes && ns in tables && |masters| == |proles| == nParts
      modifies this`st
      ensures Valid() && Updated(old(st), st, n, ns, masters, proles, nParts)
    {
      OnlyLosesFollow(st, st, n);
      var pid := 0;
      while pid < nParts
        invariant pid <= nParts && Valid() && Updated(old(st), st, n, ns, masters, proles, pid)
      {
        ghost var s := st;
        OtherThreads();
        UpdateStep(n, (ns, pid), masters[pid], proles[pid]);
        SlotIsOk(s, (ns, pid));
        UpdatedStep(old(st), s, st, n, ns, masters, proles, pid);
        pid := pid + 1;
      }
    }

    /** `cl_partition_table_update`. */
    method TableUpdate(n: Node, ns: Ns, masters: seq<bool>, proles: seq<bool>)
      requires Valid() && n in st.nodes && |masters| == |proles| == nParts
      modifies this`st, this`tables
      ensures Valid() && ns in tables && Reported(old(st), st, n, ns, masters, proles)
    {
      if ns !in tables {
        CreateTableStep(ns);
      }
      ghost var before := st;
      ListedIsKnown(old(st));
      FillTable(n, ns, masters, proles);
      ReportedNow(old(st), before, st, n, ns, masters, proles);
    }

    method BeginReportStep(n: Node, newGen: Option<nat>)
      requires Valid() && n in st.nodes
      modifies this`st
      ensures Valid()
      ensures st == old(st).(claims := old(st).claims[n := {}],
                             gen := if newGen.Some? then old(st).gen[n := newGen.value] else old(st).gen)
    {
      var e := BeginReport(n, newGen);
      TakeStep(st, e);
      st := Apply(st, e);
    }

    /** `cl_cluster_node_parse_replicas`: the report is taken over. */
    method ParseReplicas(n: Node, report: Report)
      requires Valid() && n in st.nodes && WellFormed(report, nParts)
      modifies this`st, this`tables
      ensures Valid() && TakenOver(old(st), st, n, report)
    {
      OtherThreads();
      BeginReportStep(n, report.newGen);
      ghost var before := st;
      TakeMaps(n, report.maps, report.newGen);
      ParsedIsTaken(old(st), before, st, n, report);
    }

    method TakeMaps(n: Node, maps: seq<NsMap>, ghost newGen: Option<nat>)
      requires Valid() && n in st.nodes && WellFormed(Report(newGen, maps), nParts)
      requires n in st.claims && st.claims[n] == {}
      modifies this`st, this`tables
      ensures Valid() && Parsed(old(st), st, n, maps)
    {
      ghost var before := st;
      var i := 0;
      assert maps[..0] == [];
      ParsedStarts(before, n);
      while i < |maps|
        invariant i <= |maps| && Valid() && Parsed(before, st, n, maps[..i])
      {
        ghost var mid := st;
        TableUpdate(n, maps[i].ns, maps[i].masters, maps[i].proles);
        ParsedStep(before, mid, st, n, maps, i);
        i := i + 1;
      }
      assert maps[..i] == maps;
    }

    /** `cluster_ping_node`: replicas are fetched exactly when the reported generation
        differs from the stored one; so a node that was displaced is refetched at its
        next check that reports any other value than the forced one. */
    method PingNode(n: Node, reply: PingReply)
      requires Valid() && n in st.nodes
      requires reply.Checked? && reply.fetched.Some? ==> WellFormed(reply.fetched.value, nParts)
      modifies this`st, this`tables
      ensures Valid() && n in old(st).gen
      ensures if reply.Checked? && reply.fetched.Some? && reply.gen != old(st).gen[n]
              then TakenOver(old(st), st, n, reply.fetched.value) else st == old(st)
    {
      if reply.Checked? {
        var updatePartitions := st.gen[n] != reply.gen;
        if updatePartitions && reply.fetched.Some? {
          ParseReplicas(n, reply.fetched.value);
        }
      }
    }

    method EvictStep(i: nat)
      requires Valid() && i < |st.nodes| && Absent(st, st.nodes[i]) && hand.None?
      modifies this`st, this`hand
      ensures Valid() && hand == Some(old(st).nodes[i])
      ensures st == Delist(old(st), i)
    {
      var e := Evict(i);
      var n := st.nodes[i];
      TakeStep(st, e);
      st := Delist(st, i);
      hand := Some(n);
    }

    method ReleaseHand()
      requires Valid() && hand.Some?
      modifies this`st, this`hand
      ensures Valid() && hand.None? && SameTable(old(st), st)
    {
      var e := Put(hand.value);
      TakeStep(st, e);
      st := Apply(st, e);
      hand := None;
    }

    method DropNode(i: nat)
      requires Valid() && Watched() && i < |st.nodes| && Absent(st, st.nodes[i]) && hand.None?
      modifies this`st, this`hand
      ensures Valid() && Watched() && hand.None?
      ensures st == old(st).(nodes := old(st).nodes[..i] + old(st).nodes[i + 1..], rc := st.rc, holds := st.holds)
    {
      EvictStep(i);
      ReleaseHand();
    }

    /** `cluster_ping_address` for an address of a node not known by name: a new node,
        with its first reference in the list. */
    method AddNodeStep(n: Node)
      requires Valid() && Watched() && n !in st.rc
      modifies this`st, this`intervalsAbsent, this`seen
      ensures Valid() && Watched()
      ensures st == old(st).(nodes := old(st).nodes + [n], rc := old(st).rc[n := 1],
                             gen := old(st).gen[n := Forced], claims := old(st).claims[n := {}])
    {
      var e := AddNode(n);
      TakeStep(st, e);
      st := Apply(st, e);
      intervalsAbsent := intervalsAbsent[n := 0];
      seen := seen[n := []];
    }

    /** The decision of the tender loop about one node: it leaves exactly when it was
        absent at its last check and is found master of nothing now. */
    method Check(n: Node) returns (leaves: bool, ghost found: bool)
      requires Valid() && Watched() && n in st.nodes
      modifies this`st, this`intervalsAbsent, this`seen
      ensures Valid() && Watched() && st.nodes == old(st).nodes && n in old(intervalsAbsent) && n in old(seen)
      ensures found == IsMaster(old(st), n)
      ensures leaves == Leaves(old(intervalsAbsent), n, found) && (leaves ==> Absent(st, n))
      ensures Struck(old(st), st, n)
      ensures intervalsAbsent == AbsentAfter(old(intervalsAbsent), n, found)
      ensures seen == SeenAfter(old(intervalsAbsent), old(seen), n, found)
    {
      found := IsMaster(st, n);
      assert CountsChecks(intervalsAbsent, seen, n);
      CheckKeepsWatched(n, found);
      var present := LookForNode(n);
      if present {
        intervalsAbsent := intervalsAbsent[n := 1];
        leaves := false;
      } else {
        leaves := intervalsAbsent[n] > MaxIntervalsAbsent;
        intervalsAbsent := intervalsAbsent[n := intervalsAbsent[n] + 1];
      }
    }

    /** A new node counts as present; the others are looked for. */
    method LookForNode(n: Node) returns (present: bool)
      requires Valid() && n in intervalsAbsent && n in seen
      modifies this`st, this`seen
      ensures Valid() && Struck(old(st), st, n) && (!present ==> Absent(st, n))
      ensures present == (intervalsAbsent[n] == 0 || IsMaster(old(st), n))
      ensures seen == SeenAfter(intervalsAbsent, old(seen), n, IsMaster(old(st), n))
    {
      present := true;
      OtherThreads();
      if intervalsAbsent[n] != 0 {
        present := IsNodePresent(n);
        seen := seen[n := seen[n] + [present]];
      }
    }

    lemma CheckKeepsWatched(n: Node, present: bool)
      requires Watched() && n in st.nodes
      ensures CountsChecks(intervalsAbsent, seen, n)
      ensures forall x :: x in st.nodes ==>
                CountsChecks(AbsentAfter(intervalsAbsent, n, present), SeenAfter(intervalsAbsent, seen, n, present), x)
    {
      forall x | x in st.nodes
        ensures CountsChecks(AbsentAfter(intervalsAbsent, n, present), SeenAfter(intervalsAbsent, seen, n, present), x)
      {
        CheckCounts(intervalsAbsent, seen, n, present, x);
      }
    }

    /** One turn of the node loop, with the unsigned index stepped back over a deleted
        entry: stepping back from 0 wraps, and the increment wraps it again.  A node that
        stays is pinged, and the report it sends is taken over. */
    method TendOne(i: nat, reply: PingReply) returns (next: nat, gone: bool, ghost present: bool)
      requires Steady() && i < |st.nodes| <= 0xFFFF_FFFF
      requires reply.Checked? && reply.fetched.Some? ==> WellFormed(reply.fetched.value, nParts)
      modifies this
      ensures Steady() && CountsChecks(old(intervalsAbsent), old(seen), old(st).nodes[i])
      ensures present == IsMaster(old(st), old(st).nodes[i])
      ensures gone == Leaves(old(intervalsAbsent), old(st).nodes[i], present)
      ensures next == if gone then i else i + 1
      ensures st.nodes == if gone then old(st).nodes[..i] + old(st).nodes[i + 1..] else old(st).nodes
      ensures intervalsAbsent == AbsentAfter(old(intervalsAbsent), old(st).nodes[i], present)
      ensures seen == SeenAfter(old(intervalsAbsent), old(seen), old(st).nodes[i], present)
      ensures Turned(old(st), st, old(st).nodes[i], reply, gone)
    {
      var cn := st.nodes[i];
      assert CountsChecks(intervalsAbsent, seen, cn);
      ghost var s := st;
      gone, present := Check(cn);
      next := Turn(i, reply, gone, s);
    }

    /** What follows the check of a node: it is dropped, or pinged. */
    method Turn(i: nat, reply: PingReply, gone: bool, ghost s: State) returns (next: nat)
      requires Steady() && i < |st.nodes| <= 0xFFFF_FFFF && Struck(s, st, st.nodes[i])
      requires gone ==> Absent(st, st.nodes[i])
      requires reply.Checked? && reply.fetched.Some? ==> WellFormed(reply.fetched.value, nParts)
      modifies this`st, this`hand, this`tables
      ensures Steady() && next == (if gone then i else i + 1) && Turned(s, st, old(st).nodes[i], reply, gone)
      ensures st.nodes == if gone then old(st).nodes[..i] + old(st).nodes[i + 1..] else old(st).nodes
    {
      if gone {
        DropChecked(i, s, reply);
        next := if i == 0 then 0xFFFF_FFFF else i - 1;
        next := (next + 1) % 0x1_0000_0000;
        return;
      }
      PingKept(st.nodes[i], reply, s);
      next := (i + 1) % 0x1_0000_0000;
    }

    method DropChecked(i: nat, ghost s: State, ghost reply: PingReply)
      requires Valid() && Watched() && i < |st.nodes| && Absent(st, st.nodes[i]) && hand.None?
      requires Struck(s, st, st.nodes[i])
      modifies this`st, this`hand
      ensures Valid() && Watched() && hand.None?
      ensures st.nodes == old(st).nodes[..i] + old(st).nodes[i + 1..]
      ensures Turned(s, st, old(st).nodes[i], reply, true)
    {
      ghost var t, n := st, st.nodes[i];
      StruckIsUnmoved(s, t, n);
      DropNode(i);
      SameSlotsUnmoved(s, t, st, n);
    }

    /** The ping of a node that stays, seen from the tables `s` before its check. */
    method PingKept(n: Node, reply: PingReply, ghost s: State)
      requires Valid() && n in st.nodes && Struck(s, st, n)
      requires reply.Checked? && reply.fetched.Some? ==> WellFormed(reply.fetched.value, nParts)
      modifies this`st, this`tables
      ensures Valid() && st.nodes == old(st).nodes && Turned(s, st, n, reply, false)
    {
      ghost var t := st;
      StruckIsUnmoved(s, t, n);
      PingNode(n, reply);
      if reply.Checked? && reply.fetched.Some? && reply.gen != t.gen[n] { StruckThenTaken(s, t, st, n,
        reply.fetched.value); }
    }

    /** The node loop of `cluster_tend` visits every node of the list once, in order,
        and drops exactly the nodes in `left`: those whose check in this pass, as recorded
        in `seen`, and the check before both found them master of nothing.  Every node that
        stays claims what it reported, if it reported under a new generation. */
    method TendNodes(net: Node -> PingReply) returns (ghost visited: seq<Node>, ghost left: set<Node>)
      requires Steady() && |st.nodes| <= 0xFFFF_FFFF && NetIsSound(net)
      modifies this
      ensures Steady() && visited == old(st).nodes && st.nodes == Keep(old(st).nodes, left)
      ensures forall n :: n in left ==> n in old(st).nodes
      ensures forall n :: n in old(st).nodes ==> Decided(old(intervalsAbsent), old(seen), intervalsAbsent, seen, left,
                                                         n)
      ensures forall n :: n !in old(st).nodes ==> SameChecks(old(seen), seen, n)
      ensures forall n :: n in st.nodes ==> Refreshed(net, old(st), st, n)
      ensures forall n, k :: n in st.nodes && n in st.claims && k in st.claims[n] ==>
                n in st.gen && (MasterAt(st.parts, n, k) || st.gen[n] == Forced)
    {
      ghost var all := st.nodes;
      ListedIsKnown(st);
      visited, left := [], {};
      var i: nat := 0;
      while i < |st.nodes|
        invariant Steady() && Toured(net, all, visited, left, i, old(st), old(intervalsAbsent), old(seen))
        decreases |all| - |visited|
      {
        i, visited, left := TendStep(net, i, all, visited, left, old(st), old(intervalsAbsent), old(seen));
      }
      TourEnds(net, all, visited, left, i, old(st), old(intervalsAbsent), old(seen));
      forall n, k | n in st.nodes && n in st.claims && k in st.claims[n]
        ensures n in st.gen && (MasterAt(st.parts, n, k) || st.gen[n] == Forced)
      {
        ClaimsAreBacked(st, n, k);
      }
    }

    /** The tender thread: a pass in each period, with what the network answers in it.  A
        node that was listed stays listed exactly as long as no two of its checks in a row
        have failed, and it is checked in every pass but its first. */
    method TendPasses(nets: seq<Node -> PingReply>)
      requires Steady() && |st.nodes| <= 0xFFFF_FFFF && forall i :: 0 <= i < |nets| ==> NetIsSound(nets[i])
      modifies this
      ensures Steady()
      ensures forall n :: n in st.nodes ==> n in old(st).nodes
      ensures forall n :: n in old(st).nodes ==>
                Lasts(old(intervalsAbsent), old(seen), intervalsAbsent, seen, st.nodes, |nets|, n)
    {
      var i := 0;
      LastAtFirst();
      while i < |nets|
        invariant i <= |nets| && Steady() && |st.nodes| <= 0xFFFF_FFFF
        invariant AllLast(old(st).nodes, old(intervalsAbsent), old(seen), intervalsAbsent, seen, st.nodes, i)
      {
        TendPass(nets[i], old(st).nodes, old(intervalsAbsent), old(seen), i);
        i := i + 1;
      }
    }

    lemma LastAtFirst()
      requires Watched()
      ensures AllLast(st.nodes, intervalsAbsent, seen, intervalsAbsent, seen, st.nodes, 0)
    {
      forall n | n in st.nodes ensures Lasts(intervalsAbsent, seen, intervalsAbsent, seen, st.nodes, 0, n)
      {
        assert CountsChecks(intervalsAbsent, seen, n);
      }
    }

    method TendPass(net: Node -> PingReply, ghost all: seq<Node>, ghost absent0: map<Node, nat>,
                    ghost seen0: map<Node, seq<bool>>, ghost i: nat)
      requires Steady() && |st.nodes| <= 0xFFFF_FFFF && NetIsSound(net)
      requires AllLast(all, absent0, seen0, intervalsAbsent, seen, st.nodes, i)
      modifies this
      ensures Steady() && |st.nodes| <= 0xFFFF_FFFF
      ensures AllLast(all, absent0, seen0, intervalsAbsent, seen, st.nodes, i + 1)
    {
      ghost var absent, before, nodes := intervalsAbsent, seen, st.nodes;
      ghost var visited, left;
      visited, left := TendNodes(net);
      KeepIsShorter(nodes, left);
      AllLastOn(all, absent0, seen0, absent, before, intervalsAbsent, seen, nodes, left, i);
    }

    ghost predicate NetIsSound(net: Node -> PingReply)
    {
      forall n :: net(n).Checked? && net(n).fetched.Some? ==> WellFormed(net(n).fetched.value, nParts)
    }

    /** How far the node loop got. */
    ghost predicate Toured(net: Node -> PingReply, all: seq<Node>, visited: seq<Node>, left: set<Node>, i: nat,
                           s0: State, absent0: map<Node, nat>, seen0: map<Node, seq<bool>>)
      reads this
    {
      && |st.nodes| <= 0xFFFF_FFFF
      && Passed(all, visited, st.nodes, left, i)
      && DecidedFor(all, visited, left, absent0, seen0, intervalsAbsent, seen)
      && (forall n :: n !in all ==> SameChecks(seen0, seen, n))
      && PingedFor(net, all, visited, left, s0, st)
    }

    method TendStep(net: Node -> PingReply, i: nat, ghost all: seq<Node>, ghost visited: seq<Node>,
                    ghost left: set<Node>, ghost s0: State, ghost absent0: map<Node, nat>,
                    ghost seen0: map<Node, seq<bool>>)
      returns (next: nat, ghost visited': seq<Node>, ghost left': set<Node>)
      requires Steady() && Toured(net, all, visited, left, i, s0, absent0, seen0) && i < |st.nodes| && NetIsSound(net)
      modifies this
      ensures Steady() && Toured(net, all, visited', left', next, s0, absent0, seen0)
      ensures |visited| < |visited'| <= |all|
    {
      ghost var s, absent, seenBefore := st, intervalsAbsent, seen;
      ghost var cn := st.nodes[i];
      ghost var present;
      var gone;
      next, gone, present := TendOne(i, net(st.nodes[i]));
      PassedStep(all, visited, s.nodes, st.nodes, left, i, gone);
      DecidedStep(all, visited, left, absent0, seen0, absent, seenBefore, present);
      PingedStep(net, all, visited, left, s0, s, st, gone);
      forall n | n !in all ensures SameChecks(seen0, seen, n)
      {
        assert SameChecks(seen0, seenBefore, n);
      }
      visited' := visited + [cn];
      left' := if gone then left + {cn} else left;
    }

    lemma TourEnds(net: Node -> PingReply, all: seq<Node>, visited: seq<Node>, left: set<Node>, i: nat, s0: State,
                   absent0: map<Node, nat>, seen0: map<Node, seq<bool>>)
      requires Toured(net, all, visited, left, i, s0, absent0, seen0) && i >= |st.nodes|
      ensures visited == all && st.nodes == Keep(all, left) && forall n :: n in left ==> n in all
      ensures forall n :: n in all ==> Decided(absent0, seen0, intervalsAbsent, seen, left, n)
      ensures forall n :: n in st.nodes ==> Refreshed(net, s0, st, n)
    {
      assert visited == all;
      forall n | n in st.nodes ensures Refreshed(net, s0, st, n)
      {
        KeepHas(all, left, n);
      }
    }

    /** `citrusleaf_cluster_destroy` from the moment FREED is set: every listing and
        every slot gives its reference back.  Afterwards exactly the nodes still held
        by transactions are allocated. */
    method Destroy()
      requires Valid() && hand.None?
      modifies this`st
      ensures Reachable(st) && st.closed && st.nodes == [] && st.parts.Keys == old(st).parts.Keys
      ensures forall k :: k in st.parts ==> st.parts[k] == Part(None, None)
      ensures st.holds == old(st).holds
      ensures forall n :: (n in st.rc <==> n in st.holds) && (n in st.rc ==> st.rc[n] == st.holds[n])
    {
      CloseStep(Close);
      while st.nodes != []
        invariant Reachable(st) && st.closed && st.parts == old(st).parts && st.holds == old(st).holds
        decreases |st.nodes|
      {
        CloseStep(CloseNode);
      }
      var t := 0;
      while t < |tables|
        invariant t <= |tables| && Reachable(st) && st.closed && st.nodes == [] && st.holds == old(st).holds
        invariant st.parts.Keys == old(st).parts.Keys && tables == old(tables)
        invariant EmptiedTables(st, tables[..t], nParts)
      {
        ghost var s := st;
        EmptyTable(tables[t]);
        EmptiedStep(s, st, tables, nParts, t);
        t := t + 1;
      }
      assert tables[..t] == tables;
      AllEmptied(st, tables, nParts);
      OnlyHolds(st);
    }

    method CloseStep(e: Event)
      requires Reachable(st) && Enabled(st, e) && (e.Close? || e.CloseNode?)
      modifies this`st
      ensures Reachable(st) && st.closed && st.parts == old(st).parts && st.holds == old(st).holds
      ensures st.nodes == if e.Close? then old(st).nodes else old(st).nodes[1..]
    {
      TakeStep(st, e);
      st := Apply(st, e);
    }

    method EmptySlot(k: Slot)
      requires Reachable(st) && st.closed && k in st.parts
      modifies this`st
      ensures Reachable(st) && st == old(st).(rc := st.rc, parts := old(st).parts[k := Part(None, None)])
    {
      TakeStep(st, CloseSlot(k));
      st := Apply(st, CloseSlot(k));
    }

    method EmptyTable(ns: Ns)
      requires Reachable(st) && st.closed && forall pid :: 0 <= pid < nParts ==> (ns, pid) in st.parts
      modifies this`st
      ensures Reachable(st) && st == old(st).(rc := st.rc, parts := st.parts)
      ensures st.parts.Keys == old(st).parts.Keys && Emptied(st, ns, nParts)
      ensures forall k :: k in st.parts ==> st.parts[k] == old(st).parts[k] || st.parts[k] == Part(None, None)
    {
      var pid := 0;
      while pid < nParts
        invariant pid <= nParts && Reachable(st) && st == old(st).(rc := st.rc, parts := st.parts)
        invariant st.parts.Keys == old(st).parts.Keys && Emptied(st, ns, pid)
        invariant forall k :: k in st.parts ==> st.parts[k] == old(st).parts[k] || st.parts[k] == Part(None, None)
      {
        EmptySlot((ns, pid));
        pid := pid + 1;
      }
    }
  }

  /** What `cl_partition_table_update` does: every slot of the namespace gets what the
      report says of it, no other slot changes, no generation moves except to be
      forced, and the claims of `n` in this namespace are those of the report. */
  ghost predicate Reported(s: State, t: State, n: Node, ns: Ns, masters: seq<bool>, proles: seq<bool>)
    requires |masters| == |proles|
  {
    && t.nodes == s.nodes
    && ReportedSlots(s, t, n, ns, masters, proles)
    && OnlyForced(s.gen, t.gen, n) && GensFollow(s, t, n)
    && n in s.claims
    && t.claims == s.claims[n := (set k | k in s.claims[n] && k.0 != ns) + ClaimedIn(ns, masters)]
  }

  ghost predicate ReportedSlots(s: State, t: State, n: Node, ns: Ns, masters: seq<bool>, proles: seq<bool>)
    requires |masters| == |proles|
  {
    && (forall pid :: 0 <= pid < |masters| ==>
          (ns, pid) in t.parts
          && t.parts[(ns, pid)] == SlotAfter(SlotOf(s, (ns, pid)), n, masters[pid], proles[pid]))
    && (forall k: Slot :: k.0 != ns ==> (k in t.parts <==> k in s.parts) && SlotOf(t, k) == SlotOf(s, k))
  }

  /** The slots before filling: the old ones, plus empty ones for a new table. */
  ghost predicate Tabled(s: State, t: State, ns: Ns, count: nat)
  {
    t == s || ((forall pid :: (ns, pid) !in s.parts) && t == s.(parts := s.parts + EmptySlots(ns, count)))
  }

  lemma TabledSlot(s: State, t: State, ns: Ns, count: nat, k: Slot)
    requires Tabled(s, t, ns, count)
    ensures SlotOf(t, k) == SlotOf(s, k)
    ensures k.0 != ns ==> (k in t.parts <==> k in s.parts)
  {
  }

  lemma TabledFollows(s: State, t: State, ns: Ns, count: nat, n: Node)
    requires Tabled(s, t, ns, count)
    ensures GensFollow(s, t, n)
  {
    forall k ensures SlotOf(t, k) == SlotOf(s, k)
    {
      TabledSlot(s, t, ns, count, k);
    }
    OnlyLosesFollow(s, t, n);
  }

  lemma ReportedSlotsNow(s: State, t: State, u: State, n: Node, ns: Ns, masters: seq<bool>, proles: seq<bool>)
    requires |masters| == |proles| && Tabled(s, t, ns, |masters|)
    requires UpdatedSlots(t.parts, u.parts, n, ns, masters, proles, |masters|)
    ensures ReportedSlots(s, u, n, ns, masters, proles)
  {
    forall pid: nat | pid < |masters|
      ensures (ns, pid) in u.parts
      ensures u.parts[(ns, pid)] == SlotAfter(SlotOf(s, (ns, pid)), n, masters[pid], proles[pid])
    {
      TabledSlot(s, t, ns, |masters|, (ns, pid));
    }
    forall k: Slot | k.0 != ns
      ensures (k in u.parts <==> k in s.parts) && SlotOf(u, k) == SlotOf(s, k)
    {
      TabledSlot(s, t, ns, |masters|, k);
    }
  }

  lemma ReportedClaims(c: set<Slot>, d: set<Slot>, ns: Ns, masters: seq<bool>)
    requires UpdatedClaims(c, d, ns, masters, |masters|)
    requires forall k: Slot :: k in c && k.0 == ns ==> k.1 < |masters|
    ensures d == (set k | k in c && k.0 != ns) + ClaimedIn(ns, masters)
  {
  }

  lemma ReportedNow(s: State, t: State, u: State, n: Node, ns: Ns, masters: seq<bool>, proles: seq<bool>)
    requires |masters| == |proles| && Tabled(s, t, ns, |masters|)
    requires n in s.claims && forall k: Slot :: k in s.claims[n] && k.0 == ns ==> k.1 < |masters|
    requires Updated(t, u, n, ns, masters, proles, |masters|)
    ensures Reported(s, u, n, ns, masters, proles)
  {
    ReportedSlotsNow(s, t, u, n, ns, masters, proles);
    TabledFollows(s, t, ns, |masters|, n);
    GensFollowOn(s, t, u, n);
    ReportedClaims(s.claims[n], u.claims[n], ns, masters);
  }

  ghost predicate SameSlot(s: State, t: State, k: Slot)
  {
    (k in s.parts <==> k in t.parts) && SlotOf(t, k) == SlotOf(s, k)
  }

  /** After the first namespaces of a report. */
  ghost predicate Parsed(s: State, t: State, n: Node, maps: seq<NsMap>)
  {
    && t.nodes == s.nodes && n in s.claims && t.claims == s.claims[n := Claimed(maps)]
    && n in s.gen && n in t.gen && t.gen[n] == s.gen[n]
    && RolesTaken(s, t, n, maps) && (forall k: Slot :: Unnamed(maps, k.0) ==> SameSlot(s, t, k))
    && GensFollow(s, t, n)
  }

  lemma ParsedStarts(s: State, n: Node)
    requires n in s.claims && n in s.gen && s.claims[n] == {}
    ensures Parsed(s, s, n, [])
  {
    OnlyLosesFollow(s, s, n);
  }

  lemma ParsedStep(s: State, t: State, u: State, n: Node, maps: seq<NsMap>, i: nat)
    requires i < |maps| && Parsed(s, t, n, maps[..i]) && |maps[i].masters| == |maps[i].proles|
    requires forall j :: 0 <= j < i ==> maps[j].ns != maps[i].ns
    requires Reported(t, u, n, maps[i].ns, maps[i].masters, maps[i].proles)
    ensures Parsed(s, u, n, maps[..i + 1])
  {
    assert maps[..i + 1][..i] == maps[..i];
    ClaimsElsewhere(maps[..i], maps[i].ns);
    RolesStep(s, t, u, n, maps, i);
    GensFollowOn(s, t, u, n);
    forall k: Slot | Unnamed(maps[..i + 1], k.0) ensures SameSlot(s, u, k)
    {
      assert maps[..i + 1][i] == maps[i];
      assert Unnamed(maps[..i], k.0) by {
        assert forall j :: 0 <= j < i ==> maps[..i + 1][j] == maps[..i][j];
      }
      assert SameSlot(s, t, k);
    }
  }

  lemma RolesStep(s: State, t: State, u: State, n: Node, maps: seq<NsMap>, i: nat)
    requires i < |maps| && Parsed(s, t, n, maps[..i]) && |maps[i].masters| == |maps[i].proles|
    requires forall j :: 0 <= j < i ==> maps[j].ns != maps[i].ns
    requires ReportedSlots(t, u, n, maps[i].ns, maps[i].masters, maps[i].proles)
    ensures RolesTaken(s, u, n, maps[..i + 1])
  {
    var more := maps[..i + 1];
    forall j, pid: nat | 0 <= j < |more| && pid < |more[j].masters| && pid < |more[j].proles|
      ensures RolesAt(s, u, n, more[j], pid)
    {
      if j < i {
        assert RolesAt(s, t, n, maps[..i][j], pid);
      } else {
        assert Unnamed(maps[..i], maps[i].ns) && SameSlot(s, t, (maps[i].ns, pid));
      }
    }
  }

  /** The report begins by forgetting the claims and setting the generation. */
  lemma ParsedIsTaken(s: State, t: State, u: State, n: Node, r: Report)
    requires Parsed(t, u, n, r.maps) && t.nodes == s.nodes && t.parts == s.parts && t.claims == s.claims[n := {}]
    requires n in s.gen && t.gen == if r.newGen.Some? then s.gen[n := r.newGen.value] else s.gen
    ensures TakenOver(s, u, n, r)
  {
    forall k ensures k in u.claims[n] <==> Flagged(r.maps, k)
    {
      ClaimedIsFlagged(r.maps, k);
    }
    TakenSlots(s, t, u, n, r.maps);
    TakenGens(s, t, u, n);
  }

  lemma TakenSlots(s: State, t: State, u: State, n: Node, maps: seq<NsMap>)
    requires Parsed(t, u, n, maps) && t.parts == s.parts
    ensures RolesTaken(s, u, n, maps) && Elsewhere(s, u, n, maps)
  {
    forall i, pid: nat | 0 <= i < |maps| && pid < |maps[i].masters| && pid < |maps[i].proles|
      ensures RolesAt(s, u, n, maps[i], pid)
    {
      assert RolesAt(t, u, n, maps[i], pid);
    }
    forall k: Slot | Unnamed(maps, k.0) ensures SameOrStruck(s, u, n, k)
    {
      assert SameSlot(t, u, k);
    }
  }

  lemma TakenGens(s: State, t: State, u: State, n: Node)
    requires GensFollow(t, u, n) && t.parts == s.parts
    requires forall x :: x in s.gen && x != n ==> x in t.gen && t.gen[x] == s.gen[x]
    ensures GensFollow(s, u, n)
  {
    forall k, x, asMaster | GainsAt(s, u, x, k, asMaster) ensures x == n
    {
      assert GainsAt(t, u, x, k, asMaster);
    }
    forall x | x in s.gen && x != n ensures GenFollows(s, u, x)
    {
      assert GenFollows(t, u, x);
      assert forall k, asMaster :: LosesAt(s, u, x, k, asMaster) <==> LosesAt(t, u, x, k, asMaster);
    }
  }

  ghost predicate WellFormed(r: Report, nParts: nat)
  {
    && (forall i :: 0 <= i < |r.maps| ==> |r.maps[i].masters| == |r.maps[i].proles| == nParts)
    && (forall i, j :: 0 <= i < j < |r.maps| ==> r.maps[i].ns != r.maps[j].ns)
  }

  lemma {:induction false} ClaimsElsewhere(maps: seq<NsMap>, ns: Ns)
    requires forall i :: 0 <= i < |maps| ==> maps[i].ns != ns
    ensures (set k | k in Claimed(maps) && k.0 != ns) == Claimed(maps)
  {
    if maps != [] {
      ClaimsElsewhere(maps[..|maps| - 1], ns);
      var last := maps[|maps| - 1];
      forall k: Slot | k in Claimed(maps)
        ensures k.0 != ns
      {
        if k in Claimed(maps[..|maps| - 1]) {
          assert k in set x | x in Claimed(maps[..|maps| - 1]) && x.0 != ns;
        }
      }
    }
  }

  /** `n` is prole of none of the first `upTo` slots of `ns`. */
  ghost predicate Clear(s: State, n: Node, ns: Ns, upTo: nat)
  {
    forall k: Slot :: k in s.parts && k.0 == ns && k.1 < upTo ==> s.parts[k].prole != Some(n)
  }

  ghost predicate ClearTables(s: State, n: Node, tables: seq<Ns>, nParts: nat)
  {
    forall j :: 0 <= j < |tables| ==> Clear(s, n, tables[j], nParts)
  }

  lemma ClearStep(s: State, t: State, u: State, n: Node, tables: seq<Ns>, nParts: nat, i: nat)
    requires Struck(s, t, n) && Struck(t, u, n) && i < |tables|
    requires ClearTables(t, n, tables[..i], nParts) && Clear(u, n, tables[i], nParts)
    ensures Struck(s, u, n) && ClearTables(u, n, tables[..i + 1], nParts)
  {
    forall j | 0 <= j < i ensures Clear(u, n, tables[j], nParts)
    {
      assert Clear(t, n, tables[..i][j], nParts);
    }
  }

  lemma AllClear(s: State, t: State, n: Node, tables: seq<Ns>, nParts: nat)
    requires Struck(s, t, n) && !IsMaster(s, n)
    requires ClearTables(t, n, tables, nParts)
    requires forall k :: k in t.parts ==> k.0 in tables && k.1 < nParts
    ensures Absent(t, n)
  {
    forall k | k in t.parts
      ensures t.parts[k].prole != Some(n) && t.parts[k].master != Some(n)
    {
      var j :| 0 <= j < |tables| && tables[j] == k.0;
      assert Clear(t, n, tables[j], nParts) && !MasterAt(s.parts, n, k);
    }
  }

  lemma StruckStep(s: State, t: State, u: State, n: Node, ns: Ns, pid: nat)
    requires Struck(s, t, n) && Clear(t, n, ns, pid) && Struck(t, u, n)
    requires (ns, pid) in u.parts && u.parts == t.parts[(ns, pid) := u.parts[(ns, pid)]]
    requires u.parts[(ns, pid)].prole != Some(n)
    ensures Struck(s, u, n) && Clear(u, n, ns, pid + 1)
  {
  }

  /** The first `upTo` slots of namespace `ns` carry the report of `n`. */
  ghost predicate Updated(s: State, t: State, n: Node, ns: Ns, masters: seq<bool>, proles: seq<bool>, upTo: nat)
  {
    && upTo <= |masters| == |proles|
    && t.nodes == s.nodes && n in s.nodes && t.closed == s.closed
    && UpdatedSlots(s.parts, t.parts, n, ns, masters, proles, upTo)
    && OnlyForced(s.gen, t.gen, n) && GensFollow(s, t, n)
    && n in s.claims && n in t.claims && t.claims == s.claims[n := t.claims[n]]
    && UpdatedClaims(s.claims[n], t.claims[n], ns, masters, upTo)
  }

  ghost predicate UpdatedSlots(p: map<Slot, Part>, q: map<Slot, Part>, n: Node, ns: Ns, masters: seq<bool>,
                               proles: seq<bool>, upTo: nat)
    requires |masters| == |proles|
  {
    && q.Keys == p.Keys
    && (forall pid :: 0 <= pid < |masters| ==>
          (ns, pid) in p
          && q[(ns, pid)] == if pid < upTo then SlotAfter(p[(ns, pid)], n, masters[pid], proles[pid]) else p[(ns, pid)])
    && (forall k: Slot :: k in p && k.0 != ns ==> q[k] == p[k])
  }

  /** No generation moved except to be forced, and that of `n` not at all. */
  ghost predicate OnlyForced(g: map<Node, nat>, h: map<Node, nat>, n: Node)
  {
    && n in g && n in h && h[n] == g[n]
    && forall x :: x in g ==> x in h && (h[x] == g[x] || h[x] == Forced)
  }

  ghost predicate UpdatedClaims(c: set<Slot>, d: set<Slot>, ns: Ns, masters: seq<bool>, upTo: nat)
    requires upTo <= |masters|
  {
    forall k: Slot :: k in d <==> if k.0 == ns && k.1 < upTo then masters[k.1] else k in c
  }

  lemma SlotsStep(p: map<Slot, Part>, q: map<Slot, Part>, r: map<Slot, Part>, n: Node, ns: Ns, masters: seq<bool>,
                  proles: seq<bool>, pid: nat)
    requires |masters| == |proles| && pid < |masters|
    requires UpdatedSlots(p, q, n, ns, masters, proles, pid)
    requires r == q[(ns, pid) := SlotAfter(q[(ns, pid)], n, masters[pid], proles[pid])]
    ensures UpdatedSlots(p, r, n, ns, masters, proles, pid + 1)
  {
  }

  lemma ClaimsStep(c: set<Slot>, d: set<Slot>, ns: Ns, masters: seq<bool>, pid: nat)
    requires pid < |masters| && UpdatedClaims(c, d, ns, masters, pid)
    ensures UpdatedClaims(c, if masters[pid] then d + {(ns, pid)} else d - {(ns, pid)}, ns, masters, pid + 1)
  {
  }

  lemma ForcedStep(g: map<Node, nat>, h: map<Node, nat>, p: Part, n: Node, isMaster: bool, isProle: bool)
    requires OnlyForced(g, h, n)
    ensures OnlyForced(g, GenAfter(h, p, n, isMaster, isProle), n)
  {
  }

  lemma UpdatedStep(s: State, t: State, u: State, n: Node, ns: Ns, masters: seq<bool>, proles: seq<bool>, pid: nat)
    requires Updated(s, t, n, ns, masters, proles, pid) && pid < |masters| && SlotOk(t, (ns, pid))
    requires u == t.(
               rc := u.rc, holds := u.holds,
               parts := t.parts[(ns, pid) := SlotAfter(t.parts[(ns, pid)], n, masters[pid], proles[pid])],
               gen := GenAfter(t.gen, t.parts[(ns, pid)], n, masters[pid], proles[pid]),
               claims := t.claims[n := if masters[pid] then t.claims[n] + {(ns, pid)} else t.claims[n] - {(ns, pid)}])
    ensures Updated(s, u, n, ns, masters, proles, pid + 1)
  {
    SlotsStep(s.parts, t.parts, u.parts, n, ns, masters, proles, pid);
    ClaimsStep(s.claims[n], t.claims[n], ns, masters, pid);
    ForcedStep(s.gen, t.gen, t.parts[(ns, pid)], n, masters[pid], proles[pid]);
    SlotFollows(t, u, n, (ns, pid), masters[pid], proles[pid]);
    GensFollowOn(s, t, u, n);
  }

  function SlotOf(s: State, k: Slot): Part
  {
    if k in s.parts then s.parts[k] else Part(None, None)
  }
}
