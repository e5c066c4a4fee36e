/**
 From the text of a report to the claims it leaves: `cl_cluster_node_parse_replicas` of
 src/cl_cluster.c joins the parser of Replicas with the tender.  The reply's lines and
 pairs are taken as split; the two values are texts inside the reply's buffer.
 */
module Reports {
  import opened Common
  import opened Base64
  import opened Replicas
  import Cluster
  import Tender

  /** The flags a vector has for a namespace, all false if it has none. */
  function OwnsOf(maps: seq<Owned>, ns: Bytes, n: nat): (owns: seq<bool>)
  {
    Get(maps, ns, n)[Find(maps, ns)].owns
  }

  /** One namespace of a report: its master flags and the prole flags of the same name. */
  function Pair(m: Owned, proles: seq<Owned>, n: nat): (p: Tender.NsMap)
  {
    Tender.NsMap(m.ns, m.owns, OwnsOf(proles, m.ns, n))
  }

  function Paired(masters: seq<Owned>, proles: seq<Owned>, n: nat): (maps: seq<Tender.NsMap>)
  {
    seq(|masters|, i requires 0 <= i < |masters| => Pair(masters[i], proles, n))
  }

  lemma FlaggedPairs(masters: seq<Owned>, proles: seq<Owned>, n: nat, k: Cluster.Slot)
    ensures Tender.Flagged(Paired(masters, proles, n), k) <==> FlagIn(masters, k.0, k.1)
  {
    var maps := Paired(masters, proles, n);
    assert forall i :: 0 <= i < |maps| ==> maps[i].ns == masters[i].ns && maps[i].masters == masters[i].owns;
  }

  lemma FlagOf(maps: seq<Owned>, i: nat, pid: nat, n: nat)
    requires Sized(maps, n) && Distinct(maps) && i < |maps| && pid < n
    ensures |maps[i].owns| == n && (FlagIn(maps, maps[i].ns, pid) <==> maps[i].owns[pid])
  {
    assert maps[i] in maps;
  }

  lemma OwnsAreFlags(maps: seq<Owned>, ns: Bytes, pid: nat, n: nat)
    requires Sized(maps, n) && Distinct(maps) && pid < n
    ensures |OwnsOf(maps, ns, n)| == n && (OwnsOf(maps, ns, n)[pid] <==> FlagIn(maps, ns, pid))
  {
    var j := Find(maps, ns);
    if j < |maps| { FlagOf(maps, j, pid, n); }
  }

  /** The roles the paired maps give `node` are those of the two vectors. */
  lemma RolesOfPairs(s: Cluster.State, t: Cluster.State, node: Cluster.Node, masters: seq<Owned>, proles: seq<Owned>,
                     n: nat, k: Cluster.Slot)
    requires Sized(masters, n) && Sized(proles, n) && Distinct(masters) && Distinct(proles)
    requires Tender.RolesTaken(s, t, node, Paired(masters, proles, n)) && NameIn(masters, k.0) && k.1 < n
    ensures k in t.parts
    ensures t.parts[k].master == Some(node) <==> FlagIn(masters, k.0, k.1)
    ensures t.parts[k].prole == Some(node) <==> FlagIn(proles, k.0, k.1) && !FlagIn(masters, k.0, k.1)
  {
    var i :| 0 <= i < |masters| && masters[i].ns == k.0;
    FlagOf(masters, i, k.1, n);
    OwnsAreFlags(proles, k.0, k.1, n);
    var m := Paired(masters, proles, n)[i];
    assert m == Tender.NsMap(k.0, masters[i].owns, OwnsOf(proles, k.0, n));
    assert Tender.RolesAt(s, t, node, m, k.1);
  }

  // A parsed vector has one entry a namespace.

  lemma EnteredDistinct(maps: seq<Owned>, ns: Bytes, encoded: Bytes, n: nat)
    requires Sized(maps, n) && Distinct(maps)
    ensures Distinct(Entered(maps, ns, encoded, n))
  {
  }

  lemma {:induction false} ParsedDistinct(t: Bytes, n: nat, maps: seq<Owned>)
    requires Sized(maps, n) && Distinct(maps)
    ensures Distinct(Parsed(t, n, maps))
    decreases |t|
  {
    var c := IndexOf(t, Colon);
    if c < |t| {
      var rest := t[c + 1..];
      var s := IndexOf(rest, Semicolon);
      EnteredDistinct(maps, Trimmed(t[..c]), rest[..s], n);
      ParsedDistinct(AfterEntry(rest), n, Entered(maps, Trimmed(t[..c]), rest[..s], n));
    }
  }

  lemma PairedWellFormed(masters: seq<Owned>, proles: seq<Owned>, newGen: Option<nat>, n: nat)
    requires Sized(masters, n) && Sized(proles, n) && Distinct(masters)
    ensures Tender.WellFormed(Tender.Report(newGen, Paired(masters, proles, n)), n)
  {
  }

  // Adding a blank map changes nobody's flags.

  ghost predicate SameAt(maps: seq<Owned>, now: seq<Owned>, ns: Bytes, n: nat)
  {
    OwnsOf(now, ns, n) == OwnsOf(maps, ns, n)
  }

  ghost predicate SameOwns(maps: seq<Owned>, now: seq<Owned>, n: nat)
  {
    forall ns :: SameAt(maps, now, ns, n)
  }

  lemma GetSameOwns(maps: seq<Owned>, now: seq<Owned>, ns: Bytes, n: nat)
    requires SameOwns(maps, now, n)
    ensures OwnsOf(now, ns, n) == OwnsOf(maps, ns, n) && SameOwns(maps, Get(now, ns, n), n)
  {
    assert SameAt(maps, now, ns, n);
    forall x ensures SameAt(maps, Get(now, ns, n), x, n)
    {
      assert SameAt(maps, now, x, n);
      FindMore(now, Owned(ns, AllFalse(n)), x);
    }
  }

  lemma FindMore(maps: seq<Owned>, m: Owned, x: Bytes)
    ensures Find(maps + [m], x) == if Find(maps, x) == |maps| && m.ns != x then |maps| + 1 else Find(maps, x)
  {
    var k := Find(maps, x);
    FoundAt(maps + [m], x, if k == |maps| && m.ns != x then |maps| + 1 else k);
  }

  lemma PairedStep(masters: seq<Owned>, proles: seq<Owned>, n: nat, i: nat)
    requires i < |masters|
    ensures Paired(masters, proles, n)[..i + 1] == Paired(masters, proles, n)[..i] + [Pair(masters[i], proles, n)]
  {
  }

  /** Pairs one master map with the prole map of its namespace, which is added blank if
      there is none. */
  method PairOne(m: NsMap, known: seq<NsMap>, n: nat, ghost proles: seq<Owned>)
    returns (p: Tender.NsMap, now: seq<NsMap>)
    requires Separate(known, n) && SameOwns(proles, View(known), n)
    ensures Separate(now, n) && SameOwns(proles, View(now), n)
    ensures p == Pair(Owned(m.ns, m.owns[..]), proles, n)
  {
    GetSameOwns(proles, View(known), m.ns, n);
    var k;
    k, now := GetMap(known, m.ns, n);
    assert View(now)[k].owns == now[k].owns[..];
    p := Tender.NsMap(m.ns, m.owns[..], now[k].owns[..]);
  }

  method PairUp(masters: seq<NsMap>, proles: seq<NsMap>, n: nat) returns (maps: seq<Tender.NsMap>)
    requires Separate(proles, n)
    ensures maps == Paired(View(masters), View(proles), n)
  {
    maps := [];
    var known := proles;
    var i := 0;
    ghost var m, p := View(masters), View(proles);
    assert SameOwns(p, View(known), n) by {
      forall ns ensures SameAt(p, p, ns, n) {}
    }
    while i < |masters|
      invariant i <= |masters| && Separate(known, n) && SameOwns(p, View(known), n) && View(masters) == m
      invariant maps == Paired(m, p, n)[..i]
    {
      PairedStep(m, p, n, i);
      assert m[i] == Owned(masters[i].ns, masters[i].owns[..]);
      var one;
      one, known := PairOne(masters[i], known, n, p);
      maps := maps + [one];
      i := i + 1;
    }
  }

  lemma TextElsewhere(all: Bytes, now: Bytes, start: nat, end: nat, from: nat, to: nat)
    requires IsText(all, from, to) && Ends(all, now, start, end) && (end < from || to < start)
    ensures IsText(now, from, to) && now[from..to] == all[from..to]
  {
  }

  /** Parses both texts of a reply. */
  method ParseBoth(reply: array<Byte>, master: nat, masterEnd: nat, prole: nat, proleEnd: nat, n: nat)
    returns (masters: seq<NsMap>, proles: seq<NsMap>)
    requires IsText(reply[..], master, masterEnd) && IsText(reply[..], prole, proleEnd)
             && (masterEnd < prole || proleEnd < master)
    modifies reply
    ensures Separate(masters, n) && Separate(proles, n)
    ensures View(masters) == Parsed(old(reply[..])[master..masterEnd], n, [])
    ensures View(proles) == Parsed(old(reply[..])[prole..proleEnd], n, [])
  {
    ghost var all := reply[..];
    masters := ParseMap(reply, master, masterEnd, [], n);
    TextElsewhere(all, reply[..], master, masterEnd, prole, proleEnd);
    proles := ParseMap(reply, prole, proleEnd, [], n);
  }

  /** What a report of two vectors leaves: the claims of `node` are the flags of the first,
      and in every slot of a namespace the first names, `node` is master exactly if that
      flags it, and prole exactly if only the second does. */
  ghost predicate Taken(t: Cluster.State, node: Cluster.Node, masters: seq<Owned>, proles: seq<Owned>, n: nat)
  {
    && node in t.claims && (forall k :: k in t.claims[node] <==> FlagIn(masters, k.0, k.1))
    && forall k: Cluster.Slot :: NameIn(masters, k.0) && k.1 < n ==>
         && k in t.parts
         && (t.parts[k].master == Some(node) <==> FlagIn(masters, k.0, k.1))
         && (t.parts[k].prole == Some(node) <==> FlagIn(proles, k.0, k.1) && !FlagIn(masters, k.0, k.1))
  }

  lemma TakenPairs(s: Cluster.State, t: Cluster.State, node: Cluster.Node, newGen: Option<nat>, masters: seq<Owned>,
                   proles: seq<Owned>, n: nat)
    requires Sized(masters, n) && Sized(proles, n) && Distinct(masters) && Distinct(proles)
    requires Tender.TakenOver(s, t, node, Tender.Report(newGen, Paired(masters, proles, n)))
    ensures Taken(t, node, masters, proles, n)
  {
    forall k ensures k in t.claims[node] <==> FlagIn(masters, k.0, k.1)
    {
      FlaggedPairs(masters, proles, n, k);
    }
    forall k: Cluster.Slot | NameIn(masters, k.0) && k.1 < n
      ensures k in t.parts
      ensures t.parts[k].master == Some(node) <==> FlagIn(masters, k.0, k.1)
      ensures t.parts[k].prole == Some(node) <==> FlagIn(proles, k.0, k.1) && !FlagIn(masters, k.0, k.1)
    {
      RolesOfPairs(s, t, node, masters, proles, n, k);
    }
  }

  /** Hands the pairs to the tender. */
  method Update(tender: Tender.Tender, node: Cluster.Node, newGen: Option<nat>, maps: seq<Tender.NsMap>,
                ghost masters: seq<Owned>, ghost proles: seq<Owned>)
    requires tender.Valid() && node in tender.st.nodes
    requires maps == Paired(masters, proles, tender.nParts)
    requires Sized(masters, tender.nParts) && Sized(proles, tender.nParts) && Distinct(masters) && Distinct(proles)
    modifies tender`st, tender`tables
    ensures tender.Valid() && Taken(tender.st, node, masters, proles, tender.nParts)
    ensures Tender.TakenOver(old(tender.st), tender.st, node,
                             Tender.Report(newGen, Paired(masters, proles, tender.nParts)))
  {
    PairedWellFormed(masters, proles, newGen, tender.nParts);
    tender.ParseReplicas(node, Tender.Report(newGen, maps));
    TakenPairs(old(tender.st), tender.st, node, newGen, masters, proles, tender.nParts);
  }

  lemma ParsedSound(t: Bytes, n: nat)
    ensures Sized(Parsed(t, n, []), n) && Distinct(Parsed(t, n, []))
  {
    ParsedDistinct(t, n, []);
  }

  /** `cl_cluster_node_parse_replicas`: whatever the two texts say, afterwards the node's
      last report claims exactly the partitions flagged in the master text, and the node has
      the roles the two texts flag; its generation is the one given. */
  method ParseReplicas(tender: Tender.Tender, node: Cluster.Node, newGen: Option<nat>, reply: array<Byte>, master: nat,
                       masterEnd: nat, prole: nat, proleEnd: nat)
    requires tender.Valid() && node in tender.st.nodes
    requires IsText(reply[..], master, masterEnd) && IsText(reply[..], prole, proleEnd)
             && (masterEnd < prole || proleEnd < master)
    modifies reply, tender`st, tender`tables
    ensures tender.Valid() && tender.st.nodes == old(tender.st.nodes)
    ensures Taken(tender.st, node, Parsed(old(reply[..])[master..masterEnd], tender.nParts, []),
                  Parsed(old(reply[..])[prole..proleEnd], tender.nParts, []), tender.nParts)
    ensures node in tender.st.gen && (newGen.Some? ==> tender.st.gen[node] == newGen.value)
    ensures Tender.GensFollow(old(tender.st), tender.st, node)
  {
    var n := tender.nParts;
    ParsedSound(reply[..][master..masterEnd], n);
    ParsedSound(reply[..][prole..proleEnd], n);
    var masters, proles := ParseBoth(reply, master, masterEnd, prole, proleEnd, n);
    var maps := PairUp(masters, proles, n);
    Update(tender, node, newGen, maps, View(masters), View(proles));
  }

  /** A text that a server prints of its vectors flags exactly what they do. */
  lemma PrintedFlags(maps: seq<Owned>, n: nat, k: Cluster.Slot)
    requires Distinct(maps) && Sized(maps, n) && forall m :: m in maps ==> IsName(m.ns)
    ensures FlagIn(Parsed(Printed(maps), n, []), k.0, k.1) <==>
              exists m :: m in maps && m.ns == k.0 && k.1 < n && m.owns[k.1]
  {
    Replicas.RoundTrip(maps, n);
    assert forall i :: 0 <= i < |maps| ==> maps[i] in maps;
  }
}
