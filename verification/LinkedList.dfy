/**
 The doubly linked list of src/cf_ll.c.  `elements` is the list as a sequence; `next` and
 `prev` are proved to be its two mirror images under every insertion and deletion, and the
 traversals to visit it once in their direction.  Locks and destructors are not modelled.
 */
module LinkedList {
  import opened Common

  /** Answers of a traversal's callback, besides 0 to go on. */
  const DeleteIt := 1
  const InsertHere := 2

  class Element<T> {
    const value: T
    var next: Element?<T>
    var prev: Element?<T>

    constructor (value: T)
      ensures this.value == value
    {
      this.value := value;
      next, prev := null, null;
    }
  }

  function Inserted<T>(s: seq<T>, k: nat, x: T): (t: seq<T>)
    requires k <= |s|
  {
    s[..k] + [x] + s[k..]
  }

  // ---------------------------------------------------------------------------
  // Chains of links
  // ---------------------------------------------------------------------------

  datatype Link<!T> = Link(next: Element?<T>, prev: Element?<T>)

  type Links<!T> = map<Element<T>, Link<T>>

  /** The element at `k`, or null off either end. */
  ghost function At<T>(s: seq<Element<T>>, k: int): (e: Element?<T>)
  {
    if 0 <= k < |s| then s[k] else null
  }

  ghost predicate Differ<T>(s: seq<Element<T>>, j: nat, k: nat)
    requires j < |s| && k < |s|
  {
    s[j] != s[k]
  }

  ghost predicate NoRepeats<T>(s: seq<Element<T>>)
  {
    forall j: nat, k: nat :: j < k < |s| ==> Differ(s, j, k)
  }

  /** The links of element `k` of `s`. */
  ghost predicate InPlace<T>(m: Links<T>, s: seq<Element<T>>, k: nat)
    requires k < |s|
  {
    s[k] in m && m[s[k]] == Link(At(s, k + 1), At(s, k - 1))
  }

  /** Both chains run through `s`, in opposite directions. */
  ghost predicate Chain<T>(m: Links<T>, s: seq<Element<T>>)
  {
    NoRepeats(s) && forall k: nat :: k < |s| ==> InPlace(m, s, k)
  }

  /** The links after `x` is put between `p` and `n`, either of which may be missing. */
  ghost function Joined<T>(m: Links<T>, p: Element?<T>, n: Element?<T>, x: Element<T>): (after: Links<T>)
    requires (p != null ==> p in m) && (n != null ==> n in m)
  {
    var m1 := m[x := Link(n, p)];
    var m2 := if p != null then m1[p := m1[p].(next := x)] else m1;
    if n != null then m2[n := m2[n].(prev := x)] else m2
  }

  /** The links after what is between `p` and `n` is taken out. */
  ghost function Closed<T>(m: Links<T>, p: Element?<T>, n: Element?<T>): (after: Links<T>)
    requires (p != null ==> p in m) && (n != null ==> n in m)
  {
    var m1 := if p != null then m[p := m[p].(next := n)] else m;
    if n != null then m1[n := m1[n].(prev := p)] else m1
  }

  lemma InsertedAt<T>(s: seq<T>, k: nat, x: T, i: nat)
    requires k <= |s| && i <= |s|
    ensures Inserted(s, k, x)[i] == if i < k then s[i] else if i == k then x else s[i - 1]
  {
  }

  lemma InsertedEnds<T>(s: seq<Element<T>>, k: nat, x: Element<T>)
    requires k <= |s|
    ensures var t := Inserted(s, k, x);
            && At(t, 0) == (if k == 0 then x else At(s, 0))
            && At(t, |t| - 1) == (if k == |s| then x else At(s, |s| - 1))
            && forall e :: e in t <==> e in s || e == x
  {
    InsertedAt(s, k, x, 0);
    InsertedAt(s, k, x, |s|);
    var t := Inserted(s, k, x);
    assert s == s[..k] + s[k..];
  }

  lemma WithoutEnds<T>(s: seq<Element<T>>, k: nat)
    requires k < |s|
    ensures var t := Without(s, k);
            && At(t, 0) == (if k == 0 then At(s, 1) else At(s, 0))
            && At(t, |t| - 1) == (if k == |s| - 1 then At(s, |s| - 2) else At(s, |s| - 1))
            && forall e :: e in t ==> e in s
  {
    if |s| > 1 {
      WithoutAt(s, k, 0);
      WithoutAt(s, k, |s| - 2);
    }
  }

  lemma InsertedNoRepeats<T>(s: seq<Element<T>>, k: nat, x: Element<T>)
    requires NoRepeats(s) && k <= |s| && x !in s
    ensures NoRepeats(Inserted(s, k, x))
  {
    var t := Inserted(s, k, x);
    forall i: nat, j: nat | i < j < |t| ensures Differ(t, i, j)
    {
      InsertedAt(s, k, x, i);
      InsertedAt(s, k, x, j);
      if i != k && j != k { assert Differ(s, if i < k then i else i - 1, if j < k then j else j - 1); }
    }
  }

  lemma InsertKeepsChain<T>(m: Links<T>, s: seq<Element<T>>, k: nat, x: Element<T>)
    requires Chain(m, s) && k <= |s| && x !in s
    ensures (At(s, k - 1) != null ==> At(s, k - 1) in m) && (At(s, k) != null ==> At(s, k) in m)
    ensures Chain(Joined(m, At(s, k - 1), At(s, k), x), Inserted(s, k, x))
  {
    assert k > 0 ==> InPlace(m, s, k - 1);
    assert k < |s| ==> InPlace(m, s, k);
    InsertedNoRepeats(s, k, x);
    var now, t := Joined(m, At(s, k - 1), At(s, k), x), Inserted(s, k, x);
    forall i: nat | i < |t| ensures InPlace(now, t, i)
    {
      InsertInPlace(m, s, k, x, i);
    }
  }

  lemma InsertInPlace<T>(m: Links<T>, s: seq<Element<T>>, k: nat, x: Element<T>, i: nat)
    requires Chain(m, s) && k <= |s| && x !in s && i <= |s|
    requires (At(s, k - 1) != null ==> At(s, k - 1) in m) && (At(s, k) != null ==> At(s, k) in m)
    ensures InPlace(Joined(m, At(s, k - 1), At(s, k), x), Inserted(s, k, x), i)
  {
    var t := Inserted(s, k, x);
    InsertedAt(s, k, x, i);
    if i > 0 { InsertedAt(s, k, x, i - 1); }
    if i < |s| { InsertedAt(s, k, x, i + 1); }
    if i != k {
      var was := if i < k then i else i - 1;
      assert InPlace(m, s, was);
      if k > 0 && was < k - 1 { assert Differ(s, was, k - 1); }
      if k > 0 && was > k - 1 { assert Differ(s, k - 1, was); }
      if k < |s| && was < k { assert Differ(s, was, k); }
      if k < |s| && was > k { assert Differ(s, k, was); }
    }
  }

  lemma WithoutAt<T>(s: seq<T>, k: nat, i: nat)
    requires k < |s| && i < |s| - 1
    ensures Without(s, k)[i] == if i < k then s[i] else s[i + 1]
  {
  }

  lemma DeleteKeepsChain<T>(m: Links<T>, s: seq<Element<T>>, k: nat)
    requires Chain(m, s) && k < |s|
    ensures (At(s, k - 1) != null ==> At(s, k - 1) in m) && (At(s, k + 1) != null ==> At(s, k + 1) in m)
    ensures Chain(Closed(m, At(s, k - 1), At(s, k + 1)), Without(s, k))
  {
    assert k > 0 ==> InPlace(m, s, k - 1);
    assert k + 1 < |s| ==> InPlace(m, s, k + 1);
    var now, t := Closed(m, At(s, k - 1), At(s, k + 1)), Without(s, k);
    forall i: nat, j: nat | i < j < |t| ensures Differ(t, i, j)
    {
      WithoutAt(s, k, i);
      WithoutAt(s, k, j);
      assert Differ(s, if i < k then i else i + 1, if j < k then j else j + 1);
    }
    forall i: nat | i < |t| ensures InPlace(now, t, i)
    {
      DeleteInPlace(m, s, k, i);
    }
  }

  lemma DeleteInPlace<T>(m: Links<T>, s: seq<Element<T>>, k: nat, i: nat)
    requires Chain(m, s) && k < |s| && i < |s| - 1
    requires (At(s, k - 1) != null ==> At(s, k - 1) in m) && (At(s, k + 1) != null ==> At(s, k + 1) in m)
    ensures InPlace(Closed(m, At(s, k - 1), At(s, k + 1)), Without(s, k), i)
  {
    WithoutAt(s, k, i);
    if i > 0 { WithoutAt(s, k, i - 1); }
    if i < |s| - 2 { WithoutAt(s, k, i + 1); }
    var was := if i < k then i else i + 1;
    assert InPlace(m, s, was);
    if k > 0 && was < k - 1 { assert Differ(s, was, k - 1); }
    if k > 0 && was > k - 1 { assert Differ(s, k - 1, was); }
    if k + 1 < |s| && was < k + 1 { assert Differ(s, was, k + 1); }
    if k + 1 < |s| && was > k + 1 { assert Differ(s, k + 1, was); }
  }

  ghost predicate Agree<T>(m: Links<T>, s: seq<Element<T>>)
    reads s
  {
    forall e :: e in s ==> e in m && m[e] == Link(e.next, e.prev)
  }

  // ---------------------------------------------------------------------------
  // Traversals
  // ---------------------------------------------------------------------------

  /** What a traversal leaves, whom it visited, in order, and what it returns. */
  datatype Outcome<!T> = Outcome(kept: seq<Element<T>>, visited: seq<Element<T>>, rv: int)

  ghost function NearEnd<T>(forward: bool, s: seq<Element<T>>): (e: Element<T>)
    requires s != []
  {
    if forward then s[0] else s[|s| - 1]
  }

  ghost function NearOrNull<T>(forward: bool, s: seq<Element<T>>): (e: Element?<T>)
  {
    if s == [] then null else NearEnd(forward, s)
  }

  ghost function Shorter<T>(forward: bool, s: seq<Element<T>>): (t: seq<Element<T>>)
    requires s != []
    ensures |t| == |s| - 1
  {
    if forward then s[1..] else s[..|s| - 1]
  }

  ghost function Longer<T>(forward: bool, s: seq<Element<T>>, e: Element<T>): (t: seq<Element<T>>)
  {
    if forward then s + [e] else [e] + s
  }

  /** `near` and then `far`, seen in the direction of the traversal. */
  ghost function Along<T>(forward: bool, near: seq<Element<T>>, far: seq<Element<T>>): (s: seq<Element<T>>)
  {
    if forward then near + far else far + near
  }

  ghost function Sweep<T>(forward: bool, s: seq<Element<T>>, fn: T -> int, rv: int): (o: Outcome<T>)
    decreases |s|
  {
    if s == [] then Outcome([], [], rv)
    else
      var e := NearEnd(forward, s);
      var answer := fn(e.value);
      if answer == 0 || answer == DeleteIt then
        var o := Sweep(forward, Shorter(forward, s), fn, answer);
        Outcome(Along(forward, if answer == 0 then [e] else [], o.kept), [e] + o.visited, o.rv)
      else
        Outcome(s, [e], answer)
  }

  /** `done` and `visited` of a sweep of `s` with `rest` to go. */
  ghost predicate Swept<T>(forward: bool, s: seq<Element<T>>, fn: T -> int, done: seq<Element<T>>,
                           rest: seq<Element<T>>, visited: seq<Element<T>>, rv: int)
  {
    var o := Sweep(forward, rest, fn, rv);
    Sweep(forward, s, fn, 0) == Outcome(Along(forward, done, o.kept), visited + o.visited, o.rv)
  }

  lemma SweepStarts<T>(forward: bool, s: seq<Element<T>>, fn: T -> int)
    ensures Swept(forward, s, fn, [], s, [], 0)
  {
    var o := Sweep(forward, s, fn, 0);
    assert Along(forward, [], o.kept) == o.kept && [] + o.visited == o.visited;
  }

  lemma KeptAlong<T>(forward: bool, done: seq<Element<T>>, e: Element<T>, kept: seq<Element<T>>)
    ensures Along(forward, done, Along(forward, [e], kept)) == Along(forward, Longer(forward, done, e), kept)
  {
    if forward {
      assert done + ([e] + kept) == (done + [e]) + kept;
    } else {
      assert (kept + [e]) + done == kept + ([e] + done);
    }
  }

  lemma RestAlong<T>(forward: bool, done: seq<Element<T>>, rest: seq<Element<T>>)
    requires rest != []
    ensures Along(forward, done, rest) == Along(forward, Longer(forward, done, NearEnd(forward, rest)),
                                                Shorter(forward, rest))
    ensures Without(Along(forward, done, rest), if forward then |done| else |rest| - 1) ==
              Along(forward, done, Shorter(forward, rest))
  {
    if forward {
      assert rest == [rest[0]] + rest[1..];
    } else {
      assert rest == rest[..|rest| - 1] + [rest[|rest| - 1]];
    }
  }

  lemma VisitedAlong<T>(visited: seq<Element<T>>, e: Element<T>, more: seq<Element<T>>)
    ensures visited + ([e] + more) == (visited + [e]) + more
  {
  }

  lemma SweepKeeps<T>(forward: bool, s: seq<Element<T>>, fn: T -> int, done: seq<Element<T>>, rest: seq<Element<T>>,
                      visited: seq<Element<T>>, rv: int)
    requires rest != [] && fn(NearEnd(forward, rest).value) == 0 && Swept(forward, s, fn, done, rest, visited, rv)
    ensures Swept(forward, s, fn, Longer(forward, done, NearEnd(forward, rest)), Shorter(forward, rest),
                  visited + [NearEnd(forward, rest)], 0)
  {
    var e := NearEnd(forward, rest);
    var o := Sweep(forward, Shorter(forward, rest), fn, 0);
    KeptAlong(forward, done, e, o.kept);
    VisitedAlong(visited, e, o.visited);
  }

  lemma SweepDeletes<T>(forward: bool, s: seq<Element<T>>, fn: T -> int, done: seq<Element<T>>, rest: seq<Element<T>>,
                        visited: seq<Element<T>>, rv: int)
    requires rest != [] && fn(NearEnd(forward, rest).value) == DeleteIt
             && Swept(forward, s, fn, done, rest, visited, rv)
    ensures Swept(forward, s, fn, done, Shorter(forward, rest), visited + [NearEnd(forward, rest)], DeleteIt)
  {
    var e := NearEnd(forward, rest);
    var o := Sweep(forward, Shorter(forward, rest), fn, DeleteIt);
    assert Along(forward, [], o.kept) == o.kept;
    VisitedAlong(visited, e, o.visited);
  }

  lemma SweepStops<T>(forward: bool, s: seq<Element<T>>, fn: T -> int, done: seq<Element<T>>, rest: seq<Element<T>>,
                      visited: seq<Element<T>>, rv: int)
    requires rest != [] && fn(NearEnd(forward, rest).value) != 0 && fn(NearEnd(forward, rest).value) != DeleteIt
    requires Swept(forward, s, fn, done, rest, visited, rv)
    ensures Sweep(forward, s, fn, 0) == Outcome(Along(forward, done, rest), visited + [NearEnd(forward, rest)],
                                                fn(NearEnd(forward, rest).value))
  {
  }

  lemma SweepEnds<T>(forward: bool, s: seq<Element<T>>, fn: T -> int, done: seq<Element<T>>, rest: seq<Element<T>>,
                     visited: seq<Element<T>>, rv: int)
    requires rest == [] && Swept(forward, s, fn, done, rest, visited, rv)
    ensures Sweep(forward, s, fn, 0) == Outcome(done, visited, rv)
  {
    assert Along(forward, done, []) == done && visited + [] == visited;
  }

  /** Where the first answer other than 0 is given: before that element from the head,
      after it from the tail, or at the far end if there is none. */
  ghost function Place<T>(forward: bool, s: seq<Element<T>>, fn: Option<T> -> int): (k: nat)
    ensures k <= |s|
    decreases |s|
  {
    if s == [] then 0
    else if forward then (if fn(Some(s[0].value)) != 0 then 0 else 1 + Place(true, s[1..], fn))
    else (if fn(Some(s[|s| - 1].value)) != 0 then |s| else Place(false, s[..|s| - 1], fn))
  }

  ghost function PlaceAnswer<T>(forward: bool, s: seq<Element<T>>, fn: Option<T> -> int): (answer: int)
  {
    var k := Place(forward, s, fn);
    if forward then (if k < |s| then fn(Some(s[k].value)) else fn(None))
    else (if k > 0 then fn(Some(s[k - 1].value)) else fn(None))
  }

  /** The search for the place has come to `k`, all answers so far being 0. */
  ghost predicate Searched<T>(forward: bool, s: seq<Element<T>>, fn: Option<T> -> int, k: nat)
  {
    k <= |s| && Place(forward, s, fn) == if forward then k + Place(true, s[k..], fn) else Place(false, s[..k], fn)
  }

  /** The element next to `k` in the direction of the search, or null at the far end. */
  ghost function Beside<T>(forward: bool, s: seq<Element<T>>, k: int): (e: Element?<T>)
  {
    At(s, if forward then k else k - 1)
  }

  lemma SearchStarts<T>(forward: bool, s: seq<Element<T>>, fn: Option<T> -> int)
    ensures Searched(forward, s, fn, if forward then 0 else |s|)
  {
    assert s[0..] == s && s[..|s|] == s;
  }

  lemma SearchFinds<T>(forward: bool, s: seq<Element<T>>, fn: Option<T> -> int, k: nat)
    requires Searched(forward, s, fn, k)
    ensures var e := Beside(forward, s, k);
            e == null || fn(Some(e.value)) != 0 ==>
              Place(forward, s, fn) == k && PlaceAnswer(forward, s, fn) == fn(if e == null then None else Some(e.value))
  {
  }

  lemma SearchGoesOn<T>(forward: bool, s: seq<Element<T>>, fn: Option<T> -> int, k: nat)
    requires Searched(forward, s, fn, k) && Beside(forward, s, k) != null && fn(Some(Beside(forward, s, k).value)) == 0
    ensures if forward then Searched(forward, s, fn, k + 1) else k > 0 && Searched(forward, s, fn, k - 1)
  {
    if forward {
      assert s[k..][1..] == s[k + 1..];
    } else {
      assert s[..k][..k - 1] == s[..k - 1];
    }
  }

  // What the two traversals are for.

  ghost function Kept<T>(s: seq<Element<T>>, fn: T -> int): (kept: seq<Element<T>>)
  {
    if s == [] then [] else (if fn(s[0].value) == 0 then [s[0]] else []) + Kept(s[1..], fn)
  }

  ghost predicate OnlyKeepsOrDeletes<T>(s: seq<Element<T>>, fn: T -> int)
  {
    forall k :: 0 <= k < |s| ==> fn(s[k].value) == 0 || fn(s[k].value) == DeleteIt
  }

  lemma {:induction false} KeptLast<T>(s: seq<Element<T>>, fn: T -> int)
    requires s != []
    ensures Kept(s, fn) == Kept(s[..|s| - 1], fn) + if fn(s[|s| - 1].value) == 0 then [s[|s| - 1]] else []
  {
    if |s| > 1 {
      KeptLast(s[1..], fn);
      assert s[1..][..|s| - 2] == s[..|s| - 1][1..];
    }
  }

  lemma {:induction false} ReversedLast<T>(s: seq<Element<T>>)
    requires s != []
    ensures Reversed(s) == [s[|s| - 1]] + Reversed(s[..|s| - 1])
  {
    if |s| > 1 {
      ReversedLast(s[1..]);
      assert s[..|s| - 1][1..] == s[1..][..|s| - 2];
    }
  }

  /** With a callback that only keeps or deletes, a traversal visits every element once,
      in its direction, leaves exactly the kept ones in order, and returns the last answer. */
  lemma {:induction false} SweepExactly<T>(forward: bool, s: seq<Element<T>>, fn: T -> int, rv: int)
    requires OnlyKeepsOrDeletes(s, fn)
    ensures var o := Sweep(forward, s, fn, rv);
            && o.kept == Kept(s, fn) && o.visited == (if forward then s else Reversed(s))
            && o.rv == if s == [] then rv else fn((if forward then s[|s| - 1] else s[0]).value)
    decreases |s|
  {
    if s != [] {
      var answer := fn(NearEnd(forward, s).value);
      SweepExactly(forward, Shorter(forward, s), fn, answer);
      if forward {
        assert s == [s[0]] + s[1..];
      } else {
        KeptLast(s, fn);
        ReversedLast(s);
      }
    }
  }

  /** With any answers a traversal goes on through 0 and 1 and ends at the first other
      answer, which it returns: what it passed it kept or deleted as told, and that element
      and all beyond it stay. */
  lemma {:induction false} SweepStopsAt<T>(forward: bool, s: seq<Element<T>>, fn: T -> int, rv: int, k: nat)
    requires k < |s| && fn(s[k].value) != 0 && fn(s[k].value) != 1
    requires OnlyKeepsOrDeletes(if forward then s[..k] else s[k + 1..], fn)
    ensures var o := Sweep(forward, s, fn, rv);
            && o.kept == (if forward then Kept(s[..k], fn) + s[k..] else s[..k + 1] + Kept(s[k + 1..], fn))
            && o.visited == (if forward then s[..k + 1] else Reversed(s[k..]))
            && o.rv == fn(s[k].value)
    decreases |s|
  {
    if forward {
      StopsForward(s, fn, rv, k);
    } else {
      StopsBackward(s, fn, rv, k);
    }
  }

  lemma {:induction false} StopsForward<T>(s: seq<Element<T>>, fn: T -> int, rv: int, k: nat)
    requires k < |s| && fn(s[k].value) != 0 && fn(s[k].value) != 1 && OnlyKeepsOrDeletes(s[..k], fn)
    ensures Sweep(true, s, fn, rv) == Outcome(Kept(s[..k], fn) + s[k..], s[..k + 1], fn(s[k].value))
  {
    if k == 0 {
      assert Kept(s[..0], fn) + s == s && s[..1] == [s[0]];
    } else {
      assert s[..k][0] == s[0] && s[..k][1..] == s[1..][..k - 1];
      StopsForward(s[1..], fn, fn(s[0].value), k - 1);
      assert s[1..][k - 1..] == s[k..] && [s[0]] + s[1..][..k] == s[..k + 1];
      KeptRegroups(if fn(s[0].value) == 0 then [s[0]] else [], Kept(s[..k][1..], fn), s[k..]);
    }
  }

  lemma {:induction false} StopsBackward<T>(s: seq<Element<T>>, fn: T -> int, rv: int, k: nat)
    requires k < |s| && fn(s[k].value) != 0 && fn(s[k].value) != 1 && OnlyKeepsOrDeletes(s[k + 1..], fn)
    ensures Sweep(false, s, fn, rv) == Outcome(s[..k + 1] + Kept(s[k + 1..], fn), Reversed(s[k..]), fn(s[k].value))
    decreases |s|
  {
    var n := |s| - 1;
    if k == n {
      assert s[..k + 1] + Kept(s[k + 1..], fn) == s && s[k..] == [s[k]];
      assert Reversed([s[k]]) == [s[k]];
    } else {
      var rest := s[k + 1..];
      assert s[n] == rest[|rest| - 1] && s[..n][k + 1..] == rest[..|rest| - 1];
      StopsBackward(s[..n], fn, fn(s[n].value), k);
      KeptLast(rest, fn);
      assert s[..n][..k + 1] == s[..k + 1];
      ReversedLast(s[k..]);
      assert s[k..][..|s[k..]| - 1] == s[..n][k..];
      KeptRegroups(s[..k + 1], Kept(rest[..|rest| - 1], fn), if fn(s[n].value) == 0 then [s[n]] else []);
    }
  }

  lemma KeptRegroups<T>(a: seq<Element<T>>, b: seq<Element<T>>, c: seq<Element<T>>)
    ensures (a + b) + c == a + (b + c)
  {
  }

  /** The place found: everything passed was answered with 0, and the answer given there,
      if not at the far end, is the one that decides. */
  lemma {:induction false} PlaceExactly<T>(forward: bool, s: seq<Element<T>>, fn: Option<T> -> int)
    ensures var k := Place(forward, s, fn);
            && (if forward then forall i :: 0 <= i < k ==> fn(Some(s[i].value)) == 0
                else forall i :: k <= i < |s| ==> fn(Some(s[i].value)) == 0)
            && PlaceAnswer(forward, s, fn) == (
                 if forward && k < |s| then fn(Some(s[k].value))
                 else if !forward && k > 0 then fn(Some(s[k - 1].value))
                 else fn(None))
            && ((forward && k < |s|) || (!forward && k > 0) ==> PlaceAnswer(forward, s, fn) != 0)
    decreases |s|
  {
    if s != [] {
      if forward {
        PlaceExactly(true, s[1..], fn);
        assert forall i :: 0 < i < |s| ==> s[i] == s[1..][i - 1];
      } else {
        PlaceExactly(false, s[..|s| - 1], fn);
        assert forall i :: 0 <= i < |s| - 1 ==> s[i] == s[..|s| - 1][i];
      }
    }
  }

  /** A way of ordering values. */
  ghost predicate IsOrder<T(!new)>(le: (T, T) -> bool)
  {
    (forall x, y :: le(x, y) || le(y, x)) && forall x, y, z :: le(x, y) && le(y, z) ==> le(x, z)
  }

  ghost predicate Sorted<T>(s: seq<Element<T>>, le: (T, T) -> bool)
  {
    forall j, k :: 0 <= j < k < |s| ==> le(s[j].value, s[k].value)
  }

  /** The callback that puts `x` in order: from the head before the first greater element,
      from the tail after the first that is not. */
  ghost predicate Orders<T(!new)>(forward: bool, fn: Option<T> -> int, x: T, le: (T, T) -> bool)
  {
    && fn(None) == InsertHere
    && forall v :: fn(Some(v)) == if le(v, x) == forward then 0 else InsertHere
  }

  lemma {:induction false} PlaceOrders<T(!new)>(forward: bool, s: seq<Element<T>>, fn: Option<T> -> int, x: T,
                                                le: (T, T) -> bool)
    requires IsOrder(le) && Sorted(s, le) && Orders(forward, fn, x, le)
    ensures var k := Place(forward, s, fn);
            && (forall i :: 0 <= i < k ==> le(s[i].value, x)) && forall i :: k <= i < |s| ==> !le(s[i].value, x)
    decreases |s|
  {
    if s != [] {
      if forward {
        if fn(Some(s[0].value)) == 0 {
          PlaceOrders(true, s[1..], fn, x, le);
          assert forall i :: 1 <= i < |s| ==> s[i] == s[1..][i - 1];
        } else {
          assert forall i :: 0 < i < |s| ==> le(s[0].value, s[i].value);
        }
      } else {
        var n := |s| - 1;
        if fn(Some(s[n].value)) == 0 {
          PlaceOrders(false, s[..n], fn, x, le);
          assert forall i :: 0 <= i < n ==> s[i] == s[..n][i];
        } else {
          assert forall i :: 0 <= i < n ==> le(s[i].value, s[n].value);
        }
      }
    }
  }

  /** Inserting in order keeps a sorted list sorted, and inserts, from either end. */
  lemma InsertKeepsSorted<T(!new)>(forward: bool, s: seq<Element<T>>, fn: Option<T> -> int, e: Element<T>,
                                   le: (T, T) -> bool)
    requires IsOrder(le) && Sorted(s, le) && Orders(forward, fn, e.value, le)
    ensures PlaceAnswer(forward, s, fn) == InsertHere
    ensures Sorted(Inserted(s, Place(forward, s, fn), e), le)
  {
    var k := Place(forward, s, fn);
    var t := Inserted(s, k, e);
    PlaceOrders(forward, s, fn, e.value, le);
    forall i, j | 0 <= i < j < |t| ensures le(t[i].value, t[j].value)
    {
      InsertedAt(s, k, e, i);
      InsertedAt(s, k, e, j);
    }
  }

  /** The place does not depend on the end the search starts from: after all that are not
      greater. */
  lemma SamePlaceFromBothEnds<T(!new)>(s: seq<Element<T>>, fromHead: Option<T> -> int, fromTail: Option<T> -> int, x: T,
                                       le: (T, T) -> bool)
    requires IsOrder(le) && Sorted(s, le) && Orders(true, fromHead, x, le) && Orders(false, fromTail, x, le)
    ensures Place(true, s, fromHead) == Place(false, s, fromTail)
  {
    PlaceOrders(true, s, fromHead, x, le);
    PlaceOrders(false, s, fromTail, x, le);
    var j, k := Place(true, s, fromHead), Place(false, s, fromTail);
    var atJ, atK := At(s, j), At(s, k);
    assert j < |s| ==> !le(atJ.value, x);
    assert k < |s| ==> !le(atK.value, x);
  }

  class List<T> {
    var head: Element?<T>
    var tail: Element?<T>
    var size: nat
    ghost var elements: seq<Element<T>>

    ghost function LinksNow(): (m: Links<T>)
      reads this, elements
    {
      map e | e in elements :: Link(e.next, e.prev)
    }

    ghost predicate Valid()
      reads this, elements
    {
      && Chain(LinksNow(), elements)
      && head == At(elements, 0) && tail == At(elements, |elements| - 1) && size == |elements|
    }

    constructor ()
      ensures Valid() && elements == []
    {
      head, tail, size, elements := null, null, 0, [];
    }

    lemma ChainHolds(m: Links<T>)
      requires Chain(m, elements) && Agree(m, elements)
      ensures Chain(LinksNow(), elements)
    {
      forall k: nat | k < |elements| ensures InPlace(LinksNow(), elements, k)
      {
        assert elements[k] in elements && InPlace(m, elements, k);
      }
    }

    /** The chain after an insertion, from the pointers of the new element and its
        neighbours. */
    lemma JoinHolds(m: Links<T>, s: seq<Element<T>>, k: nat, x: Element<T>)
      requires Chain(m, s) && k <= |s| && x !in s && elements == Inserted(s, k, x)
      requires x.next == At(s, k) && x.prev == At(s, k - 1)
      requires k > 0 ==> s[k - 1] in m && s[k - 1].next == x && s[k - 1].prev == m[s[k - 1]].prev
      requires k < |s| ==> s[k] in m && s[k].prev == x && s[k].next == m[s[k]].next
      requires forall e :: e in s && e != At(s, k - 1) && e != At(s, k) ==> e in m && m[e] == Link(e.next, e.prev)
      ensures Chain(LinksNow(), elements)
      ensures At(elements, 0) == (if k == 0 then x else At(s, 0))
              && At(elements, |s|) == if k == |s| then x else At(s, |s| - 1)
    {
      InsertKeepsChain(m, s, k, x);
      InsertedEnds(s, k, x);
      if 0 < k < |s| { assert Differ(s, k - 1, k); }
      ChainHolds(Joined(m, At(s, k - 1), At(s, k), x));
    }

    /** The chain after a deletion, from the pointers of the neighbours. */
    lemma CloseHolds(m: Links<T>, s: seq<Element<T>>, k: nat)
      requires Chain(m, s) && k < |s| && elements == Without(s, k)
      requires k > 0 ==> s[k - 1] in m && s[k - 1].next == At(s, k + 1) && s[k - 1].prev == m[s[k - 1]].prev
      requires k + 1 < |s| ==> s[k + 1] in m && s[k + 1].prev == At(s, k - 1) && s[k + 1].next == m[s[k + 1]].next
      requires forall e :: e in s && e != At(s, k - 1) && e != At(s, k + 1) ==> e in m && m[e] == Link(e.next, e.prev)
      ensures Chain(LinksNow(), elements)
      ensures At(elements, 0) == (if k == 0 then At(s, 1) else At(s, 0))
      ensures At(elements, |s| - 2) == if k == |s| - 1 then At(s, |s| - 2) else At(s, |s| - 1)
    {
      DeleteKeepsChain(m, s, k);
      WithoutEnds(s, k);
      if 0 < k < |s| - 1 { assert Differ(s, k - 1, k + 1); }
      ChainHolds(Closed(m, At(s, k - 1), At(s, k + 1)));
    }

    /** What the pointers of element `k` are. */
    lemma Neighbours(k: nat)
      requires Valid() && k < |elements|
      ensures elements[k].next == At(elements, k + 1) && elements[k].prev == At(elements, k - 1)
      ensures elements[k].next != null ==> elements[k].next in elements
      ensures elements[k].prev != null ==> elements[k].prev in elements
      ensures elements[k].next != elements[k] && elements[k].prev != elements[k]
      ensures (elements[k] == head <==> k == 0) && (elements[k] == tail <==> k == |elements| - 1)
    {
      assert elements[k] in elements && InPlace(LinksNow(), elements, k);
      if k > 0 { assert Differ(elements, k - 1, k) && Differ(elements, 0, k); }
      if k < |elements| - 1 { assert Differ(elements, k, k + 1); }
      if k < |elements| - 1 { assert Differ(elements, k, |elements| - 1); }
    }

    lemma NextBeside(forward: bool, k: nat)
      requires Valid() && k <= |elements| && Beside(forward, elements, k) != null
      ensures var cur := Beside(forward, elements, k);
              cur in elements && (if forward then cur.next else cur.prev) ==
                  Beside(forward, elements, if forward then k + 1 else k - 1)
    {
      Neighbours(if forward then k else k - 1);
    }

    method Prepend(e: Element<T>)
      requires Valid() && e !in elements
      modifies this, e, elements
      ensures Valid() && elements == Inserted(old(elements), 0, e)
    {
      ghost var s, m := elements, LinksNow();
      if s != [] { Neighbours(0); }
      if head == null {
        head, tail := e, e;
        e.next, e.prev := null, null;
      } else {
        e.next, e.prev := head, null;
        head.prev := e;
        head := e;
      }
      size := size + 1;
      elements := Inserted(s, 0, e);
      JoinHolds(m, s, 0, e);
    }

    method Append(e: Element<T>)
      requires Valid() && e !in elements
      modifies this, e, elements
      ensures Valid() && elements == Inserted(old(elements), |old(elements)|, e)
    {
      ghost var s, m := elements, LinksNow();
      if s != [] { Neighbours(|s| - 1); }
      assert tail != null ==> tail in elements;
      if head == null {
        head, tail := e, e;
        e.next, e.prev := null, null;
      } else {
        e.next, e.prev := null, tail;
        tail.next := e;
        tail := e;
      }
      size := size + 1;
      elements := Inserted(s, |s|, e);
      JoinHolds(m, s, |s|, e);
    }

    method InsertAfter(cur: Element<T>, ins: Element<T>, ghost k: nat)
      requires Valid() && ins !in elements && 0 < k <= |elements| && elements[k - 1] == cur
      modifies this, ins, elements
      ensures Valid() && elements == Inserted(old(elements), k, ins)
    {
      ghost var s, m := elements, LinksNow();
      Neighbours(k - 1);
      ins.next, ins.prev := cur.next, cur;
      if cur.next == null {
        tail := ins;
      } else {
        cur.next.prev := ins;
      }
      cur.next := ins;
      size := size + 1;
      elements := Inserted(s, k, ins);
      JoinHolds(m, s, k, ins);
    }

    method InsertBefore(cur: Element<T>, ins: Element<T>, ghost k: nat)
      requires Valid() && ins !in elements && k < |elements| && elements[k] == cur
      modifies this, ins, elements
      ensures Valid() && elements == Inserted(old(elements), k, ins)
    {
      ghost var s, m := elements, LinksNow();
      Neighbours(k);
      ins.next, ins.prev := cur, cur.prev;
      if cur.prev == null {
        head := ins;
      } else {
        cur.prev.next := ins;
      }
      cur.prev := ins;
      size := size + 1;
      elements := Inserted(s, k, ins);
      JoinHolds(m, s, k, ins);
    }

    method Delete(e: Element<T>, ghost k: nat)
      requires Valid() && k < |elements| && elements[k] == e
      modifies this, elements
      ensures Valid() && elements == Without(old(elements), k)
    {
      ghost var s, m := elements, LinksNow();
      Neighbours(k);
      if 0 < k < |s| - 1 { assert Differ(s, k - 1, k + 1); }
      if size == 1 {
        head, tail := null, null;
      } else if e == head {
        head := e.next;
        e.next.prev := null;
      } else if e == tail {
        tail := e.prev;
        e.prev.next := null;
      } else {
        e.prev.next := e.next;
        e.next.prev := e.prev;
      }
      size := size - 1;
      elements := Without(s, k);
      CloseHolds(m, s, k);
    }

    /** The traversal stands at the near end of `rest`; `done` is what it kept behind it. */
    ghost predicate Standing(forward: bool, done: seq<Element<T>>, rest: seq<Element<T>>, cur: Element?<T>)
      reads this
    {
      elements == Along(forward, done, rest) && cur == NearOrNull(forward, rest)
    }

    /** Where element `cur` stands, and what the traversal's next pointer is. */
    lemma Stands(forward: bool, done: seq<Element<T>>, rest: seq<Element<T>>, cur: Element<T>) returns (k: nat)
      requires Valid() && Standing(forward, done, rest, cur)
      ensures rest != [] && cur == NearEnd(forward, rest) && k < |elements| && elements[k] == cur && cur in elements
      ensures (if forward then cur.next else cur.prev) == NearOrNull(forward, Shorter(forward, rest))
      ensures Along(forward, done, rest) == Along(forward, Longer(forward, done, cur), Shorter(forward, rest))
      ensures Without(elements, k) == Along(forward, done, Shorter(forward, rest))
    {
      k := if forward then |done| else |rest| - 1;
      RestAlong(forward, done, rest);
      Neighbours(k);
    }

    /** Calls back for every element in one direction, deleting those answered with 1, until
        another answer than that and 0; the last answer is returned. */
    method Reduce(forward: bool, fn: T -> int) returns (rv: int, ghost visited: seq<Element<T>>)
      requires Valid()
      modifies this, elements
      ensures Valid() && Outcome(elements, visited, rv) == Sweep(forward, old(elements), fn, 0)
    {
      rv, visited := 0, [];
      var cur := if forward then head else tail;
      ghost var s, done: seq<Element<T>>, rest := elements, [], elements;
      SweepStarts(forward, s, fn);
      while cur != null
        invariant Valid() && Standing(forward, done, rest, cur) && (forall e :: e in elements ==> e in s)
        invariant Swept(forward, s, fn, done, rest, visited, rv)
        decreases |rest|
      {
        ghost var k := Stands(forward, done, rest, cur);
        ghost var e: Element<T> := cur;
        var answer := fn(cur.value);
        if answer != 0 {
          if answer == DeleteIt {
            var next := if forward then cur.next else cur.prev;
            SweepDeletes(forward, s, fn, done, rest, visited, rv);
            DeleteIn(cur, k, s);
            rv, visited := answer, visited + [e];
            cur, rest := next, Shorter(forward, rest);
          } else {
            SweepStops(forward, s, fn, done, rest, visited, rv);
            rv, visited := answer, visited + [e];
            return;
          }
        } else {
          SweepKeeps(forward, s, fn, done, rest, visited, rv);
          rv, visited := answer, visited + [e];
          cur := if forward then cur.next else cur.prev;
          done, rest := Longer(forward, done, e), Shorter(forward, rest);
        }
      }
      SweepEnds(forward, s, fn, done, rest, visited, rv);
    }

    /** A deletion in a list whose elements are among `all`. */
    method DeleteIn(e: Element<T>, ghost k: nat, ghost all: seq<Element<T>>)
      requires Valid() && k < |elements| && elements[k] == e && forall x :: x in elements ==> x in all
      modifies this, all
      ensures Valid() && elements == Without(old(elements), k) && forall x :: x in elements ==> x in all
    {
      assert forall j :: 0 <= j < |elements| ==> elements[j] in elements && elements[j] in all;
      Delete(e, k);
    }

    /** Puts `e` in at `k`, beside `cur`, or at the far end if that is missing. */
    method InsertAt(e: Element<T>, forward: bool, cur: Element?<T>, ghost k: nat)
      requires Valid() && e !in elements && k <= |elements| && cur == Beside(forward, elements, k)
      requires cur == null ==> k == if forward then |elements| else 0
      modifies this, e, elements
      ensures Valid() && elements == Inserted(old(elements), k, e)
    {
      if cur == null {
        if forward {
          Append(e);
        } else {
          Prepend(e);
        }
      } else if forward {
        InsertBefore(cur, e, k);
      } else {
        InsertAfter(cur, e, k);
      }
    }

    /** Offers `e` a place before each element, from the head, or after each, from the
        tail, and last at the far end; the first answer other than 0 decides. */
    method InsertReduce(e: Element<T>, forward: bool, fn: Option<T> -> int) returns (rv: int)
      requires Valid() && e !in elements
      modifies this, e, elements
      ensures Valid()
      ensures var k := Place(forward, old(elements), fn);
              var answer := PlaceAnswer(forward, old(elements), fn);
              && elements == (if answer == InsertHere then Inserted(old(elements), k, e) else old(elements))
              && rv == if answer == InsertHere then 0 else answer
    {
      rv := 0;
      var cur := if forward then head else tail;
      ghost var k: nat := if forward then 0 else |elements|;
      SearchStarts(forward, elements, fn);
      while cur != null
        invariant Valid() && elements == old(elements)
        invariant k <= |elements| && Searched(forward, elements, fn, k) && cur == Beside(forward, elements, k)
        decreases if forward then |elements| - k else k
      {
        SearchFinds(forward, elements, fn, k);
        rv := fn(Some(cur.value));
        if rv != 0 {
          if rv == InsertHere {
            InsertAt(e, forward, cur, k);
            rv := 0;
          }
          return;
        }
        SearchGoesOn(forward, elements, fn, k);
        NextBeside(forward, k);
        cur := if forward then cur.next else cur.prev;
        k := if forward then k + 1 else k - 1;
      }
      SearchFinds(forward, elements, fn, k);
      rv := fn(None);
      if rv == InsertHere {
        InsertAt(e, forward, null, k);
        rv := 0;
      }
    }
  }
}
