/**
 The ring-buffer queue of src/cf_queue.c: a growing array, a read and a write offset
 into it taken modulo its size, and deletion in place.
 The queue is proved to be a sequence of elements in first-in first-out order.

 Offsets are 32-bit in the program; here they are naturals with a proved bound, so no
 offset ever reaches the width.  Locks, waiting and allocation failure are not modelled.
 */
module RingQueue {
  import opened Common

  /** Elements in a new queue, and by how much a full one grows. */
  const AllocStep := 64

  /** Up to this capacity the offsets cannot reach bit 30 unnoticed. */
  const MaxAlloc := 0x2000_0000

  const UnwrapAt := 0x4000_0000

  // ---------------------------------------------------------------------------
  // Rings
  // ---------------------------------------------------------------------------

  /** The cell `k` places after cell `r` in a ring of `n` cells. */
  function Cell(n: nat, r: nat, k: nat): (c: nat)
    requires r < n && k <= n
  {
    if r + k < n then r + k else r + k - n
  }

  /** The `len` elements that start at cell `r`. */
  ghost function Ring<T>(cells: seq<T>, r: nat, len: nat): (s: seq<T>)
    requires r < |cells| && len <= |cells|
    ensures |s| == len
  {
    seq(len, k requires 0 <= k < len => cells[Cell(|cells|, r, k)])
  }

  /** The `%` of the element macro is a cell of the ring, whatever the offset. */
  lemma OffsetCell(n: nat, read: nat, k: nat)
    requires 0 < n && k <= n
    ensures (read + k) % n == Cell(n, read % n, k)
  {
    ModUnique(read + k, n, if read % n + k < n then read / n else read / n + 1, Cell(n, read % n, k));
  }

  lemma ModUnique(x: int, n: nat, q: int, r: nat)
    requires r < n && x == q * n + r
    ensures x % n == r && x / n == q
  {
    var d := q - x / n;
    assert d * n == x % n - r;
    Multiple(d, n);
  }

  lemma Multiple(d: int, n: int)
    requires n >= 0
    ensures d >= 1 ==> d * n >= n
    ensures d <= -1 ==> d * n <= -n
  {
    if d >= 1 {
      assert d * n == n + (d - 1) * n;
    } else if d <= -1 {
      assert d * n == -n + (d + 1) * n;
    }
  }

  lemma Straightened<T>(cells: seq<T>, grown: seq<T>, r: nat)
    requires r < |cells| < |grown|
    requires forall k :: 0 <= k < |cells| - r ==> grown[k] == cells[r + k]
    requires forall k :: 0 <= k < r ==> grown[|cells| - r + k] == cells[k]
    ensures Ring(grown, 0, |cells|) == Ring(cells, r, |cells|)
  {
    forall k | 0 <= k < |cells|
      ensures grown[k] == cells[Cell(|cells|, r, k)]
    {
      if k >= |cells| - r { assert grown[|cells| - r + (k - (|cells| - r))] == cells[k - (|cells| - r)]; }
    }
  }

  lemma HeadDropped<T>(c: seq<T>, r: nat, size: nat)
    requires r < |c| && 0 < size <= |c|
    ensures Ring(c, Cell(|c|, r, 1), size - 1) == Without(Ring(c, r, size), 0)
  {
    var next := Cell(|c|, r, 1);
    assert forall i {:trigger Cell(|c|, next, i)} :: 0 <= i < size - 1 ==> Cell(|c|, next, i) == Cell(|c|, r, i + 1);
  }

  /** How the remainders of the offsets lie for element `k` of `size`. */
  lemma Layout(n: nat, read: nat, size: nat, k: nat)
    requires k < size <= n
    ensures (read + k) % n == Cell(n, read % n, k)
    ensures (read + k) % n == read % n <==> k == 0
    ensures (read + size) % n == Cell(n, read % n, size)
    ensures (read + size) % n != 0 ==> ((read + k) % n == (read + size) % n - 1 <==> k == size - 1)
    ensures k != 0 ==> ((read + k) % n > read % n <==> read % n + k < n)
  {
    OffsetCell(n, read, k);
    OffsetCell(n, read, size);
  }

  /** `d` is `c` with the cells `lo` to `hi - 1` moved one up, or down to `lo - 1`. */
  ghost predicate MovedUp<T>(c: seq<T>, d: seq<T>, lo: nat, hi: nat)
    requires lo <= hi < |c|
  {
    && |d| == |c|
    && (forall j :: lo <= j < hi ==> d[j + 1] == c[j])
    && (forall j :: 0 <= j < |c| && !(lo < j <= hi) ==> d[j] == c[j])
  }

  ghost predicate MovedDown<T>(c: seq<T>, d: seq<T>, lo: nat, hi: nat)
    requires 0 < lo <= hi <= |c|
  {
    && |d| == |c|
    && (forall j :: lo <= j < hi ==> d[j - 1] == c[j])
    && (forall j :: 0 <= j < |c| && !(lo - 1 <= j < hi - 1) ==> d[j] == c[j])
  }

  /** Moving the elements before the deleted one up, and the head with them. */
  lemma MoveUpDeletes<T>(c: seq<T>, d: seq<T>, r: nat, size: nat, k: nat)
    requires r < |c| && 0 < k < size <= |c| && r + k < |c| && MovedUp(c, d, r, r + k)
    ensures Ring(d, r + 1, size - 1) == Without(Ring(c, r, size), k)
  {
    forall i | 0 <= i < size - 1
      ensures Ring(d, r + 1, size - 1)[i] == Without(Ring(c, r, size), k)[i]
    {
      if i < k { assert d[(r + i) + 1] == c[r + i]; }
    }
  }

  /** Moving the elements after the deleted one down, and the tail with them. */
  lemma MoveDownDeletes<T>(c: seq<T>, d: seq<T>, r: nat, size: nat, k: nat)
    requires r < |c| && 0 < k < size <= |c| && |c| <= r + k
    requires MovedDown(c, d, r + k + 1 - |c|, r + size - |c|)
    ensures Ring(d, r, size - 1) == Without(Ring(c, r, size), k)
  {
    var n := |c|;
    forall i | 0 <= i < size - 1
      ensures Ring(d, r, size - 1)[i] == Without(Ring(c, r, size), k)[i]
    {
      if i >= k { assert d[(r + i + 1 - n) - 1] == c[r + i + 1 - n]; }
    }
  }

  // ---------------------------------------------------------------------------
  // Deleting every match
  // ---------------------------------------------------------------------------

  /** The elements other than `x`, in order. */
  ghost function Rest<T>(s: seq<T>, x: T): (t: seq<T>)
    ensures x !in t
  {
    if s == [] then [] else if s[0] == x then Rest(s[1..], x) else [s[0]] + Rest(s[1..], x)
  }

  /** What a sweep leaves that passes over the element after each one it removes. */
  ghost function Skipping<T>(s: seq<T>, x: T): (t: seq<T>)
  {
    if s == [] then []
    else if s[0] != x then [s[0]] + Skipping(s[1..], x)
    else if |s| == 1 then []
    else [s[1]] + Skipping(s[2..], x)
  }

  /** What deleting every `x` leaves of a queue whose first `f` elements lie before the
      end of the array and whose others lie at its start. */
  ghost function Swept<T>(s: seq<T>, f: nat, x: T): (t: seq<T>)
    requires f <= |s|
  {
    if Rest(s[..f], x) == [] then Rest(s[f..], x) else Rest(s[..f], x) + Skipping(s[f..], x)
  }

  ghost predicate TwoInARow<T>(s: seq<T>, x: T)
  {
    exists k :: 0 < k < |s| && s[k - 1] == x && s[k] == x
  }

  lemma {:induction false} RestIsFilter<T>(s: seq<T>, x: T)
    ensures multiset(Rest(s, x)) == multiset(s)[x := 0]
  {
    if s != [] {
      assert s == [s[0]] + s[1..];
      RestIsFilter(s[1..], x);
    }
  }

  lemma {:induction false} RestAppend<T>(s: seq<T>, t: seq<T>, x: T)
    ensures Rest(s + t, x) == Rest(s, x) + Rest(t, x)
  {
    if s == [] {
      assert s + t == t;
    } else {
      assert (s + t)[1..] == s[1..] + t;
      RestAppend(s[1..], t, x);
    }
  }

  lemma RestEmpty<T>(s: seq<T>, x: T)
    ensures Rest(s, x) == [] <==> forall k :: 0 <= k < |s| ==> s[k] == x
  {
    if s != [] {
      RestEmpty(s[1..], x);
      if s[0] == x {
        assert (forall k :: 0 <= k < |s| ==> s[k] == x) <==> (forall k :: 0 <= k < |s[1..]| ==> s[1..][k] == x) by {
          if forall k :: 0 <= k < |s| ==> s[k] == x {
            assert forall k :: 0 <= k < |s[1..]| ==> s[1..][k] == s[k + 1];
          }
          if forall k :: 0 <= k < |s[1..]| ==> s[1..][k] == x {
            forall k | 0 <= k < |s| ensures s[k] == x { if k > 0 { assert s[k] == s[1..][k - 1]; } }
          }
        }
      }
    }
  }

  lemma TwoInARowTail<T>(s: seq<T>, x: T, from: nat)
    requires from <= |s| && TwoInARow(s[from..], x)
    ensures TwoInARow(s, x)
  {
    var k :| 0 < k < |s[from..]| && s[from..][k - 1] == x && s[from..][k] == x;
    assert s[from + k] == x && s[from + k - 1] == x;
  }

  /** The sweep leaves a match exactly when two matches were neighbours. */
  lemma {:induction false} SkippingMisses<T>(s: seq<T>, x: T)
    ensures x in Skipping(s, x) <==> TwoInARow(s, x)
  {
    if |s| < 2 {
    } else if s[0] != x {
      SkippingMisses(s[1..], x);
      if TwoInARow(s[1..], x) { TwoInARowTail(s, x, 1); }
      if k :| 0 < k < |s| && s[k - 1] == x && s[k] == x {
        assert s[1..][k - 2] == x && s[1..][k - 1] == x;
      }
    } else if s[1] == x {
      assert s[1 - 1] == x && s[1] == x;
    } else {
      SkippingMisses(s[2..], x);
      if TwoInARow(s[2..], x) { TwoInARowTail(s, x, 2); }
      if k :| 0 < k < |s| && s[k - 1] == x && s[k] == x {
        assert s[2..][k - 3] == x && s[2..][k - 2] == x;
      }
    }
  }

  lemma RestOfParts<T>(s: seq<T>, f: nat, x: T)
    requires f <= |s|
    ensures Rest(s, x) == Rest(s[..f], x) + Rest(s[f..], x)
  {
    assert s == s[..f] + s[f..];
    RestAppend(s[..f], s[f..], x);
  }

  /** Deleting all matches really deletes them all, exactly unless something is kept
      before the end of the array and two matches are neighbours after it. */
  lemma SweepsAll<T>(s: seq<T>, f: nat, x: T)
    requires f <= |s|
    ensures x !in Swept(s, f, x) <==> (forall k :: 0 <= k < f ==> s[k] == x) || !TwoInARow(s[f..], x)
  {
    RestEmpty(s[..f], x);
    SkippingMisses(s[f..], x);
    assert (forall k :: 0 <= k < f ==> s[k] == x) <==> (forall k :: 0 <= k < f ==> s[..f][k] == x);
  }

  lemma SweptIsRest<T>(s: seq<T>, f: nat, x: T)
    requires f <= |s| && x !in Swept(s, f, x)
    ensures Swept(s, f, x) == Rest(s, x)
    ensures multiset(Swept(s, f, x)) == multiset(s)[x := 0]
  {
    RestIsFilter(s, x);
    RestOfParts(s, f, x);
    if Rest(s[..f], x) != [] { SkippingIsRest(s[f..], x); }
  }

  function Repeated<T>(x: T, m: nat): (s: seq<T>)
    ensures |s| == m
  {
    seq(m, _ => x)
  }

  /** Of each run of neighbouring matches the sweep leaves every second one. */
  lemma {:induction false} EveryOtherStays<T>(x: T, m: nat, t: seq<T>)
    requires t == [] || t[0] != x
    ensures Skipping(Repeated(x, m) + t, x) == Repeated(x, m / 2) + Skipping(t, x)
  {
    var s := Repeated(x, m) + t;
    if m == 0 {
      assert s == t && Repeated(x, 0) + Skipping(t, x) == Skipping(t, x);
    } else if m == 1 {
      assert s[0] == x && s[1..] == t;
      if t != [] { assert s[1] == t[0] && s[2..] == t[1..]; }
      assert Repeated(x, 0) + Skipping(t, x) == Skipping(t, x);
    } else {
      assert s[0] == x && s[1] == x && s[2..] == Repeated(x, m - 2) + t;
      EveryOtherStays(x, m - 2, t);
      assert Repeated(x, m / 2) == [x] + Repeated(x, (m - 2) / 2);
      Regrouped([x], Repeated(x, (m - 2) / 2), Skipping(t, x));
    }
  }

  lemma Regrouped<T>(a: seq<T>, b: seq<T>, c: seq<T>)
    ensures (a + b) + c == a + (b + c)
  {
  }

  lemma {:induction false} SkippingIsRest<T>(s: seq<T>, x: T)
    requires x !in Skipping(s, x)
    ensures Skipping(s, x) == Rest(s, x)
  {
    if s == [] || |s| == 1 {
    } else if s[0] != x {
      SkippingIsRest(s[1..], x);
    } else {
      assert s[1..][1..] == s[2..];
      SkippingIsRest(s[2..], x);
    }
  }

  /** Whatever is passed over, nothing but matches is removed and the order stays. */
  lemma {:induction false} SkippingKeepsOthers<T>(s: seq<T>, x: T)
    ensures Rest(Skipping(s, x), x) == Rest(s, x)
  {
    if |s| < 2 {
    } else if s[0] != x {
      SkippingKeepsOthers(s[1..], x);
      assert Skipping(s, x)[1..] == Skipping(s[1..], x);
    } else {
      SkippingKeepsOthers(s[2..], x);
      assert Skipping(s, x)[1..] == Skipping(s[2..], x);
      assert s[1..][1..] == s[2..];
    }
  }

  lemma {:induction false} RestOfRest<T>(s: seq<T>, x: T)
    requires x !in s
    ensures Rest(s, x) == s
  {
    if s != [] { RestOfRest(s[1..], x); }
  }

  lemma SweepKeepsOthers<T>(s: seq<T>, f: nat, x: T)
    requires f <= |s|
    ensures Rest(Swept(s, f, x), x) == Rest(s, x)
  {
    RestOfParts(s, f, x);
    RestOfRest(Rest(s[..f], x), x);
    RestOfRest(Rest(s[f..], x), x);
    RestAppend(Rest(s[..f], x), Skipping(s[f..], x), x);
    SkippingKeepsOthers(s[f..], x);
  }

  /** What the sweep leaves of a 1 before the end of the array and two 7s after it. */
  lemma SweepLeavesAMatch()
    ensures Swept([1, 7, 7], 1, 7) == [1, 7]
  {
    var s := [1, 7, 7];
    assert s[..1] == [1] && s[1..] == [7, 7];
    assert [1][1..] == [];
    assert Rest([1], 7) == [1];
    assert [7, 7][2..] == [];
    assert Skipping([7, 7], 7) == [7];
  }

  // ---------------------------------------------------------------------------
  // The sweep, element by element
  // ---------------------------------------------------------------------------

  /** `f` of `len` elements fit between offset `start` and the end of the array. */
  ghost predicate IsFirst(f: nat, len: nat, n: nat, start: nat)
    requires 0 < n
  {
    f == if len <= n - start % n then len else n - start % n
  }

  /** After passing the first `j` elements of `s` the queue holds `kept` and then the
      others. */
  ghost predicate Sweeping<T>(s: seq<T>, f: nat, x: T, j: nat, kept: seq<T>)
    requires f <= |s| && j <= |s|
  {
    if j <= f || Rest(s[..f], x) == [] then
      kept == Rest(s[..j], x)
    else
      Rest(s[..f], x) <= kept && kept + Skipping(s[j..], x) == Swept(s, f, x)
  }

  /** How many of the removed elements left at the head. */
  ghost function Dropped<T>(s: seq<T>, f: nat, x: T, j: nat, kept: seq<T>): int
    requires f <= |s|
  {
    if j <= f || Rest(s[..f], x) == [] then j - |kept| else f - |Rest(s[..f], x)|
  }

  lemma {:induction false} RestIsShorter<T>(s: seq<T>, x: T)
    ensures |Rest(s, x)| <= |s|
  {
    if s != [] { RestIsShorter(s[1..], x); }
  }

  lemma RestOneMore<T>(s: seq<T>, x: T, j: nat)
    requires j < |s|
    ensures Rest(s[..j + 1], x) == Rest(s[..j], x) + if s[j] == x then [] else [s[j]]
  {
    assert s[..j + 1] == s[..j] + [s[j]];
    RestAppend(s[..j], [s[j]], x);
    assert [s[j]][1..] == [];
  }

  lemma SweepPasses<T>(s: seq<T>, f: nat, x: T, j: nat, kept: seq<T>)
    requires f <= |s| && j < |s| && Sweeping(s, f, x, j, kept) && s[j] != x
    ensures Sweeping(s, f, x, j + 1, kept + [s[j]])
    ensures Dropped(s, f, x, j + 1, kept + [s[j]]) == Dropped(s, f, x, j, kept)
  {
    RestOneMore(s, x, j);
    assert s[j..][1..] == s[j + 1..];
  }

  /** A removal at the head, or of a last element. */
  lemma SweepRemoves<T>(s: seq<T>, f: nat, x: T, j: nat, kept: seq<T>)
    requires f <= |s| && j < |s| && Sweeping(s, f, x, j, kept) && s[j] == x
    requires j < f || Rest(s[..f], x) == [] || j == |s| - 1
    ensures Sweeping(s, f, x, j + 1, kept)
    ensures j < f || Rest(s[..f], x) == [] ==> Dropped(s, f, x, j + 1, kept) == Dropped(s, f, x, j, kept) + 1
  {
    RestOneMore(s, x, j);
    assert s[j..][1..] == s[j + 1..];
  }

  /** A removal that moves the rest down, under the loop index. */
  lemma SweepSkips<T>(s: seq<T>, f: nat, x: T, j: nat, kept: seq<T>)
    requires f <= j < |s| - 1 && Sweeping(s, f, x, j, kept) && s[j] == x && Rest(s[..f], x) != []
    ensures Sweeping(s, f, x, j + 2, kept + [s[j + 1]])
    ensures Dropped(s, f, x, j + 2, kept + [s[j + 1]]) == Dropped(s, f, x, j, kept)
  {
    assert s[j..][2..] == s[j + 2..] && s[j..][1] == s[j + 1];
    Regroup(kept, s[j + 1], Skipping(s[j + 2..], x));
  }

  lemma Regroup<T>(a: seq<T>, x: T, b: seq<T>)
    ensures a + ([x] + b) == (a + [x]) + b
  {
  }

  lemma SweepDone<T>(s: seq<T>, f: nat, x: T, kept: seq<T>)
    requires f <= |s| && Sweeping(s, f, x, |s|, kept)
    ensures kept == Swept(s, f, x)
  {
    RestOfParts(s, f, x);
    assert s[..|s|] == s;
  }

  /** Element `j` is moved over from the tail exactly if it lies past the end of the
      array and something before the end is kept. */
  lemma SweepWraps<T>(s: seq<T>, f: nat, x: T, j: nat, kept: seq<T>, n: nat, start: nat)
    requires j < |s| <= n && IsFirst(f, |s|, n, start)
    requires Sweeping(s, f, x, j, kept)
    ensures 0 <= Dropped(s, f, x, j, kept) <= n
    ensures (|kept| != 0 && n - (start + Dropped(s, f, x, j, kept)) % n <= |kept|) <==>
              (f <= j && Rest(s[..f], x) != [])
  {
    RestIsShorter(s[..j], x);
    RestIsShorter(s[..f], x);
    if f <= j {
      RestOfParts(s[..j], f, x);
      assert s[..j][..f] == s[..f];
      RestIsShorter(s[..j][f..], x);
    }
    OffsetCell(n, start, Dropped(s, f, x, j, kept));
  }

  /** Where the sweep stands after removing element `j`. */
  ghost function NextAt(len: nat, j: nat, pulls: bool): nat
  {
    if pulls && j + 1 < len then j + 2 else j + 1
  }

  ghost function NextKept<T>(s: seq<T>, j: nat, kept: seq<T>, pulls: bool): seq<T>
  {
    if pulls && j + 1 < |s| then kept + [s[j + 1]] else kept
  }

  lemma SweepStep<T>(s: seq<T>, f: nat, x: T, j: nat, kept: seq<T>, n: nat, start: nat, pulls: bool, tail: bool)
    requires j < |s| <= n && IsFirst(f, |s|, n, start)
    requires Sweeping(s, f, x, j, kept) && s[j] == x
    requires pulls <==> |kept| != 0 && (n - (start + Dropped(s, f, x, j, kept)) % n <= |kept| || (j == |s| - 1 && tail))
    ensures Sweeping(s, f, x, NextAt(|s|, j, pulls), NextKept(s, j, kept, pulls))
    ensures NextAt(|s|, j, pulls) < |s| ==>
              Dropped(s, f, x, NextAt(|s|, j, pulls), NextKept(s, j, kept, pulls))
              == Dropped(s, f, x, j, kept) + if pulls then 0 else 1
  {
    SweepWraps(s, f, x, j, kept, n, start);
    if pulls && j + 1 < |s| {
      SweepSkips(s, f, x, j, kept);
    } else {
      SweepRemoves(s, f, x, j, kept);
    }
  }

  lemma RemovedNext<T>(s: seq<T>, j: nat, kept: seq<T>, pulls: bool)
    requires j < |s|
    ensures Without(kept + s[j..], |kept|) == NextKept(s, j, kept, pulls) + s[NextAt(|s|, j, pulls)..]
  {
    assert Without(kept + s[j..], |kept|) == kept + s[j + 1..];
    if j + 1 < |s| { assert s[j + 1..] == [s[j + 1]] + s[j + 2..]; }
  }

  lemma PassedNext<T>(s: seq<T>, j: nat, kept: seq<T>)
    requires j < |s|
    ensures kept + s[j..] == kept + [s[j]] + s[j + 1..]
  {
  }

  /** Where `x` first stands in `s`, or past the end. */
  ghost function First<T>(s: seq<T>, x: T): (k: nat)
    ensures k <= |s| && x !in s[..k] && (k < |s| ==> s[k] == x)
  {
    if s == [] || s[0] == x then 0
    else
      assert forall k :: 0 <= k < |s[1..]| ==> s[..k + 1] == [s[0]] + s[1..][..k];
      1 + First(s[1..], x)
  }

  lemma {:induction false} FirstIs<T>(s: seq<T>, x: T, j: nat)
    requires j < |s| && s[j] == x && x !in s[..j]
    ensures First(s, x) == j
  {
    if j > 0 {
      assert s[..j] == [s[0]] + s[1..][..j - 1];
      FirstIs(s[1..], x, j - 1);
    }
  }

  /** What `Delete` leaves: all but the first match, or what the sweep leaves. */
  ghost function Deleted<T>(s: seq<T>, f: nat, x: T, onlyOne: bool): seq<T>
    requires f <= |s|
  {
    if x !in s then s else if onlyOne then Without(s, First(s, x)) else Swept(s, f, x)
  }

  /** With `onlyOne` exactly the first match goes. */
  lemma DeletesTheFirst<T>(s: seq<T>, f: nat, x: T)
    requires f <= |s|
    ensures x !in s ==> Deleted(s, f, x, true) == s
    ensures x in s ==> exists k :: 0 <= k < |s| && s[k] == x && x !in s[..k]
                                   && Deleted(s, f, x, true) == s[..k] + s[k + 1..]
  {
    if x in s {
      var k := First(s, x);
      assert s[..|s|] == s;
      assert s[k] == x && x !in s[..k] && Deleted(s, f, x, true) == s[..k] + s[k + 1..];
    }
  }

  /** What the loop of `Delete` knows of the elements it has passed. */
  ghost predicate Searched<T>(s: seq<T>, x: T, j: nat, kept: seq<T>, found: bool)
    requires j <= |s|
  {
    found == (x in s[..j]) && (!found ==> kept == s[..j])
  }

  lemma SearchHits<T>(s: seq<T>, f: nat, x: T, j: nat, kept: seq<T>)
    requires f <= |s| && j < |s| && Searched(s, x, j, kept, false) && s[j] == x
    ensures Without(kept + s[j..], |kept|) == Deleted(s, f, x, true)
  {
    FirstIs(s, x, j);
    assert kept + s[j..] == s;
  }

  lemma SearchFound<T>(s: seq<T>, x: T, j: nat, next: nat, left: seq<T>)
    requires j < next <= |s| && s[j] == x
    ensures Searched(s, x, next, left, true)
  {
    assert s[..next][j] == x;
  }

  lemma SearchPasses<T>(s: seq<T>, x: T, j: nat, kept: seq<T>, found: bool)
    requires j < |s| && Searched(s, x, j, kept, found) && s[j] != x
    ensures Searched(s, x, j + 1, kept + [s[j]], found)
  {
    assert s[..j + 1] == s[..j] + [s[j]];
  }

  lemma SearchEnds<T>(s: seq<T>, f: nat, x: T, kept: seq<T>, found: bool, onlyOne: bool)
    requires f <= |s| && Searched(s, x, |s|, kept, found) && kept == Swept(s, f, x) && (onlyOne ==> !found)
    ensures found == (x in s) && kept == Deleted(s, f, x, onlyOne)
  {
    assert s[..|s|] == s;
  }

  // ---------------------------------------------------------------------------
  // The queue
  // ---------------------------------------------------------------------------

  /** The elements between two offsets. */
  ghost function Between<T>(c: seq<T>, read: nat, write: nat): (s: seq<T>)
    requires 0 < |c| && read <= write <= read + |c|
    ensures |s| == write - read
  {
    Ring(c, read % |c|, write - read)
  }

  // What each change of cells or offsets does to the elements.

  lemma Stored<T>(c: seq<T>, read: nat, write: nat, x: T)
    requires 0 < |c| && read <= write < read + |c|
    ensures Between(c[write % |c| := x], read, write + 1) == Between(c, read, write) + [x]
  {
    OffsetCell(|c|, read, write - read);
    RingStored(c, read % |c|, write - read, x);
  }

  lemma RingStored<T>(c: seq<T>, r: nat, size: nat, x: T)
    requires r < |c| && size < |c|
    ensures Ring(c[Cell(|c|, r, size) := x], r, size + 1) == Ring(c, r, size) + [x]
  {
  }

  lemma Unwrapped<T>(c: seq<T>, read: nat, write: nat)
    requires 0 < |c| && read <= write <= read + |c|
    ensures Between(c, read % |c|, read % |c| + (write - read)) == Between(c, read, write)
  {
    ModUnique(read % |c|, |c|, 0, read % |c|);
  }

  lemma Grown<T>(c: seq<T>, grown: seq<T>, read: nat)
    requires 0 < |c| < |grown|
    requires forall k :: 0 <= k < |c| - read % |c| ==> grown[k] == c[read % |c| + k]
    requires forall k :: 0 <= k < read % |c| ==> grown[|c| - read % |c| + k] == c[k]
    ensures Between(grown, 0, |c|) == Between(c, read, read + |c|)
  {
    Straightened(c, grown, read % |c|);
    ModUnique(0, |grown|, 0, 0);
  }

  lemma HeadTaken<T>(c: seq<T>, read: nat, write: nat)
    requires 0 < |c| && read < write <= read + |c|
    ensures Between(c, read, write)[0] == c[read % |c|]
    ensures Between(c, read + 1, write) == Without(Between(c, read, write), 0) == Between(c, read, write)[1..]
  {
    OffsetCell(|c|, read, 1);
    HeadDropped(c, read % |c|, write - read);
  }

  lemma TailTaken<T>(c: seq<T>, read: nat, write: nat)
    requires 0 < |c| && read < write <= read + |c|
    ensures Between(c, read, write - 1) == Without(Between(c, read, write), write - 1 - read)
  {
  }

  lemma HeadPulled<T>(c: seq<T>, d: seq<T>, read: nat, write: nat, index: nat)
    requires 0 < |c| && read < index < write <= read + |c| && read % |c| + (index - read) < |c|
    requires MovedUp(c, d, read % |c|, read % |c| + (index - read))
    ensures Between(d, read + 1, write) == Without(Between(c, read, write), index - read)
  {
    var head, next := read % |c|, (read + 1) % |d|;
    OffsetCell(|c|, read, 1);
    assert next == Cell(|c|, head, 1);
    MoveUpDeletes(c, d, head, write - read, index - read);
    assert Between(d, read + 1, write) == Ring(d, next, write - (read + 1));
  }

  lemma TailPulled<T>(c: seq<T>, d: seq<T>, read: nat, write: nat, index: nat)
    requires 0 < |c| && read < index < write <= read + |c| && |c| <= read % |c| + (index - read)
    requires MovedDown(c, d, read % |c| + (index - read) + 1 - |c|, read % |c| + (write - read) - |c|)
    ensures Between(d, read, write - 1) == Without(Between(c, read, write), index - read)
  {
    MoveDownDeletes(c, d, read % |c|, write - read, index - read);
  }

  /** Where deleting the element at `index` moves the rest: the tail back, or the head
      forward. */
  ghost predicate PullsTail(n: nat, read: nat, write: nat, index: nat)
    requires 0 < n && read <= index < write
  {
    index != read && (n - read % n <= index - read || (index == write - 1 && write % n != 0))
  }

  /** The branches of the in-place deletion. */
  lemma DeletionCases(n: nat, read: nat, write: nat, index: nat)
    requires read <= index < write <= read + n
    ensures var i, head, tail, pulls := index % n, read % n, write % n, PullsTail(n, read, write, index);
            && (i == head <==> index == read)
            && (i != head && tail != 0 && i == tail - 1 ==> index == write - 1 && pulls)
            && (i != head && !(tail != 0 && i == tail - 1) && i > head ==> i == head + (index - read) && !pulls)
            && (i != head && !(tail != 0 && i == tail - 1) && i <= head ==>
                  i == head + (index - read) - n && tail == head + (write - read) - n && pulls)
  {
    Layout(n, read, write - read, index - read);
  }

  /** The element at an offset. */
  lemma ReadAt<T>(c: seq<T>, read: nat, write: nat, i: nat)
    requires 0 < |c| && read <= i < write <= read + |c|
    ensures c[i % |c|] == Between(c, read, write)[i - read]
  {
    OffsetCell(|c|, read, i - read);
  }

  /** Elements before the end of an array of `n`, of those between two offsets. */
  ghost function FirstPartOf(n: nat, read: nat, write: nat): (f: nat)
    requires 0 < n && read <= write
    ensures f <= write - read && IsFirst(f, write - read, n, read)
  {
    if write - read <= n - read % n then write - read else n - read % n
  }

  /** A queue with contents `c` between two offsets, halfway through a sweep of `s`: at
      element `j`, offset `i`. */
  ghost predicate StandsAt<T>(c: seq<T>, read: nat, write: nat, s: seq<T>, f: nat, x: T, j: nat, kept: seq<T>,
                              start: nat, i: nat)
    requires f <= |s|
  {
    && j <= |s| && Sweeping(s, f, x, j, kept) && c == kept + s[j..]
    && (j < |s| ==> i == read + |kept| && read == start + Dropped(s, f, x, j, kept))
    && (j == |s| ==> write <= i)
  }

  /** Where the sweep stands when element `j`, a match, is deleted in place. */
  lemma StandsAfter<T>(c: seq<T>, read: nat, write: nat, s: seq<T>, f: nat, x: T, j: nat, kept: seq<T>, start: nat,
                       i: nat, n: nat)
    requires f <= |s| <= n && j < |s| && StandsAt(c, read, write, s, f, x, j, kept, start, i) && s[j] == x
    requires IsFirst(f, |s|, n, start) && |c| == write - read
    ensures i == read + |kept| < write && j < NextAt(|s|, j, PullsTail(n, read, write, i)) <= |s|
    ensures var pulls := PullsTail(n, read, write, i);
            StandsAt(Without(c, |kept|), if pulls then read else read + 1, if pulls then write - 1 else write,
                     s, f, x, NextAt(|s|, j, pulls), NextKept(s, j, kept, pulls), start, i + 1)
  {
    var pulls := PullsTail(n, read, write, i);
    SweepStep(s, f, x, j, kept, n, start, pulls, write % n != 0);
    RemovedNext(s, j, kept, pulls);
  }

  class Queue<T(0,==)> {
    var cells: array<T>
    var read: nat
    var write: nat

    ghost predicate Valid()
      reads this
    {
      && AllocStep <= cells.Length <= MaxAlloc
      && read <= write <= read + cells.Length
      && write < UnwrapAt
    }

    ghost function Contents(): (s: seq<T>)
      requires Valid()
      reads this, cells
      ensures |s| == write - read
    {
      Between(cells[..], read, write)
    }

    /** How many elements lie before the end of the array. */
    ghost function FirstPart(): (f: nat)
      requires Valid()
      reads this
      ensures f <= write - read
    {
      FirstPartOf(cells.Length, read, write)
    }

    constructor ()
      ensures Valid() && Contents() == [] && fresh(cells) && cells.Length == AllocStep && read == 0
    {
      cells := new T[AllocStep];
      read, write := 0, 0;
    }

    method Size() returns (n: nat)
      requires Valid()
      ensures n == |Contents()|
    {
      n := write - read;
    }

    /** The `resize` of a full queue. */
    method Grow(size: nat)
      requires Valid() && write - read == cells.Length < size <= MaxAlloc
      modifies this
      ensures Valid() && cells.Length == size && fresh(cells)
      ensures Contents() == old(Contents())
      ensures read == 0 && write == old(cells.Length)
    {
      var n := cells.Length;
      var r := read % n;
      var grown := new T[size];
      forall k | 0 <= k < n - r { grown[k] := cells[r + k]; }
      forall k | 0 <= k < r { grown[n - r + k] := cells[k]; }
      Grown(cells[..], grown[..], read);
      cells, read, write := grown, 0, n;
    }

    method Unwrap()
      requires AllocStep <= cells.Length <= MaxAlloc && read <= write <= read + cells.Length
      modifies this`read, this`write
      ensures Valid() && write - read == old(write - read) && read == old(read) % cells.Length
      ensures Contents() == Between(cells[..], old(read), old(write))
    {
      Unwrapped(cells[..], read, write);
      var size := write - read;
      read := read % cells.Length;
      write := read + size;
    }

    /** Growth past `MaxAlloc` elements is not modelled. */
    method Push(x: T)
      requires Valid() && (write - read == cells.Length ==> cells.Length + AllocStep <= MaxAlloc)
      modifies this, cells
      ensures Valid() && (cells == old(cells) || fresh(cells))
      ensures Contents() == old(Contents()) + [x]
      ensures cells.Length == old(cells.Length) + if old(write - read == cells.Length) then AllocStep else 0
      ensures old(write - read < cells.Length && write + 1 < UnwrapAt) ==> read == old(read) && write == old(write) + 1
    {
      if write - read == cells.Length {
        Grow(cells.Length + AllocStep);
      }
      Store(x);
    }

    /** The store and the guarded unwrap at the end of both pushes. */
    method Store(x: T)
      requires Valid() && write - read < cells.Length
      modifies this`read, this`write, cells
      ensures Valid() && Contents() == old(Contents()) + [x]
      ensures old(write) + 1 < UnwrapAt ==> read == old(read) && write == old(write) + 1
    {
      Stored(cells[..], read, write, x);
      cells[write % cells.Length] := x;
      write := write + 1;
      if write >= UnwrapAt {
        Unwrap();
      }
    }

    method PushLimit(x: T, limit: nat) returns (pushed: bool)
      requires Valid() && (write - read == cells.Length < limit ==> cells.Length + AllocStep <= MaxAlloc)
      modifies this, cells
      ensures Valid() && (cells == old(cells) || fresh(cells))
      ensures pushed == (|old(Contents())| < limit)
      ensures Contents() == old(Contents()) + if pushed then [x] else []
    {
      var size := write - read;
      if size >= limit {
        return false;
      }
      if size == cells.Length {
        Grow(cells.Length + AllocStep);
      }
      Store(x);
      return true;
    }

    /** A pop that does not wait. */
    method Pop() returns (x: Option<T>)
      requires Valid()
      modifies this`read, this`write
      ensures Valid()
      ensures if old(Contents()) == [] then x == None && Contents() == []
              else x == Some(old(Contents())[0]) && Contents() == old(Contents())[1..]
      ensures |old(Contents())| > 1 ==> read == old(read) + 1 && write == old(write)
    {
      if read == write {
        return None;
      }
      HeadTaken(cells[..], read, write);
      x := Some(cells[read % cells.Length]);
      read := read + 1;
      if read == write {
        read, write := 0, 0;
      }
    }

    /** The overlapping copy of the cells `lo` to `hi - 1` one up. */
    method MoveUp(lo: nat, hi: nat)
      requires lo <= hi < cells.Length
      modifies cells
      ensures MovedUp(old(cells[..]), cells[..], lo, hi)
    {
      forall j | lo <= j < hi { cells[j + 1] := cells[j]; }
    }

    method MoveDown(lo: nat, hi: nat)
      requires 0 < lo <= hi <= cells.Length
      modifies cells
      ensures MovedDown(old(cells[..]), cells[..], lo, hi)
    {
      forall j | lo <= j < hi { cells[j - 1] := cells[j]; }
    }

    method DropHead()
      requires Valid() && read < write
      modifies this`read
      ensures Valid() && read == old(read) + 1 && Contents() == Without(old(Contents()), 0)
    {
      HeadTaken(cells[..], read, write);
      read := read + 1;
    }

    method DropTail()
      requires Valid() && read < write
      modifies this`write
      ensures Valid() && write == old(write) - 1 && Contents() == Without(old(Contents()), write - read)
    {
      TailTaken(cells[..], read, write);
      write := write - 1;
    }

    /** Closes the gap at cell `i` from the head. */
    method PullHead(head: nat, i: nat, ghost index: nat)
      requires Valid() && read < index < write
      requires head == read % cells.Length && i == head + (index - read) < cells.Length
      modifies this`read, cells
      ensures Valid() && read == old(read) + 1 && Contents() == Without(old(Contents()), index - old(read))
    {
      ghost var c := cells[..];
      MoveUp(head, i);
      HeadPulled(c, cells[..], read, write, index);
      read := read + 1;
    }

    /** Closes the gap at cell `i` from the tail. */
    method PullTail(i: nat, tail: nat, ghost index: nat)
      requires Valid() && read < index < write
      requires i == read % cells.Length + (index - read) - cells.Length
      requires tail == read % cells.Length + (write - read) - cells.Length
      modifies this`write, cells
      ensures Valid() && write == old(write) - 1 && Contents() == Without(old(Contents()), index - read)
    {
      ghost var c := cells[..];
      MoveDown(i + 1, tail);
      TailPulled(c, cells[..], read, write, index);
      write := write - 1;
    }

    method DeleteOffset(index: nat)
      requires Valid() && read <= index < write
      modifies this`read, this`write, cells
      ensures Valid() && Contents() == Without(old(Contents()), index - old(read))
      ensures read == old(if PullsTail(cells.Length, read, write, index) then read else read + 1)
      ensures write == old(if PullsTail(cells.Length, read, write, index) then write - 1 else write)
    {
      DeletionCases(cells.Length, read, write, index);
      var i, head, tail := index % cells.Length, read % cells.Length, write % cells.Length;
      if i == head {
        DropHead();
      } else if tail != 0 && i == tail - 1 {
        DropTail();
      } else if i > head {
        PullHead(head, i, index);
      } else {
        PullTail(i, tail, index);
      }
    }

    /** The loop of `Delete` stands at element `j` of the old contents `s`, at offset `i`. */
    ghost predicate AtElement(s: seq<T>, f: nat, x: T, j: nat, kept: seq<T>, start: nat, i: nat)
      requires Valid() && f <= |s|
      reads this, cells
    {
      StandsAt(Contents(), read, write, s, f, x, j, kept, start, i)
    }

    lemma IsElement(i: nat, s: seq<T>, f: nat, x: T, j: nat, kept: seq<T>, start: nat)
      requires Valid() && f <= |s| && AtElement(s, f, x, j, kept, start, i) && i < write
      ensures j < |s| && i == read + |kept| && cells[i % cells.Length] == s[j]
    {
      ReadAt(cells[..], read, write, i);
      assert Contents()[|kept|] == s[j];
    }

    lemma PassOne(i: nat, s: seq<T>, f: nat, x: T, j: nat, kept: seq<T>, start: nat)
      requires Valid() && f <= |s| && AtElement(s, f, x, j, kept, start, i) && j < |s| && s[j] != x
      ensures AtElement(s, f, x, j + 1, kept + [s[j]], start, i + 1)
    {
      SweepPasses(s, f, x, j, kept);
      PassedNext(s, j, kept);
    }

    lemma AtEnd(i: nat, s: seq<T>, f: nat, x: T, j: nat, kept: seq<T>, start: nat)
      requires Valid() && f <= |s| && AtElement(s, f, x, j, kept, start, i) && write <= i
      ensures j == |s| && Contents() == kept == Swept(s, f, x)
    {
      assert j == |s|;
      SweepDone(s, f, x, kept);
    }

    /** Removes element `j` at offset `i`. */
    method SweepOne(i: nat, ghost s: seq<T>, ghost f: nat, x: T, ghost j: nat, ghost kept: seq<T>, ghost start: nat)
      returns (ghost next: nat, ghost left: seq<T>)
      requires Valid() && f <= |s| <= cells.Length && j < |s| && AtElement(s, f, x, j, kept, start, i) && s[j] == x
      requires IsFirst(f, |s|, cells.Length, start)
      modifies this`read, this`write, cells
      ensures Valid() && write <= old(write) && j < next <= |s| && AtElement(s, f, x, next, left, start, i + 1)
      ensures Contents() == Without(old(Contents()), i - old(read))
    {
      ghost var pulls := PullsTail(cells.Length, read, write, i);
      ghost var c := Contents();
      StandsAfter(c, read, write, s, f, x, j, kept, start, i, cells.Length);
      next, left := NextAt(|s|, j, pulls), NextKept(s, j, kept, pulls);
      DeleteOffset(i);
      assert Contents() == Without(c, |kept|);
    }

    /** One turn of the loop of `Delete` that meets a match at offset `i`. */
    method VisitMatch(i: nat, ghost s: seq<T>, ghost f: nat, x: T, ghost j: nat, ghost kept: seq<T>, ghost start: nat,
                      ghost found: bool)
      returns (ghost next: nat, ghost left: seq<T>)
      requires Valid() && f <= |s| <= cells.Length && j < |s| && AtElement(s, f, x, j, kept, start, i) && s[j] == x
      requires IsFirst(f, |s|, cells.Length, start) && Searched(s, x, j, kept, found)
      modifies this`read, this`write, cells
      ensures Valid() && next <= |s| && AtElement(s, f, x, next, left, start, i + 1) && write <= old(write)
      ensures Searched(s, x, next, left, true)
      ensures !found ==> Contents() == Deleted(s, f, x, true)
    {
      if !found { SearchHits(s, f, x, j, kept); }
      next, left := SweepOne(i, s, f, x, j, kept, start);
      SearchFound(s, x, j, next, left);
    }

    /** One turn of the loop of `Delete`, at offset `i`. */
    method Visit(i: nat, ghost s: seq<T>, ghost f: nat, x: T, ghost j: nat, ghost kept: seq<T>, ghost start: nat,
                 ghost found: bool)
      returns (hit: bool, ghost next: nat, ghost left: seq<T>)
      requires Valid() && f <= |s| <= cells.Length && i < write && AtElement(s, f, x, j, kept, start, i)
      requires IsFirst(f, |s|, cells.Length, start) && Searched(s, x, j, kept, found)
      modifies this`read, this`write, cells
      ensures Valid() && next <= |s| && AtElement(s, f, x, next, left, start, i + 1) && write <= old(write)
      ensures Searched(s, x, next, left, found || hit)
      ensures hit ==> x in s
      ensures hit && !found ==> Contents() == Deleted(s, f, x, true)
    {
      IsElement(i, s, f, x, j, kept, start);
      hit := cells[i % cells.Length] == x;
      if hit {
        next, left := VisitMatch(i, s, f, x, j, kept, start, found);
        return;
      }
      SearchPasses(s, x, j, kept, found);
      PassOne(i, s, f, x, j, kept, start);
      next, left := j + 1, kept + [s[j]];
    }

    /** Removes the first `x`, or every `x` the sweep meets. */
    method Delete(x: T, onlyOne: bool) returns (found: bool)
      requires Valid()
      modifies this`read, this`write, cells
      ensures Valid() && found == (x in old(Contents()))
      ensures Contents() == Deleted(old(Contents()), old(FirstPart()), x, onlyOne)
    {
      ghost var s, f, start := Contents(), FirstPart(), read;
      ghost var j: nat, kept: seq<T> := 0, [];
      found := false;
      var i: nat := read;
      while i < write
        invariant Valid() && AtElement(s, f, x, j, kept, start, i)
        invariant Searched(s, x, j, kept, found)
        invariant onlyOne ==> !found
        invariant IsFirst(f, |s|, cells.Length, start)
        decreases write - i
      {
        var hit;
        hit, j, kept := Visit(i, s, f, x, j, kept, start, found);
        if hit {
          found := true;
          if onlyOne {
            return;
          }
        }
        i := i + 1;
      }
      AtEnd(i, s, f, x, j, kept, start);
      SearchEnds(s, f, x, kept, found, onlyOne);
    }

    /** Calls back for the elements in order until an answer is -1, which stops, or -2,
        which deletes that element and stops; `visited` are those it called back for. */
    method Reduce(callback: T -> int) returns (ghost visited: seq<T>)
      requires Valid()
      modifies this`read, this`write, cells
      ensures Valid()
      ensures StopsAfter(old(Contents()), callback, |visited|) && visited == old(Contents())[..|visited|]
      ensures var s, n := old(Contents()), |visited|;
              Contents() == if n > 0 && callback(s[n - 1]) == -2 then Without(s, n - 1) else s
    {
      ghost var s, start := Contents(), read;
      var i: nat := read;
      visited := [];
      while i < write
        invariant Valid() && Contents() == s && read == start <= i <= write
        invariant i - start <= FirstStop(s, callback) && visited == s[..i - start]
      {
        ReadAt(cells[..], read, write, i);
        var answer := callback(cells[i % cells.Length]);
        FirstStopIs(s, callback, i - start);
        visited := s[..i - start + 1];
        if answer == -1 || answer == -2 { StoppedAt(s, callback, i - start); }
        if answer == -1 {
          return;
        }
        if answer == -2 {
          DeleteOffset(i);
          return;
        }
        i := i + 1;
      }
      NeverStopped(s, callback);
    }
  }

  /** The traversal is over after `n` elements: none before the last of them was answered
      with -1 or -2, and that one was, unless they are all. */
  ghost predicate StopsAfter<T>(s: seq<T>, callback: T -> int, n: nat)
  {
    && n <= |s|
    && (forall i :: 0 <= i < n - 1 ==> callback(s[i]) != -1 && callback(s[i]) != -2)
    && (n < |s| ==> n > 0 && (callback(s[n - 1]) == -1 || callback(s[n - 1]) == -2))
  }

  lemma StoppedAt<T>(s: seq<T>, callback: T -> int, k: nat)
    requires k < |s| && k == FirstStop(s, callback)
    ensures StopsAfter(s, callback, k + 1)
  {
  }

  lemma NeverStopped<T>(s: seq<T>, callback: T -> int)
    requires FirstStop(s, callback) == |s|
    ensures StopsAfter(s, callback, |s|) && s[..|s|] == s
    ensures s != [] ==> callback(s[|s| - 1]) != -1 && callback(s[|s| - 1]) != -2
  {
  }

  predicate Stops(answer: int)
  {
    answer == -1 || answer == -2
  }

  /** The first element that stops the traversal, or past the end. */
  ghost function FirstStop<T>(s: seq<T>, callback: T -> int): (k: nat)
    ensures k <= |s|
    ensures k < |s| ==> Stops(callback(s[k]))
    ensures forall i :: 0 <= i < k ==> !Stops(callback(s[i]))
  {
    if s == [] || Stops(callback(s[0])) then 0
    else
      var k := FirstStop(s[1..], callback);
      assert forall i :: 0 < i < k + 1 ==> s[i] == s[1..][i - 1];
      k + 1
  }

  lemma FirstStopIs<T>(s: seq<T>, callback: T -> int, k: nat)
    requires k < |s| && k <= FirstStop(s, callback)
    ensures FirstStop(s, callback) == k <==> Stops(callback(s[k]))
  {
  }

  /** A queue of which one element lies in the last cell of its array. */
  method AlmostWrapped(last: int) returns (q: Queue<int>)
    ensures fresh(q) && fresh(q.cells) && q.Valid() && q.cells.Length == AllocStep
    ensures q.read == 63 && q.write == 64 && q.Contents() == [last]
  {
    q := new Queue<int>();
    var filled: nat := 0;
    while filled < 63
      invariant filled <= 63 && q.Valid() && fresh(q) && fresh(q.cells) && q.cells.Length == AllocStep
      invariant q.read == 0 && q.write == filled
    {
      q.Push(0);
      filled := filled + 1;
    }
    q.Push(last);
    while q.read < 63
      invariant q.read <= 63 && q.write == 64 && q.Valid() && fresh(q) && fresh(q.cells) && q.cells.Length == AllocStep
      invariant q.Contents()[63 - q.read..] == [last]
    {
      var x := q.Pop();
    }
  }

  /** A queue that wraps: a 1 in cell 63, and 7s in cells 0 and 1. */
  method Wrapped() returns (q: Queue<int>)
    ensures fresh(q) && fresh(q.cells) && q.Valid() && q.cells.Length == AllocStep
    ensures q.read == 63 && q.write == 66 && q.Contents() == [1, 7, 7]
  {
    q := AlmostWrapped(1);
    q.Push(7);
    q.Push(7);
  }

  lemma OneBeforeTheEnd()
    ensures FirstPartOf(AllocStep, 63, 66) == 1
    ensures Deleted([1, 7, 7], 1, 7, false) == [1, 7]
  {
    SweepLeavesAMatch();
    assert [1, 7, 7][1] == 7;
  }

  /** A queue from which deleting every 7 leaves a 7. */
  method DeleteLeavesAMatch() returns (q: Queue<int>, found: bool)
    ensures fresh(q) && q.Valid() && q.Contents() == [1, 7]
  {
    OneBeforeTheEnd();
    q := Wrapped();
    found := q.Delete(7, false);
  }

  // ---------------------------------------------------------------------------
  // Runs of pushes and pops
  // ---------------------------------------------------------------------------

  datatype Op<T> = Push(x: T) | PushLimit(x: T, limit: nat) | Pop

  datatype Answer<T> = Done | Pushed(ok: bool) | Popped(x: Option<T>)

  /** One operation on a first-in first-out sequence. */
  ghost function After<T>(s: seq<T>, op: Op<T>): seq<T>
  {
    match op
    case Push(x) => s + [x]
    case PushLimit(x, limit) => if |s| < limit then s + [x] else s
    case Pop => if s == [] then s else s[1..]
  }

  ghost function Reply<T>(s: seq<T>, op: Op<T>): Answer<T>
  {
    match op
    case Push(_) => Done
    case PushLimit(_, limit) => Pushed(|s| < limit)
    case Pop => Popped(if s == [] then None else Some(s[0]))
  }

  ghost function AfterAll<T>(s: seq<T>, ops: seq<Op<T>>): seq<T>
    decreases |ops|
  {
    if ops == [] then s else AfterAll(After(s, ops[0]), ops[1..])
  }

  ghost function Replies<T>(s: seq<T>, ops: seq<Op<T>>): seq<Answer<T>>
    decreases |ops|
  {
    if ops == [] then [] else [Reply(s, ops[0])] + Replies(After(s, ops[0]), ops[1..])
  }

  /** The elements that were let in. */
  ghost function Entered<T>(ops: seq<Op<T>>, replies: seq<Answer<T>>): seq<T>
    requires |ops| == |replies|
  {
    if ops == [] then []
    else
      (if ops[0].Push? || (ops[0].PushLimit? && replies[0] == Pushed(true)) then [ops[0].x] else [])
      + Entered(ops[1..], replies[1..])
  }

  ghost function Left<T>(replies: seq<Answer<T>>): seq<T>
  {
    if replies == [] then []
    else (if replies[0].Popped? && replies[0].x.Some? then [replies[0].x.value] else []) + Left(replies[1..])
  }

  lemma {:induction false} RepliesLength<T>(s: seq<T>, ops: seq<Op<T>>)
    ensures |Replies(s, ops)| == |ops|
    decreases |ops|
  {
    if ops != [] { RepliesLength(After(s, ops[0]), ops[1..]); }
  }

  ghost function LetIn<T>(s: seq<T>, op: Op<T>): seq<T>
  {
    if op.Push? || (op.PushLimit? && |s| < op.limit) then [op.x] else []
  }

  ghost function TakenOut<T>(s: seq<T>, op: Op<T>): seq<T>
  {
    if op.Pop? && s != [] then [s[0]] else []
  }

  lemma OpBalances<T>(s: seq<T>, op: Op<T>)
    ensures TakenOut(s, op) + After(s, op) == s + LetIn(s, op)
  {
  }

  lemma LeftStep<T>(s: seq<T>, op: Op<T>, replies: seq<Answer<T>>)
    ensures Left([Reply(s, op)] + replies) == TakenOut(s, op) + Left(replies)
  {
    assert ([Reply(s, op)] + replies)[1..] == replies;
  }

  lemma EnteredStep<T>(s: seq<T>, op: Op<T>, ops: seq<Op<T>>, replies: seq<Answer<T>>)
    requires |ops| == |replies|
    ensures Entered([op] + ops, [Reply(s, op)] + replies) == LetIn(s, op) + Entered(ops, replies)
  {
    assert ([Reply(s, op)] + replies)[1..] == replies;
    assert ([op] + ops)[1..] == ops;
  }

  /** Over any run, what came out followed by what is inside is what was inside followed
      by what went in: nothing is lost, doubled or overtaken. */
  lemma {:induction false} FirstInFirstOut<T>(s: seq<T>, ops: seq<Op<T>>)
    ensures |Replies(s, ops)| == |ops|
    ensures Left(Replies(s, ops)) + AfterAll(s, ops) == s + Entered(ops, Replies(s, ops))
    decreases |ops|
  {
    RepliesLength(s, ops);
    if ops != [] {
      var op, t, rest := ops[0], After(s, ops[0]), ops[1..];
      FirstInFirstOut(t, rest);
      LeftStep(s, op, Replies(t, rest));
      EnteredStep(s, op, rest, Replies(t, rest));
      OpBalances(s, op);
      assert ops == [op] + rest;
      Splice(TakenOut(s, op), Left(Replies(t, rest)), AfterAll(t, rest), t, Entered(rest, Replies(t, rest)), s,
             LetIn(s, op));
    }
  }

  lemma Splice<T>(a: seq<T>, b: seq<T>, c: seq<T>, t: seq<T>, e: seq<T>, s: seq<T>, i: seq<T>)
    requires b + c == t + e && a + t == s + i
    ensures (a + b) + c == s + (i + e)
  {
    assert (a + b) + c == a + (b + c);
    assert a + (t + e) == (a + t) + e;
    assert (s + i) + e == s + (i + e);
  }

  /** No prefix of the run makes the queue so deep that it would have to grow past
      `MaxAlloc`. */
  ghost predicate StaysShallow<T>(s: seq<T>, ops: seq<Op<T>>)
    decreases |ops|
  {
    |s| + AllocStep <= MaxAlloc && (ops != [] ==> StaysShallow(After(s, ops[0]), ops[1..]))
  }

  method Do<T(0,==)>(q: Queue<T>, op: Op<T>) returns (reply: Answer<T>)
    requires q.Valid() && |q.Contents()| + AllocStep <= MaxAlloc
    modifies q, q.cells
    ensures q.Valid() && (q.cells == old(q.cells) || fresh(q.cells))
    ensures reply == Reply(old(q.Contents()), op) && q.Contents() == After(old(q.Contents()), op)
  {
    match op {
      case Push(x) =>
        q.Push(x);
        reply := Done;
      case PushLimit(x, limit) =>
        var ok := q.PushLimit(x, limit);
        reply := Pushed(ok);
      case Pop =>
        var x := q.Pop();
        reply := Popped(x);
    }
  }

  /** With the operations `todo` to come the queue holds `s`, and the run can go on. */
  ghost predicate Midway<T>(start: seq<T>, ops: seq<Op<T>>, todo: seq<Op<T>>, s: seq<T>, replies: seq<Answer<T>>)
  {
    && StaysShallow(s, todo)
    && replies + Replies(s, todo) == Replies(start, ops)
    && AfterAll(s, todo) == AfterAll(start, ops)
  }

  lemma MidwayStarts<T>(start: seq<T>, ops: seq<Op<T>>)
    requires StaysShallow(start, ops)
    ensures Midway(start, ops, ops, start, [])
  {
    assert [] + Replies(start, ops) == Replies(start, ops);
  }

  lemma MidwayStep<T>(start: seq<T>, ops: seq<Op<T>>, todo: seq<Op<T>>, s: seq<T>, replies: seq<Answer<T>>)
    requires todo != [] && Midway(start, ops, todo, s, replies)
    ensures |s| + AllocStep <= MaxAlloc
    ensures Midway(start, ops, todo[1..], After(s, todo[0]), replies + [Reply(s, todo[0])])
  {
    Regroup(replies, Reply(s, todo[0]), Replies(After(s, todo[0]), todo[1..]));
  }

  lemma MidwayEnds<T>(start: seq<T>, ops: seq<Op<T>>, s: seq<T>, replies: seq<Answer<T>>)
    requires Midway(start, ops, [], s, replies)
    ensures replies == Replies(start, ops) && s == AfterAll(start, ops)
  {
    assert replies + [] == replies;
  }

  method DoNext<T(0,==)>(q: Queue<T>, op: Op<T>, ghost start: seq<T>, ghost ops: seq<Op<T>>, ghost todo: seq<Op<T>>,
                         replies: seq<Answer<T>>)
    returns (more: seq<Answer<T>>)
    requires todo != [] && todo[0] == op && q.Valid() && Midway(start, ops, todo, q.Contents(), replies)
    modifies q, q.cells
    ensures q.Valid() && (q.cells == old(q.cells) || fresh(q.cells))
            && Midway(start, ops, todo[1..], q.Contents(), more)
  {
    MidwayStep(start, ops, todo, q.Contents(), replies);
    var reply := Do(q, op);
    more := replies + [reply];
  }

  /** Any run, however long, of operations on the ring gives the answers of the sequence,
      through growth and offset unwrapping; the offsets stay below bit 30. */
  method Run<T(0,==)>(q: Queue<T>, ops: seq<Op<T>>) returns (replies: seq<Answer<T>>)
    requires q.Valid() && StaysShallow(q.Contents(), ops)
    modifies q, q.cells
    ensures q.Valid()
    ensures replies == Replies(old(q.Contents()), ops)
    ensures q.Contents() == AfterAll(old(q.Contents()), ops)
  {
    replies := [];
    ghost var start, todo := q.Contents(), ops;
    MidwayStarts(start, ops);
    var n: nat := 0;
    while n < |ops|
      invariant n <= |ops| && todo == ops[n..] && q.Valid() && (q.cells == old(q.cells) || fresh(q.cells))
      invariant Midway(start, ops, todo, q.Contents(), replies)
    {
      replies := DoNext(q, ops[n], start, ops, todo, replies);
      n, todo := n + 1, todo[1..];
    }
    MidwayEnds(start, ops, q.Contents(), replies);
  }

  // ---------------------------------------------------------------------------
  // Three queues by priority
  // ---------------------------------------------------------------------------

  const High := 1
  const Medium := 2
  const Low := 3

  class PriorityQueue<T(0,==)> {
    var high: Queue<T>
    var medium: Queue<T>
    var low: Queue<T>

    ghost predicate Valid()
      reads this, high, medium, low
    {
      && high != medium && high != low && medium != low
      && high.cells != medium.cells && high.cells != low.cells && medium.cells != low.cells
      && high.Valid() && medium.Valid() && low.Valid()
    }

    ghost function Contents(): (seq<T>, seq<T>, seq<T>)
      requires Valid()
      reads this, high, medium, low, high.cells, medium.cells, low.cells
    {
      (high.Contents(), medium.Contents(), low.Contents())
    }

    constructor ()
      ensures Valid() && Contents() == ([], [], [])
      ensures fresh(high) && fresh(medium) && fresh(low)
    {
      high := new Queue();
      medium := new Queue();
      low := new Queue();
    }

    /** Appends to the queue of the priority; any other number is refused. */
    method Push(x: T, priority: int) returns (code: int)
      requires Valid()
      requires |Contents().0| + AllocStep <= MaxAlloc && |Contents().1| + AllocStep <= MaxAlloc
               && |Contents().2| + AllocStep <= MaxAlloc
      modifies high, medium, low, high.cells, medium.cells, low.cells
      ensures Valid() && high == old(high) && medium == old(medium) && low == old(low)
      ensures code == if priority == High || priority == Medium || priority == Low then 0 else -1
      ensures var (h, m, l) := old(Contents());
              Contents() == (
                if priority == High then h + [x] else h,
                if priority == Medium then m + [x] else m,
                if priority == Low then l + [x] else l)
    {
      code := 0;
      if priority == High {
        high.Push(x);
      } else if priority == Medium {
        medium.Push(x);
      } else if priority == Low {
        low.Push(x);
      } else {
        code := -1;
      }
    }

    /** The oldest element of the highest priority that has one. */
    method Pop() returns (x: Option<T>)
      requires Valid()
      modifies high, medium, low
      ensures Valid() && high == old(high) && medium == old(medium) && low == old(low)
      ensures var (h, m, l) := old(Contents());
              if h != [] then x == Some(h[0]) && Contents() == (h[1..], m, l)
              else if m != [] then x == Some(m[0]) && Contents() == (h, m[1..], l)
              else if l != [] then x == Some(l[0]) && Contents() == (h, m, l[1..])
              else x == None && Contents() == (h, m, l)
    {
      if high.write != high.read {
        x := high.Pop();
      } else if medium.write != medium.read {
        x := medium.Pop();
      } else if low.write != low.read {
        x := low.Pop();
      } else {
        x := None;
      }
    }
  }
}
