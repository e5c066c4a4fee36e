/**
 Bytes in memory: unsigned integers in network order, the host order of a little-endian
 machine, and the in-place swaps of src/cf_proto.c between the two.
 */
module ByteOrder {
  import opened Common

  type Byte = x: int | 0 <= x < 256

  type Bytes = seq<Byte>

  /** 256 to the power `w`. */
  function Pow256(w: nat): (p: nat)
    ensures p >= 1
  {
    if w == 0 then 1 else 256 * Pow256(w - 1)
  }

  /** The low `w` bytes of `n`, most significant first. */
  function Network(n: nat, w: nat): (b: Bytes)
    ensures |b| == w
  {
    if w == 0 then [] else Network(n / 256, w - 1) + [n % 256]
  }

  function FromNetwork(b: Bytes): (n: nat)
  {
    if b == [] then 0 else 256 * FromNetwork(b[..|b| - 1]) + b[|b| - 1]
  }

  /** The low `w` bytes of `n`, least significant first. */
  function Host(n: nat, w: nat): (b: Bytes)
    ensures |b| == w
  {
    if w == 0 then [] else [n % 256] + Host(n / 256, w - 1)
  }

  /** `b` with the bytes from `at` on overwritten by `s`. */
  function Splice(b: Bytes, at: nat, s: Bytes): (t: Bytes)
    requires at + |s| <= |b|
    ensures |t| == |b|
  {
    b[..at] + s + b[at + |s|..]
  }

  lemma {:induction false} FromNetworkOf(n: nat, w: nat)
    requires n < Pow256(w)
    ensures FromNetwork(Network(n, w)) == n
  {
    if w > 0 {
      FromNetworkOf(n / 256, w - 1);
      var b := Network(n, w);
      assert b[..|b| - 1] == Network(n / 256, w - 1);
    }
  }

  lemma {:induction false} NetworkOfFrom(b: Bytes)
    ensures FromNetwork(b) < Pow256(|b|) && Network(FromNetwork(b), |b|) == b
  {
    if b != [] {
      NetworkOfFrom(b[..|b| - 1]);
      assert b == b[..|b| - 1] + [b[|b| - 1]];
    }
  }

  lemma {:induction false} ReversedAt(b: Bytes, k: nat)
    requires k < |b|
    ensures Reversed(b)[k] == b[|b| - 1 - k]
  {
    if k < |b| - 1 { ReversedAt(b[1..], k); }
  }

  lemma ReversedTwice(b: Bytes)
    ensures Reversed(Reversed(b)) == b
  {
    forall k | 0 <= k < |b| ensures Reversed(Reversed(b))[k] == b[k]
    {
      ReversedAt(Reversed(b), k);
      ReversedAt(b, |b| - 1 - k);
    }
  }

  /** A swap turns host order into network order. */
  lemma {:induction false} HostSwapped(n: nat, w: nat)
    ensures Reversed(Host(n, w)) == Network(n, w)
  {
    if w > 0 { HostSwapped(n / 256, w - 1); }
  }

  lemma SpliceOver(b: Bytes, at: nat, s: Bytes, t: Bytes)
    requires at + |s| <= |b| && |t| == |s|
    ensures Splice(Splice(b, at, s), at, t) == Splice(b, at, t)
  {
  }

  lemma SpliceNext(b: Bytes, at: nat, s: Bytes, t: Bytes)
    requires at + |s| + |t| <= |b|
    ensures Splice(Splice(b, at, s), at + |s|, t) == Splice(b, at, s + t)
  {
  }

  // Regrouping

  lemma Empty(a: Bytes)
    ensures [] + a == a && a + [] == a
  {
  }

  lemma Assoc(a: Bytes, b: Bytes, c: Bytes)
    ensures (a + b) + c == a + (b + c)
  {
  }

  lemma Assoc4(a: Bytes, b: Bytes, c: Bytes, d: Bytes)
    ensures a + b + c + d == a + (b + c + d)
  {
  }

  lemma Assoc5(a: Bytes, b: Bytes, c: Bytes, d: Bytes, e: Bytes)
    ensures a + b + c + d + e == a + (b + c + d + e)
  {
  }

  // ---------------------------------------------------------------------------
  // In memory
  // ---------------------------------------------------------------------------

  /** `memcpy`. */
  method Copy(buf: array<Byte>, at: nat, s: Bytes)
    requires at + |s| <= buf.Length
    modifies buf
    ensures buf[..] == Splice(old(buf[..]), at, s)
  {
    forall k | 0 <= k < |s| { buf[at + k] := s[k]; }
  }

  /** The first `k` bytes of a host integer stand in the buffer. */
  ghost predicate Storing(start: Bytes, at: nat, w: nat, n: nat, rest: nat, done: Bytes, now: Bytes)
    requires |done| <= w && at + w <= |start|
  {
    done + Host(rest, w - |done|) == Host(n, w) && now == Splice(start, at, done)
  }

  lemma StoringStep(start: Bytes, at: nat, w: nat, n: nat, rest: nat, done: Bytes, now: Bytes)
    requires |done| < w && at + w <= |start| && Storing(start, at, w, n, rest, done, now)
    ensures Storing(start, at, w, n, rest / 256, done + [rest % 256], Splice(now, at + |done|, [rest % 256]))
  {
    Assoc(done, [rest % 256], Host(rest / 256, w - |done| - 1));
    SpliceNext(start, at, done, [rest % 256]);
  }

  method PutByte(buf: array<Byte>, at: nat, x: Byte)
    requires at < buf.Length
    modifies buf
    ensures buf[..] == Splice(old(buf[..]), at, [x])
  {
    buf[at] := x;
  }

  /** Stores an integer the way the machine does. */
  method Store(buf: array<Byte>, at: nat, w: nat, n: nat)
    requires at + w <= buf.Length
    modifies buf
    ensures buf[..] == Splice(old(buf[..]), at, Host(n, w))
  {
    var rest, k: nat := n, 0;
    ghost var start, done: Bytes := buf[..], [];
    Empty(Host(n, w));
    while k < w
      invariant k <= w && |done| == k && |start| == buf.Length && Storing(start, at, w, n, rest, done, buf[..])
    {
      StoringStep(start, at, w, n, rest, done, buf[..]);
      PutByte(buf, at + k, rest % 256);
      done := done + [rest % 256];
      rest, k := rest / 256, k + 1;
    }
    Empty(done);
  }

  /** Reverses `w` bytes in place: `ntohl`, `ntohs` and the 64-bit swaps. */
  method Swap(buf: array<Byte>, at: nat, w: nat)
    requires at + w <= buf.Length
    modifies buf
    ensures buf[..] == Splice(old(buf[..]), at, Reversed(old(buf[at..at + w])))
  {
    ghost var was := buf[at..at + w];
    forall k | 0 <= k < w ensures Reversed(was)[k] == was[w - 1 - k] { ReversedAt(was, k); }
    forall k | 0 <= k < w { buf[at + k] := buf[at + (w - 1 - k)]; }
    assert forall k :: 0 <= k < w ==> buf[at + k] == Reversed(was)[k];
  }

  // The same three, for a buffer that holds `done` from `from` on: what they add goes
  // after it.

  method CopyNext(buf: array<Byte>, at: nat, s: Bytes, ghost start: Bytes, ghost from: nat, ghost done: Bytes)
    requires at == from + |done| && at + |s| <= buf.Length == |start|
    requires buf[..] == Splice(start, from, done)
    modifies buf
    ensures buf[..] == Splice(start, from, done + s)
  {
    Copy(buf, at, s);
    SpliceNext(start, from, done, s);
  }

  method StoreNext(buf: array<Byte>, at: nat, w: nat, n: nat, ghost start: Bytes, ghost from: nat, ghost done: Bytes)
    requires at == from + |done| && at + w <= buf.Length == |start|
    requires buf[..] == Splice(start, from, done)
    modifies buf
    ensures buf[..] == Splice(start, from, done + Host(n, w))
  {
    Store(buf, at, w, n);
    SpliceNext(start, from, done, Host(n, w));
  }

  lemma SpliceMiddle(start: Bytes, from: nat, before: Bytes, x: Bytes, y: Bytes, after: Bytes)
    requires |x| == |y| && from + |before| + |x| + |after| <= |start|
    ensures var b := Splice(start, from, before + x + after);
            && b[from + |before|..from + |before| + |x|] == x
            && Splice(b, from + |before|, y) == Splice(start, from, before + y + after)
  {
  }

  method SwapStored(buf: array<Byte>, at: nat, w: nat, ghost n: nat, ghost start: Bytes, ghost from: nat,
                    ghost before: Bytes, ghost after: Bytes)
    requires at == from + |before| && at + w + |after| <= buf.Length == |start|
    requires buf[..] == Splice(start, from, before + Host(n, w) + after)
    modifies buf
    ensures buf[..] == Splice(start, from, before + Network(n, w) + after)
  {
    SpliceMiddle(start, from, before, Host(n, w), Network(n, w), after);
    HostSwapped(n, w);
    assert buf[at..at + w] == buf[..][at..at + w];
    Swap(buf, at, w);
  }

  /** The swap of the first integer stored. */
  method SwapFirst(buf: array<Byte>, at: nat, w: nat, ghost n: nat, ghost start: Bytes, ghost after: Bytes)
    requires at + w + |after| <= buf.Length == |start| && buf[..] == Splice(start, at, Host(n, w) + after)
    modifies buf
    ensures buf[..] == Splice(start, at, Network(n, w) + after)
  {
    Empty(Host(n, w));
    Empty(Network(n, w));
    SwapStored(buf, at, w, n, start, at, [], after);
  }

  /** Reads an integer the way the machine does. */
  method Load(buf: array<Byte>, at: nat, w: nat) returns (n: nat)
    requires at + w <= buf.Length
    ensures n == FromNetwork(Reversed(buf[at..at + w]))
  {
    n := 0;
    var k: nat := w;
    while k > 0
      invariant k <= w && n == FromNetwork(Reversed(buf[at + k..at + w]))
    {
      k := k - 1;
      assert buf[at + k..at + w] == [buf[at + k]] + buf[at + (k + 1)..at + w];
      LoadStep(buf[at + k], buf[at + (k + 1)..at + w]);
      n := 256 * n + buf[at + k];
    }
  }

  lemma LoadStep(x: Byte, b: Bytes)
    ensures FromNetwork(Reversed([x] + b)) == 256 * FromNetwork(Reversed(b)) + x
  {
    var r := Reversed([x] + b);
    assert ([x] + b)[1..] == b;
    assert r == Reversed(b) + [x];
    assert r[..|r| - 1] == Reversed(b);
  }
}
