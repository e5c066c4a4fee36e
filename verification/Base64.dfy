/**
 The base 64 codec of src/php_cl_utils.c: encoder, decoder into a second buffer, decoder
 in place, and validator, against one definition of the code of section 4 of RFC 4648.
 */
module Base64 {

  type Byte = bv8

  type Bytes = seq<Byte>

  const Pad: Byte := 0x3d

  /** The character of a 6-bit value. */
  function Symbol(v: Byte): (c: Byte)
    requires v < 64
  {
    if v < 26 then v + 65
    else if v < 52 then v + 71
    else if v < 62 then v - 4
    else if v == 62 then 43
    else 47
  }

  /** The decoding table: 0 for everything that is not a symbol. */
  function Value(c: Byte): (v: Byte)
    ensures v < 64
  {
    if 65 <= c <= 90 then c - 65
    else if 97 <= c <= 122 then c - 71
    else if 48 <= c <= 57 then c + 4
    else if c == 43 then 62
    else if c == 47 then 63
    else 0
  }

  /** The validation table. */
  predicate IsSymbol(c: Byte)
  {
    65 <= c <= 90 || 97 <= c <= 122 || 48 <= c <= 57 || c == 43 || c == 47
  }

  lemma SymbolValue(v: Byte)
    requires v < 64
    ensures Value(Symbol(v)) == v && IsSymbol(Symbol(v))
  {
  }

  /** The alphabet of section 4 of RFC 4648: A to Z, a to z, 0 to 9, plus, slash. */
  lemma SymbolsAreTheAlphabet(v: Byte)
    requires v < 64
    ensures v < 26 ==> 0x41 <= Symbol(v) <= 0x5a && Symbol(v) - 0x41 == v
    ensures 26 <= v < 52 ==> 0x61 <= Symbol(v) <= 0x7a && Symbol(v) - 0x61 == v - 26
    ensures 52 <= v < 62 ==> 0x30 <= Symbol(v) <= 0x39 && Symbol(v) - 0x30 == v - 52
    ensures v == 62 ==> Symbol(v) == 0x2b
    ensures v == 63 ==> Symbol(v) == 0x2f
  {
  }

  // The four 6-bit values of three bytes.

  function First(a: Byte): (v: Byte)
    ensures v < 64
  {
    (a & 0xfc) >> 2
  }

  function Second(a: Byte, b: Byte): (v: Byte)
    ensures v < 64
  {
    ((a & 0x03) << 4) + ((b & 0xf0) >> 4)
  }

  function Third(b: Byte, c: Byte): (v: Byte)
    ensures v < 64
  {
    ((b & 0x0f) << 2) + ((c & 0xc0) >> 6)
  }

  function Fourth(c: Byte): (v: Byte)
    ensures v < 64
  {
    c & 0x3f
  }

  /** The four values are the 24 bits of the three bytes, six by six from the top. */
  lemma SixBitsEach(a: Byte, b: Byte, c: Byte)
    ensures ((a as bv32) << 16) | ((b as bv32) << 8) | (c as bv32)
            == ((First(a) as bv32) << 18) | ((Second(a, b) as bv32) << 12) | ((Third(b, c) as bv32) << 6)
               | (Fourth(c) as bv32)
  {
  }

  /** The four characters of a group of up to three bytes. */
  function Group(g: Bytes): (t: Bytes)
    requires 1 <= |g| <= 3
    ensures |t| == 4
  {
    [Symbol(First(g[0])),
     Symbol(Second(g[0], if |g| > 1 then g[1] else 0)),
     if |g| > 1 then Symbol(Third(g[1], if |g| > 2 then g[2] else 0)) else Pad,
     if |g| > 2 then Symbol(Fourth(g[2])) else Pad]
  }

  /** How many groups of up to three make `n`. */
  function Groups(n: nat): (g: nat)
    ensures n <= 3 * g < n + 3
  {
    if n == 0 then 0 else if n <= 3 then 1 else 1 + Groups(n - 3)
  }

  /** The code of `x`, group by group. */
  function Encoded(x: Bytes): (t: Bytes)
    ensures |t| == 4 * Groups(|x|) && |t| % 4 == 0
  {
    if x == [] then [] else if |x| <= 3 then Group(x) else Group(x[..3]) + Encoded(x[3..])
  }

  /** The three bytes of four 6-bit values. */
  function Joined(p: Byte, q: Byte, r: Byte, s: Byte): (t: Bytes)
    ensures |t| == 3
  {
    [(p << 2) | (q >> 4), (q << 4) | (r >> 2), (r << 6) | s]
  }

  function Triple(t: Bytes): (g: Bytes)
    requires |t| == 4
    ensures |g| == 3
  {
    Joined(Value(t[0]), Value(t[1]), Value(t[2]), Value(t[3]))
  }

  /** All groups of `t`, padding read as zeros. */
  function Unpacked(t: Bytes): (x: Bytes)
    requires |t| % 4 == 0
    ensures 4 * |x| == 3 * |t|
  {
    if t == [] then [] else Triple(t[..4]) + Unpacked(t[4..])
  }

  /** What the decoder into a second buffer takes off: each of the last two characters
      that is padding. */
  function PadCount(t: Bytes): (n: nat)
    requires |t| >= 4
  {
    (if t[|t| - 1] == Pad then 1 else 0) + (if t[|t| - 2] == Pad then 1 else 0)
  }

  /** What the decoder in place takes off: the last but one only after the last. */
  function PadCountInPlace(t: Bytes): (n: nat)
    requires |t| >= 4
  {
    if t[|t| - 1] == Pad then (if t[|t| - 2] == Pad then 2 else 1) else 0
  }

  function Decoded(t: Bytes): (x: Bytes)
    requires |t| > 0 && |t| % 4 == 0
  {
    Unpacked(t)[..|Unpacked(t)| - PadCount(t)]
  }

  function DecodedInPlace(t: Bytes): (x: Bytes)
    requires |t| > 0 && |t| % 4 == 0
  {
    Unpacked(t)[..|Unpacked(t)| - PadCountInPlace(t)]
  }

  // ---------------------------------------------------------------------------
  // Round trip
  // ---------------------------------------------------------------------------

  lemma FirstByte(a: Byte, b: Byte)
    ensures (First(a) << 2) | (Second(a, b) >> 4) == a
  {
  }

  lemma SecondByte(a: Byte, b: Byte, c: Byte)
    ensures (Second(a, b) << 4) | (Third(b, c) >> 2) == b
  {
  }

  lemma ThirdByte(b: Byte, c: Byte)
    ensures (Third(b, c) << 6) | Fourth(c) == c
  {
  }

  lemma Rejoined(a: Byte, b: Byte, c: Byte)
    ensures Joined(First(a), Second(a, b), Third(b, c), Fourth(c)) == [a, b, c]
  {
    FirstByte(a, b);
    SecondByte(a, b, c);
    ThirdByte(b, c);
  }

  lemma PaddingIsZero()
    ensures Value(Pad) == Third(0, 0) == Fourth(0) == 0 && !IsSymbol(Pad)
  {
  }

  /** Whatever the group, its characters hold its bytes followed by zeros. */
  lemma GroupValues(a: Byte, b: Byte, c: Byte)
    ensures Triple([Symbol(First(a)), Symbol(Second(a, b)), Symbol(Third(b, c)), Symbol(Fourth(c))]) == [a, b, c]
  {
    SymbolValue(First(a));
    SymbolValue(Second(a, b));
    SymbolValue(Third(b, c));
    SymbolValue(Fourth(c));
    Rejoined(a, b, c);
  }

  lemma GroupValuesTwo(a: Byte, b: Byte)
    ensures Triple([Symbol(First(a)), Symbol(Second(a, b)), Symbol(Third(b, 0)), Pad]) == [a, b, 0]
  {
    SymbolValue(First(a));
    SymbolValue(Second(a, b));
    SymbolValue(Third(b, 0));
    PaddingIsZero();
    Rejoined(a, b, 0);
  }

  lemma GroupValuesOne(a: Byte)
    ensures Triple([Symbol(First(a)), Symbol(Second(a, 0)), Pad, Pad]) == [a, 0, 0]
  {
    SymbolValue(First(a));
    SymbolValue(Second(a, 0));
    PaddingIsZero();
    Rejoined(a, 0, 0);
  }

  lemma GroupUnpacked(g: Bytes)
    requires 1 <= |g| <= 3
    ensures Triple(Group(g)) == g + Zeros(3 - |g|)
  {
    if |g| == 3 {
      GroupValues(g[0], g[1], g[2]);
    } else if |g| == 2 {
      GroupValuesTwo(g[0], g[1]);
    } else {
      GroupValuesOne(g[0]);
    }
  }

  lemma GroupShape(g: Bytes)
    requires 1 <= |g| <= 3
    ensures forall k :: 0 <= k <= |g| ==> IsSymbol(Group(g)[k])
    ensures forall k :: |g| < k < 4 ==> Group(g)[k] == Pad
  {
    SymbolValue(First(g[0]));
    SymbolValue(Second(g[0], if |g| > 1 then g[1] else 0));
    if |g| > 1 { SymbolValue(Third(g[1], if |g| > 2 then g[2] else 0)); }
    if |g| > 2 { SymbolValue(Fourth(g[2])); }
  }

  lemma Assoc(a: Bytes, b: Bytes, c: Bytes)
    ensures (a + b) + c == a + (b + c)
  {
  }

  function Zeros(n: nat): (z: Bytes)
    ensures |z| == n
  {
    seq(n, _ => 0)
  }

  /** How many bytes are missing from the last group. */
  function Missing(n: nat): (m: nat)
    ensures m <= 2
  {
    3 * Groups(n) - n
  }

  /** Decoding without taking anything off gives the bytes, rounded up with zeros. */
  lemma {:induction false} UnpackedEncoded(x: Bytes)
    ensures Unpacked(Encoded(x)) == x + Zeros(Missing(|x|))
  {
    if x == [] {
      assert x + Zeros(Missing(|x|)) == x;
    } else if |x| <= 3 {
      GroupUnpacked(x);
      OneGroup(Group(x));
    } else {
      UnpackedEncoded(x[3..]);
      GroupUnpacked(x[..3]);
      UnpackedStep(Group(x[..3]), Encoded(x[3..]));
      Rounded(x, Missing(|x|));
    }
  }

  lemma Rounded(x: Bytes, n: nat)
    requires |x| > 3
    ensures (x[..3] + Zeros(0)) + (x[3..] + Zeros(n)) == x + Zeros(n)
  {
  }

  lemma OneGroup(four: Bytes)
    requires |four| == 4
    ensures Unpacked(four) == Triple(four)
  {
    UnpackedStep(four, []);
    assert four + [] == four;
  }

  lemma UnpackedStep(four: Bytes, rest: Bytes)
    requires |four| == 4 && |rest| % 4 == 0
    ensures Unpacked(four + rest) == Triple(four) + Unpacked(rest)
  {
    assert (four + rest)[..4] == four && (four + rest)[4..] == rest;
  }

  /** All characters of a code are symbols but for the padding, one character a missing
      byte. */
  lemma {:induction false} EncodedShape(x: Bytes)
    ensures forall k :: 0 <= k < |Encoded(x)| - Missing(|x|) ==> IsSymbol(Encoded(x)[k])
    ensures forall k :: |Encoded(x)| - Missing(|x|) <= k < |Encoded(x)| ==> Encoded(x)[k] == Pad
  {
    if x == [] {
    } else if |x| <= 3 {
      GroupShape(x);
    } else {
      GroupShape(x[..3]);
      EncodedShape(x[3..]);
      var t, first, rest := Encoded(x), Group(x[..3]), Encoded(x[3..]);
      assert forall k :: 0 <= k < |t| ==> t[k] == if k < 4 then first[k] else rest[k - 4];
    }
  }

  /** Decoding undoes encoding, in both decoders, for every non-empty input. */
  lemma RoundTrip(x: Bytes)
    requires x != []
    ensures |Encoded(x)| > 0 && |Encoded(x)| % 4 == 0
    ensures Decoded(Encoded(x)) == x && DecodedInPlace(Encoded(x)) == x
  {
    UnpackedEncoded(x);
    EncodedShape(x);
    var t := Encoded(x);
    assert !IsSymbol(Pad);
    assert PadCount(t) == PadCountInPlace(t) == Missing(|x|);
    assert x + Zeros(Missing(|x|)) == Unpacked(t);
  }

  /** The two decoders agree exactly on the texts that do not pad the last but one
      character alone. */
  lemma DecodersAgree(t: Bytes)
    requires |t| > 0 && |t| % 4 == 0
    ensures Decoded(t) == DecodedInPlace(t) <==> (t[|t| - 2] == Pad ==> t[|t| - 1] == Pad)
  {
    var n := |Unpacked(t)|;
    assert |Decoded(t)| == n - PadCount(t) && |DecodedInPlace(t)| == n - PadCountInPlace(t);
  }

  /** A text on which they differ, and which the validator accepts. */
  lemma DecodersDiffer()
    ensures var t: Bytes := [65, 65, Pad, 65];
            Accepted(t) && |Decoded(t)| == 2 && |DecodedInPlace(t)| == 3
  {
  }

  // ---------------------------------------------------------------------------
  // The validator
  // ---------------------------------------------------------------------------

  /** The tests of the validator on the first `len` bytes of a buffer, which looks for
      padding at their start, even if there are none. */
  predicate AcceptedIn(b: Bytes, len: nat)
    requires len <= |b| && 2 <= |b|
  {
    && (forall k :: 0 <= k < len - 2 ==> IsSymbol(b[k]))
    && ((b[1] == Pad && b[0] == Pad) || (IsSymbol(b[0]) && IsSymbol(b[1])))
  }

  predicate Accepted(t: Bytes)
    requires |t| > 0
  {
    |t| % 4 == 0 && AcceptedIn(t, |t|)
  }

  /** What is accepted: a length that is a multiple of four, and symbols but for the last
      two characters, which may be anything. */
  lemma AcceptedExactly(t: Bytes)
    requires |t| > 0
    ensures Accepted(t) <==> |t| % 4 == 0 && forall k :: 0 <= k < |t| - 2 ==> IsSymbol(t[k])
  {
  }

  /** Every code of a non-empty input is accepted. */
  lemma CodesAreAccepted(x: Bytes)
    requires x != []
    ensures |Encoded(x)| > 0 && Accepted(Encoded(x))
  {
    EncodedShape(x);
  }

  method Validate(b: array<Byte>, len: nat) returns (ok: bool)
    requires len <= b.Length && (len % 4 == 0 ==> 2 <= b.Length)
    ensures ok == (len % 4 == 0 && AcceptedIn(b[..], len))
    ensures len > 0 ==> ok == Accepted(b[..][..len])
  {
    if len % 4 != 0 {
      return false;
    }
    var i := 0;
    while i < len - 2
      invariant 0 <= i && (i <= len - 2 || i == 0) && forall k :: 0 <= k < i ==> IsSymbol(b[k])
    {
      if !IsSymbol(b[i]) {
        return false;
      }
      i := i + 1;
    }
    var first, second := b[0], b[1];
    if second == Pad && first == Pad {
      return true;
    }
    return IsSymbol(first) && IsSymbol(second);
  }

  // ---------------------------------------------------------------------------
  // The loops
  // ---------------------------------------------------------------------------

  /** `base64_encode_maxlen`: room for a code and a terminator. */
  function MaxLength(n: nat): (m: nat)
    ensures forall x: Bytes :: |x| == n ==> |Encoded(x)| + 1 == m
  {
    assert (n + 2) / 3 == Groups(n);
    (n + 2) / 3 * 4 + 1
  }

  /** `b` with the bytes from `at` on overwritten by `s`. */
  function Put(b: Bytes, at: nat, s: Bytes): (t: Bytes)
    requires at + |s| <= |b|
    ensures |t| == |b|
  {
    b[..at] + s + b[at + |s|..]
  }

  lemma PutAfter(done: Bytes, was: Bytes, s: Bytes)
    requires |done| + |s| <= |was|
    ensures Put(done + was[|done|..], |done|, s) == (done + s) + was[|done| + |s|..]
  {
  }

  lemma EncodedStep(done: Bytes, rest: Bytes, n: nat)
    requires 1 <= n <= 3 && n <= |rest| && (n < 3 ==> n == |rest|)
    ensures done + Encoded(rest) == (done + Group(rest[..n])) + Encoded(rest[n..])
    ensures |Encoded(rest)| == 4 + |Encoded(rest[n..])|
  {
    if |rest| <= 3 {
      assert rest[..n] == rest && rest[n..] == [];
      assert Encoded(rest[n..]) == [];
    } else {
      Assoc(done, Group(rest[..3]), Encoded(rest[3..]));
    }
  }

  /** The first `i` bytes of `x` are encoded, as `done`, at the start of the buffer `now`
      that was `was`. */
  ghost predicate Encoding(x: Bytes, was: Bytes, done: Bytes, i: nat, now: Bytes)
  {
    && i <= |x| && |done| + |Encoded(x[i..])| == |Encoded(x)| <= |was|
    && done + Encoded(x[i..]) == Encoded(x) && now == done + was[|done|..]
  }

  lemma EncodingStarts(x: Bytes, was: Bytes)
    requires |Encoded(x)| <= |was|
    ensures Encoding(x, was, [], 0, was)
  {
    assert x[0..] == x;
  }

  lemma EncodingStep(x: Bytes, was: Bytes, done: Bytes, i: nat, now: Bytes, n: nat)
    requires Encoding(x, was, done, i, now) && 1 <= n <= 3 && i + n <= |x| && (n < 3 ==> i + n == |x|)
    ensures |done| + 4 <= |was| == |now|
    ensures Encoding(x, was, done + Group(x[i..i + n]), i + n, Put(now, |done|, Group(x[i..i + n])))
  {
    RestSlices(x, i, n);
    EncodedStep(done, x[i..], n);
    EncodingPut(was, done, now, Group(x[i..i + n]));
  }

  lemma RestSlices(x: Bytes, i: nat, n: nat)
    requires i + n <= |x|
    ensures x[i..][..n] == x[i..i + n] && x[i..][n..] == x[i + n..]
  {
  }

  lemma EncodingPut(was: Bytes, done: Bytes, now: Bytes, four: Bytes)
    requires |four| == 4 && |done| + 4 <= |was| && now == done + was[|done|..]
    ensures Put(now, |done|, four) == (done + four) + was[|done + four|..]
  {
    PutAfter(done, was, four);
  }

  lemma EncodingEnds(x: Bytes, was: Bytes, done: Bytes, now: Bytes)
    requires Encoding(x, was, done, |x|, now)
    ensures done == Encoded(x) && now == Encoded(x) + was[|Encoded(x)|..]
  {
    assert done + Encoded(x[|x|..]) == done;
  }

  /** The characters for `n` bytes of the input. */
  method GroupOf(bytes: array<Byte>, i: nat, n: nat) returns (c0: Byte, c1: Byte, c2: Byte, c3: Byte)
    requires 1 <= n <= 3 && i + n <= bytes.Length
    ensures [c0, c1, c2, c3] == Group(bytes[..][i..i + n])
  {
    c0, c2, c3 := Symbol(First(bytes[i])), Pad, Pad;
    if n == 1 {
      c1 := Symbol(Second(bytes[i], 0));
    } else if n == 2 {
      c1, c2 := Symbol(Second(bytes[i], bytes[i + 1])), Symbol(Third(bytes[i + 1], 0));
    } else {
      c1, c2 := Symbol(Second(bytes[i], bytes[i + 1])), Symbol(Third(bytes[i + 1], bytes[i + 2]));
      c3 := Symbol(Fourth(bytes[i + 2]));
    }
  }

  method PutFour(out: array<Byte>, j: nat, c0: Byte, c1: Byte, c2: Byte, c3: Byte)
    requires j + 4 <= out.Length
    modifies out
    ensures out[..] == Put(old(out[..]), j, [c0, c1, c2, c3])
  {
    out[j], out[j + 1], out[j + 2], out[j + 3] := c0, c1, c2, c3;
  }

  lemma SliceOf(b: Bytes, from: nat, len: nat, i: nat, n: nat)
    requires from + len <= |b| && i + n <= len
    ensures b[from..from + len][i..i + n] == b[from + i..from + i + n]
  {
    var t, u := b[from..from + len][i..i + n], b[from + i..from + i + n];
    assert |t| == |u| && forall k :: 0 <= k < |t| ==> t[k] == u[k];
  }

  /** One turn of the encoder's loop, or what follows it. */
  method EncodeGroup(bytes: array<Byte>, i: nat, n: nat, out: array<Byte>, j: nat, ghost x: Bytes, ghost was: Bytes,
                     ghost done: Bytes)
    returns (ghost more: Bytes)
    requires 1 <= n <= 3 && bytes != out && |x| <= bytes.Length && bytes[..][0..|x|] == x
    requires Encoding(x, was, done, i, out[..]) && j == |done| && i + n <= |x| && (n < 3 ==> i + n == |x|)
    modifies out
    ensures |more| == j + 4 && Encoding(x, was, more, i + n, out[..])
  {
    EncodingStep(x, was, done, i, out[..], n);
    var c0, c1, c2, c3 := GroupOf(bytes, i, n);
    SliceOf(bytes[..], 0, |x|, i, n);
    more := done + Group(x[i..i + n]);
    PutFour(out, j, c0, c1, c2, c3);
  }

  method Encode(bytes: array<Byte>, n: nat, out: array<Byte>) returns (length: nat)
    requires n <= bytes.Length && |Encoded(bytes[..][..n])| <= out.Length && bytes != out
    modifies out
    ensures length == |Encoded(bytes[..][..n])| <= out.Length
    ensures out[..] == Encoded(bytes[..][..n]) + old(out[..])[length..]
  {
    ghost var x, was := bytes[..][..n], out[..];
    ghost var done: Bytes := [];
    EncodingStarts(x, was);
    var i: nat, j: nat, len := 0, 0, n;
    while len >= 3
      invariant i + len == n && j == |done| && bytes[..][0..n] == x && out.Length == |was|
      invariant Encoding(x, was, done, i, out[..])
    {
      done := EncodeGroup(bytes, i, 3, out, j, x, was, done);
      i, j, len := i + 3, j + 4, len - 3;
    }
    if len >= 1 {
      done := EncodeGroup(bytes, i, len, out, j, x, was, done);
      j := j + 4;
    }
    EncodingEnds(x, was, done, out[..]);
    length := j;
  }

  // ---------------------------------------------------------------------------
  // Decoding
  // ---------------------------------------------------------------------------

  /** The first `i` characters of `t` are decoded to `done`. */
  ghost predicate Unpacking(t: Bytes, done: Bytes, i: nat)
  {
    && i <= |t| && |t| % 4 == 0 && |t[i..]| % 4 == 0 && 4 * |done| == 3 * i
    && done + Unpacked(t[i..]) == Unpacked(t)
  }

  lemma UnpackingStarts(t: Bytes)
    requires |t| % 4 == 0
    ensures Unpacking(t, [], 0)
  {
    assert t[0..] == t;
  }

  lemma UnpackingStep(t: Bytes, done: Bytes, i: nat)
    requires Unpacking(t, done, i) && i < |t|
    ensures i + 4 <= |t| && Unpacking(t, done + Triple(t[i..i + 4]), i + 4)
  {
    var rest := t[i..];
    assert rest[..4] == t[i..i + 4] && rest[4..] == t[i + 4..];
    Assoc(done, Triple(rest[..4]), Unpacked(rest[4..]));
  }

  lemma UnpackingEnds(t: Bytes, done: Bytes)
    requires Unpacking(t, done, |t|)
    ensures done == Unpacked(t) && 4 * |done| == 3 * |t|
  {
    assert done + Unpacked(t[|t|..]) == done;
  }

  /** The bytes of the group at `i`. */
  method DecodeGroup(bytes: array<Byte>, i: nat) returns (b0: Byte, b1: Byte, b2: Byte)
    requires i + 4 <= bytes.Length
    ensures [b0, b1, b2] == Triple(bytes[..][i..i + 4])
  {
    b0 := (Value(bytes[i]) << 2) | (Value(bytes[i + 1]) >> 4);
    b1 := (Value(bytes[i + 1]) << 4) | (Value(bytes[i + 2]) >> 2);
    b2 := (Value(bytes[i + 2]) << 6) | Value(bytes[i + 3]);
  }

  method PutThree(out: array<Byte>, j: nat, b0: Byte, b1: Byte, b2: Byte)
    requires j + 3 <= out.Length
    modifies out
    ensures out[..] == Put(old(out[..]), j, [b0, b1, b2])
  {
    out[j], out[j + 1], out[j + 2] := b0, b1, b2;
  }

  /** One turn of the decoder's loop. */
  method UnpackGroup(bytes: array<Byte>, at: nat, out: array<Byte>, j: nat, ghost t: Bytes, ghost i: nat,
                     ghost was: Bytes, ghost done: Bytes)
    returns (ghost more: Bytes)
    requires bytes != out && at + 4 <= bytes.Length && i < |t| && Unpacking(t, done, i) && i + 4 <= |t|
    requires bytes[..][at..at + 4] == t[i..i + 4] && j == |done| && j + 3 <= |was| && out[..] == done + was[j..]
    modifies out
    ensures |more| == j + 3 && Unpacking(t, more, i + 4) && out[..] == more + was[j + 3..]
  {
    UnpackingStep(t, done, i);
    var b0, b1, b2 := DecodeGroup(bytes, at);
    more := done + Triple(t[i..i + 4]);
    PutAfter(done, was, [b0, b1, b2]);
    PutThree(out, j, b0, b1, b2);
  }

  /** The decoder's loop has decoded `i` of the characters of `t`, from `from` on. */
  ghost predicate UnpackedSoFar(t: Bytes, done: Bytes, i: nat, was: Bytes, now: Bytes)
  {
    Unpacking(t, done, i) && |done| <= |was| && now == done + was[|done|..] && 3 * |t| <= 4 * |was|
  }

  /** The loop of the decoder into a second buffer; `b64_decode` of src/cl_cluster.c is
      this loop alone. */
  method Unpack(bytes: array<Byte>, from: nat, len: nat, out: array<Byte>) returns (i: nat, j: nat)
    requires from + len <= bytes.Length && len % 4 == 0 && bytes != out && 3 * len <= 4 * out.Length
    modifies out
    ensures i == len && 4 * j == 3 * len && j <= out.Length
    ensures out[..] == Unpacked(bytes[..][from..from + len]) + old(out[..])[j..]
  {
    ghost var t, was, done: Bytes := bytes[..][from..from + len], out[..], [];
    UnpackingStarts(t);
    i, j := 0, 0;
    while i < len
      invariant i <= len && j == |done| && UnpackedSoFar(t, done, i, was, out[..])
    {
      done := UnpackAt(bytes, from, len, i, out, j, t, was, done);
      i, j := i + 4, j + 3;
    }
    UnpackingEnds(t, done);
  }

  method UnpackAt(bytes: array<Byte>, from: nat, len: nat, i: nat, out: array<Byte>, j: nat, ghost t: Bytes,
                  ghost was: Bytes, ghost done: Bytes)
    returns (ghost more: Bytes)
    requires bytes != out && from + len <= bytes.Length && i < len == |t| && bytes[..][from..from + len] == t
    requires j == |done| && UnpackedSoFar(t, done, i, was, out[..])
    modifies out
    ensures i + 4 <= len && |more| == j + 3 && UnpackedSoFar(t, more, i + 4, was, out[..])
  {
    UnpackingFits(t, done, i, |was|);
    SliceOf(bytes[..], from, len, i, 4);
    more := UnpackGroup(bytes, from + i, out, j, t, i, was, done);
  }

  lemma UnpackingFits(t: Bytes, done: Bytes, i: nat, room: nat)
    requires Unpacking(t, done, i) && i < |t| && 3 * |t| <= 4 * room
    ensures i + 4 <= |t| && |done| + 3 <= room
  {
  }

  lemma DecodedFrom(t: Bytes, out: Bytes, j: nat, length: nat)
    requires |t| > 0 && |t| % 4 == 0 && 4 * j == 3 * |t| && j <= |out| && out[..j] == Unpacked(t)
    requires length == j - PadCount(t)
    ensures length <= |out| && out[..length] == Decoded(t)
  {
    assert out[..length] == out[..j][..length];
  }

  /** The decoder into a second buffer; without validation the caller must know that the
      length is right. */
  method Decode(bytes: array<Byte>, len: nat, out: array<Byte>, validate: bool) returns (ok: bool, length: nat)
    requires 0 < len <= bytes.Length && (!validate ==> len % 4 == 0) && bytes != out && 3 * len <= 4 * out.Length
    modifies out
    ensures ok == (validate ==> Accepted(bytes[..][..len]))
    ensures ok ==> len % 4 == 0 && length <= out.Length && out[..][..length] == Decoded(bytes[..][..len])
    ensures !ok ==> out[..] == old(out[..])
  {
    length, ok := 0, true;
    if validate {
      ok := Validate(bytes, len);
      if !ok {
        return;
      }
    }
    ghost var t := bytes[..][..len];
    var i, j := Unpack(bytes, 0, len, out);
    assert bytes[..][0..len] == t && out[..][..j] == Unpacked(t);
    length := j;
    if bytes[i - 1] == Pad { length := length - 1; }
    if bytes[i - 2] == Pad { length := length - 1; }
    DecodedFrom(t, out[..], j, length);
  }

  /** `done` stands at the start of `now`, which from `i` on still is `was`. */
  ghost predicate Behind(was: Bytes, now: Bytes, done: Bytes, i: nat)
  {
    |done| <= i <= |was| == |now| && now[..|done|] == done && now[i..] == was[i..]
  }

  lemma BehindStep(was: Bytes, now: Bytes, done: Bytes, i: nat, three: Bytes)
    requires Behind(was, now, done, i) && |three| == 3 && i + 4 <= |was|
    ensures Behind(was, Put(now, |done|, three), done + three, i + 4)
  {
    assert now[i + 4..] == now[i..][4..] && was[i + 4..] == was[i..][4..];
  }

  lemma BehindReads(was: Bytes, now: Bytes, done: Bytes, i: nat, len: nat)
    requires Behind(was, now, done, i) && i + 4 <= len <= |was|
    ensures now[i..i + 4] == was[..len][i..i + 4]
  {
    assert now[i..i + 4] == now[i..][..4] && was[i..i + 4] == was[i..][..4];
  }

  /** The loop of the decoder in place: what is written stays behind what is read. */
  method UnpackInPlace(bytes: array<Byte>, len: nat) returns (j: nat)
    requires len <= bytes.Length && len % 4 == 0
    modifies bytes
    ensures 4 * j == 3 * len && bytes[..][..j] == Unpacked(old(bytes[..])[..len])
    ensures bytes[..][len..] == old(bytes[..])[len..]
  {
    ghost var was, done: Bytes := bytes[..], [];
    ghost var t := was[..len];
    UnpackingStarts(t);
    var i: nat;
    i, j := 0, 0;
    while i < len
      invariant i <= len && j == |done| && Unpacking(t, done, i) && Behind(was, bytes[..], done, i)
    {
      UnpackingStep(t, done, i);
      BehindReads(was, bytes[..], done, i, len);
      var b0, b1, b2 := DecodeGroup(bytes, i);
      BehindStep(was, bytes[..], done, i, [b0, b1, b2]);
      PutThree(bytes, j, b0, b1, b2);
      done := done + [b0, b1, b2];
      i, j := i + 4, j + 3;
    }
    UnpackingEnds(t, done);
  }

  lemma DecodedInPlaceFrom(t: Bytes, now: Bytes, j: nat, length: nat)
    requires |t| > 0 && |t| % 4 == 0 && 4 * j == 3 * |t| && j <= |now| && now[..j] == Unpacked(t)
    requires length == j - PadCountInPlace(t)
    ensures length <= |now| && now[..length] == DecodedInPlace(t)
  {
    assert now[..length] == now[..j][..length];
  }

  /** The decoder that overwrites the text with the bytes. */
  method DecodeInPlace(bytes: array<Byte>, len: nat, validate: bool) returns (ok: bool, length: nat)
    requires 0 < len <= bytes.Length && (!validate ==> len % 4 == 0)
    modifies bytes
    ensures ok == (validate ==> Accepted(old(bytes[..])[..len]))
    ensures ok ==> len % 4 == 0 && length <= bytes.Length
    ensures ok ==> bytes[..][..length] == DecodedInPlace(old(bytes[..])[..len])
    ensures ok ==> bytes[..][len..] == old(bytes[..])[len..]
    ensures !ok ==> bytes[..] == old(bytes[..])
  {
    length, ok := 0, true;
    if validate {
      ok := Validate(bytes, len);
      if !ok {
        return;
      }
    }
    ghost var t := bytes[..][..len];
    var correction := 0;
    if bytes[len - 1] == Pad {
      correction := if bytes[len - 2] == Pad then 2 else 1;
    }
    assert correction == PadCountInPlace(t);
    var j := UnpackInPlace(bytes, len);
    length := j - correction;
    DecodedInPlaceFrom(t, bytes[..], j, length);
  }
}
