/**
 The replicas text of src/cl_cluster.c: `name:bitmap;name:bitmap`, each bitmap in base 64,
 one bit a partition.  `Parsed` says which ownership vectors a text describes; the method
 reads them out of the text in place, overwriting its separators, and sets the vectors in
 place.
 */
module Replicas {
  import opened Base64

  const Colon: Byte := 0x3a
  const Semicolon: Byte := 0x3b

  /** Names longer than this do not fit their field. */
  const MaxName := 31

  // ---------------------------------------------------------------------------
  // Bitmaps
  // ---------------------------------------------------------------------------

  predicate Bit(b: Byte, j: nat)
    requires j < 8
  {
    b & ((0x80 as Byte) >> j) != 0
  }

  /** Bits are counted from the top. */
  lemma BitFromTop(b: Byte, j: nat)
    requires j < 8
    ensures Bit(b, j) <==> (b >> (7 - j)) & 1 == 1
  {
    if j == 0 { assert (0x80 as Byte) >> j == 0x80; }
    else if j == 1 { assert (0x80 as Byte) >> j == 0x40; }
    else if j == 2 { assert (0x80 as Byte) >> j == 0x20; }
    else if j == 3 { assert (0x80 as Byte) >> j == 0x10; }
    else if j == 4 { assert (0x80 as Byte) >> j == 0x08; }
    else if j == 5 { assert (0x80 as Byte) >> j == 0x04; }
    else if j == 6 { assert (0x80 as Byte) >> j == 0x02; }
    else { assert (0x80 as Byte) >> j == 0x01; }
  }

  function Mask(o: seq<bool>, k: nat, mask: Byte): (b: Byte)
  {
    if k < |o| && o[k] then mask else 0
  }

  /** Eight flags, the first in the top bit. */
  function PackedByte(o: seq<bool>): (b: Byte)
  {
    Mask(o, 0, 0x80) | Mask(o, 1, 0x40) | Mask(o, 2, 0x20) | Mask(o, 3, 0x10)
    | Mask(o, 4, 0x08) | Mask(o, 5, 0x04) | Mask(o, 6, 0x02) | Mask(o, 7, 0x01)
  }

  function Bitmap(owns: seq<bool>): (b: Bytes)
    ensures |b| == (|owns| + 7) / 8
  {
    if owns == [] then [] else if |owns| <= 8 then [PackedByte(owns)] else [PackedByte(owns[..8])] + Bitmap(owns[8..])
  }

  lemma PackedBit(o: seq<bool>, j: nat)
    requires j < 8
    ensures Bit(PackedByte(o), j) == (j < |o| && o[j])
  {
    if j == 0 { assert (0x80 as Byte) >> j == 0x80; }
    else if j == 1 { assert (0x80 as Byte) >> j == 0x40; }
    else if j == 2 { assert (0x80 as Byte) >> j == 0x20; }
    else if j == 3 { assert (0x80 as Byte) >> j == 0x10; }
    else if j == 4 { assert (0x80 as Byte) >> j == 0x08; }
    else if j == 5 { assert (0x80 as Byte) >> j == 0x04; }
    else if j == 6 { assert (0x80 as Byte) >> j == 0x02; }
    else { assert (0x80 as Byte) >> j == 0x01; }
  }

  lemma {:induction false} BitmapBit(owns: seq<bool>, i: nat)
    requires i < |owns|
    ensures i / 8 < |Bitmap(owns)| && Bit(Bitmap(owns)[i / 8], i % 8) == owns[i]
  {
    if i < 8 {
      PackedBit(if |owns| <= 8 then owns else owns[..8], i);
    } else {
      BitmapBit(owns[8..], i - 8);
      assert Bitmap(owns)[i / 8] == Bitmap(owns[8..])[(i - 8) / 8];
    }
  }

  /** What reading a bitmap over `n` flags adds to them: flags are only ever set. */
  function WithBits(owns: seq<bool>, bitmap: Bytes): (s: seq<bool>)
    requires |owns| <= 8 * |bitmap|
    ensures |s| == |owns|
  {
    seq(|owns|, i requires 0 <= i < |owns| => owns[i] || Bit(bitmap[i / 8], i % 8))
  }

  function AllFalse(n: nat): (s: seq<bool>)
    ensures |s| == n
  {
    seq(n, _ => false)
  }

  // ---------------------------------------------------------------------------
  // The text
  // ---------------------------------------------------------------------------

  /** `k` is the first place of `c`, or the end. */
  ghost predicate IsFirst(t: Bytes, c: Byte, k: nat)
  {
    k <= |t| && (k < |t| ==> t[k] == c) && forall i :: 0 <= i < k ==> t[i] != c
  }

  lemma {:induction false} FirstExists(t: Bytes, c: Byte)
    ensures exists k: nat :: IsFirst(t, c, k)
  {
    if t == [] || t[0] == c {
      assert IsFirst(t, c, 0);
    } else {
      FirstExists(t[1..], c);
      var k: nat :| IsFirst(t[1..], c, k);
      assert forall i :: 0 < i < k + 1 ==> t[i] == t[1..][i - 1];
      assert IsFirst(t, c, k + 1);
    }
  }

  ghost function IndexOf(t: Bytes, c: Byte): (k: nat)
    ensures IsFirst(t, c, k)
  {
    FirstExists(t, c);
    var k: nat :| IsFirst(t, c, k);
    k
  }

  lemma FirstIs(t: Bytes, c: Byte, k: nat)
    requires IsFirst(t, c, k)
    ensures IndexOf(t, c) == k
  {
  }

  predicate IsSpace(c: Byte)
  {
    c == 0x20 || 0x09 <= c <= 0x0d
  }

  function TrimmedLeft(s: Bytes): (t: Bytes)
    ensures |t| <= |s| && t == s[|s| - |t|..]
  {
    if s != [] && IsSpace(s[0]) then TrimmedLeft(s[1..]) else s
  }

  function TrimmedRight(s: Bytes): (t: Bytes)
    ensures |t| <= |s| && t == s[..|t|]
  {
    if s != [] && IsSpace(s[|s| - 1]) then TrimmedRight(s[..|s| - 1]) else s
  }

  function Trimmed(s: Bytes): (t: Bytes)
  {
    TrimmedRight(TrimmedLeft(s))
  }

  datatype Owned = Owned(ns: Bytes, owns: seq<bool>)

  function ExpectedLength(n: nat): (len: nat)
  {
    ((n + 7) / 8 + 2) / 3 * 4
  }

  /** The place of a namespace in the vector, or its end. */
  function Find(maps: seq<Owned>, ns: Bytes): (k: nat)
    ensures k <= |maps| && (k < |maps| ==> maps[k].ns == ns)
    ensures forall i :: 0 <= i < k ==> maps[i].ns != ns
  {
    if maps == [] || maps[0].ns == ns then 0
    else
      var k := Find(maps[1..], ns);
      assert forall i :: 0 < i < k + 1 ==> maps[i] == maps[1..][i - 1];
      k + 1
  }

  predicate Sized(maps: seq<Owned>, n: nat)
  {
    forall m :: m in maps ==> |m.owns| == n
  }

  /** The vector with a map for the namespace. */
  function Get(maps: seq<Owned>, ns: Bytes, n: nat): (got: seq<Owned>)
    ensures Find(maps, ns) < |got| && got[Find(maps, ns)].ns == ns
    ensures Sized(maps, n) ==> Sized(got, n)
  {
    if Find(maps, ns) < |maps| then maps else maps + [Owned(ns, AllFalse(n))]
  }

  /** The bitmap of a code of the right length, which is long enough for `n` flags. */
  function BitmapOf(encoded: Bytes, n: nat): (b: Bytes)
    requires |encoded| == ExpectedLength(n)
    ensures n <= 8 * |b|
  {
    LongEnough(encoded, n);
    Unpacked(encoded)
  }

  lemma LongEnough(encoded: Bytes, n: nat)
    requires |encoded| == ExpectedLength(n)
    ensures |encoded| % 4 == 0 && n <= 8 * |Unpacked(encoded)|
  {
  }

  /** One entry of the text: ignored unless the name and the bitmap have good lengths. */
  function Entered(maps: seq<Owned>, ns: Bytes, encoded: Bytes, n: nat): (after: seq<Owned>)
    requires Sized(maps, n)
    ensures Sized(after, n)
  {
    if |ns| == 0 || |ns| > MaxName || |encoded| != ExpectedLength(n) then maps
    else
      var k, got := Find(maps, ns), Get(maps, ns, n);
      got[k := Owned(ns, WithBits(got[k].owns, BitmapOf(encoded, n)))]
  }

  /** What is left of a text after the entry at its start. */
  ghost function AfterEntry(rest: Bytes): (next: Bytes)
    ensures |next| <= |rest|
  {
    var s := IndexOf(rest, Semicolon);
    if s < |rest| then rest[s + 1..] else []
  }

  /** The vectors a text describes, added to those already there. */
  ghost function Parsed(t: Bytes, n: nat, maps: seq<Owned>): (after: seq<Owned>)
    requires Sized(maps, n)
    ensures Sized(after, n)
    decreases |t|
  {
    var c := IndexOf(t, Colon);
    if c == |t| then maps
    else
      var rest := t[c + 1..];
      var s := IndexOf(rest, Semicolon);
      Parsed(AfterEntry(rest), n, Entered(maps, Trimmed(t[..c]), rest[..s], n))
  }

  // ---------------------------------------------------------------------------
  // Round trip
  // ---------------------------------------------------------------------------

  /** The text of one entry. */
  function Item(m: Owned): (t: Bytes)
  {
    m.ns + [Colon] + Encoded(Bitmap(m.owns))
  }

  function Printed(maps: seq<Owned>): (t: Bytes)
  {
    if maps == [] then [] else if |maps| == 1 then Item(maps[0]) else Item(maps[0]) + [Semicolon] + Printed(maps[1..])
  }

  /** A namespace a server can report: trimmed, short enough, without separators. */
  predicate IsName(ns: Bytes)
  {
    1 <= |ns| <= MaxName && Colon !in ns && Semicolon !in ns && !IsSpace(ns[0]) && !IsSpace(ns[|ns| - 1])
  }

  lemma EncodedLength(owns: seq<bool>)
    ensures |Encoded(Bitmap(owns))| == ExpectedLength(|owns|)
  {
    assert Groups(|Bitmap(owns)|) == (|Bitmap(owns)| + 2) / 3;
  }

  lemma CodesHaveNoSeparators(x: Bytes)
    ensures Colon !in Encoded(x) && Semicolon !in Encoded(x)
  {
    EncodedShape(x);
    assert !IsSymbol(Colon) && !IsSymbol(Semicolon) && Colon != Pad && Semicolon != Pad;
    forall k | 0 <= k < |Encoded(x)| ensures Encoded(x)[k] != Colon && Encoded(x)[k] != Semicolon
    {
      if k < |Encoded(x)| - Missing(|x|) { assert IsSymbol(Encoded(x)[k]); } else { assert Encoded(x)[k] == Pad; }
    }
  }

  lemma BitsRead(owns: seq<bool>)
    ensures |Encoded(Bitmap(owns))| == ExpectedLength(|owns|)
    ensures WithBits(AllFalse(|owns|), BitmapOf(Encoded(Bitmap(owns)), |owns|)) == owns
  {
    var b := Bitmap(owns);
    EncodedLength(owns);
    UnpackedEncoded(b);
    BitsIgnoreTail(owns, b, Zeros(Missing(|b|)));
  }

  lemma BitsIgnoreTail(owns: seq<bool>, b: Bytes, tail: Bytes)
    requires b == Bitmap(owns) && |owns| <= 8 * |b + tail|
    ensures WithBits(AllFalse(|owns|), b + tail) == owns
  {
    forall i | 0 <= i < |owns| ensures WithBits(AllFalse(|owns|), b + tail)[i] == owns[i]
    {
      BitmapBit(owns, i);
      assert (b + tail)[i / 8] == b[i / 8];
    }
  }

  lemma IndexSkips(s: Bytes, c: Byte, t: Bytes)
    requires c !in s && (t == [] || t[0] == c)
    ensures IndexOf(s + t, c) == |s|
  {
    assert forall i :: 0 <= i < |s| ==> (s + t)[i] in s;
    FirstIs(s + t, c, |s|);
  }

  /** A printed entry adds its vector. */
  lemma EnteredItem(maps: seq<Owned>, m: Owned, n: nat)
    requires Sized(maps, n) && |m.owns| == n && IsName(m.ns) && Find(maps, m.ns) == |maps|
    ensures Entered(maps, m.ns, Encoded(Bitmap(m.owns)), n) == maps + [m]
  {
    BitsRead(m.owns);
    AddedLast(maps, Owned(m.ns, AllFalse(n)), m);
  }

  lemma AddedLast(maps: seq<Owned>, m: Owned, now: Owned)
    ensures (maps + [m])[|maps| := now] == maps + [now]
  {
  }

  lemma NameIsTrimmed(ns: Bytes)
    requires IsName(ns)
    ensures Trimmed(ns) == ns
  {
  }

  ghost predicate Distinct(maps: seq<Owned>)
  {
    forall j, k :: 0 <= j < k < |maps| ==> maps[j].ns != maps[k].ns
  }

  lemma ItemSplits(ns: Bytes, code: Bytes, tail: Bytes)
    requires Colon !in ns && Semicolon !in code && (tail == [] || tail[0] == Semicolon)
    ensures var t := ns + ([Colon] + (code + tail));
            IndexOf(t, Colon) == |ns| && t[..|ns|] == ns && t[|ns| + 1..] == code + tail
    ensures IndexOf(code + tail, Semicolon) == |code| && (code + tail)[..|code|] == code
    ensures AfterEntry(code + tail) == if tail == [] then [] else tail[1..]
  {
    IndexSkips(ns, Colon, [Colon] + (code + tail));
    IndexSkips(code, Semicolon, tail);
    assert tail != [] ==> (code + tail)[|code| + 1..] == tail[1..];
  }

  lemma ItemRegroups(ns: Bytes, code: Bytes, tail: Bytes)
    ensures (ns + [Colon] + code) + tail == ns + ([Colon] + (code + tail))
  {
    Assoc(ns + [Colon], code, tail);
    Assoc(ns, [Colon], code + tail);
  }

  /** A text that starts with an entry adds what the entry says. */
  lemma ParsedHead(ns: Bytes, code: Bytes, tail: Bytes, n: nat, maps: seq<Owned>)
    requires Sized(maps, n) && Colon !in ns && Semicolon !in code && (tail == [] || tail[0] == Semicolon)
    ensures Parsed(ns + ([Colon] + (code + tail)), n, maps) ==
            Parsed(if tail == [] then [] else tail[1..], n, Entered(maps, Trimmed(ns), code, n))
  {
    ItemSplits(ns, code, tail);
    ParsedStep(ns + ([Colon] + (code + tail)), |ns|, code + tail, |code|, n, maps);
  }

  lemma ParsedItem(m: Owned, tail: Bytes, n: nat, maps: seq<Owned>)
    requires Sized(maps, n) && |m.owns| == n && IsName(m.ns) && Find(maps, m.ns) == |maps|
    requires tail == [] || tail[0] == Semicolon
    ensures Sized(maps + [m], n)
    ensures Parsed(Item(m) + tail, n, maps) == Parsed(if tail == [] then [] else tail[1..], n, maps + [m])
  {
    CodesHaveNoSeparators(Bitmap(m.owns));
    ItemRegroups(m.ns, Encoded(Bitmap(m.owns)), tail);
    EnteredItem(maps, m, n);
    NameIsTrimmed(m.ns);
    ParsedHead(m.ns, Encoded(Bitmap(m.owns)), tail, n, maps);
  }

  lemma ParsedStep(t: Bytes, c: nat, rest: Bytes, s: nat, n: nat, maps: seq<Owned>)
    requires Sized(maps, n) && c < |t| && IndexOf(t, Colon) == c && rest == t[c + 1..] && s == IndexOf(rest, Semicolon)
    ensures Parsed(t, n, maps) == Parsed(AfterEntry(rest), n, Entered(maps, Trimmed(t[..c]), rest[..s], n))
  {
  }

  lemma FirstMoves(maps: seq<Owned>, more: seq<Owned>)
    requires more != []
    ensures maps + more == (maps + [more[0]]) + more[1..]
  {
  }

  /** Each of `more` is new when its turn comes. */
  ghost predicate Addable(maps: seq<Owned>, more: seq<Owned>, n: nat)
    decreases |more|
  {
    more == [] ||
    (IsName(more[0].ns) && |more[0].owns| == n && Find(maps, more[0].ns) == |maps|
     && Addable(maps + [more[0]], more[1..], n))
  }

  lemma NewName(maps: seq<Owned>, m: Owned, more: seq<Owned>)
    requires Distinct(maps + ([m] + more))
    ensures Find(maps, m.ns) == |maps|
  {
    var all := maps + ([m] + more);
    forall i | 0 <= i < |maps| ensures maps[i].ns != m.ns
    {
      assert all[i] == maps[i] && all[|maps|] == m;
    }
  }

  lemma {:induction false} AllAddable(maps: seq<Owned>, more: seq<Owned>, n: nat)
    requires Sized(more, n) && Distinct(maps + more) && forall m :: m in more ==> IsName(m.ns)
    ensures Addable(maps, more, n)
    decreases |more|
  {
    if more != [] {
      assert more == [more[0]] + more[1..];
      NewName(maps, more[0], more[1..]);
      FirstMoves(maps, more);
      AllAddable(maps + [more[0]], more[1..], n);
    }
  }

  /** Parsing a printed text adds its vectors to those already there. */
  lemma {:induction false} RoundTripAfter(maps: seq<Owned>, more: seq<Owned>, n: nat)
    requires Sized(maps, n) && Addable(maps, more, n)
    ensures Parsed(Printed(more), n, maps) == maps + more
    decreases |more|
  {
    if |more| == 1 {
      assert Item(more[0]) + [] == Item(more[0]);
      ParsedItem(more[0], [], n, maps);
      assert more == [more[0]];
    } else if |more| > 1 {
      var tail := [Semicolon] + Printed(more[1..]);
      Assoc(Item(more[0]), [Semicolon], Printed(more[1..]));
      ParsedItem(more[0], tail, n, maps);
      assert tail[1..] == Printed(more[1..]);
      RoundTripAfter(maps + [more[0]], more[1..], n);
      FirstMoves(maps, more);
    }
  }

  /** Printing any vectors and parsing the text gives exactly those vectors. */
  lemma RoundTrip(maps: seq<Owned>, n: nat)
    requires Sized(maps, n) && Distinct(maps) && forall m :: m in maps ==> IsName(m.ns)
    ensures Parsed(Printed(maps), n, []) == maps
  {
    assert [] + maps == maps;
    AllAddable([], maps, n);
    RoundTripAfter([], maps, n);
  }

  // ---------------------------------------------------------------------------
  // Any text
  // ---------------------------------------------------------------------------

  /** An entry as it may stand in a text: a name between white space, and a code. */
  datatype Entry = Entry(before: Bytes, name: Bytes, after: Bytes, code: Bytes)

  predicate AllSpace(s: Bytes)
  {
    forall i :: 0 <= i < |s| ==> IsSpace(s[i])
  }

  /** Every text is a row of such entries, however wrong, and a rest without a colon. */
  predicate IsEntry(e: Entry)
  {
    && AllSpace(e.before) && AllSpace(e.after)
    && (if e.name == [] then e.after == [] else !IsSpace(e.name[0]) && !IsSpace(e.name[|e.name| - 1]))
    && Colon !in e.name && Semicolon !in e.code
  }

  function TextOf(entries: seq<Entry>, rest: Bytes): (t: Bytes)
  {
    if entries == [] then rest
    else
      (entries[0].before + entries[0].name + entries[0].after)
      + ([Colon] + (entries[0].code + ([Semicolon] + TextOf(entries[1..], rest))))
  }

  /** The entry counts: a name of 1 to 31 characters, and a code as long as `n` flags need. */
  predicate Counts(e: Entry, n: nat)
  {
    1 <= |e.name| <= 31 && |e.code| == ((n + 7) / 8 + 2) / 3 * 4
  }

  /** The entry flags partition `pid` of `ns`. */
  predicate Sets(e: Entry, ns: Bytes, pid: nat, n: nat)
  {
    && Counts(e, n) && e.name == ns && pid < n && |e.code| % 4 == 0
    && pid / 8 < |Unpacked(e.code)| && Bit(Unpacked(e.code)[pid / 8], pid % 8)
  }

  ghost predicate FlagIn(maps: seq<Owned>, ns: Bytes, pid: nat)
  {
    exists i :: 0 <= i < |maps| && maps[i].ns == ns && pid < |maps[i].owns| && maps[i].owns[pid]
  }

  ghost predicate NameIn(maps: seq<Owned>, ns: Bytes)
  {
    exists i :: 0 <= i < |maps| && maps[i].ns == ns
  }

  lemma PaddedTrims(before: Bytes, name: Bytes, after: Bytes)
    requires AllSpace(before) && AllSpace(after)
    requires if name == [] then after == [] else !IsSpace(name[0]) && !IsSpace(name[|name| - 1])
    ensures Trimmed((before + name) + after) == name
  {
    var right := name + after;
    Assoc(before, name, after);
    forall i | 0 <= i < |before| ensures IsSpace((before + right)[i])
    {
      assert (before + right)[i] == before[i];
    }
    LeftSkips(before + right, |before|);
    assert (before + right)[|before|..] == right;
    forall i | |name| <= i < |right| ensures IsSpace(right[i])
    {
      assert right[i] == after[i - |name|];
    }
    RightSkips(right, |name|);
    assert right[..|name|] == name;
  }

  lemma SpaceHasNoColon(s: Bytes)
    requires AllSpace(s)
    ensures Colon !in s
  {
    assert !IsSpace(Colon);
  }

  lemma NotIn(c: Byte, a: Bytes, b: Bytes)
    requires c !in a && c !in b
    ensures c !in a + b
  {
  }

  lemma EntryTrims(e: Entry)
    requires IsEntry(e)
    ensures Trimmed(e.before + e.name + e.after) == e.name && Colon !in e.before + e.name + e.after
  {
    PaddedTrims(e.before, e.name, e.after);
    SpaceHasNoColon(e.before);
    SpaceHasNoColon(e.after);
    NotIn(Colon, e.before, e.name);
    NotIn(Colon, e.before + e.name, e.after);
  }

  /** What an entry adds to the flags. */
  lemma EntryAdds(maps: seq<Owned>, e: Entry, n: nat, ns: Bytes, pid: nat)
    requires Sized(maps, n)
    ensures var now := Entered(maps, e.name, e.code, n);
            && (FlagIn(now, ns, pid) <==> FlagIn(maps, ns, pid) || Sets(e, ns, pid, n))
            && (NameIn(now, ns) <==> NameIn(maps, ns) || (Counts(e, n) && e.name == ns))
  {
    if Counts(e, n) { CountedAdds(maps, e, n, ns, pid); }
  }

  /** The vector after an entry that counts, place by place. */
  lemma EnteredAt(maps: seq<Owned>, e: Entry, n: nat)
    requires Sized(maps, n) && Counts(e, n)
    ensures |e.code| % 4 == 0 && n <= 8 * |Unpacked(e.code)|
    ensures var k, now := Find(maps, e.name), Entered(maps, e.name, e.code, n);
            && k < |now| && |maps| <= |now| && (k == |maps| ==> |now| == k + 1) && (k < |maps| ==> |now| == |maps|)
            && (forall i :: 0 <= i < |maps| && i != k ==> now[i] == maps[i])
            && now[k].ns == e.name && |now[k].owns| == n
            && forall p :: 0 <= p < n ==>
                 (now[k].owns[p] <==>
                  Bit(Unpacked(e.code)[p / 8], p % 8) || (k < |maps| && p < |maps[k].owns| && maps[k].owns[p]))
  {
    LongEnough(e.code, n);
    var k, got := Find(maps, e.name), Get(maps, e.name, n);
    assert got[k] in got;
    if k < |maps| { assert maps[k] in maps; }
  }

  lemma CountedAdds(maps: seq<Owned>, e: Entry, n: nat, ns: Bytes, pid: nat)
    requires Sized(maps, n) && Counts(e, n)
    ensures var now := Entered(maps, e.name, e.code, n);
            && (FlagIn(now, ns, pid) <==> FlagIn(maps, ns, pid) || Sets(e, ns, pid, n))
            && (NameIn(now, ns) <==> NameIn(maps, ns) || e.name == ns)
  {
    EnteredAt(maps, e, n);
    var k, now := Find(maps, e.name), Entered(maps, e.name, e.code, n);
    FlagsAdd(maps, now, k, e, n, ns, pid);
    if NameIn(maps, ns) {
      var i :| 0 <= i < |maps| && maps[i].ns == ns;
      assert now[i].ns == ns;
    }
    if e.name == ns { assert now[k].ns == ns; }
  }

  lemma FlagsAdd(maps: seq<Owned>, now: seq<Owned>, k: nat, e: Entry, n: nat, ns: Bytes, pid: nat)
    requires Counts(e, n) && |e.code| % 4 == 0 && n <= 8 * |Unpacked(e.code)|
    requires k < |now| && |maps| <= |now| && (if k < |maps| then |now| == |maps| else |now| == k + 1 == |maps| + 1)
    requires forall i :: 0 <= i < |maps| && i != k ==> now[i] == maps[i]
    requires now[k].ns == e.name && |now[k].owns| == n && (k < |maps| ==> maps[k].ns == e.name && |maps[k].owns| == n)
    requires forall p :: 0 <= p < n ==>
               (now[k].owns[p] <==> Bit(Unpacked(e.code)[p / 8], p % 8) || (k < |maps| && maps[k].owns[p]))
    ensures FlagIn(now, ns, pid) <==> FlagIn(maps, ns, pid) || Sets(e, ns, pid, n)
  {
    if FlagIn(maps, ns, pid) {
      var i :| 0 <= i < |maps| && maps[i].ns == ns && pid < |maps[i].owns| && maps[i].owns[pid];
      assert now[i].ns == ns && pid < |now[i].owns| && now[i].owns[pid];
    }
    if Sets(e, ns, pid, n) { assert now[k].owns[pid]; }
  }

  lemma EntryParses(e: Entry, tail: Bytes, n: nat, maps: seq<Owned>)
    requires IsEntry(e) && Sized(maps, n)
    ensures Parsed((e.before + e.name + e.after) + ([Colon] + (e.code + ([Semicolon] + tail))), n, maps)
            == Parsed(tail, n, Entered(maps, e.name, e.code, n))
  {
    EntryTrims(e);
    ParsedHead(e.before + e.name + e.after, e.code, [Semicolon] + tail, n, maps);
    assert ([Semicolon] + tail)[1..] == tail;
  }

  /** The parser, on every text: a partition ends up flagged exactly if it was or some entry
      with a good name and a code of the right length flags it, whatever white space, wrong
      entries and repeated names stand beside, and a namespace is known exactly if it was or
      such an entry names it. */
  lemma {:induction false} ParsedExactly(entries: seq<Entry>, rest: Bytes, n: nat, maps: seq<Owned>, ns: Bytes,
                                         pid: nat)
    requires Sized(maps, n) && (forall e :: e in entries ==> IsEntry(e)) && Colon !in rest
    ensures var now := Parsed(TextOf(entries, rest), n, maps);
            && (FlagIn(now, ns, pid) <==> FlagIn(maps, ns, pid) || exists e :: e in entries && Sets(e, ns, pid, n))
            && (NameIn(now, ns) <==> NameIn(maps, ns) || exists e :: e in entries && Counts(e, n) && e.name == ns)
  {
    if entries == [] {
      FirstIs(rest, Colon, |rest|);
    } else {
      var e := entries[0];
      assert forall x :: x in entries <==> x == e || x in entries[1..];
      EntryParses(e, TextOf(entries[1..], rest), n, maps);
      EntryAdds(maps, e, n, ns, pid);
      ParsedExactly(entries[1..], rest, n, Entered(maps, e.name, e.code, n), ns, pid);
    }
  }

  /** A separator at the end changes nothing. */
  lemma {:induction false} LastSeparator(t: Bytes, n: nat, maps: seq<Owned>)
    requires Sized(maps, n)
    ensures Parsed(t + [Semicolon], n, maps) == Parsed(t, n, maps)
    decreases |t|
  {
    var c, more := IndexOf(t, Colon), t + [Semicolon];
    if c == |t| {
      FirstIs(more, Colon, |more|);
    } else {
      FirstIs(more, Colon, c);
      var rest := t[c + 1..];
      var s := IndexOf(rest, Semicolon);
      assert more[c + 1..] == rest + [Semicolon] && more[..c] == t[..c];
      SeparatorAfter(rest);
      var now := Entered(maps, Trimmed(t[..c]), rest[..s], n);
      ParsedStep(t, c, rest, s, n, maps);
      ParsedStep(more, c, rest + [Semicolon], s, n, maps);
      if s < |rest| { LastSeparator(AfterEntry(rest), n, now); }
    }
  }

  lemma SeparatorAfter(rest: Bytes)
    ensures var s := IndexOf(rest, Semicolon);
            && IndexOf(rest + [Semicolon], Semicolon) == s && (rest + [Semicolon])[..s] == rest[..s]
            && AfterEntry(rest + [Semicolon]) == AfterEntry(rest) + if s < |rest| then [Semicolon] else []
  {
    var s := IndexOf(rest, Semicolon);
    FirstIs(rest + [Semicolon], Semicolon, s);
  }

  /** Every text is such a row, but for a separator missing at its end. */
  lemma {:induction false} EveryTextHasEntries(t: Bytes) returns (entries: seq<Entry>, rest: Bytes)
    ensures (forall e :: e in entries ==> IsEntry(e)) && Colon !in rest
    ensures t == TextOf(entries, rest) || t + [Semicolon] == TextOf(entries, rest)
    decreases |t|
  {
    var c := IndexOf(t, Colon);
    if c == |t| {
      entries, rest := [], t;
      return;
    }
    var name, tail := t[..c], t[c + 1..];
    var s := IndexOf(tail, Semicolon);
    var e := SplitName(name, tail[..s]);
    assert t == name + ([Colon] + tail);
    if s == |tail| {
      entries, rest := [e], [];
      assert tail[..s] == tail;
      OneEntry(e, []);
      TextEnds(name, tail);
    } else {
      var more;
      more, rest := EveryTextHasEntries(tail[s + 1..]);
      entries := [e] + more;
      assert tail == tail[..s] + ([Semicolon] + tail[s + 1..]);
      assert entries[1..] == more;
      TextGrows(name, tail[..s], tail[s + 1..]);
    }
  }

  lemma OneEntry(e: Entry, rest: Bytes)
    ensures TextOf([e], rest) == ((e.before + e.name) + e.after) + ([Colon] + (e.code + ([Semicolon] + rest)))
  {
    assert [e][1..] == [];
    assert TextOf([], rest) == rest;
  }

  lemma TextEnds(name: Bytes, tail: Bytes)
    ensures (name + ([Colon] + tail)) + [Semicolon] == name + ([Colon] + (tail + ([Semicolon] + [])))
  {
  }

  lemma TextGrows(name: Bytes, code: Bytes, tail: Bytes)
    ensures (name + ([Colon] + (code + ([Semicolon] + tail)))) + [Semicolon]
            == name + ([Colon] + (code + ([Semicolon] + (tail + [Semicolon]))))
  {
  }

  /** The parser on every text: what it says is the row of entries it consists of. */
  lemma ParsedAlways(t: Bytes, n: nat) returns (entries: seq<Entry>, rest: Bytes)
    ensures (forall e :: e in entries ==> IsEntry(e)) && Colon !in rest
    ensures t == TextOf(entries, rest) || t + [Semicolon] == TextOf(entries, rest)
    ensures forall ns, pid :: FlagIn(Parsed(t, n, []), ns, pid) <==> exists e :: e in entries && Sets(e, ns, pid, n)
    ensures forall ns :: NameIn(Parsed(t, n, []), ns) <==> exists e :: e in entries && Counts(e, n) && e.name == ns
  {
    entries, rest := EveryTextHasEntries(t);
    LastSeparator(t, n, []);
    forall ns, pid ensures FlagIn(Parsed(t, n, []), ns, pid) <==> exists e :: e in entries && Sets(e, ns, pid, n)
    {
      ParsedExactly(entries, rest, n, [], ns, pid);
    }
    forall ns ensures NameIn(Parsed(t, n, []), ns) <==> exists e :: e in entries && Counts(e, n) && e.name == ns
    {
      ParsedExactly(entries, rest, n, [], ns, 0);
    }
  }

  lemma SplitName(s: Bytes, code: Bytes) returns (e: Entry)
    requires Colon !in s && Semicolon !in code
    ensures IsEntry(e) && (e.before + e.name) + e.after == s && e.code == code
  {
    var before, left := SplitLeft(s);
    var name, after := SplitRight(left);
    Assoc(before, name, after);
    InMiddle(Colon, before, name, after);
    e := Entry(before, name, after, code);
  }

  lemma InMiddle(c: Byte, a: Bytes, b: Bytes, d: Bytes)
    requires c !in a + (b + d)
    ensures c !in b
  {
    forall i | 0 <= i < |b| ensures b[i] != c
    {
      assert (a + (b + d))[|a| + i] == b[i];
    }
  }

  lemma SplitLeft(s: Bytes) returns (before: Bytes, left: Bytes)
    ensures s == before + left && AllSpace(before) && (left != [] ==> !IsSpace(left[0]))
  {
    left := TrimmedLeft(s);
    before := s[..|s| - |left|];
    LeftEnds(s);
  }

  lemma SplitRight(s: Bytes) returns (name: Bytes, after: Bytes)
    requires s != [] ==> !IsSpace(s[0])
    ensures s == name + after && AllSpace(after)
    ensures if name == [] then after == [] else !IsSpace(name[0]) && !IsSpace(name[|name| - 1])
  {
    name := TrimmedRight(s);
    after := s[|name|..];
    RightEnds(s);
  }

  lemma {:induction false} LeftEnds(s: Bytes)
    ensures var left := TrimmedLeft(s);
            AllSpace(s[..|s| - |left|]) && (left != [] ==> !IsSpace(left[0]))
  {
    if s != [] && IsSpace(s[0]) {
      LeftEnds(s[1..]);
      var left := TrimmedLeft(s);
      assert s[..|s| - |left|] == [s[0]] + s[1..][..|s| - 1 - |left|];
    }
  }

  lemma {:induction false} RightEnds(s: Bytes)
    ensures var name := TrimmedRight(s);
            && AllSpace(s[|name|..]) && (name != [] ==> !IsSpace(name[|name| - 1]))
            && (s != [] && !IsSpace(s[0]) ==> name != [])
    decreases |s|
  {
    if s != [] && IsSpace(s[|s| - 1]) {
      RightEnds(s[..|s| - 1]);
      var name := TrimmedRight(s);
      assert s[|name|..] == s[..|s| - 1][|name|..] + [s[|s| - 1]];
    }
  }

  // ---------------------------------------------------------------------------
  // In memory
  // ---------------------------------------------------------------------------

  /** An entry of the vector of maps; its flags are set in place. */
  datatype NsMap = NsMap(ns: Bytes, owns: array<bool>)

  ghost predicate Differ(maps: seq<NsMap>, i: nat, j: nat)
    requires i < |maps| && j < |maps|
  {
    maps[i].owns != maps[j].owns
  }

  ghost predicate Separate(maps: seq<NsMap>, n: nat)
  {
    && (forall i :: 0 <= i < |maps| ==> maps[i].owns.Length == n)
    && forall i: nat, j: nat :: i < |maps| && j < |maps| && i != j ==> Differ(maps, i, j)
  }

  ghost function View(maps: seq<NsMap>): (v: seq<Owned>)
    reads set m | m in maps :: m.owns
    ensures |v| == |maps|
  {
    seq(|maps|, i requires 0 <= i < |maps| reads set m | m in maps :: m.owns => Owned(maps[i].ns, maps[i].owns[..]))
  }

  /** `ns_partition_map_set`: sets the flag of every partition whose bit is set. */
  method SetOwned(owns: array<bool>, list: array<Byte>, from: nat, len: nat, n: nat)
    requires owns.Length == n && from + len <= list.Length && len == ExpectedLength(n)
    modifies owns
    ensures owns[..] == WithBits(old(owns[..]), BitmapOf(old(list[..])[from..from + len], n))
  {
    LongEnough(list[..][from..from + len], n);
    ghost var bits := BitmapOf(list[..][from..from + len], n);
    var bitmap := new Byte[len / 4 * 3];
    var _, j := Unpack(list, from, len, bitmap);
    assert bitmap[..] == bits;
    Expand(owns, bitmap[..], n);
  }

  /** Expands a bitmap into flags. */
  method Expand(owns: array<bool>, bitmap: Bytes, n: nat)
    requires owns.Length == n <= 8 * |bitmap|
    modifies owns
    ensures owns[..] == WithBits(old(owns[..]), bitmap)
  {
    ghost var was := owns[..];
    ghost var goal := WithBits(was, bitmap);
    var i := 0;
    while i < n
      invariant 0 <= i <= n
      invariant forall k :: 0 <= k < i ==> owns[k] == goal[k]
      invariant forall k :: i <= k < n ==> owns[k] == was[k]
    {
      if Bit(bitmap[i / 8], i % 8) {
        owns[i] := true;
      }
      assert owns[i] == goal[i];
      i := i + 1;
    }
    assert owns[..] == goal;
  }

  /** `now` is `maps` with new entries after it. */
  ghost predicate Extends(maps: seq<NsMap>, now: seq<NsMap>)
  {
    |maps| <= |now| && forall i :: 0 <= i < |maps| ==> now[i] == maps[i]
  }

  method FindMap(maps: seq<NsMap>, ns: Bytes) returns (k: nat)
    ensures k == Find(View(maps), ns)
  {
    k := 0;
    while k < |maps| && maps[k].ns != ns
      invariant k <= |maps| && forall i :: 0 <= i < k ==> maps[i].ns != ns
    {
      k := k + 1;
    }
    FoundAt(View(maps), ns, k);
  }

  lemma SeparateMore(maps: seq<NsMap>, m: NsMap, n: nat)
    requires Separate(maps, n) && m.owns.Length == n && forall i :: 0 <= i < |maps| ==> maps[i].owns != m.owns
    ensures Separate(maps + [m], n)
  {
    var more := maps + [m];
    forall i: nat, j: nat | i < |more| && j < |more| && i != j ensures Differ(more, i, j)
    {
      if i < |maps| && j < |maps| { assert Differ(maps, i, j); }
    }
  }

  /** `ns_partition_map_get`: the place of a namespace's map, which is added if it is new. */
  method GetMap(maps: seq<NsMap>, ns: Bytes, n: nat) returns (k: nat, got: seq<NsMap>)
    requires Separate(maps, n)
    ensures k == Find(View(maps), ns) < |got| && View(got) == Get(View(maps), ns, n)
    ensures Separate(got, n) && Extends(maps, got)
    ensures forall i :: |maps| <= i < |got| ==> fresh(got[i].owns)
  {
    k := FindMap(maps, ns);
    got := maps;
    if k == |maps| {
      var m := NewMap(ns, n);
      SeparateMore(maps, m, n);
      got := maps + [m];
      assert View(got) == View(maps) + [Owned(ns, AllFalse(n))];
    }
  }

  method NewMap(ns: Bytes, n: nat) returns (m: NsMap)
    ensures fresh(m.owns) && m.ns == ns && m.owns.Length == n && m.owns[..] == AllFalse(n)
  {
    var owns := new bool[n](_ => false);
    assert owns[..] == AllFalse(n);
    m := NsMap(ns, owns);
  }

  lemma FoundAt(maps: seq<Owned>, ns: Bytes, k: nat)
    requires k <= |maps| && (forall i :: 0 <= i < k ==> maps[i].ns != ns) && (k < |maps| ==> maps[k].ns == ns)
    ensures Find(maps, ns) == k
  {
  }

  // The buffer as one sequence `all`, with a text from `p` to its terminator at `end`.

  ghost predicate IsText(all: Bytes, p: nat, end: nat)
  {
    p <= end < |all| && all[end] == 0 && forall k :: p <= k < end ==> all[k] != 0
  }

  /** The first `c` of the text, or its end. */
  ghost function FindFrom(all: Bytes, p: nat, end: nat, c: Byte): (q: nat)
    requires p <= end <= |all|
    ensures p <= q <= end
  {
    p + IndexOf(all[p..end], c)
  }

  lemma FoundFrom(all: Bytes, p: nat, end: nat, c: Byte, q: nat)
    requires p <= q <= end <= |all| && (forall k :: p <= k < q ==> all[k] != c) && (q < end ==> all[q] == c)
    ensures FindFrom(all, p, end, c) == q
  {
    FirstIs(all[p..end], c, q - p);
  }

  /** The loops that look for a separator. */
  method ScanTo(list: array<Byte>, p: nat, end: nat, c: Byte) returns (q: nat)
    requires IsText(list[..], p, end) && c != 0
    ensures q == FindFrom(list[..], p, end, c)
  {
    q := p;
    while list[q] != 0 && list[q] != c
      invariant p <= q <= end && forall k :: p <= k < q ==> list[k] != c
      decreases end - q
    {
      q := q + 1;
    }
    FoundFrom(list[..], p, end, c, q);
  }

  /** Ends the string at `p` at its first `c`, if it has one, and steps over it. */
  method Cut(list: array<Byte>, p: nat, end: nat, c: Byte) returns (q: nat, next: nat)
    requires IsText(list[..], p, end) && c != 0
    modifies list
    ensures q == FindFrom(old(list[..]), p, end, c) && next == (if q < end then q + 1 else end)
    ensures list[..] == old(list[..])[q := 0]
  {
    q := ScanTo(list, p, end, c);
    next := q;
    if list[q] == c {
      list[q] := 0;
      next := q + 1;
    }
  }

  lemma {:induction false} LeftSkips(s: Bytes, k: nat)
    requires k <= |s| && (forall i :: 0 <= i < k ==> IsSpace(s[i])) && (k < |s| ==> !IsSpace(s[k]))
    ensures TrimmedLeft(s) == s[k..]
  {
    if k > 0 {
      LeftSkips(s[1..], k - 1);
    }
  }

  lemma {:induction false} RightSkips(s: Bytes, k: nat)
    requires k <= |s| && (forall i :: k <= i < |s| ==> IsSpace(s[i])) && (k > 0 ==> !IsSpace(s[k - 1]))
    ensures TrimmedRight(s) == s[..k]
    decreases |s|
  {
    if k < |s| {
      RightSkips(s[..|s| - 1], k);
    }
  }

  lemma LeftSkipsIn(all: Bytes, from: nat, begin: nat, end: nat)
    requires from <= begin <= end <= |all| && (forall i :: from <= i < begin ==> IsSpace(all[i]))
             && (begin < end ==> !IsSpace(all[begin]))
    ensures TrimmedLeft(all[from..end]) == all[begin..end]
  {
    LeftSkips(all[from..end], begin - from);
  }

  lemma RightSkipsIn(all: Bytes, begin: nat, stop: nat, end: nat)
    requires begin < stop <= end <= |all| && (forall i :: stop <= i < end ==> IsSpace(all[i]))
             && !IsSpace(all[stop - 1])
    ensures TrimmedRight(all[begin..end]) == all[begin..stop]
  {
    RightSkips(all[begin..end], stop - begin);
  }

  method SkipSpace(list: array<Byte>, from: nat, end: nat) returns (begin: nat)
    requires from <= end < list.Length && list[end] == 0
    ensures from <= begin <= end && !IsSpace(list[begin]) && list[..][begin..end] == TrimmedLeft(list[..][from..end])
  {
    begin := from;
    while IsSpace(list[begin])
      invariant from <= begin <= end && forall i :: from <= i < begin ==> IsSpace(list[i])
      decreases end - begin
    {
      begin := begin + 1;
    }
    LeftSkipsIn(list[..], from, begin, end);
  }

  method SkipSpaceBack(list: array<Byte>, begin: nat, end: nat) returns (stop: nat)
    requires begin < end < list.Length && !IsSpace(list[begin])
    ensures begin < stop <= end && list[..][begin..stop] == TrimmedRight(list[..][begin..end])
  {
    var e := end - 1;
    while e > begin && IsSpace(list[e])
      invariant begin <= e < end && forall i :: e < i < end ==> IsSpace(list[i])
    {
      e := e - 1;
    }
    stop := e + 1;
    RightSkipsIn(list[..], begin, stop, end);
  }

  lemma TrimmedIn(all: Bytes, from: nat, begin: nat, stop: nat, end: nat)
    requires from <= begin <= stop <= end <= |all| && all[begin..end] == TrimmedLeft(all[from..end])
    requires if begin == end then stop == begin else all[begin..stop] == TrimmedRight(all[begin..end])
    ensures all[begin..stop] == Trimmed(all[from..end])
  {
    assert begin == end ==> all[begin..stop] == [] && TrimmedRight([]) == [];
  }

  /** Trims the string that starts at `from` and ends at `end`, in place: it now lies
      from `begin` to a terminator at `stop`. */
  method Trim(list: array<Byte>, from: nat, end: nat) returns (begin: nat, stop: nat)
    requires IsText(list[..], from, end)
    modifies list
    ensures from <= begin <= stop <= end && old(list[..])[begin..stop] == Trimmed(old(list[..])[from..end])
    ensures list[..] == old(list[..])[stop := 0]
  {
    begin := SkipSpace(list, from, end);
    stop := begin;
    if list[begin] != 0 {
      stop := SkipSpaceBack(list, begin, end);
    }
    TrimmedIn(list[..], from, begin, stop, end);
    list[stop] := 0;
  }

  // The parts of the first entry of a text that has one.

  ghost predicate HasEntry(t: Bytes)
  {
    IndexOf(t, Colon) < |t|
  }

  ghost function EntryName(t: Bytes): (ns: Bytes)
  {
    Trimmed(t[..IndexOf(t, Colon)])
  }

  ghost function EntryRest(t: Bytes): (rest: Bytes)
    requires HasEntry(t)
  {
    t[IndexOf(t, Colon) + 1..]
  }

  ghost function EntryCode(t: Bytes): (code: Bytes)
    requires HasEntry(t)
  {
    EntryRest(t)[..IndexOf(EntryRest(t), Semicolon)]
  }

  lemma ParsedByEntry(t: Bytes, n: nat, maps: seq<Owned>)
    requires Sized(maps, n)
    ensures Parsed(t, n, maps) ==
            if HasEntry(t) then Parsed(AfterEntry(EntryRest(t)), n, Entered(maps, EntryName(t), EntryCode(t), n))
              else maps
  {
  }

  /** The buffer after an entry is cut at `q` and `r` and its name ended at `stop`. */
  ghost function CutBuffer(all: Bytes, q: nat, r: nat, stop: nat): (b: Bytes)
    requires q < |all| && r < |all| && stop < |all|
    ensures |b| == |all|
  {
    all[q := 0][r := 0][stop := 0]
  }

  /** Slices that no new terminator falls into stay. */
  lemma CutStays(all: Bytes, q: nat, r: nat, stop: nat, lo: nat, hi: nat)
    requires q < |all| && r < |all| && stop < |all| && lo <= hi <= |all|
    requires !(lo <= q < hi) && !(lo <= r < hi) && !(lo <= stop < hi)
    ensures CutBuffer(all, q, r, stop)[lo..hi] == all[lo..hi]
  {
  }

  lemma SliceOfSlice(all: Bytes, p: nat, end: nat, q: nat)
    requires p <= q <= end <= |all|
    ensures all[p..end][..q - p] == all[p..q] && all[p..end][q - p..] == all[q..end]
  {
  }

  lemma NameOf(all: Bytes, p: nat, end: nat, q: nat)
    requires p <= q < end <= |all| && q == FindFrom(all, p, end, Colon)
    ensures EntryName(all[p..end]) == Trimmed(all[p..q])
  {
    SliceOfSlice(all, p, end, q);
  }

  lemma RestOf(all: Bytes, p: nat, end: nat, q: nat)
    requires p <= q < end <= |all| && q == FindFrom(all, p, end, Colon)
    ensures HasEntry(all[p..end]) && EntryRest(all[p..end]) == all[q + 1..end]
  {
    SliceOfSlice(all, p, end, q + 1);
  }

  lemma CodeOf(all: Bytes, p: nat, end: nat, q: nat, r: nat)
    requires p <= q < end <= |all| && q == FindFrom(all, p, end, Colon) && r == FindFrom(all, q + 1, end, Semicolon)
    ensures HasEntry(all[p..end]) && EntryCode(all[p..end]) == all[q + 1..r]
  {
    RestOf(all, p, end, q);
    SliceOfSlice(all, q + 1, end, r);
  }

  lemma NextOf(all: Bytes, p: nat, end: nat, q: nat, r: nat, next: nat)
    requires p <= q < end <= |all| && q == FindFrom(all, p, end, Colon) && r == FindFrom(all, q + 1, end, Semicolon)
    requires next == if r < end then r + 1 else end
    ensures HasEntry(all[p..end]) && AfterEntry(EntryRest(all[p..end])) == all[next..end]
  {
    RestOf(all, p, end, q);
    SliceOfSlice(all, q + 1, end, next);
  }

  /** `now` differs from `all` only between `p` and `next`, where it has terminators. */
  ghost predicate Ends(all: Bytes, now: Bytes, p: nat, next: nat)
  {
    |now| == |all| && forall k :: 0 <= k < |all| ==> now[k] == all[k] || (p <= k < next && now[k] == 0)
  }

  lemma CutEnds(all: Bytes, p: nat, end: nat, q: nat, r: nat, stop: nat, next: nat)
    requires p <= stop <= q <= r <= end < |all| && q < next && next == (if r < end then r + 1 else end) && all[end] == 0
    ensures Ends(all, CutBuffer(all, q, r, stop), p, next)
  {
  }

  lemma EndsTwice(all: Bytes, mid: Bytes, now: Bytes, start: nat, p: nat, next: nat)
    requires Ends(all, mid, start, p) && Ends(mid, now, p, next) && start <= p <= next
    ensures Ends(all, now, start, next)
  {
  }

  lemma TextGoesOn(all: Bytes, now: Bytes, p: nat, next: nat, end: nat)
    requires IsText(all, p, end) && Ends(all, now, p, next) && p <= next <= end
    ensures IsText(now, next, end)
  {
  }

  lemma CutLeavesText(all: Bytes, p: nat, end: nat, q: nat)
    requires IsText(all, p, end) && p <= q < end
    ensures IsText(all[q := 0], q + 1, end)
  {
  }

  lemma CutLeavesName(all: Bytes, p: nat, end: nat, q: nat, r: nat)
    requires IsText(all, p, end) && p <= q < end && q < r <= end
    ensures IsText(all[q := 0][r := 0], p, q) && all[q := 0][r := 0][p..q] == all[p..q]
  {
  }

  lemma CutKeepsFind(all: Bytes, p: nat, end: nat, q: nat, c: Byte)
    requires p <= q < end <= |all|
    ensures FindFrom(all[q := 0], q + 1, end, c) == FindFrom(all, q + 1, end, c)
  {
    assert all[q := 0][q + 1..end] == all[q + 1..end];
  }

  /** Cuts one entry out of the text at `p`: its trimmed name now lies from `begin` to
      `stop` and its code from `q + 1` to `r`, and the text goes on at `next`; without a
      colon `q` is the end. */
  method CutEntry(list: array<Byte>, p: nat, end: nat) returns (q: nat, r: nat, begin: nat, stop: nat, next: nat)
    requires IsText(list[..], p, end)
    modifies list
    ensures q == FindFrom(old(list[..]), p, end, Colon)
    ensures q == end ==> list[..] == old(list[..])
    ensures q < end ==>
              && r == FindFrom(old(list[..]), q + 1, end, Semicolon) && next == (if r < end then r + 1 else end)
              && p <= begin <= stop <= q && old(list[..])[begin..stop] == Trimmed(old(list[..])[p..q])
              && list[..] == CutBuffer(old(list[..]), q, r, stop)
  {
    ghost var all := list[..];
    var code;
    q, code := Cut(list, p, end, Colon);
    r, begin, stop, next := end, end, end, end;
    if q == end {
      assert all[q := 0] == all;
      return;
    }
    CutLeavesText(all, p, end, q);
    CutKeepsFind(all, p, end, q, Semicolon);
    r, next := Cut(list, code, end, Semicolon);
    CutLeavesName(all, p, end, q, r);
    begin, stop := Trim(list, p, q);
    CutNameStays(all, q, r, begin, stop);
  }

  lemma CutNameStays(all: Bytes, q: nat, r: nat, begin: nat, stop: nat)
    requires begin <= stop <= q < r < |all|
    ensures all[q := 0][r := 0][begin..stop] == all[begin..stop]
  {
  }

  /** The vector's flags do not lie in the text. */
  ghost predicate Apart(maps: seq<NsMap>, list: array<Byte>)
  {
    forall i :: 0 <= i < |maps| ==> (maps[i].owns as object) != (list as object)
  }

  /** What setting the flags of entry `k` does to the vector. */
  lemma ViewSet(v: seq<Owned>, w: seq<Owned>, k: nat, owns: seq<bool>)
    requires |v| == |w| && k < |v| && w[k] == Owned(v[k].ns, owns) && forall i :: 0 <= i < |v| && i != k ==>
               w[i] == v[i]
    ensures w == v[k := Owned(v[k].ns, owns)]
  {
  }

  /** Sets the flags of entry `k`. */
  method SetEntry(maps: seq<NsMap>, k: nat, list: array<Byte>, from: nat, len: nat, n: nat)
    requires Separate(maps, n) && k < |maps| && from + len <= list.Length && len == ExpectedLength(n)
    modifies maps[k].owns
    ensures var v := old(View(maps));
            && |v[k].owns| == n
            && View(maps) == v[k := Owned(v[k].ns, WithBits(v[k].owns, BitmapOf(old(list[..])[from..from + len], n)))]
  {
    ghost var v := View(maps);
    ghost var goal := WithBits(v[k].owns, BitmapOf(list[..][from..from + len], n));
    SetOwned(maps[k].owns, list, from, len, n);
    forall i: nat | i < |maps| && i != k ensures View(maps)[i] == v[i]
    {
      assert Differ(maps, i, k);
    }
    ViewSet(v, View(maps), k, goal);
  }

  /** Finds or adds the map of a namespace and sets its flags. */
  method Enter(maps: seq<NsMap>, ns: Bytes, list: array<Byte>, from: nat, len: nat, n: nat) returns (now: seq<NsMap>)
    requires Separate(maps, n) && Apart(maps, list) && 1 <= |ns| <= MaxName && from + len <= list.Length
             && len == ExpectedLength(n)
    modifies set m | m in maps :: m.owns
    ensures Separate(now, n) && Apart(now, list) && Extends(maps, now)
    ensures forall i :: |maps| <= i < |now| ==> fresh(now[i].owns)
    ensures Sized(old(View(maps)), n) && View(now) == Entered(old(View(maps)), ns, old(list[..])[from..from + len], n)
  {
    var k;
    k, now := GetMap(maps, ns, n);
    assert k < |maps| ==> maps[k] in maps && now[k] == maps[k];
    assert forall i :: |maps| <= i < |now| ==> (now[i].owns as object) != (list as object);
    SetEntry(now, k, list, from, len, n);
  }

  lemma Ignored(maps: seq<Owned>, ns: Bytes, code: Bytes, n: nat)
    requires Sized(maps, n) && (|ns| == 0 || |ns| > MaxName || |code| != ExpectedLength(n))
    ensures Entered(maps, ns, code, n) == maps
  {
  }

  /** The length checks of an entry, and what follows if they pass. */
  method CheckAndEnter(maps: seq<NsMap>, ns: Bytes, list: array<Byte>, from: nat, len: nat, n: nat)
    returns (now: seq<NsMap>)
    requires Separate(maps, n) && Apart(maps, list) && from + len <= list.Length
    modifies set m | m in maps :: m.owns
    ensures Separate(now, n) && Apart(now, list) && Extends(maps, now) && list[..] == old(list[..])
    ensures forall i :: |maps| <= i < |now| ==> fresh(now[i].owns)
    ensures Sized(old(View(maps)), n) && View(now) == Entered(old(View(maps)), ns, old(list[..])[from..from + len], n)
  {
    if |ns| == 0 || |ns| > MaxName {
      Ignored(View(maps), ns, list[..][from..from + len], n);
      return maps;
    }
    if len != ExpectedLength(n) {
      Ignored(View(maps), ns, list[..][from..from + len], n);
      return maps;
    }
    now := Enter(maps, ns, list, from, len, n);
  }

  /** Cutting the text leaves the vector alone. */
  method CutApart(list: array<Byte>, p: nat, end: nat, maps: seq<NsMap>)
    returns (q: nat, r: nat, begin: nat, stop: nat, next: nat)
    requires IsText(list[..], p, end) && Apart(maps, list)
    modifies list
    ensures q == FindFrom(old(list[..]), p, end, Colon) && View(maps) == old(View(maps))
    ensures q == end ==> list[..] == old(list[..])
    ensures q < end ==>
              && r == FindFrom(old(list[..]), q + 1, end, Semicolon) && next == (if r < end then r + 1 else end)
              && p <= begin <= stop <= q && old(list[..])[begin..stop] == Trimmed(old(list[..])[p..q])
              && list[..] == CutBuffer(old(list[..]), q, r, stop)
  {
    q, r, begin, stop, next := CutEntry(list, p, end);
  }

  /** What one turn of the parser's loop makes of a text and a vector. */
  ghost predicate EntryParsed(all: Bytes, now: Bytes, p: nat, end: nat, next: nat, before: seq<Owned>,
                              after: seq<Owned>, n: nat)
    requires Sized(before, n) && p <= end <= |all|
  {
    && Ends(all, now, p, next) && p < next <= end
    && Sized(after, n) && Parsed(now[next..end], n, after) == Parsed(all[p..end], n, before)
  }

  lemma NoEntryParsed(all: Bytes, p: nat, end: nat, before: seq<Owned>, n: nat)
    requires Sized(before, n) && p < end <= |all| && FindFrom(all, p, end, Colon) == end
    ensures EntryParsed(all, all, p, end, end, before, before, n)
  {
    assert all[end..end] == [];
  }

  lemma CutEntryParsed(all: Bytes, p: nat, end: nat, q: nat, r: nat, stop: nat, next: nat, before: seq<Owned>, n: nat)
    requires Sized(before, n) && IsText(all, p, end) && p <= stop <= q < end
    requires q == FindFrom(all, p, end, Colon) && r == FindFrom(all, q + 1, end, Semicolon)
    requires next == if r < end then r + 1 else end
    ensures EntryParsed(all, CutBuffer(all, q, r, stop), p, end, next, before,
                        Entered(before, Trimmed(all[p..q]), all[q + 1..r], n), n)
  {
    NameOf(all, p, end, q);
    CodeOf(all, p, end, q, r);
    NextOf(all, p, end, q, r, next);
    CutStays(all, q, r, stop, next, end);
    CutEnds(all, p, end, q, r, stop, next);
    ParsedByEntry(all[p..end], n, before);
  }

  lemma CutParts(all: Bytes, q: nat, r: nat, begin: nat, stop: nat)
    requires begin <= stop <= q < r < |all|
    ensures CutBuffer(all, q, r, stop)[begin..stop] == all[begin..stop]
    ensures CutBuffer(all, q, r, stop)[q + 1..r] == all[q + 1..r]
  {
    CutStays(all, q, r, stop, begin, stop);
    CutStays(all, q, r, stop, q + 1, r);
  }

  /** Enters what `CutEntry` cut out. */
  method EnterCut(list: array<Byte>, q: nat, r: nat, begin: nat, stop: nat, maps: seq<NsMap>, n: nat,
                  ghost name: Bytes, ghost code: Bytes)
    returns (now: seq<NsMap>)
    requires Separate(maps, n) && Apart(maps, list) && begin <= stop <= q < r < list.Length
    requires list[..][begin..stop] == name && list[..][q + 1..r] == code
    modifies set m | m in maps :: m.owns
    ensures Separate(now, n) && Apart(now, list) && Extends(maps, now) && list[..] == old(list[..])
    ensures forall i :: |maps| <= i < |now| ==> fresh(now[i].owns)
    ensures Sized(old(View(maps)), n) && View(now) == Entered(old(View(maps)), name, code, n)
  {
    now := CheckAndEnter(maps, list[..][begin..stop], list, q + 1, r - (q + 1), n);
  }

  /** One turn of the parser's loop. */
  method ParseEntry(list: array<Byte>, p: nat, end: nat, maps: seq<NsMap>, n: nat) returns (next: nat, now: seq<NsMap>)
    requires Separate(maps, n) && Apart(maps, list) && IsText(list[..], p, end) && p < end
    modifies list, set m | m in maps :: m.owns
    ensures Separate(now, n) && Apart(now, list) && Extends(maps, now)
    ensures forall i :: |maps| <= i < |now| ==> fresh(now[i].owns)
    ensures Sized(old(View(maps)), n)
    ensures EntryParsed(old(list[..]), list[..], p, end, next, old(View(maps)), View(now), n)
  {
    ghost var all, before := list[..], View(maps);
    var q, r, begin, stop;
    q, r, begin, stop, next := CutApart(list, p, end, maps);
    if q == end {
      NoEntryParsed(all, p, end, before, n);
      return end, maps;
    }
    CutParts(all, q, r, begin, stop);
    now := EnterCut(list, q, r, begin, stop, maps, n, Trimmed(all[p..q]), all[q + 1..r]);
    CutEntryParsed(all, p, end, q, r, stop, next, before, n);
  }

  /** `parse_replicas_map`: reads the text from `start` to the terminator at `end`, adding
      to the vector and overwriting separators with terminators. */
  method ParseMap(list: array<Byte>, start: nat, end: nat, maps: seq<NsMap>, n: nat) returns (now: seq<NsMap>)
    requires Separate(maps, n) && Apart(maps, list) && IsText(list[..], start, end)
    modifies list, set m | m in maps :: m.owns
    ensures Separate(now, n) && Apart(now, list) && Extends(maps, now)
    ensures forall i :: |maps| <= i < |now| ==> fresh(now[i].owns)
    ensures Sized(old(View(maps)), n) && View(now) == Parsed(old(list[..])[start..end], n, old(View(maps)))
    ensures Ends(old(list[..]), list[..], start, end)
  {
    ghost var all, goal := list[..], Parsed(list[..][start..end], n, View(maps));
    now := maps;
    var p := start;
    while list[p] != 0
      invariant start <= p <= end && IsText(list[..], p, end) && Ends(all, list[..], start, p)
      invariant Separate(now, n) && Apart(now, list) && Extends(maps, now)
      invariant forall i :: |maps| <= i < |now| ==> fresh(now[i].owns)
      invariant Sized(View(now), n) && Parsed(list[..][p..end], n, View(now)) == goal
      decreases end - p
    {
      ghost var mid := list[..];
      var next;
      next, now := ParseEntry(list, p, end, now, n);
      EndsTwice(all, mid, list[..], start, p, next);
      TextGoesOn(mid, list[..], p, next, end);
      p := next;
    }
    assert list[..][p..end] == [];
  }
}
