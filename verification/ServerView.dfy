/**
 A request as the server reads it: the message of include/citrusleaf/proto.h, taken apart by
 the numbers and positions given there and by nothing else, and what such a reading finds in
 the bytes that `cl_compile` lays out.
 */
module ServerView {
  import opened Common
  import opened ByteOrder
  import W = WireCodec

  // ---------------------------------------------------------------------------
  // Integers
  // ---------------------------------------------------------------------------

  function U16(b: Bytes): (n: nat)
    requires |b| == 2
  {
    (b[0] as int) * 0x100 + b[1]
  }

  function U32(b: Bytes): (n: nat)
    requires |b| == 4
  {
    U16(b[..2]) * 0x1_0000 + U16(b[2..])
  }

  function U48(b: Bytes): (n: nat)
    requires |b| == 6
  {
    U16(b[..2]) * 0x1_0000_0000 + U32(b[2..])
  }

  function U64(b: Bytes): (n: nat)
    requires |b| == 8
  {
    U32(b[..4]) * 0x1_0000_0000 + U32(b[4..])
  }

  /** The two's complement reading of 64 bits. */
  function S64(b: Bytes): (i: int)
    requires |b| == 8
  {
    if b[0] < 0x80 then U64(b) else U64(b) - 0x1_0000_0000_0000_0000
  }

  lemma {:induction false} FromNetworkJoins(a: Bytes, b: Bytes)
    ensures FromNetwork(a + b) == FromNetwork(a) * Pow256(|b|) + FromNetwork(b)
  {
    if b == [] {
      assert a + b == a;
    } else {
      var front := b[..|b| - 1];
      assert (a + b)[..|a + b| - 1] == a + front;
      FromNetworkJoins(a, front);
      Shifted(FromNetwork(a), Pow256(|front|));
    }
  }

  lemma Shifted(x: nat, p: nat)
    ensures x * (256 * p) == 256 * (x * p)
  {
  }

  lemma U16Is(b: Bytes)
    requires |b| == 2
    ensures U16(b) == FromNetwork(b)
  {
    assert b[..1] == [b[0]];
    assert FromNetwork([b[0]]) == b[0];
  }

  lemma U32Is(b: Bytes)
    requires |b| == 4
    ensures U32(b) == FromNetwork(b)
  {
    U16Is(b[..2]);
    U16Is(b[2..]);
    FromNetworkJoins(b[..2], b[2..]);
    assert b == b[..2] + b[2..] && Pow256(2) == 0x1_0000;
  }

  lemma U48Is(b: Bytes)
    requires |b| == 6
    ensures U48(b) == FromNetwork(b)
  {
    U16Is(b[..2]);
    U32Is(b[2..]);
    FromNetworkJoins(b[..2], b[2..]);
    assert b == b[..2] + b[2..] && Pow256(4) == 0x1_0000_0000;
  }

  lemma U64Is(b: Bytes)
    requires |b| == 8
    ensures U64(b) == FromNetwork(b)
  {
    U32Is(b[..4]);
    U32Is(b[4..]);
    FromNetworkJoins(b[..4], b[4..]);
    assert b == b[..4] + b[4..] && Pow256(4) == 0x1_0000_0000;
  }

  lemma U32Of(n: nat)
    requires n < 0x1_0000_0000
    ensures U32(Network(n, 4)) == n
  {
    assert Pow256(4) == 0x1_0000_0000;
    FromNetworkOf(n, 4);
    U32Is(Network(n, 4));
  }

  lemma U16Of(n: nat)
    requires n < 0x1_0000
    ensures U16(Network(n, 2)) == n
  {
    assert Pow256(2) == 0x1_0000;
    FromNetworkOf(n, 2);
    U16Is(Network(n, 2));
  }

  lemma U48Of(n: nat)
    requires n < 0x1_0000_0000_0000
    ensures U48(Network(n, 6)) == n
  {
    assert Pow256(6) == 0x1_0000_0000_0000;
    FromNetworkOf(n, 6);
    U48Is(Network(n, 6));
  }

  lemma U64Of(n: nat)
    requires n < 0x1_0000_0000_0000_0000
    ensures U64(Network(n, 8)) == n
  {
    assert Pow256(8) == 0x1_0000_0000_0000_0000;
    FromNetworkOf(n, 8);
    U64Is(Network(n, 8));
  }

  lemma S64Of(i: W.Int64)
    ensures S64(Network(W.Unsigned64(i), 8)) == i
  {
    var b := Network(W.Unsigned64(i), 8);
    U64Of(W.Unsigned64(i));
    TopBit(b);
  }

  lemma TopBit(b: Bytes)
    requires |b| == 8
    ensures b[0] < 0x80 <==> U64(b) < 0x8000_0000_0000_0000
  {
  }

  // ---------------------------------------------------------------------------
  // Fields
  // ---------------------------------------------------------------------------

  datatype Field = Field(type_: Byte, data: Bytes)

  /** A field: the size of what follows it in four bytes, a type byte, the data. */
  predicate HasField(b: Bytes)
  {
    |b| >= 5 && 1 <= U32(b[..4]) <= |b| - 4
  }

  function FieldEnd(b: Bytes): (n: nat)
    requires HasField(b)
    ensures 5 <= n <= |b|
  {
    4 + U32(b[..4])
  }

  /** `n` fields one after the other, and what follows them. */
  function TakeFields(b: Bytes, n: nat): (o: Option<(seq<Field>, Bytes)>)
    decreases n
  {
    if n == 0 then Some(([], b))
    else if !HasField(b) then None
    else
      match TakeFields(b[FieldEnd(b)..], n - 1)
      case None => None
      case Some((more, rest)) => Some(([Field(b[4], b[5..FieldEnd(b)])] + more, rest))
  }

  /** Exactly the data `d` comes under the type, and only once, or nothing does. */
  ghost predicate Only(fields: seq<Field>, type_: Byte, d: Option<Bytes>)
  {
    match d
    case None => NoneOf(fields, type_)
    case Some(data) => exists front, rest ::
      fields == front + [Field(type_, data)] + rest && NoneOf(front, type_) && NoneOf(rest, type_)
  }

  ghost predicate NoneOf(fields: seq<Field>, type_: Byte)
  {
    forall f :: f in fields ==> f.type_ != type_
  }

  // ---------------------------------------------------------------------------
  // Operations
  // ---------------------------------------------------------------------------

  datatype Op = Op(op: Byte, particle: Byte, version: Byte, name: Bytes, value: Bytes)

  /** An operation: the size of what follows it in four bytes, operator, type of the value,
      version and length of the name in a byte each, the name, the value. */
  predicate HasOp(b: Bytes)
  {
    |b| >= 8 && 4 + b[7] <= U32(b[..4]) <= |b| - 4
  }

  function OpEnd(b: Bytes): (n: nat)
    requires HasOp(b)
    ensures 8 + b[7] <= n <= |b|
  {
    4 + U32(b[..4])
  }

  function TakeOps(b: Bytes, n: nat): (o: Option<(seq<Op>, Bytes)>)
    decreases n
  {
    if n == 0 then Some(([], b))
    else if !HasOp(b) then None
    else
      match TakeOps(b[OpEnd(b)..], n - 1)
      case None => None
      case Some((more, rest)) =>
        Some(([Op(b[4], b[5], b[6], b[8..8 + b[7]], b[8 + b[7]..OpEnd(b)])] + more, rest))
  }

  /** The operator numbers of the protocol. */
  ghost predicate OperatorTold(code: Byte, op: W.Operator)
  {
    && (code == 1 <==> op == W.Read) && (code == 2 <==> op == W.Write) && (code == 5 <==> op == W.Incr)
    && (code == 9 <==> op == W.Append) && (code == 10 <==> op == W.Prepend) && (code == 11 <==> op == W.Touch)
    && (code == 129 <==> op == W.McIncr) && (code == 130 <==> op == W.McAppend)
    && (code == 131 <==> op == W.McPrepend) && (code == 132 <==> op == W.McTouch)
  }

  /** The types of values, and how each is written. */
  ghost predicate ValueTold(particle: Byte, value: Bytes, o: W.Object)
  {
    match o
    case Null => particle == 0 && value == []
    case Int(i) => particle == 1 && |value| == 8 && S64(value) == i
    case Str(text) => particle == 3 && value == text
    case BlobOf(kind, bytes) => BlobTold(particle, kind) && value == bytes
    case Other(_) => true
  }

  ghost predicate BlobTold(particle: Byte, kind: W.BlobKind)
  {
    match kind
    case Blob => particle == 4
    case Java => particle == 7
    case CSharp => particle == 8
    case Python => particle == 9
    case Ruby => particle == 10
    case Php => particle == 11
  }

  /** A memcache increment carries two integers, which change their byte order. */
  ghost predicate PairTold(particle: Byte, value: Bytes, kind: W.BlobKind, bytes: Bytes)
  {
    && BlobTold(particle, kind) && |value| == |bytes| == 16
    && (forall k :: 0 <= k < 8 ==> value[k] == bytes[7 - k])
    && (forall k :: 8 <= k < 16 ==> value[k] == bytes[23 - k])
  }

  /** The server finds operation `o` in `seen`. */
  ghost predicate OpTold(seen: Op, o: W.Operation)
  {
    && OperatorTold(seen.op, o.op) && seen.version == 0 && seen.name == o.bin.name
    && if o.op == W.McIncr && o.bin.value.BlobOf?
       then PairTold(seen.particle, seen.value, o.bin.value.kind, o.bin.value.bytes)
       else ValueTold(seen.particle, seen.value, o.bin.value)
  }

  // ---------------------------------------------------------------------------
  // The message
  // ---------------------------------------------------------------------------

  datatype Message = Message(
    version: Byte, type_: Byte, size: nat, headerSize: Byte, info1: Byte, info2: Byte, info3: Byte, result: Byte,
    generation: nat, recordTtl: nat, transactionTtl: nat, fields: seq<Field>, ops: seq<Op>)

  function Read(b: Bytes): (m: Option<Message>)
  {
    if |b| < 30 then None
    else
      match TakeFields(b[30..], U16(b[26..28]))
      case None => None
      case Some((fields, rest)) =>
        match TakeOps(rest, U16(b[28..30]))
        case None => None
        case Some((ops, _)) =>
          Some(Message(b[0], b[1], U48(b[2..8]), b[8], b[9], b[10], b[11], b[13],
                       U32(b[14..18]), U32(b[18..22]), U32(b[22..26]), fields, ops))
  }

  /** The write flag in force among those asked for, and whether the generation counts. */
  ghost predicate RuleTold(m: Message, info2: bv8, p: W.WriteParams)
  {
    && m.recordTtl == p.recordTtl && m.transactionTtl == p.timeout
    && if p.unique then m.info2 == (info2 | 0x20) as int && m.generation == 0
       else if p.uniqueBin then m.info2 == (info2 | 0x40) as int && m.generation == 0
       else if p.useGeneration then m.info2 == (info2 | 0x04) as int && m.generation == p.generation
       else if p.useGenerationGt then m.info2 == (info2 | 0x08) as int && m.generation == p.generation
       else if p.useGenerationDup then m.info2 == (info2 | 0x10) as int && m.generation == p.generation
       else m.info2 == info2 as int && m.generation == 0
  }

  ghost predicate HeaderTold(m: Message, r: W.Request, length: nat)
  {
    && m.version == 2 && m.type_ == 3 && m.size == length - 8 && m.headerSize == 22 && m.result == 0
    && m.info1 == r.info1 as int && m.info3 == r.info3 as int
    && if r.params.Some? then RuleTold(m, r.info2, r.params.value)
       else m.info2 == r.info2 as int && m.generation == m.recordTtl == m.transactionTtl == 0
  }

  /** A key goes out with its type before it. */
  ghost predicate KeyTold(data: Bytes, key: W.Object)
  {
    data != [] && !key.Null? && ValueTold(data[0], data[1..], key)
  }

  ghost predicate RequestType(type_: Byte)
  {
    type_ == 0 || type_ == 1 || type_ == 2 || type_ == 4 || type_ == 7 || type_ == 8
  }

  /** Each part of the request comes under its own type, once, and nothing else does. */
  ghost predicate FieldsTold(fields: seq<Field>, r: W.Request)
  {
    && Only(fields, 0, r.ns) && Only(fields, 1, r.set_) && Only(fields, 4, r.digest)
    && (if r.key.None? then Only(fields, 2, None)
        else exists data :: Only(fields, 2, Some(data)) && KeyTold(data, r.key.value))
    && (if r.trid == 0 then Only(fields, 7, None)
        else exists data :: Only(fields, 7, Some(data)) && |data| == 8 && U64(data) == r.trid)
    && Only(fields, 8, if r.scan.Some? then Some([r.scan.value.0, r.scan.value.1]) else None)
    && forall f :: f in fields ==> RequestType(f.type_)
  }

  /** The server finds the request in `m`. */
  ghost predicate Told(m: Message, r: W.Request, length: nat)
  {
    && HeaderTold(m, r, length) && FieldsTold(m.fields, r)
    && |m.ops| == |r.ops| && forall k :: 0 <= k < |r.ops| ==> OpTold(m.ops[k], r.ops[k])
  }

  // ---------------------------------------------------------------------------
  // What the server finds in the bytes of a request
  // ---------------------------------------------------------------------------

  function Seen(fields: seq<W.Field>): (s: seq<Field>)
    ensures |s| == |fields|
  {
    seq(|fields|, k requires 0 <= k < |fields| => Field(fields[k].type_, fields[k].data))
  }

  lemma FieldSeen(f: W.Field, rest: Bytes)
    requires |f.data| + 1 < 0x1_0000_0000
    ensures var b := W.FieldBytes(f.type_, f.data) + rest;
            HasField(b) && b[4] == f.type_ && b[5..FieldEnd(b)] == f.data && b[FieldEnd(b)..] == rest
  {
    var b := W.FieldBytes(f.type_, f.data) + rest;
    assert b[..4] == Network(|f.data| + 1, 4);
    U32Of(|f.data| + 1);
  }

  lemma {:induction false} FieldsSeen(fields: seq<W.Field>, rest: Bytes)
    requires forall f :: f in fields ==> |f.data| + 1 < 0x1_0000_0000
    ensures TakeFields(W.FieldsBytes(fields) + rest, |fields|) == Some((Seen(fields), rest))
  {
    if fields == [] {
      assert W.FieldsBytes(fields) + rest == rest;
    } else {
      var f, after := fields[0], W.FieldsBytes(fields[1..]) + rest;
      Assoc(W.FieldBytes(f.type_, f.data), W.FieldsBytes(fields[1..]), rest);
      FieldSeen(f, after);
      FieldsSeen(fields[1..], rest);
      assert Seen(fields) == [Field(f.type_, f.data)] + Seen(fields[1..]);
    }
  }

  lemma OpSeen(o: W.Operation, rest: Bytes)
    requires |W.OpBytes(o)| < 0x1_0000_0000
    ensures var b, data := W.OpBytes(o) + rest, W.OpData(o.op, o.bin.value);
            && HasOp(b) && b[4] == W.OpCode(o.op) && b[5] == W.TypeCode(o.bin.value) && b[6] == 0
            && b[8..8 + b[7]] == o.bin.name && b[8 + b[7]..OpEnd(b)] == data && b[OpEnd(b)..] == rest
  {
    var b, data := W.OpBytes(o) + rest, W.OpData(o.op, o.bin.value);
    assert b[..4] == Network(4 + |o.bin.name| + |data|, 4);
    U32Of(4 + |o.bin.name| + |data|);
  }

  lemma ValueSeen(op: W.Operator, o: W.Object)
    requires !(op == W.McIncr && o.BlobOf?)
    ensures ValueTold(W.TypeCode(o), W.OpData(op, o), o)
  {
    if o.Int? { S64Of(o.i); }
  }

  lemma PairSeen(o: W.Object)
    requires o.BlobOf? && |o.bytes| == 16
    ensures PairTold(W.TypeCode(o), W.OpData(W.McIncr, o), o.kind, o.bytes)
  {
    var first, second := o.bytes[..8], o.bytes[8..];
    forall k | 0 <= k < 8 ensures Reversed(first)[k] == o.bytes[7 - k] && Reversed(second)[k] == o.bytes[15 - k]
    {
      ReversedAt(first, k);
      ReversedAt(second, k);
    }
  }

  lemma OpIsTold(o: W.Operation)
    requires o.op == W.McIncr && o.bin.value.BlobOf? ==> |o.bin.value.bytes| == 16
    ensures OpTold(SeenOp(o), o)
  {
    if o.op == W.McIncr && o.bin.value.BlobOf? {
      PairSeen(o.bin.value);
    } else {
      ValueSeen(o.op, o.bin.value);
    }
  }

  function SeenOp(o: W.Operation): (op: Op)
  {
    Op(W.OpCode(o.op), W.TypeCode(o.bin.value), 0, o.bin.name, W.OpData(o.op, o.bin.value))
  }

  lemma OpTaken(o: W.Operation, after: Bytes, n: nat, more: seq<Op>, rest: Bytes)
    requires |W.OpBytes(o)| < 0x1_0000_0000 && TakeOps(after, n) == Some((more, rest))
    ensures TakeOps(W.OpBytes(o) + after, n + 1) == Some(([SeenOp(o)] + more, rest))
  {
    OpSeen(o, after);
  }

  function SeenOps(ops: seq<W.Operation>): (seen: seq<Op>)
    ensures |seen| == |ops|
  {
    if ops == [] then [] else [SeenOp(ops[0])] + SeenOps(ops[1..])
  }

  /** Stepping over the sizes lands on each operation, and each tells its operator, type,
      name and value. */
  lemma {:induction false} OpsSeen(ops: seq<W.Operation>, rest: Bytes)
    requires |W.OpsBytes(ops)| < 0x1_0000_0000
    ensures TakeOps(W.OpsBytes(ops) + rest, |ops|) == Some((SeenOps(ops), rest))
  {
    if ops == [] {
      assert W.OpsBytes(ops) + rest == rest;
    } else {
      OpsSeen(ops[1..], rest);
      OpTaken(ops[0], W.OpsBytes(ops[1..]) + rest, |ops| - 1, SeenOps(ops[1..]), rest);
      Assoc(W.OpBytes(ops[0]), W.OpsBytes(ops[1..]), rest);
    }
  }

  lemma {:induction false} OpsAreTold(ops: seq<W.Operation>, k: nat)
    requires k < |ops|
    requires ops[k].op == W.McIncr && ops[k].bin.value.BlobOf? ==> |ops[k].bin.value.bytes| == 16
    ensures OpTold(SeenOps(ops)[k], ops[k])
  {
    if k == 0 {
      OpIsTold(ops[0]);
    } else {
      OpsAreTold(ops[1..], k - 1);
    }
  }

  // The fields

  lemma SeenAppend(f: seq<W.Field>, g: seq<W.Field>)
    ensures Seen(f + g) == Seen(f) + Seen(g)
  {
  }

  /** Fields that may be left out, each with its type. */
  function Joined(parts: seq<(Byte, Option<Bytes>)>): (fields: seq<Field>)
  {
    if parts == [] then []
    else
      var (type_, d) := parts[|parts| - 1];
      Joined(parts[..|parts| - 1]) + if d.Some? then [Field(type_, d.value)] else []
  }

  lemma {:induction false} JoinedTypes(parts: seq<(Byte, Option<Bytes>)>, f: Field)
    requires f in Joined(parts)
    ensures exists k :: 0 <= k < |parts| && parts[k].0 == f.type_
  {
    var front := parts[..|parts| - 1];
    if f in Joined(front) {
      JoinedTypes(front, f);
      var k :| 0 <= k < |front| && front[k].0 == f.type_;
      assert parts[k].0 == f.type_;
    }
  }

  lemma OnlyAppend(fields: seq<Field>, more: seq<Field>, type_: Byte, d: Option<Bytes>)
    requires Only(fields, type_, d) && NoneOf(more, type_)
    ensures Only(fields + more, type_, d)
  {
    if d.Some? {
      var front, rest :| fields == front + [Field(type_, d.value)] + rest && NoneOf(front, type_)
        && NoneOf(rest, type_);
      assert fields + more == front + [Field(type_, d.value)] + (rest + more) && NoneOf(rest + more, type_);
    }
  }

  lemma OnlyLast(fields: seq<Field>, type_: Byte, d: Option<Bytes>)
    requires NoneOf(fields, type_)
    ensures Only(fields + if d.Some? then [Field(type_, d.value)] else [], type_, d)
  {
    if d.Some? {
      var none: seq<Field> := [];
      assert fields + [Field(type_, d.value)] == fields + [Field(type_, d.value)] + none && NoneOf(none, type_);
    } else {
      assert fields + [] == fields;
    }
  }

  /** With different types each part comes under its own, once. */
  lemma {:induction false} OnlyInJoined(parts: seq<(Byte, Option<Bytes>)>, k: nat)
    requires k < |parts| && forall i, j :: 0 <= i < j < |parts| ==> parts[i].0 != parts[j].0
    ensures Only(Joined(parts), parts[k].0, parts[k].1)
  {
    var front, last := parts[..|parts| - 1], parts[|parts| - 1];
    if k == |front| {
      forall f | f in Joined(front) ensures f.type_ != last.0
      {
        JoinedTypes(front, f);
      }
      OnlyLast(Joined(front), last.0, last.1);
    } else {
      OnlyInJoined(front, k);
      OnlyAppend(Joined(front), if last.1.Some? then [Field(last.0, last.1.value)] else [], parts[k].0, parts[k].1);
    }
  }

  /** The parts of a request, in the order they are laid out. */
  function Parts(r: W.Request): (parts: seq<(Byte, Option<Bytes>)>)
  {
    [(0, r.ns), (1, r.set_),
     (7, if r.trid != 0 then Some(Network(r.trid, 8)) else None),
     (8, if r.scan.Some? then Some([r.scan.value.0, r.scan.value.1]) else None),
     (2, if r.key.Some? then W.KeyData(r.key.value) else None),
     (4, r.digest)]
  }

  lemma SeenParts(r: W.Request)
    ensures Seen(W.Fields(r)) == Joined(Parts(r))
  {
    var p := Parts(r);
    assert p[..6] == p && p[..6][..5] == p[..5] && p[..5][..4] == p[..4] && p[..4][..3] == p[..3];
    assert p[..3][..2] == p[..2] && p[..2][..1] == p[..1] && p[..1][..0] == p[..0];
    SeenAppend(W.NsField(r), W.SetField(r));
    SeenAppend(W.NsField(r) + W.SetField(r), W.TridField(r));
    SeenAppend(W.NsField(r) + W.SetField(r) + W.TridField(r), W.ScanField(r));
    SeenAppend(W.NsField(r) + W.SetField(r) + W.TridField(r) + W.ScanField(r), W.KeyField(r));
    SeenAppend(W.NsField(r) + W.SetField(r) + W.TridField(r) + W.ScanField(r) + W.KeyField(r), W.DigestField(r));
    assert Joined(p[..1]) == Seen(W.NsField(r));
    assert Joined(p[..2]) == Joined(p[..1]) + Seen(W.SetField(r));
    assert Joined(p[..3]) == Joined(p[..2]) + Seen(W.TridField(r));
    assert Joined(p[..4]) == Joined(p[..3]) + Seen(W.ScanField(r));
    assert Joined(p[..5]) == Joined(p[..4]) + Seen(W.KeyField(r));
    assert Joined(p) == Joined(p[..5]) + Seen(W.DigestField(r));
  }

  lemma KeySeen(key: W.Object)
    requires W.KeyData(key).Some?
    ensures KeyTold(W.KeyData(key).value, key)
  {
    if key.Int? {
      S64Of(key.i);
      assert W.KeyData(key).value[1..] == Network(W.Unsigned64(key.i), 8);
    }
  }

  lemma PartsAreOnly(r: W.Request)
    ensures var p, fields := Parts(r), Seen(W.Fields(r));
            && Only(fields, 0, r.ns) && Only(fields, 1, r.set_) && Only(fields, 7, p[2].1)
            && Only(fields, 8, p[3].1) && Only(fields, 2, p[4].1) && Only(fields, 4, r.digest)
  {
    SeenParts(r);
    OnlyInJoined(Parts(r), 0);
    OnlyInJoined(Parts(r), 1);
    OnlyInJoined(Parts(r), 2);
    OnlyInJoined(Parts(r), 3);
    OnlyInJoined(Parts(r), 4);
    OnlyInJoined(Parts(r), 5);
  }

  lemma PartType(r: W.Request, k: nat)
    requires k < 6
    ensures RequestType(Parts(r)[k].0)
  {
    if k == 0 {} else if k == 1 {} else if k == 2 {} else if k == 3 {} else if k == 4 {} else {}
  }

  lemma NoOtherTypes(r: W.Request, f: Field)
    requires f in Seen(W.Fields(r))
    ensures RequestType(f.type_)
  {
    SeenParts(r);
    JoinedTypes(Parts(r), f);
    var k :| 0 <= k < |Parts(r)| && Parts(r)[k].0 == f.type_;
    PartType(r, k);
  }

  lemma TridSeen(r: W.Request)
    requires W.IsRequest(r)
    ensures r.trid != 0 ==> U64(Network(r.trid, 8)) == r.trid
  {
    assert Pow256(8) == 0x1_0000_0000_0000_0000;
    U64Of(r.trid);
  }

  lemma FieldsAreTold(r: W.Request)
    requires W.IsRequest(r) && W.Compiles(r)
    ensures FieldsTold(Seen(W.Fields(r)), r)
  {
    var fields := Seen(W.Fields(r));
    PartsAreOnly(r);
    forall f | f in fields ensures RequestType(f.type_)
    {
      NoOtherTypes(r, f);
    }
    if r.key.Some? { KeySeen(r.key.value); }
    TridSeen(r);
  }

  // The header

  lemma HeaderSeen(h: W.Header, rest: Bytes)
    requires W.HeaderFits(h)
    ensures var b := W.HeaderBytes(h) + rest;
            && b[0] == h.version && b[1] == h.type_ && U48(b[2..8]) == h.size
            && b[8] == h.headerSize && b[9] == h.info1 && b[10] == h.info2 && b[11] == h.info3 && b[13] == h.result
            && U32(b[14..18]) == h.generation && U32(b[18..22]) == h.recordTtl && U32(b[22..26]) == h.transactionTtl
            && U16(b[26..28]) == h.nFields && U16(b[28..30]) == h.nOps && b[30..] == rest
  {
    assert Pow256(6) == 0x1_0000_0000_0000 && Pow256(4) == 0x1_0000_0000 && Pow256(2) == 0x1_0000;
    W.HeaderSlices(h, rest);
    U48Of(h.size);
    U32Of(h.generation);
    U32Of(h.recordTtl);
    U32Of(h.transactionTtl);
    U16Of(h.nFields);
    U16Of(h.nOps);
  }

  function MessageOf(h: W.Header, fields: seq<Field>, ops: seq<Op>): (m: Message)
  {
    Message(h.version, h.type_, h.size, h.headerSize, h.info1, h.info2, h.info3, h.result,
            h.generation, h.recordTtl, h.transactionTtl, fields, ops)
  }

  lemma MessageRead(h: W.Header, body: Bytes, fields: seq<Field>, rest: Bytes, ops: seq<Op>, tail: Bytes)
    requires W.HeaderFits(h)
    requires TakeFields(body, h.nFields) == Some((fields, rest)) && TakeOps(rest, h.nOps) == Some((ops, tail))
    ensures Read(W.HeaderBytes(h) + body) == Some(MessageOf(h, fields, ops))
  {
    HeaderSeen(h, body);
  }

  lemma RuleSeen(p: W.WriteParams, info2: bv8)
    ensures var flags, generation := info2 | W.RuleFlag(W.RuleOf(p)), W.SentGeneration(Some(p));
            if p.unique then flags == info2 | 0x20 && generation == 0
            else if p.uniqueBin then flags == info2 | 0x40 && generation == 0
            else if p.useGeneration then flags == info2 | 0x04 && generation == p.generation
            else if p.useGenerationGt then flags == info2 | 0x08 && generation == p.generation
            else if p.useGenerationDup then flags == info2 | 0x10 && generation == p.generation
            else flags == info2 && generation == 0
  {
    assert info2 | 0 == info2;
  }

  lemma HeaderIsTold(h: W.Header, r: W.Request, length: nat, fields: seq<Field>, ops: seq<Op>)
    requires h.version == 2 && h.type_ == 3 && h.size == length - 8 && h.headerSize == 22 && h.result == 0
    requires h.info1 == r.info1 as int && h.info2 == W.Info2(r) as int && h.info3 == r.info3 as int
    requires h.generation == W.SentGeneration(r.params)
    requires h.recordTtl == if r.params.Some? then r.params.value.recordTtl else 0
    requires h.transactionTtl == if r.params.Some? then r.params.value.timeout else 0
    ensures HeaderTold(MessageOf(h, fields, ops), r, length)
  {
    if r.params.Some? { RuleSeen(r.params.value, r.info2); }
  }

  lemma BodyIsRead(r: W.Request)
    requires W.IsRequest(r) && W.Compiles(r) && W.FitsWidths(r)
    ensures Read(W.Encoded(r) + W.Zeros(W.Slack(r)))
            == Some(MessageOf(W.RequestHeader(r), Seen(W.Fields(r)), SeenOps(r.ops)))
  {
    var h, slack := W.RequestHeader(r), W.Zeros(W.Slack(r));
    var fields, rest := W.FieldsBytes(W.Fields(r)), W.OpsBytes(r.ops);
    assert Pow256(4) == 0x1_0000_0000;
    W.SizeAccounting(r);
    W.RequestHeaderFits(r);
    W.FieldsNarrow(r);
    forall f | f in W.Fields(r) ensures |f.data| + 1 < 0x1_0000_0000
    {
      assert W.Narrow(f);
    }
    FieldsSeen(W.Fields(r), rest + slack);
    OpsSeen(r.ops, slack);
    MessageRead(h, fields + (rest + slack), Seen(W.Fields(r)), rest + slack, SeenOps(r.ops), slack);
    Assoc4(W.HeaderBytes(h), fields, rest, slack);
    Assoc(fields, rest, slack);
  }

  /** What can be sent: values of all types but the unknown ones, and keys that are
      integers, strings or blobs. */
  lemma CompilesExactly(r: W.Request)
    ensures W.Compiles(r) <==>
              && (forall o :: o in r.ops ==>
                    o.bin.value.Null? || o.bin.value.Int? || o.bin.value.Str? || o.bin.value.BlobOf?)
              && (r.key.Some? ==> r.key.value.Int? || r.key.value.Str? || r.key.value.BlobOf?)
  {
  }

  /** What a server reads in the bytes of a request, by the numbers of the protocol alone, is
      the request: every flag, time, field and operation in its own place. */
  lemma ServerReads(r: W.Request)
    requires W.IsRequest(r) && W.Compiles(r) && W.FitsWidths(r)
    ensures var b := W.Encoded(r) + W.Zeros(W.Slack(r));
            Read(b).Some? && Told(Read(b).value, r, |b|)
  {
    BodyIsRead(r);
    W.SizeAccounting(r);
    HeaderIsTold(W.RequestHeader(r), r, W.MessageSize(r), Seen(W.Fields(r)), SeenOps(r.ops));
    FieldsAreTold(r);
    forall k | 0 <= k < |r.ops| ensures OpTold(SeenOps(r.ops)[k], r.ops[k])
    {
      assert r.ops[k] in r.ops;
      OpsAreTold(r.ops, k);
    }
  }
}
