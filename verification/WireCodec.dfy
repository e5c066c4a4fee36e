/**
 The message codec of src/citrusleaf.c and src/cf_proto.c: `cl_compile` sizes a request,
 lays out header, fields and operations in host order and swaps every integer in place;
 `cl_parse` walks a body, swaps it back and fills in bins.  The layouts are those of
 include/citrusleaf/proto.h.

 `Encoded` and `Parsed` say what the two do to byte sequences; the methods do it in a
 buffer.
 */
module WireCodec {
  import opened Common
  import opened ByteOrder

  // ---------------------------------------------------------------------------
  // Requests
  // ---------------------------------------------------------------------------

  datatype BlobKind = Blob | Java | CSharp | Python | Ruby | Php

  type Int64 = x: int | -0x8000_0000_0000_0000 <= x < 0x8000_0000_0000_0000

  /** A typed value; `Other` stands for the types the codec does not carry. */
  datatype Object =
    | Null
    | Int(i: Int64)
    | Str(text: Bytes)
    | BlobOf(kind: BlobKind, bytes: Bytes)
    | Other(code: Byte)

  datatype Operator = Write | Read | Incr | McIncr | Prepend | Append | McPrepend | McAppend | Touch | McTouch

  /** A bin name has 32 characters at most, the last a terminator. */
  type Name = s: Bytes | |s| < 32 witness []

  datatype Bin = Bin(name: Name, value: Object)

  datatype Operation = Operation(op: Operator, bin: Bin)

  datatype WriteRule = AnyGeneration | Unique | UniqueBin | Generation | GenerationGt | GenerationDup

  datatype WriteParams = WriteParams(
    unique: bool, uniqueBin: bool, useGeneration: bool, useGenerationGt: bool, useGenerationDup: bool,
    generation: nat, recordTtl: nat, timeout: nat)

  datatype Request = Request(
    info1: bv8, info2: bv8, info3: bv8,
    ns: Option<Bytes>, set_: Option<Bytes>, trid: nat, scan: Option<(Byte, Byte)>,
    key: Option<Object>, digest: Option<Bytes>,
    ops: seq<Operation>, params: Option<WriteParams>)

  const HeaderSize := 30
  const FieldHeader := 5
  const OpHeader := 8
  const DigestSize := 20

  function BlobCode(kind: BlobKind): (code: Byte)
  {
    match kind
    case Blob => 4
    case Java => 7
    case CSharp => 8
    case Python => 9
    case Ruby => 10
    case Php => 11
  }

  function TypeCode(o: Object): (code: Byte)
  {
    match o
    case Null => 0
    case Int(_) => 1
    case Str(_) => 3
    case BlobOf(kind, _) => BlobCode(kind)
    case Other(code) => code
  }

  function OpCode(op: Operator): (code: Byte)
  {
    match op
    case Write => 2
    case Read => 1
    case Incr => 5
    case McIncr => 129
    case Append => 9
    case Prepend => 10
    case McAppend => 130
    case McPrepend => 131
    case Touch => 11
    case McTouch => 132
  }

  /** What the C types of the arguments already ensure, and the sizes `cl_compile` relies
      on: a digest of 20 bytes and 16-byte increments. */
  predicate IsRequest(r: Request)
  {
    && r.trid < Pow256(8)
    && (r.digest.Some? ==> |r.digest.value| == DigestSize)
    && (r.params.Some? ==>
          && r.params.value.generation < Pow256(4)
          && r.params.value.recordTtl < Pow256(4)
          && r.params.value.timeout < Pow256(4))
    && forall o :: o in r.ops ==> o.op == McIncr && o.bin.value.BlobOf? ==> |o.bin.value.bytes| == 16
  }

  // ---------------------------------------------------------------------------
  // Layout
  // ---------------------------------------------------------------------------

  /** The 64 bits of a signed integer. */
  function Unsigned64(i: Int64): (n: nat)
    ensures n < 0x1_0000_0000_0000_0000
  {
    if i < 0 then i + 0x1_0000_0000_0000_0000 else i
  }

  function Signed64(n: nat): (i: Int64)
    requires n < 0x1_0000_0000_0000_0000
  {
    if n >= 0x8000_0000_0000_0000 then n - 0x1_0000_0000_0000_0000 else n
  }

  function FieldBytes(type_: Byte, data: Bytes): (b: Bytes)
    ensures |b| == FieldHeader + |data|
  {
    Network(|data| + 1, 4) + [type_] + data
  }

  datatype Field = Field(type_: Byte, data: Bytes)

  /** A key travels with its type; `None` for a type that cannot be a key. */
  function KeyData(key: Object): (data: Option<Bytes>)
  {
    match key
    case Int(i) => Some([1] + Network(Unsigned64(i), 8))
    case Str(text) => Some([3] + text)
    case BlobOf(kind, bytes) => Some([BlobCode(kind)] + bytes)
    case Null => None
    case Other(_) => None
  }

  function NsField(r: Request): seq<Field> { if r.ns.Some? then [Field(0, r.ns.value)] else [] }
  function SetField(r: Request): seq<Field> { if r.set_.Some? then [Field(1, r.set_.value)] else [] }
  function TridField(r: Request): seq<Field> { if r.trid != 0 then [Field(7, Network(r.trid, 8))] else [] }
  function ScanField(r: Request): seq<Field>
  {
    if r.scan.Some? then [Field(8, [r.scan.value.0, r.scan.value.1])] else []
  }

  function KeyField(r: Request): seq<Field>
  {
    if r.key.Some? && KeyData(r.key.value).Some? then [Field(2, KeyData(r.key.value).value)] else []
  }

  function DigestField(r: Request): seq<Field> { if r.digest.Some? then [Field(4, r.digest.value)] else [] }

  /** The fields in the order they are laid out. */
  function Fields(r: Request): (fields: seq<Field>)
  {
    NsField(r) + SetField(r) + TridField(r) + ScanField(r) + KeyField(r) + DigestField(r)
  }

  function FieldsBytes(fields: seq<Field>): (b: Bytes)
  {
    if fields == [] then [] else FieldBytes(fields[0].type_, fields[0].data) + FieldsBytes(fields[1..])
  }

  /** The two integers of a memcache increment are swapped one by one. */
  function OpData(op: Operator, o: Object): (data: Bytes)
  {
    match o
    case Int(i) => Network(Unsigned64(i), 8)
    case Str(text) => text
    case BlobOf(_, bytes) => if op == McIncr && |bytes| == 16 then Reversed(bytes[..8]) + Reversed(bytes[8..])
      else bytes
    case Null => []
    case Other(_) => []
  }

  function OpBytes(o: Operation): (b: Bytes)
  {
    var data := OpData(o.op, o.bin.value);
    Network(4 + |o.bin.name| + |data|, 4) + [OpCode(o.op), TypeCode(o.bin.value), 0, |o.bin.name|] + o.bin.name + data
  }

  function OpsBytes(ops: seq<Operation>): (b: Bytes)
  {
    if ops == [] then [] else OpBytes(ops[0]) + OpsBytes(ops[1..])
  }

  /** The rule in force when several are asked for. */
  function RuleOf(p: WriteParams): (rule: WriteRule)
  {
    if p.unique then Unique
    else if p.uniqueBin then UniqueBin
    else if p.useGeneration then Generation
    else if p.useGenerationGt then GenerationGt
    else if p.useGenerationDup then GenerationDup
    else AnyGeneration
  }

  function RuleFlag(rule: WriteRule): (flag: bv8)
  {
    match rule
    case AnyGeneration => 0
    case Unique => 0x20
    case UniqueBin => 0x40
    case Generation => 0x04
    case GenerationGt => 0x08
    case GenerationDup => 0x10
  }

  /** The generation goes out only under one of the three generation rules. */
  function SentGeneration(p: Option<WriteParams>): (n: nat)
  {
    if p.None? then 0
    else
      match RuleOf(p.value)
      case Generation => p.value.generation
      case GenerationGt => p.value.generation
      case GenerationDup => p.value.generation
      case _ => 0
  }

  function Info2(r: Request): (flags: bv8)
  {
    if r.params.Some? then r.info2 | RuleFlag(RuleOf(r.params.value)) else r.info2
  }

  datatype Header = Header(
    version: Byte, type_: Byte, size: nat, headerSize: Byte, info1: Byte, info2: Byte, info3: Byte, result: Byte,
    generation: nat, recordTtl: nat, transactionTtl: nat, nFields: nat, nOps: nat)

  function HeaderBytes(h: Header): (b: Bytes)
    ensures |b| == HeaderSize
  {
    [h.version, h.type_] + Network(h.size, 6)
    + [h.headerSize, h.info1, h.info2, h.info3, 0, h.result]
    + Network(h.generation, 4) + Network(h.recordTtl, 4) + Network(h.transactionTtl, 4)
    + Network(h.nFields, 2) + Network(h.nOps, 2)
  }

  function RequestHeader(r: Request): (h: Header)
  {
    Header(2, 3, MessageSize(r) - 8, 22, r.info1 as int, Info2(r) as int, r.info3 as int, 0,
           SentGeneration(r.params),
           if r.params.Some? then r.params.value.recordTtl else 0,
           if r.params.Some? then r.params.value.timeout else 0,
           |Fields(r)|, |r.ops|)
  }

  /** A request as `cl_compile` lays it out. */
  function Encoded(r: Request): (b: Bytes)
  {
    HeaderBytes(RequestHeader(r)) + FieldsBytes(Fields(r)) + OpsBytes(r.ops)
  }

  // ---------------------------------------------------------------------------
  // Sizes
  // ---------------------------------------------------------------------------

  function ObjectSize(o: Object): (n: nat)
  {
    match o
    case Null => 0
    case Int(_) => 8
    case Str(text) => |text|
    case BlobOf(_, bytes) => |bytes|
    case Other(_) => 0
  }

  function OpsSize(ops: seq<Operation>): (n: nat)
  {
    if ops == [] then 0 else OpHeader + |ops[0].bin.name| + ObjectSize(ops[0].bin.value) + OpsSize(ops[1..])
  }

  /** The header and the fields in the size `cl_compile` computes before it lays anything
      out: a digest and the scan options are counted one byte too many. */
  function FixedSize(r: Request): (n: nat)
    ensures n >= HeaderSize
  {
    HeaderSize
    + (if r.ns.Some? then FieldHeader + |r.ns.value| else 0)
    + (if r.set_.Some? then FieldHeader + |r.set_.value| else 0)
    + (if r.key.Some? then FieldHeader + 1 + ObjectSize(r.key.value) else 0)
    + (if r.digest.Some? then FieldHeader + 1 + DigestSize else 0)
    + (if r.trid != 0 then FieldHeader + 8 else 0)
    + (if r.scan.Some? then FieldHeader + 1 + 2 else 0)
  }

  function MessageSize(r: Request): (n: nat)
    ensures n >= HeaderSize
  {
    FixedSize(r) + OpsSize(r.ops)
  }

  /** The bytes counted but not laid out. */
  function Slack(r: Request): (n: nat)
  {
    (if r.digest.Some? then 1 else 0) + (if r.scan.Some? then 1 else 0)
  }

  predicate Compiles(r: Request)
  {
    && (forall o :: o in r.ops ==> !o.bin.value.Other?)
    && (r.key.Some? ==> KeyData(r.key.value).Some?)
  }

  lemma {:induction false} OpsSizeExact(ops: seq<Operation>)
    requires forall o :: o in ops ==> o.op == McIncr && o.bin.value.BlobOf? ==> |o.bin.value.bytes| == 16
    ensures |OpsBytes(ops)| == OpsSize(ops)
  {
    if ops != [] {
      OpsSizeExact(ops[1..]);
      assert ops[0] in ops;
    }
  }

  lemma {:induction false} FieldsBytesAppend(f: seq<Field>, g: seq<Field>)
    ensures FieldsBytes(f + g) == FieldsBytes(f) + FieldsBytes(g)
  {
    if f == [] {
      assert f + g == g;
    } else {
      assert (f + g)[1..] == f[1..] + g;
      FieldsBytesAppend(f[1..], g);
    }
  }

  lemma OneField(f: Field)
    ensures FieldsBytes([f]) == FieldBytes(f.type_, f.data)
  {
    assert [f][1..] == [];
    assert FieldsBytes([]) == [];
  }

  lemma FieldsParts(r: Request)
    ensures FieldsBytes(Fields(r)) ==
              FieldsBytes(NsField(r)) + FieldsBytes(SetField(r)) + FieldsBytes(TridField(r))
              + FieldsBytes(ScanField(r)) + FieldsBytes(KeyField(r)) + FieldsBytes(DigestField(r))
  {
    FieldsBytesAppend(NsField(r) + SetField(r) + TridField(r) + ScanField(r) + KeyField(r), DigestField(r));
    FieldsBytesAppend(NsField(r) + SetField(r) + TridField(r) + ScanField(r), KeyField(r));
    FieldsBytesAppend(NsField(r) + SetField(r) + TridField(r), ScanField(r));
    FieldsBytesAppend(NsField(r) + SetField(r), TridField(r));
    FieldsBytesAppend(NsField(r), SetField(r));
  }

  function Room(present: bool, n: nat): nat
  {
    if present then FieldHeader + n else 0
  }

  lemma FieldSizes(r: Request)
    requires IsRequest(r)
    ensures |FieldsBytes(NsField(r))| == Room(r.ns.Some?, if r.ns.Some? then |r.ns.value| else 0)
    ensures |FieldsBytes(SetField(r))| == Room(r.set_.Some?, if r.set_.Some? then |r.set_.value| else 0)
    ensures |FieldsBytes(TridField(r))| == Room(r.trid != 0, 8)
    ensures |FieldsBytes(ScanField(r))| == Room(r.scan.Some?, 2)
    ensures |FieldsBytes(DigestField(r))| == Room(r.digest.Some?, DigestSize)
  {
    if r.ns.Some? { OneField(NsField(r)[0]); }
    if r.set_.Some? { OneField(SetField(r)[0]); }
    if r.trid != 0 { OneField(TridField(r)[0]); }
    if r.scan.Some? { OneField(ScanField(r)[0]); }
    if r.digest.Some? { OneField(DigestField(r)[0]); }
  }

  lemma KeySize(r: Request)
    requires Compiles(r)
    ensures |FieldsBytes(KeyField(r))| == Room(r.key.Some?, if r.key.Some? then 1 + ObjectSize(r.key.value) else 0)
  {
    if r.key.Some? { OneField(KeyField(r)[0]); }
  }

  lemma EncodedLength(r: Request)
    ensures |Encoded(r)| == HeaderSize + |FieldsBytes(NsField(r))| + |FieldsBytes(SetField(r))|
            + |FieldsBytes(TridField(r))| + |FieldsBytes(ScanField(r))| + |FieldsBytes(KeyField(r))|
            + |FieldsBytes(DigestField(r))| + |OpsBytes(r.ops)|
  {
    FieldsParts(r);
  }

  lemma MessageParts(r: Request)
    ensures MessageSize(r) == HeaderSize + OpsSize(r.ops) + Slack(r)
              + Room(r.ns.Some?, if r.ns.Some? then |r.ns.value| else 0)
                + Room(r.set_.Some?, if r.set_.Some? then |r.set_.value| else 0)
              + Room(r.trid != 0, 8) + Room(r.scan.Some?, 2)
              + Room(r.key.Some?, if r.key.Some? then 1 + ObjectSize(r.key.value) else 0)
                + Room(r.digest.Some?, DigestSize)
  {
  }

  /** The layout fills the computed size but for the slack. */
  lemma SizeAccounting(r: Request)
    requires IsRequest(r) && Compiles(r)
    ensures |Encoded(r)| + Slack(r) == MessageSize(r)
  {
    OpsSizeExact(r.ops);
    EncodedLength(r);
    MessageParts(r);
    FieldSizes(r);
    KeySize(r);
  }

  // ---------------------------------------------------------------------------
  // Parsing
  // ---------------------------------------------------------------------------

  /** `Malformed` stands for bodies in which an item is not wholly inside: the program
      does not notice and reads on, which is not modelled further. */
  datatype Outcome<T> = Ok(value: T) | TooShort | Malformed

  datatype Found = Found(trid: Option<nat>, set_: Option<Bytes>)

  /** Field data starts at byte 5; `field_sz` counts the type. */
  predicate FieldFits(b: Bytes)
  {
    |b| >= FieldHeader &&
    var size := FromNetwork(b[..4]);
    1 <= size && 4 + size <= |b| && (b[4] == 7 ==> size >= 9)
  }

  function FieldLength(b: Bytes): (n: nat)
    requires FieldFits(b)
    ensures FieldHeader <= n <= |b|
  {
    4 + FromNetwork(b[..4])
  }

  /** What one field tells the parser. */
  function Note(found: Found, type_: Byte, data: Bytes): (f: Found)
    requires type_ == 7 ==> |data| >= 8
  {
    if type_ == 7 then found.(trid := Some(FromNetwork(data[..8])))
    else if type_ == 1 then found.(set_ := Some(data))
    else found
  }

  /** The outcome of walking `n` fields, and the bytes after them.  `whole` is the length
      the bounds check compares with, which does not shrink as the walk goes on. */
  function ParsedFields(n: nat, b: Bytes, whole: nat, found: Found): (o: Outcome<(Found, Bytes)>)
  {
    if n == 0 then Ok((found, b))
    else if whole < FieldHeader then TooShort
    else if !FieldFits(b) then Malformed
    else ParsedFields(n - 1, b[FieldLength(b)..], whole, Note(found, b[4], b[FieldHeader..FieldLength(b)]))
  }

  /** A wire integer, as `op_to_value_int` reads it: `None` if it is too long.  A shorter
      one with its top bit set is not sign-extended but read as its first byte alone,
      shifted to the top. */
  function WireInt(b: Bytes): (i: Option<Int64>)
  {
    if |b| > 8 then None else Some(ShortInt(b))
  }

  function ShortInt(b: Bytes): (i: Int64)
    requires |b| <= 8
  {
    if |b| == 8 then
      FullIsBounded(b);
      Signed64(FromNetwork(b))
    else if |b| == 0 then 0
    else if |b| == 1 && b[0] < 0x7f then b[0]
    else if b[0] >= 0x80 then
      var top: nat := b[0];
      Signed64(top * 0x100_0000_0000_0000)
    else
      ShortIsSmall(b);
      FromNetwork(b)
  }

  lemma {:induction false} PowMonotone(v: nat, w: nat)
    requires v <= w
    ensures Pow256(v) <= Pow256(w)
  {
    if v < w { PowMonotone(v, w - 1); }
  }

  lemma FullIsBounded(b: Bytes)
    requires |b| == 8
    ensures FromNetwork(b) < 0x1_0000_0000_0000_0000
  {
    NetworkOfFrom(b);
    assert Pow256(|b|) == 256 * Pow256(7) && Pow256(7) == 0x100_0000_0000_0000;
  }

  lemma ShortIsSmall(b: Bytes)
    requires |b| < 8
    ensures FromNetwork(b) < 0x100_0000_0000_0000
  {
    NetworkOfFrom(b);
    PowMonotone(|b|, 7);
    assert Pow256(7) == 0x100_0000_0000_0000;
  }

  datatype Slot = Filled(bin: Bin) | Unset

  /** The value of a bin; a wire integer that is too long leaves it unset. */
  function ObjectFrom(code: Byte, data: Bytes): (o: Option<Object>)
  {
    match code
    case 0 => Some(Null)
    case 1 => if WireInt(data).Some? then Some(Int(WireInt(data).value)) else None
    case 3 => Some(Str(data))
    case 4 => Some(BlobOf(Blob, data))
    case 7 => Some(BlobOf(Java, data))
    case 8 => Some(BlobOf(CSharp, data))
    case 9 => Some(BlobOf(Python, data))
    case 10 => Some(BlobOf(Ruby, data))
    case 11 => Some(BlobOf(Php, data))
    case _ => Some(Other(code))
  }

  /** An operation has its name at byte 8 and its value after that.  A name of 32 bytes
      passes the program's length test and overruns the bin name by its terminator. */
  predicate OpFits(b: Bytes)
  {
    |b| >= OpHeader &&
    var size := FromNetwork(b[..4]);
    4 + b[7] <= size && 4 + size <= |b| && b[7] != 32
  }

  function OpLength(b: Bytes): (n: nat)
    requires OpFits(b)
    ensures OpHeader + b[7] <= n <= |b|
  {
    4 + FromNetwork(b[..4])
  }

  function SlotFrom(b: Bytes): (slot: Slot)
    requires OpFits(b)
  {
    if b[7] > 32 then Unset
    else
      var o := ObjectFrom(b[5], b[OpHeader + b[7]..OpLength(b)]);
      if o.Some? then Filled(Bin(b[OpHeader..OpHeader + b[7]], o.value)) else Unset
  }

  function ParsedOps(n: nat, b: Bytes, whole: nat): (o: Outcome<seq<Slot>>)
  {
    if n == 0 then Ok([])
    else if whole < OpHeader then TooShort
    else if !OpFits(b) then Malformed
    else
      var rest := ParsedOps(n - 1, b[OpLength(b)..], whole);
      if rest.Ok? then Ok([SlotFrom(b)] + rest.value) else rest
  }

  datatype Response = Response(found: Found, slots: seq<Slot>)

  /** What `cl_parse` makes of a body, given the counts of its header and an empty value
      array. */
  function Parsed(nFields: nat, nOps: nat, body: Bytes): (o: Outcome<Response>)
  {
    match ParsedFields(nFields, body, |body|, Found(None, None))
    case TooShort => TooShort
    case Malformed => Malformed
    case Ok((found, rest)) =>
      match ParsedOps(nOps, rest, |rest|)
      case TooShort => TooShort
      case Malformed => Malformed
      case Ok(slots) => Ok(Response(found, slots))
  }

  function HeaderFrom(b: Bytes): (h: Header)
    requires |b| >= HeaderSize
  {
    Header(b[0], b[1], FromNetwork(b[2..8]), b[8], b[9], b[10], b[11], b[13],
           FromNetwork(b[14..18]), FromNetwork(b[18..22]), FromNetwork(b[22..26]), FromNetwork(b[26..28]),
             FromNetwork(b[28..30]))
  }

  /** The body is what the header's sizes leave after the header. */
  function Decoded(b: Bytes): (o: Outcome<(Header, Response)>)
    requires |b| >= HeaderSize
  {
    var h := HeaderFrom(b);
    if h.size < h.headerSize || HeaderSize + h.size - h.headerSize > |b| then Malformed
    else
      match Parsed(h.nFields, h.nOps, b[HeaderSize..HeaderSize + h.size - h.headerSize])
      case TooShort => TooShort
      case Malformed => Malformed
      case Ok(response) => Ok((h, response))
  }

  // ---------------------------------------------------------------------------
  // Round trips
  // ---------------------------------------------------------------------------

  lemma WireIntOf(i: Int64)
    ensures WireInt(Network(Unsigned64(i), 8)) == Some(i)
  {
    assert Pow256(8) == 0x1_0000_0000_0000_0000;
    FromNetworkOf(Unsigned64(i), 8);
  }

  /** The two's complement value of a wire integer of any length. */
  ghost function TwosComplement(b: Bytes): int
  {
    if b == [] then 0 else if b[0] >= 0x80 then FromNetwork(b) - Pow256(|b|) else FromNetwork(b)
  }

  lemma Scaled(top: nat, p: nat, low: nat, d: Byte)
    requires top * p <= low < (top + 1) * p
    ensures top * (256 * p) <= 256 * low + d < (top + 1) * (256 * p)
  {
    assert 256 * (top * p) == top * (256 * p);
    assert 256 * ((top + 1) * p) == (top + 1) * (256 * p);
  }

  lemma {:induction false} TopByte(b: Bytes)
    requires b != []
    ensures b[0] * Pow256(|b| - 1) <= FromNetwork(b) < (b[0] + 1) * Pow256(|b| - 1)
  {
    var n: nat, top: nat := |b| - 1, b[0];
    if n > 0 {
      TopByte(b[..n]);
      var low, p := FromNetwork(b[..n]), Pow256(n - 1);
      Scaled(top, p, low, b[n]);
    } else {
      assert b[..0] == [];
    }
  }

  /** Integers of up to 8 bytes are read right exactly if they are non-negative or full
      width. */
  lemma WireIntExact(b: Bytes)
    requires |b| <= 8
    ensures WireInt(b) == Some(TwosComplement(b)) <==> (b == [] || b[0] < 0x80 || |b| == 8)
  {
    if b != [] {
      TopByte(b);
      NetworkOfFrom(b);
      assert Pow256(7) == 0x100_0000_0000_0000 && Pow256(8) == 0x1_0000_0000_0000_0000;
      if |b| < 8 {
        PowMonotone(|b|, 7);
      }
      if |b| == 1 { assert Pow256(0) == 1; }
    }
  }

  predicate Narrow(f: Field)
  {
    |f.data| + 1 < Pow256(4) && (f.type_ == 7 ==> |f.data| == 8)
  }

  lemma FieldRead(f: Field, rest: Bytes)
    requires Narrow(f)
    ensures var b := FieldBytes(f.type_, f.data) + rest;
            FieldFits(b) && b[4] == f.type_ && b[FieldHeader..FieldLength(b)] == f.data && b[FieldLength(b)..] == rest
  {
    var b := FieldBytes(f.type_, f.data) + rest;
    FromNetworkOf(|f.data| + 1, 4);
    assert b[..4] == Network(|f.data| + 1, 4);
  }

  function NoteAll(found: Found, fields: seq<Field>): (f: Found)
    requires forall f :: f in fields ==> Narrow(f)
    decreases |fields|
  {
    if fields == [] then found
    else
      assert Narrow(fields[0]);
      NoteAll(Note(found, fields[0].type_, fields[0].data), fields[1..])
  }

  /** Walking the sizes lands on each next field, whatever follows them. */
  lemma {:induction false} FieldsRead(fields: seq<Field>, rest: Bytes, whole: nat, found: Found)
    requires whole >= FieldHeader || fields == []
    requires forall f :: f in fields ==> Narrow(f)
    ensures ParsedFields(|fields|, FieldsBytes(fields) + rest, whole, found) == Ok((NoteAll(found, fields), rest))
  {
    if fields == [] {
      assert FieldsBytes(fields) + rest == rest;
    } else {
      var f := fields[0];
      var after := FieldsBytes(fields[1..]) + rest;
      assert FieldsBytes(fields) + rest == FieldBytes(f.type_, f.data) + after;
      FieldRead(f, after);
      FieldsRead(fields[1..], rest, whole, Note(found, f.type_, f.data));
    }
  }

  lemma {:induction false} NoteAllAppend(found: Found, f: seq<Field>, g: seq<Field>)
    requires forall x :: x in f + g ==> Narrow(x)
    ensures (forall x :: x in f ==> Narrow(x)) && (forall x :: x in g ==> Narrow(x))
    ensures NoteAll(found, f + g) == NoteAll(NoteAll(found, f), g)
    decreases |f|
  {
    assert forall x :: x in f ==> x in f + g;
    assert forall x :: x in g ==> x in f + g;
    if f == [] {
      assert f + g == g;
    } else {
      assert (f + g)[1..] == f[1..] + g;
      assert Narrow(f[0]);
      NoteAllAppend(Note(found, f[0].type_, f[0].data), f[1..], g);
    }
  }

  /** The transaction id and set a request carries. */
  function Carried(r: Request): (f: Found)
  {
    Found(if r.trid != 0 then Some(r.trid) else None, r.set_)
  }

  ghost predicate AllNarrow(fields: seq<Field>)
  {
    forall f :: f in fields ==> Narrow(f)
  }

  lemma NarrowAppend(f: seq<Field>, g: seq<Field>)
    requires AllNarrow(f) && AllNarrow(g)
    ensures AllNarrow(f + g)
  {
  }

  lemma PartsNarrow(r: Request)
    requires IsRequest(r) && Compiles(r) && MessageSize(r) < Pow256(4)
    ensures AllNarrow(NsField(r)) && AllNarrow(SetField(r)) && AllNarrow(TridField(r))
    ensures AllNarrow(ScanField(r)) && AllNarrow(KeyField(r)) && AllNarrow(DigestField(r))
  {
    assert Pow256(4) == 0x1_0000_0000;
  }

  lemma FieldsNarrow(r: Request)
    requires IsRequest(r) && Compiles(r) && MessageSize(r) < Pow256(4)
    ensures AllNarrow(Fields(r))
  {
    PartsNarrow(r);
    NarrowAppend(NsField(r), SetField(r));
    NarrowAppend(NsField(r) + SetField(r), TridField(r));
    NarrowAppend(NsField(r) + SetField(r) + TridField(r), ScanField(r));
    NarrowAppend(NsField(r) + SetField(r) + TridField(r) + ScanField(r), KeyField(r));
    NarrowAppend(NsField(r) + SetField(r) + TridField(r) + ScanField(r) + KeyField(r), DigestField(r));
  }

  /** Only two of the fields say anything to the parser. */
  lemma PartsNoted(r: Request, found: Found)
    requires IsRequest(r) && Compiles(r) && MessageSize(r) < Pow256(4)
    ensures AllNarrow(NsField(r)) && AllNarrow(SetField(r)) && AllNarrow(TridField(r))
    ensures AllNarrow(ScanField(r)) && AllNarrow(KeyField(r)) && AllNarrow(DigestField(r))
    ensures NoteAll(found, NsField(r)) == NoteAll(found, ScanField(r)) == NoteAll(found, KeyField(r)) ==
              NoteAll(found, DigestField(r)) == found
    ensures NoteAll(found, SetField(r)) == if r.set_.Some? then found.(set_ := r.set_) else found
    ensures NoteAll(found, TridField(r)) == if r.trid != 0 then found.(trid := Some(r.trid)) else found
  {
    PartsNarrow(r);
    FromNetworkOf(r.trid, 8);
    assert Network(r.trid, 8)[..8] == Network(r.trid, 8);
  }

  lemma FieldsNoted(r: Request)
    requires IsRequest(r) && Compiles(r) && MessageSize(r) < Pow256(4) && AllNarrow(Fields(r))
    ensures NoteAll(Found(None, None), Fields(r)) == Carried(r)
  {
    var none := Found(None, None);
    NoteAllAppend(none, NsField(r) + SetField(r) + TridField(r) + ScanField(r) + KeyField(r), DigestField(r));
    NoteAllAppend(none, NsField(r) + SetField(r) + TridField(r) + ScanField(r), KeyField(r));
    NoteAllAppend(none, NsField(r) + SetField(r) + TridField(r), ScanField(r));
    NoteAllAppend(none, NsField(r) + SetField(r), TridField(r));
    NoteAllAppend(none, NsField(r), SetField(r));
    PartsNoted(r, none);
    PartsNoted(r, Found(None, r.set_));
    PartsNoted(r, Carried(r));
  }

  /** A bin as the other side sees it: the two integers of a memcache increment arrive in
      network order, everything else as it was sent. */
  function Received(o: Operation): (bin: Bin)
  {
    if o.op == McIncr && o.bin.value.BlobOf? then
      Bin(o.bin.name, BlobOf(o.bin.value.kind, OpData(o.op, o.bin.value)))
    else o.bin
  }

  lemma ObjectRead(op: Operator, o: Object)
    requires !o.Other?
    ensures ObjectFrom(TypeCode(o), OpData(op, o)) ==
              Some(if op == McIncr && o.BlobOf? then BlobOf(o.kind, OpData(op, o)) else o)
  {
    if o.Int? { WireIntOf(o.i); }
  }

  lemma OpRead(o: Operation, rest: Bytes)
    requires !o.bin.value.Other? && |OpBytes(o)| < Pow256(4)
    ensures var b := OpBytes(o) + rest;
            OpFits(b) && SlotFrom(b) == Filled(Received(o)) && b[OpLength(b)..] == rest
  {
    var b, data := OpBytes(o) + rest, OpData(o.op, o.bin.value);
    FromNetworkOf(4 + |o.bin.name| + |data|, 4);
    assert b[..4] == Network(4 + |o.bin.name| + |data|, 4);
    assert b[OpHeader..OpHeader + |o.bin.name|] == o.bin.name;
    assert b[OpHeader + |o.bin.name|..OpLength(b)] == data;
    ObjectRead(o.op, o.bin.value);
  }

  function AllReceived(ops: seq<Operation>): (slots: seq<Slot>)
    ensures |slots| == |ops|
  {
    if ops == [] then [] else [Filled(Received(ops[0]))] + AllReceived(ops[1..])
  }

  lemma {:induction false} OpsRead(ops: seq<Operation>, rest: Bytes, whole: nat)
    requires whole >= OpHeader || ops == []
    requires (forall o :: o in ops ==> !o.bin.value.Other?) && |OpsBytes(ops)| < Pow256(4)
    ensures ParsedOps(|ops|, OpsBytes(ops) + rest, whole) == Ok(AllReceived(ops))
  {
    if ops != [] {
      var after := OpsBytes(ops[1..]) + rest;
      assert OpsBytes(ops) + rest == OpBytes(ops[0]) + after;
      OpRead(ops[0], after);
      OpsRead(ops[1..], rest, whole);
    }
  }

  predicate HeaderFits(h: Header)
  {
    && h.size < Pow256(6) && h.generation < Pow256(4) && h.recordTtl < Pow256(4) && h.transactionTtl < Pow256(4)
    && h.nFields < Pow256(2) && h.nOps < Pow256(2)
  }

  lemma HeaderSlices(h: Header, rest: Bytes)
    ensures var b := HeaderBytes(h) + rest;
            && b[2..8] == Network(h.size, 6) && b[14..18] == Network(h.generation, 4)
            && b[18..22] == Network(h.recordTtl, 4) && b[22..26] == Network(h.transactionTtl, 4)
            && b[26..28] == Network(h.nFields, 2) && b[28..30] == Network(h.nOps, 2)
            && b[HeaderSize..] == rest
  {
  }

  /** Everything a header carries comes back. */
  lemma HeaderRead(h: Header, rest: Bytes)
    requires HeaderFits(h)
    ensures HeaderFrom(HeaderBytes(h) + rest) == h
  {
    HeaderSlices(h, rest);
    FromNetworkOf(h.size, 6);
    FromNetworkOf(h.generation, 4);
    FromNetworkOf(h.recordTtl, 4);
    FromNetworkOf(h.transactionTtl, 4);
    FromNetworkOf(h.nFields, 2);
    FromNetworkOf(h.nOps, 2);
  }

  function Zeros(n: nat): (b: Bytes)
    ensures |b| == n
  {
    seq(n, _ => 0)
  }

  lemma FieldsAndOpsRead(fields: seq<Field>, ops: seq<Operation>, slack: Bytes)
    requires AllNarrow(fields) && (forall o :: o in ops ==> !o.bin.value.Other?) && |OpsBytes(ops)| < Pow256(4)
    ensures Parsed(|fields|, |ops|, FieldsBytes(fields) + (OpsBytes(ops) + slack))
            == Ok(Response(NoteAll(Found(None, None), fields), AllReceived(ops)))
  {
    var after := OpsBytes(ops) + slack;
    FieldsRead(fields, after, |FieldsBytes(fields) + after|, Found(None, None));
    OpsRead(ops, slack, |after|);
  }

  lemma BodyRead(r: Request, slack: Bytes)
    requires IsRequest(r) && Compiles(r) && MessageSize(r) < Pow256(4)
    ensures Parsed(|Fields(r)|, |r.ops|, FieldsBytes(Fields(r)) + OpsBytes(r.ops) + slack)
            == Ok(Response(Carried(r), AllReceived(r.ops)))
  {
    SizeAccounting(r);
    FieldsNarrow(r);
    FieldsNoted(r);
    FieldsAndOpsRead(Fields(r), r.ops, slack);
    Assoc(FieldsBytes(Fields(r)), OpsBytes(r.ops), slack);
  }

  /** The sizes and counts a request must stay under for the widths they travel in. */
  predicate FitsWidths(r: Request)
  {
    MessageSize(r) < Pow256(4) && |r.ops| < Pow256(2)
  }

  lemma RequestHeaderFits(r: Request)
    requires IsRequest(r) && FitsWidths(r)
    ensures HeaderFits(RequestHeader(r))
  {
    PowMonotone(4, 6);
    assert Pow256(2) == 65536;
    assert |Fields(r)| <= 6;
  }

  lemma BodySlice(h: Header, body: Bytes)
    requires HeaderFits(h) && h.headerSize == 22 && h.size == 22 + |body|
    ensures var b := HeaderBytes(h) + body;
            HeaderFrom(b) == h && |b| == 8 + h.size && b[HeaderSize..HeaderSize + h.size - h.headerSize] == body
  {
    HeaderRead(h, body);
    HeaderSlices(h, body);
  }

  lemma DecodeBody(h: Header, body: Bytes, response: Response)
    requires HeaderFits(h) && h.headerSize == 22 && h.size == 22 + |body|
    requires Parsed(h.nFields, h.nOps, body) == Ok(response)
    ensures Decoded(HeaderBytes(h) + body) == Ok((h, response))
  {
    BodySlice(h, body);
  }

  lemma Regroup(a: Bytes, b: Bytes, c: Bytes, d: Bytes)
    ensures ((a + b) + c) + d == a + ((b + c) + d)
  {
  }

  /** The round trip: what is decoded from the bytes of a request is its header, its set
      and transaction id, and its bins in order with names, types and values. */
  lemma RoundTrip(r: Request)
    requires IsRequest(r) && Compiles(r) && FitsWidths(r)
    ensures Decoded(Encoded(r) + Zeros(Slack(r)))
            == Ok((RequestHeader(r), Response(Carried(r), AllReceived(r.ops))))
  {
    var body := FieldsBytes(Fields(r)) + OpsBytes(r.ops) + Zeros(Slack(r));
    SizeAccounting(r);
    RequestHeaderFits(r);
    BodyRead(r, Zeros(Slack(r)));
    assert |body| == |Encoded(r)| - HeaderSize + Slack(r);
    DecodeBody(RequestHeader(r), body, Response(Carried(r), AllReceived(r.ops)));
    Regroup(HeaderBytes(RequestHeader(r)), FieldsBytes(Fields(r)), OpsBytes(r.ops), Zeros(Slack(r)));
  }

  /** Bins arrive as they were sent unless they are memcache increments. */
  lemma {:induction false} BinsArrive(ops: seq<Operation>, k: nat)
    requires k < |ops|
    ensures AllReceived(ops)[k] == Filled(Received(ops[k]))
    ensures !(ops[k].op == McIncr && ops[k].bin.value.BlobOf?) ==> AllReceived(ops)[k] == Filled(ops[k].bin)
  {
    if k > 0 { BinsArrive(ops[1..], k - 1); }
  }

  /** Each write rule is told apart by its flag, whatever flags the caller adds; with
      several asked for it is the first of them, and the generation goes out exactly if that
      is a generation rule. */
  lemma RulesAreTold(r: Request, q: Request)
    requires r.params.Some? && q.params.Some? && r.info2 & 0x7c == 0 && q.info2 & 0x7c == 0
    ensures Info2(r) & 0x7c == RuleFlag(RuleOf(r.params.value))
    ensures Info2(r) & 0x7c == Info2(q) & 0x7c <==> RuleOf(r.params.value) == RuleOf(q.params.value)
    ensures var p := r.params.value;
            && (Info2(r) & 0x20 != 0 <==> p.unique)
            && (Info2(r) & 0x40 != 0 <==> p.uniqueBin && !p.unique)
            && (Info2(r) & 0x1c != 0 <==>
                  !p.unique && !p.uniqueBin && (p.useGeneration || p.useGenerationGt || p.useGenerationDup))
            && SentGeneration(r.params) == if Info2(r) & 0x1c != 0 then p.generation else 0
  {
  }

  // ---------------------------------------------------------------------------
  // In a buffer: the header
  // ---------------------------------------------------------------------------

  /** The 8 bytes of a protocol header with the size swapped. */
  function ProtoSwapped(b: Bytes): (s: Bytes)
    requires |b| == 8
    ensures |s| == 8
  {
    b[..2] + Reversed(b[2..])
  }

  /** Swapping twice changes nothing. */
  lemma ProtoSwapTwice(b: Bytes)
    requires |b| == 8
    ensures ProtoSwapped(ProtoSwapped(b)) == b
  {
    assert ProtoSwapped(b)[2..] == Reversed(b[2..]);
    ReversedTwice(b[2..]);
  }

  /** The 64-bit swap of a header whose version and type are cleared: its low 48 bits are
      the size swapped. */
  lemma ClearedSwap(b: Bytes, cleared: Bytes)
    requires |b| == |cleared| == 8 && cleared[2..] == b[2..]
    ensures Reversed(cleared)[..6] == Reversed(b[2..])
  {
    forall k | 0 <= k < 6 ensures Reversed(cleared)[k] == Reversed(b[2..])[k]
    {
      ReversedAt(cleared, k);
      ReversedAt(b[2..], k);
      assert cleared[2..][5 - k] == cleared[7 - k];
    }
  }

  lemma SizePut(was: Bytes, size: Bytes)
    requires |was| >= 8 && |size| == 6
    ensures Splice(was[0 := 0][1 := 0], 2, size)[0 := was[0]][1 := was[1]] == Splice(was, 0, was[..2] + size)
  {
  }

  /** With version and type cleared, the 64-bit swap leaves the size in the low 48 bits. */
  method ProtoSwap(buf: array<Byte>)
    requires 8 <= buf.Length
    modifies buf
    ensures buf[..] == Splice(old(buf[..]), 0, ProtoSwapped(old(buf[..])[..8]))
  {
    ghost var was := buf[..];
    var version, type_ := buf[0], buf[1];
    buf[0], buf[1] := 0, 0;
    var swapped := Reversed(buf[..8]);
    ClearedSwap(was[..8], buf[..8]);
    SizePut(was, swapped[..6]);
    Copy(buf, 2, swapped[..6]);
    buf[0], buf[1] := version, type_;
    assert was[..8][..2] == was[..2];
  }

  function ProtoBytes(size: nat): (b: Bytes)
    ensures |b| == 8
  {
    [2, 3] + Network(size, 6)
  }

  method WriteProto(buf: array<Byte>, size: nat)
    requires 8 <= buf.Length
    modifies buf
    ensures buf[..] == Splice(old(buf[..]), 0, ProtoBytes(size))
  {
    ghost var start := buf[..];
    buf[0], buf[1] := 2, 3;
    assert buf[..] == Splice(start, 0, [2, 3]);
    Store(buf, 2, 6, size);
    SpliceNext(start, 0, [2, 3], Host(size, 6));
    assert buf[..8] == [2, 3] + Host(size, 6);
    ProtoSwap(buf);
    HostSwapped(size, 6);
    SpliceOver(start, 0, [2, 3] + Host(size, 6), ProtoBytes(size));
  }

  /** The integers of a message header, swapped where they stand. */
  method SwapHeader(buf: array<Byte>, at: nat, ghost start: Bytes, ghost from: nat, ghost done: Bytes, ghost h: Header)
    requires at == from + |done| && at + 16 <= buf.Length == |start|
    requires buf[..] == Splice(start, from, done + Host(h.generation, 4) + Host(h.recordTtl, 4)
                               + Host(h.transactionTtl, 4)
                                            + Host(h.nFields, 2) + Host(h.nOps, 2))
    modifies buf
    ensures buf[..] == Splice(start, from, done + Network(h.generation, 4) + Network(h.recordTtl, 4)
                              + Network(h.transactionTtl, 4)
                                           + Network(h.nFields, 2) + Network(h.nOps, 2))
  {
    ghost var r, t, f, o := Host(h.recordTtl, 4), Host(h.transactionTtl, 4), Host(h.nFields, 2), Host(h.nOps, 2);
    ghost var d := done + Host(h.generation, 4);
    Assoc5(d, r, t, f, o);
    SwapStored(buf, at, 4, h.generation, start, from, done, r + t + f + o);
    d := done + Network(h.generation, 4);
    Assoc5(d, r, t, f, o);
    Assoc4(d + r, t, f, o);
    SwapStored(buf, at + 4, 4, h.recordTtl, start, from, d, t + f + o);
    SwapLastThree(buf, at + 8, start, from, d + Network(h.recordTtl, 4), h);
  }

  method SwapLastThree(buf: array<Byte>, at: nat, ghost start: Bytes, ghost from: nat, ghost done: Bytes,
                       ghost h: Header)
    requires at == from + |done| && at + 8 <= buf.Length == |start|
    requires buf[..] == Splice(start, from, done + (Host(h.transactionTtl, 4) + Host(h.nFields, 2) + Host(h.nOps, 2)))
    modifies buf
    ensures buf[..] == Splice(start, from, done + Network(h.transactionTtl, 4) + Network(h.nFields, 2)
                              + Network(h.nOps, 2))
  {
    ghost var t, f, o := Host(h.transactionTtl, 4), Host(h.nFields, 2), Host(h.nOps, 2);
    Assoc4(done, t, f, o);
    Assoc(done + t, f, o);
    SwapStored(buf, at, 4, h.transactionTtl, start, from, done, f + o);
    ghost var d := done + Network(h.transactionTtl, 4);
    Assoc(d, f, o);
    SwapStored(buf, at + 4, 2, h.nFields, start, from, d, o);
    d := d + Network(h.nFields, 2);
    Empty(d + o);
    SwapStored(buf, at + 6, 2, h.nOps, start, from, d, []);
    Empty(d + Network(h.nOps, 2));
  }

  // ---------------------------------------------------------------------------
  // In a buffer: fields and operations
  // ---------------------------------------------------------------------------

  /** Lays out one field in host order, steps over it by its size, and swaps the size. */
  method WriteField(buf: array<Byte>, at: nat, type_: Byte, data: Bytes) returns (next: nat)
    requires at + FieldHeader + |data| <= buf.Length
    modifies buf
    ensures buf[..] == Splice(old(buf[..]), at, FieldBytes(type_, data)) && next == at + |FieldBytes(type_, data)|
  {
    ghost var start, size := buf[..], Host(|data| + 1, 4);
    Store(buf, at, 4, |data| + 1);
    CopyNext(buf, at + 4, [type_], start, at, size);
    CopyNext(buf, at + FieldHeader, data, start, at, size + [type_]);
    next := at + 4 + (|data| + 1);
    Assoc(size, [type_], data);
    SwapFirst(buf, at, 4, |data| + 1, start, [type_] + data);
    Assoc(Network(|data| + 1, 4), [type_], data);
  }

  /** A field that may be absent. */
  method WriteOptional(buf: array<Byte>, at: nat, fields: seq<Field>, ghost start: Bytes, ghost from: nat,
                       ghost done: Bytes)
    returns (next: nat)
    requires |fields| <= 1 && from + |done| == at && at + |FieldsBytes(fields)| <= buf.Length == |start|
    requires buf[..] == Splice(start, from, done)
    modifies buf
    ensures next == at + |FieldsBytes(fields)| && buf[..] == Splice(start, from, done + FieldsBytes(fields))
  {
    next := at;
    if fields != [] {
      OneField(fields[0]);
      assert fields == [fields[0]];
      next := WriteField(buf, at, fields[0].type_, fields[0].data);
      SpliceNext(start, from, done, FieldsBytes(fields));
    } else {
      assert done + FieldsBytes(fields) == done;
    }
  }

  /** The first four fields, and the last two. */
  function FrontFields(r: Request): Bytes
  {
    FieldsBytes(NsField(r)) + FieldsBytes(SetField(r)) + FieldsBytes(TridField(r)) + FieldsBytes(ScanField(r))
  }

  method WriteFront(buf: array<Byte>, at: nat, r: Request) returns (next: nat)
    requires at + |FrontFields(r)| <= buf.Length
    modifies buf
    ensures buf[..] == Splice(old(buf[..]), at, FrontFields(r)) && next == at + |FrontFields(r)|
  {
    ghost var start := buf[..];
    ghost var ns, set_, trid := FieldsBytes(NsField(r)), FieldsBytes(SetField(r)), FieldsBytes(TridField(r));
    assert start == Splice(start, at, []);
    next := WriteOptional(buf, at, NsField(r), start, at, []);
    assert [] + ns == ns;
    next := WriteOptional(buf, next, SetField(r), start, at, ns);
    next := WriteOptional(buf, next, TridField(r), start, at, ns + set_);
    next := WriteOptional(buf, next, ScanField(r), start, at, ns + set_ + trid);
  }

  /** Lays out the fields; fails on a key type that cannot be sent. */
  method WriteFields(buf: array<Byte>, at: nat, r: Request) returns (next: nat, ok: bool)
    requires at + |FieldsBytes(Fields(r))| <= buf.Length
    modifies buf
    ensures ok == (r.key.Some? ==> KeyData(r.key.value).Some?)
    ensures ok ==> buf[..] == Splice(old(buf[..]), at, FieldsBytes(Fields(r))) && next == at + |FieldsBytes(Fields(r))|
    ensures at + |FrontFields(r)| <= buf.Length
    ensures !ok ==> buf[..] == Splice(old(buf[..]), at, FrontFields(r))
  {
    ghost var start, front, key := buf[..], FrontFields(r), FieldsBytes(KeyField(r));
    FieldsParts(r);
    next := WriteFront(buf, at, r);
    if r.key.Some? && KeyData(r.key.value).None? {
      return next, false;
    }
    next := WriteOptional(buf, next, KeyField(r), start, at, front);
    next := WriteOptional(buf, next, DigestField(r), start, at, front + key);
    ok := true;
  }

  /** Lays out one operation in host order, steps over it, and swaps its size. */
  method WriteOp(buf: array<Byte>, at: nat, o: Operation) returns (next: nat)
    requires at + |OpBytes(o)| <= buf.Length
    modifies buf
    ensures buf[..] == Splice(old(buf[..]), at, OpBytes(o)) && next == at + |OpBytes(o)|
  {
    var name, data := o.bin.name, OpData(o.op, o.bin.value);
    var size := 4 + |name| + |data|;
    var codes: Bytes := [OpCode(o.op), TypeCode(o.bin.value), 0, |name|];
    ghost var start, stored := buf[..], Host(size, 4);
    Store(buf, at, 4, size);
    CopyNext(buf, at + 4, codes, start, at, stored);
    CopyNext(buf, at + OpHeader, name, start, at, stored + codes);
    CopyNext(buf, at + OpHeader + |name|, data, start, at, stored + codes + name);
    next := at + 4 + size;
    Assoc4(stored, codes, name, data);
    SwapFirst(buf, at, 4, size, start, codes + name + data);
    Assoc4(Network(size, 4), codes, name, data);
  }

  /** Lays out the header: the protocol header swapped at once, the message header after
      all of it stands. */
  method WriteHeader(buf: array<Byte>, h: Header)
    requires HeaderSize <= buf.Length && h.version == 2 && h.type_ == 3
    modifies buf
    ensures buf[..] == Splice(old(buf[..]), 0, HeaderBytes(h))
  {
    ghost var start, done := buf[..], ProtoBytes(h.size);
    WriteProto(buf, h.size);
    var flags: Bytes := [h.headerSize, h.info1, h.info2, h.info3, 0, h.result];
    CopyNext(buf, 8, flags, start, 0, done);
    done := done + flags;
    StoreIntegers(buf, h, start, done);
    SwapHeader(buf, 14, start, 0, done, h);
    assert HeaderBytes(h) == done + Network(h.generation, 4) + Network(h.recordTtl, 4) + Network(h.transactionTtl, 4)
                             + Network(h.nFields, 2) + Network(h.nOps, 2);
  }

  method StoreIntegers(buf: array<Byte>, h: Header, ghost start: Bytes, ghost done: Bytes)
    requires HeaderSize <= buf.Length == |start| && |done| == 14 && buf[..] == Splice(start, 0, done)
    modifies buf
    ensures buf[..] == Splice(start, 0, done + Host(h.generation, 4) + Host(h.recordTtl, 4) + Host(h.transactionTtl, 4)
                                        + Host(h.nFields, 2) + Host(h.nOps, 2))
  {
    ghost var d := done;
    StoreNext(buf, 14, 4, h.generation, start, 0, d);
    d := d + Host(h.generation, 4);
    StoreNext(buf, 18, 4, h.recordTtl, start, 0, d);
    d := d + Host(h.recordTtl, 4);
    StoreNext(buf, 22, 4, h.transactionTtl, start, 0, d);
    d := d + Host(h.transactionTtl, 4);
    StoreNext(buf, 26, 2, h.nFields, start, 0, d);
    d := d + Host(h.nFields, 2);
    StoreNext(buf, 28, 2, h.nOps, start, 0, d);
  }

  // ---------------------------------------------------------------------------
  // Compiling
  // ---------------------------------------------------------------------------

  /** The sizing loop; fails on a value of a type the codec does not carry. */
  method SizeOps(ops: seq<Operation>) returns (size: nat, ok: bool)
    ensures ok <==> forall o :: o in ops ==> !o.bin.value.Other?
    ensures ok ==> size == OpsSize(ops)
  {
    size, ok := 0, true;
    var i := 0;
    while i < |ops|
      invariant i <= |ops| && (forall k :: 0 <= k < i ==> !ops[k].bin.value.Other?)
      invariant size + OpsSize(ops[i..]) == OpsSize(ops)
    {
      if ops[i].bin.value.Other? {
        return 0, false;
      }
      assert ops[i..][1..] == ops[i + 1..];
      size := size + OpHeader + |ops[i].bin.name| + ObjectSize(ops[i].bin.value);
      i := i + 1;
    }
    assert ops[i..] == [];
  }

  /** The operations before `i` stand in the buffer, as `done`. */
  ghost predicate OpsWriting(ops: seq<Operation>, i: nat, start: Bytes, at: nat, done: Bytes, now: Bytes)
    requires i <= |ops|
  {
    && at + |done| + |OpsBytes(ops[i..])| <= |start| && now == Splice(start, at, done)
    && done + OpsBytes(ops[i..]) == OpsBytes(ops)
  }

  lemma OpsWritingStarts(ops: seq<Operation>, start: Bytes, at: nat)
    requires at + |OpsBytes(ops)| <= |start|
    ensures OpsWriting(ops, 0, start, at, [], start)
  {
    assert ops[0..] == ops;
    Empty(OpsBytes(ops));
  }

  lemma OpsWritingStep(ops: seq<Operation>, i: nat, start: Bytes, at: nat, done: Bytes, now: Bytes)
    requires i < |ops| && OpsWriting(ops, i, start, at, done, now)
    ensures at + |done| + |OpBytes(ops[i])| <= |start|
    ensures OpsWriting(ops, i + 1, start, at, done + OpBytes(ops[i]), Splice(now, at + |done|, OpBytes(ops[i])))
  {
    assert ops[i..][0] == ops[i] && ops[i..][1..] == ops[i + 1..];
    Assoc(done, OpBytes(ops[i]), OpsBytes(ops[i + 1..]));
    SpliceNext(start, at, done, OpBytes(ops[i]));
  }

  lemma OpsWritingEnds(ops: seq<Operation>, start: Bytes, at: nat, done: Bytes, now: Bytes)
    requires OpsWriting(ops, |ops|, start, at, done, now)
    ensures done == OpsBytes(ops) && now == Splice(start, at, OpsBytes(ops))
  {
    assert ops[|ops|..] == [];
    Empty(done);
  }

  method WriteNextOp(buf: array<Byte>, next: nat, ops: seq<Operation>, i: nat, ghost start: Bytes, ghost at: nat,
                     ghost done: Bytes)
    returns (after: nat, ghost more: Bytes)
    requires i < |ops| && next == at + |done| && |start| == buf.Length && OpsWriting(ops, i, start, at, done, buf[..])
    modifies buf
    ensures after == at + |more| && OpsWriting(ops, i + 1, start, at, more, buf[..])
  {
    OpsWritingStep(ops, i, start, at, done, buf[..]);
    after := WriteOp(buf, next, ops[i]);
    more := done + OpBytes(ops[i]);
  }

  method WriteOps(buf: array<Byte>, at: nat, ops: seq<Operation>)
    requires at + |OpsBytes(ops)| <= buf.Length
    modifies buf
    ensures buf[..] == Splice(old(buf[..]), at, OpsBytes(ops))
  {
    ghost var start, done: Bytes := buf[..], [];
    var next: nat, i: nat := at, 0;
    OpsWritingStarts(ops, start, at);
    while i < |ops|
      invariant i <= |ops| && next == at + |done| && |start| == buf.Length
                && OpsWriting(ops, i, start, at, done, buf[..])
    {
      next, done := WriteNextOp(buf, next, ops, i, start, at, done);
      i := i + 1;
    }
    OpsWritingEnds(ops, start, at, done, buf[..]);
  }

  lemma LaidOver(encoded: Bytes, size: nat, slack: nat, was: Bytes)
    requires |encoded| + slack == size <= |was|
    ensures Splice(Splice(was, 0, Zeros(size)), 0, encoded) == encoded + Zeros(slack) + was[size..]
  {
  }

  lemma Split(a: Bytes, b: Bytes, c: Bytes)
    ensures (a + b + c)[..|a| + |b|] == a + b && (a + b + c)[|a| + |b|..] == c
  {
  }

  lemma FieldsFit(r: Request)
    requires IsRequest(r)
    ensures HeaderSize + |FieldsBytes(Fields(r))| <= MessageSize(r)
  {
    FieldsParts(r);
    MessageParts(r);
    FieldSizes(r);
    KeyFits(r);
  }

  lemma KeyFits(r: Request)
    ensures |FieldsBytes(KeyField(r))| <= Room(r.key.Some?, if r.key.Some? then 1 + ObjectSize(r.key.value) else 0)
  {
    if KeyField(r) != [] { OneField(KeyField(r)[0]); }
  }

  /** Lays out header, fields and operations. */
  method WriteMessage(r: Request, buf: array<Byte>) returns (ok: bool)
    requires IsRequest(r) && MessageSize(r) <= buf.Length && forall o :: o in r.ops ==> !o.bin.value.Other?
    modifies buf
    ensures ok == Compiles(r)
    ensures ok ==> |Encoded(r)| + Slack(r) == MessageSize(r) && buf[..] == Splice(old(buf[..]), 0, Encoded(r))
  {
    ghost var start, header, fields := buf[..], HeaderBytes(RequestHeader(r)), FieldsBytes(Fields(r));
    FieldsFit(r);
    WriteHeader(buf, RequestHeader(r));
    var at;
    at, ok := WriteFields(buf, HeaderSize, r);
    if !ok {
      return;
    }
    SizeAccounting(r);
    SpliceNext(start, 0, header, fields);
    WriteOps(buf, at, r.ops);
    SpliceNext(start, 0, header + fields, OpsBytes(r.ops));
  }

  /** Clears the message's part of the buffer and lays the request out. */
  method LayOut(r: Request, buf: array<Byte>) returns (ok: bool)
    requires IsRequest(r) && MessageSize(r) <= buf.Length && forall o :: o in r.ops ==> !o.bin.value.Other?
    modifies buf
    ensures ok == Compiles(r)
    ensures ok ==> buf[..] == Encoded(r) + Zeros(Slack(r)) + old(buf[MessageSize(r)..])
  {
    ghost var was := buf[..];
    Copy(buf, 0, Zeros(MessageSize(r)));
    ok := WriteMessage(r, buf);
    if ok {
      LaidOver(Encoded(r), MessageSize(r), Slack(r), was);
    }
  }

  /** Sizes the request, takes the given buffer if it is big enough or a new one, and
      lays the request out in it. */
  method Compile(r: Request, given: array<Byte>) returns (ok: bool, buf: array<Byte>, size: nat)
    requires IsRequest(r) && MessageSize(r) < Pow256(4)
    modifies given
    ensures ok == Compiles(r) && (buf == given || fresh(buf))
    ensures ok ==> size == MessageSize(r) <= buf.Length && buf[..size] == Encoded(r) + Zeros(Slack(r))
    ensures ok && buf == given ==> buf[size..] == old(given[size..])
  {
    buf, size := given, 0;
    var opsSize;
    opsSize, ok := SizeOps(r.ops);
    if !ok {
      return;
    }
    size := FixedSize(r) + opsSize;
    if size > given.Length {
      buf := new Byte[size](_ => 0);
    }
    ghost var rest := buf[size..];
    ok := LayOut(r, buf);
    if ok {
      SizeAccounting(r);
      Split(Encoded(r), Zeros(Slack(r)), rest);
      assert buf[..size] == buf[..][..size] && buf[size..] == buf[..][size..];
    }
  }

  // ---------------------------------------------------------------------------
  // Parsing in the buffer
  // ---------------------------------------------------------------------------

  /** The operations with their sizes swapped to host order, as far as the parser gets. */
  function OpsSwapped(n: nat, b: Bytes, whole: nat): (s: Bytes)
    ensures |s| == |b|
  {
    if n == 0 || whole < OpHeader || !OpFits(b) then b
    else Reversed(b[..4]) + b[4..OpLength(b)] + OpsSwapped(n - 1, b[OpLength(b)..], whole)
  }

  /** A body as the parser leaves it. */
  function BodySwapped(nFields: nat, nOps: nat, b: Bytes, whole: nat): (s: Bytes)
    ensures |s| == |b|
  {
    if nFields == 0 then OpsSwapped(nOps, b, |b|)
    else if whole < FieldHeader || !FieldFits(b) then b
    else Reversed(b[..4]) + b[4..FieldLength(b)] + BodySwapped(nFields - 1, nOps, b[FieldLength(b)..], whole)
  }

  /** Swaps the size at the start of `b` and reads it. */
  method TakeSize(buf: array<Byte>, at: nat, ghost before: Bytes, ghost b: Bytes) returns (size: nat)
    requires buf[..] == before + b && at == |before| && |b| >= 4
    modifies buf
    ensures size == FromNetwork(b[..4]) && buf[..] == before + Reversed(b[..4]) + b[4..]
  {
    assert buf[at..at + 4] == (before + b)[at..at + 4] == b[..4];
    Swap(buf, at, 4);
    assert buf[at..at + 4] == buf[..][at..at + 4] == Reversed(b[..4]);
    size := Load(buf, at, 4);
    ReversedTwice(b[..4]);
  }

  lemma Slices(buf: Bytes, before: Bytes, b: Bytes, lo: nat, hi: nat)
    requires 4 <= lo <= hi <= |b| && buf == before + Reversed(b[..4]) + b[4..]
    ensures |buf| == |before| + |b| && buf[|before| + lo..|before| + hi] == b[lo..hi]
    ensures forall k :: 4 <= k < |b| ==> buf[|before| + k] == b[k]
    ensures buf == (before + Reversed(b[..4]) + b[4..hi]) + b[hi..]
  {
  }

  /** `m` fields are still to come, at `b`, in a walk over `whole` bytes whose outcome
      will be `outcome` and which will leave `swapped`; `done` is what it has left so far. */
  ghost predicate FieldsLeft(whole: nat, outcome: Outcome<(Found, Bytes)>, swapped: Bytes, nOps: nat, m: nat,
                             done: Bytes, b: Bytes, found: Found)
  {
    ParsedFields(m, b, whole, found) == outcome && done + BodySwapped(m, nOps, b, whole) == swapped
  }

  lemma BodySwappedStep(whole: nat, nOps: nat, m: nat, done: Bytes, b: Bytes)
    requires m > 0 && whole >= FieldHeader && FieldFits(b)
    ensures done + BodySwapped(m, nOps, b, whole)
            == (done + Reversed(b[..4]) + b[4..FieldLength(b)]) + BodySwapped(m - 1, nOps, b[FieldLength(b)..], whole)
  {
    Assoc4(done, Reversed(b[..4]), b[4..FieldLength(b)], BodySwapped(m - 1, nOps, b[FieldLength(b)..], whole));
  }

  lemma FieldsLeftStep(whole: nat, outcome: Outcome<(Found, Bytes)>, swapped: Bytes, nOps: nat, m: nat, done: Bytes,
                       b: Bytes, found: Found)
    requires m > 0 && whole >= FieldHeader && outcome != Malformed
             && FieldsLeft(whole, outcome, swapped, nOps, m, done, b, found)
    ensures FieldFits(b)
    ensures FieldsLeft(whole, outcome, swapped, nOps, m - 1, done + Reversed(b[..4]) + b[4..FieldLength(b)],
                       b[FieldLength(b)..],
                       Note(found, b[4], b[FieldHeader..FieldLength(b)]))
  {
    BodySwappedStep(whole, nOps, m, done, b);
  }

  lemma FieldsLeftStart(nOps: nat, m: nat, b: Bytes)
    ensures FieldsLeft(|b|, ParsedFields(m, b, |b|, Found(None, None)), BodySwapped(m, nOps, b, |b|), nOps, m, [], b,
                       Found(None, None))
  {
    Empty(BodySwapped(m, nOps, b, |b|));
  }

  lemma FieldsLeftEnd(whole: nat, outcome: Outcome<(Found, Bytes)>, swapped: Bytes, nOps: nat, m: nat, done: Bytes,
                      b: Bytes, found: Found)
    requires FieldsLeft(whole, outcome, swapped, nOps, m, done, b, found)
    ensures m == 0 ==> outcome == Ok((found, b)) && swapped == done + OpsSwapped(nOps, b, |b|)
    ensures m > 0 && whole < FieldHeader ==> outcome == TooShort && swapped == done + b
  {
  }

  /** One field: swapped, noted, stepped over. */
  method TakeField(buf: array<Byte>, at: nat, found: Found, ghost before: Bytes, ghost b: Bytes)
    returns (next: nat, now: Found)
    requires buf[..] == before + b && at == |before| && FieldFits(b)
    modifies buf
    ensures next == at + FieldLength(b) && now == Note(found, b[4], b[FieldHeader..FieldLength(b)])
    ensures buf[..] == (before + Reversed(b[..4]) + b[4..FieldLength(b)]) + b[FieldLength(b)..]
  {
    var size := TakeSize(buf, at, before, b);
    next := at + 4 + size;
    Slices(buf[..], before, b, FieldHeader, FieldLength(b));
    var data := buf[at + FieldHeader..next];
    assert data == buf[..][at + FieldHeader..next];
    if buf[at + 4] == 7 {
      now := found.(trid := Some(FromNetwork(data[..8])));
    } else if buf[at + 4] == 1 {
      now := found.(set_ := Some(data));
    } else {
      now := found;
    }
  }

  /** One turn of the loop over the fields. */
  method TakeOneField(buf: array<Byte>, at: nat, found: Found, ghost nOps: nat,
                      ghost outcome: Outcome<(Found, Bytes)>, ghost swapped: Bytes, ghost m: nat, ghost done: Bytes,
                      ghost b: Bytes)
    returns (next: nat, now: Found, ghost passed: Bytes, ghost left: Bytes)
    requires buf[..] == done + b && at == |done| && m > 0 && buf.Length >= FieldHeader && outcome != Malformed
    requires FieldsLeft(buf.Length, outcome, swapped, nOps, m, done, b, found)
    modifies buf
    ensures buf[..] == passed + left && next == |passed|
            && FieldsLeft(buf.Length, outcome, swapped, nOps, m - 1, passed, left, now)
  {
    FieldsLeftStep(buf.Length, outcome, swapped, nOps, m, done, b, found);
    next, now := TakeField(buf, at, found, done, b);
    passed, left := done + Reversed(b[..4]) + b[4..FieldLength(b)], b[FieldLength(b)..];
  }

  method TakeFields(buf: array<Byte>, n: nat, ghost nOps: nat, ghost outcome: Outcome<(Found, Bytes)>,
                    ghost swapped: Bytes)
    returns (short: bool, found: Found, at: nat, ghost done: Bytes, ghost b: Bytes)
    requires FieldsLeft(buf.Length, outcome, swapped, nOps, n, [], buf[..], Found(None, None)) && outcome != Malformed
    modifies buf
    ensures buf[..] == done + b && at == |done|
    ensures if short then outcome == TooShort && swapped == done + b
            else outcome == Ok((found, b)) && swapped == done + OpsSwapped(nOps, b, |b|)
  {
    short, at, found := false, 0, Found(None, None);
    var i: nat := 0;
    ghost var m: nat := n;
    done, b := [], buf[..];
    Empty(b);
    while i < n
      invariant i + m == n && buf[..] == done + b && at == |done|
      invariant FieldsLeft(buf.Length, outcome, swapped, nOps, m, done, b, found)
    {
      if buf.Length < FieldHeader {
        short := true;
        FieldsLeftEnd(buf.Length, outcome, swapped, nOps, m, done, b, found);
        return;
      }
      at, found, done, b := TakeOneField(buf, at, found, nOps, outcome, swapped, m, done, b);
      i, m := i + 1, m - 1;
    }
    FieldsLeftEnd(buf.Length, outcome, swapped, nOps, m, done, b, found);
  }

  /** The outcome of a walk over operations that has found `slots` so far. */
  ghost function After(slots: seq<Slot>, o: Outcome<seq<Slot>>): (all: Outcome<seq<Slot>>)
  {
    match o
    case Ok(rest) => Ok(slots + rest)
    case TooShort => TooShort
    case Malformed => Malformed
  }

  /** `m` operations are still to come, at `b`. */
  ghost predicate OpsLeft(whole: nat, outcome: Outcome<seq<Slot>>, swapped: Bytes, m: nat, done: Bytes, b: Bytes,
                          slots: seq<Slot>)
  {
    outcome == After(slots, ParsedOps(m, b, whole)) && done + OpsSwapped(m, b, whole) == swapped
  }

  lemma OpsParsedStep(whole: nat, m: nat, b: Bytes, slots: seq<Slot>)
    requires m > 0 && whole >= OpHeader && OpFits(b)
    ensures After(slots, ParsedOps(m, b, whole)) == After(slots + [SlotFrom(b)],
                                                          ParsedOps(m - 1, b[OpLength(b)..], whole))
  {
    var rest := ParsedOps(m - 1, b[OpLength(b)..], whole);
    if rest.Ok? { SlotsRegroup(slots, SlotFrom(b), rest.value); }
  }

  lemma SlotsRegroup(a: seq<Slot>, x: Slot, b: seq<Slot>)
    ensures a + ([x] + b) == (a + [x]) + b
  {
  }

  lemma OpsSwappedStep(whole: nat, m: nat, done: Bytes, b: Bytes)
    requires m > 0 && whole >= OpHeader && OpFits(b)
    ensures done + OpsSwapped(m, b, whole)
            == (done + Reversed(b[..4]) + b[4..OpLength(b)]) + OpsSwapped(m - 1, b[OpLength(b)..], whole)
  {
    Assoc4(done, Reversed(b[..4]), b[4..OpLength(b)], OpsSwapped(m - 1, b[OpLength(b)..], whole));
  }

  lemma OpsLeftStep(whole: nat, outcome: Outcome<seq<Slot>>, swapped: Bytes, m: nat, done: Bytes, b: Bytes,
                    slots: seq<Slot>)
    requires m > 0 && whole >= OpHeader && outcome != Malformed && OpsLeft(whole, outcome, swapped, m, done, b, slots)
    ensures OpFits(b)
    ensures OpsLeft(whole, outcome, swapped, m - 1, done + Reversed(b[..4]) + b[4..OpLength(b)], b[OpLength(b)..],
                    slots + [SlotFrom(b)])
  {
    OpsParsedStep(whole, m, b, slots);
    OpsSwappedStep(whole, m, done, b);
  }

  lemma OpsLeftStart(n: nat, all: Bytes)
    ensures OpsLeft(|all|, ParsedOps(n, all, |all|), OpsSwapped(n, all, |all|), n, [], all, [])
  {
    var o := ParsedOps(n, all, |all|);
    if o.Ok? { assert [] + o.value == o.value; }
    Empty(OpsSwapped(n, all, |all|));
  }

  lemma OpsLeftEnd(whole: nat, outcome: Outcome<seq<Slot>>, swapped: Bytes, m: nat, done: Bytes, b: Bytes,
                   slots: seq<Slot>)
    requires OpsLeft(whole, outcome, swapped, m, done, b, slots)
    ensures m == 0 ==> outcome == Ok(slots) && swapped == done + b
    ensures m > 0 && whole < OpHeader ==> outcome == TooShort && swapped == done + b
  {
    assert slots + [] == slots;
  }

  /** Where the parts of an operation stand once its size is swapped. */
  lemma OpSlices(now: Bytes, before: Bytes, b: Bytes)
    requires OpFits(b) && now == before + Reversed(b[..4]) + b[4..]
    ensures |now| == |before| + |b| && now[|before| + 5] == b[5] && now[|before| + 7] == b[7]
    ensures now[|before| + OpHeader..|before| + OpHeader + b[7]] == b[OpHeader..OpHeader + b[7]]
    ensures now[|before| + OpHeader + b[7]..|before| + OpLength(b)] == b[OpHeader + b[7]..OpLength(b)]
    ensures now == (before + Reversed(b[..4]) + b[4..OpLength(b)]) + b[OpLength(b)..]
  {
    Slices(now, before, b, OpHeader, OpHeader + b[7]);
    Slices(now, before, b, OpHeader + b[7], OpLength(b));
  }

  /** One operation: swapped, its bin filled in, stepped over. */
  method TakeOp(buf: array<Byte>, at: nat, ghost before: Bytes, ghost b: Bytes) returns (next: nat, slot: Slot)
    requires buf[..] == before + b && at == |before| && OpFits(b)
    modifies buf
    ensures next == at + OpLength(b) && slot == SlotFrom(b)
    ensures buf[..] == (before + Reversed(b[..4]) + b[4..OpLength(b)]) + b[OpLength(b)..]
  {
    var size := TakeSize(buf, at, before, b);
    next := at + 4 + size;
    OpSlices(buf[..], before, b);
    slot := FillSlot(buf, at, next, b);
  }

  /** Copies name and value out of the operation at `at`. */
  method FillSlot(buf: array<Byte>, at: nat, next: nat, ghost b: Bytes) returns (slot: Slot)
    requires OpFits(b) && next == at + OpLength(b) <= buf.Length && buf[at + 5] == b[5] && buf[at + 7] == b[7]
    requires buf[..][at + OpHeader..at + OpHeader + b[7]] == b[OpHeader..OpHeader + b[7]]
    requires buf[..][at + OpHeader + b[7]..next] == b[OpHeader + b[7]..OpLength(b)]
    ensures slot == SlotFrom(b)
  {
    var nameSize := buf[at + 7];
    if nameSize > 32 {
      return Unset;
    }
    var name, data := buf[at + OpHeader..at + OpHeader + nameSize], buf[at + OpHeader + nameSize..next];
    var o := ObjectFrom(buf[at + 5], data);
    slot := if o.Some? then Filled(Bin(name, o.value)) else Unset;
  }

  method TakeOps(buf: array<Byte>, from: nat, n: nat, ghost front: Bytes, ghost all: Bytes)
    returns (o: Outcome<seq<Slot>>)
    requires buf[..] == front + all && from == |front| && ParsedOps(n, all, |all|) != Malformed
    modifies buf
    ensures o == ParsedOps(n, all, |all|) && buf[..] == front + OpsSwapped(n, all, |all|)
  {
    var at: nat, i: nat, slots: seq<Slot> := from, 0, [];
    ghost var done: Bytes, b := [], all;
    ghost var outcome, swapped := ParsedOps(n, all, |all|), OpsSwapped(n, all, |all|);
    OpsLeftStart(n, all);
    Empty(front);
    var short := false;
    while i < n
      invariant i <= n && buf[..] == (front + done) + b && at == from + |done| && buf.Length == from + |all| && !short
      invariant OpsLeft(|all|, outcome, swapped, n - i, done, b, slots)
    {
      if buf.Length - from < OpHeader {
        short := true;
        break;
      }
      OpsLeftStep(|all|, outcome, swapped, n - i, done, b, slots);
      var slot;
      at, slot := TakeOp(buf, at, front + done, b);
      Assoc4(front, done, Reversed(b[..4]), b[4..OpLength(b)]);
      done, b := done + Reversed(b[..4]) + b[4..OpLength(b)], b[OpLength(b)..];
      slots, i := slots + [slot], i + 1;
    }
    OpsLeftEnd(|all|, outcome, swapped, n - i, done, b, slots);
    Assoc(front, done, b);
    o := if short then TooShort else Ok(slots);
  }

  /** Walks the fields and then the operations, swapping every size on the way. */
  method Parse(buf: array<Byte>, nFields: nat, nOps: nat) returns (o: Outcome<Response>)
    requires Parsed(nFields, nOps, buf[..]) != Malformed
    modifies buf
    ensures o == Parsed(nFields, nOps, old(buf[..]))
    ensures buf[..] == BodySwapped(nFields, nOps, old(buf[..]), buf.Length)
  {
    var short, found, at;
    ghost var done, b;
    ghost var all := buf[..];
    FieldsLeftStart(nOps, nFields, all);
    short, found, at, done, b :=
      TakeFields(buf, nFields, nOps, ParsedFields(nFields, all, |all|, Found(None, None)),
                 BodySwapped(nFields, nOps, all, |all|));
    if short {
      return TooShort;
    }
    var slots := TakeOps(buf, at, nOps, done, b);
    o := if slots.Ok? then Ok(Response(found, slots.value)) else TooShort;
  }
}
