/**
 The optimistic index update of src/php_cl_query.c (`put_index`), run by any
 number of clients against one record server.

 The network may delay, repeat or lose any message: requests and replies are
 kept in sets that only grow, a request may be served any number of times at any
 later moment (also after its sender gave up), and a reply is consumed or ignored
 at will.  The record server is an assumption of this model: it applies a
 conditional write atomically and every write strictly increases the generation
 of the record.
 */
module IndexProtocol {
  import opened Common

  type Key = string
  type Digest = nat
  type ClientId = nat

  /** A stored index record: its generation and the digests in its blob. */
  datatype Record = Record(gen: nat, list: seq<Digest>)

  datatype Cond = IfAbsent | IfGeneration(gen: nat)

  /** A conditional write; it carries the whole new list, `base + [digest]`. */
  datatype Write = Write(key: Key, cond: Cond, base: seq<Digest>, digest: Digest)

  datatype Answer = NotFound | Found(rec: Record) | ReadFailed

  datatype Verdict = Ok | FailGeneration | FailExists | OtherFailure

  datatype Pc =
    | Retry
    | Reading
    | Writing(w: Write)
    | WritingData
    | Succeeded
    | Failed

  datatype Client = Client(key: Key, digest: Digest, tries: nat, pc: Pc)

  datatype ReadReply = ReadReply(cid: ClientId, tries: nat, answer: Answer)

  datatype WriteReply = WriteReply(w: Write, verdict: Verdict)

  datatype State = State(
    index: map<Key, Record>,
    data: set<(Key, Digest)>,
    clients: map<ClientId, Client>,
    readReplies: set<ReadReply>,
    writes: set<Write>,
    writeReplies: set<WriteReply>,
    dataWrites: set<(Key, Digest)>)

  // ---------------------------------------------------------------------------
  // The client: one call of put_index
  // ---------------------------------------------------------------------------

  /** `record_is_new`: the read-only search for the digest. */
  method RecordIsNew(d: Digest, list: seq<Digest>) returns (isNew: bool)
    ensures isNew <==> d !in list
  {
    var i := 0;
    while i < |list|
      invariant 0 <= i <= |list|
      invariant d !in list[..i]
    {
      if list[i] == d {
        return false;
      }
      i := i + 1;
    }
    return true;
  }

  /** `create_record`: a fresh buffer with the old digests and the new one last. */
  method CreateRecord(current: seq<Digest>, d: Digest) returns (rec: array<Digest>)
    ensures fresh(rec) && rec[..] == current + [d]
  {
    var count := |current| + 1;
    rec := new Digest[count];
    var i := 0;
    while i < |current|
      invariant 0 <= i <= |current| < rec.Length == count
      invariant rec[..i] == current[..i]
    {
      rec[i] := current[i];
      i := i + 1;
    }
    rec[count - 1] := d;
    assert rec[..] == rec[..|current|] + [d];
  }

  /** The verdict that the condition of a write did not hold. */
  predicate Clash(cond: Cond, v: Verdict)
  {
    (cond.IfAbsent? && v == FailExists) || (cond.IfGeneration? && v == FailGeneration)
  }

  /** What the call does with the answer to its read. */
  function AfterRead(c: Client, a: Answer): (c': Client)
  {
    match a
    case NotFound => c.(pc := Writing(Write(c.key, IfAbsent, [], c.digest)))
    case Found(rec) =>
      if rec.gen == 0 then c.(pc := Failed)
      else if c.digest in rec.list then c.(pc := WritingData)
      else c.(pc := Writing(Write(c.key, IfGeneration(rec.gen), rec.list, c.digest)))
    case ReadFailed => c.(pc := Failed)
  }

  /** What the call does with the verdict on its conditional write: a generation
      clash sends an update back to the read, an existing key a create. */
  function AfterWrite(c: Client, v: Verdict): (c': Client)
    requires c.pc.Writing?
  {
    if v == Ok then c.(pc := WritingData)
    else if v == FailGeneration && c.pc.w.cond.IfGeneration? then c.(pc := Retry)
    else if v == FailExists && c.pc.w.cond.IfAbsent? then c.(pc := Retry)
    else c.(pc := Failed)
  }

  // ---------------------------------------------------------------------------
  // The record server
  // ---------------------------------------------------------------------------

  function CondHolds(index: map<Key, Record>, w: Write): bool
  {
    match w.cond
    case IfAbsent => w.key !in index
    case IfGeneration(g) => w.key in index && index[w.key].gen == g
  }

  function Refusal(w: Write): Verdict
  {
    if w.cond.IfAbsent? then FailExists else FailGeneration
  }

  function ReadIndex(index: map<Key, Record>, k: Key): Answer
  {
    if k in index then Found(index[k]) else NotFound
  }

  // ---------------------------------------------------------------------------
  // Steps
  // ---------------------------------------------------------------------------

  datatype Event =
    | Begin(cid: ClientId, key: Key, digest: Digest)
    | IssueRead(cid: ClientId)
    | ServeRead(cid: ClientId)
    | TakeRead(cid: ClientId, answer: Answer)
    | ServeWrite(w: Write, newGen: nat)
    | TakeWrite(cid: ClientId, verdict: Verdict)
    | ServeData(item: (Key, Digest))
    | TakeData(cid: ClientId, ok: bool)

  ghost predicate At(s: State, cid: ClientId, pc: Pc)
  {
    cid in s.clients && s.clients[cid].pc == pc
  }

  ghost predicate Enabled(s: State, e: Event)
  {
    match e
    case Begin(cid, _, _) => cid !in s.clients
    case IssueRead(cid) => At(s, cid, Retry)
    case ServeRead(cid) => At(s, cid, Reading)
    case TakeRead(cid, a) =>
      At(s, cid, Reading) && (a == ReadFailed || ReadReply(cid, s.clients[cid].tries, a) in s.readReplies)
    case ServeWrite(w, newGen) =>
      w in s.writes && 1 <= newGen && (w.key in s.index ==> s.index[w.key].gen < newGen)
    case TakeWrite(cid, v) =>
      cid in s.clients && s.clients[cid].pc.Writing?
      && (v == OtherFailure || WriteReply(s.clients[cid].pc.w, v) in s.writeReplies)
    case ServeData(item) => item in s.dataWrites
    case TakeData(cid, ok) => At(s, cid, WritingData) && (ok ==> (s.clients[cid].key, s.clients[cid].digest) in s.data)
  }

  /** Installs a client and sends what its new program point asks for. */
  ghost function Put(s: State, cid: ClientId, c: Client): State
  {
    s.(clients := s.clients[cid := c],
       writes := if c.pc.Writing? then s.writes + {c.pc.w} else s.writes,
       dataWrites := if c.pc.WritingData? then s.dataWrites + {(c.key, c.digest)} else s.dataWrites)
  }

  ghost function Apply(s: State, e: Event): State
    requires Enabled(s, e)
  {
    match e
    case Begin(cid, k, d) => Put(s, cid, Client(k, d, 0, Retry))
    case IssueRead(cid) =>
      var c := s.clients[cid];
      Put(s, cid, c.(pc := Reading, tries := c.tries + 1))
    case ServeRead(cid) =>
      var c := s.clients[cid];
      s.(readReplies := s.readReplies + {ReadReply(cid, c.tries, ReadIndex(s.index, c.key))})
    case TakeRead(cid, a) => Put(s, cid, AfterRead(s.clients[cid], a))
    case ServeWrite(w, newGen) =>
      if CondHolds(s.index, w) then
        s.(index := s.index[w.key := Record(newGen, w.base + [w.digest])],
           writeReplies := s.writeReplies + {WriteReply(w, Ok)})
      else
        s.(writeReplies := s.writeReplies + {WriteReply(w, Refusal(w))})
    case TakeWrite(cid, v) => Put(s, cid, AfterWrite(s.clients[cid], v))
    case ServeData(item) => s.(data := s.data + {item})
    case TakeData(cid, ok) => Put(s, cid, s.clients[cid].(pc := if ok then Succeeded else Failed))
  }

  ghost const Init: State := State(map[], {}, map[], {}, {}, {}, {})

  ghost predicate IsRun(run: seq<State>, events: seq<Event>)
  {
    && |run| == |events| + 1
    && run[0] == Init
    && forall i :: 0 <= i < |events| ==> Enabled(run[i], events[i]) && run[i + 1] == Apply(run[i], events[i])
  }

  // ---------------------------------------------------------------------------
  // The invariant
  // ---------------------------------------------------------------------------

  ghost predicate NoDup(l: seq<Digest>)
  {
    forall i, j :: 0 <= i < j < |l| ==> l[i] != l[j]
  }

  function Len(s: State, k: Key): nat
  {
    if k in s.index then |s.index[k].list| else 0
  }

  ghost predicate Indexed(s: State, k: Key, d: Digest)
  {
    k in s.index && d in s.index[k].list
  }

  /** `rec` is what the index held for `k` at some moment up to now: the list only
      grew since, and grew strictly if the generation moved on. */
  ghost predicate Past(s: State, k: Key, rec: Record)
  {
    && k in s.index
    && 1 <= rec.gen <= s.index[k].gen
    && rec.list <= s.index[k].list
    && (rec.gen == s.index[k].gen ==> rec.list == s.index[k].list)
    && (rec.gen < s.index[k].gen ==> |rec.list| < |s.index[k].list|)
  }

  ghost predicate WriteOk(s: State, w: Write)
  {
    match w.cond
    case IfAbsent => w.base == []
    case IfGeneration(g) => w.digest !in w.base && Past(s, w.key, Record(g, w.base))
  }

  ghost predicate ReplyOk(s: State, r: WriteReply)
  {
    && WriteOk(s, r.w)
    && (r.verdict == Ok || Clash(r.w.cond, r.verdict))
    && (r.verdict == Ok ==> Indexed(s, r.w.key, r.w.digest))
    && (r.verdict.FailExists? || r.verdict.FailGeneration? ==> Len(s, r.w.key) > |r.w.base|)
  }

  ghost predicate ReadOk(s: State, r: ReadReply)
  {
    && r.cid in s.clients
    && r.tries <= s.clients[r.cid].tries
    && !r.answer.ReadFailed?
    && (r.answer.NotFound? ==> r.tries <= 1)
    && (r.answer.Found? ==> Past(s, s.clients[r.cid].key, r.answer.rec) && r.tries <= |r.answer.rec.list| + 1)
  }

  /** The digests of all calls ever made for key `k`. */
  ghost function Callers(s: State, k: Key): set<Digest>
  {
    set cid | cid in s.clients && s.clients[cid].key == k :: s.clients[cid].digest
  }

  ghost predicate ClientOk(s: State, c: Client)
  {
    match c.pc
    case Retry => c.tries <= Len(s, c.key)
    case Reading => c.tries <= Len(s, c.key) + 1
    case Writing(w) =>
      && w in s.writes && w.key == c.key && w.digest == c.digest
      && c.tries <= |w.base| + 1
      && c.tries <= Len(s, c.key) + 1
    case WritingData =>
      Indexed(s, c.key, c.digest) && (c.key, c.digest) in s.dataWrites && c.tries <= Len(s, c.key) + 1
    case Succeeded => Indexed(s, c.key, c.digest) && c.tries <= Len(s, c.key) + 1
    case Failed => c.tries <= Len(s, c.key) + 1
  }

  ghost predicate KeyOk(s: State, k: Key)
    requires k in s.index
  {
    && 1 <= s.index[k].gen && s.index[k].list != [] && NoDup(s.index[k].list)
    && forall d :: d in s.index[k].list ==> d in Callers(s, k)
  }

  ghost predicate SentOk(s: State, w: Write)
  {
    WriteOk(s, w) && w.digest in Callers(s, w.key)
  }

  ghost predicate Inv(s: State)
  {
    && (forall k :: k in s.index ==> KeyOk(s, k))
    && (forall r :: r in s.readReplies ==> ReadOk(s, r))
    && (forall w :: w in s.writes ==> SentOk(s, w))
    && (forall r :: r in s.writeReplies ==> ReplyOk(s, r))
    && (forall p :: p in s.dataWrites ==> Indexed(s, p.0, p.1))
    && (forall p :: p in s.data ==> Indexed(s, p.0, p.1))
    && (forall cid :: cid in s.clients ==> ClientOk(s, s.clients[cid]))
  }

  ghost predicate SameCall(c: Client, d: Client)
  {
    d.key == c.key && d.digest == c.digest && c.tries <= d.tries
  }

  /** Every step only appends to index lists and forgets no call. */
  ghost predicate Grows(s: State, t: State)
  {
    && (forall k :: k in s.index ==> k in t.index && s.index[k].list <= t.index[k].list)
    && (forall k, rec :: Past(s, k, rec) ==> Past(t, k, rec))
    && (forall cid :: cid in s.clients ==> cid in t.clients && SameCall(s.clients[cid], t.clients[cid]))
    && s.writes <= t.writes && s.dataWrites <= t.dataWrites
  }

  // What holds of messages and clients survives growth.

  lemma GrowthKeepsIndexed(s: State, t: State, k: Key, d: Digest)
    requires Grows(s, t) && Indexed(s, k, d)
    ensures Indexed(t, k, d)
  {
    var i :| 0 <= i < |s.index[k].list| && s.index[k].list[i] == d;
    assert t.index[k].list[i] == d;
  }

  lemma GrowthKeepsCaller(s: State, t: State, k: Key, d: Digest)
    requires Grows(s, t) && d in Callers(s, k)
    ensures d in Callers(t, k)
  {
    var cid :| cid in s.clients && s.clients[cid].key == k && s.clients[cid].digest == d;
    assert SameCall(s.clients[cid], t.clients[cid]);
  }

  lemma GrowthKeepsSent(s: State, t: State, w: Write)
    requires Grows(s, t) && SentOk(s, w)
    ensures SentOk(t, w)
  {
    GrowthKeepsCaller(s, t, w.key, w.digest);
  }

  lemma GrowthKeepsReply(s: State, t: State, r: WriteReply)
    requires Grows(s, t) && ReplyOk(s, r)
    ensures ReplyOk(t, r)
  {
    if r.verdict == Ok { GrowthKeepsIndexed(s, t, r.w.key, r.w.digest); }
  }

  lemma GrowthKeepsRead(s: State, t: State, r: ReadReply)
    requires Grows(s, t) && ReadOk(s, r)
    ensures ReadOk(t, r)
  {
    assert SameCall(s.clients[r.cid], t.clients[r.cid]);
  }

  lemma GrowthKeepsClient(s: State, t: State, c: Client)
    requires Grows(s, t) && ClientOk(s, c)
    ensures ClientOk(t, c)
  {
    if c.pc.WritingData? || c.pc.Succeeded? { GrowthKeepsIndexed(s, t, c.key, c.digest); }
  }

  lemma GrowthKeepsKey(s: State, t: State, k: Key)
    requires Grows(s, t) && k in s.index && KeyOk(s, k) && k in t.index && t.index[k] == s.index[k]
    ensures KeyOk(t, k)
  {
    forall d | d in t.index[k].list ensures d in Callers(t, k)
    {
      GrowthKeepsCaller(s, t, k, d);
    }
  }

  /** A state that grew is sound if all that is new in it is. */
  lemma GrowthKeeps(s: State, t: State)
    requires Inv(s) && Grows(s, t)
    requires forall k :: k in t.index && (k in s.index ==> t.index[k] != s.index[k]) ==> KeyOk(t, k)
    requires forall r :: r in t.readReplies && r !in s.readReplies ==> ReadOk(t, r)
    requires forall w :: w in t.writes && w !in s.writes ==> SentOk(t, w)
    requires forall r :: r in t.writeReplies && r !in s.writeReplies ==> ReplyOk(t, r)
    requires forall p :: p in t.dataWrites && p !in s.dataWrites ==> Indexed(t, p.0, p.1)
    requires forall p :: p in t.data && p !in s.data ==> Indexed(t, p.0, p.1)
    requires forall cid :: cid in t.clients && (cid in s.clients ==> t.clients[cid] != s.clients[cid]) ==>
               ClientOk(t, t.clients[cid])
    ensures Inv(t)
  {
    forall k | k in t.index ensures KeyOk(t, k)
    {
      if k in s.index && t.index[k] == s.index[k] { GrowthKeepsKey(s, t, k); }
    }
    forall r | r in t.readReplies ensures ReadOk(t, r)
    {
      if r in s.readReplies { GrowthKeepsRead(s, t, r); }
    }
    forall w | w in t.writes ensures SentOk(t, w)
    {
      if w in s.writes { GrowthKeepsSent(s, t, w); }
    }
    forall r | r in t.writeReplies ensures ReplyOk(t, r)
    {
      if r in s.writeReplies { GrowthKeepsReply(s, t, r); }
    }
    forall p | p in t.dataWrites ensures Indexed(t, p.0, p.1)
    {
      if p in s.dataWrites { GrowthKeepsIndexed(s, t, p.0, p.1); }
    }
    forall p | p in t.data ensures Indexed(t, p.0, p.1)
    {
      if p in s.data { GrowthKeepsIndexed(s, t, p.0, p.1); }
    }
    forall cid | cid in t.clients ensures ClientOk(t, t.clients[cid])
    {
      if cid in s.clients && t.clients[cid] == s.clients[cid] { GrowthKeepsClient(s, t, s.clients[cid]); }
    }
  }

  /** The heart of the protocol: a write whose condition holds was computed from
      exactly the list it replaces. */
  lemma ApplyAppends(s: State, w: Write)
    requires Inv(s) && w in s.writes && CondHolds(s.index, w)
    ensures w.key in s.index ==> w.base == s.index[w.key].list && w.digest !in w.base
    ensures w.key !in s.index ==> w.base == []
    ensures NoDup(w.base + [w.digest])
  {
    assert SentOk(s, w);
    if w.key in s.index { assert KeyOk(s, w.key); }
  }

  lemma PutGrows(s: State, cid: ClientId, c: Client)
    requires cid in s.clients ==> SameCall(s.clients[cid], c)
    ensures Grows(s, Put(s, cid, c))
  {
  }

  lemma ServeWriteGrows(s: State, e: Event)
    requires Inv(s) && Enabled(s, e) && e.ServeWrite?
    ensures Grows(s, Apply(s, e))
  {
    if CondHolds(s.index, e.w) { ApplyAppends(s, e.w); }
  }

  lemma ClientStepGrows(s: State, e: Event)
    requires Enabled(s, e) && !e.ServeRead? && !e.ServeWrite? && !e.ServeData?
    ensures Grows(s, Apply(s, e))
  {
    match e
    case Begin(cid, k, d) => PutGrows(s, cid, Client(k, d, 0, Retry));
    case IssueRead(cid) => PutGrows(s, cid, s.clients[cid].(pc := Reading, tries := s.clients[cid].tries + 1));
    case TakeRead(cid, a) => PutGrows(s, cid, AfterRead(s.clients[cid], a));
    case TakeWrite(cid, v) => PutGrows(s, cid, AfterWrite(s.clients[cid], v));
    case TakeData(cid, ok) => PutGrows(s, cid, s.clients[cid].(pc := if ok then Succeeded else Failed));
  }

  lemma StepGrows(s: State, e: Event)
    requires Inv(s) && Enabled(s, e)
    ensures Grows(s, Apply(s, e))
  {
    match e
    case ServeWrite(_, _) => ServeWriteGrows(s, e);
    case ServeRead(_) =>
    case ServeData(_) =>
    case _ => ClientStepGrows(s, e);
  }

  lemma ServeWriteKeeps(s: State, e: Event)
    requires Inv(s) && Enabled(s, e) && e.ServeWrite?
    ensures Inv(Apply(s, e))
  {
    var t, w := Apply(s, e), e.w;
    ServeWriteGrows(s, e);
    assert SentOk(s, w);
    GrowthKeepsSent(s, t, w);
    if CondHolds(s.index, w) {
      ApplyAppends(s, w);
      WrittenKeyOk(s, e);
      assert t.index[w.key].list[|w.base|] == w.digest;
    }
    GrowthKeeps(s, t);
  }

  lemma WrittenKeyOk(s: State, e: Event)
    requires Inv(s) && Enabled(s, e) && e.ServeWrite? && CondHolds(s.index, e.w)
    ensures KeyOk(Apply(s, e), e.w.key)
  {
    var t, w := Apply(s, e), e.w;
    ApplyAppends(s, w);
    assert SentOk(s, w);
    forall d | d in t.index[w.key].list ensures d in Callers(t, w.key)
    {
      assert d in w.base || d == w.digest;
      if d != w.digest { assert KeyOk(s, w.key); }
      assert Callers(t, w.key) == Callers(s, w.key);
    }
  }

  /** A client may move on whenever what it sends and where it stands is sound. */
  lemma PutKeeps(s: State, cid: ClientId, c: Client)
    requires Inv(s) && (cid in s.clients ==> SameCall(s.clients[cid], c))
    requires ClientOk(Put(s, cid, c), c)
    requires c.pc.Writing? ==> WriteOk(s, c.pc.w)
    requires c.pc.WritingData? ==> Indexed(s, c.key, c.digest)
    ensures Inv(Put(s, cid, c))
  {
    var t := Put(s, cid, c);
    PutGrows(s, cid, c);
    assert t.clients[cid] == c;
    assert c.digest in Callers(t, c.key);
    assert c.pc.Writing? ==> WriteOk(t, c.pc.w);
    GrowthKeeps(s, t);
  }

  lemma TakeReadKeeps(s: State, e: Event)
    requires Inv(s) && Enabled(s, e) && e.TakeRead?
    ensures Inv(Apply(s, e))
  {
    var c := s.clients[e.cid];
    assert ClientOk(s, c);
    if !e.answer.ReadFailed? {
      assert ReadOk(s, ReadReply(e.cid, c.tries, e.answer));
    }
    PutKeeps(s, e.cid, AfterRead(c, e.answer));
  }

  lemma TakeWriteKeeps(s: State, e: Event)
    requires Inv(s) && Enabled(s, e) && e.TakeWrite?
    ensures Inv(Apply(s, e))
  {
    var c := s.clients[e.cid];
    assert ClientOk(s, c);
    if e.verdict != OtherFailure {
      assert ReplyOk(s, WriteReply(c.pc.w, e.verdict));
    }
    PutKeeps(s, e.cid, AfterWrite(c, e.verdict));
  }

  lemma ServeReadKeeps(s: State, e: Event)
    requires Inv(s) && Enabled(s, e) && e.ServeRead?
    ensures Inv(Apply(s, e))
  {
    var t := Apply(s, e);
    StepGrows(s, e);
    var c := s.clients[e.cid];
    assert ClientOk(s, c);
    if c.key in s.index { assert KeyOk(s, c.key); }
    assert ReadOk(t, ReadReply(e.cid, c.tries, ReadIndex(s.index, c.key)));
    GrowthKeeps(s, t);
  }

  lemma TakeDataKeeps(s: State, e: Event)
    requires Inv(s) && Enabled(s, e) && e.TakeData?
    ensures Inv(Apply(s, e))
  {
    var c := s.clients[e.cid];
    assert ClientOk(s, c);
    PutKeeps(s, e.cid, c.(pc := if e.ok then Succeeded else Failed));
  }

  lemma BeginKeeps(s: State, e: Event)
    requires Inv(s) && Enabled(s, e) && e.Begin?
    ensures Inv(Apply(s, e))
  {
    PutKeeps(s, e.cid, Client(e.key, e.digest, 0, Retry));
  }

  lemma IssueReadKeeps(s: State, e: Event)
    requires Inv(s) && Enabled(s, e) && e.IssueRead?
    ensures Inv(Apply(s, e))
  {
    var c := s.clients[e.cid];
    assert ClientOk(s, c);
    PutKeeps(s, e.cid, c.(pc := Reading, tries := c.tries + 1));
  }

  lemma ServeDataKeeps(s: State, e: Event)
    requires Inv(s) && Enabled(s, e) && e.ServeData?
    ensures Inv(Apply(s, e))
  {
    var t := Apply(s, e);
    StepGrows(s, e);
    GrowthKeepsIndexed(s, t, e.item.0, e.item.1);
    GrowthKeeps(s, t);
  }

  /** Every step of every client and of the server keeps the invariant. */
  lemma StepKeeps(s: State, e: Event)
    requires Inv(s) && Enabled(s, e)
    ensures Inv(Apply(s, e))
  {
    match e
    case ServeWrite(_, _) => ServeWriteKeeps(s, e);
    case TakeRead(_, _) => TakeReadKeeps(s, e);
    case TakeWrite(_, _) => TakeWriteKeeps(s, e);
    case ServeRead(_) => ServeReadKeeps(s, e);
    case TakeData(_, _) => TakeDataKeeps(s, e);
    case Begin(_, _, _) => BeginKeeps(s, e);
    case IssueRead(_) => IssueReadKeeps(s, e);
    case ServeData(_) => ServeDataKeeps(s, e);
  }

  // ---------------------------------------------------------------------------
  // Whole runs
  // ---------------------------------------------------------------------------

  lemma {:induction false} RunKeeps(run: seq<State>, events: seq<Event>, i: nat)
    requires IsRun(run, events) && i < |run|
    ensures Inv(run[i])
  {
    if i > 0 {
      RunKeeps(run, events, i - 1);
      StepKeeps(run[i - 1], events[i - 1]);
    }
  }

  /** No lost update: under every interleaving, delay and retransmission, an index
      list is only ever extended at its end. */
  lemma {:induction false} AppendOnly(run: seq<State>, events: seq<Event>, i: nat, j: nat, k: Key)
    requires IsRun(run, events) && i <= j < |run|
    requires k in run[i].index
    ensures k in run[j].index && run[i].index[k].list <= run[j].index[k].list
    decreases j
  {
    if i < j {
      AppendOnly(run, events, i, j - 1, k);
      RunKeeps(run, events, j - 1);
      StepGrows(run[j - 1], events[j - 1]);
    }
  }

  /** In every reachable state no index list holds a digest twice, and it holds
      only digests somebody put under that key. */
  lemma NoDuplicates(run: seq<State>, events: seq<Event>, i: nat, k: Key)
    requires IsRun(run, events) && i < |run| && k in run[i].index
    ensures NoDup(run[i].index[k].list)
    ensures forall d :: d in run[i].index[k].list ==> d in Callers(run[i], k)
  {
    RunKeeps(run, events, i);
    assert KeyOk(run[i], k);
  }

  /** A call that got past its index step has its digest in the index, then and
      in every later state of the run. */
  lemma PassedCallsStayIndexed(run: seq<State>, events: seq<Event>, i: nat, j: nat, cid: ClientId)
    requires IsRun(run, events) && i <= j < |run|
    requires cid in run[i].clients && (run[i].clients[cid].pc.WritingData? || run[i].clients[cid].pc.Succeeded?)
    ensures Indexed(run[j], run[i].clients[cid].key, run[i].clients[cid].digest)
  {
    RunKeeps(run, events, i);
    var c := run[i].clients[cid];
    assert ClientOk(run[i], c);
    AppendOnly(run, events, i, j, c.key);
    var n :| 0 <= n < |run[i].index[c.key].list| && run[i].index[c.key].list[n] == c.digest;
    assert run[j].index[c.key].list[n] == c.digest;
  }

  /** No data record is unreachable from the index: whatever data record exists,
      or is still under way, its digest is already listed. */
  lemma DataIsIndexed(run: seq<State>, events: seq<Event>, i: nat, k: Key, d: Digest)
    requires IsRun(run, events) && i < |run|
    requires (k, d) in run[i].data || (k, d) in run[i].dataWrites
    ensures Indexed(run[i], k, d)
  {
    RunKeeps(run, events, i);
  }

  lemma {:induction false} NoDupFits(l: seq<Digest>, pool: set<Digest>)
    requires NoDup(l) && forall d :: d in l ==> d in pool
    ensures |l| <= |pool|
  {
    if l != [] {
      var last := l[|l| - 1];
      NoDupFits(l[..|l| - 1], pool - {last});
    }
  }

  /** The `goto retry` loop is bounded: a call reads at most once more than there
      are distinct digests ever put under its key. */
  lemma RetriesAreBounded(run: seq<State>, events: seq<Event>, i: nat, cid: ClientId)
    requires IsRun(run, events) && i < |run| && cid in run[i].clients
    ensures run[i].clients[cid].tries <= |Callers(run[i], run[i].clients[cid].key)| + 1
  {
    RunKeeps(run, events, i);
    var c := run[i].clients[cid];
    assert ClientOk(run[i], c);
    if c.key in run[i].index {
      assert KeyOk(run[i], c.key);
      NoDupFits(run[i].index[c.key].list, Callers(run[i], c.key));
    }
  }

  // ---------------------------------------------------------------------------
  // When a call gives up, and that it need not
  // ---------------------------------------------------------------------------

  /** A client told that its condition no longer held reads again, whatever it had read;
      no other verdict makes it. */
  lemma ClashReadsAgain(run: seq<State>, events: seq<Event>, i: nat, cid: ClientId, v: Verdict)
    requires IsRun(run, events) && i < |events| && events[i] == TakeWrite(cid, v)
    ensures cid in run[i].clients && run[i].clients[cid].pc.Writing? && cid in run[i + 1].clients
    ensures var c, c' := run[i].clients[cid], run[i + 1].clients[cid];
            && (c'.pc == Retry <==> Clash(c.pc.w.cond, v))
            && (c'.pc == Retry ==> c' == c.(pc := Retry) && Enabled(run[i + 1], IssueRead(cid)))
  {
    assert Enabled(run[i], events[i]);
  }

  /** Contention alone fails no call: a client fails only at a read, a write or a data
      write that the network or the server reports as failed. */
  lemma FailuresAreReported(run: seq<State>, events: seq<Event>, i: nat, cid: ClientId)
    requires IsRun(run, events) && i < |events| && cid in run[i].clients && cid in run[i + 1].clients
    requires run[i].clients[cid].pc != Failed && run[i + 1].clients[cid].pc == Failed
    ensures events[i] in [TakeRead(cid, ReadFailed), TakeWrite(cid, OtherFailure), TakeData(cid, false)]
  {
    RunKeeps(run, events, i);
    var s, e := run[i], events[i];
    assert Enabled(s, e) && run[i + 1] == Apply(s, e);
    if e.TakeRead? { ReadHasGeneration(s, e.cid, e.answer); }
    if e.TakeWrite? && e.verdict != OtherFailure { VerdictIsClash(s, e.cid, e.verdict); }
  }

  lemma ReadHasGeneration(s: State, cid: ClientId, a: Answer)
    requires Inv(s) && Enabled(s, TakeRead(cid, a))
    ensures a.Found? ==> a.rec.gen > 0
  {
    if a.Found? { assert ReadOk(s, ReadReply(cid, s.clients[cid].tries, a)); }
  }

  lemma VerdictIsClash(s: State, cid: ClientId, v: Verdict)
    requires Inv(s) && Enabled(s, TakeWrite(cid, v)) && v != OtherFailure
    ensures v == Ok || Clash(s.clients[cid].pc.w.cond, v)
  {
    assert ReplyOk(s, WriteReply(s.clients[cid].pc.w, v));
  }

  ghost predicate Path(s: State, es: seq<Event>, t: State)
    decreases |es|
  {
    if es == [] then s == t else Enabled(s, es[0]) && Path(Apply(s, es[0]), es[1..], t)
  }

  /** Some way of going on lets the call end well. */
  ghost predicate CanSucceed(s: State, cid: ClientId)
  {
    exists es, t :: Path(s, es, t) && At(t, cid, Succeeded)
  }

  lemma FirstStep(s: State, e: Event, cid: ClientId)
    requires Enabled(s, e) && CanSucceed(Apply(s, e), cid)
    ensures CanSucceed(s, cid)
  {
    var es, t :| Path(Apply(s, e), es, t) && At(t, cid, Succeeded);
    assert ([e] + es)[1..] == es;
    assert Path(s, [e] + es, t);
  }

  lemma DataSucceeds(s: State, cid: ClientId)
    requires Inv(s) && At(s, cid, WritingData)
    ensures CanSucceed(s, cid)
  {
    var c := s.clients[cid];
    assert ClientOk(s, c);
    var served := Apply(s, ServeData((c.key, c.digest)));
    var t := Apply(served, TakeData(cid, true));
    assert Path(t, [], t) && At(t, cid, Succeeded);
    FirstStep(served, TakeData(cid, true), cid);
    FirstStep(s, ServeData((c.key, c.digest)), cid);
  }

  /** A generation the server can give to the next write. */
  function NewGen(s: State, k: Key): (g: nat)
    ensures 1 <= g && (k in s.index ==> s.index[k].gen < g)
  {
    if k in s.index then s.index[k].gen + 1 else 1
  }

  lemma FreshWriteSucceeds(s: State, cid: ClientId)
    requires Inv(s) && cid in s.clients && s.clients[cid].pc.Writing? && CondHolds(s.index, s.clients[cid].pc.w)
    ensures CanSucceed(s, cid)
  {
    var w := s.clients[cid].pc.w;
    assert ClientOk(s, s.clients[cid]);
    var e := ServeWrite(w, NewGen(s, w.key));
    StepKeeps(s, e);
    var served := Apply(s, e);
    StepKeeps(served, TakeWrite(cid, Ok));
    DataSucceeds(Apply(served, TakeWrite(cid, Ok)), cid);
    FirstStep(served, TakeWrite(cid, Ok), cid);
    FirstStep(s, e, cid);
  }

  lemma ReadSucceeds(s: State, cid: ClientId)
    requires Inv(s) && At(s, cid, Reading)
    ensures CanSucceed(s, cid)
  {
    var c := s.clients[cid];
    assert ClientOk(s, c);
    var a := ReadIndex(s.index, c.key);
    if c.key in s.index { assert KeyOk(s, c.key); }
    StepKeeps(s, ServeRead(cid));
    var served := Apply(s, ServeRead(cid));
    StepKeeps(served, TakeRead(cid, a));
    var t := Apply(served, TakeRead(cid, a));
    if t.clients[cid].pc.WritingData? {
      DataSucceeds(t, cid);
    } else {
      FreshWriteSucceeds(t, cid);
    }
    FirstStep(served, TakeRead(cid, a), cid);
    FirstStep(s, ServeRead(cid), cid);
  }

  lemma RetrySucceeds(s: State, cid: ClientId)
    requires Inv(s) && At(s, cid, Retry)
    ensures CanSucceed(s, cid)
  {
    StepKeeps(s, IssueRead(cid));
    ReadSucceeds(Apply(s, IssueRead(cid)), cid);
    FirstStep(s, IssueRead(cid), cid);
  }

  lemma StaleWriteSucceeds(s: State, cid: ClientId)
    requires Inv(s) && cid in s.clients && s.clients[cid].pc.Writing? && !CondHolds(s.index, s.clients[cid].pc.w)
    ensures CanSucceed(s, cid)
  {
    var w := s.clients[cid].pc.w;
    assert ClientOk(s, s.clients[cid]);
    var e := ServeWrite(w, NewGen(s, w.key));
    var v := if w.cond.IfAbsent? then FailExists else FailGeneration;
    StepKeeps(s, e);
    var served := Apply(s, e);
    StepKeeps(served, TakeWrite(cid, v));
    RetrySucceeds(Apply(served, TakeWrite(cid, v)), cid);
    FirstStep(served, TakeWrite(cid, v), cid);
    FirstStep(s, e, cid);
  }

  /** In every state of every run, however stale what a call has read, it can still end
      well. */
  lemma NoCallIsStuck(run: seq<State>, events: seq<Event>, i: nat, cid: ClientId)
    requires IsRun(run, events) && i < |run| && cid in run[i].clients && run[i].clients[cid].pc != Failed
    ensures CanSucceed(run[i], cid)
  {
    RunKeeps(run, events, i);
    var s := run[i];
    match s.clients[cid].pc
    case Retry => RetrySucceeds(s, cid);
    case Reading => ReadSucceeds(s, cid);
    case Writing(w) =>
      if CondHolds(s.index, w) {
        FreshWriteSucceeds(s, cid);
      } else {
        StaleWriteSucceeds(s, cid);
      }
    case WritingData => DataSucceeds(s, cid);
    case Succeeded => assert Path(s, [], s);
  }

  // ---------------------------------------------------------------------------
  // What one call asks for and is told
  // ---------------------------------------------------------------------------

  datatype Request = AskRead | AskWrite(cond: Cond, blob: seq<Digest>) | AskData

  /** One thing the network hands to a waiting call. */
  datatype Delivery = Read(answer: Answer) | Wrote(verdict: Verdict) | DataWrote(ok: bool)

  predicate Replies(q: Request, d: Delivery)
  {
    match q
    case AskRead => d.Read?
    case AskWrite(_, _) => d.Wrote?
    case AskData => d.DataWrote?
  }

  /** The call fails on `d`: a failed read, a record without a generation, a failed data
      write, or a verdict that is neither success nor the clash of the condition sent. */
  predicate Fatal(q: Request, d: Delivery)
  {
    match d
    case Read(a) => a.ReadFailed? || (a.Found? && a.rec.gen == 0)
    case Wrote(v) => v != Ok && !(q.AskWrite? && Clash(q.cond, v))
    case DataWrote(ok) => !ok
  }

  predicate Final(q: Request, d: Delivery)
  {
    Fatal(q, d) || d == DataWrote(true)
  }

  /** What the call for `digest` asks next, told `d` without being ended by it. */
  predicate AsksNext(digest: Digest, d: Delivery, next: Request)
  {
    match d
    case Read(NotFound) => next == AskWrite(IfAbsent, [digest])
    case Read(Found(rec)) =>
      if digest in rec.list then next == AskData
      else next == AskWrite(IfGeneration(rec.gen), rec.list + [digest])
    case Read(ReadFailed) => false
    case Wrote(v) => next == if v == Ok then AskData else AskRead
    case DataWrote(_) => false
  }

  /** A step of an exchange: `asked[k]` was answered by `ds[k]`. */
  ghost predicate ExchangeAt(digest: Digest, asked: seq<Request>, ds: seq<Delivery>, k: nat)
    requires k < |asked| && k < |ds|
  {
    && Replies(asked[k], ds[k])
    && (Final(asked[k], ds[k]) <==> k + 1 == |asked|)
    && (k + 1 < |asked| ==> AsksNext(digest, ds[k], asked[k + 1]))
  }

  /** The requests and replies of one call, which is over when the last is answered. */
  ghost predicate IsExchange(digest: Digest, asked: seq<Request>, ds: seq<Delivery>)
  {
    && |ds| <= |asked| <= |ds| + 1 && asked != [] && asked[0] == AskRead
    && forall k: nat :: k < |ds| ==> ExchangeAt(digest, asked, ds, k)
  }

  /** Replies to one call, as many as it waited for. */
  ghost predicate AreReplies(digest: Digest, ds: seq<Delivery>)
  {
    exists asked :: IsExchange(digest, asked, ds)
  }

  function Reads(asked: seq<Request>): (n: nat)
  {
    if asked == [] then 0 else Reads(asked[..|asked| - 1]) + if asked[|asked| - 1] == AskRead then 1 else 0
  }

  ghost predicate ClashAt(asked: seq<Request>, ds: seq<Delivery>, k: nat)
  {
    && k < |asked| && k < |ds| && asked[k].AskWrite? && ds[k].Wrote? && Clash(asked[k].cond, ds[k].verdict)
  }

  /** The replies that say the condition of the write did not hold. */
  ghost function Clashes(asked: seq<Request>, ds: seq<Delivery>): set<nat>
  {
    set k: nat | k < |ds| && ClashAt(asked, ds, k)
  }

  lemma ExchangeGoesOn(digest: Digest, asked: seq<Request>, ds: seq<Delivery>, d: Delivery, next: Request)
    requires IsExchange(digest, asked, ds) && |asked| == |ds| + 1 && Replies(asked[|ds|], d)
    requires !Final(asked[|ds|], d) && AsksNext(digest, d, next)
    ensures IsExchange(digest, asked + [next], ds + [d])
    ensures Reads(asked + [next]) == Reads(asked) + if next == AskRead then 1 else 0
  {
    var more, told := asked + [next], ds + [d];
    assert more[..|asked|] == asked;
    forall k: nat | k < |told| ensures ExchangeAt(digest, more, told, k)
    {
      if k < |ds| { assert ExchangeAt(digest, asked, ds, k); }
    }
  }

  lemma ExchangeEnds(digest: Digest, asked: seq<Request>, ds: seq<Delivery>, d: Delivery)
    requires IsExchange(digest, asked, ds) && |asked| == |ds| + 1 && Replies(asked[|ds|], d) && Final(asked[|ds|], d)
    ensures IsExchange(digest, asked, ds + [d])
  {
    forall k: nat | k < |ds| + 1 ensures ExchangeAt(digest, asked, ds + [d], k)
    {
      if k < |ds| { assert ExchangeAt(digest, asked, ds, k); }
    }
  }

  /** The replies leave no choice: there is one exchange with them. */
  lemma {:induction false} OneExchange(digest: Digest, asked: seq<Request>, full: seq<Request>, ds: seq<Delivery>,
                                       n: nat)
    requires n <= |ds| && IsExchange(digest, asked, ds[..n]) && IsExchange(digest, full, ds)
    ensures asked <= full && (n == |ds| ==> asked == full)
    decreases n
  {
    if n > 0 {
      var k := n - 1;
      assert ds[..n][..k] == ds[..k];
      var before := asked[..k + 1];
      forall j: nat | j < k ensures ExchangeAt(digest, before, ds[..k], j)
      {
        assert ExchangeAt(digest, asked, ds[..n], j);
      }
      OneExchange(digest, before, full, ds, k);
      assert ExchangeAt(digest, asked, ds[..n], k) && ExchangeAt(digest, full, ds, k);
      assert before == full[..k + 1];
      assert asked[k] == before[k] == full[k];
      if k + 1 < |asked| { assert asked == before + [asked[k + 1]]; }
    }
  }

  /** The result of an exchange. */
  lemma ExchangeResult(digest: Digest, asked: seq<Request>, ds: seq<Delivery>)
    requires IsExchange(digest, asked, ds)
    ensures |asked| == |ds| <==> ds != [] && Final(asked[|ds| - 1], ds[|ds| - 1])
    ensures forall k: nat :: k < |ds| && Fatal(asked[k], ds[k]) ==> k + 1 == |ds| == |asked|
    ensures forall k: nat :: k < |ds| && ds[k] == DataWrote(true) ==> k + 1 == |ds| == |asked|
  {
    forall k: nat | k < |ds| && Final(asked[k], ds[k]) ensures k + 1 == |ds| == |asked|
    {
      assert ExchangeAt(digest, asked, ds, k);
    }
    if |asked| == |ds| { assert ExchangeAt(digest, asked, ds, |ds| - 1); }
  }

  /** Every read after the first is due to a clash. */
  lemma ReadsAreClashes(digest: Digest, asked: seq<Request>, ds: seq<Delivery>)
    requires IsExchange(digest, asked, ds)
    ensures Reads(asked) == 1 + |Clashes(asked, ds)|
  {
    var n := |asked| - 1;
    FirstReadsAreClashes(digest, asked, ds, n);
    assert asked[..|asked|] == asked;
    if n < |ds| {
      assert ExchangeAt(digest, asked, ds, n);
      assert Clashes(asked, ds) == Clashes(asked, ds[..n]);
    } else {
      assert ds[..n] == ds;
    }
  }

  lemma ClashesGrow(asked: seq<Request>, ds: seq<Delivery>, k: nat)
    requires k < |ds|
    ensures |Clashes(asked, ds[..k + 1])| == |Clashes(asked, ds[..k])| + if ClashAt(asked, ds, k) then 1 else 0
  {
    var before := Clashes(asked, ds[..k]);
    assert k !in before;
    assert Clashes(asked, ds[..k + 1]) == if ClashAt(asked, ds, k) then before + {k} else before;
  }

  lemma {:induction false} FirstReadsAreClashes(digest: Digest, asked: seq<Request>, ds: seq<Delivery>, n: nat)
    requires IsExchange(digest, asked, ds) && n < |asked| && n <= |ds|
    ensures Reads(asked[..n + 1]) == 1 + |Clashes(asked, ds[..n])|
  {
    if n == 0 {
      assert asked[..1] == [AskRead] && [AskRead][..0] == [];
      assert Clashes(asked, ds[..0]) == {};
    } else {
      var k := n - 1;
      FirstReadsAreClashes(digest, asked, ds, k);
      assert ExchangeAt(digest, asked, ds, k);
      assert asked[..n + 1][..n] == asked[..n];
      ClashesGrow(asked, ds, k);
    }
  }

  /** The loop's turn: what the call makes of one reply. */
  method TakeReply(digest: Digest, q: Request, d: Delivery) returns (next: Option<Request>, rv: int)
    requires Replies(q, d)
    ensures if next.Some? then !Final(q, d) && AsksNext(digest, d, next.value)
            else Final(q, d) && (rv == 0 <==> d == DataWrote(true))
  {
    next, rv := None, -1;
    match d {
      case Read(NotFound) =>
        var created := CreateRecord([], digest);
        next := Some(AskWrite(IfAbsent, created[..]));
      case Read(Found(rec)) =>
        if rec.gen == 0 {
          return;
        }
        var isNew := RecordIsNew(digest, rec.list);
        if isNew {
          var created := CreateRecord(rec.list, digest);
          next := Some(AskWrite(IfGeneration(rec.gen), created[..]));
        } else {
          next := Some(AskData);
        }
      case Read(ReadFailed) =>
      case Wrote(v) =>
        if (v == FailGeneration && q.cond.IfGeneration?) || (v == FailExists && q.cond.IfAbsent?) {
          next := Some(AskRead);
        } else if v == Ok {
          next := Some(AskData);
        }
      case DataWrote(ok) =>
        rv := if ok then 0 else -1;
    }
  }

  /** `put_index` from its first read on, fed with what the network delivers.  It
      returns everything it asked for, the number of its reads, and its result once
      there is one. */
  method PutIndex(digest: Digest, ds: seq<Delivery>) returns (asked: seq<Request>, tries: nat, rv: int, finished: bool)
    requires AreReplies(digest, ds)
    ensures IsExchange(digest, asked, ds) && tries == Reads(asked) == 1 + |Clashes(asked, ds)|
    ensures finished == (|asked| == |ds|)
    ensures finished && rv != 0 <==> exists k: nat :: k < |ds| && Fatal(asked[k], ds[k])
    ensures finished && rv == 0 <==> DataWrote(true) in ds
  {
    ghost var full :| IsExchange(digest, full, ds);
    asked, tries, rv, finished := [AskRead], 1, -1, false;
    assert [AskRead][..0] == [];
    var n := 0;
    while n < |ds|
      invariant n <= |ds| && IsExchange(digest, asked, ds[..n]) && tries == Reads(asked)
      invariant finished == (|asked| == n)
      invariant finished ==> n == |ds| && (rv == 0 <==> ds[n - 1] == DataWrote(true))
    {
      NextReply(digest, asked, full, ds, n);
      var next;
      next, rv := TakeReply(digest, asked[n], ds[n]);
      finished := next.None?;
      if next.Some? {
        ExchangeGoesOn(digest, asked, ds[..n], ds[n], next.value);
        if next.value == AskRead {
          tries := tries + 1;
        }
        asked := asked + [next.value];
      } else {
        ExchangeEnds(digest, asked, ds[..n], ds[n]);
      }
      n := n + 1;
    }
    assert ds[..n] == ds;
    ExchangeResult(digest, asked, ds);
    ReadsAreClashes(digest, asked, ds);
  }

  lemma NextReply(digest: Digest, asked: seq<Request>, full: seq<Request>, ds: seq<Delivery>, n: nat)
    requires n < |ds| && |asked| == n + 1 && IsExchange(digest, asked, ds[..n]) && IsExchange(digest, full, ds)
    ensures Replies(asked[n], ds[n]) && ds[..n + 1] == ds[..n] + [ds[n]]
    ensures Final(asked[n], ds[n]) ==> n + 1 == |ds|
  {
    OneExchange(digest, asked, full, ds, n);
    assert ExchangeAt(digest, full, ds, n);
  }

  // ---------------------------------------------------------------------------
  // Clients of a run
  // ---------------------------------------------------------------------------

  /** A client that is about to read again, as having asked for it. */
  function Waiting(c: Client): Client
  {
    if c.pc.Retry? then c.(pc := Reading, tries := c.tries + 1) else c
  }

  /** Where a client stands after an exchange. */
  ghost predicate StandsAfter(c: Client, asked: seq<Request>, ds: seq<Delivery>)
    requires |ds| <= |asked| <= |ds| + 1 && asked != []
  {
    && c.tries == Reads(asked)
    && if |asked| == |ds| then
         c.pc == if ds[|ds| - 1] == DataWrote(true) then Succeeded else Failed
       else
         match asked[|asked| - 1]
         case AskRead => c.pc.Reading?
         case AskWrite(cond, blob) =>
           c.pc.Writing? && c.pc.w.key == c.key && c.pc.w.digest == c.digest
           && c.pc.w.cond == cond && c.pc.w.base + [c.digest] == blob
         case AskData => c.pc.WritingData?
  }

  ghost predicate HasExchanged(c: Client, asked: seq<Request>, ds: seq<Delivery>)
  {
    IsExchange(c.digest, asked, ds) && StandsAfter(Waiting(c), asked, ds)
  }

  /** Every client of every run stands where the loop is after some replies. */
  lemma {:induction false} ClientExchanges(run: seq<State>, events: seq<Event>, i: nat, cid: ClientId)
    requires IsRun(run, events) && i < |run| && cid in run[i].clients
    ensures exists asked, ds :: HasExchanged(run[i].clients[cid], asked, ds)
  {
    var s, e := run[i - 1], events[i - 1];
    assert Enabled(s, e) && run[i] == Apply(s, e);
    if cid !in s.clients {
      assert [AskRead][..0] == [];
      assert HasExchanged(run[i].clients[cid], [AskRead], []);
    } else {
      ClientExchanges(run, events, i - 1, cid);
      var asked, ds :| HasExchanged(s.clients[cid], asked, ds);
      StepExchanges(s, e, cid, asked, ds);
    }
  }

  lemma ClientTold(c: Client, c': Client, asked: seq<Request>, ds: seq<Delivery>, d: Delivery)
    requires HasExchanged(c, asked, ds) && |asked| == |ds| + 1 && Replies(asked[|ds|], d)
    requires c'.digest == c.digest
    requires Final(asked[|ds|], d) ==> c' == c.(pc := if d == DataWrote(true) then Succeeded else Failed)
    requires !Final(asked[|ds|], d) && c'.pc.Retry? ==> AsksNext(c.digest, d, AskRead) && c'.tries == c.tries
    requires !Final(asked[|ds|], d) && c'.pc.Writing? ==>
               c'.key == c'.pc.w.key && c'.pc.w.digest == c.digest && c'.tries == c.tries
               && AsksNext(c.digest, d, AskWrite(c'.pc.w.cond, c'.pc.w.base + [c.digest]))
    requires !Final(asked[|ds|], d) && c'.pc.WritingData? ==> AsksNext(c.digest, d, AskData) && c'.tries == c.tries
    requires !Final(asked[|ds|], d) ==> c'.pc.Retry? || c'.pc.Writing? || c'.pc.WritingData?
    requires !c.pc.Retry?
    ensures exists asked', ds' :: HasExchanged(c', asked', ds')
  {
    if Final(asked[|ds|], d) {
      ExchangeEnds(c.digest, asked, ds, d);
      assert HasExchanged(c', asked, ds + [d]);
    } else {
      var next := if c'.pc.Retry? then AskRead
                  else if c'.pc.WritingData? then AskData
                  else AskWrite(c'.pc.w.cond, c'.pc.w.base + [c.digest]);
      ExchangeGoesOn(c.digest, asked, ds, d, next);
      assert HasExchanged(c', asked + [next], ds + [d]);
    }
  }

  lemma StepExchanges(s: State, e: Event, cid: ClientId, asked: seq<Request>, ds: seq<Delivery>)
    requires Enabled(s, e) && cid in s.clients && HasExchanged(s.clients[cid], asked, ds)
    ensures cid in Apply(s, e).clients
    ensures exists asked', ds' :: HasExchanged(Apply(s, e).clients[cid], asked', ds')
  {
    var c, c' := s.clients[cid], Apply(s, e).clients[cid];
    if e.TakeRead? && e.cid == cid {
      ClientTold(c, c', asked, ds, Read(e.answer));
    } else if e.TakeWrite? && e.cid == cid {
      ClientTold(c, c', asked, ds, Wrote(e.verdict));
    } else if e.TakeData? && e.cid == cid {
      ClientTold(c, c', asked, ds, DataWrote(e.ok));
    } else {
      assert HasExchanged(c', asked, ds);
    }
  }
}
