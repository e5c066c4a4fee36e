/**
 The asynchronous put pipeline of src/cl_async.c (the build with one socket per
 request): sender threads run `cl_do_async_monte`, receiver threads
 `async_receiver_fn`, and they pass work items, sockets and node references through
 the async queue, the free pool and the per-node connection pools.

 A state holds the shared queues and the program point of every thread; a step is
 one action of one thread, so a run is any interleaving.  Everything the places
 hold is counted token by token (`Held`); each step changes that count by exactly what
 it acquires or gives up.
 */
module AsyncPipeline {
  import opened Common

  type Item = nat
  type Fd = int
  type Node = nat

  /** What a work item records: socket, node, and the submission it stands for. */
  datatype Work = Work(fd: Fd, node: Node, sub: nat)

  /** A queue slot; `Stop` is the shutdown message. */
  datatype Entry = Stop | Job(item: Item)

  datatype Sender =
    | Idle
    | Admitted
    | Holding(item: Item)
    | AtNode(item: Item, node: Node)
    | Connected(item: Item, node: Node, fd: Fd)

  datatype Receiver =
    | Waiting
    | Reading(item: Item)
    | Failing(item: Item)
    | Called(item: Item)
    | Detached(item: Item)
    | Released(item: Item)
    | Exited

  /** `calls` and `sent` are history: the callbacks made, and for each submission the
      socket and node its request was written to. */
  datatype State = State(
    limit: nat,
    items: map<Item, Work>,
    pool: seq<Item>,
    queue: seq<Entry>,
    senders: seq<Sender>,
    receivers: seq<Receiver>,
    conns: seq<(Node, Fd)>,
    peer: map<Fd, Node>,
    refs: multiset<Node>,
    calls: seq<(nat, bool)>,
    submitted: nat,
    sent: seq<(Fd, Node)>)

  // ---------------------------------------------------------------------------
  // Steps
  // ---------------------------------------------------------------------------

  datatype Step =
    | Admit(t: nat)
    | TakePooled(t: nat)
    | Allocate(t: nat, added: Item)
    | PickNode(t: nat, n: Node)
    | GiveUp(t: nat)
    | PopConn(t: nat, j: nat)
    | OpenConn(t: nat, fd: Fd)
    | NoConn(t: nat)
    | WriteFails(t: nat)
    | Send(t: nat)
    | Pop(r: nat)
    | Postpone(r: nat)
    | Fail(r: nat)
    | CallFail(r: nat)
    | CallOk(r: nat)
    | PutFd(r: nat)
    | PutNode(r: nat)
    | Recycle(r: nat, leave: bool)
    | Shutdown

  predicate Enabled(s: State, e: Step)
  {
    match e
    case Admit(t) => t < |s.senders| && s.senders[t].Idle?
    case TakePooled(t) => t < |s.senders| && s.senders[t].Admitted? && s.pool != []
    case Allocate(t, added) => t < |s.senders| && s.senders[t].Admitted? && added !in s.items
    case PickNode(t, _) => t < |s.senders| && s.senders[t].Holding?
    case GiveUp(t) => t < |s.senders| && s.senders[t].Holding?
    case PopConn(t, j) => t < |s.senders| && s.senders[t].AtNode? && j < |s.conns| && s.conns[j].0 == s.senders[t].node
    case OpenConn(t, fd) => t < |s.senders| && s.senders[t].AtNode? && 0 <= fd && fd !in s.peer
    case NoConn(t) => t < |s.senders| && s.senders[t].AtNode?
    case WriteFails(t) => t < |s.senders| && s.senders[t].Connected?
    case Send(t) => t < |s.senders| && s.senders[t].Connected?
    case Pop(r) => r < |s.receivers| && s.receivers[r].Waiting? && s.queue != []
    case Postpone(r) => r < |s.receivers| && s.receivers[r].Reading?
    case Fail(r) => r < |s.receivers| && s.receivers[r].Reading? && s.receivers[r].item in s.items
    case CallFail(r) => r < |s.receivers| && s.receivers[r].Failing? && s.receivers[r].item in s.items
    case CallOk(r) => r < |s.receivers| && s.receivers[r].Reading? && s.receivers[r].item in s.items
    case PutFd(r) => r < |s.receivers| && s.receivers[r].Called? && s.receivers[r].item in s.items
    case PutNode(r) => r < |s.receivers| && s.receivers[r].Detached? && s.receivers[r].item in s.items
    case Recycle(r, _) => r < |s.receivers| && s.receivers[r].Released?
    case Shutdown => true
  }

  /** The socket a popped entry carries: -1 marks the shutdown message, and is all a
      receiver looks at. */
  function EntryFd(s: State, e: Entry): Fd
  {
    if e.Job? && e.item in s.items then s.items[e.item].fd else -1
  }

  /** No other step opens or closes a socket. */
  predicate MovesSockets(e: Step)
  {
    e.OpenConn? || e.WriteFails? || e.Fail?
  }

  /** No other step writes a work item or the history. */
  predicate WritesRecords(e: Step)
  {
    e.Send? || e.Fail? || e.Allocate? || e.CallOk? || e.CallFail?
  }

  /** The async queue is full for `cl_do_async_monte` when its size, read without
      keeping the lock, has reached the limit. */
  function Apply(s: State, e: Step): (t: State)
    requires Enabled(s, e)
    ensures t.limit == s.limit && |t.senders| == |s.senders| && |t.receivers| == |s.receivers|
    ensures !MovesSockets(e) ==> t.peer == s.peer
    ensures !WritesRecords(e) ==>
              t.items == s.items && t.sent == s.sent && t.calls == s.calls && t.submitted == s.submitted
  {
    match e
    case Admit(t) =>
      if |s.queue| >= s.limit then s else s.(senders := s.senders[t := Admitted])
    case TakePooled(t) =>
      s.(senders := s.senders[t := Holding(s.pool[0])], pool := s.pool[1..])
    case Allocate(t, added) =>
      s.(senders := s.senders[t := Holding(added)], items := s.items[added := Work(-1, 0, 0)])
    case PickNode(t, n) =>
      s.(senders := s.senders[t := AtNode(s.senders[t].item, n)], refs := s.refs + multiset{n})
    case GiveUp(t) =>
      s.(senders := s.senders[t := Idle])
    case PopConn(t, j) =>
      s.(senders := s.senders[t := Connected(s.senders[t].item, s.senders[t].node, s.conns[j].1)],
         conns := s.conns[..j] + s.conns[j + 1..])
    case OpenConn(t, fd) =>
      s.(senders := s.senders[t := Connected(s.senders[t].item, s.senders[t].node, fd)],
         peer := s.peer[fd := s.senders[t].node])
    case NoConn(t) =>
      s.(senders := s.senders[t := Holding(s.senders[t].item)], refs := s.refs - multiset{s.senders[t].node})
    case WriteFails(t) =>
      s.(senders := s.senders[t := Holding(s.senders[t].item)],
         peer := s.peer - {s.senders[t].fd},
         refs := s.refs - multiset{s.senders[t].node})
    case Send(t) =>
      var c := s.senders[t];
      s.(senders := s.senders[t := Idle],
         items := s.items[c.item := Work(c.fd, c.node, s.submitted)],
         queue := s.queue + [Job(c.item)],
         submitted := s.submitted + 1,
         sent := s.sent + [(c.fd, c.node)])
    case Pop(r) =>
      s.(receivers := s.receivers[r := if EntryFd(s, s.queue[0]) == -1 then Exited else Reading(s.queue[0].item)],
         queue := s.queue[1..])
    case Postpone(r) =>
      s.(receivers := s.receivers[r := Waiting], queue := s.queue + [Job(s.receivers[r].item)])
    case Fail(r) =>
      var i := s.receivers[r].item;
      s.(receivers := s.receivers[r := Failing(i)],
         peer := s.peer - {s.items[i].fd},
         items := s.items[i := s.items[i].(fd := -1)])
    case CallFail(r) =>
      var i := s.receivers[r].item;
      s.(receivers := s.receivers[r := Called(i)], calls := s.calls + [(s.items[i].sub, false)])
    case CallOk(r) =>
      var i := s.receivers[r].item;
      s.(receivers := s.receivers[r := Called(i)], calls := s.calls + [(s.items[i].sub, true)])
    case PutFd(r) =>
      var i := s.receivers[r].item;
      s.(receivers := s.receivers[r := Detached(i)],
         conns := if s.items[i].fd != -1 then s.conns + [(s.items[i].node, s.items[i].fd)] else s.conns)
    case PutNode(r) =>
      var i := s.receivers[r].item;
      s.(receivers := s.receivers[r := Released(i)], refs := s.refs - multiset{s.items[i].node})
    case Recycle(r, leave) =>
      s.(receivers := s.receivers[r := if leave then Exited else Waiting], pool := s.pool + [s.receivers[r].item])
    case Shutdown =>
      s.(queue := s.queue + [Stop])
  }

  // ---------------------------------------------------------------------------
  // Who holds what
  // ---------------------------------------------------------------------------

  /** One hold on a work item, on a socket open to a node, on a node reference, on the
      duty to call back a submission; and a unit of load on the queue. */
  datatype Token =
    | ItemTok(item: Item)
    | FdTok(fd: Fd, node: Node)
    | RefTok(refNode: Node)
    | SubTok(sub: nat)
    | Load

  /** Sum of `f` along a row of places. */
  ghost function Sum<A(!new)>(f: A -> nat, xs: seq<A>): nat
  {
    if xs == [] then 0 else f(xs[0]) + Sum(f, xs[1..])
  }

  /** `n` is the sum, for who asks: proofs about whole states keep sums folded. */
  ghost predicate IsSum<A(!new)>(f: A -> nat, xs: seq<A>, n: nat)
  {
    forall yes | Asked(yes) :: n == Sum(f, xs)
  }

  ghost function Count<A(!new)>(f: A -> nat, xs: seq<A>): (n: nat)
  {
    assert IsSum(f, xs, Sum(f, xs));
    var n: nat :| IsSum(f, xs, n);
    n
  }

  lemma CountIs<A(!new)>(f: A -> nat, xs: seq<A>)
    ensures Count(f, xs) == Sum(f, xs)
  {
    assert Asked(true);
  }

  lemma CountEmpty<A(!new)>(f: A -> nat, xs: seq<A>)
    requires xs == []
    ensures Count(f, xs) == 0
  {
    CountIs(f, xs);
  }

  lemma CountFirst<A(!new)>(f: A -> nat, xs: seq<A>)
    requires xs != []
    ensures Count(f, xs) == f(xs[0]) + Count(f, xs[1..])
  {
    CountIs(f, xs);
    CountIs(f, xs[1..]);
  }

  ghost function One(b: bool): nat
  {
    if b then 1 else 0
  }

  ghost function WorkOf(items: map<Item, Work>, i: Item): Work
  {
    if i in items then items[i] else Work(-1, 0, 0)
  }

  /** The holds of an item in flight, besides the item itself. */
  ghost function InFlight(w: Work, tok: Token): nat
  {
    One(tok == FdTok(w.fd, w.node)) + One(tok == RefTok(w.node)) + One(tok == SubTok(w.sub))
  }

  ghost function PoolHas(i: Item, tok: Token): nat
  {
    One(tok == ItemTok(i))
  }

  ghost function EntryHas(items: map<Item, Work>, e: Entry, tok: Token): nat
  {
    if e.Stop? then 0 else One(tok == ItemTok(e.item)) + One(tok == Load) + InFlight(WorkOf(items, e.item), tok)
  }

  ghost function SenderHas(c: Sender, tok: Token): nat
  {
    match c
    case Idle => 0
    case Admitted => One(tok == Load)
    case Holding(i) => One(tok == Load || tok == ItemTok(i))
    case AtNode(i, n) => One(tok == Load || tok == ItemTok(i) || tok == RefTok(n))
    case Connected(i, n, fd) => One(tok == Load || tok == ItemTok(i) || tok == RefTok(n) || tok == FdTok(fd, n))
  }

  ghost function ReceiverHas(items: map<Item, Work>, c: Receiver, tok: Token): nat
  {
    match c
    case Waiting => 0
    case Reading(i) => One(tok == Load || tok == ItemTok(i)) + InFlight(WorkOf(items, i), tok)
    case Failing(i) =>
      var w := WorkOf(items, i);
      One(tok == ItemTok(i) || tok == RefTok(w.node) || tok == SubTok(w.sub)
          || (w.fd != -1 && tok == FdTok(w.fd, w.node)))
    case Called(i) =>
      var w := WorkOf(items, i);
      One(tok == ItemTok(i) || tok == RefTok(w.node) || (w.fd != -1 && tok == FdTok(w.fd, w.node)))
    case Detached(i) => One(tok == ItemTok(i) || tok == RefTok(WorkOf(items, i).node))
    case Released(i) => One(tok == ItemTok(i))
    case Exited => 0
  }

  ghost function OfPool(tok: Token): Item -> nat { (i: Item) => PoolHas(i, tok) }

  ghost function OfQueue(items: map<Item, Work>, tok: Token): Entry -> nat { (e: Entry) => EntryHas(items, e, tok) }

  ghost function OfSenders(tok: Token): Sender -> nat { (c: Sender) => SenderHas(c, tok) }

  ghost function OfReceivers(items: map<Item, Work>, tok: Token): Receiver -> nat
  {
    (c: Receiver) => ReceiverHas(items, c, tok)
  }

  ghost function OfConns(tok: Token): ((Node, Fd)) -> nat { (c: (Node, Fd)) => One(tok == FdTok(c.1, c.0)) }

  ghost function OfCalls(tok: Token): ((nat, bool)) -> nat { (c: (nat, bool)) => One(tok == SubTok(c.0)) }

  /** How often `tok` is held anywhere. */
  ghost function Held(s: State, tok: Token): nat
  {
    Count(OfPool(tok), s.pool) + Count(OfQueue(s.items, tok), s.queue) + Count(OfSenders(tok), s.senders)
    + Count(OfReceivers(s.items, tok), s.receivers) + Count(OfConns(tok), s.conns) + Count(OfCalls(tok), s.calls)
  }

  lemma {:induction false} CountAppend<A(!new)>(f: A -> nat, xs: seq<A>, ys: seq<A>)
    ensures Count(f, xs + ys) == Count(f, xs) + Count(f, ys)
  {
    if xs == [] {
      CountEmpty(f, xs);
      assert xs + ys == ys;
    } else {
      CountFirst(f, xs);
      CountFirst(f, xs + ys);
      assert (xs + ys)[1..] == xs[1..] + ys;
      CountAppend(f, xs[1..], ys);
    }
  }

  lemma CountPush<A(!new)>(f: A -> nat, xs: seq<A>, x: A)
    ensures Count(f, xs + [x]) == Count(f, xs) + f(x)
  {
    CountAppend(f, xs, [x]);
    CountFirst(f, [x]);
    CountEmpty(f, [x][1..]);
  }

  lemma CountAt<A(!new)>(f: A -> nat, xs: seq<A>, i: nat)
    requires i < |xs|
    ensures Count(f, xs) == f(xs[i]) + Count(f, xs[..i] + xs[i + 1..])
  {
    assert xs == xs[..i] + xs[i..];
    assert xs[i..][1..] == xs[i + 1..];
    CountFirst(f, xs[i..]);
    CountAppend(f, xs[..i], xs[i..]);
    CountAppend(f, xs[..i], xs[i + 1..]);
  }

  lemma CountSet<A(!new)>(f: A -> nat, xs: seq<A>, i: nat, x: A)
    requires i < |xs|
    ensures Count(f, xs[i := x]) == Count(f, xs) - f(xs[i]) + f(x)
  {
    CountAt(f, xs, i);
    CountAt(f, xs[i := x], i);
    assert xs[i := x][..i] == xs[..i] && xs[i := x][i + 1..] == xs[i + 1..];
  }

  lemma CountTail<A(!new)>(f: A -> nat, xs: seq<A>)
    requires xs != []
    ensures Count(f, xs[1..]) == Count(f, xs) - f(xs[0])
  {
    CountFirst(f, xs);
  }

  lemma {:induction false} CountSame<A(!new)>(f: A -> nat, g: A -> nat, xs: seq<A>)
    requires forall x :: x in xs ==> f(x) == g(x)
    ensures Count(f, xs) == Count(g, xs)
  {
    if xs == [] {
      CountEmpty(f, xs);
      CountEmpty(g, xs);
    } else {
      CountFirst(f, xs);
      CountFirst(g, xs);
      CountSame(f, g, xs[1..]);
    }
  }

  /** What one place holds is counted. */
  lemma {:induction false} CountHas<A(!new)>(f: A -> nat, xs: seq<A>, x: A)
    requires x in xs
    ensures f(x) <= Count(f, xs)
  {
    CountFirst(f, xs);
    if xs[0] != x {
      CountHas(f, xs[1..], x);
    }
  }

  /** What two places of one row hold is counted twice. */
  lemma CountTwo<A(!new)>(f: A -> nat, xs: seq<A>, i: nat, j: nat)
    requires i < j < |xs|
    ensures f(xs[i]) + f(xs[j]) <= Count(f, xs)
  {
    CountAt(f, xs, i);
    assert xs[j] == (xs[..i] + xs[i + 1..])[j - 1];
    CountHas(f, xs[..i] + xs[i + 1..], xs[j]);
  }

  // ---------------------------------------------------------------------------
  // The invariant
  // ---------------------------------------------------------------------------

  /** How often each token may be held. */
  ghost predicate Allowed(s: State, tok: Token, count: nat)
  {
    match tok
    case ItemTok(i) => count <= 1 && (count == 1 ==> i in s.items)
    case FdTok(f, n) => count == if f in s.peer && s.peer[f] == n then 1 else 0
    case RefTok(n) => count == s.refs[n]
    case SubTok(k) => count == if k < s.submitted then 1 else 0
    case Load => count < s.limit + |s.senders| + |s.receivers|
  }

  ghost predicate Inv(s: State)
  {
    && 1 <= s.limit
    && (forall f :: f in s.peer ==> 0 <= f)
    && forall tok {:trigger Held(s, tok)} :: Allowed(s, tok, Held(s, tok))
  }

  /** What a step acquires or gives up. */
  ghost function Change(s: State, e: Step, tok: Token): int
    requires Enabled(s, e)
  {
    match e
    case Admit(_) => if |s.queue| < s.limit && tok == Load then 1 else 0
    case Allocate(_, added) => if tok == ItemTok(added) then 1 else 0
    case PickNode(_, n) => if tok == RefTok(n) then 1 else 0
    case OpenConn(t, fd) => if tok == FdTok(fd, s.senders[t].node) then 1 else 0
    case Send(_) => if tok == SubTok(s.submitted) then 1 else 0
    case GiveUp(t) => if tok == Load || tok == ItemTok(s.senders[t].item) then -1 else 0
    case NoConn(t) => if tok == RefTok(s.senders[t].node) then -1 else 0
    case WriteFails(t) =>
      if tok == FdTok(s.senders[t].fd, s.senders[t].node) || tok == RefTok(s.senders[t].node) then -1 else 0
    case Fail(r) =>
      var w := s.items[s.receivers[r].item];
      if tok == Load || tok == FdTok(w.fd, w.node) then -1 else 0
    case CallOk(_) => if tok == Load then -1 else 0
    case PutNode(r) => if tok == RefTok(s.items[s.receivers[r].item].node) then -1 else 0
    case _ => 0
  }

  ghost predicate Counted(s: State, e: Step, tok: Token)
    requires Enabled(s, e)
  {
    Held(Apply(s, e), tok) == Held(s, tok) + Change(s, e, tok)
  }

  /** Handing thread `t` a new program point. */
  lemma SenderMoves(s: State, t: nat, c: Sender, tok: Token)
    requires t < |s.senders|
    ensures Count(OfSenders(tok), s.senders[t := c]) ==
              Count(OfSenders(tok), s.senders) - SenderHas(s.senders[t], tok) + SenderHas(c, tok)
  {
    CountSet(OfSenders(tok), s.senders, t, c);
  }

  lemma ReceiverMoves(s: State, r: nat, c: Receiver, tok: Token)
    requires r < |s.receivers|
    ensures Count(OfReceivers(s.items, tok), s.receivers[r := c]) ==
              Count(OfReceivers(s.items, tok), s.receivers) - ReceiverHas(s.items, s.receivers[r], tok)
                + ReceiverHas(s.items, c, tok)
  {
    CountSet(OfReceivers(s.items, tok), s.receivers, r, c);
  }

  lemma AdmitStep(s: State, e: Step, tok: Token)
    requires Enabled(s, e) && e.Admit?
    ensures Counted(s, e, tok)
  {
    SenderMoves(s, e.t, Admitted, tok);
  }

  lemma PickNodeStep(s: State, e: Step, tok: Token)
    requires Enabled(s, e) && e.PickNode?
    ensures Counted(s, e, tok)
  {
    SenderMoves(s, e.t, AtNode(s.senders[e.t].item, e.n), tok);
  }

  lemma GiveUpStep(s: State, e: Step, tok: Token)
    requires Enabled(s, e) && e.GiveUp?
    ensures Counted(s, e, tok)
  {
    SenderMoves(s, e.t, Idle, tok);
  }

  lemma NoConnStep(s: State, e: Step, tok: Token)
    requires Enabled(s, e) && e.NoConn?
    ensures Counted(s, e, tok)
  {
    SenderMoves(s, e.t, Holding(s.senders[e.t].item), tok);
  }

  lemma OpenConnStep(s: State, e: Step, tok: Token)
    requires Enabled(s, e) && e.OpenConn?
    ensures Counted(s, e, tok)
  {
    SenderMoves(s, e.t, Apply(s, e).senders[e.t], tok);
  }

  lemma WriteFailsStep(s: State, e: Step, tok: Token)
    requires Enabled(s, e) && e.WriteFails?
    ensures Counted(s, e, tok)
  {
    SenderMoves(s, e.t, Holding(s.senders[e.t].item), tok);
  }

  lemma TakePooledStep(s: State, e: Step, tok: Token)
    requires Enabled(s, e) && e.TakePooled?
    ensures Counted(s, e, tok)
  {
    SenderMoves(s, e.t, Holding(s.pool[0]), tok);
    CountTail(OfPool(tok), s.pool);
  }

  lemma PopConnStep(s: State, e: Step, tok: Token)
    requires Enabled(s, e) && e.PopConn?
    ensures Counted(s, e, tok)
  {
    SenderMoves(s, e.t, Connected(s.senders[e.t].item, s.senders[e.t].node, s.conns[e.j].1), tok);
    CountAt(OfConns(tok), s.conns, e.j);
  }

  /** Writing the record of item `i` changes nothing that does not hold `i`. */
  lemma RecordOffQueue(s: State, i: Item, w: Work, tok: Token)
    requires Count(OfQueue(s.items, ItemTok(i)), s.queue) == 0
    ensures Count(OfQueue(s.items[i := w], tok), s.queue) == Count(OfQueue(s.items, tok), s.queue)
  {
    var items := s.items[i := w];
    forall e | e in s.queue
      ensures OfQueue(s.items, tok)(e) == OfQueue(items, tok)(e)
    {
      CountHas(OfQueue(s.items, ItemTok(i)), s.queue, e);
    }
    CountSame(OfQueue(items, tok), OfQueue(s.items, tok), s.queue);
  }

  lemma RecordOffHand(records: map<Item, Work>, row: seq<Receiver>, i: Item, w: Work, tok: Token)
    requires Count(OfReceivers(records, ItemTok(i)), row) == 0
    ensures Count(OfReceivers(records[i := w], tok), row) == Count(OfReceivers(records, tok), row)
  {
    var items := records[i := w];
    forall c | c in row
      ensures OfReceivers(records, tok)(c) == OfReceivers(items, tok)(c)
    {
      CountHas(OfReceivers(records, ItemTok(i)), row, c);
    }
    CountSame(OfReceivers(items, tok), OfReceivers(records, tok), row);
  }

  lemma AllocateStep(s: State, e: Step, tok: Token)
    requires Enabled(s, e) && e.Allocate? && Held(s, ItemTok(e.added)) == 0
    ensures Counted(s, e, tok)
  {
    SenderMoves(s, e.t, Holding(e.added), tok);
    RecordOffQueue(s, e.added, Work(-1, 0, 0), tok);
    RecordOffHand(s.items, s.receivers, e.added, Work(-1, 0, 0), tok);
  }

  lemma SendStep(s: State, e: Step, tok: Token)
    requires Enabled(s, e) && e.Send? && Held(s, ItemTok(s.senders[e.t].item)) <= 1
    ensures Counted(s, e, tok)
  {
    var c := s.senders[e.t];
    var w := Work(c.fd, c.node, s.submitted);
    var items := s.items[c.item := w];
    CountHas(OfSenders(ItemTok(c.item)), s.senders, c);
    RecordOffQueue(s, c.item, w, tok);
    RecordOffHand(s.items, s.receivers, c.item, w, tok);
    SenderMoves(s, e.t, Idle, tok);
    CountPush(OfQueue(items, tok), s.queue, Job(c.item));
    assert EntryHas(items, Job(c.item), tok) == SenderHas(c, tok) + One(tok == SubTok(s.submitted));
  }

  lemma PopStep(s: State, e: Step, tok: Token)
    requires Enabled(s, e) && e.Pop? && (EntryFd(s, s.queue[0]) == -1 ==> s.queue[0].Stop?)
    ensures Counted(s, e, tok)
  {
    ReceiverMoves(s, e.r, Apply(s, e).receivers[e.r], tok);
    CountTail(OfQueue(s.items, tok), s.queue);
  }

  lemma PostponeStep(s: State, e: Step, tok: Token)
    requires Enabled(s, e) && e.Postpone?
    ensures Counted(s, e, tok)
  {
    ReceiverMoves(s, e.r, Waiting, tok);
    CountPush(OfQueue(s.items, tok), s.queue, Job(s.receivers[e.r].item));
  }

  lemma CallFailStep(s: State, e: Step, tok: Token)
    requires Enabled(s, e) && e.CallFail?
    ensures Counted(s, e, tok)
  {
    var i := s.receivers[e.r].item;
    ReceiverMoves(s, e.r, Called(i), tok);
    CountPush(OfCalls(tok), s.calls, (s.items[i].sub, false));
  }

  lemma PutNodeStep(s: State, e: Step, tok: Token)
    requires Enabled(s, e) && e.PutNode?
    ensures Counted(s, e, tok)
  {
    ReceiverMoves(s, e.r, Released(s.receivers[e.r].item), tok);
  }

  lemma RecycleStep(s: State, e: Step, tok: Token)
    requires Enabled(s, e) && e.Recycle?
    ensures Counted(s, e, tok)
  {
    ReceiverMoves(s, e.r, Apply(s, e).receivers[e.r], tok);
    CountPush(OfPool(tok), s.pool, s.receivers[e.r].item);
  }

  lemma QueuedIsOpen(s: State, e: Entry)
    requires Inv(s) && e in s.queue && e.Job?
    ensures var w := WorkOf(s.items, e.item);
            e.item in s.items && w.fd in s.peer && s.peer[w.fd] == w.node && 0 <= w.fd
  {
    var w := WorkOf(s.items, e.item);
    CountHas(OfQueue(s.items, FdTok(w.fd, w.node)), s.queue, e);
    CountHas(OfQueue(s.items, ItemTok(e.item)), s.queue, e);
    assert Allowed(s, FdTok(w.fd, w.node), Held(s, FdTok(w.fd, w.node)));
    assert Allowed(s, ItemTok(e.item), Held(s, ItemTok(e.item)));
  }

  /** A socket in flight is open, to the node its item names. */
  lemma ReadingIsOpen(s: State, r: nat)
    requires Inv(s) && r < |s.receivers| && s.receivers[r].Reading?
    ensures var w := WorkOf(s.items, s.receivers[r].item);
            s.receivers[r].item in s.items && w.fd in s.peer && s.peer[w.fd] == w.node && 0 <= w.fd
  {
    var i := s.receivers[r].item;
    var w := WorkOf(s.items, i);
    CountHas(OfReceivers(s.items, FdTok(w.fd, w.node)), s.receivers, s.receivers[r]);
    CountHas(OfReceivers(s.items, ItemTok(i)), s.receivers, s.receivers[r]);
    assert Allowed(s, FdTok(w.fd, w.node), Held(s, FdTok(w.fd, w.node)));
    assert Allowed(s, ItemTok(i), Held(s, ItemTok(i)));
  }

  lemma CallOkStep(s: State, e: Step, tok: Token)
    requires Enabled(s, e) && e.CallOk? && s.items[s.receivers[e.r].item].fd != -1
    ensures Counted(s, e, tok)
  {
    var i := s.receivers[e.r].item;
    ReceiverMoves(s, e.r, Called(i), tok);
    CountPush(OfCalls(tok), s.calls, (s.items[i].sub, true));
    assert ReceiverHas(s.items, Reading(i), tok) ==
           ReceiverHas(s.items, Called(i), tok) + One(tok == Load) + One(tok == SubTok(s.items[i].sub));
  }

  lemma PutFdStep(s: State, e: Step, tok: Token)
    requires Enabled(s, e) && e.PutFd?
    ensures Counted(s, e, tok)
  {
    var i := s.receivers[e.r].item;
    ReceiverMoves(s, e.r, Detached(i), tok);
    CountPush(OfConns(tok), s.conns, (s.items[i].node, s.items[i].fd));
  }

  lemma FailStep(s: State, e: Step, tok: Token)
    requires Enabled(s, e) && e.Fail? && Held(s, ItemTok(s.receivers[e.r].item)) <= 1
    requires s.items[s.receivers[e.r].item].fd != -1
    ensures Counted(s, e, tok)
  {
    var i := s.receivers[e.r].item;
    var w := s.items[i].(fd := -1);
    var items := s.items[i := w];
    var row := s.receivers[e.r := Waiting];
    ReceiverMoves(s, e.r, Waiting, ItemTok(i));
    RecordOffQueue(s, i, w, tok);
    RecordOffHand(s.items, row, i, w, tok);
    ReceiverMoves(s, e.r, Waiting, tok);
    CountSet(OfReceivers(items, tok), row, e.r, Failing(i));
    assert row[e.r := Failing(i)] == s.receivers[e.r := Failing(i)];
    assert ReceiverHas(s.items, Reading(i), tok) ==
           ReceiverHas(items, Failing(i), tok) + One(tok == Load) + One(tok == FdTok(s.items[i].fd, w.node));
  }

  /** Conservation: a step changes what is held by exactly what it acquires or gives
      up; everything else only changes hands. */
  lemma StepConserves(s: State, e: Step, tok: Token)
    requires Inv(s) && Enabled(s, e)
    ensures Held(Apply(s, e), tok) == Held(s, tok) + Change(s, e, tok)
  {
    match e
    case Admit(_) => AdmitStep(s, e, tok);
    case TakePooled(_) => TakePooledStep(s, e, tok);
    case Allocate(_, added) =>
      assert Allowed(s, ItemTok(added), Held(s, ItemTok(added)));
      AllocateStep(s, e, tok);
    case PickNode(_, _) => PickNodeStep(s, e, tok);
    case GiveUp(_) => GiveUpStep(s, e, tok);
    case PopConn(_, _) => PopConnStep(s, e, tok);
    case OpenConn(_, _) => OpenConnStep(s, e, tok);
    case NoConn(_) => NoConnStep(s, e, tok);
    case WriteFails(_) => WriteFailsStep(s, e, tok);
    case Send(t) =>
      assert Allowed(s, ItemTok(s.senders[t].item), Held(s, ItemTok(s.senders[t].item)));
      SendStep(s, e, tok);
    case Pop(_) =>
      if s.queue[0].Job? { QueuedIsOpen(s, s.queue[0]); }
      PopStep(s, e, tok);
    case Postpone(_) => PostponeStep(s, e, tok);
    case Fail(r) =>
      ReadingIsOpen(s, r);
      assert Allowed(s, ItemTok(s.receivers[r].item), Held(s, ItemTok(s.receivers[r].item)));
      FailStep(s, e, tok);
    case CallFail(_) => CallFailStep(s, e, tok);
    case CallOk(r) =>
      ReadingIsOpen(s, r);
      CallOkStep(s, e, tok);
    case PutFd(_) => PutFdStep(s, e, tok);
    case PutNode(_) => PutNodeStep(s, e, tok);
    case Recycle(_, _) => RecycleStep(s, e, tok);
    case Shutdown => CountPush(OfQueue(s.items, tok), s.queue, Stop);
  }

  // ---------------------------------------------------------------------------
  // Every step keeps the invariant
  // ---------------------------------------------------------------------------

  lemma {:induction false} CountAtMost<A(!new)>(f: A -> nat, xs: seq<A>)
    requires forall x :: x in xs ==> f(x) <= 1
    ensures Count(f, xs) <= |xs|
  {
    if xs == [] {
      CountEmpty(f, xs);
    } else {
      CountFirst(f, xs);
      CountAtMost(f, xs[1..]);
    }
  }

  lemma {:induction false} CountNone<A(!new)>(f: A -> nat, xs: seq<A>)
    requires forall x :: x in xs ==> f(x) == 0
    ensures Count(f, xs) == 0
  {
    if xs == [] {
      CountEmpty(f, xs);
    } else {
      CountFirst(f, xs);
      CountNone(f, xs[1..]);
    }
  }

  /** A sender that has not been admitted carries no load, so at most the other senders do. */
  lemma OthersLoad(s: State, t: nat)
    requires t < |s.senders| && s.senders[t].Idle?
    ensures Count(OfSenders(Load), s.senders) < |s.senders|
  {
    CountAt(OfSenders(Load), s.senders, t);
    CountAtMost(OfSenders(Load), s.senders[..t] + s.senders[t + 1..]);
  }

  lemma LoadIsBounded(s: State, t: nat)
    requires t < |s.senders| && s.senders[t].Idle? && |s.queue| < s.limit
    ensures Held(s, Load) + 1 < s.limit + |s.senders| + |s.receivers|
  {
    OthersLoad(s, t);
    CountAtMost(OfQueue(s.items, Load), s.queue);
    CountAtMost(OfReceivers(s.items, Load), s.receivers);
    CountNone(OfPool(Load), s.pool);
    CountNone(OfConns(Load), s.conns);
    CountNone(OfCalls(Load), s.calls);
  }

  lemma OnlyAdmitLoads(s: State, e: Step)
    requires Enabled(s, e)
    ensures Change(s, e, Load) <= if e.Admit? && |s.queue| < s.limit then 1 else 0
  {
  }

  lemma LoadAllowed(s: State, e: Step, count: nat)
    requires Enabled(s, e) && Allowed(s, Load, count) && count + Change(s, e, Load) >= 0
    requires e.Admit? && |s.queue| < s.limit ==> count + 1 < s.limit + |s.senders| + |s.receivers|
    ensures Allowed(Apply(s, e), Load, count + Change(s, e, Load))
  {
    OnlyAdmitLoads(s, e);
  }

  lemma ItemAllowed(s: State, e: Step, tok: Token, count: nat)
    requires Enabled(s, e) && tok.ItemTok? && Allowed(s, tok, count) && count + Change(s, e, tok) >= 0
    ensures Allowed(Apply(s, e), tok, count + Change(s, e, tok))
  {
  }

  lemma RefTaken(s: State, e: Step, n: Node)
    requires Enabled(s, e) && e.PickNode?
    ensures Apply(s, e).refs[n] == s.refs[n] + Change(s, e, RefTok(n))
  {
  }

  lemma RefDropped(s: State, e: Step, n: Node)
    requires Enabled(s, e) && (e.NoConn? || e.WriteFails? || e.PutNode?) && s.refs[n] + Change(s, e, RefTok(n)) >= 0
    ensures Apply(s, e).refs[n] == s.refs[n] + Change(s, e, RefTok(n))
  {
  }

  lemma RefUntouched(s: State, e: Step, n: Node)
    requires Enabled(s, e) && !e.PickNode? && !(e.NoConn? || e.WriteFails? || e.PutNode?)
    ensures Apply(s, e).refs[n] == s.refs[n] && Change(s, e, RefTok(n)) == 0
  {
  }

  lemma RefAllowed(s: State, e: Step, tok: Token, count: nat)
    requires Enabled(s, e) && tok.RefTok? && Allowed(s, tok, count) && count + Change(s, e, tok) >= 0
    ensures Allowed(Apply(s, e), tok, count + Change(s, e, tok))
  {
    if e.PickNode? {
      RefTaken(s, e, tok.refNode);
    } else if e.NoConn? || e.WriteFails? || e.PutNode? {
      RefDropped(s, e, tok.refNode);
    } else {
      RefUntouched(s, e, tok.refNode);
    }
  }

  lemma OnlySendSubmits(s: State, e: Step)
    requires Enabled(s, e)
    ensures Apply(s, e).submitted == if e.Send? then s.submitted + 1 else s.submitted
  {
  }

  lemma OnlySendAddsDuty(s: State, e: Step, sub: nat)
    requires Enabled(s, e)
    ensures Change(s, e, SubTok(sub)) == if e.Send? && sub == s.submitted then 1 else 0
  {
  }

  lemma SubAllowed(s: State, e: Step, tok: Token, count: nat)
    requires Enabled(s, e) && tok.SubTok? && Allowed(s, tok, count) && count + Change(s, e, tok) >= 0
    ensures Allowed(Apply(s, e), tok, count + Change(s, e, tok))
  {
    OnlySendSubmits(s, e);
    OnlySendAddsDuty(s, e, tok.sub);
  }

  /** The socket a step closes. */
  ghost predicate ClosesOpenSocket(s: State, e: Step)
    requires Enabled(s, e)
  {
    match e
    case WriteFails(t) => s.senders[t].fd in s.peer && s.peer[s.senders[t].fd] == s.senders[t].node
    case Fail(r) =>
      var w := s.items[s.receivers[r].item];
      w.fd in s.peer && s.peer[w.fd] == w.node
    case _ => true
  }

  lemma NoSocketTaken(s: State, e: Step, tok: Token)
    requires Enabled(s, e) && !MovesSockets(e) && tok.FdTok?
    ensures Change(s, e, tok) == 0
  {
  }

  lemma FdAllowed(s: State, e: Step, tok: Token, count: nat)
    requires Enabled(s, e) && tok.FdTok? && Allowed(s, tok, count) && count + Change(s, e, tok) >= 0
    requires ClosesOpenSocket(s, e)
    ensures Allowed(Apply(s, e), tok, count + Change(s, e, tok))
  {
    if !MovesSockets(e) {
      NoSocketTaken(s, e, tok);
    } else if e.OpenConn? {
      assert Apply(s, e).peer == s.peer[e.fd := s.senders[e.t].node];
    } else if e.WriteFails? {
      assert Apply(s, e).peer == s.peer - {s.senders[e.t].fd};
    } else {
      assert Apply(s, e).peer == s.peer - {s.items[s.receivers[e.r].item].fd};
    }
  }

  lemma ClosesOnlyOpen(s: State, e: Step)
    requires Inv(s) && Enabled(s, e)
    ensures ClosesOpenSocket(s, e)
  {
    match e
    case WriteFails(t) =>
      var f, n := s.senders[t].fd, s.senders[t].node;
      CountHas(OfSenders(FdTok(f, n)), s.senders, s.senders[t]);
      assert Allowed(s, FdTok(f, n), Held(s, FdTok(f, n)));
    case Fail(r) => ReadingIsOpen(s, r);
    case _ =>
  }

  /** What a step acquires or gives up is what its new state allows. */
  lemma StepAllows(s: State, e: Step, tok: Token)
    requires Inv(s) && Enabled(s, e)
    ensures Allowed(Apply(s, e), tok, Held(Apply(s, e), tok))
  {
    StepConserves(s, e, tok);
    assert Allowed(s, tok, Held(s, tok));
    match tok
    case ItemTok(_) => ItemAllowed(s, e, tok, Held(s, tok));
    case FdTok(_, _) =>
      ClosesOnlyOpen(s, e);
      FdAllowed(s, e, tok, Held(s, tok));
    case RefTok(_) => RefAllowed(s, e, tok, Held(s, tok));
    case SubTok(_) => SubAllowed(s, e, tok, Held(s, tok));
    case Load =>
      if e.Admit? && |s.queue| < s.limit { LoadIsBounded(s, e.t); }
      LoadAllowed(s, e, Held(s, Load));
  }

  lemma StepKeeps(s: State, e: Step)
    requires Inv(s) && Enabled(s, e)
    ensures Inv(Apply(s, e))
  {
    forall tok
      ensures Allowed(Apply(s, e), tok, Held(Apply(s, e), tok))
    {
      StepAllows(s, e, tok);
    }
  }

  // ---------------------------------------------------------------------------
  // Runs
  // ---------------------------------------------------------------------------

  /** After `citrusleaf_async_init`: nothing submitted, every thread at rest. */
  ghost predicate Init(s: State)
  {
    && 1 <= s.limit
    && s.items == map[] && s.pool == [] && s.queue == [] && s.conns == [] && s.peer == map[]
    && s.refs == multiset{} && s.calls == [] && s.submitted == 0 && s.sent == []
    && (forall c :: c in s.senders ==> c == Idle)
    && (forall c :: c in s.receivers ==> c == Waiting)
  }

  ghost predicate Follows(s: State, e: Step, t: State)
  {
    Enabled(s, e) && t == Apply(s, e)
  }

  ghost predicate Next(s: State, t: State)
  {
    exists e :: Follows(s, e, t)
  }

  /** An interleaving of the threads. */
  ghost predicate IsRun(run: seq<State>)
  {
    && run != []
    && Init(run[0])
    && forall k :: 0 <= k < |run| - 1 ==> Next(run[k], run[k + 1])
  }

  lemma InitHolds(s: State)
    requires Init(s)
    ensures Inv(s)
  {
    forall tok
      ensures Allowed(s, tok, Held(s, tok))
    {
      CountNone(OfPool(tok), s.pool);
      CountNone(OfQueue(s.items, tok), s.queue);
      CountNone(OfSenders(tok), s.senders);
      CountNone(OfReceivers(s.items, tok), s.receivers);
      CountNone(OfConns(tok), s.conns);
      CountNone(OfCalls(tok), s.calls);
    }
  }

  lemma NextKeeps(s: State, t: State)
    requires Next(s, t) && Inv(s)
    ensures Inv(t)
  {
    var e :| Follows(s, e, t);
    StepKeeps(s, e);
  }

  lemma {:induction false} RunKeeps(run: seq<State>)
    requires IsRun(run)
    ensures Inv(run[|run| - 1])
  {
    if |run| == 1 {
      InitHolds(run[0]);
    } else {
      var k := |run| - 1;
      RunKeeps(run[..k]);
      NextKeeps(run[k - 1], run[k]);
    }
  }

  ghost predicate Reachable(s: State)
  {
    exists run :: IsRun(run) && run[|run| - 1] == s
  }

  lemma ReachableInv(s: State)
    requires Reachable(s)
    ensures Inv(s)
  {
    var run :| IsRun(run) && run[|run| - 1] == s;
    RunKeeps(run);
  }

  // ---------------------------------------------------------------------------
  // What the invariant means
  // ---------------------------------------------------------------------------

  /** A place that can hold things. */
  datatype Place =
    | InPool(k: nat)
    | InQueue(k: nat)
    | AtSender(k: nat)
    | AtReceiver(k: nat)
    | InConns(k: nat)
    | InCalls(k: nat)

  ghost predicate IsPlace(s: State, p: Place)
  {
    match p
    case InPool(k) => k < |s.pool|
    case InQueue(k) => k < |s.queue|
    case AtSender(k) => k < |s.senders|
    case AtReceiver(k) => k < |s.receivers|
    case InConns(k) => k < |s.conns|
    case InCalls(k) => k < |s.calls|
  }

  /** How often the holder at `p` holds `tok`. */
  ghost function HeldAt(s: State, p: Place, tok: Token): nat
    requires IsPlace(s, p)
  {
    match p
    case InPool(k) => PoolHas(s.pool[k], tok)
    case InQueue(k) => EntryHas(s.items, s.queue[k], tok)
    case AtSender(k) => SenderHas(s.senders[k], tok)
    case AtReceiver(k) => ReceiverHas(s.items, s.receivers[k], tok)
    case InConns(k) => OfConns(tok)(s.conns[k])
    case InCalls(k) => OfCalls(tok)(s.calls[k])
  }

  /** What is held by the places of the kind of `p`. */
  ghost function RowHolds(s: State, p: Place, tok: Token): nat
  {
    match p
    case InPool(_) => Count(OfPool(tok), s.pool)
    case InQueue(_) => Count(OfQueue(s.items, tok), s.queue)
    case AtSender(_) => Count(OfSenders(tok), s.senders)
    case AtReceiver(_) => Count(OfReceivers(s.items, tok), s.receivers)
    case InConns(_) => Count(OfConns(tok), s.conns)
    case InCalls(_) => Count(OfCalls(tok), s.calls)
  }

  lemma PlaceInRow(s: State, p: Place, tok: Token)
    requires IsPlace(s, p)
    ensures HeldAt(s, p, tok) <= RowHolds(s, p, tok) <= Held(s, tok)
  {
    match p
    case InPool(k) => CountHas(OfPool(tok), s.pool, s.pool[k]);
    case InQueue(k) => CountHas(OfQueue(s.items, tok), s.queue, s.queue[k]);
    case AtSender(k) => CountHas(OfSenders(tok), s.senders, s.senders[k]);
    case AtReceiver(k) => CountHas(OfReceivers(s.items, tok), s.receivers, s.receivers[k]);
    case InConns(k) => CountHas(OfConns(tok), s.conns, s.conns[k]);
    case InCalls(k) => CountHas(OfCalls(tok), s.calls, s.calls[k]);
  }

  ghost predicate SameRow(p: Place, q: Place)
  {
    match p
    case InPool(_) => q.InPool?
    case InQueue(_) => q.InQueue?
    case AtSender(_) => q.AtSender?
    case AtReceiver(_) => q.AtReceiver?
    case InConns(_) => q.InConns?
    case InCalls(_) => q.InCalls?
  }

  lemma TwoInRow(s: State, p: Place, q: Place, tok: Token)
    requires IsPlace(s, p) && IsPlace(s, q) && SameRow(p, q) && p.k < q.k
    ensures HeldAt(s, p, tok) + HeldAt(s, q, tok) <= Held(s, tok)
  {
    match p
    case InPool(k) => CountTwo(OfPool(tok), s.pool, k, q.k);
    case InQueue(k) => CountTwo(OfQueue(s.items, tok), s.queue, k, q.k);
    case AtSender(k) => CountTwo(OfSenders(tok), s.senders, k, q.k);
    case AtReceiver(k) => CountTwo(OfReceivers(s.items, tok), s.receivers, k, q.k);
    case InConns(k) => CountTwo(OfConns(tok), s.conns, k, q.k);
    case InCalls(k) => CountTwo(OfCalls(tok), s.calls, k, q.k);
  }

  lemma TwoPlaces(s: State, p: Place, q: Place, tok: Token)
    requires IsPlace(s, p) && IsPlace(s, q) && p != q
    ensures HeldAt(s, p, tok) + HeldAt(s, q, tok) <= Held(s, tok)
  {
    if SameRow(p, q) {
      if p.k < q.k { TwoInRow(s, p, q, tok); } else { TwoInRow(s, q, p, tok); }
    } else {
      PlaceInRow(s, p, tok);
      PlaceInRow(s, q, tok);
    }
  }

  lemma OneHolder(s: State, p: Place, q: Place, tok: Token)
    requires Inv(s) && IsPlace(s, p) && IsPlace(s, q) && (tok.ItemTok? || tok.FdTok? || tok.SubTok?)
    requires HeldAt(s, p, tok) > 0 && HeldAt(s, q, tok) > 0
    ensures p == q && HeldAt(s, p, tok) == 1
  {
    assert Allowed(s, tok, Held(s, tok));
    if p != q {
      TwoPlaces(s, p, q, tok);
    }
    PlaceInRow(s, p, tok);
  }

  /** In every reachable state a work item, a socket and the duty to call back a
      submission each have one owner at most. */
  lemma OneOwner(s: State, p: Place, q: Place, tok: Token)
    requires Reachable(s) && IsPlace(s, p) && IsPlace(s, q) && (tok.ItemTok? || tok.FdTok? || tok.SubTok?)
    requires HeldAt(s, p, tok) > 0 && HeldAt(s, q, tok) > 0
    ensures p == q && HeldAt(s, p, tok) == 1
  {
    ReachableInv(s);
    OneHolder(s, p, q, tok);
  }

  /** A socket is open exactly when somebody holds it, and then one holder does, with
      the node it is connected to; no closed socket is kept anywhere. */
  lemma SocketsAreOpen(s: State, p: Place, fd: Fd, n: Node)
    requires Reachable(s) && IsPlace(s, p) && HeldAt(s, p, FdTok(fd, n)) > 0
    ensures 0 <= fd && fd in s.peer && s.peer[fd] == n
  {
    ReachableInv(s);
    PlaceInRow(s, p, FdTok(fd, n));
    assert Allowed(s, FdTok(fd, n), Held(s, FdTok(fd, n)));
  }

  lemma OpenSocketsAreHeld(s: State, fd: Fd)
    requires Reachable(s) && fd in s.peer
    ensures Held(s, FdTok(fd, s.peer[fd])) == 1
  {
    ReachableInv(s);
    assert Allowed(s, FdTok(fd, s.peer[fd]), Held(s, FdTok(fd, s.peer[fd])));
  }

  /** No ordinary queued item can be taken for the shutdown message: its socket is open,
      to its own node. */
  lemma QueuedItemsAreNotSentinels(s: State, k: nat)
    requires Reachable(s) && k < |s.queue|
    ensures EntryFd(s, s.queue[k]) == -1 <==> s.queue[k] == Stop
    ensures s.queue[k].Job? ==>
              var fd := EntryFd(s, s.queue[k]);
              fd in s.peer && s.queue[k].item in s.items && s.peer[fd] == s.items[s.queue[k].item].node
  {
    ReachableInv(s);
    if s.queue[k].Job? {
      QueuedIsOpen(s, s.queue[k]);
    }
  }

  /** A node's references from the pipeline are the requests that hold one. */
  lemma ReferencesAreHeld(s: State, n: Node)
    requires Reachable(s)
    ensures s.refs[n] == Held(s, RefTok(n))
  {
    ReachableInv(s);
    assert Allowed(s, RefTok(n), Held(s, RefTok(n)));
  }

  ghost predicate IsOrdinary(e: Entry)
  {
    e.Job?
  }

  ghost function Jobs(queue: seq<Entry>): nat
  {
    Count(e => One(IsOrdinary(e)), queue)
  }

  /** The bound on the queue that the unlocked limit check leaves. */
  lemma QueueIsBounded(s: State)
    requires Reachable(s)
    ensures Jobs(s.queue) <= s.limit - 1 + |s.senders| + |s.receivers|
  {
    ReachableInv(s);
    assert Allowed(s, Load, Held(s, Load));
    CountSame(e => One(IsOrdinary(e)), OfQueue(s.items, Load), s.queue);
  }

  /** No submission is ever answered twice, whatever the answers. */
  lemma NoSecondCallback(s: State, j: nat, k: nat)
    requires Reachable(s) && j < k < |s.calls|
    ensures s.calls[j].0 != s.calls[k].0
    ensures s.calls[j].0 < s.submitted
  {
    ReachableInv(s);
    var tok := SubTok(s.calls[j].0);
    assert Allowed(s, tok, Held(s, tok));
    TwoPlaces(s, InCalls(j), InCalls(k), tok);
    PlaceInRow(s, InCalls(j), tok);
  }

  /** Submission `sub` is still in the hands of the queue or of a receiver that has not
      called back. */
  ghost predicate Pending(s: State, sub: nat)
  {
    || (exists i :: Job(i) in s.queue && WorkOf(s.items, i).sub == sub)
    || (exists i :: Reading(i) in s.receivers && WorkOf(s.items, i).sub == sub)
    || (exists i :: Failing(i) in s.receivers && WorkOf(s.items, i).sub == sub)
  }

  ghost predicate Answered(s: State, sub: nat)
  {
    exists k :: 0 <= k < |s.calls| && s.calls[k].0 == sub
  }

  lemma {:induction false} CountFinds<A(!new)>(f: A -> nat, xs: seq<A>) returns (k: nat)
    requires Count(f, xs) > 0
    ensures k < |xs| && f(xs[k]) > 0
  {
    if xs == [] {
      CountEmpty(f, xs);
    } else {
      CountFirst(f, xs);
    }
    if f(xs[0]) > 0 {
      k := 0;
    } else {
      k := CountFinds(f, xs[1..]);
      k := k + 1;
    }
  }

  lemma PendingIsHeld(s: State, sub: nat)
    requires Pending(s, sub)
    ensures Count(OfQueue(s.items, SubTok(sub)), s.queue) + Count(OfReceivers(s.items, SubTok(sub)), s.receivers) > 0
  {
    if i :| Job(i) in s.queue && WorkOf(s.items, i).sub == sub {
      CountHas(OfQueue(s.items, SubTok(sub)), s.queue, Job(i));
    } else if i :| Reading(i) in s.receivers && WorkOf(s.items, i).sub == sub {
      CountHas(OfReceivers(s.items, SubTok(sub)), s.receivers, Reading(i));
    } else {
      var i :| Failing(i) in s.receivers && WorkOf(s.items, i).sub == sub;
      CountHas(OfReceivers(s.items, SubTok(sub)), s.receivers, Failing(i));
    }
  }

  lemma HeldIsPending(s: State, sub: nat)
    requires Held(s, SubTok(sub)) > 0 && !Answered(s, sub)
    ensures Pending(s, sub)
  {
    var tok := SubTok(sub);
    CountNone(OfPool(tok), s.pool);
    CountNone(OfSenders(tok), s.senders);
    CountNone(OfConns(tok), s.conns);
    CountNone(OfCalls(tok), s.calls);
    if Count(OfQueue(s.items, tok), s.queue) > 0 {
      var k := CountFinds(OfQueue(s.items, tok), s.queue);
      assert Job(s.queue[k].item) in s.queue;
    } else {
      var k := CountFinds(OfReceivers(s.items, tok), s.receivers);
      var c := s.receivers[k];
      assert c.Reading? || c.Failing?;
      assert if c.Reading? then Reading(c.item) in s.receivers else Failing(c.item) in s.receivers;
    }
  }

  /** Every submission that was sent is pending or answered, never both: a work item
      leaves the receivers, other than by going back to the queue, through exactly one
      callback. */
  lemma ExactlyOneCallback(s: State, sub: nat)
    requires Reachable(s) && sub < s.submitted
    ensures Answered(s, sub) <==> !Pending(s, sub)
  {
    ReachableInv(s);
    var tok := SubTok(sub);
    assert Allowed(s, tok, Held(s, tok));
    if Answered(s, sub) {
      var k :| 0 <= k < |s.calls| && s.calls[k].0 == sub;
      PlaceInRow(s, InCalls(k), tok);
      if Pending(s, sub) { PendingIsHeld(s, sub); }
    } else {
      HeldIsPending(s, sub);
    }
  }

  // ---------------------------------------------------------------------------
  // What a callback tells
  // ---------------------------------------------------------------------------

  /** The item records the submission, the socket and the node its request went out on. */
  ghost predicate OnItsSocket(items: map<Item, Work>, sent: seq<(Fd, Node)>, i: Item)
  {
    i in items && items[i].sub < |sent| && sent[items[i].sub] == (items[i].fd, items[i].node)
  }

  /** The item's socket was closed. */
  ghost predicate SocketGone(items: map<Item, Work>, sent: seq<(Fd, Node)>, i: Item)
  {
    i in items && items[i].sub < |sent| && items[i].fd == -1 && sent[items[i].sub].1 == items[i].node
  }

  ghost predicate EntryTells(items: map<Item, Work>, sent: seq<(Fd, Node)>, e: Entry)
  {
    e.Job? ==> OnItsSocket(items, sent, e.item)
  }

  ghost predicate ReceiverTells(items: map<Item, Work>, sent: seq<(Fd, Node)>, calls: seq<(nat, bool)>, c: Receiver)
  {
    match c
    case Reading(i) => OnItsSocket(items, sent, i)
    case Failing(i) => SocketGone(items, sent, i)
    case Called(i) =>
      || (OnItsSocket(items, sent, i) && items[i].fd != -1 && (items[i].sub, true) in calls)
      || (SocketGone(items, sent, i) && (items[i].sub, false) in calls)
    case _ => true
  }

  ghost predicate HistoryTells(s: State)
  {
    && |s.sent| == s.submitted
    && (forall e :: e in s.queue ==> EntryTells(s.items, s.sent, e))
    && (forall c :: c in s.receivers ==> ReceiverTells(s.items, s.sent, s.calls, c))
  }

  ghost function ItemOf(c: Receiver): Option<Item>
  {
    match c
    case Waiting => None
    case Reading(i) => Some(i)
    case Failing(i) => Some(i)
    case Called(i) => Some(i)
    case Detached(i) => Some(i)
    case Released(i) => Some(i)
    case Exited => None
  }

  /** No queue entry and no receiver but the holder itself has the holder's item. */
  lemma NobodyElse(s: State, p: Place, i: Item)
    requires Inv(s) && IsPlace(s, p) && HeldAt(s, p, ItemTok(i)) > 0
    ensures !p.InQueue? ==> forall e :: e in s.queue && e.Job? ==> e.item != i
    ensures forall k :: 0 <= k < |s.receivers| && p != AtReceiver(k) ==> ItemOf(s.receivers[k]) != Some(i)
  {
    if !p.InQueue? {
      forall e | e in s.queue && e.Job? ensures e.item != i
      {
        var k :| 0 <= k < |s.queue| && s.queue[k] == e;
        if e.item == i { OneHolder(s, p, InQueue(k), ItemTok(i)); }
      }
    }
    forall k | 0 <= k < |s.receivers| && p != AtReceiver(k) ensures ItemOf(s.receivers[k]) != Some(i)
    {
      if ItemOf(s.receivers[k]) == Some(i) { OneHolder(s, p, AtReceiver(k), ItemTok(i)); }
    }
  }

  lemma EntryStillTells(items: map<Item, Work>, sent: seq<(Fd, Node)>, i: Item, w: Work, x: seq<(Fd, Node)>, e: Entry)
    requires EntryTells(items, sent, e) && (e.Job? ==> e.item != i)
    ensures EntryTells(items[i := w], sent + x, e)
  {
  }

  lemma ReceiverStillTells(items: map<Item, Work>, sent: seq<(Fd, Node)>, calls: seq<(nat, bool)>, i: Item, w: Work,
                           x: seq<(Fd, Node)>, y: seq<(nat, bool)>, c: Receiver)
    requires ReceiverTells(items, sent, calls, c) && ItemOf(c) != Some(i)
    ensures ReceiverTells(items[i := w], sent + x, calls + y, c)
  {
  }

  lemma SendTells(s: State, e: Step)
    requires Inv(s) && HistoryTells(s) && Enabled(s, e) && e.Send?
    ensures HistoryTells(Apply(s, e))
  {
    var t, c := Apply(s, e), s.senders[e.t];
    var w := Work(c.fd, c.node, s.submitted);
    NobodyElse(s, AtSender(e.t), c.item);
    forall x | x in t.queue ensures EntryTells(t.items, t.sent, x)
    {
      if x in s.queue { EntryStillTells(s.items, s.sent, c.item, w, [(c.fd, c.node)], x); }
    }
    forall x | x in t.receivers ensures ReceiverTells(t.items, t.sent, t.calls, x)
    {
      ReceiverStillTells(s.items, s.sent, s.calls, c.item, w, [(c.fd, c.node)], [], x);
      assert s.calls + [] == s.calls;
    }
  }

  lemma FailTells(s: State, e: Step)
    requires Inv(s) && HistoryTells(s) && Enabled(s, e) && e.Fail?
    ensures HistoryTells(Apply(s, e))
  {
    var t, i := Apply(s, e), s.receivers[e.r].item;
    var w := s.items[i].(fd := -1);
    NobodyElse(s, AtReceiver(e.r), i);
    assert s.receivers[e.r] in s.receivers;
    assert s.sent + [] == s.sent && s.calls + [] == s.calls;
    forall x | x in t.queue ensures EntryTells(t.items, t.sent, x)
    {
      EntryStillTells(s.items, s.sent, i, w, [], x);
    }
    forall x | x in t.receivers ensures ReceiverTells(t.items, t.sent, t.calls, x)
    {
      var k :| 0 <= k < |t.receivers| && t.receivers[k] == x;
      if k != e.r { ReceiverStillTells(s.items, s.sent, s.calls, i, w, [], [], x); }
    }
  }

  lemma AllocateTells(s: State, e: Step)
    requires Inv(s) && HistoryTells(s) && Enabled(s, e) && e.Allocate?
    ensures HistoryTells(Apply(s, e))
  {
    var t := Apply(s, e);
    forall x | x in t.queue ensures EntryTells(t.items, t.sent, x)
    {
      assert EntryTells(s.items, s.sent, x);
    }
    forall x | x in t.receivers ensures ReceiverTells(t.items, t.sent, t.calls, x)
    {
      assert ReceiverTells(s.items, s.sent, s.calls, x);
    }
  }

  lemma CallTells(s: State, e: Step)
    requires Inv(s) && HistoryTells(s) && Enabled(s, e) && (e.CallOk? || e.CallFail?)
    ensures HistoryTells(Apply(s, e))
  {
    var t := Apply(s, e);
    if e.CallOk? { ReadingIsOpen(s, e.r); }
    assert s.receivers[e.r] in s.receivers;
    forall x | x in t.receivers ensures ReceiverTells(t.items, t.sent, t.calls, x)
    {
      if x in s.receivers { assert ReceiverTells(s.items, s.sent, s.calls, x); }
    }
  }

  /** Every other step leaves records and history alone and only passes items on. */
  lemma OtherTells(s: State, e: Step)
    requires Inv(s) && HistoryTells(s) && Enabled(s, e)
    requires !WritesRecords(e)
    ensures HistoryTells(Apply(s, e))
  {
    var t := Apply(s, e);
    if e.Postpone? { assert s.receivers[e.r] in s.receivers; }
    if e.Pop? { assert s.queue[0] in s.queue; }
    forall x | x in t.queue ensures EntryTells(t.items, t.sent, x)
    {
      assert x in s.queue || x == Stop || (e.Postpone? && x == Job(s.receivers[e.r].item));
    }
    forall x | x in t.receivers ensures ReceiverTells(t.items, t.sent, t.calls, x)
    {
      assert x in s.receivers || (x.Reading? && e.Pop? && s.queue[0] == Job(x.item))
             || x.Waiting? || x.Exited? || x.Detached? || x.Released?;
    }
  }

  lemma StepTells(s: State, e: Step)
    requires Inv(s) && HistoryTells(s) && Enabled(s, e)
    ensures HistoryTells(Apply(s, e))
  {
    match e
    case Send(_) => SendTells(s, e);
    case Fail(_) => FailTells(s, e);
    case Allocate(_, _) => AllocateTells(s, e);
    case CallOk(_) => CallTells(s, e);
    case CallFail(_) => CallTells(s, e);
    case _ => OtherTells(s, e);
  }

  lemma {:induction false} RunTells(run: seq<State>)
    requires IsRun(run)
    ensures HistoryTells(run[|run| - 1])
  {
    if |run| > 1 {
      var k := |run| - 1;
      RunTells(run[..k]);
      RunKeeps(run[..k]);
      var e :| Follows(run[k - 1], e, run[k]);
      StepTells(run[k - 1], e);
    }
  }

  lemma ReachableTells(s: State)
    requires Reachable(s)
    ensures Inv(s) && HistoryTells(s)
  {
    ReachableInv(s);
    var run :| IsRun(run) && run[|run| - 1] == s;
    RunTells(run);
  }

  /** Receiver `r` calls back for `sub`, the submission of its item: with success if it has
      read the reply, on the open socket the request was written to, and with failure if
      that socket is gone. */
  ghost predicate TellsTrue(s: State, t: State, r: nat, i: Item, ok: bool)
  {
    && r < |s.receivers| && i in s.items && s.items[i].sub < |s.sent|
    && t.calls == s.calls + [(s.items[i].sub, ok)] && t.receivers == s.receivers[r := Called(i)]
    && s.receivers[r] == (if ok then Reading(i) else Failing(i))
    && if ok then s.items[i].fd in s.peer && s.sent[s.items[i].sub] == (s.items[i].fd, s.peer[s.items[i].fd])
       else s.items[i].fd == -1
  }

  /** In every run the answer of a callback is true. */
  lemma CallbacksTellTruth(s: State, e: Step)
    requires Reachable(s) && Enabled(s, e) && Apply(s, e).calls != s.calls
    ensures exists r, i, ok :: TellsTrue(s, Apply(s, e), r, i, ok)
  {
    ReachableTells(s);
    assert e.CallOk? || e.CallFail?;
    var i := s.receivers[e.r].item;
    assert s.receivers[e.r] in s.receivers;
    if e.CallOk? {
      ReadingIsOpen(s, e.r);
      assert TellsTrue(s, Apply(s, e), e.r, i, true);
    } else {
      assert TellsTrue(s, Apply(s, e), e.r, i, false);
    }
  }

  /** A receiver comes to fail an item only by closing the socket its request went out on,
      which was open. */
  lemma FailingClosedTheSocket(s: State, e: Step, r: nat)
    requires Reachable(s) && Enabled(s, e) && r < |s.receivers|
    requires Apply(s, e).receivers[r].Failing? && s.receivers[r] != Apply(s, e).receivers[r]
    ensures s.receivers[r].Reading? && s.receivers[r].item in s.items
    ensures var t, w := Apply(s, e), s.items[s.receivers[r].item];
            && w.sub < |s.sent| && s.sent[w.sub] == (w.fd, w.node) && w.fd in s.peer && s.peer[w.fd] == w.node
            && t.peer == s.peer - {w.fd} && t.receivers[r] == Failing(s.receivers[r].item)
  {
    ReachableTells(s);
    assert s.receivers[r] in s.receivers;
    OnlyFailFails(s, e, r);
    ReadingIsOpen(s, r);
  }

  lemma OnlyFailFails(s: State, e: Step, r: nat)
    requires Enabled(s, e) && r < |s.receivers|
    requires Apply(s, e).receivers[r].Failing? && s.receivers[r] != Apply(s, e).receivers[r]
    ensures e == Fail(r)
  {
  }

  /** What the receiver puts into a connection pool: the socket of the submission after a
      success, nothing after a failure. */
  ghost predicate PutsBack(s: State, t: State, sub: nat, ok: bool)
  {
    && sub < |s.sent|
    && t.conns == s.conns + (if ok then [(s.sent[sub].1, s.sent[sub].0)] else [])
    && (ok ==> s.sent[sub].0 in s.peer && s.peer[s.sent[sub].0] == s.sent[sub].1)
  }

  lemma OneAnswer(s: State, sub: nat, ok: bool, ok': bool)
    requires Inv(s) && (sub, ok) in s.calls && (sub, ok') in s.calls
    ensures ok == ok'
  {
    var j, k :| 0 <= j < |s.calls| && 0 <= k < |s.calls| && s.calls[j] == (sub, ok) && s.calls[k] == (sub, ok');
    OneHolder(s, InCalls(j), InCalls(k), SubTok(sub));
  }

  /** A receiver that has called back goes on by putting the socket back after a success,
      and only then. */
  lemma CalledPutsBack(s: State, e: Step, r: nat, ok: bool)
    requires Reachable(s) && Enabled(s, e) && r < |s.receivers| && s.receivers[r].Called?
    requires s.receivers[r].item in s.items && (s.items[s.receivers[r].item].sub, ok) in s.calls
    requires Apply(s, e).receivers[r] != s.receivers[r]
    ensures PutsBack(s, Apply(s, e), s.items[s.receivers[r].item].sub, ok)
  {
    ReachableTells(s);
    var i := s.receivers[r].item;
    var w := s.items[i];
    assert s.receivers[r] in s.receivers;
    OnlyPutFdLeaves(s, e, r);
    OneAnswer(s, w.sub, ok, w.fd != -1);
    if ok { CalledSocketIsOpen(s, r); }
  }

  lemma CalledSocketIsOpen(s: State, r: nat)
    requires Inv(s) && r < |s.receivers| && s.receivers[r].Called? && s.receivers[r].item in s.items
    ensures var w := s.items[s.receivers[r].item]; w.fd != -1 ==> w.fd in s.peer && s.peer[w.fd] == w.node
  {
    var w := s.items[s.receivers[r].item];
    if w.fd != -1 {
      PlaceInRow(s, AtReceiver(r), FdTok(w.fd, w.node));
      assert Allowed(s, FdTok(w.fd, w.node), Held(s, FdTok(w.fd, w.node)));
    }
  }

  lemma OnlyPutFdLeaves(s: State, e: Step, r: nat)
    requires Enabled(s, e) && r < |s.receivers| && s.receivers[r].Called?
    requires Apply(s, e).receivers[r] != s.receivers[r]
    ensures e == PutFd(r)
  {
  }

  /** Nobody writes the record of an item that a receiver has called back for. */
  lemma CalledItemStays(s: State, e: Step, r: nat)
    requires Reachable(s) && Enabled(s, e) && r < |s.receivers| && s.receivers[r].Called?
    requires s.receivers[r].item in s.items
    ensures s.receivers[r].item in Apply(s, e).items
    ensures Apply(s, e).items[s.receivers[r].item] == s.items[s.receivers[r].item]
    ensures s.calls <= Apply(s, e).calls
  {
    ReachableInv(s);
    var i := s.receivers[r].item;
    if e.Send? && s.senders[e.t].item == i { OneHolder(s, AtReceiver(r), AtSender(e.t), ItemTok(i)); }
    if e.Fail? && s.receivers[e.r].item == i { OneHolder(s, AtReceiver(r), AtReceiver(e.r), ItemTok(i)); }
  }

  lemma PrefixReachable(run: seq<State>, k: nat)
    requires IsRun(run) && k < |run|
    ensures Reachable(run[k])
  {
    var front := run[..k + 1];
    forall j | 0 <= j < |front| - 1 ensures Next(front[j], front[j + 1])
    {
      assert Next(run[j], run[j + 1]);
    }
    assert IsRun(front) && front[|front| - 1] == run[k];
  }

  /** In every run, before a receiver that has called back does anything else, it puts the
      socket of that submission back into the pool of its node if it answered with success,
      and no socket if it answered with failure. */
  lemma {:induction false} SocketFollowsAnswer(run: seq<State>, k: nat, m: nat, r: nat, i: Item, sub: nat, ok: bool)
    requires IsRun(run) && k < m < |run| && r < |run[k].receivers| && run[k].receivers[r] == Called(i)
    requires i in run[k].items && run[k].items[i].sub == sub && (sub, ok) in run[k].calls
    requires r < |run[m].receivers| && run[m].receivers[r] != Called(i)
    ensures exists j :: k <= j < m && r < |run[j].receivers| && run[j].receivers[r] == Called(i)
                        && PutsBack(run[j], run[j + 1], sub, ok)
    decreases m - k
  {
    PrefixReachable(run, k);
    assert Next(run[k], run[k + 1]);
    var e :| Follows(run[k], e, run[k + 1]);
    if run[k + 1].receivers[r] == Called(i) {
      CalledItemStays(run[k], e, r);
      SocketFollowsAnswer(run, k + 1, m, r, i, sub, ok);
    } else {
      CalledPutsBack(run[k], e, r, ok);
    }
  }

  /** In every reachable state a receiver that holds an item can go on, whichever way the
      network decides, and one that waits can if anything is queued. */
  lemma ReceiversGoOn(s: State, r: nat)
    requires Reachable(s) && r < |s.receivers|
    ensures match s.receivers[r]
            case Waiting => s.queue != [] ==> Enabled(s, Pop(r))
            case Reading(_) => Enabled(s, CallOk(r)) && Enabled(s, Fail(r)) && Enabled(s, Postpone(r))
            case Failing(_) => Enabled(s, CallFail(r))
            case Called(_) => Enabled(s, PutFd(r))
            case Detached(_) => Enabled(s, PutNode(r))
            case Released(_) => Enabled(s, Recycle(r, false)) && Enabled(s, Recycle(r, true))
            case Exited => true
  {
    ReachableInv(s);
    ItemIsThere(s, r);
  }

  lemma ItemIsThere(s: State, r: nat)
    requires Inv(s) && r < |s.receivers|
    ensures ItemOf(s.receivers[r]).Some? ==> ItemOf(s.receivers[r]).value in s.items
  {
    if ItemOf(s.receivers[r]).Some? {
      var i := ItemOf(s.receivers[r]).value;
      PlaceInRow(s, AtReceiver(r), ItemTok(i));
      assert Allowed(s, ItemTok(i), Held(s, ItemTok(i)));
    }
  }

  // ---------------------------------------------------------------------------
  // That a put can go through
  // ---------------------------------------------------------------------------

  ghost predicate Path(s: State, es: seq<Step>, t: State)
    decreases |es|
  {
    if es == [] then s == t else Enabled(s, es[0]) && Path(Apply(s, es[0]), es[1..], t)
  }

  /** Some way of going on answers the submission with success. */
  ghost predicate CanSucceed(s: State, sub: nat)
  {
    exists es, t :: Path(s, es, t) && (sub, true) in t.calls
  }

  lemma FirstStep(s: State, e: Step, sub: nat)
    requires Enabled(s, e) && CanSucceed(Apply(s, e), sub)
    ensures CanSucceed(s, sub)
  {
    var es, t :| Path(Apply(s, e), es, t) && (sub, true) in t.calls;
    assert ([e] + es)[1..] == es;
    assert Path(s, [e] + es, t);
  }

  lemma ReadingSucceeds(s: State, r: nat, sub: nat)
    requires r < |s.receivers| && s.receivers[r].Reading? && s.receivers[r].item in s.items
    requires s.items[s.receivers[r].item].sub == sub
    ensures CanSucceed(s, sub)
  {
    var t := Apply(s, CallOk(r));
    assert t.calls[|s.calls|] == (sub, true);
    assert Path(t, [], t);
    FirstStep(s, CallOk(r), sub);
  }

  lemma QueuedSucceeds(s: State, r: nat, i: Item, sub: nat)
    requires r < |s.receivers| && s.receivers[r] == Waiting && s.queue == [Job(i)]
    requires i in s.items && s.items[i].sub == sub && s.items[i].fd != -1
    ensures CanSucceed(s, sub)
  {
    ReadingSucceeds(Apply(s, Pop(r)), r, sub);
    FirstStep(s, Pop(r), sub);
  }

  lemma ConnectedSucceeds(s: State, t: nat, r: nat)
    requires t < |s.senders| && s.senders[t].Connected? && s.senders[t].fd != -1
    requires r < |s.receivers| && s.receivers[r] == Waiting && s.queue == []
    ensures CanSucceed(s, s.submitted)
  {
    QueuedSucceeds(Apply(s, Send(t)), r, s.senders[t].item, s.submitted);
    FirstStep(s, Send(t), s.submitted);
  }

  lemma FreshFd(peer: map<Fd, Node>) returns (fd: Fd)
    ensures 0 <= fd && fd !in peer
  {
    fd := Above(peer.Keys);
  }

  lemma FreshItem(items: map<Item, Work>) returns (i: Item)
    ensures i !in items
  {
    i := Above(items.Keys);
  }

  lemma {:induction false} Above(used: set<int>) returns (x: nat)
    ensures forall u :: u in used ==> u < x
    decreases |used|
  {
    if u :| u in used {
      var y := Above(used - {u});
      x := if u < y then y else u + 1;
      assert forall v :: v in used ==> v == u || v in used - {u};
    } else {
      x := 0;
    }
  }

  lemma AtNodeSucceeds(s: State, t: nat, r: nat)
    requires t < |s.senders| && s.senders[t].AtNode?
    requires r < |s.receivers| && s.receivers[r] == Waiting && s.queue == []
    ensures CanSucceed(s, s.submitted)
  {
    var fd := FreshFd(s.peer);
    ConnectedSucceeds(Apply(s, OpenConn(t, fd)), t, r);
    FirstStep(s, OpenConn(t, fd), s.submitted);
  }

  lemma AdmittedSucceeds(s: State, t: nat, r: nat, n: Node)
    requires t < |s.senders| && s.senders[t].Admitted?
    requires r < |s.receivers| && s.receivers[r] == Waiting && s.queue == []
    ensures CanSucceed(s, s.submitted)
  {
    var i := FreshItem(s.items);
    var holding := Apply(s, Allocate(t, i));
    AtNodeSucceeds(Apply(holding, PickNode(t, n)), t, r);
    FirstStep(holding, PickNode(t, n), s.submitted);
    FirstStep(s, Allocate(t, i), s.submitted);
  }

  /** With a free sender, a free receiver and an empty queue a put to any node can be sent
      and answered with success. */
  lemma PutCanSucceed(s: State, t: nat, r: nat, n: Node)
    requires Reachable(s) && t < |s.senders| && s.senders[t] == Idle
    requires r < |s.receivers| && s.receivers[r] == Waiting && s.queue == []
    ensures CanSucceed(s, s.submitted)
  {
    ReachableInv(s);
    AdmittedSucceeds(Apply(s, Admit(t)), t, r, n);
    FirstStep(s, Admit(t), s.submitted);
  }

  /** An idle sender is admitted exactly if the queue is below its limit, takes any item the
      pool offers first, and any idle connection of its node. */
  lemma SendersGoOn(s: State, t: nat, j: nat)
    requires t < |s.senders|
    ensures s.senders[t].Idle? ==>
              Enabled(s, Admit(t)) && Apply(s, Admit(t)).senders[t] == if |s.queue| < s.limit then Admitted else Idle
    ensures s.senders[t].Admitted? && s.pool != [] ==>
              Enabled(s, TakePooled(t)) && Apply(s, TakePooled(t)).senders[t] == Holding(s.pool[0])
    ensures s.senders[t].AtNode? && j < |s.conns| && s.conns[j].0 == s.senders[t].node ==>
              Enabled(s, PopConn(t, j))
              && Apply(s, PopConn(t, j)).senders[t] == Connected(s.senders[t].item, s.senders[t].node, s.conns[j].1)
  {
  }
}
