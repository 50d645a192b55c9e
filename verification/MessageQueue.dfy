/**
 * The server's store-and-forward queue (server/src/routes/messages.rs) and the desktop client that
 * empties it (client/desktop/src/main.rs, poll_once). The messages table is kept in the order the
 * poll query returns it: by creation time.
 */
module MessageQueue {
  import opened Bytes
  import opened Packet

  const POLL_LIMIT := 100

  datatype Message = Message(
    id: nat, dst: NodeId, src: NodeId, ciphertext: seq<byte>, createdAt: int, expiresAt: int)

  // ----- filtering -----

  function Select(q: seq<Message>, p: Message -> bool): (r: seq<Message>)
    ensures |r| <= |q|
    ensures forall m :: m in r ==> m in q && p(m)
  {
    if q == [] then [] else (if p(q[0]) then [q[0]] else []) + Select(q[1..], p)
  }

  lemma {:induction false} SelectIn(q: seq<Message>, p: Message -> bool, m: Message)
    ensures m in Select(q, p) <==> m in q && p(m)
  {
    if q != [] {
      assert q == [q[0]] + q[1..];
      SelectIn(q[1..], p, m);
    }
  }

  lemma {:induction false} SelectJoin(a: seq<Message>, b: seq<Message>, p: Message -> bool)
    ensures Select(a + b, p) == Select(a, p) + Select(b, p)
  {
    if a == [] {
      assert a + b == b;
    } else {
      assert (a + b)[1..] == a[1..] + b;
      SelectJoin(a[1..], b, p);
    }
  }

  lemma {:induction false} SelectSame(q: seq<Message>, p: Message -> bool, r: Message -> bool)
    requires forall m :: m in q ==> p(m) == r(m)
    ensures Select(q, p) == Select(q, r)
  {
    if q != [] {
      assert q[0] in q && forall m :: m in q[1..] ==> m in q;
      SelectSame(q[1..], p, r);
    }
  }

  function Both(p: Message -> bool, r: Message -> bool): Message -> bool {
    (m: Message) => p(m) && r(m)
  }

  lemma {:induction false} SelectTwice(q: seq<Message>, p: Message -> bool, r: Message -> bool)
    ensures Select(Select(q, p), r) == Select(q, Both(p, r))
  {
    if q != [] {
      SelectTwice(q[1..], p, r);
      SelectJoin(if p(q[0]) then [q[0]] else [], Select(q[1..], p), r);
    }
  }

  lemma {:induction false} SelectAll(q: seq<Message>, p: Message -> bool)
    requires forall m :: m in q ==> p(m)
    ensures Select(q, p) == q
  {
    if q != [] {
      assert q[0] in q && forall m :: m in q[1..] ==> m in q;
      SelectAll(q[1..], p);
    }
  }

  lemma {:induction false} SelectNone(q: seq<Message>, p: Message -> bool)
    requires forall m :: m in q ==> !p(m)
    ensures Select(q, p) == []
  {
    if q != [] {
      assert q[0] in q && forall m :: m in q[1..] ==> m in q;
      SelectNone(q[1..], p);
    }
  }

  function AddressedTo(node: NodeId): Message -> bool {
    (m: Message) => m.dst == node
  }

  function Not(p: Message -> bool): Message -> bool {
    (m: Message) => !p(m)
  }

  function ButNot(id: nat, node: NodeId): Message -> bool {
    (m: Message) => !(m.id == id && m.dst == node)
  }

  function KeptAt(now: int): Message -> bool {
    (m: Message) => !(m.expiresAt < now)
  }

  function Mine(q: seq<Message>, node: NodeId): seq<Message> {
    Select(q, AddressedTo(node))
  }

  // ----- the server: every submitted message is somewhere, and in one place only -----

  datatype Mail = Mail(
    pending: seq<Message>, blocked: set<NodeId>,
    submitted: set<nat>, acked: set<nat>, expired: set<nat>)

  datatype SubmitResult = Accepted(id: nat) | Blocked | RateLimited | DuplicateId

  /** The primary key refuses an id only while its row is still in the table. */
  predicate Taken(q: seq<Message>, id: nat) {
    exists m :: m in q && m.id == id
  }

  /** submit_message; the message's id is the random UUID and `allowed` the answer of the rate limiter. */
  function Submit(s: Mail, m: Message, allowed: bool): (Mail, SubmitResult) {
    if m.src in s.blocked then (s, Blocked)
    else if !allowed then (s, RateLimited)
    else if Taken(s.pending, m.id) then (s, DuplicateId)
    else (s.(pending := s.pending + [m], submitted := s.submitted + {m.id}), Accepted(m.id))
  }

  function Remove(q: seq<Message>, id: nat, node: NodeId): seq<Message> {
    Select(q, ButNot(id, node))
  }

  predicate Waiting(q: seq<Message>, id: nat, node: NodeId) {
    exists m :: m in q && m.id == id && m.dst == node
  }

  /** ack_message: needs the addressee's node id, not just the message id. */
  function Ack(s: Mail, id: nat, node: NodeId): (Mail, bool) {
    if Waiting(s.pending, id, node)
    then (s.(pending := Remove(s.pending, id, node), acked := s.acked + {id}), true)
    else (s, false)
  }

  /** The hourly retention job. */
  function Expire(s: Mail, now: int): Mail {
    s.(pending := Select(s.pending, KeptAt(now)),
       expired := s.expired + set m | m in s.pending && m.expiresAt < now :: m.id)
  }

  datatype Step =
    | DoSubmit(message: Message, allowed: bool)
    | DoAck(id: nat, node: NodeId)
    | DoExpire(now: int)
    | DoBlock(src: NodeId)
    | DoUnblock(src: NodeId)

  function Next(s: Mail, step: Step): Mail {
    match step
    case DoSubmit(m, allowed) => Submit(s, m, allowed).0
    case DoAck(id, node) => Ack(s, id, node).0
    case DoExpire(now) => Expire(s, now)
    case DoBlock(src) => s.(blocked := s.blocked + {src})
    case DoUnblock(src) => s.(blocked := s.blocked - {src})
  }

  const NoMail := Mail([], {}, {}, {}, {})

  function Run(steps: seq<Step>): Mail {
    if steps == [] then NoMail else Next(Run(steps[..|steps| - 1]), steps[|steps| - 1])
  }

  ghost function IdsIn(q: seq<Message>): set<nat> {
    set m | m in q :: m.id
  }

  ghost predicate DistinctIds(q: seq<Message>) {
    forall i, j :: 0 <= i < j < |q| ==> q[i].id != q[j].id
  }

  /** Every accepted id is somewhere. */
  ghost predicate Accounted(s: Mail) {
    DistinctIds(s.pending) && s.submitted == IdsIn(s.pending) + s.acked + s.expired
  }

  /** And in one place only. */
  ghost predicate Conserved(s: Mail) {
    Accounted(s) && IdsIn(s.pending) !! s.acked !! s.expired
  }

  lemma {:induction false} SelectDistinct(q: seq<Message>, p: Message -> bool)
    requires DistinctIds(q)
    ensures DistinctIds(Select(q, p))
  {
    if q != [] {
      assert forall i :: 0 <= i < |q| - 1 ==> q[1..][i] == q[i + 1];
      SelectDistinct(q[1..], p);
      var rest := Select(q[1..], p);
      forall j | 0 <= j < |rest| ensures rest[j].id != q[0].id {
        assert rest[j] in q[1..];
      }
    }
  }

  /** A deletion splits the ids of the table in two. */
  lemma DeleteSplits(q: seq<Message>, keep: Message -> bool)
    requires DistinctIds(q)
    ensures DistinctIds(Select(q, keep))
    ensures var gone := set m | m in q && !keep(m) :: m.id;
            IdsIn(Select(q, keep)) !! gone && IdsIn(q) == IdsIn(Select(q, keep)) + gone
  {
    SelectDistinct(q, keep);
    forall m ensures m in Select(q, keep) <==> m in q && keep(m) {
      SelectIn(q, keep, m);
    }
    var gone := set m | m in q && !keep(m) :: m.id;
    forall id | id in IdsIn(Select(q, keep)) && id in gone ensures false {
      var a :| a in Select(q, keep) && a.id == id;
      var b :| b in q && !keep(b) && b.id == id;
      SameIdSameMessage(q, a, b);
    }
    hide Select;
  }

  lemma SameIdSameMessage(q: seq<Message>, a: Message, b: Message)
    requires DistinctIds(q) && a in q && b in q && a.id == b.id
    ensures a == b
  {
  }

  lemma AckKeeps(s: Mail, id: nat, node: NodeId)
    requires Accounted(s)
    ensures Accounted(Ack(s, id, node).0) && (Conserved(s) ==> Conserved(Ack(s, id, node).0))
  {
    if Waiting(s.pending, id, node) {
      var keep := ButNot(id, node);
      DeleteSplits(s.pending, keep);
      var gone := set m | m in s.pending && !keep(m) :: m.id;
      assert gone == {id};
      hide Select;
    }
  }

  lemma ExpireKeeps(s: Mail, now: int)
    requires Accounted(s)
    ensures Accounted(Expire(s, now)) && (Conserved(s) ==> Conserved(Expire(s, now)))
  {
    var keep := KeptAt(now);
    DeleteSplits(s.pending, keep);
    var gone := set m | m in s.pending && !keep(m) :: m.id;
    assert gone == set m | m in s.pending && m.expiresAt < now :: m.id;
    hide Select;
  }

  /** An accepted submission that repeats an old id is the one thing that breaks "in one place only". */
  lemma SubmitKeeps(s: Mail, m: Message, allowed: bool)
    requires Accounted(s)
    ensures var (s', r) := Submit(s, m, allowed);
            && Accounted(s')
            && (Conserved(s) ==> (Conserved(s') <==> (r.Accepted? ==> m.id !in s.submitted)))
  {
    var s' := Submit(s, m, allowed).0;
    if Submit(s, m, allowed).1.Accepted? {
      assert IdsIn(s'.pending) == IdsIn(s.pending) + {m.id};
      assert m.id !in IdsIn(s.pending);
    }
  }

  ghost predicate Reuses(s: Mail, step: Step) {
    step.DoSubmit? && Submit(s, step.message, step.allowed).1.Accepted? && step.message.id in s.submitted
  }

  /** No accepted submission carries an id accepted before. */
  ghost predicate FreshIds(steps: seq<Step>) {
    forall i :: 0 <= i < |steps| ==> !Reuses(Run(steps[..i]), steps[i])
  }

  lemma StepKeeps(s: Mail, step: Step)
    requires Accounted(s)
    ensures Accounted(Next(s, step))
    ensures Conserved(s) ==> (Conserved(Next(s, step)) <==> !Reuses(s, step))
  {
    match step
    case DoSubmit(m, allowed) => SubmitKeeps(s, m, allowed); hide Conserved, Accounted, Submit;
    case DoAck(id, node) => AckKeeps(s, id, node); hide Conserved, Accounted, Ack;
    case DoExpire(now) => ExpireKeeps(s, now); hide Conserved, Accounted, Expire;
    case _ =>
  }

  /** On every run every accepted id is pending, acknowledged or expired; with fresh ids, exactly one. */
  lemma {:induction false} NothingIsLost(steps: seq<Step>)
    ensures Accounted(Run(steps)) && (FreshIds(steps) ==> Conserved(Run(steps)))
  {
    if steps != [] {
      var n := |steps| - 1;
      NothingIsLost(steps[..n]);
      StepKeeps(Run(steps[..n]), steps[n]);
      assert forall i :: 0 <= i < n ==> steps[..n][i] == steps[i] && steps[..n][..i] == steps[..i];
      hide Accounted, Conserved, Reuses, Next;
    }
  }

  /** Freshness is exactly what it takes. */
  lemma {:induction false} ConservedIff(steps: seq<Step>)
    ensures (forall n :: 0 <= n <= |steps| ==> Conserved(Run(steps[..n]))) <==> FreshIds(steps)
  {
    if FreshIds(steps) {
      forall n | 0 <= n <= |steps| ensures Conserved(Run(steps[..n])) {
        assert forall i :: 0 <= i < n ==> steps[..n][i] == steps[i] && steps[..n][..i] == steps[..i];
        NothingIsLost(steps[..n]);
        hide Conserved, Reuses, Run;
      }
    }
    if forall n :: 0 <= n <= |steps| ==> Conserved(Run(steps[..n])) {
      forall i | 0 <= i < |steps| ensures !Reuses(Run(steps[..i]), steps[i]) {
        assert steps[..i + 1][..i] == steps[..i];
        StepKeeps(Run(steps[..i]), steps[i]);
        assert Conserved(Run(steps[..i + 1])) && Conserved(Run(steps[..i]));
        hide Conserved, Reuses, Next;
      }
    }
  }

  // ----- exactly which messages are in the table -----

  /** The last word on `src` was a block. */
  ghost predicate BlockedBy(steps: seq<Step>, src: NodeId) {
    exists i: nat :: LastBlock(steps, src, i)
  }

  ghost predicate LastBlock(steps: seq<Step>, src: NodeId, i: nat) {
    i < |steps| && steps[i] == DoBlock(src) && forall j :: i < j < |steps| ==> steps[j] != DoUnblock(src)
  }

  lemma {:induction false} BlockedIff(steps: seq<Step>, src: NodeId)
    ensures src in Run(steps).blocked <==> BlockedBy(steps, src)
  {
    if steps != [] {
      var k := |steps| - 1;
      BlockedIff(steps[..k], src);
      BlockedStep(Run(steps[..k]), steps[k]);
      assert forall i :: 0 <= i < k ==> steps[..k][i] == steps[i];
      hide Next;
      if steps[k] == DoBlock(src) { assert LastBlock(steps, src, k); }
      if i: nat :| LastBlock(steps[..k], src, i) {
        if steps[k] != DoUnblock(src) { assert LastBlock(steps, src, i); }
      }
      if i: nat :| LastBlock(steps, src, i) {
        if i < k { assert LastBlock(steps[..k], src, i); }
      }
    }
  }

  lemma BlockedStep(s: Mail, step: Step)
    ensures Next(s, step).blocked == match step
            case DoBlock(src) => s.blocked + {src}
            case DoUnblock(src) => s.blocked - {src}
            case _ => s.blocked
  {
  }

  /** After `steps`, submission `m` is let in: its sender is not blocked and its id is not in the table. */
  ghost predicate LetIn(steps: seq<Step>, m: Message) {
    !BlockedBy(steps, m.src) && forall x :: x in Run(steps).pending ==> x.id != m.id
  }

  /** A submission adds exactly its message, at the end, or nothing. */
  lemma SubmissionAdds(steps: seq<Step>, m: Message, allowed: bool)
    ensures Run(steps + [DoSubmit(m, allowed)]).pending ==
            Run(steps).pending + if allowed && LetIn(steps, m) then [m] else []
  {
    BlockedIff(steps, m.src);
    var all := steps + [DoSubmit(m, allowed)];
    assert all[..|steps|] == steps;
    assert Run(steps).pending + [] == Run(steps).pending;
    hide BlockedBy;
  }

  /** An acknowledgement succeeds exactly for a message of that node under that id. */
  lemma AckIff(s: Mail, id: nat, node: NodeId)
    ensures Ack(s, id, node).1 <==> exists m :: m in s.pending && m.id == id && m.dst == node
  {
    hide Remove;
  }

  /** A poll answers with at most a hundred messages, all of them in the table and for that node. */
  lemma PollIsOwn(q: seq<Message>, node: NodeId)
    ensures forall m :: m in Mine(q, node) <==> m in q && m.dst == node
    ensures forall m :: m in Batch(Mine(q, node)) ==> m in q && m.dst == node
    ensures |Batch(Mine(q, node))| == if |Mine(q, node)| < 100 then |Mine(q, node)| else 100
  {
    forall m ensures m in Mine(q, node) <==> m in q && m.dst == node {
      SelectIn(q, AddressedTo(node), m);
    }
    hide Mine;
  }

  /** The step takes `m` out of the table: its own acknowledgement, or retention after its expiry. */
  predicate Removes(step: Step, m: Message) {
    step == DoAck(m.id, m.dst) || (step.DoExpire? && m.expiresAt < step.now)
  }

  lemma StepPending(steps: seq<Step>, step: Step, m: Message)
    ensures m in Run(steps + [step]).pending <==>
            (m in Run(steps).pending && !Removes(step, m)) || (step == DoSubmit(m, true) && LetIn(steps, m))
  {
    var s := Run(steps);
    assert (steps + [step])[..|steps|] == steps;
    match step
    case DoSubmit(x, allowed) => SubmissionAdds(steps, x, allowed); hide Run, LetIn;
    case DoAck(id, node) => SelectIn(s.pending, ButNot(id, node), m); hide Select, Run;
    case DoExpire(now) => SelectIn(s.pending, KeptAt(now), m); hide Select, Run;
    case _ => hide Run; StepLeaves(steps, step);
  }

  lemma StepLeaves(steps: seq<Step>, step: Step)
    requires step.DoBlock? || step.DoUnblock?
    ensures Run(steps + [step]).pending == Run(steps).pending
  {
    assert (steps + [step])[..|steps|] == steps;
  }

  /** Step `i` let `m` in and no later step has removed it. */
  ghost predicate InSince(steps: seq<Step>, m: Message, i: nat) {
    && i < |steps| && steps[i] == DoSubmit(m, true) && LetIn(steps[..i], m)
    && forall j :: i < j < |steps| ==> !Removes(steps[j], m)
  }

  /** On every run the table holds exactly the messages that were let in and not removed since. */
  lemma {:induction false} PendingIff(steps: seq<Step>, m: Message)
    ensures m in Run(steps).pending <==> exists i: nat :: InSince(steps, m, i)
  {
    if steps != [] {
      var k := |steps| - 1;
      var init := steps[..k];
      assert steps == init + [steps[k]];
      PendingIff(init, m);
      StepPending(init, steps[k], m);
      hide Run, LetIn, Removes;
      assert forall i :: 0 <= i < k ==> init[i] == steps[i] && init[..i] == steps[..i];
      if i: nat :| InSince(init, m, i) {
        if !Removes(steps[k], m) { assert InSince(steps, m, i); }
      }
      if steps[k] == DoSubmit(m, true) && LetIn(init, m) { assert InSince(steps, m, k); }
      if i: nat :| InSince(steps, m, i) {
        if i < k { assert InSince(init, m, i); }
      }
    }
  }

  // ----- the table stays in the order the poll query asks for -----

  ghost predicate OldestFirst(q: seq<Message>) {
    forall i, j :: 0 <= i < j < |q| ==> q[i].createdAt <= q[j].createdAt
  }

  /** Creation times never run backwards from one submission to the next. */
  ghost predicate Clocked(steps: seq<Step>) {
    forall i, j :: 0 <= i < j < |steps| && steps[i].DoSubmit? && steps[j].DoSubmit? ==>
      steps[i].message.createdAt <= steps[j].message.createdAt
  }

  lemma {:induction false} SelectKeepsOrder(q: seq<Message>, p: Message -> bool)
    requires OldestFirst(q)
    ensures OldestFirst(Select(q, p))
  {
    if q != [] {
      assert forall i :: 0 <= i < |q| - 1 ==> q[1..][i] == q[i + 1];
      SelectKeepsOrder(q[1..], p);
      var rest := Select(q[1..], p);
      forall j | 0 <= j < |rest| ensures q[0].createdAt <= rest[j].createdAt {
        assert rest[j] in q[1..];
      }
    }
  }

  ghost predicate Submitted(steps: seq<Step>, m: Message) {
    exists i :: 0 <= i < |steps| && steps[i] == DoSubmit(m, true)
  }

  lemma StepKeepsOrder(s: Mail, step: Step)
    requires OldestFirst(s.pending)
    requires step.DoSubmit? ==> forall m :: m in s.pending ==> m.createdAt <= step.message.createdAt
    ensures OldestFirst(Next(s, step).pending)
    ensures forall m :: m in Next(s, step).pending ==> m in s.pending || step == DoSubmit(m, true)
  {
    match step
    case DoAck(id, node) => SelectKeepsOrder(s.pending, ButNot(id, node));
    case DoExpire(now) => SelectKeepsOrder(s.pending, KeptAt(now));
    case _ =>
  }

  lemma {:induction false} QueueIsOldestFirst(steps: seq<Step>)
    requires Clocked(steps)
    ensures OldestFirst(Run(steps).pending)
    ensures forall m :: m in Run(steps).pending ==> Submitted(steps, m)
  {
    if steps != [] {
      hide OldestFirst, Next;
      var n := |steps| - 1;
      var s := Run(steps[..n]);
      assert forall i :: 0 <= i < n ==> steps[..n][i] == steps[i];
      QueueIsOldestFirst(steps[..n]);
      forall m | Submitted(steps[..n], m)
        ensures Submitted(steps, m) && (steps[n].DoSubmit? ==> m.createdAt <= steps[n].message.createdAt)
      {
        var i :| 0 <= i < n && steps[..n][i] == DoSubmit(m, true);
        assert steps[i] == DoSubmit(m, true);
      }
      StepKeepsOrder(s, steps[n]);
      assert forall m :: steps[n] == DoSubmit(m, true) ==> Submitted(steps, m);
    } else {
      EmptyIsOldestFirst();
    }
  }

  lemma EmptyIsOldestFirst()
    ensures OldestFirst([])
  {
  }

  /** Hence a poll returns the oldest messages: none left behind is older than one returned. */
  lemma PollReturnsTheOldest(steps: seq<Step>, node: NodeId, i: nat, j: nat)
    requires Clocked(steps)
    requires var q := Mine(Run(steps).pending, node); i < |Batch(q)| <= j < |q|
    ensures var q := Mine(Run(steps).pending, node); Batch(q)[i].createdAt <= q[j].createdAt
  {
    QueueIsOldestFirst(steps);
    SelectKeepsOrder(Run(steps).pending, AddressedTo(node));
  }

  // ----- the client: what repeated polling delivers -----

  function Cap(n: nat): nat {
    if n < POLL_LIMIT then n else POLL_LIMIT
  }

  /** poll_messages, for a node whose queue is `q`. */
  function Batch(q: seq<Message>): (b: seq<Message>)
    ensures |b| == Cap(|q|)
  {
    q[..Cap(|q|)]
  }

  /** One poll with acknowledgement: the readable part of the batch leaves the queue. */
  function AfterPoll(q: seq<Message>, readable: Message -> bool): seq<Message> {
    Select(Batch(q), Not(readable)) + q[Cap(|q|)..]
  }

  /** Everything polling delivers until a poll brings nothing new. */
  function Drain(q: seq<Message>, readable: Message -> bool): seq<Message>
    decreases |q|
  {
    var got := Select(Batch(q), readable);
    if got == [] then []
    else
      SplitCount(Batch(q), readable);
      got + Drain(AfterPoll(q, readable), readable)
  }

  lemma {:induction false} SplitCount(b: seq<Message>, readable: Message -> bool)
    ensures |Select(b, readable)| + |Select(b, Not(readable))| == |b|
  {
    if b != [] { SplitCount(b[1..], readable); }
  }

  /** The readable messages with fewer than 100 unreadable ones ahead of them, `stuck` already seen. */
  function Reachable(q: seq<Message>, readable: Message -> bool, stuck: nat): seq<Message> {
    if q == [] then []
    else if readable(q[0]) then
      (if stuck < POLL_LIMIT then [q[0]] else []) + Reachable(q[1..], readable, stuck)
    else Reachable(q[1..], readable, stuck + 1)
  }

  function Unreadable(q: seq<Message>, readable: Message -> bool): nat {
    |Select(q, Not(readable))|
  }

  /** One message looked at. */
  lemma ReachableStep(q: seq<Message>, rest: seq<Message>, readable: Message -> bool, stuck: nat)
    requires q != [] && rest == q[1..]
    ensures var step := if readable(q[0]) then 0 else 1;
            && Unreadable(q, readable) == step + Unreadable(rest, readable)
            && Reachable(q, readable, stuck) ==
               (if readable(q[0]) && stuck < POLL_LIMIT then [q[0]] else []) + Reachable(rest, readable, stuck + step)
  {
  }

  lemma JoinAssociates(a: seq<Message>, b: seq<Message>, c: seq<Message>)
    ensures a + (b + c) == (a + b) + c
  {
  }

  lemma {:induction false} ReachableJoin(a: seq<Message>, b: seq<Message>, readable: Message -> bool, stuck: nat)
    ensures Reachable(a + b, readable, stuck) ==
            Reachable(a, readable, stuck) + Reachable(b, readable, stuck + Unreadable(a, readable))
  {
    if a == [] {
      assert a + b == b;
    } else {
      hide Select, Unreadable, Reachable;
      var next := if readable(a[0]) then stuck else stuck + 1;
      assert (a + b)[1..] == a[1..] + b && (a + b)[0] == a[0];
      ReachableStep(a + b, a[1..] + b, readable, stuck);
      ReachableStep(a, a[1..], readable, stuck);
      ReachableJoin(a[1..], b, readable, next);
      JoinAssociates(if readable(a[0]) && stuck < POLL_LIMIT then [a[0]] else [],
                     Reachable(a[1..], readable, next), Reachable(b, readable, stuck + Unreadable(a, readable)));
    }
  }

  /** With room for all of them ahead, every readable message is reachable. */
  lemma {:induction false} AllReachable(q: seq<Message>, readable: Message -> bool, stuck: nat)
    requires stuck + Unreadable(q, readable) < POLL_LIMIT || stuck + |q| <= POLL_LIMIT
    ensures Reachable(q, readable, stuck) == Select(q, readable)
  {
    if q != [] {
      AllReachable(q[1..], readable, if readable(q[0]) then stuck else stuck + 1);
    }
  }

  lemma {:induction false} NoneReachable(q: seq<Message>, readable: Message -> bool, stuck: nat)
    requires stuck >= POLL_LIMIT
    ensures Reachable(q, readable, stuck) == []
  {
    if q != [] { NoneReachable(q[1..], readable, if readable(q[0]) then stuck else stuck + 1); }
  }

  lemma ReachOfFront(b: seq<Message>, rest: seq<Message>, readable: Message -> bool)
    requires |b| <= POLL_LIMIT
    ensures Reachable(b + rest, readable, 0) == Select(b, readable) + Reachable(rest, readable, Unreadable(b, readable))
  {
    hide Select, Reachable, Unreadable;
    ReachableJoin(b, rest, readable, 0);
    AllReachable(b, readable, 0);
  }

  lemma ReachOfBatch(q: seq<Message>, readable: Message -> bool)
    ensures Reachable(q, readable, 0) == Select(Batch(q), readable) +
              Reachable(q[Cap(|q|)..], readable, Unreadable(Batch(q), readable))
  {
    hide Select, Reachable, Unreadable;
    ReachOfFront(Batch(q), q[Cap(|q|)..], readable);
    assert q == Batch(q) + q[Cap(|q|)..];
  }

  lemma ReachAfterPoll(q: seq<Message>, readable: Message -> bool)
    ensures Reachable(AfterPoll(q, readable), readable, 0) ==
            Reachable(q[Cap(|q|)..], readable, Unreadable(Batch(q), readable))
  {
    var left := Select(Batch(q), Not(readable));
    SelectAll(left, Not(readable));
    SelectNone(left, readable);
    hide Select, Reachable, Batch;
    ReachOfFront(left, q[Cap(|q|)..], readable);
    assert [] + Reachable(q[Cap(|q|)..], readable, |left|) == Reachable(q[Cap(|q|)..], readable, |left|);
  }

  /** One poll takes nothing out of reach and brings nothing into it. */
  lemma PollKeepsReach(q: seq<Message>, readable: Message -> bool)
    ensures Reachable(q, readable, 0) == Select(Batch(q), readable) + Reachable(AfterPoll(q, readable), readable, 0)
  {
    hide Select, Reachable, Batch;
    ReachOfBatch(q, readable);
    ReachAfterPoll(q, readable);
  }

  lemma StuckForGood(q: seq<Message>, readable: Message -> bool)
    requires Select(Batch(q), readable) == []
    ensures Reachable(q, readable, 0) == []
  {
    var b, rest := Batch(q), q[Cap(|q|)..];
    assert q == b + rest;
    ReachableJoin(b, rest, readable, 0);
    AllReachable(b, readable, 0);
    SplitCount(b, readable);
    if |q| > POLL_LIMIT {
      NoneReachable(rest, readable, Unreadable(b, readable));
    } else {
      assert rest == [];
    }
    hide Select;
  }

  /** Polling delivers, in queue order and once each, exactly the reachable messages. */
  lemma {:induction false} DrainIsReachable(q: seq<Message>, readable: Message -> bool)
    ensures Drain(q, readable) == Reachable(q, readable, 0)
    decreases |q|
  {
    var got := Select(Batch(q), readable);
    if got == [] {
      StuckForGood(q, readable);
    } else {
      SplitCount(Batch(q), readable);
      PollKeepsReach(q, readable);
      hide Select, Reachable, Batch;
      DrainIsReachable(AfterPoll(q, readable), readable);
    }
  }

  /** Fewer than 100 unreadable messages: every readable one is delivered, oldest first. */
  lemma ReadableQueueDrains(q: seq<Message>, readable: Message -> bool)
    requires Unreadable(q, readable) < POLL_LIMIT
    ensures Drain(q, readable) == Select(q, readable)
  {
    DrainIsReachable(q, readable);
    AllReachable(q, readable, 0);
  }

  lemma {:induction false} ReachableIff(q: seq<Message>, readable: Message -> bool, i: nat, stuck: nat)
    requires DistinctIds(q) && i < |q| && readable(q[i])
    ensures q[i] in Reachable(q, readable, stuck) <==> stuck + Unreadable(q[..i], readable) < POLL_LIMIT
  {
    var rest := q[1..];
    assert forall k :: 0 <= k < |rest| ==> rest[k] == q[k + 1];
    if i == 0 {
      ReachableFrom(rest, readable, stuck);
    } else {
      ReachableIff(rest, readable, i - 1, if readable(q[0]) then stuck else stuck + 1);
      assert q[..i][1..] == rest[..i - 1];
    }
  }

  /** Message `i` of the queue is ever delivered exactly if fewer than 100 unreadable ones precede it. */
  lemma DeliveredIff(q: seq<Message>, readable: Message -> bool, i: nat)
    requires DistinctIds(q) && i < |q| && readable(q[i])
    ensures q[i] in Drain(q, readable) <==> Unreadable(q[..i], readable) < POLL_LIMIT
  {
    DrainIsReachable(q, readable);
    ReachableIff(q, readable, i, 0);
  }

  lemma {:induction false} ReachableFrom(q: seq<Message>, readable: Message -> bool, stuck: nat)
    ensures forall m :: m in Reachable(q, readable, stuck) ==> m in q
  {
    if q != [] {
      ReachableFrom(q[1..], readable, if readable(q[0]) then stuck else stuck + 1);
    }
  }

  /** A poll that delivers something leaves strictly fewer readable messages behind. */
  lemma PollMakesProgress(q: seq<Message>, readable: Message -> bool)
    ensures |Select(AfterPoll(q, readable), readable)| == |Select(q, readable)| - |Select(Batch(q), readable)|
    ensures Unreadable(q, readable) < POLL_LIMIT && Select(q, readable) != [] ==> Select(Batch(q), readable) != []
  {
    var b, rest := Batch(q), q[Cap(|q|)..];
    assert q == b + rest;
    var left := Select(b, Not(readable));
    SelectJoin(b, rest, readable);
    SelectJoin(left, rest, readable);
    SelectNone(left, readable);
    SplitCount(b, readable);
    SelectJoin(b, rest, Not(readable));
    hide Select;
    if |q| <= POLL_LIMIT { assert rest == [] && q == b; }
  }

  // ----- the handlers and the polling client -----

  /** Acknowledging the readable messages of a batch, one by one. */
  function AckAll(q: seq<Message>, node: NodeId, batch: seq<Message>, readable: Message -> bool): seq<Message> {
    if batch == [] then q
    else
      var n := |batch| - 1;
      var q' := AckAll(q, node, batch[..n], readable);
      if readable(batch[n]) then Remove(q', batch[n].id, node) else q'
  }

  /** The messages that are not among the readable ones of `batch`. */
  function Unacked(node: NodeId, batch: seq<Message>, readable: Message -> bool): Message -> bool {
    (m: Message) => !(m.dst == node && exists b :: b in batch && readable(b) && b.id == m.id)
  }

  lemma {:induction false} AckAllSelects(q: seq<Message>, node: NodeId, batch: seq<Message>, readable: Message -> bool)
    ensures AckAll(q, node, batch, readable) == Select(q, Unacked(node, batch, readable))
  {
    if batch == [] {
      SelectAll(q, Unacked(node, batch, readable));
    } else {
      var n := |batch| - 1;
      AckAllSelects(q, node, batch[..n], readable);
      assert batch == batch[..n] + [batch[n]];
      var before := Unacked(node, batch[..n], readable);
      if readable(batch[n]) {
        SelectTwice(q, before, ButNot(batch[n].id, node));
        SelectSame(q, Both(before, ButNot(batch[n].id, node)), Unacked(node, batch, readable));
      } else {
        SelectSame(q, before, Unacked(node, batch, readable));
      }
    }
  }

  /** Acknowledging a batch touches nobody else's messages. */
  lemma AckAllSparesOthers(q: seq<Message>, node: NodeId, batch: seq<Message>, readable: Message -> bool, other: NodeId)
    requires other != node
    ensures Mine(AckAll(q, node, batch, readable), other) == Mine(q, other)
  {
    AckAllSelects(q, node, batch, readable);
    SelectTwice(q, Unacked(node, batch, readable), AddressedTo(other));
    SelectSame(q, Both(Unacked(node, batch, readable), AddressedTo(other)), AddressedTo(other));
  }

  /** On the node's own queue, the acknowledgements of one poll are exactly AfterPoll. */
  lemma AckAllIsAfterPoll(q: seq<Message>, node: NodeId, readable: Message -> bool)
    requires DistinctIds(q)
    ensures Mine(AckAll(q, node, Batch(Mine(q, node)), readable), node) == AfterPoll(Mine(q, node), readable)
  {
    var mine := Mine(q, node);
    var batch, rest := Batch(mine), mine[Cap(|mine|)..];
    var kept := Unacked(node, batch, readable);
    AckAllSelects(q, node, batch, readable);
    SelectTwice(q, kept, AddressedTo(node));
    SelectTwice(q, AddressedTo(node), kept);
    SelectSame(q, Both(kept, AddressedTo(node)), Both(AddressedTo(node), kept));
    SelectDistinct(q, AddressedTo(node));
    assert mine == batch + rest;
    hide Select;
    SelectJoin(batch, rest, kept);
    BatchKept(mine, batch, rest, node, readable);
    SelectSame(batch, kept, Not(readable));
    SelectAll(rest, kept);
  }

  lemma BatchKept(mine: seq<Message>, batch: seq<Message>, rest: seq<Message>, node: NodeId, readable: Message -> bool)
    requires DistinctIds(mine) && mine == batch + rest
    requires forall m :: m in mine ==> m.dst == node
    ensures forall m :: m in batch ==> Unacked(node, batch, readable)(m) == !readable(m)
    ensures forall m :: m in rest ==> Unacked(node, batch, readable)(m)
  {
    forall m, b | m in mine && b in batch && b.id == m.id ensures m == b {
      SameIdSameMessage(mine, m, b);
    }
    forall m, b | m in rest && b in batch ensures b.id != m.id {
      var i :| 0 <= i < |rest| && rest[i] == m;
      var j :| 0 <= j < |batch| && batch[j] == b;
      assert mine[|batch| + i] == m && mine[j] == b;
    }
  }

  class MessageServer {
    var mail: Mail

    constructor ()
      ensures mail == NoMail
    {
      mail := NoMail;
    }

    /** submit_message, after its three fields have parsed. */
    method SubmitMessage(m: Message, allowed: bool) returns (r: SubmitResult)
      modifies this
      ensures (mail, r) == Submit(old(mail), m, allowed)
      ensures r == Blocked <==> m.src in old(mail).blocked
      ensures r == RateLimited <==> m.src !in old(mail).blocked && !allowed
      ensures r == DuplicateId <==>
              m.src !in old(mail).blocked && allowed && exists x :: x in old(mail).pending && x.id == m.id
      ensures r == Accepted(m.id) <==>
              m.src !in old(mail).blocked && allowed && forall x :: x in old(mail).pending ==> x.id != m.id
      ensures mail.pending == old(mail).pending + if r.Accepted? then [m] else []
    {
      if m.src in mail.blocked { return Blocked; }
      if !allowed { return RateLimited; }
      if Taken(mail.pending, m.id) { return DuplicateId; }
      mail := mail.(pending := mail.pending + [m], submitted := mail.submitted + {m.id});
      return Accepted(m.id);
    }

    /** poll_messages: the oldest hundred, or all if there are fewer. */
    method PollMessages(node: NodeId) returns (batch: seq<Message>)
      ensures batch == Batch(Mine(mail.pending, node))
    {
      var rows := Mine(mail.pending, node);
      var n := if |rows| < POLL_LIMIT then |rows| else POLL_LIMIT;
      return rows[..n];
    }

    /** ack_message: knowing the id alone is not enough. */
    method AckMessage(node: NodeId, id: nat) returns (ok: bool)
      modifies this
      ensures (mail, ok) == Ack(old(mail), id, node)
      ensures mail.pending == Remove(old(mail).pending, id, node)
    {
      var kept := Remove(mail.pending, id, node);
      if |kept| == |mail.pending| {
        NothingRemoved(mail.pending, id, node);
        return false;
      }
      SomethingRemoved(mail.pending, id, node);
      mail := mail.(pending := kept, acked := mail.acked + {id});
      return true;
    }

    lemma {:induction false} NothingRemoved(q: seq<Message>, id: nat, node: NodeId)
      requires |Remove(q, id, node)| == |q|
      ensures !Waiting(q, id, node) && Remove(q, id, node) == q
    {
      if q != [] {
        assert q == [q[0]] + q[1..];
        NothingRemoved(q[1..], id, node);
      }
    }

    lemma SomethingRemoved(q: seq<Message>, id: nat, node: NodeId)
      requires |Remove(q, id, node)| != |q|
      ensures Waiting(q, id, node)
    {
      if !Waiting(q, id, node) { SelectAll(q, ButNot(id, node)); }
    }
  }

  /**
   * poll_once: fetch a batch, decrypt each message, acknowledge the ones that decrypt. Unreadable
   * ones stay on the server. Returns whether there was anything, and what was delivered.
   */
  method PollOnce(server: MessageServer, own: NodeId, readable: Message -> bool, ack: bool)
    returns (found: bool, delivered: seq<Message>)
    requires DistinctIds(server.mail.pending)
    modifies server
    ensures found <==> Mine(old(server.mail).pending, own) != []
    ensures delivered == Select(Batch(Mine(old(server.mail).pending, own)), readable)
    ensures ack ==> Mine(server.mail.pending, own) == AfterPoll(Mine(old(server.mail).pending, own), readable)
    ensures !ack ==> server.mail == old(server.mail)
    ensures DistinctIds(server.mail.pending)
    ensures forall other :: other != own ==> Mine(server.mail.pending, other) == Mine(old(server.mail).pending, other)
  {
    hide Select, Batch, AckAll, AfterPoll;
    ghost var before := server.mail.pending;
    var pending := server.PollMessages(own);
    found := |pending| != 0;
    assert found <==> Mine(before, own) != [] by { assert |pending| == Cap(|Mine(before, own)|); }
    delivered := [];
    var i := 0;
    assert pending[..0] == [];
    SelectAll([], readable);
    AckAllStep(before, own, pending, readable, 0);
    while i < |pending|
      invariant 0 <= i <= |pending|
      invariant delivered == Select(pending[..i], readable)
      invariant server.mail.pending == if ack then AckAll(before, own, pending[..i], readable) else before
      invariant !ack ==> server.mail == old(server.mail)
    {
      var msg := pending[i];
      assert pending[..i + 1] == pending[..i] + [msg];
      AckAllStep(before, own, pending, readable, i);
      SelectJoin(pending[..i], [msg], readable);
      SelectOne(msg, readable);
      if readable(msg) {
        delivered := delivered + [msg];
        if ack {
          var _ := server.AckMessage(own, msg.id);
        }
      }
      i := i + 1;
    }
    assert pending[..i] == pending;
    if ack {
      AckAllIsAfterPoll(before, own, readable);
      AckAllSelects(before, own, pending, readable);
      SelectDistinct(before, Unacked(own, pending, readable));
      forall other | other != own { AckAllSparesOthers(before, own, pending, readable, other); }
    }
  }

  lemma AckAllStep(q: seq<Message>, node: NodeId, batch: seq<Message>, readable: Message -> bool, i: nat)
    requires i <= |batch|
    ensures AckAll(q, node, [], readable) == q
    ensures i < |batch| ==>
              AckAll(q, node, batch[..i + 1], readable) ==
              var q' := AckAll(q, node, batch[..i], readable);
              if readable(batch[i]) then Remove(q', batch[i].id, node) else q'
  {
    if i < |batch| {
      assert batch[..i + 1][..i] == batch[..i];
    }
  }

  lemma SelectOne(m: Message, p: Message -> bool)
    ensures Select([m], p) == if p(m) then [m] else []
  {
  }

  /** A poll takes its own deliveries off what is still to come, and nothing else. */
  lemma DrainUnfolds(q: seq<Message>, readable: Message -> bool)
    ensures Drain(q, readable) == Select(Batch(q), readable) + Drain(AfterPoll(q, readable), readable)
    ensures |AfterPoll(q, readable)| + |Select(Batch(q), readable)| == |q|
  {
    SplitCount(Batch(q), readable);
    if Select(Batch(q), readable) == [] {
      forall m | m in Batch(q) ensures Not(readable)(m) {
        SelectIn(Batch(q), readable, m);
      }
      SelectAll(Batch(q), Not(readable));
      hide Select;
      assert AfterPoll(q, readable) == q;
    }
  }

  /** Messages that arrive later queue behind: they take nothing away from the earlier ones. */
  lemma LaterQueueBehind(q: seq<Message>, later: seq<Message>, readable: Message -> bool)
    ensures Drain(q + later, readable) == Drain(q, readable) + Reachable(later, readable, Unreadable(q, readable))
  {
    hide *;
    DrainIsReachable(q, readable);
    DrainIsReachable(q + later, readable);
    ReachableJoin(q, later, readable, 0);
  }

  lemma UnreadableJoins(q: seq<Message>, later: seq<Message>, readable: Message -> bool)
    ensures Unreadable(q + later, readable) == Unreadable(q, readable) + Unreadable(later, readable)
  {
    hide Select;
    SelectJoin(q, later, Not(readable));
  }

  lemma PollKeepsUnreadable(q: seq<Message>, readable: Message -> bool)
    ensures Unreadable(AfterPoll(q, readable), readable) == Unreadable(q, readable)
  {
    var b, rest := Batch(q), q[Cap(|q|)..];
    assert q == b + rest;
    var left := Select(b, Not(readable));
    SelectJoin(b, rest, Not(readable));
    SelectJoin(left, rest, Not(readable));
    SelectAll(left, Not(readable));
    hide Select;
  }

  /** Senders reach the server between two turns; a blocked one or a taken id adds nothing. */
  method SubmitAll(server: MessageServer, messages: seq<Message>) returns (accepted: seq<Message>)
    requires DistinctIds(server.mail.pending)
    modifies server
    ensures server.mail.pending == old(server.mail).pending + accepted
    ensures DistinctIds(server.mail.pending)
    ensures forall m :: m in accepted ==> m in messages
  {
    accepted := [];
    var i := 0;
    while i < |messages|
      invariant 0 <= i <= |messages|
      invariant forall m :: m in accepted ==> m in messages
      invariant server.mail.pending == old(server.mail).pending + accepted
      invariant DistinctIds(server.mail.pending)
    {
      ghost var before := server.mail.pending;
      var r := server.SubmitMessage(messages[i], true);
      if r.Accepted? {
        accepted := accepted + [messages[i]];
        assert server.mail.pending == before + [messages[i]];
      }
      i := i + 1;
    }
  }

  /** The account of the loop: delivered, still to come, and everything there ever was. */
  ghost predicate Balanced(delivered: seq<Message>, now: seq<Message>, all: seq<Message>, readable: Message -> bool) {
    && delivered + Drain(now, readable) == Drain(all, readable)
    && Unreadable(now, readable) == Unreadable(all, readable)
  }

  lemma PollBalances(delivered: seq<Message>, now: seq<Message>, all: seq<Message>, readable: Message -> bool)
    requires Balanced(delivered, now, all, readable)
    ensures Balanced(delivered + Select(Batch(now), readable), AfterPoll(now, readable), all, readable)
  {
    hide Drain, Select, Batch, AfterPoll, Unreadable;
    DrainUnfolds(now, readable);
    PollKeepsUnreadable(now, readable);
    JoinAssociates(delivered, Select(Batch(now), readable), Drain(AfterPoll(now, readable), readable));
  }

  lemma ArrivalsBalance(delivered: seq<Message>, now: seq<Message>, all: seq<Message>, readable: Message -> bool,
                        later: seq<Message>)
    requires Balanced(delivered, now, all, readable)
    ensures Balanced(delivered, now + later, all + later, readable)
  {
    hide Drain, Reachable, Unreadable;
    LaterQueueBehind(now, later, readable);
    LaterQueueBehind(all, later, readable);
    UnreadableJoins(now, later, readable);
    UnreadableJoins(all, later, readable);
    JoinAssociates(delivered, Drain(now, readable), Reachable(later, readable, Unreadable(all, readable)));
  }

  /**
   * Some turns of the listen loop; `arrivals[i]` is what senders submit during the pause after turn
   * i. What was delivered and what is still to come always add up to what the queue, with the
   * arrivals behind it, will ever deliver; and if nothing arrives, enough turns leave nothing to come.
   */
  method Listen(server: MessageServer, own: NodeId, readable: Message -> bool, arrivals: seq<seq<Message>>)
    returns (delivered: seq<Message>, accepted: seq<Message>)
    requires DistinctIds(server.mail.pending)
    modifies server
    ensures delivered + Drain(Mine(server.mail.pending, own), readable)
            == Drain(Mine(old(server.mail).pending, own) + Mine(accepted, own), readable)
    ensures Mine(accepted, own) == [] && |arrivals| >= |Mine(old(server.mail).pending, own)| ==>
              delivered == Drain(Mine(old(server.mail).pending, own), readable)
  {
    hide Select, Batch, AfterPoll, Drain, Unreadable, Balanced, DistinctIds, Mine;
    ghost var start := Mine(server.mail.pending, own);
    delivered, accepted := [], [];
    NothingYet(start, own, readable);
    var i := 0;
    while i < |arrivals|
      invariant 0 <= i <= |arrivals|
      invariant DistinctIds(server.mail.pending)
      invariant Balanced(delivered, Mine(server.mail.pending, own), start + Mine(accepted, own), readable)
      invariant Mine(accepted, own) == [] ==>
                  Drain(Mine(server.mail.pending, own), readable) == []
                  || |Mine(server.mail.pending, own)| + i <= |start|
    {
      ghost var q, all := Mine(server.mail.pending, own), start + Mine(accepted, own);
      DrainUnfolds(q, readable);
      DrainStops(q, readable);
      PollBalances(delivered, q, all, readable);
      var found, got := PollOnce(server, own, readable, true);
      delivered := delivered + got;
      ghost var rest := server.mail.pending;
      var more := SubmitAll(server, arrivals[i]);
      MineJoins(rest, more, own);
      MineJoins(accepted, more, own);
      ArrivalsBalance(delivered, Mine(rest, own), all, readable, Mine(more, own));
      JoinAssociates(start, Mine(accepted, own), Mine(more, own));
      accepted := accepted + more;
      if Mine(accepted, own) == [] { AddNothing(Mine(rest, own)); }
      i := i + 1;
    }
    DrainStops(Mine(server.mail.pending, own), readable);
    Settled(delivered, Mine(server.mail.pending, own), start + Mine(accepted, own), readable);
    AddNothing(start);
    AddNothing(delivered);
  }

  lemma NothingYet(start: seq<Message>, own: NodeId, readable: Message -> bool)
    ensures Mine([], own) == [] && Balanced([], start, start + Mine([], own), readable)
  {
    assert start + [] == start;
    assert [] + Drain(start, readable) == Drain(start, readable);
  }

  lemma Settled(delivered: seq<Message>, now: seq<Message>, all: seq<Message>, readable: Message -> bool)
    requires Balanced(delivered, now, all, readable)
    ensures delivered + Drain(now, readable) == Drain(all, readable)
  {
  }

  lemma MineJoins(a: seq<Message>, b: seq<Message>, own: NodeId)
    ensures Mine(a + b, own) == Mine(a, own) + Mine(b, own)
  {
    SelectJoin(a, b, AddressedTo(own));
  }

  lemma AddNothing(a: seq<Message>)
    ensures a + [] == a
  {
  }

  lemma DrainStops(q: seq<Message>, readable: Message -> bool)
    ensures q == [] || Select(Batch(q), readable) == [] ==> Drain(q, readable) == []
  {
  }
}
