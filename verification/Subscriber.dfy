/** One attached client's outgoing queue (core/subscriber.go): a channel of 256
    messages, an overflow list that merges adjacent output, and a byte budget. */
module Subscriber {
  import opened Bytes
  import opened Geometry
  import opened PaneHistory

  const CLIENT_QUEUE_LIMIT: nat := 8 * 1024 * 1024
  const CHANNEL_CAPACITY: nat := 256
  const PENDING_MAX: nat := CLIENT_QUEUE_LIMIT / HISTORY_CHUNK_MAX

  /** A control for the client; its JSON text is represented by its size. */
  datatype Notice = ResizeApplied(epoch: nat, size: Size) | OtherNotice(text: seq<byte>)

  datatype PaneOutbound =
    | Output(payload: seq<byte>, closeAfter: bool)
    | Control(notice: Notice, bytes: nat, closeAfter: bool)
  {
    function Len(): nat {
      if Output? then |payload| else bytes
    }
  }

  /** The fields of a client's queue. */
  datatype Queue = Queue(send: seq<PaneOutbound>, pending: seq<PaneOutbound>, queuedBytes: int, done: bool)

  function TotalBytes(ms: seq<PaneOutbound>): nat
  {
    if ms == [] then 0 else ms[0].Len() + TotalBytes(ms[1..])
  }

  predicate CanMerge(last: PaneOutbound, m: PaneOutbound)
  {
    last.Output? && m.Output? && !last.closeAfter && !m.closeAfter && last.Len() + m.Len() <= HISTORY_CHUNK_MAX
  }

  function EnqueueOf(q: Queue, m: PaneOutbound): (Queue, bool)
  {
    var n := |q.pending|;
    if q.done then (q, false)
    else if q.queuedBytes + m.Len() > CLIENT_QUEUE_LIMIT then (q.(done := true), false)
    else if n == 0 && |q.send| < CHANNEL_CAPACITY then
      (q.(send := q.send + [m], queuedBytes := q.queuedBytes + m.Len()), true)
    else if n > 0 && CanMerge(q.pending[n - 1], m) then
      (q.(pending := q.pending[..n - 1] + [Output(q.pending[n - 1].payload + m.payload, false)],
          queuedBytes := q.queuedBytes + m.Len()), true)
    else if n >= PENDING_MAX then (q.(done := true), false)
    else (q.(pending := q.pending + [m], queuedBytes := q.queuedBytes + m.Len()), true)
  }

  /** Moves as much of the overflow as fits into the channel. */
  function FlushOf(q: Queue): Queue
    requires |q.send| <= CHANNEL_CAPACITY
  {
    var n := Min(|q.pending|, CHANNEL_CAPACITY - |q.send|);
    q.(send := q.send + q.pending[..n], pending := q.pending[n..])
  }

  function DequeuedOf(q: Queue, size: int): Queue
    requires |q.send| <= CHANNEL_CAPACITY
  {
    if size <= 0 then q else FlushOf(q.(queuedBytes := Max(q.queuedBytes - size, 0)))
  }

  class PaneClient {
    var send: seq<PaneOutbound>
    var pending: seq<PaneOutbound>
    var queuedBytes: int
    var done: bool

    ghost function View(): Queue
      reads this
    {
      Queue(send, pending, queuedBytes, done)
    }

    constructor ()
      ensures View() == Queue([], [], 0, false)
    {
      send, pending, queuedBytes, done := [], [], 0, false;
    }

    method Close()
      modifies this`done
      ensures done
    {
      done := true;
    }

    method Enqueue(outbound: PaneOutbound) returns (accepted: bool)
      modifies this
      ensures (View(), accepted) == EnqueueOf(old(View()), outbound)
    {
      var payloadSize := outbound.Len();
      if done {
        return false;
      }
      if queuedBytes + payloadSize > CLIENT_QUEUE_LIMIT {
        Close();
        return false;
      }
      queuedBytes := queuedBytes + payloadSize;
      if |pending| == 0 && |send| < CHANNEL_CAPACITY {
        send := send + [outbound];
        return true;
      }
      if |pending| > 0 {
        var last := pending[|pending| - 1];
        if CanMerge(last, outbound) {
          pending := pending[..|pending| - 1] + [Output(last.payload + outbound.payload, false)];
          return true;
        }
      }
      if |pending| >= PENDING_MAX {
        queuedBytes := queuedBytes - payloadSize;
        Close();
        return false;
      }
      pending := pending + [outbound];
      return true;
    }

    /** The writer takes the next message from the channel. */
    method Receive() returns (outbound: PaneOutbound)
      requires send != []
      modifies this`send
      ensures outbound == old(send)[0] && send == old(send)[1..]
    {
      outbound := send[0];
      send := send[1..];
    }

    /** The writer accounts for a message it took, and refills the channel. */
    method Dequeued(size: int)
      requires |send| <= CHANNEL_CAPACITY
      modifies this`send, this`pending, this`queuedBytes
      ensures View() == DequeuedOf(old(View()), size)
    {
      if size <= 0 {
        return;
      }
      queuedBytes := Max(queuedBytes - size, 0);
      ghost var start := View();
      while |pending| > 0 && |send| < CHANNEL_CAPACITY
        invariant |send| <= CHANNEL_CAPACITY
        invariant View() == start.(send := send, pending := pending)
        invariant FlushOf(View()) == FlushOf(start)
        decreases |pending|
      {
        FlushStep(View());
        send := send + [pending[0]];
        pending := pending[1..];
      }
      assert FlushOf(View()) == View();
    }
  }

  lemma FlushStep(q: Queue)
    requires |q.pending| > 0 && |q.send| < CHANNEL_CAPACITY
    ensures FlushOf(q) == FlushOf(q.(send := q.send + [q.pending[0]], pending := q.pending[1..]))
  {
    var n := Min(|q.pending|, CHANNEL_CAPACITY - |q.send|);
    assert q.pending[..n] == [q.pending[0]] + q.pending[1..][..n - 1];
    assert q.pending[1..][n - 1..] == q.pending[n..];
  }

  // ---- what the client sees -----------------------------------------------------

  /** Output is a stream of bytes; controls keep their place in it. */
  datatype Token = Byte(b: byte) | Mark(notice: Notice, closing: bool) | Closing

  function ByteTokens(p: seq<byte>): seq<Token>
  {
    seq(|p|, i requires 0 <= i < |p| => Byte(p[i]))
  }

  function TokensOf(m: PaneOutbound): seq<Token>
  {
    match m
    case Output(payload, closeAfter) => ByteTokens(payload) + (if closeAfter then [Closing] else [])
    case Control(notice, _, closeAfter) => [Mark(notice, closeAfter)]
  }

  function Tokens(ms: seq<PaneOutbound>): seq<Token>
  {
    if ms == [] then [] else TokensOf(ms[0]) + Tokens(ms[1..])
  }

  lemma {:induction false} TokensAppend(a: seq<PaneOutbound>, b: seq<PaneOutbound>)
    ensures Tokens(a + b) == Tokens(a) + Tokens(b)
  {
    if a == [] {
      assert a + b == b;
    } else {
      TokensAppend(a[1..], b);
      assert (a + b)[1..] == a[1..] + b;
      Assoc(TokensOf(a[0]), Tokens(a[1..]), Tokens(b));
    }
  }

  lemma TokensOne(m: PaneOutbound)
    ensures Tokens([m]) == TokensOf(m) && TotalBytes([m]) == m.Len()
  {
    assert [m][1..] == [];
    assert TokensOf(m) + [] == TokensOf(m);
  }

  lemma {:induction false} TotalAppend(a: seq<PaneOutbound>, b: seq<PaneOutbound>)
    ensures TotalBytes(a + b) == TotalBytes(a) + TotalBytes(b)
  {
    if a == [] {
      assert a + b == b;
    } else {
      TotalAppend(a[1..], b);
      assert (a + b)[1..] == a[1..] + b;
    }
  }

  /** Merging two outputs changes neither the bytes nor their number. */
  lemma MergeKeeps(last: PaneOutbound, m: PaneOutbound)
    requires CanMerge(last, m)
    ensures TokensOf(Output(last.payload + m.payload, false)) == TokensOf(last) + TokensOf(m)
    ensures Output(last.payload + m.payload, false).Len() == last.Len() + m.Len()
  {}

  // ---- the client over every run ------------------------------------------------

  /** A client with the messages it accepted and delivered so far, and the size of
      a message taken from the channel but not yet accounted for. */
  datatype Client = Client(queue: Queue, accepted: seq<PaneOutbound>, received: seq<PaneOutbound>, taken: Option<nat>)

  const NEW_CLIENT := Client(Queue([], [], 0, false), [], [], None)

  datatype ClientEvent = Enqueue(m: PaneOutbound) | Receive | Account | CloseClient

  function EnqueueClient(c: Client, m: PaneOutbound): Client
  {
    var (q, ok) := EnqueueOf(c.queue, m);
    c.(queue := q, accepted := if ok then c.accepted + [m] else c.accepted)
  }

  function ClientStep(c: Client, e: ClientEvent): Client
  {
    match e
    case Enqueue(m) => EnqueueClient(c, m)
    case Receive =>
      if c.taken.None? && c.queue.send != [] then
        c.(queue := c.queue.(send := c.queue.send[1..]), received := c.received + [c.queue.send[0]],
           taken := Some(c.queue.send[0].Len()))
      else c
    case Account =>
      if c.taken.Some? && |c.queue.send| <= CHANNEL_CAPACITY
      then c.(queue := DequeuedOf(c.queue, c.taken.value), taken := None)
      else c
    case CloseClient => c.(queue := c.queue.(done := true))
  }

  function ClientRun(c: Client, events: seq<ClientEvent>): Client
  {
    if events == [] then c
    else ClientStep(ClientRun(c, events[..|events| - 1]), events[|events| - 1])
  }

  /** Everything still on its way to the client, in order. */
  function InTransit(q: Queue): seq<PaneOutbound>
  {
    q.send + q.pending
  }

  /** The queue is a bounded FIFO up to merging adjacent output, its byte counter
      is exact, and nothing waits behind a channel with room. */
  ghost predicate ClientInv(c: Client)
  {
    && Tokens(c.accepted) == Tokens(c.received) + Tokens(InTransit(c.queue))
    && c.queue.queuedBytes == TotalBytes(InTransit(c.queue)) + (if c.taken.Some? then c.taken.value else 0)
    && c.queue.queuedBytes <= CLIENT_QUEUE_LIMIT
    && |c.queue.send| <= CHANNEL_CAPACITY && |c.queue.pending| <= PENDING_MAX
    && Tight(c.queue.pending)
    && (NonEmpty(c.accepted) ==>
          && NonEmpty(c.queue.send) && NonEmpty(c.queue.pending) && (c.taken.Some? ==> c.taken.value > 0)
          && (c.queue.pending != [] ==> |c.queue.send| + (if c.taken.Some? then 1 else 0) >= CHANNEL_CAPACITY))
  }

  ghost predicate NonEmpty(ms: seq<PaneOutbound>)
  {
    forall i :: 0 <= i < |ms| ==> ms[i].Len() > 0
  }

  /** Neighbours in the overflow could not have been merged. */
  ghost predicate Tight(ms: seq<PaneOutbound>)
  {
    forall i, j :: 0 <= i < |ms| && 0 <= j < |ms| && j == i + 1 ==> !CanMerge(ms[i], ms[j])
  }

  lemma EnqueueKeepsTokens(q: Queue, m: PaneOutbound)
    ensures EnqueueOf(q, m).1 ==>
              && Tokens(InTransit(EnqueueOf(q, m).0)) == Tokens(InTransit(q)) + TokensOf(m)
              && TotalBytes(InTransit(EnqueueOf(q, m).0)) == TotalBytes(InTransit(q)) + m.Len()
    ensures !EnqueueOf(q, m).1 ==> EnqueueOf(q, m).0 == q.(done := EnqueueOf(q, m).0.done)
  {
    var (z, ok) := EnqueueOf(q, m);
    var n := |q.pending|;
    if ok {
      TokensOne(m);
      if n == 0 || !CanMerge(q.pending[n - 1], m) {
        assert InTransit(z) == InTransit(q) + [m];
        TokensAppend(InTransit(q), [m]);
        TotalAppend(InTransit(q), [m]);
      } else {
        MergedTokens(q.send + q.pending[..n - 1], q.pending[n - 1], m);
        assert InTransit(q) == q.send + q.pending[..n - 1] + [q.pending[n - 1]];
        assert InTransit(z) == q.send + q.pending[..n - 1] + [Output(q.pending[n - 1].payload + m.payload, false)];
      }
    }
  }

  lemma MergedTokens(front: seq<PaneOutbound>, last: PaneOutbound, m: PaneOutbound)
    requires CanMerge(last, m)
    ensures var merged := Output(last.payload + m.payload, false);
            && Tokens(front + [merged]) == Tokens(front + [last]) + TokensOf(m)
            && TotalBytes(front + [merged]) == TotalBytes(front + [last]) + m.Len()
  {
    var merged := Output(last.payload + m.payload, false);
    MergeKeeps(last, m);
    TokensOne(merged);
    TokensOne(last);
    TokensAppend(front, [merged]);
    TokensAppend(front, [last]);
    TotalAppend(front, [merged]);
    TotalAppend(front, [last]);
    hide Tokens, TotalBytes, TokensOf;
    Assoc(Tokens(front), TokensOf(last), TokensOf(m));
  }

  lemma EnqueueKeepsShape(c: Client, m: PaneOutbound)
    requires ClientInv(c)
    ensures var z := EnqueueClient(c, m);
            && |z.queue.send| <= CHANNEL_CAPACITY && |z.queue.pending| <= PENDING_MAX && Tight(z.queue.pending)
            && (NonEmpty(z.accepted) ==>
                  && NonEmpty(c.accepted) && NonEmpty(z.queue.send) && NonEmpty(z.queue.pending)
                  && (z.queue.pending != [] ==> |z.queue.send| + (if z.taken.Some? then 1 else 0) >= CHANNEL_CAPACITY))
  {
    hide Tokens, TotalBytes;
    var z := EnqueueClient(c, m);
    if NonEmpty(z.accepted) && EnqueueOf(c.queue, m).1 {
      assert z.accepted[|c.accepted|] == m;
      forall i | 0 <= i < |c.accepted| ensures c.accepted[i].Len() > 0 {
        assert z.accepted[i] == c.accepted[i];
      }
    }
  }

  lemma ClientEnqueue(c: Client, m: PaneOutbound)
    requires ClientInv(c)
    ensures ClientInv(EnqueueClient(c, m))
  {
    hide Tokens, TotalBytes, Tight, NonEmpty, TokensOf, CanMerge;
    EnqueueKeepsTokens(c.queue, m);
    EnqueueKeepsShape(c, m);
    TokensAppend(c.accepted, [m]);
    TokensOne(m);
    Assoc(Tokens(c.received), Tokens(InTransit(c.queue)), TokensOf(m));
  }

  lemma ClientReceive(c: Client)
    requires ClientInv(c) && c.taken.None? && c.queue.send != []
    ensures ClientInv(ClientStep(c, Receive))
  {
    var m, rest := c.queue.send[0], c.queue.send[1..] + c.queue.pending;
    assert InTransit(c.queue) == [m] + rest;
    assert InTransit(ClientStep(c, Receive).queue) == rest;
    TokensAppend([m], rest);
    TokensAppend(c.received, [m]);
    TotalAppend([m], rest);
    TokensOne(m);
    hide Tokens, TotalBytes, TokensOf;
    Assoc(Tokens(c.received), Tokens([m]), Tokens(rest));
  }

  lemma ClientAccount(c: Client)
    requires ClientInv(c) && c.taken.Some?
    ensures ClientInv(ClientStep(c, Account))
  {
    var q := c.queue;
    var n := Min(|q.pending|, CHANNEL_CAPACITY - |q.send|);
    assert q.send + q.pending[..n] + q.pending[n..] == q.send + q.pending;
    hide Tokens, TotalBytes;
  }

  lemma {:induction false} ClientRuns(events: seq<ClientEvent>)
    ensures ClientInv(ClientRun(NEW_CLIENT, events))
  {
    if events != [] {
      var before, e := events[..|events| - 1], events[|events| - 1];
      var c := ClientRun(NEW_CLIENT, before);
      ClientRuns(before);
      match e
      case Enqueue(m) => ClientEnqueue(c, m);
      case Receive => if c.taken.None? && c.queue.send != [] { ClientReceive(c); }
      case Account => if c.taken.Some? { ClientAccount(c); }
      case CloseClient =>
    }
  }

  /** Once the writer has accounted for a message, overflow waits only behind a
      full channel. */
  lemma NeverStranded(events: seq<ClientEvent>)
    ensures var c := ClientRun(NEW_CLIENT, events);
            NonEmpty(c.accepted) && c.taken.None? && c.queue.pending != [] ==> |c.queue.send| == CHANNEL_CAPACITY
  {
    ClientRuns(events);
  }

  predicate OutputOnly(ms: seq<PaneOutbound>)
  {
    forall i :: 0 <= i < |ms| ==> ms[i].Output? && !ms[i].closeAfter
  }

  lemma {:induction false} TightTotal(ms: seq<PaneOutbound>, pairs: nat)
    requires Tight(ms) && |ms| == 2 * pairs
    requires OutputOnly(ms)
    ensures TotalBytes(ms) >= pairs * (HISTORY_CHUNK_MAX + 1)
    decreases pairs
  {
    if pairs > 0 {
      var rest := ms[2..];
      assert forall i, j :: 0 <= i < |rest| && 0 <= j < |rest| && j == i + 1 ==> rest[i] == ms[i + 2] && rest[j] == ms[j + 2];
      TightTotal(rest, pairs - 1);
      assert !CanMerge(ms[0], ms[1]);
      assert TotalBytes(ms) == ms[0].Len() + TotalBytes(ms[1..]);
      assert ms[1..][0] == ms[1] && ms[1..][1..] == rest;
    }
  }

  /** A client that is only sent output is never cut off for the number of its
      messages: it must be more than 4 MiB behind. */
  lemma CutOffOnlyWhenBehind(events: seq<ClientEvent>, m: PaneOutbound)
    ensures var c := ClientRun(NEW_CLIENT, events);
            OutputOnly(c.queue.pending) && !c.queue.done && !EnqueueOf(c.queue, m).1 ==>
              c.queue.queuedBytes + m.Len() > 4 * 1024 * 1024
  {
    var c := ClientRun(NEW_CLIENT, events);
    ClientRuns(events);
    hide ClientRun, Tokens, TotalBytes;
    var full := c.queue.pending;
    if OutputOnly(full) && |full| == PENDING_MAX {
      hide OutputOnly, Tight, NonEmpty;
      TightTotal(full, 128);
      TotalAppend(c.queue.send, full);
    }
  }

  /** The message joins the last one that waits. */
  predicate Joins(q: Queue, m: PaneOutbound)
  {
    && q.pending != []
    && var last := q.pending[|q.pending| - 1];
    last.Output? && m.Output? && !last.closeAfter && !m.closeAfter && |last.payload| + |m.payload| <= 32 * 1024
  }

  /** Exactly when a message is accepted, on every run, and where it goes: a client is cut
      off when more than 8 MiB would be on their way, or when 256 messages wait behind the
      channel and it cannot join the last of them; it goes into the channel while that has
      room and nothing waits. */
  lemma EnqueueExactly(events: seq<ClientEvent>, m: PaneOutbound)
    ensures var c := ClientRun(NEW_CLIENT, events);
            var q, z, accepted := c.queue, EnqueueOf(c.queue, m).0, EnqueueOf(c.queue, m).1;
            var behind := TotalBytes(q.send) + TotalBytes(q.pending) + (if c.taken.Some? then c.taken.value else 0) + m.Len();
            && (accepted <==> !q.done && behind <= 8 * 1024 * 1024 && (|q.pending| < 256 || Joins(q, m)))
            && z.done == (q.done || !accepted)
            && z.send == (if accepted && q.pending == [] && |q.send| < 256 then q.send + [m] else q.send)
            && z.pending == (if !accepted || (q.pending == [] && |q.send| < 256) then q.pending
                             else if Joins(q, m)
                             then q.pending[..|q.pending| - 1] + [Output(q.pending[|q.pending| - 1].payload + m.payload, false)]
                             else q.pending + [m])
  {
    var c := ClientRun(NEW_CLIENT, events);
    ClientRuns(events);
    TotalAppend(c.queue.send, c.queue.pending);
    hide ClientRun, Tokens, TotalBytes, Tight;
  }
}
