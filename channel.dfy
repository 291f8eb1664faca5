/** The framed classical channel: `recv_single_msg`, `send_single_msg`,
    `sendClassicalAssured` and `recvClassicalAssured`. The socket is a script
    of the chunks that its successive `recv()` calls return; the messages left
    over from one read (the module-global `buf_msgs`) belong to the channel. */
module FramedChannel {
  import opened Wrappers
  import opened Framing

  /** Why a receive raises instead of returning a message. */
  datatype RecvError =
    | NoData       // the script is exhausted: the real socket would block forever
    | NoDelimiter  // the chunk read holds no "EOF", so `msgs[0]` raises IndexError

  /** The receiving side: buffered leftover messages and the chunks the socket
      has still to deliver, in order. */
  datatype Link = Link(buffer: seq<string>, incoming: seq<string>)

  /** A result together with the receiving side after producing it. */
  datatype After<T> = After(result: Result<T, RecvError>, link: Link)

  /** One `recv_single_msg`. A buffer hit pops the front message and leaves
      the socket alone; a miss reads one chunk, returns its first message and
      queues the rest behind it; a chunk without a delimiter raises and queues
      nothing. Every successful receive consumes a buffered message or a
      chunk. */
  function Recv(l: Link): (r: After<string>)
    ensures |l.buffer| > 0 ==>
      r.result == Ok(l.buffer[0]) && r.link == Link(l.buffer[1..], l.incoming)
    ensures |l.buffer| == 0 && |l.incoming| == 0 ==> r == After(Err(NoData), l)
    ensures |l.buffer| == 0 && |l.incoming| > 0 ==>
      r.link.incoming == l.incoming[1..] &&
      (r.result.Ok? <==> ContainsEOF(l.incoming[0])) &&
      (r.result.Err? ==> r.result.error == NoDelimiter && r.link.buffer == []) &&
      (r.result.Ok? ==> [r.result.value] + r.link.buffer == Messages(l.incoming[0]))
    ensures r.result.Ok? ==>
      (r.link.incoming == l.incoming && |r.link.buffer| < |l.buffer|) ||
      |r.link.incoming| < |l.incoming|
  {
    if |l.buffer| > 0 then
      After(Ok(l.buffer[0]), Link(l.buffer[1..], l.incoming))
    else if |l.incoming| == 0 then
      After(Err(NoData), l)
    else
      var msgs := Messages(l.incoming[0]);
      if |msgs| == 0 then After(Err(NoDelimiter), Link(l.buffer, l.incoming[1..]))
      else After(Ok(msgs[0]), Link(msgs[1..], l.incoming[1..]))
  }

  /** `n` successive receives, stopping at the first that raises. */
  function RecvMany(l: Link, n: nat): (r: After<seq<string>>)
    ensures r.result.Ok? ==> |r.result.value| == n
    decreases n
  {
    if n == 0 then After(Ok([]), l)
    else
      var first := Recv(l);
      match first.result
      case Err(e) => After(Err(e), first.link)
      case Ok(m) =>
        var rest := RecvMany(first.link, n - 1);
        match rest.result
        case Err(e) => After(Err(e), rest.link)
        case Ok(ms) => After(Ok([m] + ms), rest.link)
  }

  /** The spin loop of `sendClassicalAssured`: receive until a message equals
      "ACK", discarding every other message. It only ever consumes input, and
      it fails with NoData only once buffer and socket are both used up. */
  function AwaitAck(l: Link): (r: After<()>)
    ensures |r.link.incoming| <= |l.incoming|
    ensures r.result == Err(NoData) ==> r.link == Link([], [])
    decreases |l.incoming|, |l.buffer|
  {
    var step := Recv(l);
    match step.result
    case Err(e) => After(Err(e), step.link)
    case Ok(m) => if m == "ACK" then After(Ok(()), step.link) else AwaitAck(step.link)
  }

  /** The single chunk per group that a reader sees when the peer's frames
      arrive grouped: each chunk holds the frames of one group back to back. */
  function Chunks(groups: seq<seq<string>>): (cs: seq<string>)
    ensures |cs| == |groups|
    decreases |groups|
  {
    if |groups| == 0 then [] else [FrameAll(groups[0])] + Chunks(groups[1..])
  }

  /** The messages of all groups, in order. */
  function Flatten(groups: seq<seq<string>>): seq<string>
    decreases |groups|
  {
    if |groups| == 0 then [] else groups[0] + Flatten(groups[1..])
  }

  /** The groups a stream is read in: none empty, no message holding "EOF". */
  predicate Grouping(groups: seq<seq<string>>)
  {
    forall j :: 0 <= j < |groups| ==> |groups[j]| > 0 && Framable(groups[j])
  }

  /** Buffered messages are replayed before the socket is read: `n` receives
      after buffered `b` return `b` and then what `n - |b|` receives on an
      empty buffer return. */
  lemma {:induction false} ReplayBuffer(b: seq<string>, incoming: seq<string>, n: nat)
    requires n >= |b|
    ensures var whole := RecvMany(Link(b, incoming), n);
            var later := RecvMany(Link([], incoming), n - |b|);
            whole.link == later.link &&
            whole.result == (match later.result
                             case Ok(ms) => Ok(b + ms)
                             case Err(e) => Err(e))
    decreases |b|
  {
    if |b| > 0 {
      var l := Link(b, incoming);
      assert Recv(l) == After(Ok(b[0]), Link(b[1..], incoming));
      ReplayBuffer(b[1..], incoming, n - 1);
      var later := RecvMany(Link([], incoming), n - |b|);
      assert n - 1 - |b[1..]| == n - |b|;
      if later.result.Ok? {
        assert [b[0]] + (b[1..] + later.result.value) == b + later.result.value;
      }
    } else {
      assert b + [] == b;
      var later := RecvMany(Link([], incoming), n);
      if later.result.Ok? {
        assert b + later.result.value == later.result.value;
      }
    }
  }

  /** Framing round trip over the stream: however the peer's messages
      `m1..mk` (none holding "EOF", each sent as its frame) are grouped into
      chunks along frame boundaries, successive receives return the buffered
      messages and then `m1..mk`, in order, using up buffer and script. */
  lemma {:induction false} ReceiveInOrder(b: seq<string>, groups: seq<seq<string>>)
    requires Grouping(groups)
    ensures RecvMany(Link(b, Chunks(groups)), |b| + |Flatten(groups)|)
         == After(Ok(b + Flatten(groups)), Link([], []))
    decreases |groups|, 1
  {
    ReplayBuffer(b, Chunks(groups), |b| + |Flatten(groups)|);
    assert |b| + |Flatten(groups)| - |b| == |Flatten(groups)|;
    ReceiveFromSocket(groups);
  }

  /** The same with nothing buffered: the chunks alone yield every group in
      order. */
  lemma {:induction false} ReceiveFromSocket(groups: seq<seq<string>>)
    requires Grouping(groups)
    ensures RecvMany(Link([], Chunks(groups)), |Flatten(groups)|)
         == After(Ok(Flatten(groups)), Link([], []))
    decreases |groups|, 0
  {
    if |groups| > 0 {
      var g := groups[0];
      GroupingTail(groups);
      RecvFirstOfGroup(groups);
      ReceiveInOrder(g[1..], groups[1..]);
      var ms := g[1..] + Flatten(groups[1..]);
      FlattenFirst(groups);
      RecvManyCons(Link([], Chunks(groups)), |Flatten(groups)|, g[0], ms,
                   Link(g[1..], Chunks(groups[1..])));
    } else {
      assert Link([], Chunks(groups)) == Link([], []);
    }
  }

  /** Dropping the first group keeps a grouping. */
  lemma GroupingTail(groups: seq<seq<string>>)
    requires Grouping(groups) && |groups| > 0
    ensures Grouping(groups[1..])
  {
    forall j | 0 <= j < |groups| - 1
      ensures |groups[1..][j]| > 0 && Framable(groups[1..][j])
    {
      assert groups[1..][j] == groups[j + 1];
    }
  }

  /** The first message of a non-empty first group heads the flattening. */
  lemma FlattenFirst(groups: seq<seq<string>>)
    requires |groups| > 0 && |groups[0]| > 0
    ensures Flatten(groups) == [groups[0][0]] + (groups[0][1..] + Flatten(groups[1..]))
    ensures |Flatten(groups)| == 1 + |groups[0][1..] + Flatten(groups[1..])|
  {
    var g := groups[0];
    assert [g[0]] + (g[1..] + Flatten(groups[1..])) == g + Flatten(groups[1..]);
  }

  /** A receive of `m` followed by receives of `ms` that use everything up. */
  lemma RecvManyCons(l: Link, n: nat, m: string, ms: seq<string>, next: Link)
    requires n == 1 + |ms|
    requires Recv(l) == After(Ok(m), next)
    requires RecvMany(next, n - 1) == After(Ok(ms), Link([], []))
    ensures RecvMany(l, n) == After(Ok([m] + ms), Link([], []))
  {
  }

  /** On an empty buffer the first receive takes the first chunk, returns its
      first message and buffers the rest of its group. */
  lemma RecvFirstOfGroup(groups: seq<seq<string>>)
    requires |groups| > 0 && |groups[0]| > 0 && Framable(groups[0])
    ensures Recv(Link([], Chunks(groups)))
         == After(Ok(groups[0][0]), Link(groups[0][1..], Chunks(groups[1..])))
  {
    var g := groups[0];
    MessagesOfFrames(g, "");
    assert FrameAll(g) + "" == FrameAll(g);
    assert Chunks(groups)[0] == FrameAll(g);
    assert Chunks(groups)[1..] == Chunks(groups[1..]);
  }

  /** The ACK loop discards exactly the messages before the first "ACK":
      if `n` receives would return `ms` and `ms[i]` is the first "ACK", the
      loop succeeds and the remaining receives return `ms[i + 1..]`, ending in
      the same state. */
  lemma {:induction false} AwaitAckDiscardsUntilAck(l: Link, n: nat, i: nat)
    requires RecvMany(l, n).result.Ok?
    requires i < n
    requires RecvMany(l, n).result.value[i] == "ACK"
    requires forall j :: 0 <= j < i ==> RecvMany(l, n).result.value[j] != "ACK"
    ensures AwaitAck(l).result == Ok(())
    ensures RecvMany(AwaitAck(l).link, n - i - 1)
         == After(Ok(RecvMany(l, n).result.value[i + 1..]), RecvMany(l, n).link)
    decreases i
  {
    var first := Recv(l);
    var rest := RecvMany(first.link, n - 1);
    assert first.result.Ok? && rest.result.Ok?;
    var ms := RecvMany(l, n).result.value;
    assert ms == [first.result.value] + rest.result.value;
    if i > 0 {
      forall j | 0 <= j < i - 1 ensures rest.result.value[j] != "ACK" {
        assert rest.result.value[j] == ms[j + 1];
      }
      assert first.result.value == ms[0] != "ACK";
      assert AwaitAck(l) == AwaitAck(first.link);
      assert RecvMany(l, n).link == rest.link;
      AwaitAckDiscardsUntilAck(first.link, n - 1, i - 1);
      assert rest.result.value[i..] == ms[i + 1..];
    } else {
      assert rest.result.value == ms[1..];
    }
  }

  /** Without any "ACK" in what the script delivers, the loop reads the whole
      script and then waits for more: on a scripted socket it ends in
      `NoData`, standing for the unbounded wait on a real one. */
  lemma {:induction false} AwaitAckWithoutAck(l: Link, n: nat)
    requires RecvMany(l, n).result.Ok? && RecvMany(l, n).link == Link([], [])
    requires forall j :: 0 <= j < n ==> RecvMany(l, n).result.value[j] != "ACK"
    ensures AwaitAck(l) == After(Err(NoData), Link([], []))
    decreases n
  {
    if n == 0 {
      assert l == Link([], []);
    } else {
      var first := Recv(l);
      var rest := RecvMany(first.link, n - 1);
      var ms := RecvMany(l, n).result.value;
      assert first.result.Ok? && rest.result.Ok?;
      assert ms == [first.result.value] + rest.result.value;
      assert first.result.value == ms[0] != "ACK";
      forall j | 0 <= j < n - 1 ensures rest.result.value[j] != "ACK" {
        assert rest.result.value[j] == ms[j + 1];
      }
      AwaitAckWithoutAck(first.link, n - 1);
    }
  }

  /** `sendClassicalAssured` over a framed stream: when the peer's messages,
      read after buffered `b`, hold an "ACK" whose first occurrence is at `i`,
      the loop succeeds, and the remaining receives return exactly the
      messages after that "ACK". */
  lemma AssuredSendOnFramedStream(b: seq<string>, groups: seq<seq<string>>, i: nat)
    requires Grouping(groups)
    requires i < |b + Flatten(groups)| && (b + Flatten(groups))[i] == "ACK"
    requires forall j :: 0 <= j < i ==> (b + Flatten(groups))[j] != "ACK"
    ensures AwaitAck(Link(b, Chunks(groups))).result == Ok(())
    ensures RecvMany(AwaitAck(Link(b, Chunks(groups))).link, |b + Flatten(groups)| - i - 1)
         == After(Ok((b + Flatten(groups))[i + 1..]), Link([], []))
  {
    var ms := b + Flatten(groups);
    ReceiveInOrder(b, groups);
    assert |ms| == |b| + |Flatten(groups)|;
    AckInDelivered(Link(b, Chunks(groups)), ms, i);
  }

  /** `AwaitAckDiscardsUntilAck` for a link whose receives deliver exactly
      `ms` and use everything up. */
  lemma AckInDelivered(l: Link, ms: seq<string>, i: nat)
    requires RecvMany(l, |ms|) == After(Ok(ms), Link([], []))
    requires i < |ms| && ms[i] == "ACK"
    requires forall j :: 0 <= j < i ==> ms[j] != "ACK"
    ensures AwaitAck(l).result == Ok(())
    ensures RecvMany(AwaitAck(l).link, |ms| - i - 1) == After(Ok(ms[i + 1..]), Link([], []))
  {
    AwaitAckDiscardsUntilAck(l, |ms|, i);
  }

  /** Channel state held by one endpoint: the leftover-message queue, the
      chunks its socket will still deliver, and everything written so far. */
  class Channel {
    var buffer: seq<string>
    var incoming: seq<string>
    var sent: seq<string>

    /** A fresh channel over a socket that will deliver `script`. */
    constructor (script: seq<string>)
      ensures buffer == [] && incoming == script && sent == []
    {
      buffer, incoming, sent := [], script, [];
    }

    /** The receiving side as a value. */
    function State(): Link
      reads this
    {
      Link(buffer, incoming)
    }

    /** `recv_single_msg`. */
    method RecvSingleMsg() returns (r: Result<string, RecvError>)
      modifies this
      ensures r == Recv(old(State())).result
      ensures State() == Recv(old(State())).link
      ensures sent == old(sent)
    {
      if |buffer| > 0 {
        r := Ok(buffer[0]);
        buffer := buffer[1..];
      } else if |incoming| == 0 {
        r := Err(NoData);
      } else {
        var chunk := incoming[0];
        incoming := incoming[1..];
        var msgs := Messages(chunk);
        buffer := buffer + (if |msgs| > 1 then msgs[1..] else []);
        if |msgs| == 0 {
          r := Err(NoDelimiter);
        } else {
          r := Ok(msgs[0]);
        }
      }
    }

    /** `send_single_msg`: one frame onto the wire. */
    method SendSingleMsg(msg: string)
      modifies this
      ensures sent == old(sent) + [Frame(msg)]
      ensures State() == old(State())
    {
      sent := sent + [Frame(msg)];
    }

    /** `sendClassicalAssured` on already serialised `data`: sends it once,
      then receives until a message equals "ACK". */
    method SendClassicalAssured(data: string) returns (r: Result<(), RecvError>)
      modifies this
      ensures sent == old(sent) + [Frame(data)]
      ensures r == AwaitAck(old(State())).result
      ensures State() == AwaitAck(old(State())).link
    {
      SendSingleMsg(data);
      ghost var start := State();
      while true
        invariant AwaitAck(State()) == AwaitAck(start)
        invariant sent == old(sent) + [Frame(data)]
        decreases |incoming|, |buffer|
      {
        var m := RecvSingleMsg();
        if m.Err? {
          return Err(m.error);
        }
        if m.value == "ACK" {
          return Ok(());
        }
      }
    }

    /** `recvClassicalAssured` returning the serialised payload: one receive,
      then one "ACK" frame back; a receive that raises sends nothing. */
    method RecvClassicalAssured() returns (r: Result<string, RecvError>)
      modifies this
      ensures r == Recv(old(State())).result
      ensures State() == Recv(old(State())).link
      ensures sent == if r.Ok? then old(sent) + [Frame("ACK")] else old(sent)
    {
      r := RecvSingleMsg();
      if r.Ok? {
        SendSingleMsg("ACK");
      }
    }
  }
}
