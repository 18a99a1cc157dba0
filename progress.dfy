/** The websocket session of `websocket_endpoint`: the client is registered,
    each inbound message of type "download" produces a start event, ten
    progress ticks and a completion summary, and the client is unregistered
    when it goes away. The engine call inside the session is the one of
    `get_video_info`; its outcome is given with each message. */
module ProgressSession {
  import opened Common
  import opened VideoInfo
  import opened Registry

  /** An inbound JSON message; only `type` steers the handler. */
  datatype Inbound = Inbound(kind: Option<string>, url: Option<string>, format: Option<string>)

  /** How the handling of one message ends: normally, or by the description
      raising an HTTP error that escapes the session. */
  datatype Outcome = Handled | Crashed(reason: string)

  /** How a session ends: the client went away and was unregistered, or an
      error escaped the handler and the registration was left in place. */
  datatype SessionEnd = Closed | Aborted(reason: string)

  const StartText := "Starting download..."
  const CompleteText := "Download complete!"

  function TickText(i: nat): string
  {
    "Downloading... " + NatToString(i * 10) + "%"
  }

  function Tick(i: nat): Message
  {
    Progress(TickText(i), i * 10)
  }

  /** The first n progress ticks, at 10, 20, ..., 10n percent. */
  function Ticks(n: nat): seq<Message>
  {
    if n == 0 then [] else Ticks(n - 1) + [Tick(n)]
  }

  /** The progress part of a download run: the start event and ten ticks. */
  function ProgressRun(): seq<Message>
  {
    [Progress(StartText, 0)] + Ticks(10)
  }

  function Summary(info: Info): Message
  {
    Complete(CompleteText, info.title, info.durationString, |info.formats|)
  }

  predicate IsDownload(msg: Inbound)
  {
    msg.kind == Some("download")
  }

  /** The messages one inbound message makes the server send its client. */
  function EventsOf(msg: Inbound, extracted: Result<RawInfo>): (r: seq<Message>)
  {
    if !IsDownload(msg) then []
    else ProgressRun() + (match InfoOf(extracted) case Ok(info) => [Summary(info)] case Err(_) => [])
  }

  function OutcomeOf(msg: Inbound, extracted: Result<RawInfo>): (r: Outcome)
  {
    if !IsDownload(msg) then Handled
    else match InfoOf(extracted) case Ok(_) => Handled case Err(e) => Crashed(e)
  }

  /** What handling one message amounts to: what it sends and how it ends. */
  datatype Reply = Reply(events: seq<Message>, outcome: Outcome)

  function ReplyOf(msg: Inbound, extracted: Result<RawInfo>): Reply
  {
    Reply(EventsOf(msg, extracted), OutcomeOf(msg, extracted))
  }

  /** The replies to the messages of an inbox, in order. */
  function Replies(inbox: seq<(Inbound, Result<RawInfo>)>): (rs: seq<Reply>)
    ensures |rs| == |inbox|
  {
    if inbox == [] then [] else [ReplyOf(inbox[0].0, inbox[0].1)] + Replies(inbox[1..])
  }

  lemma {:induction false} RepliesAt(inbox: seq<(Inbound, Result<RawInfo>)>, i: nat)
    requires i < |inbox|
    ensures Replies(inbox)[i] == ReplyOf(inbox[i].0, inbox[i].1)
  {
    if i > 0 {
      RepliesAt(inbox[1..], i - 1);
    }
  }

  /** The messages a run of replies sends, up to the first one that crashes. */
  function Transcript(rs: seq<Reply>): (r: seq<Message>)
  {
    if rs == [] then []
    else rs[0].events + (if rs[0].outcome.Crashed? then [] else Transcript(rs[1..]))
  }

  function EndOf(rs: seq<Reply>): (r: SessionEnd)
  {
    if rs == [] then Closed
    else match rs[0].outcome
      case Crashed(e) => Aborted(e)
      case Handled => EndOf(rs[1..])
  }

  /** All the messages of a run of replies, ignoring crashes. */
  function Concat(rs: seq<Reply>): (r: seq<Message>)
  {
    if rs == [] then [] else Concat(rs[..|rs| - 1]) + rs[|rs| - 1].events
  }

  /** The messages a whole session sends, up to the first error that escapes. */
  function SessionEvents(inbox: seq<(Inbound, Result<RawInfo>)>): (r: seq<Message>)
  {
    Transcript(Replies(inbox))
  }

  function SessionEndOf(inbox: seq<(Inbound, Result<RawInfo>)>): (r: SessionEnd)
  {
    EndOf(Replies(inbox))
  }

  /** The event grammar every run follows: only the last event may be a
      terminal one, and progress values lie in 0..100 and strictly increase. */
  predicate ValidRun(ms: seq<Message>)
  {
    && (forall i :: 0 <= i < |ms| - 1 ==> ms[i].Progress?)
    && (forall i :: 0 <= i < |ms| && ms[i].Progress? ==> 0 <= ms[i].percent <= 100)
    && (forall i, j :: 0 <= i < j < |ms| && ms[i].Progress? && ms[j].Progress? ==>
          ms[i].percent < ms[j].percent)
  }

  lemma {:induction false} TicksShape(n: nat)
    ensures |Ticks(n)| == n
    ensures forall k :: 0 <= k < n ==> Ticks(n)[k] == Tick(k + 1)
  {
    if n > 0 {
      TicksShape(n - 1);
    }
  }

  /** The progress part: eleven progress events at 0, 10, ..., 100 percent. */
  lemma ProgressRunShape()
    ensures |ProgressRun()| == 11
    ensures forall k :: 0 <= k < 11 ==> ProgressRun()[k].Progress? && ProgressRun()[k].percent == 10 * k
  {
    TicksShape(10);
  }

  /** A "download" message makes the server send exactly eleven progress
      events at 0, 10, ..., 100 percent and then, when the description
      succeeds, exactly one summary whose format count is the length of the
      descriptor list, which is the number of kept format records. A failed
      description sends no terminal event at all. Every run is valid. */
  lemma DownloadEvents(msg: Inbound, extracted: Result<RawInfo>)
    requires IsDownload(msg)
    ensures var ev := EventsOf(msg, extracted);
      && ValidRun(ev)
      && (forall k :: 0 <= k < 11 ==> ev[k].Progress? && ev[k].percent == 10 * k)
      && (InfoOf(extracted).Ok? ==>
            |ev| == 12 && ev[11] == Summary(InfoOf(extracted).value)
            && ev[11].formats == |InfoOf(extracted).value.formats|)
      && (InfoOf(extracted).Err? ==> |ev| == 11)
  {
    ProgressRunShape();
  }

  /** The summary's format count is the number of kept format records. */
  lemma SummaryCountsKeptFormats(msg: Inbound, raw: RawInfo)
    requires IsDownload(msg) && raw.formats.Value?
    ensures var ev := EventsOf(msg, Ok(raw));
      |ev| == 12 && ev[11].Complete? && ev[11].formats == CountKept(raw.formats.v) <= |raw.formats.v|
  {
    ProgressRunShape();
    DescriptorsLength(raw.formats.v);
  }

  /** Any other message sends nothing. */
  lemma OtherMessagesSilent(msg: Inbound, extracted: Result<RawInfo>)
    requires !IsDownload(msg)
    ensures EventsOf(msg, extracted) == [] && OutcomeOf(msg, extracted) == Handled
  {
  }

  /** Splitting a run of replies after a prefix that did not crash. */
  lemma {:induction false} TranscriptAppend(a: seq<Reply>, b: seq<Reply>)
    requires EndOf(a) == Closed
    ensures Transcript(a + b) == Transcript(a) + Transcript(b)
    ensures EndOf(a + b) == EndOf(b)
  {
    if a == [] {
      assert a + b == b;
    } else {
      var ab := a + b;
      assert ab[0] == a[0];
      assert ab[1..] == a[1..] + b;
      assert a[0].outcome == Handled;
      TranscriptAppend(a[1..], b);
      assert Transcript(ab) == ab[0].events + Transcript(ab[1..]);
      assert EndOf(ab) == EndOf(ab[1..]);
      AppendAssoc(a[0].events, Transcript(a[1..]), Transcript(b));
    }
  }

  /** Before the first crash, the session sends all its replies' messages. */
  lemma {:induction false} TranscriptUntilCrash(rs: seq<Reply>, n: nat)
    requires n <= |rs|
    requires forall j :: 0 <= j < n ==> rs[j].outcome == Handled
    ensures EndOf(rs[..n]) == Closed
    ensures Transcript(rs[..n]) == Concat(rs[..n])
  {
    if n > 0 {
      TranscriptUntilCrash(rs, n - 1);
      assert rs[..n] == rs[..n - 1] + [rs[n - 1]];
      assert rs[..n][..n - 1] == rs[..n - 1];
      TranscriptAppend(rs[..n - 1], [rs[n - 1]]);
      assert [rs[n - 1]][1..] == [];
    }
  }

  /** A session stops at the first reply that crashes, with that reply's messages. */
  lemma TranscriptStopsAt(rs: seq<Reply>, i: nat)
    requires i < |rs| && EndOf(rs[..i]) == Closed
    requires rs[i].outcome.Crashed?
    ensures Transcript(rs) == Transcript(rs[..i]) + rs[i].events
    ensures EndOf(rs) == Aborted(rs[i].outcome.reason)
  {
    TranscriptAppend(rs[..i], rs[i..]);
    assert rs[..i] + rs[i..] == rs;
    assert rs[i..][0] == rs[i];
  }

  lemma {:induction false} RepliesPrefix(inbox: seq<(Inbound, Result<RawInfo>)>, n: nat)
    requires n <= |inbox|
    ensures Replies(inbox[..n]) == Replies(inbox)[..n]
  {
    if n > 0 {
      assert inbox[..n][1..] == inbox[1..][..n - 1];
      RepliesPrefix(inbox[1..], n - 1);
    }
  }

  /** An error escaping the handler of the i-th message ends the session
      there: what the client received is what the earlier messages sent plus
      that message's progress events, and none of the later messages is
      handled. */
  lemma SessionStopsAtFirstCrash(inbox: seq<(Inbound, Result<RawInfo>)>, i: nat)
    requires i < |inbox|
    requires forall j :: 0 <= j < i ==> OutcomeOf(inbox[j].0, inbox[j].1) == Handled
    requires OutcomeOf(inbox[i].0, inbox[i].1).Crashed?
    ensures SessionEvents(inbox) == SessionEvents(inbox[..i]) + EventsOf(inbox[i].0, inbox[i].1)
    ensures SessionEvents(inbox) == SessionEvents(inbox[..i + 1])
    ensures SessionEndOf(inbox) == Aborted(OutcomeOf(inbox[i].0, inbox[i].1).reason)
  {
    var rs := Replies(inbox);
    forall j | 0 <= j < i
      ensures rs[j].outcome == Handled
    {
      RepliesAt(inbox, j);
    }
    RepliesAt(inbox, i);
    TranscriptUntilCrash(rs, i);
    TranscriptStopsAt(rs, i);
    RepliesPrefix(inbox, i);
    RepliesPrefix(inbox, i + 1);
    var short := rs[..i + 1];
    assert short[..i] == rs[..i];
    TranscriptStopsAt(short, i);
  }

  /** The number of "download" messages in a session. */
  function CountDownloads(inbox: seq<(Inbound, Result<RawInfo>)>): nat
  {
    if inbox == [] then 0 else (if IsDownload(inbox[0].0) then 1 else 0) + CountDownloads(inbox[1..])
  }

  /** A session without errors sends twelve events per "download" message and
      nothing for any other message. */
  lemma {:induction false} SessionEventCount(inbox: seq<(Inbound, Result<RawInfo>)>)
    requires SessionEndOf(inbox) == Closed
    ensures |SessionEvents(inbox)| == 12 * CountDownloads(inbox)
  {
    if inbox != [] {
      SessionEventCount(inbox[1..]);
      if IsDownload(inbox[0].0) {
        DownloadEvents(inbox[0].0, inbox[0].1);
      }
    }
  }

  /** The progress part of the handler: the start event and the ten ticks
      go to the client's socket, and to no other. */
  method SendProgressRun(manager: ConnectionManager, clientId: string)
    modifies manager.active.Values
    ensures clientId in manager.active ==>
      manager.active[clientId].outbox == old(manager.active[clientId].outbox) + ProgressRun()
    ensures forall ws :: ws in manager.active.Values - Addressee(manager.active, clientId) ==>
      ws.outbox == old(ws.outbox)
  {
    manager.SendProgress(clientId, Progress(StartText, 0));
    ghost var sent := [Progress(StartText, 0)];
    for i := 1 to 11
      invariant sent == [Progress(StartText, 0)] + Ticks(i - 1)
      invariant clientId in manager.active ==>
        manager.active[clientId].outbox == old(manager.active[clientId].outbox) + sent
      invariant forall ws :: ws in manager.active.Values - Addressee(manager.active, clientId) ==>
        ws.outbox == old(ws.outbox)
    {
      manager.SendProgress(clientId, Progress("Downloading... " + NatToString(i * 10) + "%", i * 10));
      sent := sent + [Tick(i)];
    }
  }

  /** One pass of the session loop for a received message. */
  method HandleMessage(manager: ConnectionManager, clientId: string, msg: Inbound, extracted: Result<RawInfo>)
    returns (outcome: Outcome)
    modifies manager.active.Values
    ensures outcome == ReplyOf(msg, extracted).outcome
    ensures clientId in manager.active ==>
      manager.active[clientId].outbox == old(manager.active[clientId].outbox) + ReplyOf(msg, extracted).events
    ensures forall ws :: ws in manager.active.Values - Addressee(manager.active, clientId) ==>
      ws.outbox == old(ws.outbox)
  {
    if msg.kind != Some("download") {
      return Handled;
    }
    SendProgressRun(manager, clientId);
    var info := GetVideoInfo(extracted);
    if info.Err? {
      return Crashed(info.message);
    }
    manager.SendProgress(clientId, Complete(CompleteText, info.value.title, info.value.durationString, |info.value.formats|));
    return Handled;
  }

  /** Handling the i-th received message of a registered client. */
  method ServeOne(manager: ConnectionManager, clientId: string, ws: Socket,
                  inbox: seq<(Inbound, Result<RawInfo>)>, i: nat)
    returns (outcome: Outcome)
    requires i < |inbox|
    requires clientId in manager.active && manager.active[clientId] == ws
    modifies manager.active.Values
    ensures outcome == Replies(inbox)[i].outcome
    ensures ws.outbox == old(ws.outbox) + Replies(inbox)[i].events
    ensures forall other :: other in manager.active.Values && other != ws ==> other.outbox == old(other.outbox)
  {
    RepliesAt(inbox, i);
    var (msg, extracted) := inbox[i];
    outcome := HandleMessage(manager, clientId, msg, extracted);
  }

  lemma AppendAssoc(a: seq<Message>, b: seq<Message>, c: seq<Message>)
    ensures (a + b) + c == a + (b + c)
  {
  }

  /** The receive loop of the endpoint for a registered client: the
      received messages are handled in order until an error escapes or the
      client goes away (the end of the inbox). */
  method ServeInbox(manager: ConnectionManager, clientId: string, ws: Socket, inbox: seq<(Inbound, Result<RawInfo>)>)
    returns (end: SessionEnd)
    requires clientId in manager.active && manager.active[clientId] == ws
    modifies manager.active.Values
    ensures end == SessionEndOf(inbox)
    ensures ws.outbox == old(ws.outbox) + SessionEvents(inbox)
    ensures forall other :: other in manager.active.Values && other != ws ==> other.outbox == old(other.outbox)
  {
    ghost var rs := Replies(inbox);
    var i := 0;
    while i < |inbox|
      invariant 0 <= i <= |inbox|
      invariant forall j :: 0 <= j < i ==> rs[j].outcome == Handled
      invariant ws.outbox == old(ws.outbox) + Concat(rs[..i])
      invariant forall other :: other in manager.active.Values && other != ws ==> other.outbox == old(other.outbox)
    {
      var outcome := ServeOne(manager, clientId, ws, inbox, i);
      AppendAssoc(old(ws.outbox), Concat(rs[..i]), rs[i].events);
      if outcome.Crashed? {
        TranscriptUntilCrash(rs, i);
        TranscriptStopsAt(rs, i);
        return Aborted(outcome.reason);
      }
      assert rs[..i + 1][..i] == rs[..i];
      i := i + 1;
    }
    TranscriptUntilCrash(rs, |inbox|);
    assert rs[..i] == rs;
    return Closed;
  }

  /** The whole endpoint for one client: connect, serve the received
      messages, and disconnect when the client goes away. An error escaping a
      handler ends the session without the disconnect, so the client stays
      registered. */
  method RunSession(manager: ConnectionManager, clientId: string, ws: Socket, inbox: seq<(Inbound, Result<RawInfo>)>)
    returns (end: SessionEnd)
    modifies manager, manager.active.Values, ws
    ensures end == SessionEndOf(inbox)
    ensures ws.outbox == old(ws.outbox) + SessionEvents(inbox)
    ensures forall other :: other in old(manager.active.Values) && other != ws ==> other.outbox == old(other.outbox)
    ensures end.Closed? ==> manager.active == old(manager.active) - {clientId}
    ensures end.Aborted? ==> manager.active == old(manager.active)[clientId := ws]
  {
    manager.Connect(ws, clientId);
    assert manager.active.Values <= old(manager.active.Values) + {ws};
    end := ServeInbox(manager, clientId, ws, inbox);
    if end.Closed? {
      manager.Disconnect(clientId);
    }
  }
}
