/** The connection registry `ConnectionManager`: a dictionary from client id to
    websocket that `connect` assigns (overwriting any earlier socket under the
    same id), `disconnect` deletes from when present, and `send_progress`
    looks a socket up in. Sending on a socket is its outbox growing. */
module Registry {
  import opened Common

  /** The JSON messages the server pushes to a client. */
  datatype Message =
    | Progress(text: string, percent: int)
    | Complete(text: string, title: Option<string>, duration: Option<string>, formats: nat)

  /** A client's websocket; `outbox` is everything sent on it so far. */
  class Socket {
    var outbox: seq<Message>

    constructor ()
      ensures outbox == []
    {
      outbox := [];
    }
  }

  /** A registry mutation, as a value, so that runs of them can be reasoned about. */
  datatype Op = Connect(id: string, ws: Socket) | Disconnect(id: string)

  /** The table after one mutation: the id touched is bound to the new socket
      (connect, replacing any earlier one) or unbound (disconnect, whether or
      not it was bound), and every other id keeps its binding. */
  function Step(m: map<string, Socket>, op: Op): (r: map<string, Socket>)
    ensures forall k :: k != op.id ==> (k in r <==> k in m)
    ensures forall k :: k != op.id && k in m ==> r[k] == m[k]
    ensures op.Connect? ==> op.id in r && r[op.id] == op.ws
    ensures op.Disconnect? ==> op.id !in r
  {
    match op
    case Connect(id, ws) => m[id := ws]
    case Disconnect(id) => m - {id}
  }

  /** The table after a run of mutations, applied in order. */
  function Replay(m: map<string, Socket>, ops: seq<Op>): (r: map<string, Socket>)
  {
    if ops == [] then m else Step(Replay(m, ops[..|ops| - 1]), ops[|ops| - 1])
  }

  /** The most recent mutation of a run that touches `id`. */
  function LastOpOn(ops: seq<Op>, id: string): (r: Option<Op>)
    ensures r.Some? ==> r.value in ops && r.value.id == id
  {
    if ops == [] then None
    else if ops[|ops| - 1].id == id then Some(ops[|ops| - 1])
    else LastOpOn(ops[..|ops| - 1], id)
  }

  /** After any run of connects and disconnects, an id is registered exactly
      when the last mutation touching it was a connect (or, if none touched
      it, when it was registered before), and it is then bound to the socket
      of that connect. */
  lemma {:induction false} RegisteredIffLastConnect(m: map<string, Socket>, ops: seq<Op>, id: string)
    ensures id in Replay(m, ops) <==>
      (if LastOpOn(ops, id).Some? then LastOpOn(ops, id).value.Connect? else id in m)
    ensures LastOpOn(ops, id).Some? && LastOpOn(ops, id).value.Connect? ==>
      Replay(m, ops)[id] == LastOpOn(ops, id).value.ws
    ensures LastOpOn(ops, id).None? && id in m ==> Replay(m, ops)[id] == m[id]
  {
    if ops != [] {
      RegisteredIffLastConnect(m, ops[..|ops| - 1], id);
    }
  }

  /** Disconnecting is idempotent: a second disconnect of the same id is a no-op. */
  lemma DisconnectIdempotent(m: map<string, Socket>, id: string)
    ensures Step(Step(m, Disconnect(id)), Disconnect(id)) == Step(m, Disconnect(id))
    ensures id !in m ==> Step(m, Disconnect(id)) == m
  {
  }

  /** The sockets a send to `id` reaches: the one registered under it, if any. */
  function Addressee(m: map<string, Socket>, id: string): (r: set<Socket>)
  {
    if id in m then {m[id]} else {}
  }

  class ConnectionManager {
    var active: map<string, Socket>

    constructor ()
      ensures active == map[]
    {
      active := map[];
    }

    /** `connect`: the socket is accepted (transport, not modelled) and
        stored under the id by plain assignment. */
    method Connect(websocket: Socket, clientId: string)
      modifies this
      ensures active == Step(old(active), Op.Connect(clientId, websocket))
    {
      active := active[clientId := websocket];
    }

    /** `disconnect`: deletes the id if it is present. */
    method Disconnect(clientId: string)
      modifies this
      ensures active == Step(old(active), Op.Disconnect(clientId))
    {
      if clientId in active {
        active := active - {clientId};
      }
    }

    /** `send_progress`: the message goes to the socket registered under the
        id, if any; an unknown id is silently ignored, and no other socket
        and no registration changes. */
    method SendProgress(clientId: string, message: Message)
      modifies active.Values
      ensures clientId in active ==>
        active[clientId].outbox == old(active[clientId].outbox) + [message]
      ensures forall ws :: ws in active.Values - Addressee(active, clientId) ==> ws.outbox == old(ws.outbox)
    {
      if clientId in active {
        var ws := active[clientId];
        ws.outbox := ws.outbox + [message];
      }
    }
  }

  /** A message sent while the client is connected reaches its socket; one
      sent after it disconnected is dropped without an error. */
  method SendAfterDisconnect(clientId: string, m: Message, late: Message) returns (received: seq<Message>, registered: bool)
    ensures received == [m]
    ensures !registered
  {
    var manager := new ConnectionManager();
    var ws := new Socket();
    manager.Connect(ws, clientId);
    manager.SendProgress(clientId, m);
    manager.Disconnect(clientId);
    manager.Disconnect(clientId);
    manager.SendProgress(clientId, late);
    received := ws.outbox;
    registered := clientId in manager.active;
  }

  /** A second connect under the same id takes the id over: later messages
      go to the new socket only. */
  method ReconnectTakesOver(clientId: string, m: Message) returns (first: seq<Message>, second: seq<Message>)
    ensures first == [] && second == [m]
  {
    var manager := new ConnectionManager();
    var ws1 := new Socket();
    var ws2 := new Socket();
    manager.Connect(ws1, clientId);
    manager.Connect(ws2, clientId);
    manager.SendProgress(clientId, m);
    first, second := ws1.outbox, ws2.outbox;
  }
}
