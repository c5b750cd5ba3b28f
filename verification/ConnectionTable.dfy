/** The server's connection table and command queue (server/Server.cpp:36-49,
    91-111, 197-262): descriptors are looked up through `fdToId`, which is never
    pruned, and then `connections`. Each event of the loop and each call from the
    thread pool is one step; connections are the values of ServerSpec. */
module ConnectionTable {
  import opened Encoders
  import opened Crypto
  import opened Frames
  import opened ServerSpec
  import opened ServerLaws
  import opened ServerTheorems
  import opened Router

  /** A handler's answer: the arguments of respond. */
  datatype Answering = Answering(request: Request, data: Bytes, status: Byte)

  /** `answers` is the answer a SEND command was created for, None for a push. */
  datatype Command =
    | SendCmd(connId: nat, frame: Frame, answers: Option<Answering>)
    | CloseCmd(connId: nat)

  /** What the server was set up with. `absorbs` tells for which connections the
      error callback returns true when a command finds them gone; without such a
      callback it is false throughout and the default handler throws
      (server/Server.cpp:74-76, 178-185, 270-272). */
  datatype Setup = Setup(conn: Config, absorbs: nat -> bool)

  /** `requests` are those handed to the pool so far; `crashed` is the process
      lost in the close/send recursion of some connection; `threw` is the loop
      left by an exception of the error handler, which nothing catches. */
  datatype Table = Table(
    connections: map<nat, Conn>, fdToId: map<int, nat>, connCount: nat,
    queue: seq<Command>, requests: seq<Request>, crashed: bool, threw: bool)

  const EMPTY: Table := Table(map[], map[], 0, [], [], false, false)

  datatype Event =
    | Accept(fd: int)
    | HangUp(fd: int)
    | Readable(fd: int, input: Input)
    | Respond(request: Request, data: Bytes, status: Byte)
    | ServerPush(connId: nat, path: Bytes, data: Bytes, status: Byte)
    | AskClose(connId: nat)
    | Execute(atts: seq<Attempt>)

  function ToRequest(connId: nat, f: Frame): Request {
    Request(connId, f.path, f.data, f.rid)
  }

  /** The requests a connection dispatched between two states of it. */
  function NewRequests(connId: nat, before: Conn, after: Conn): (rs: seq<Request>)
    ensures |rs| == if |before.log.dispatched| <= |after.log.dispatched|
                    then |after.log.dispatched| - |before.log.dispatched| else 0
    ensures forall i :: 0 <= i < |rs| ==> rs[i] == ToRequest(connId, after.log.dispatched[|before.log.dispatched| + i])
  {
    var n := |before.log.dispatched|;
    if n <= |after.log.dispatched|
    then seq(|after.log.dispatched| - n, i requires 0 <= i < |after.log.dispatched| - n => ToRequest(connId,
          after.log.dispatched[n + i]))
    else []
  }

  /** sendResponse: the frame is built, with the session id of the moment, by the
      connection found. */
  function SendResponse(t: Table, r: Response, answers: Option<Answering>): Table {
    if r.connId !in t.connections then t
    else
      var f := MakeRespFrame(t.connections[r.connId], r.path, r.data, r.status, 0, r.rid);
      t.(queue := t.queue + [SendCmd(r.connId, f, answers)])
  }

  /** What the loop does for a readable descriptor. */
  function OnReadable(g: Setup, t: Table, fd: int, i: Input): Table {
    if fd !in t.fdToId || t.fdToId[fd] !in t.connections then t
    else
      var id := t.fdToId[fd];
      var o := ReadFd(g.conn, t.connections[id], i);
      var u := t.(requests := t.requests + NewRequests(id, t.connections[id], o.conn), crashed := o.conn.crashed);
      if !o.ok || o.conn.state == CLOSED then u.(connections := t.connections - {id})
      else u.(connections := t.connections[id := o.conn])
  }

  /** _handleCommand; an unknown connection is reported to the error handler. */
  function Handle(g: Setup, t: Table, cmd: Command, atts: seq<Attempt>): Table {
    if cmd.connId !in t.connections then t.(threw := !g.absorbs(cmd.connId))
    else
      var c := t.connections[cmd.connId];
      var d := if cmd.SendCmd? then Send(g.conn, c, cmd.frame, atts) else Close(g.conn, c, NATURAL, true, atts);
      t.(connections := t.connections[cmd.connId := d], crashed := d.crashed)
  }

  /** The loop's own events; the others are calls from the thread pool. */
  predicate OfLoop(e: Event) {
    e.Accept? || e.HangUp? || e.Readable? || e.Execute?
  }

  function TableStep(g: Setup, t: Table, e: Event): Table {
    if t.crashed || (t.threw && OfLoop(e)) then t
    else
      match e
      case Accept(fd) =>
        var id := t.connCount + 1;
        t.(connections := t.connections[id := NewConn(fd)], fdToId := t.fdToId[fd := id], connCount := id)
      case HangUp(fd) =>
        if fd !in t.fdToId then t else t.(connections := t.connections - {t.fdToId[fd]})
      case Readable(fd, i) => OnReadable(g, t, fd, i)
      case Respond(req, data, status) => SendResponse(t, Answer(req, data, status), Some(Answering(req, data, status)))
      case ServerPush(id, path, data, status) => SendResponse(t, Response(id, path, data, status, 0), None)
      case AskClose(id) => t.(queue := t.queue + [CloseCmd(id)])
      case Execute(atts) =>
        if t.queue == [] then t
        else Handle(g, t.(queue := t.queue[1..]), t.queue[0], atts)
  }

  // -------- what the environment promises --------

  predicate IsOpen(t: Table, fd: int) {
    exists id :: id in t.connections && t.connections[id].fd == fd
  }

  /** accept() returns a descriptor no open connection has; a handler answers only
      requests it was given. */
  predicate Allowed(t: Table, e: Event) {
    match e
    case Accept(fd) => fd >= 0 && !IsOpen(t, fd)
    case Respond(req, _, _) => req in t.requests
    case _ => true
  }

  ghost predicate AllAllowed(g: Setup, t: Table, es: seq<Event>)
    decreases |es|
  {
    es == [] || (Allowed(t, es[0]) && AllAllowed(g, TableStep(g, t, es[0]), es[1..]))
  }

  function TableRun(g: Setup, t: Table, es: seq<Event>): Table
    decreases |es|
  {
    if es == [] then t else TableRun(g, TableStep(g, t, es[0]), es[1..])
  }

  lemma {:induction false} RunOn(g: Setup, t: Table, es: seq<Event>, fs: seq<Event>)
    ensures TableRun(g, t, es + fs) == TableRun(g, TableRun(g, t, es), fs)
    ensures AllAllowed(g, t, es + fs) <==> AllAllowed(g, t, es) && AllAllowed(g, TableRun(g, t, es), fs)
    decreases |es|
  {
    hide TableStep, Allowed;
    if es == [] {
      assert es + fs == fs;
    } else {
      assert (es + fs)[0] == es[0] && (es + fs)[1..] == es[1..] + fs;
      RunOn(g, TableStep(g, t, es[0]), es[1..], fs);
    }
  }

  // -------- the invariants --------

  /** Open connections are found under their descriptor, and under no other: what a
      stale entry still leads to is closed; ids are used once. */
  ghost predicate Indexed(t: Table) {
    && (forall id :: id in t.connections ==> 1 <= id <= t.connCount)
    && (forall id :: id in t.connections && t.connections[id].fd != -1 ==>
          t.connections[id].fd in t.fdToId && t.fdToId[t.connections[id].fd] == id)
    && (forall fd :: fd in t.fdToId ==>
          && t.fdToId[fd] <= t.connCount
          && (t.fdToId[fd] in t.connections ==> t.connections[t.fdToId[fd]].fd in {fd, -1}))
  }

  /** The session a request came from is settled. */
  ghost predicate Settled(t: Table, id: nat) {
    id <= t.connCount && (id in t.connections ==> t.connections[id].state != HANDSHAKE)
  }

  ghost predicate Matches(t: Table, cmd: Command, a: Answering) {
    && cmd.SendCmd? && cmd.connId == a.request.connId
    && cmd.frame.rid == a.request.rid && cmd.frame.path == a.request.path
    && cmd.frame.data == a.data && cmd.frame.status == a.status && cmd.frame.flags == 0
    && (cmd.connId in t.connections ==> cmd.frame.ssid == t.connections[cmd.connId].ssid)
  }

  ghost predicate Routed(t: Table) {
    && (forall i :: 0 <= i < |t.requests| ==> Settled(t, t.requests[i].connId))
    && (forall i :: 0 <= i < |t.queue| && t.queue[i].SendCmd? && t.queue[i].answers.Some? ==>
          && t.queue[i].answers.value.request in t.requests
          && Matches(t, t.queue[i], t.queue[i].answers.value))
  }

  ghost predicate Inv(t: Table) {
    Indexed(t) && Routed(t)
  }

  /** Replacing a connection by a continuation of it. */
  lemma ContinueKeepsInv(t: Table, u: Table, id: nat, d: Conn, more: seq<Request>)
    requires Inv(t) && id in t.connections && Continues(t.connections[id], d)
    requires u == t.(connections := u.connections, requests := t.requests + more, crashed := u.crashed,
            threw := u.threw)
    requires u.connections == t.connections[id := d] || u.connections == t.connections - {id}
    requires forall i :: 0 <= i < |more| ==> more[i].connId == id
    requires more != [] ==> t.connections[id].state != HANDSHAKE
    ensures Inv(u)
  {
    forall i | 0 <= i < |u.queue| && u.queue[i].SendCmd? && u.queue[i].answers.Some?
      ensures u.queue[i].answers.value.request in u.requests && Matches(u, u.queue[i], u.queue[i].answers.value)
    {
      var a := t.queue[i].answers.value;
      assert a.request in t.requests && Matches(t, t.queue[i], a);
      var j :| 0 <= j < |t.requests| && t.requests[j] == a.request;
      assert u.requests[j] == a.request;
      assert Settled(t, t.requests[j].connId);
    }
    forall i | 0 <= i < |u.requests|
      ensures Settled(u, u.requests[i].connId)
    {
      if i < |t.requests| {
        assert Settled(t, t.requests[i].connId);
      } else {
        assert u.requests[i] == more[i - |t.requests|];
      }
    }
  }

  lemma AcceptKeepsInv(g: Setup, t: Table, fd: int)
    requires Inv(t) && Allowed(t, Accept(fd)) && !t.crashed && !t.threw
    ensures Inv(TableStep(g, t, Accept(fd)))
  {
    var u := TableStep(g, t, Accept(fd));
    forall i | 0 <= i < |u.requests|
      ensures Settled(u, u.requests[i].connId)
    {
      assert Settled(t, t.requests[i].connId);
    }
    forall i | 0 <= i < |u.queue| && u.queue[i].SendCmd? && u.queue[i].answers.Some?
      ensures u.queue[i].answers.value.request in u.requests && Matches(u, u.queue[i], u.queue[i].answers.value)
    {
      var a := t.queue[i].answers.value;
      assert Matches(t, t.queue[i], a);
      var j :| 0 <= j < |t.requests| && t.requests[j] == a.request;
      assert Settled(t, t.requests[j].connId);
    }
  }

  lemma ReadableKeepsInv(g: Setup, t: Table, fd: int, i: Input)
    requires Inv(t) && !t.crashed
    ensures Inv(OnReadable(g, t, fd, i))
  {
    hide ReadFd, Inv;
    if fd in t.fdToId && t.fdToId[fd] in t.connections {
      var id := t.fdToId[fd];
      var c := t.connections[id];
      ReadContinues(g.conn, c, i);
      var d := ReadFd(g.conn, c, i).conn;
      ContinueKeepsInv(t, OnReadable(g, t, fd, i), id, d, NewRequests(id, c, d));
    }
  }

  lemma HandleKeepsInv(g: Setup, t: Table, cmd: Command, atts: seq<Attempt>)
    requires Inv(t) && !t.crashed
    ensures Inv(Handle(g, t, cmd, atts))
  {
    hide Send, Close, Inv;
    if cmd.connId in t.connections {
      var c := t.connections[cmd.connId];
      if cmd.SendCmd? {
        SendQuiet(g.conn, c, cmd.frame, atts);
      } else {
        CloseQuiet(g.conn, c, NATURAL, true, atts);
      }
      var u := Handle(g, t, cmd, atts);
      assert t.requests + [] == t.requests;
      ContinueKeepsInv(t, u, cmd.connId, u.connections[cmd.connId], []);
    } else {
      ThrowKeepsInv(t, !g.absorbs(cmd.connId));
    }
  }

  lemma ThrowKeepsInv(t: Table, threw: bool)
    requires Inv(t)
    ensures Inv(t.(threw := threw))
  {
    var u := t.(threw := threw);
    forall i | 0 <= i < |u.requests|
      ensures Settled(u, u.requests[i].connId)
    {
      assert Settled(t, t.requests[i].connId);
    }
    forall i | 0 <= i < |u.queue| && u.queue[i].SendCmd? && u.queue[i].answers.Some?
      ensures u.queue[i].answers.value.request in u.requests && Matches(u, u.queue[i], u.queue[i].answers.value)
    {
      assert Matches(t, t.queue[i], t.queue[i].answers.value);
    }
  }

  lemma EnqueueKeepsInv(t: Table, cmd: Command)
    requires Inv(t)
    requires cmd.SendCmd? && cmd.answers.Some? ==>
               cmd.answers.value.request in t.requests && Matches(t, cmd, cmd.answers.value)
    ensures Inv(t.(queue := t.queue + [cmd]))
  {
    var u := t.(queue := t.queue + [cmd]);
    forall i | 0 <= i < |u.queue| && u.queue[i].SendCmd? && u.queue[i].answers.Some?
      ensures u.queue[i].answers.value.request in u.requests && Matches(u, u.queue[i], u.queue[i].answers.value)
    {
      if i < |t.queue| {
        assert u.queue[i] == t.queue[i];
        assert Matches(t, t.queue[i], t.queue[i].answers.value);
      }
    }
    forall i | 0 <= i < |u.requests|
      ensures Settled(u, u.requests[i].connId)
    {
      assert Settled(t, t.requests[i].connId);
    }
  }

  lemma DropKeepsInv(t: Table, id: nat)
    requires Inv(t)
    ensures Inv(t.(connections := t.connections - {id}))
  {
    var u := t.(connections := t.connections - {id});
    if id in t.connections {
      assert t.requests + [] == t.requests;
      ContinueKeepsInv(t, u, id, t.connections[id], []);
    } else {
      assert u.connections == t.connections;
    }
  }

  lemma ShiftKeepsInv(t: Table)
    requires Inv(t) && t.queue != []
    ensures Inv(t.(queue := t.queue[1..]))
  {
    var u := t.(queue := t.queue[1..]);
    forall i | 0 <= i < |u.queue| && u.queue[i].SendCmd? && u.queue[i].answers.Some?
      ensures u.queue[i].answers.value.request in u.requests && Matches(u, u.queue[i], u.queue[i].answers.value)
    {
      assert u.queue[i] == t.queue[i + 1];
      assert Matches(t, t.queue[i + 1], t.queue[i + 1].answers.value);
    }
    forall i | 0 <= i < |u.requests|
      ensures Settled(u, u.requests[i].connId)
    {
      assert Settled(t, t.requests[i].connId);
    }
  }

  lemma StepKeepsInv(g: Setup, t: Table, e: Event)
    requires Inv(t) && Allowed(t, e)
    ensures Inv(TableStep(g, t, e))
  {
    hide Inv, OnReadable, Handle, Allowed;
    if !t.crashed && !(t.threw && OfLoop(e)) {
      match e
      case Accept(fd) => AcceptKeepsInv(g, t, fd);
      case HangUp(fd) => if fd in t.fdToId { DropKeepsInv(t, t.fdToId[fd]); }
      case Readable(fd, i) => ReadableKeepsInv(g, t, fd, i);
      case Respond(req, data, status) => RespondKeepsInv(t, req, data, status);
      case ServerPush(id, path, data, status) =>
        if id in t.connections {
          EnqueueKeepsInv(t, SendCmd(id, MakeRespFrame(t.connections[id], path, data, status, 0, 0), None));
        }
      case AskClose(id) => EnqueueKeepsInv(t, CloseCmd(id));
      case Execute(atts) =>
        if t.queue != [] {
          ShiftKeepsInv(t);
          HandleKeepsInv(g, t.(queue := t.queue[1..]), t.queue[0], atts);
        }
    }
  }

  lemma RespondKeepsInv(t: Table, req: Request, data: Bytes, status: Byte)
    requires Inv(t) && Allowed(t, Respond(req, data, status))
    ensures Inv(SendResponse(t, Answer(req, data, status), Some(Answering(req, data, status))))
  {
    hide Inv;
    if req.connId in t.connections {
      var f := MakeRespFrame(t.connections[req.connId], req.path, data, status, 0, req.rid);
      EnqueueKeepsInv(t, SendCmd(req.connId, f, Some(Answering(req, data, status))));
    }
  }

  lemma {:induction false} RunKeepsInv(g: Setup, t: Table, es: seq<Event>)
    requires Inv(t) && AllAllowed(g, t, es)
    ensures Inv(TableRun(g, t, es))
    decreases |es|
  {
    hide Inv, TableStep, Allowed;
    if es != [] {
      StepKeepsInv(g, t, es[0]);
      RunKeepsInv(g, TableStep(g, t, es[0]), es[1..]);
    }
  }

  // -------- the theorems --------

  /** Looking a descriptor up as the loop does, keeping only an open result. */
  function Lookup(t: Table, fd: int): Option<nat> {
    if fd in t.fdToId && t.fdToId[fd] in t.connections && t.connections[t.fdToId[fd]].fd != -1
    then Some(t.fdToId[fd]) else None
  }

  /** In every run, for every descriptor, that finds exactly the connection a scan
      for it would find: an entry that is stale leads to a connection that is gone
      or closed, never to one with another descriptor. */
  lemma LookupAgreesWithScan(g: Setup, es: seq<Event>, fd: int)
    requires AllAllowed(g, EMPTY, es) && fd != -1
    ensures var t := TableRun(g, EMPTY, es);
            && (forall id :: (id in t.connections && t.connections[id].fd == fd) <==> Lookup(t, fd) == Some(id))
            && (Lookup(t, fd) == None <==> !IsOpen(t, fd))
  {
    hide TableRun, AllAllowed;
    RunKeepsInv(g, EMPTY, es);
  }

  /** No event is misrouted: in every run, input or a hang-up on a descriptor
      leaves every open connection with another descriptor as it was, hands over
      requests only of the connection that owns the descriptor, and a hang-up
      removes that one, or the closed one a stale entry leads to. */
  lemma EventsReachTheirOwner(g: Setup, es: seq<Event>, fd: int, i: Input)
    requires AllAllowed(g, EMPTY, es) && fd != -1
    ensures var t := TableRun(g, EMPTY, es);
            var u, v := TableStep(g, t, Readable(fd, i)), TableStep(g, t, HangUp(fd));
            && (forall id :: id in t.connections && t.connections[id].fd != fd && t.connections[id].fd != -1 ==>
                  && id in u.connections && u.connections[id] == t.connections[id]
                  && id in v.connections && v.connections[id] == t.connections[id])
            && t.requests <= u.requests && v.requests == t.requests
            && (forall k :: |t.requests| <= k < |u.requests| ==> Lookup(t, fd) == Some(u.requests[k].connId))
            && (!t.crashed && !t.threw && fd in t.fdToId ==> v.connections == t.connections - {t.fdToId[fd]})
  {
    hide TableRun, AllAllowed, TableStep, Settled, Matches;
    RunKeepsInv(g, EMPTY, es);
    var t := TableRun(g, EMPTY, es);
    ReadableReaches(g, t, fd, i);
    HangUpReaches(g, t, fd);
  }

  lemma ReadableReaches(g: Setup, t: Table, fd: int, i: Input)
    requires Indexed(t) && fd != -1
    ensures var u := TableStep(g, t, Readable(fd, i));
            && (forall id :: id in t.connections && t.connections[id].fd != fd && t.connections[id].fd != -1 ==>
                  id in u.connections && u.connections[id] == t.connections[id])
            && t.requests <= u.requests
            && (forall k :: |t.requests| <= k < |u.requests| ==> Lookup(t, fd) == Some(u.requests[k].connId))
  {
    hide ReadFd, Handle, SendResponse;
    if fd in t.fdToId && t.fdToId[fd] in t.connections && t.connections[t.fdToId[fd]].fd == -1 {
      ClosedDispatchesNothing(g.conn, t.connections[t.fdToId[fd]], i);
    }
  }

  lemma HangUpReaches(g: Setup, t: Table, fd: int)
    requires Indexed(t) && fd != -1
    ensures var v := TableStep(g, t, HangUp(fd));
            && (forall id :: id in t.connections && t.connections[id].fd != fd && t.connections[id].fd != -1 ==>
                  id in v.connections && v.connections[id] == t.connections[id])
            && v.requests == t.requests
            && (!t.crashed && !t.threw && fd in t.fdToId ==> v.connections == t.connections - {t.fdToId[fd]})
  {
    hide OnReadable, Handle, SendResponse;
  }

  lemma ClosedDispatchesNothing(g: Config, c: Conn, i: Input)
    requires c.fd == -1
    ensures ReadFd(g, c, i).conn.log.dispatched == c.log.dispatched
  {
    hide Close;
    CloseQuiet(g, c, SOCKET_ERROR, true, i.atts);
  }

  /** A command created by answering a request carries the answer's data and
      status, that request's rid, path and connection and, whenever it is
      executed, the session id that connection has then. */
  lemma AnswersMatchTheirSession(g: Setup, es: seq<Event>, i: nat)
    requires AllAllowed(g, EMPTY, es)
    ensures var t := TableRun(g, EMPTY, es);
            i < |t.queue| && t.queue[i].SendCmd? && t.queue[i].answers.Some? ==>
              && t.queue[i].answers.value.request in t.requests
              && Matches(t, t.queue[i], t.queue[i].answers.value)
  {
    hide TableRun, AllAllowed;
    RunKeepsInv(g, EMPTY, es);
  }

  // -------- what each call queues and each command does --------

  /** u is t with one SEND behind its queue, of a frame for connection id with these
      fields and the session id that connection has. */
  ghost predicate QueuesFrame(t: Table, u: Table, id: nat, path: Bytes, data: Bytes, status: Byte, rid: U32) {
    && u == t.(queue := u.queue) && id in t.connections
    && |u.queue| == |t.queue| + 1 && u.queue[..|t.queue|] == t.queue
    && var cmd := u.queue[|t.queue|];
       && cmd.SendCmd? && cmd.connId == id
       && cmd.frame.path == path && cmd.frame.data == data && cmd.frame.status == status
       && cmd.frame.rid == rid && cmd.frame.flags == 0 && cmd.frame.fid == t.connections[id].fid
       && cmd.frame.ssid == t.connections[id].ssid
  }

  /** Accepting adds a connection under a fresh id, waiting for its handshake. */
  lemma AcceptAdds(g: Setup, t: Table, fd: int)
    requires Inv(t) && !t.crashed && !t.threw
    ensures var u := TableStep(g, t, Accept(fd));
            && fd in u.fdToId && u.fdToId == t.fdToId[fd := u.fdToId[fd]]
            && var id := u.fdToId[fd];
               && id !in t.connections && (forall k :: k in t.fdToId ==> t.fdToId[k] != id)
               && id > t.connCount && u.connCount == id
               && id in u.connections && u.connections == t.connections[id := u.connections[id]]
               && var c := u.connections[id];
                  && c.fd == fd && c.state == HANDSHAKE && !c.crashed && c.inBuf == [] && c.log == EMPTY_LOG
                  && c.fid == 0 && c.lastCliFid == 0 && c.ssid == 0 && c.aesKey == []
  {
    hide Routed;
  }

  /** Answering a request queues one frame with the answer's data and status under
      the request's path and rid, or nothing if its connection is gone. */
  lemma RespondQueues(g: Setup, t: Table, req: Request, data: Bytes, status: Byte)
    requires !t.crashed
    ensures var u := TableStep(g, t, Respond(req, data, status));
            if req.connId in t.connections then
              && QueuesFrame(t, u, req.connId, req.path, data, status, req.rid)
              && u.queue[|t.queue|].answers == Some(Answering(req, data, status))
            else u == t
  {
  }

  /** A push is the same under rid 0, answering nothing. */
  lemma PushQueues(g: Setup, t: Table, id: nat, path: Bytes, data: Bytes, status: Byte)
    requires !t.crashed
    ensures var u := TableStep(g, t, ServerPush(id, path, data, status));
            if id in t.connections then
              QueuesFrame(t, u, id, path, data, status, 0) && u.queue[|t.queue|].answers == None
            else u == t
  {
  }

  /** Asking to close queues that, whether the connection is there or not. */
  lemma AskCloseQueues(g: Setup, t: Table, id: nat)
    requires !t.crashed
    ensures TableStep(g, t, AskClose(id)) == t.(queue := t.queue + [CloseCmd(id)])
  {
  }

  /** Executing it closes the connection as NATURAL: nothing is sent, nothing waits
      for the peer, and it stays in the table without a descriptor. */
  lemma ExecuteCloses(g: Setup, t: Table, atts: seq<Attempt>)
    requires !t.crashed && !t.threw && t.queue != [] && t.queue[0].CloseCmd? && t.queue[0].connId in t.connections
    requires t.connections[t.queue[0].connId].state != CLOSED && !t.connections[t.queue[0].connId].crashed
    ensures var id := t.queue[0].connId;
            var c, u := t.connections[id], TableStep(g, t, Execute(atts));
            && u == t.(queue := t.queue[1..], connections := u.connections)
            && u.connections.Keys == t.connections.Keys
            && (forall k :: k in t.connections && k != id ==> u.connections[k] == t.connections[k])
            && var d := u.connections[id];
               && d.state == CLOSED && d.fd == -1 && d.fid == c.fid && d.log == c.log.(closes := d.log.closes)
               && d.log.closes == c.log.closes + if g.conn.notifies then [NATURAL] else []
  {
    hide Send, ReadFd;
  }

  // -------- requests are the frames dispatched --------

  /** Requests and frames with the same fields, one for one. */
  ghost predicate SameRequests(rs: seq<Request>, fs: seq<Frame>) {
    && |rs| == |fs|
    && forall k :: 0 <= k < |rs| ==> rs[k].path == fs[k].path && rs[k].data == fs[k].data && rs[k].rid == fs[k].rid
  }

  /** What one readable event hands over: the frames newly dispatched by the
      connection found, each as a request with its path, data and rid under that
      connection's id; and the connection stays in the table unless it closed. */
  lemma ReadableHandsOver(g: Setup, t: Table, fd: int, i: Input)
    requires !t.crashed && !t.threw && fd in t.fdToId && t.fdToId[fd] in t.connections
    ensures var id := t.fdToId[fd];
            var c, u := t.connections[id], TableStep(g, t, Readable(fd, i));
            var o := ReadFd(g.conn, c, i);
            && c.log.dispatched <= o.conn.log.dispatched && t.requests <= u.requests
            && SameRequests(u.requests[|t.requests|..], o.conn.log.dispatched[|c.log.dispatched|..])
            && (forall k :: |t.requests| <= k < |u.requests| ==> u.requests[k].connId == id)
            && u.connections == (if o.ok && o.conn.state != CLOSED then t.connections[id := o.conn]
                                 else t.connections - {id})
            && u.queue == t.queue && u.fdToId == t.fdToId && u.connCount == t.connCount
  {
    hide ReadFd;
    ReadContinues(g.conn, t.connections[t.fdToId[fd]], i);
  }

  /** The requests handed over of one connection, in order. */
  function Of(rs: seq<Request>, id: nat): seq<Request> {
    if rs == [] then []
    else (if rs[0].connId == id then [rs[0]] else []) + Of(rs[1..], id)
  }

  lemma {:induction false} OfAppend(rs: seq<Request>, more: seq<Request>, id: nat)
    ensures Of(rs + more, id) == Of(rs, id) + Of(more, id)
  {
    if rs == [] {
      assert rs + more == more;
    } else {
      assert (rs + more)[1..] == rs[1..] + more;
      OfAppend(rs[1..], more, id);
    }
  }

  lemma {:induction false} OfAll(rs: seq<Request>, owner: nat, id: nat)
    requires forall k :: 0 <= k < |rs| ==> rs[k].connId == owner
    ensures Of(rs, id) == if id == owner then rs else []
  {
    if rs != [] {
      OfAll(rs[1..], owner, id);
    }
  }

  lemma {:induction false} OfNone(rs: seq<Request>, id: nat)
    requires forall k :: 0 <= k < |rs| ==> rs[k].connId != id
    ensures Of(rs, id) == []
  {
    if rs != [] {
      OfNone(rs[1..], id);
    }
  }

  ghost predicate Handed(t: Table) {
    forall id :: id in t.connections ==> SameRequests(Of(t.requests, id), t.connections[id].log.dispatched)
  }

  lemma SameRequestsJoin(rs: seq<Request>, more: seq<Request>, before: seq<Frame>, after: seq<Frame>)
    requires SameRequests(rs, before) && before <= after && SameRequests(more, after[|before|..])
    ensures SameRequests(rs + more, after)
  {
    var all, n := rs + more, |before|;
    forall k | 0 <= k < |all|
      ensures all[k].path == after[k].path && all[k].data == after[k].data && all[k].rid == after[k].rid
    {
      if k < n {
        assert all[k] == rs[k] && after[k] == before[k];
      } else {
        assert all[k] == more[k - n] && after[k] == after[n..][k - n];
      }
    }
  }

  lemma HandedMore(rs: seq<Request>, more: seq<Request>, owner: nat, before: seq<Frame>, after: seq<Frame>)
    requires SameRequests(Of(rs, owner), before) && before <= after && SameRequests(more, after[|before|..])
    requires forall k :: 0 <= k < |more| ==> more[k].connId == owner
    ensures SameRequests(Of(rs + more, owner), after)
    ensures forall id :: id != owner ==> Of(rs + more, id) == Of(rs, id)
  {
    hide SameRequests, Of;
    OfAppend(rs, more, owner);
    OfAll(more, owner, owner);
    SameRequestsJoin(Of(rs, owner), more, before, after);
    forall id | id != owner
      ensures Of(rs + more, id) == Of(rs, id)
    {
      OfAppend(rs, more, id);
      OfAll(more, owner, id);
      assert Of(rs, id) + [] == Of(rs, id);
    }
  }

  lemma ReadableKeepsHanded(g: Setup, t: Table, fd: int, i: Input)
    requires Handed(t) && !t.crashed && !t.threw
    ensures Handed(TableStep(g, t, Readable(fd, i)))
  {
    hide ReadFd, Of, SameRequests;
    if fd in t.fdToId && t.fdToId[fd] in t.connections {
      hide TableStep;
      ReadableHandsOver(g, t, fd, i);
      var owner, u := t.fdToId[fd], TableStep(g, t, Readable(fd, i));
      var more := u.requests[|t.requests|..];
      assert u.requests == t.requests + more;
      var c := t.connections[owner];
      HandedMore(t.requests, more, owner, c.log.dispatched, ReadFd(g.conn, c, i).conn.log.dispatched);
    }
  }

  lemma StepKeepsHanded(g: Setup, t: Table, e: Event)
    requires Inv(t) && Handed(t)
    ensures Handed(TableStep(g, t, e))
  {
    hide ReadFd, Send, Close, Matches;
    if !t.crashed && !(t.threw && OfLoop(e)) {
      match e
      case Accept(fd) =>
        forall k | 0 <= k < |t.requests|
          ensures t.requests[k].connId != t.connCount + 1
        {
          assert Settled(t, t.requests[k].connId);
        }
        OfNone(t.requests, t.connCount + 1);
      case Readable(fd, i) => ReadableKeepsHanded(g, t, fd, i);
      case Execute(atts) =>
        if t.queue != [] && t.queue[0].connId in t.connections {
          var c := t.connections[t.queue[0].connId];
          if t.queue[0].SendCmd? {
            SendQuiet(g.conn, c, t.queue[0].frame, atts);
          } else {
            CloseQuiet(g.conn, c, NATURAL, true, atts);
          }
        }
      case _ =>
    }
  }

  lemma {:induction false} RunKeepsHanded(g: Setup, t: Table, es: seq<Event>)
    requires Inv(t) && Handed(t) && AllAllowed(g, t, es)
    ensures Handed(TableRun(g, t, es))
    decreases |es|
  {
    hide Inv, Handed, TableStep, Allowed;
    if es != [] {
      StepKeepsInv(g, t, es[0]);
      StepKeepsHanded(g, t, es[0]);
      RunKeepsHanded(g, TableStep(g, t, es[0]), es[1..]);
    }
  }

  /** In every run, the requests handed over of a connection in the table are its
      dispatched frames: as many, in the same order, with the same fields. */
  lemma RequestsAreDispatched(g: Setup, es: seq<Event>, id: nat)
    requires AllAllowed(g, EMPTY, es)
    ensures var t := TableRun(g, EMPTY, es);
            id in t.connections ==> SameRequests(Of(t.requests, id), t.connections[id].log.dispatched)
  {
    hide TableRun, AllAllowed;
    RunKeepsHanded(g, EMPTY, es);
  }

  lemma {:induction false} OfMember(rs: seq<Request>, r: Request) returns (k: nat)
    requires r in rs
    ensures k < |Of(rs, r.connId)| && Of(rs, r.connId)[k] == r
  {
    if rs[0] == r {
      return 0;
    }
    k := OfMember(rs[1..], r);
    if rs[0].connId == r.connId {
      k := k + 1;
    }
  }

  // -------- the queue is first in, first out --------

  function Turns(es: seq<Event>): nat {
    if es == [] then 0 else (if es[0].Execute? then 1 else 0) + Turns(es[1..])
  }

  /** As long as the loop lives, each turn takes the front of the queue and
      everything else only adds behind. */
  lemma {:induction false} QueueIsFifo(g: Setup, t: Table, es: seq<Event>)
    requires !TableRun(g, t, es).crashed && !TableRun(g, t, es).threw && Turns(es) <= |t.queue|
    ensures !t.crashed && !t.threw
    ensures t.queue[Turns(es)..] <= TableRun(g, t, es).queue
    decreases |es|
  {
    hide ReadFd, Send, Close, MakeRespFrame;
    if es != [] {
      var u := TableStep(g, t, es[0]);
      StepMovesQueue(g, t, es[0]);
      if t.crashed || t.threw {
        LostStays(g, t, es);
      } else {
        if u.crashed || u.threw {
          LostStays(g, u, es[1..]);
        }
        QueueIsFifo(g, u, es[1..]);
        var n := if es[0].Execute? then 1 else 0;
        assert t.queue[n..][Turns(es[1..])..] == t.queue[Turns(es)..];
        assert t.queue[n..][Turns(es[1..])..] <= u.queue[Turns(es[1..])..];
      }
    }
  }

  lemma StepMovesQueue(g: Setup, t: Table, e: Event)
    requires !t.crashed && !t.threw ==> e.Execute? ==> t.queue != []
    ensures !t.crashed && !t.threw ==> t.queue[if e.Execute? then 1 else 0..] <= TableStep(g, t, e).queue
  {
    hide ReadFd, Send, Close, MakeRespFrame;
  }

  lemma {:induction false} LostStays(g: Setup, t: Table, es: seq<Event>)
    requires t.crashed || t.threw
    ensures TableRun(g, t, es).crashed || TableRun(g, t, es).threw
    decreases |es|
  {
    hide ReadFd, Send, Close, MakeRespFrame;
    if es != [] {
      LostStays(g, TableStep(g, t, es[0]), es[1..]);
    }
  }

  /** Connection ids are never reused: an id that is gone stays gone. */
  lemma {:induction false} IdsAreNeverReused(g: Setup, t: Table, es: seq<Event>, id: nat)
    requires Inv(t) && AllAllowed(g, t, es) && id <= t.connCount && id !in t.connections
    ensures id !in TableRun(g, t, es).connections
    decreases |es|
  {
    hide Inv, ReadFd, Send, Close, Allowed;
    if es != [] {
      StepKeepsInv(g, t, es[0]);
      IdsAreNeverReused(g, TableStep(g, t, es[0]), es[1..], id);
    }
  }

  // -------- draining the command queue --------

  function Executes(env: seq<seq<Attempt>>): seq<Event> {
    seq(|env|, i requires 0 <= i < |env| => Execute(env[i]))
  }

  /** How many commands come before the first for a connection that is gone and
      that the error handler does not absorb. */
  function Spared(g: Setup, ids: set<nat>, cs: seq<Command>): (n: nat)
    ensures n <= |cs|
    ensures forall i :: 0 <= i < n ==> cs[i].connId in ids || g.absorbs(cs[i].connId)
    ensures n < |cs| ==> cs[n].connId !in ids && !g.absorbs(cs[n].connId)
  {
    if cs == [] || (cs[0].connId !in ids && !g.absorbs(cs[0].connId)) then 0
    else 1 + Spared(g, ids, cs[1..])
  }

  lemma {:induction false} StoppedStays(g: Setup, t: Table, env: seq<seq<Attempt>>)
    requires t.crashed || t.threw
    ensures TableRun(g, t, Executes(env)) == t
    decreases |env|
  {
    if env != [] {
      assert Executes(env)[1..] == Executes(env[1..]);
      StoppedStays(g, t, env[1..]);
    }
  }

  lemma HandleKeepsKeys(g: Setup, t: Table, cmd: Command, atts: seq<Attempt>)
    requires !t.crashed && !t.threw
    ensures var u := Handle(g, t, cmd, atts);
            && u.connections.Keys == t.connections.Keys && u.fdToId == t.fdToId
            && u.requests == t.requests && u.queue == t.queue
            && (u.threw <==> cmd.connId !in t.connections && !g.absorbs(cmd.connId))
  {
    hide Send, Close;
  }

  /** What a drain comes to, told by the table it starts from. Handling a command
      removes no connection, so the commands for missing ones are known before:
      a drain that does not lose the process handles the whole queue iff there
      is none the error handler does not absorb, and otherwise ends the loop at
      the first of them with everything behind it still queued. */
  lemma {:induction false} DrainEmptiesIff(g: Setup, t: Table, env: seq<seq<Attempt>>)
    requires !t.crashed && !t.threw && |env| == |t.queue|
    ensures var u := TableRun(g, t, Executes(env));
            var n := Spared(g, t.connections.Keys, t.queue);
            && u.connections.Keys == t.connections.Keys && u.fdToId == t.fdToId && u.requests == t.requests
            && (!u.crashed ==>
                  && (u.threw <==> n < |t.queue|)
                  && u.queue == if u.threw then t.queue[n + 1..] else [])
    decreases |env|
  {
    hide Handle, OnReadable, SendResponse;
    if env != [] {
      var cmd, t1 := t.queue[0], t.(queue := t.queue[1..]);
      var u := Handle(g, t1, cmd, env[0]);
      assert TableStep(g, t, Execute(env[0])) == u;
      HandleKeepsKeys(g, t1, cmd, env[0]);
      assert Executes(env)[1..] == Executes(env[1..]);
      if u.crashed || u.threw {
        StoppedStays(g, u, env[1..]);
      } else {
        DrainEmptiesIff(g, u, env[1..]);
      }
    }
  }

  /** With an error callback that absorbs everything no drain ends the loop. */
  lemma AbsorbingServerNeverThrows(g: Setup, t: Table, es: seq<Event>)
    requires !t.threw && forall id: nat :: g.absorbs(id)
    ensures !TableRun(g, t, es).threw
    decreases |es|
  {
    hide ReadFd, Send, Close;
    if es != [] {
      AbsorbingServerNeverThrows(g, TableStep(g, t, es[0]), es[1..]);
    }
  }
}
