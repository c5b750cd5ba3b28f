/** Whole runs of the server with its clients: what becomes of an answer
    (server/Server.cpp:36-49, 91-104, 197-262). */
module ServerRuns {
  import opened Encoders
  import opened Crypto
  import opened Frames
  import opened Parsing
  import opened ServerSpec
  import opened ServerLaws
  import opened ServerTheorems
  import opened Router
  import CT = ConnectionTable
  import CS = ClientSpec
  import SN = Session

  // -------- an answer that gets out --------

  /** Everything between a handler's answer and the wire: the answer is queued while
      the request's connection is there, and executed when the commands before it
      have been. */
  function Answered(es: seq<CT.Event>, r: Request, data: Bytes, status: Byte, later: seq<CT.Event>): seq<CT.Event> {
    es + ([CT.Respond(r, data, status)] + later)
  }

  /** In every run: an answer to a request, once its turn comes and with a write that
      completes, puts on the wire of the connection the request came from one packet
      that the client of that session can read. It carries the data and status the
      handler gave, the session's id, and the path and rid of a frame that client
      had sent and the connection dispatched. */
  lemma AnswerGoesOut(g: CT.Setup, es: seq<CT.Event>, r: Request, data: Bytes, status: Byte, later: seq<CT.Event>,
                      att: Attempt, max: U32) returns (p: Packet)
    requires CT.AllAllowed(g, CT.EMPTY, Answered(es, r, data, status, later)) && Lawful(g.conn.suite)
    requires var t := CT.TableRun(g, CT.EMPTY, es);
             r.connId in t.connections && CT.Turns(later) == |t.queue|
    requires |r.path| < TWO16 && 57 + |r.path| + |data| <= max && SN.Completes(att, 57 + |r.path| + |data|)
    requires var t := CT.TableRun(g, CT.EMPTY, Answered(es, r, data, status, later));
             && !t.crashed && !t.threw && r.connId in t.connections && t.connections[r.connId].fd != -1
             && |t.connections[r.connId].aesKey| == KEY_SIZE && t.connections[r.connId].fid < TWO32 - 1
    ensures var t := CT.TableRun(g, CT.EMPTY, Answered(es, r, data, status, later));
            var c := t.connections[r.connId];
            var u := CT.TableStep(g, t, CT.Execute([att]));
            && r.connId in u.connections
            && u.connections[r.connId].log.sent == c.log.sent + [Emission(p, |p.bytes|)]
            && u.connections[r.connId].log.wire == c.log.wire + p.bytes
            && Readable(SealedReader(g.conn.suite, c.aesKey, max), p)
            && p.frame.rid == r.rid && p.frame.path == r.path && p.frame.ssid == c.ssid && p.frame.fid == c.fid + 1
            && p.frame.data == data && p.frame.status == status && p.frame.flags == 0
            && (exists k :: 0 <= k < |c.log.dispatched|
                  && c.log.dispatched[k].rid == p.frame.rid && c.log.dispatched[k].path == p.frame.path)
            && u.queue == t.queue[1..] && !u.crashed && !u.threw
  {
    hide CT.TableRun, CT.AllAllowed, CT.TableStep, Lawful, Encode, SealedReader, Readable, Pushed, Send;
    var all := Answered(es, r, data, status, later);
    var cmd := TurnComes(g, es, r, data, status, later);
    CT.AnswersMatchTheirSession(g, all, 0);
    var t := CT.TableRun(g, CT.EMPTY, all);
    var c := t.connections[r.connId];
    SealedIsReadable(g.conn.suite, c.aesKey, max, cmd.frame, att.iv.value, NextFid(c.fid));
    var bytes := Encode(g.conn.suite, cmd.frame, true, c.aesKey, att.iv, NextFid(c.fid)).value;
    p := Packet(cmd.frame.(fid := NextFid(c.fid)), bytes);
    SN.SendWhole(g.conn, c, cmd.frame, att, bytes);
    NotCrashed(g, all, r.connId);
    ExecutesSend(g, t, [att]);
    CT.RequestsAreDispatched(g, all, r.connId);
    var k := CT.OfMember(t.requests, r);
    assert c.log.dispatched[k].rid == r.rid && c.log.dispatched[k].path == r.path;
  }

  lemma ExecutesSend(g: CT.Setup, t: CT.Table, atts: seq<Attempt>)
    requires !t.crashed && !t.threw && t.queue != [] && t.queue[0].SendCmd? && t.queue[0].connId in t.connections
    ensures var id := t.queue[0].connId;
            var d := Send(g.conn, t.connections[id], t.queue[0].frame, atts);
            CT.TableStep(g, t, CT.Execute(atts))
            == t.(queue := t.queue[1..], connections := t.connections[id := d], crashed := d.crashed)
  {
    hide Send;
  }

  /** After as many turns as there were commands before it, the answer is at the
      front of the queue. */
  lemma TurnComes(g: CT.Setup, es: seq<CT.Event>, r: Request, data: Bytes, status: Byte, later: seq<CT.Event>)
    returns (cmd: CT.Command)
    requires var t := CT.TableRun(g, CT.EMPTY, es);
             r.connId in t.connections && CT.Turns(later) == |t.queue|
    requires var t := CT.TableRun(g, CT.EMPTY, Answered(es, r, data, status, later)); !t.crashed && !t.threw
    ensures var t := CT.TableRun(g, CT.EMPTY, Answered(es, r, data, status, later));
            t.queue != [] && t.queue[0] == cmd
    ensures cmd.SendCmd? && cmd.connId == r.connId && cmd.answers == Some(CT.Answering(r, data, status))
    ensures cmd.frame.path == r.path && cmd.frame.data == data && cmd.frame.status == status
    ensures cmd.frame.rid == r.rid && cmd.frame.flags == 0
  {
    hide CT.TableRun, CT.TableStep;
    var e := CT.Respond(r, data, status);
    var t0 := CT.TableRun(g, CT.EMPTY, es);
    CT.RunOn(g, CT.EMPTY, es, [e] + later);
    FirstStep(g, t0, e, later);
    var t1 := CT.TableStep(g, t0, e);
    if t0.crashed {
      CT.LostStays(g, t0, [e] + later);
    }
    CT.RespondQueues(g, t0, r, data, status);
    cmd := t1.queue[|t0.queue|];
    CT.QueueIsFifo(g, t1, later);
    assert t1.queue[|t0.queue|..][0] == cmd;
  }

  /** While the process lives, so does every connection in the table. */
  ghost predicate AllLive(t: CT.Table) {
    !t.crashed ==> forall id :: id in t.connections ==> !t.connections[id].crashed
  }

  lemma {:induction false} RunLive(g: CT.Setup, t: CT.Table, es: seq<CT.Event>)
    requires AllLive(t)
    ensures AllLive(CT.TableRun(g, t, es))
    decreases |es|
  {
    hide ReadFd, Send, Close;
    if es != [] {
      RunLive(g, CT.TableStep(g, t, es[0]), es[1..]);
    }
  }

  lemma NotCrashed(g: CT.Setup, es: seq<CT.Event>, id: nat)
    requires var t := CT.TableRun(g, CT.EMPTY, es); !t.crashed && id in t.connections
    ensures !CT.TableRun(g, CT.EMPTY, es).connections[id].crashed
  {
    RunLive(g, CT.EMPTY, es);
  }

  // -------- an answer that ends the server --------

  /** A connection that opens and asks once, as the two reads it takes. */
  lemma OpenAndAsk(w: SN.World, fd: int, path: Bytes, data: Bytes) returns (open: Input, ask: Input, f: Frame)
    requires SN.GoodWorld(w) && fd != -1 && |path| < TWO16 && 57 + |path| + |data| <= w.serverMax
    ensures var o := ReadFd(SN.ServerCfg(w), NewConn(fd), open);
            && o.ok && o.conn.state == ACTIVE && !o.conn.crashed && o.conn.log.dispatched == []
            && var q := ReadFd(SN.ServerCfg(w), o.conn, ask);
               && q.ok && q.conn.state == ACTIVE && !q.conn.crashed
               && q.conn.log.dispatched == [f] && f.path == path && f.data == data
  {
    hide SN.Good, SN.InSession, SN.Requests, SN.Allowed, SN.GoodWorld, ReadFd, ServerLaws.Inv, CS.Next, Lawful;
    var g := SN.ServerCfg(w);
    var s0 := SN.Init(w, fd);
    SN.InitGood(w, fd);
    SN.InitServer(w, fd);
    NewConnInv(g, fd);
    StartInSession(w, fd);
    SN.ServerOpens(w, s0, 7);
    var a := SN.ServerRead([s0.up], w.sentAt, 7, SN.WHOLE);
    var s1 := SN.Do(w, s0, a);
    open := SN.ServerInput(a);
    OkUnlessClosed(g, s0.sv, open);
    SN.SameClientInSession(s0, s1);
    SN.ClientFollows(w, s1);
    var b := SN.ClientRead([s1.down]);
    var s2 := SN.Do(w, s1, b);
    ReadyToAsk(w, s2);
    SN.AskAndPop(w, s2, path, data, SN.WHOLE.iv.value);
    var s4 := SN.Do(w, SN.Do(w, s2, SN.ClientAsk(path, data)), SN.ClientPop(SN.WHOLE.iv.value));
    SN.ReadFinishes(w, s4);
    var c := SN.ServerRead([s4.up], w.sentAt, 0, SN.WHOLE);
    ask := SN.ServerInput(c);
    OkUnlessClosed(g, s4.sv, ask);
    var s5 := SN.Do(w, s4, c);
    ReadyToRead(w, s5);
    assert Payloads(SN.Requests(s2.cl)) == [];
    f := s5.sv.log.dispatched[0];
    assert s5.sv.log.dispatched == [f];
  }

  lemma ReadyToRead(w: SN.World, s: SN.Sys)
    requires SN.Good(w, s)
    ensures !s.sv.crashed
  {
    hide SN.Requests, SN.UpStream, SN.DownStream, SN.Opening, SN.GoodWorld, SN.ClientOk;
  }

  lemma StartInSession(w: SN.World, fd: int)
    ensures SN.InSession(SN.Init(w, fd)) && SN.Requests(SN.Init(w, fd).cl) == [] && SN.Init(w, fd).cl.queue == []
  {
    hide EncodePlain;
  }

  lemma ReadyToAsk(w: SN.World, s: SN.Sys)
    requires SN.Good(w, s) && SN.Requests(s.cl) == []
    ensures s.cl.fid == 0 && !s.sv.crashed
  {
    hide SN.Requests, SN.UpStream, SN.DownStream, SN.Opening, SN.GoodWorld;
  }

  /** The table with one open connection. */
  function Single(fd: int, c: Conn, requests: seq<Request>): CT.Table {
    CT.Table(map[1 := c], map[fd := 1], 1, [], requests, false, false)
  }

  function AskedOnce(fd: int, c: Conn, f: Frame): CT.Table {
    Single(fd, c, [CT.ToRequest(1, f)])
  }

  lemma FirstAccept(g: CT.Setup, fd: int)
    ensures CT.TableStep(g, CT.EMPTY, CT.Accept(fd)) == Single(fd, NewConn(fd), [])
  {
  }

  lemma SingleRead(g: CT.Setup, fd: int, c: Conn, i: Input)
    requires var o := ReadFd(g.conn, c, i); o.ok && o.conn.state == ACTIVE && !o.conn.crashed
    ensures var d := ReadFd(g.conn, c, i).conn;
            CT.TableStep(g, Single(fd, c, []), CT.Readable(fd, i)) == Single(fd, d, CT.NewRequests(1, c, d))
  {
    hide ReadFd, CT.NewRequests, CT.Handle, CT.SendResponse;
    var d := ReadFd(g.conn, c, i).conn;
    assert [] + CT.NewRequests(1, c, d) == CT.NewRequests(1, c, d);
  }

  lemma TakesRequest(g: CT.Setup, w: SN.World, fd: int, path: Bytes, data: Bytes)
    returns (es: seq<CT.Event>, c: Conn, f: Frame)
    requires SN.GoodWorld(w) && g.conn == SN.ServerCfg(w)
    requires fd >= 0 && |path| < TWO16 && 57 + |path| + |data| <= w.serverMax
    ensures CT.AllAllowed(g, CT.EMPTY, es) && CT.TableRun(g, CT.EMPTY, es) == AskedOnce(fd, c, f)
    ensures |es| == 3 && es[0] == CT.Accept(fd) && es[1].Readable? && es[2].Readable?
    ensures f.path == path && f.data == data
  {
    hide ReadFd, SN.GoodWorld, SN.ServerCfg, CT.TableStep, CT.TableRun, CT.AllAllowed, CT.NewRequests;
    var open, ask;
    open, ask, f := OpenAndAsk(w, fd, path, data);
    var c0 := NewConn(fd);
    var c1 := ReadFd(g.conn, c0, open).conn;
    c := ReadFd(g.conn, c1, ask).conn;
    var e0, e1, e2 := CT.Accept(fd), CT.Readable(fd, open), CT.Readable(fd, ask);
    FreshRequests(c0, c1, []);
    FreshRequests(c1, c, [f]);
    FirstAccept(g, fd);
    SingleRead(g, fd, c0, open);
    SingleRead(g, fd, c1, ask);
    es := ThreeSteps(g, CT.EMPTY, e0, e1, e2);
  }

  lemma ThreeSteps(g: CT.Setup, t: CT.Table, e0: CT.Event, e1: CT.Event, e2: CT.Event) returns (es: seq<CT.Event>)
    requires var t1 := CT.TableStep(g, t, e0);
             CT.Allowed(t, e0) && CT.Allowed(t1, e1) && CT.Allowed(CT.TableStep(g, t1, e1), e2)
    ensures es == [e0, e1, e2] && CT.AllAllowed(g, t, es)
    ensures CT.TableRun(g, t, es) == CT.TableStep(g, CT.TableStep(g, CT.TableStep(g, t, e0), e1), e2)
  {
    hide CT.TableStep, CT.Allowed;
    var t1 := CT.TableStep(g, t, e0);
    var t2 := CT.TableStep(g, t1, e1);
    es := [e0] + ([e1] + ([e2] + []));
    FirstStep(g, t2, e2, []);
    FirstStep(g, t1, e1, [e2] + []);
    FirstStep(g, t, e0, [e1] + ([e2] + []));
  }

  lemma LosesAnswers(g: CT.Setup, fd: int, c: Conn, f: Frame, first: Bytes, second: Bytes, status: Byte)
    returns (es: seq<CT.Event>)
    requires !g.absorbs(1)
    ensures var t := AskedOnce(fd, c, f);
            var req := CT.ToRequest(1, f);
            var u := CT.TableRun(g, t, es);
            && es == [CT.Respond(req, first, status), CT.Respond(req, second, status), CT.HangUp(fd), CT.Execute([])]
            && CT.AllAllowed(g, t, es) && u.threw && !u.crashed && u.connections == map[] && u.requests == [req]
            && |u.queue| == 1 && u.queue[0].SendCmd? && u.queue[0].answers == Some(CT.Answering(req, second, status))
            && u.queue[0].frame.data == second && u.queue[0].frame.status == status
            && u.queue[0].frame.rid == f.rid && u.queue[0].frame.path == f.path
  {
    hide ReadFd, CT.OnReadable;
    var req := CT.ToRequest(1, f);
    var e0, e1 := CT.Respond(req, first, status), CT.Respond(req, second, status);
    var e2, e3 := CT.HangUp(fd), CT.Execute([]);
    var q0 := CT.SendCmd(1, MakeRespFrame(c, req.path, first, status, 0, req.rid),
                         Some(CT.Answering(req, first, status)));
    var q1 := CT.SendCmd(1, MakeRespFrame(c, req.path, second, status, 0, req.rid),
                         Some(CT.Answering(req, second, status)));
    var t := AskedOnce(fd, c, f);
    var t1, t2 := t.(queue := [q0]), t.(queue := [q0, q1]);
    var t3 := t2.(connections := map[]);
    var t4 := t3.(queue := [q1], threw := true);
    assert CT.TableStep(g, t, e0) == t1;
    assert CT.TableStep(g, t1, e1) == t2;
    assert CT.TableStep(g, t2, e2) == t3;
    assert CT.TableStep(g, t3, e3) == t4;
    hide CT.TableStep;
    es := [e0] + ([e1] + ([e2] + ([e3] + [])));
    FirstStep(g, t3, e3, []);
    FirstStep(g, t2, e2, [e3] + []);
    FirstStep(g, t1, e1, [e2] + ([e3] + []));
    FirstStep(g, t, e0, [e1] + ([e2] + ([e3] + [])));
  }

  /** A client that hangs up before its answers are sent ends the server, unless an
      error callback absorbs that: for every such client, request and answers, the
      loop is left by the exception and the second answer stays queued for ever. */
  lemma LostClientEndsTheLoop(g: CT.Setup, w: SN.World, fd: int, path: Bytes, data: Bytes,
                              first: Bytes, second: Bytes, status: Byte) returns (es: seq<CT.Event>)
    requires SN.GoodWorld(w) && g.conn == SN.ServerCfg(w) && !g.absorbs(1)
    requires fd >= 0 && |path| < TWO16 && 57 + |path| + |data| <= w.serverMax
    ensures var t := CT.TableRun(g, CT.EMPTY, es);
            && CT.AllAllowed(g, CT.EMPTY, es) && |es| == 7 && es[5] == CT.HangUp(fd) && es[6].Execute?
            && t.threw && !t.crashed && t.connections == map[]
            && |t.requests| == 1 && t.requests[0].path == path && t.requests[0].data == data
            && |t.queue| == 1 && t.queue[0].SendCmd?
            && t.queue[0].answers == Some(CT.Answering(t.requests[0], second, status))
            && t.queue[0].frame.data == second && t.queue[0].frame.status == status
            && t.queue[0].frame.rid == t.requests[0].rid && t.queue[0].frame.path == path
  {
    hide SN.GoodWorld, SN.ServerCfg, CT.TableRun, CT.AllAllowed;
    var arrivals, c, f := TakesRequest(g, w, fd, path, data);
    var answers := LosesAnswers(g, fd, c, f, first, second, status);
    es := arrivals + answers;
    CT.RunOn(g, CT.EMPTY, arrivals, answers);
  }

  lemma FirstStep(g: CT.Setup, t: CT.Table, e: CT.Event, more: seq<CT.Event>)
    ensures CT.TableRun(g, t, [e] + more) == CT.TableRun(g, CT.TableStep(g, t, e), more)
    ensures CT.AllAllowed(g, t, [e] + more) <==> CT.Allowed(t, e) && CT.AllAllowed(g, CT.TableStep(g, t, e), more)
  {
    hide CT.TableStep, CT.Allowed;
    assert ([e] + more)[1..] == more;
  }

  lemma FreshRequests(c: Conn, d: Conn, fs: seq<Frame>)
    requires c.log.dispatched == [] && d.log.dispatched == fs && |fs| <= 1
    ensures CT.NewRequests(1, c, d) == if fs == [] then [] else [CT.ToRequest(1, fs[0])]
  {
  }
}
