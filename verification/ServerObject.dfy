/** The server object: its tables of connection objects, updated in place by the
    epoll loop and by calls from the thread pool (server/Server.cpp). Every method
    is proved to take the steps of ConnectionTable it implements, read off the
    fields of the connection objects in the map. */
module ServerObject {
  import opened Encoders
  import opened Crypto
  import opened ServerSpec
  import opened ServerConnection
  import opened Router
  import opened ConnectionTable
  import HandOff

  /** Connection objects as values. */
  ghost function View(cs: map<nat, ClientConnection>): (v: map<nat, Conn>)
    reads cs.Values
    ensures v.Keys == cs.Keys
  {
    map id | id in cs :: cs[id].Abs()
  }

  lemma ViewAt(cs: map<nat, ClientConnection>, id: nat)
    requires id in cs
    ensures View(cs)[id] == cs[id].Abs()
    ensures View(cs - {id}) == View(cs) - {id}
  {
  }

  lemma ViewPut(cs: map<nat, ClientConnection>, id: nat, c: ClientConnection)
    ensures View(cs[id := c]) == View(cs)[id := c.Abs()]
  {
  }

  class Server {
    const cfg: Setup

    var connections: map<nat, ClientConnection>
    var fdToId: map<int, nat>
    var connCount: nat
    const commandQueue: HandOff.ConcurrentQueue<Command>
    /** A connection exhausted the stack; the loop was left by an exception. */
    var crashed: bool
    var threw: bool

    /** The requests handed to the pool. */
    ghost var requests: seq<Request>

    /** Every connection is filed under the id it was made with, so no object is
        filed twice. */
    ghost predicate Valid()
      reads this, connections.Values
    {
      && (forall id :: id in connections ==> connections[id].connId == id && connections[id].Cfg() == cfg.conn)
      && (!crashed ==> forall id :: id in connections ==> !connections[id].crashed)
    }

    ghost function Abs(): Table
      reads this, connections.Values, commandQueue
    {
      Table(View(connections), fdToId, connCount, commandQueue.items, requests, crashed, threw)
    }

    /** Changing one object of the map changes one entry of the view. */
    twostate lemma OneEntry(connId: nat)
      requires old(Valid()) && connections == old(connections) && connId in connections
      requires forall c :: c in connections.Values && c != connections[connId] ==> c.Abs() == old(c.Abs())
      ensures View(connections) == old(View(connections))[connId := connections[connId].Abs()]
    {
    }

    constructor (cfg: Setup)
      ensures Valid() && Abs() == EMPTY && this.cfg == cfg
    {
      this.cfg := cfg;
      connections := map[];
      fdToId := map[];
      connCount := 0;
      commandQueue := new HandOff.ConcurrentQueue<Command>();
      crashed := false;
      threw := false;
      requests := [];
    }

    method AcceptOne(fd: int)
      requires Valid() && !crashed && !threw
      modifies this
      ensures Valid() && !crashed && !threw
      ensures Abs() == TableStep(cfg, old(Abs()), Accept(fd))
      ensures forall c :: c in connections.Values ==> c in old(connections.Values) || fresh(c)
    {
      hide View, OnReadable, Handle, SendResponse;
      var conn := new ClientConnection(fd, cfg.conn.maxFrameSize, cfg.conn.suite, cfg.conn.notifies, connCount);
      ViewPut(connections, conn.connId, conn);
      connections := connections[conn.connId := conn];
      fdToId := fdToId[fd := conn.connId];
      connCount := conn.connId;
    }

    /** The accept() loop: `fds` are its results before the first negative one. */
    method AcceptAll(fds: seq<int>)
      requires Valid() && !crashed && !threw
      modifies this
      ensures Valid() && Abs() == TableRun(cfg, old(Abs()), Accepts(fds))
      ensures forall c :: c in connections.Values ==> c in old(connections.Values) || fresh(c)
    {
      hide TableStep;
      var k := 0;
      assert fds[..0] == [] && Accepts([]) == [];
      while k < |fds|
        invariant k <= |fds| && Valid() && !crashed && !threw
        invariant forall c :: c in connections.Values ==> c in old(connections.Values) || fresh(c)
        invariant Abs() == TableRun(cfg, old(Abs()), Accepts(fds[..k]))
      {
        AcceptOne(fds[k]);
        assert fds[..k + 1] == fds[..k] + [fds[k]];
        assert Accepts(fds[..k + 1]) == Accepts(fds[..k]) + [Accept(fds[k])];
        RunAppend(cfg, old(Abs()), Accepts(fds[..k]), Accept(fds[k]));
        k := k + 1;
      }
      assert fds[..k] == fds;
    }

    method Forget(connId: nat)
      requires Valid() && connId in connections
      modifies this`connections
      ensures Valid() && connections == old(connections) - {connId}
      ensures View(connections) == old(View(connections)) - {connId}
    {
      hide View;
      ViewAt(connections, connId);
      connections := connections - {connId};
    }

    /** Deleting a connection closes it, saying nothing to the peer. */
    method OnHangUp(fd: int)
      requires Valid() && !crashed && !threw
      modifies this, connections.Values
      ensures Valid() && Abs() == TableStep(cfg, old(Abs()), ConnectionTable.HangUp(fd))
      ensures connections.Values <= old(connections.Values)
      ensures fd in old(fdToId) && old(fdToId)[fd] in old(connections) ==>
                var id := old(fdToId)[fd];
                old(connections)[id].Abs() == Close(cfg.conn, old(View(connections))[id], NATURAL, true, [])
    {
      hide Close, View, OnReadable, Handle, SendResponse;
      ghost var before := View(connections);
      if fd !in fdToId {
        return;
      }
      var connId := fdToId[fd];
      if connId !in connections {
        assert before - {connId} == before;
        return;
      }
      var conn := connections[connId];
      ViewAt(connections, connId);
      Delete(conn);
      OneEntry(connId);
      Forget(connId);
      assert View(connections) == before - {connId};
    }

    /** Reading one connection and handing its requests to the pool. */
    method ReadAt(connId: nat, input: Input) returns (ok: bool)
      requires Valid() && !crashed && connId in connections
      modifies this`requests, this`crashed, connections[connId]
      ensures Valid()
      ensures var before := old(View(connections));
              var o := ReadFd(cfg.conn, before[connId], input);
              && ok == o.ok && connections[connId].state == o.conn.state && crashed == o.conn.crashed
              && requests == old(requests) + NewRequests(connId, before[connId], o.conn)
              && View(connections) == before[connId := o.conn]
    {
      hide ReadFd, NewRequests, View;
      ghost var before := View(connections);
      var conn := connections[connId];
      ViewAt(connections, connId);
      ok := conn.Receive(input);
      OneEntry(connId);
      requests := requests + NewRequests(connId, before[connId], conn.Abs());
      crashed := conn.crashed;
    }

    method OnInput(fd: int, input: Input)
      requires Valid() && !crashed && !threw
      modifies this, connections.Values
      ensures Valid() && Abs() == TableStep(cfg, old(Abs()), ConnectionTable.Readable(fd, input))
      ensures connections.Values <= old(connections.Values)
    {
      hide ReadFd, NewRequests, View, Handle, SendResponse;
      ghost var before := View(connections);
      if fd !in fdToId {
        return;
      }
      var connId := fdToId[fd];
      if connId !in connections {
        return;
      }
      var ok := ReadAt(connId, input);
      if !ok || connections[connId].state == CLOSED {
        Forget(connId);
        assert View(connections) == before - {connId};
      }
    }

    /** Responder::respond. */
    method RespondTo(req: Request, data: Bytes, status: Byte)
      requires Valid() && !crashed
      modifies commandQueue
      ensures Valid() && Abs() == TableStep(cfg, old(Abs()), Respond(req, data, status))
    {
      if req.connId !in connections {
        return;
      }
      var f := connections[req.connId].MakeResponseFrame(req.path, data, status, 0, req.rid);
      commandQueue.Push(SendCmd(req.connId, f, Some(Answering(req, data, status))));
    }

    method CloseById(connId: nat)
      requires Valid() && !crashed
      modifies commandQueue
      ensures Valid() && Abs() == TableStep(cfg, old(Abs()), AskClose(connId))
    {
      commandQueue.Push(CloseCmd(connId));
    }

    /** Deleting a connection never waits for the peer, so it never fails. */
    method Delete(conn: ClientConnection)
      requires !conn.crashed
      modifies conn
      ensures conn.Abs() == Close(conn.Cfg(), old(conn.Abs()), NATURAL, true, []) && !conn.crashed
    {
      hide Send;
      conn.CloseConnection(NATURAL, true, []);
    }

    method CloseAll()
      requires Valid() && !crashed
      modifies connections.Values
      ensures Valid()
      ensures forall id :: id in connections ==>
                connections[id].Abs() == Close(cfg.conn, old(connections[id].Abs()), NATURAL, true, [])
    {
      hide Close;
      var todo := connections.Keys;
      while todo != {}
        invariant todo <= connections.Keys
        invariant forall id :: id in connections ==> !connections[id].crashed
        invariant forall id :: id in connections ==>
                    connections[id].Abs()
                    == if id in todo then old(connections[id].Abs())
                       else Close(cfg.conn, old(connections[id].Abs()), NATURAL, true, [])
        decreases |todo|
      {
        var id :| id in todo;
        Delete(connections[id]);
        todo := todo - {id};
      }
    }

    /** stop, as far as the tables go: the queue is cleared unexecuted. */
    method Stop()
      requires Valid() && !crashed
      modifies this, commandQueue, connections.Values
      ensures Valid() && Abs() == old(Abs()).(connections := map[], fdToId := map[], queue := [])
      ensures forall id :: id in old(connections) ==>
                old(connections)[id].Abs() == Close(cfg.conn, old(connections[id].Abs()), NATURAL, true, [])
    {
      hide Close;
      commandQueue.Clear();
      CloseAll();
      connections := map[];
      fdToId := map[];
    }

    /** Sending on or closing one connection. */
    method Perform(cmd: Command, atts: seq<Attempt>)
      requires Valid() && !crashed && cmd.connId in connections
      modifies this`crashed, connections[cmd.connId]
      ensures Valid()
      ensures var c := old(View(connections))[cmd.connId];
              var d := if cmd.SendCmd? then Send(cfg.conn, c, cmd.frame, atts)
                       else Close(cfg.conn, c, NATURAL, true, atts);
              View(connections) == old(View(connections))[cmd.connId := d] && crashed == d.crashed
    {
      hide Send, Close, View;
      var conn := connections[cmd.connId];
      ViewAt(connections, cmd.connId);
      if cmd.SendCmd? {
        conn.SendFrame(cmd.frame, atts);
      } else {
        conn.CloseConnection(NATURAL, true, atts);
      }
      OneEntry(cmd.connId);
      crashed := conn.crashed;
    }

    method HandleCommand(cmd: Command, atts: seq<Attempt>)
      requires Valid() && !crashed
      modifies this`crashed, this`threw, connections.Values
      ensures Valid() && Abs() == Handle(cfg, old(Abs()), cmd, atts)
    {
      hide Send, Close, View;
      if cmd.connId !in connections {
        threw := !cfg.absorbs(cmd.connId);
        return;
      }
      Perform(cmd, atts);
    }

    /** One turn of the drain loop; `cmd` is the variable tryPop fills. */
    method ExecuteOne(cmd: Command, atts: seq<Attempt>) returns (popped: bool, next: Command)
      requires Valid() && !crashed && !threw
      modifies commandQueue, this`crashed, this`threw, connections.Values
      ensures Valid() && Abs() == TableStep(cfg, old(Abs()), Execute(atts))
      ensures popped <==> old(commandQueue.items) != []
      ensures popped ==> commandQueue.items == old(commandQueue.items)[1..]
      ensures !popped ==> Abs() == old(Abs())
    {
      hide Handle, View;
      popped, next := commandQueue.TryPop(cmd);
      if popped {
        HandleCommand(next, atts);
      }
    }

    /** The drain loop: pop and handle until the queue is empty or something ends
        the loop. `env` holds the outcomes of the sends of each command. */
    method DrainCommands(env: seq<seq<Attempt>>)
      requires Valid() && !crashed && !threw && |env| == |commandQueue.items|
      modifies commandQueue, this`crashed, this`threw, connections.Values
      ensures Valid() && Abs() == TableRun(cfg, old(Abs()), Executes(env))
      ensures var n := Spared(cfg, connections.Keys, old(commandQueue.items));
              !crashed ==>
                && (threw <==> n < |old(commandQueue.items)|)
                && commandQueue.items == if threw then old(commandQueue.items)[n + 1..] else []
    {
      hide TableStep, Spared, View;
      ghost var start := Abs();
      var k := 0;
      var cmd, more := CloseCmd(0), true;
      assert env[..0] == [] && Executes([]) == [];
      while more && !crashed && !threw
        invariant k <= |env| && |commandQueue.items| == |env| - k && Valid()
        invariant !more ==> k == |env|
        invariant Abs() == TableRun(cfg, start, Executes(env[..k]))
        decreases |env| - k, more
      {
        more, cmd := ExecuteOne(cmd, if k < |env| then env[k] else []);
        if more {
          ExecutesAppend(env, k);
          RunAppend(cfg, start, Executes(env[..k]), Execute(env[k]));
          k := k + 1;
        }
      }
      if crashed || threw {
        RunOn(cfg, start, Executes(env[..k]), Executes(env[k..]));
        assert Executes(env) == Executes(env[..k]) + Executes(env[k..]);
        StoppedStays(cfg, Abs(), env[k..]);
      } else {
        assert env[..k] == env;
      }
      DrainEmptiesIff(cfg, start, env);
      assert start.connections.Keys == connections.Keys;
    }
  }

  lemma ExecutesAppend(env: seq<seq<Attempt>>, k: nat)
    requires k < |env|
    ensures Executes(env[..k + 1]) == Executes(env[..k]) + [Execute(env[k])]
  {
  }

  function Accepts(fds: seq<int>): seq<ConnectionTable.Event> {
    seq(|fds|, i requires 0 <= i < |fds| => Accept(fds[i]))
  }

  lemma RunAppend(g: Setup, t: Table, es: seq<ConnectionTable.Event>, e: ConnectionTable.Event)
    ensures TableRun(g, t, es + [e]) == TableStep(g, TableRun(g, t, es), e)
  {
    hide TableStep;
    RunOn(g, t, es, [e]);
    assert [e][1..] == [];
  }
}
