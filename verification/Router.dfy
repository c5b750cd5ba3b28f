/** Request routing (server/Server.cpp:19-33, 81-89). Handlers are named by
    number; calling one is returning its name. */
module Router {
  import opened Encoders
  import opened Frames

  datatype Request = Request(connId: nat, path: Bytes, data: Bytes, rid: U32)

  datatype Response = Response(connId: nat, path: Bytes, data: Bytes, status: Byte, rid: U32)

  /** A response to a request goes back under its connection, path and rid. */
  function Answer(req: Request, data: Bytes, status: Byte): Response {
    Response(req.connId, req.path, data, status, req.rid)
  }

  datatype Registration =
    | Exact(path: Bytes, handler: nat)
    | Functional(matcher: Request -> bool, handler: nat)

  datatype Outcome = Handled(handler: nat) | Refused(response: Response)

  predicate IsExact(h: seq<Registration>, i: int, path: Bytes) {
    0 <= i < |h| && h[i].Exact? && h[i].path == path
  }

  predicate IsMatch(h: seq<Registration>, i: int, req: Request) {
    0 <= i < |h| && h[i].Functional? && h[i].matcher(req)
  }

  /** The rule, told over the registration history: the latest exact handler of
      the path; else the earliest functional one that matches; else an empty
      response with status 4, NOT_FOUND, under the request's connection, path and
      rid. */
  ghost predicate Chosen(h: seq<Registration>, req: Request, o: Outcome) {
    || (exists i :: IsExact(h, i, req.path) && o == Handled(h[i].handler)
                    && forall j :: IsExact(h, j, req.path) ==> j <= i)
    || (&& (forall j :: !IsExact(h, j, req.path))
        && exists i :: IsMatch(h, i, req) && o == Handled(h[i].handler)
                       && forall j :: IsMatch(h, j, req) ==> i <= j)
    || (&& (forall j :: !IsExact(h, j, req.path)) && (forall j :: !IsMatch(h, j, req))
        && o.Refused? && o.response.connId == req.connId && o.response.path == req.path
        && o.response.rid == req.rid && o.response.data == [] && o.response.status == 4)
  }

  /** Exactly one outcome for every request. */
  lemma ChosenIsUnique(h: seq<Registration>, req: Request, o: Outcome, p: Outcome)
    requires Chosen(h, req, o) && Chosen(h, req, p)
    ensures o == p
  {
    if i, j :| IsExact(h, i, req.path) && (forall k :: IsExact(h, k, req.path) ==> k <= i)
               && IsExact(h, j, req.path) && (forall k :: IsExact(h, k, req.path) ==> k <= j) {
      assert i == j;
    }
    if i, j :| IsMatch(h, i, req) && (forall k :: IsMatch(h, k, req) ==> i <= k)
               && IsMatch(h, j, req) && (forall k :: IsMatch(h, k, req) ==> j <= k) {
      assert i == j;
    }
  }

  class RouteTable {
    var routes: map<Bytes, nat>
    var funcRoutes: seq<(Request -> bool, nat)>

    /** All registrations so far, and where each functional one came from. */
    ghost var history: seq<Registration>
    ghost var origin: seq<nat>

    ghost predicate Valid()
      reads this
    {
      && (forall p :: p in routes <==> exists i :: IsExact(history, i, p))
      && (forall p :: p in routes ==>
            exists i :: IsExact(history, i, p) && routes[p] == history[i].handler
                        && forall j :: IsExact(history, j, p) ==> j <= i)
      && |origin| == |funcRoutes|
      && (forall k :: 0 <= k < |origin| ==>
            origin[k] < |history| && history[origin[k]] == Functional(funcRoutes[k].0, funcRoutes[k].1))
      && (forall k, l :: 0 <= k < l < |origin| ==> origin[k] < origin[l])
      && (forall i :: 0 <= i < |history| && history[i].Functional? ==> i in origin)
    }

    constructor ()
      ensures Valid() && history == []
    {
      routes := map[];
      funcRoutes := [];
      history := [];
      origin := [];
    }

    method RoutePath(path: Bytes, handler: nat)
      requires Valid()
      modifies this
      ensures Valid() && history == old(history) + [Exact(path, handler)]
    {
      ghost var before := history;
      routes := routes[path := handler];
      history := history + [Exact(path, handler)];
      assert IsExact(history, |before|, path);
      forall p | p in routes && p != path
        ensures exists i :: IsExact(history, i, p) && routes[p] == history[i].handler
                            && forall j :: IsExact(history, j, p) ==> j <= i
      {
        var i :| IsExact(before, i, p) && old(routes)[p] == before[i].handler
                && forall j :: IsExact(before, j, p) ==> j <= i;
        assert IsExact(history, i, p);
        assert forall j :: IsExact(history, j, p) ==> IsExact(before, j, p);
      }
      forall p
        ensures p in routes <==> exists i :: IsExact(history, i, p)
      {
        if i :| IsExact(history, i, p) {
          assert i == |before| || IsExact(before, i, p);
        }
      }
    }

    method RouteMatching(matcher: Request -> bool, handler: nat)
      requires Valid()
      modifies this
      ensures Valid() && history == old(history) + [Functional(matcher, handler)]
    {
      ghost var before := history;
      funcRoutes := funcRoutes + [(matcher, handler)];
      history := history + [Functional(matcher, handler)];
      origin := origin + [|before|];
      assert forall i, p :: IsExact(history, i, p) <==> IsExact(before, i, p);
      forall i | 0 <= i < |history| && history[i].Functional?
        ensures i in origin
      {
        if i == |before| {
          assert origin[|origin| - 1] == i;
        } else {
          assert i in old(origin);
        }
      }
    }

    /** _router: the map first, then the vector front to back, then NOT_FOUND. */
    method Route(req: Request) returns (o: Outcome)
      requires Valid()
      ensures Chosen(history, req, o)
    {
      if req.path in routes {
        return Handled(routes[req.path]);
      }
      var k := 0;
      while k < |funcRoutes|
        invariant k <= |funcRoutes|
        invariant forall l :: 0 <= l < k ==> !funcRoutes[l].0(req)
      {
        if funcRoutes[k].0(req) {
          assert IsMatch(history, origin[k], req);
          forall j | IsMatch(history, j, req)
            ensures origin[k] <= j
          {
            assert j in origin;
            var l :| 0 <= l < |origin| && origin[l] == j;
          }
          return Handled(funcRoutes[k].1);
        }
        k := k + 1;
      }
      assert forall j :: IsMatch(history, j, req) ==> j in origin;
      assert forall l :: 0 <= l < |origin| ==> !IsMatch(history, origin[l], req);
      return Refused(Answer(req, [], STATUS_NOT_FOUND));
    }
  }
}
