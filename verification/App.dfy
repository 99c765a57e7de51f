/** The server half of `qtun.App`: the routing table and the three places that change it. */
module App {
  import opened Prelude
  import opened Registry
  import opened Server
  import Envelope

  /** The destination address ends at byte 20 of an IPv4 header. */
  const IP_HEADER_SIZE := 20

  class App {
    var routes: Routes
    var tun: seq<Bytes>
    const server: Server

    constructor (server: Server)
      ensures routes == map[] && tun == [] && this.server == server
    {
      routes, tun := map[], [];
      this.server := server;
    }

    /**
     * The read loop's handler. Malformed data is dropped; a packet goes to the TUN device; a ping adds its route
     * and then registers the connection under the address the ping carries. Logging a packet slices its addresses
     * out of bytes 12 to 20, which panics when the payload's buffer, of `capacity` bytes, is shorter than that.
     */
    method ServerOnData(buf: Bytes, conn: ServerConn, capacity: nat) returns (panicked: bool)
      requires forall c :: c in server.Conns.Values && c.conn == null ==> c.chanWriteOpen
      requires match Envelope.Unmarshal(buf) { case Some(PacketType(payload)) => capacity >= |payload| case _ => true }
      modifies this, server, server.Conns.Values
      ensures match Envelope.Unmarshal(buf)
              case Some(PingType(p)) =>
                && !panicked
                && routes == AddRoute(old(routes), p.ip, p.localAddr)
                && p.ip in routes && p.localAddr in routes[p.ip]
                && server.Maps() == old(server.Maps()).SetConns(p.localAddr, conn, old(server.Streamless()))
                && tun == old(tun)
              case Some(PacketType(payload)) =>
                && panicked == (capacity < 20)
                && tun == (if panicked then old(tun) else old(tun) + [payload])
                && routes == old(routes) && server.Maps() == old(server.Maps())
              case _ => !panicked && tun == old(tun) && routes == old(routes) && server.Maps() == old(server.Maps())
      ensures forall c :: c in old(server.Conns.Values) && old(c.conn) != null ==> unchanged(c)
    {
      panicked := false;
      match Envelope.Unmarshal(buf) {
        case Some(PingType(ping)) =>
          if ping.ip in routes {
            routes := routes[ping.ip := routes[ping.ip] + {ping.localAddr}];
          } else {
            routes := routes[ping.ip := {ping.localAddr}];
          }
          server.SetConns(ping.localAddr, conn);
        case Some(PacketType(payload)) =>
          if capacity < IP_HEADER_SIZE {
            return true;
          }
          tun := tun + [payload];
        case _ =>
      }
    }

    /** The inner loop of the sweep: one destination, its addresses taken in any order. */
    method CleanRouteOf(dst: Vip, ghost closed: set<ServerConn>)
      requires dst in routes
      requires forall c :: c in server.Conns.Values ==> (c.isClosed <==> c in closed)
      modifies this`routes, server
      ensures routes == old(routes)[dst := set a | a in old(routes)[dst] && old(server.Maps()).Live(a, closed)]
      ensures server.Maps() == old(server.Maps()).DeleteAll(DeadAmong(old(routes)[dst], old(server.Maps()), closed))
    {
      ghost var maps0 := server.Maps();
      ghost var all, live := routes[dst], set a | a in routes[dst] && maps0.Live(a, closed);
      ghost var gone: set<Addr> := {};
      var conns := routes[dst];
      DeleteNone(maps0);
      assert conns + live == conns && old(routes)[dst := conns] == routes;
      while conns != {}
        invariant conns <= all && dst in routes
        invariant routes[dst] == conns + live && routes == old(routes)[dst := routes[dst]]
        invariant gone == DeadAmong(all - conns, maps0, closed)
        invariant server.Maps() == maps0.DeleteAll(gone)
      {
        var c :| c in conns;
        DeadAmongStep(all, conns, c, maps0, closed);
        conns := conns - {c};
        var conn := server.GetConnsByAddr(c);
        if conn == null || conn.isClosed {
          routes := routes[dst := routes[dst] - {c}];
          server.DeleteDeadConn(c);
          DeleteAllStep(maps0, gone, c);
          gone := gone + {c};
        }
      }
      assert all - conns == all && conns + live == live;
    }

    /**
     * One run of the periodic sweep with nothing else running, whatever order the maps are iterated in:
     * every route keeps exactly its live addresses, and the dead ones leave the registry.
     */
    method CleanRoute()
      modifies this`routes, server
      ensures routes == SweptRoutes(old(routes), old(server.Maps()), old(server.Closed()))
      ensures server.Maps() == SweptRegistry(old(routes), old(server.Maps()), old(server.Closed()))
    {
      ghost var routes0, maps0, closed := routes, server.Maps(), server.Closed();
      ghost var gone: set<Addr> := {};
      var dsts := routes.Keys;
      DeleteNone(maps0);
      while dsts != {}
        invariant dsts <= routes0.Keys
        invariant routes == SweptSoFar(routes0, dsts, maps0, closed)
        invariant gone == DeadRouted(routes0 - dsts, maps0, closed)
        invariant server.Maps() == maps0.DeleteAll(gone)
      {
        var dst :| dst in dsts;
        ghost var dead := DeadAmong(routes0[dst], maps0, closed);
        DeleteAllTwice(maps0, gone, routes0[dst], closed);
        SweptSoFarStep(routes0, dsts, dst, maps0, closed);
        assert routes[dst] == routes0[dst];
        ghost var maps := server.Maps();
        CleanRouteOf(dst, closed);
        assert (set a | a in routes0[dst] && maps.Live(a, closed))
            == set a | a in routes0[dst] && maps0.Live(a, closed);
        dsts := dsts - {dst};
        gone := gone + dead;
      }
      assert routes0 - dsts == routes0;
    }

    /**
     * The forwarding loop for one packet with nothing else running. Each round picks any address the route
     * offers; a dead one is evicted and the loop tries again, a live one gets the packet.
     */
    method ForwardPacket(dst: Vip, pkt: Bytes) returns (sentTo: Option<Addr>, ghost evicted: set<Addr>)
      modifies this`routes, server, server.Conns.Values
      ensures sentTo.Some? <==> dst in old(routes) && exists a :: a in old(routes)[dst] && old(Live(a))
      ensures sentTo.Some? ==>
                && sentTo.value in old(routes)[dst] && old(Live(sentTo.value))
                && var conn := old(server.Conns)[sentTo.value];
                   conn.chanWrite == if conn.chanWriteOpen
                                     then old(conn.chanWrite) + [Envelope.Marshal(Envelope.PacketType(pkt))]
                                     else old(conn.chanWrite)
      ensures forall c :: c in old(server.Conns.Values) && (sentTo.None? || c != old(server.Conns)[sentTo.value]) ==>
                unchanged(c)
      ensures sentTo.None? ==> dst !in routes || routes[dst] == {}
      ensures forall a :: a in evicted ==> dst in old(routes) && a in old(routes)[dst] && !old(Live(a))
      ensures routes == if dst in old(routes) then old(routes)[dst := old(routes)[dst] - evicted] else old(routes)
      ensures server.Maps() == old(server.Maps()).DeleteAll(evicted)
    {
      ghost var maps0 := server.Maps();
      evicted := {};
      DeleteNone(maps0);
      assert dst in routes ==> routes[dst] - {} == routes[dst] && routes[dst := routes[dst]] == routes;
      while true
        invariant forall a :: a in evicted ==> dst in old(routes) && a in old(routes)[dst] && !old(Live(a))
        invariant dst !in old(routes) ==> routes == old(routes)
        invariant dst in old(routes) ==>
                    && dst in routes && routes[dst] == old(routes)[dst] - evicted
                    && routes == old(routes)[dst := routes[dst]]
        invariant server.Maps() == maps0.DeleteAll(evicted)
        invariant forall c :: c in old(server.Conns.Values) ==> unchanged(c)
        decreases if dst in routes then routes[dst] else {}
      {
        if dst !in routes {
          return None, evicted;
        }
        var keys := routes[dst];
        if keys == {} {
          return None, evicted;
        }
        var key :| key in keys;
        var conn := server.GetConnsByAddr(key);
        if conn == null || conn.isClosed {
          routes := routes[dst := routes[dst] - {key}];
          server.DeleteDeadConn(key);
          DeleteAllStep(maps0, evicted, key);
          evicted := evicted + {key};
          assert routes[dst] == old(routes)[dst] - evicted;
        } else {
          conn.SendPacket(pkt);
          return Some(key), evicted;
        }
      }
    }

    predicate Live(a: Addr): (r: bool)
      reads server, server.Conns.Values
      ensures r <==> server.Maps().Live(a, server.Closed())
    {
      a in server.Conns && !server.Conns[a].isClosed
    }
  }

  function DeadAmong<Conn>(addrs: set<Addr>, r: Registry<Conn>, closed: set<Conn>): set<Addr> {
    set a | a in addrs && !r.Live(a, closed)
  }

  lemma DeleteNone<Conn>(r: Registry<Conn>)
    ensures r.DeleteAll({}) == r
  {
    assert r.conns - {} == r.conns && r.reverse - {} == r.reverse;
  }

  lemma DeadAmongStep<Conn>(all: set<Addr>, left: set<Addr>, c: Addr, r: Registry<Conn>, closed: set<Conn>)
    requires c in left && left <= all
    ensures DeadAmong(all - (left - {c}), r, closed)
            == DeadAmong(all - left, r, closed) + if r.Live(c, closed) then {} else {c}
  {
  }

  /** The routing table while `left` are the destinations the sweep has not reached. */
  function SweptSoFar<Conn>(routes: Routes, left: set<Vip>, r: Registry<Conn>, closed: set<Conn>): Routes {
    map ip | ip in routes :: if ip in left then routes[ip] else set a | a in routes[ip] && r.Live(a, closed)
  }

  lemma SweptSoFarStep<Conn>(routes: Routes, left: set<Vip>, dst: Vip, r: Registry<Conn>, closed: set<Conn>)
    requires dst in left && left <= routes.Keys
    ensures SweptSoFar(routes, left - {dst}, r, closed)
            == SweptSoFar(routes, left, r, closed)[dst := set a | a in routes[dst] && r.Live(a, closed)]
    ensures DeadRouted(routes - (left - {dst}), r, closed)
            == DeadRouted(routes - left, r, closed) + DeadAmong(routes[dst], r, closed)
  {
    assert (routes - (left - {dst})).Keys == (routes - left).Keys + {dst};
    forall a | a in DeadAmong(routes[dst], r, closed)
      ensures a in DeadRouted(routes - (left - {dst}), r, closed)
    {
      assert dst in routes - (left - {dst});
    }
    forall a | a in DeadRouted(routes - left, r, closed)
      ensures a in DeadRouted(routes - (left - {dst}), r, closed)
    {
      var ip :| ip in routes - left && a in routes[ip];
      assert ip in routes - (left - {dst});
    }
  }

  /** Deleting dead addresses one route at a time: the second batch is dead in both registries alike. */
  lemma DeleteAllTwice<Conn>(r: Registry<Conn>, gone: set<Addr>, addrs: set<Addr>, closed: set<Conn>)
    requires forall a :: a in gone ==> !r.Live(a, closed)
    ensures var r' := r.DeleteAll(gone);
            && (forall a :: r'.Live(a, closed) <==> r.Live(a, closed))
            && r'.DeleteAll(DeadAmong(addrs, r', closed)) == r.DeleteAll(gone + DeadAmong(addrs, r, closed))
  {
    var r' := r.DeleteAll(gone);
    var dead := DeadAmong(addrs, r, closed);
    assert DeadAmong(addrs, r', closed) == dead;
    assert r.conns - gone - dead == r.conns - (gone + dead);
    var c1 := set a | a in gone && a in r.conns :: r.conns[a];
    var c2 := set a | a in dead && a in r'.conns :: r'.conns[a];
    var c3 := set a | a in gone + dead && a in r.conns :: r.conns[a];
    assert c3 == c1 + c2;
    assert r.reverse - c1 - c2 == r.reverse - c3;
  }
}
