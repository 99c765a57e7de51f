/**
 * The server's two connection maps and the routing table, as values. The step system and the classes
 * `Server` and `App` are both stated with these functions.
 */
module Registry {
  import opened Prelude

  type Addr = Bytes
  type Vip = Bytes
  type Routes = map<Vip, set<Addr>>

  /** `conns` finds a connection by the address its client announced, `reverse` the address by connection. */
  datatype Registry<Conn(==)> = Registry(conns: map<Addr, Conn>, reverse: map<Conn, Addr>) {

    function Lookup(a: Addr): Option<Conn> {
      if a in conns then Some(conns[a]) else None
    }

    function DeleteDeadConn(a: Addr): Registry<Conn> {
      if a in conns then Registry(conns - {a}, reverse - {conns[a]}) else this
    }

    /** `streamless` holds the connections whose stream is nil; registering over one of those drops the old entry. */
    function SetConns(a: Addr, c: Conn, streamless: set<Conn>): Registry<Conn> {
      if a !in conns then Registry(conns[a := c], reverse[c := a])
      else if conns[a] in streamless then Registry(conns - {a}, reverse)
      else this
    }

    function RemoveConnByConnPointer(c: Conn): Registry<Conn> {
      if c in reverse then Registry(conns - {reverse[c]}, reverse - {c}) else this
    }

    /** Every reverse entry is matched by a forward entry. */
    ghost predicate Coherent() {
      forall c :: c in reverse ==> reverse[c] in conns && conns[reverse[c]] == c
    }

    /** The two maps are inverses of each other. */
    ghost predicate ExactInverse() {
      && Coherent()
      && forall a :: a in conns ==> conns[a] in reverse && reverse[conns[a]] == a
    }

    predicate Live(a: Addr, closed: set<Conn>) {
      a in conns && conns[a] !in closed
    }

    /** The effect of `DeleteDeadConn` on each of `gone`, in any order. */
    function DeleteAll(gone: set<Addr>): Registry<Conn> {
      Registry(conns - gone, reverse - set a | a in gone && a in conns :: conns[a])
    }
  }

  /** `SetConns` keeps coherence unless it replaces a streamless connection. */
  lemma OperationsKeepCoherence<Conn>(r: Registry<Conn>, a: Addr, c: Conn)
    requires r.Coherent()
    ensures r.DeleteDeadConn(a).Coherent()
    ensures r.SetConns(a, c, {}).Coherent()
    ensures r.RemoveConnByConnPointer(c).Coherent()
    ensures c !in r.RemoveConnByConnPointer(c).reverse
  {
  }

  /** No operation gives a registered address to another connection, and a cleanup removes only its own entry. */
  lemma OperationsSpareOthers<Conn>(r: Registry<Conn>, a: Addr, b: Addr, c: Conn)
    requires r.Coherent() && b in r.conns
    ensures r.SetConns(a, c, {}).Lookup(b) == r.Lookup(b)
    ensures a != b ==> r.DeleteDeadConn(a).Lookup(b) == r.Lookup(b)
    ensures a == b ==> r.DeleteDeadConn(a).Lookup(b) == None
    ensures r.conns[b] != c ==> r.RemoveConnByConnPointer(c).Lookup(b) == r.Lookup(b)
  {
  }

  lemma CoherentIsInjective<Conn>(r: Registry<Conn>, c: Conn, d: Conn)
    requires r.Coherent() && c in r.reverse && d in r.reverse && r.reverse[c] == r.reverse[d]
    ensures c == d
  {
  }

  lemma DeleteAllStep<Conn>(r: Registry<Conn>, gone: set<Addr>, a: Addr)
    ensures r.DeleteAll(gone).DeleteDeadConn(a) == r.DeleteAll(gone + {a})
  {
    var s := r.DeleteAll(gone);
    assert r.conns - gone - {a} == r.conns - (gone + {a});
    var cs := set b | b in gone && b in r.conns :: r.conns[b];
    var ds := set b | b in gone + {a} && b in r.conns :: r.conns[b];
    if a in s.conns {
      assert ds == cs + {r.conns[a]} by {
        assert a in gone + {a} && a in r.conns;
      }
      assert r.reverse - cs - {r.conns[a]} == r.reverse - ds;
    } else {
      assert ds == cs;
      assert s.conns - {a} == s.conns;
    }
  }

  lemma DeleteAllKeepsCoherence<Conn>(r: Registry<Conn>, gone: set<Addr>)
    requires r.Coherent()
    ensures r.DeleteAll(gone).Coherent()
  {
    var cs := set a | a in gone && a in r.conns :: r.conns[a];
    forall c | c in r.reverse && c !in cs ensures r.reverse[c] in r.conns - gone {
      assert r.conns[r.reverse[c]] == c;
    }
  }

  /** A ping's route insertion. */
  function AddRoute(routes: Routes, ip: Vip, a: Addr): (r: Routes)
    ensures r.Keys == routes.Keys + {ip}
    ensures forall d, b :: d in r ==> (b in r[d] <==> (d in routes && b in routes[d]) || (d == ip && b == a))
  {
    if ip in routes then routes[ip := routes[ip] + {a}] else routes[ip := {a}]
  }

  /** Go's `delete(routes[dst], a)`: a no-op when `dst` has no entry; it never removes the key `dst`. */
  function DeleteRoute(routes: Routes, dst: Vip, a: Addr): (r: Routes)
    ensures r.Keys == routes.Keys
    ensures forall d, b :: d in r ==> (b in r[d] <==> b in routes[d] && !(d == dst && b == a))
  {
    if dst in routes then routes[dst := routes[dst] - {a}] else routes
  }

  predicate Routed(routes: Routes, a: Addr) {
    exists ip :: ip in routes && a in routes[ip]
  }

  /** What one uninterrupted sweep leaves of the routing table. */
  function SweptRoutes<Conn>(routes: Routes, r: Registry<Conn>, closed: set<Conn>): Routes {
    map ip | ip in routes :: set a | a in routes[ip] && r.Live(a, closed)
  }

  function DeadRouted<Conn>(routes: Routes, r: Registry<Conn>, closed: set<Conn>): set<Addr> {
    set ip, a | ip in routes && a in routes[ip] && !r.Live(a, closed) :: a
  }

  function SweptRegistry<Conn>(routes: Routes, r: Registry<Conn>, closed: set<Conn>): Registry<Conn> {
    r.DeleteAll(DeadRouted(routes, r, closed))
  }

  /** A sweep removes no live entry and makes none, so liveness is what it was. */
  lemma SweepKeepsLiveness<Conn>(routes: Routes, r: Registry<Conn>, closed: set<Conn>, a: Addr)
    ensures SweptRegistry(routes, r, closed).Live(a, closed) <==> r.Live(a, closed)
    ensures r.Live(a, closed) ==> SweptRegistry(routes, r, closed).conns[a] == r.conns[a]
  {
  }

  /** A second sweep right after the first changes nothing. */
  lemma SweepIdempotent<Conn>(routes: Routes, r: Registry<Conn>, closed: set<Conn>)
    ensures var routes', r' := SweptRoutes(routes, r, closed), SweptRegistry(routes, r, closed);
            SweptRoutes(routes', r', closed) == routes' && SweptRegistry(routes', r', closed) == r'
  {
    var routes', r' := SweptRoutes(routes, r, closed), SweptRegistry(routes, r, closed);
    forall a ensures r'.Live(a, closed) <==> r.Live(a, closed) {
      SweepKeepsLiveness(routes, r, closed, a);
    }
    forall ip | ip in routes ensures (set a | a in routes'[ip] && r'.Live(a, closed)) == routes'[ip] {
    }
    assert DeadRouted(routes', r', closed) == {};
    assert r'.conns - {} == r'.conns && r'.reverse - {} == r'.reverse;
  }

  /** When every registered address is routed, a sweep leaves only live registrations, and all of those. */
  lemma SweepLeavesOnlyLive<Conn>(routes: Routes, r: Registry<Conn>, closed: set<Conn>)
    requires forall a :: a in r.conns ==> Routed(routes, a)
    ensures SweptRegistry(routes, r, closed).conns == map a | a in r.conns && r.conns[a] !in closed :: r.conns[a]
    ensures r.Coherent() ==> SweptRegistry(routes, r, closed).Coherent()
  {
    var r' := SweptRegistry(routes, r, closed);
    forall a | a in r.conns ensures a in r'.conns <==> r.conns[a] !in closed {
      SweepKeepsLiveness(routes, r, closed, a);
      var ip :| ip in routes && a in routes[ip];
    }
    if r.Coherent() {
      DeleteAllKeepsCoherence(r, DeadRouted(routes, r, closed));
    }
  }
}
