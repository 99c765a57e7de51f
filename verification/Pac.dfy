/** The proxy auto-configuration script: a backward scan over the dots of a host name. */
module Pac {
  import opened Prelude

  datatype Verdict = Proxy | Direct

  /** The last dot at or before index `k`, or -1. */
  function ScanBack(host: string, k: int): (p: int)
    requires -1 <= k < |host|
    ensures -1 <= p <= k
    ensures p >= 0 ==> host[p] == '.'
    ensures forall i :: p < i <= k ==> host[i] != '.'
    decreases k + 1
  {
    if k == -1 then -1 else if host[k] == '.' then k else ScanBack(host, k - 1)
  }

  /** JavaScript's `host.lastIndexOf('.', from)`: a negative start is clamped to 0, not treated as "nowhere". */
  function LastIndexOf(host: string, from: int): int {
    var start := if from < 0 then 0 else from;
    ScanBack(host, if start < |host| then start else |host| - 1)
  }

  /** The dots whose suffix the script looks up: all but the last, and also a dot that the host starts with. */
  ghost predicate Scanned(host: string, p: int) {
    0 <= p < |host| && host[p] == '.' && (p < LastIndexOf(host, |host|) || p == 0)
  }

  ghost predicate SuffixListed(host: string, domains: set<string>) {
    exists p :: Scanned(host, p) && host[p + 1..] in domains
  }

  /** The script's loop comes to an end. */
  ghost predicate Halts(host: string, domains: set<string>) {
    host == "" || host[0] != '.' || SuffixListed(host, domains)
  }

  function Start(host: string): int {
    LastIndexOf(host, LastIndexOf(host, |host|) - 1)
  }

  /** The loop from `pos` on, cut off after `fuel` rounds. */
  function Loop(host: string, domains: set<string>, pos: int, fuel: nat): Option<Verdict>
    requires -1 <= pos < |host|
  {
    if fuel == 0 then None
    else if pos == -1 then Some(if host in domains then Proxy else Direct)
    else if host[pos + 1..] in domains then Some(Proxy)
    else Loop(host, domains, LastIndexOf(host, pos - 1), fuel - 1)
  }

  /** More rounds never change an answer once there is one. */
  lemma {:induction false} LoopMonotone(host: string, domains: set<string>, pos: int, fuel: nat, more: nat)
    requires -1 <= pos < |host| && fuel <= more && Loop(host, domains, pos, fuel).Some?
    ensures Loop(host, domains, pos, more) == Loop(host, domains, pos, fuel)
  {
    if pos >= 0 && host[pos + 1..] !in domains {
      LoopMonotone(host, domains, LastIndexOf(host, pos - 1), fuel - 1, more - 1);
    }
  }

  /** From a scanned dot, the next position is a scanned dot again, and none lies between. */
  lemma NextPosition(host: string, pos: int)
    requires Scanned(host, pos)
    ensures var next := LastIndexOf(host, pos - 1);
            && (next == -1 || Scanned(host, next))
            && (forall p :: next < p < pos ==> !Scanned(host, p))
            && (next < pos || (pos == 0 && next == 0))
  {
  }

  lemma FirstPosition(host: string)
    ensures var pos := Start(host);
            && -1 <= pos < |host| && (pos == -1 || Scanned(host, pos))
            && (forall p :: pos < p ==> !Scanned(host, p))
            && (host != "" && host[0] == '.' ==> pos >= 0)
  {
  }

  /** A host that starts with a dot and has no listed suffix keeps the script in its loop for ever. */
  lemma {:induction false} LoopsForever(host: string, domains: set<string>, pos: int, fuel: nat)
    requires !Halts(host, domains) && Scanned(host, pos)
    ensures Loop(host, domains, pos, fuel) == None
  {
    if fuel > 0 {
      NextPosition(host, pos);
      LoopsForever(host, domains, LastIndexOf(host, pos - 1), fuel - 1);
    }
  }

  /** What the loop knows at `pos`: it is a position the script can be at, and nothing after it is listed. */
  ghost predicate Reached(host: string, domains: set<string>, pos: int) {
    && -1 <= pos < |host| && (pos == -1 || Scanned(host, pos))
    && (forall p :: pos < p && Scanned(host, p) ==> host[p + 1..] !in domains)
    && (host != "" && host[0] == '.' ==> pos >= 0)
  }

  lemma StartReached(host: string, domains: set<string>)
    ensures Reached(host, domains, Start(host))
  {
    FirstPosition(host);
  }

  lemma RoundReaches(host: string, domains: set<string>, pos: int, fuel: nat)
    requires Reached(host, domains, pos) && Halts(host, domains) && pos >= 0 && host[pos + 1..] !in domains && fuel > 0
    ensures var next := LastIndexOf(host, pos - 1);
            && -1 <= next < pos && Reached(host, domains, next)
            && Loop(host, domains, pos, fuel) == Loop(host, domains, next, fuel - 1)
  {
    NextPosition(host, pos);
    hide LastIndexOf;
  }

  lemma Answer(host: string, domains: set<string>, pos: int, fuel: nat)
    requires Reached(host, domains, pos) && fuel > 0 && (pos == -1 || host[pos + 1..] in domains)
    ensures pos == -1 ==> !SuffixListed(host, domains)
    ensures pos >= 0 ==> SuffixListed(host, domains)
    ensures Loop(host, domains, pos, fuel) == Some(if pos >= 0 || host in domains then Proxy else Direct)
  {
    hide LastIndexOf;
  }

  /**
   * The loop with its real termination condition: it ends, and says "proxy" exactly when the host or the text
   * after some scanned dot is listed.
   */
  method FindProxyForURL(host: string, domains: set<string>) returns (r: Verdict)
    requires Halts(host, domains)
    ensures r == Proxy <==> host in domains || SuffixListed(host, domains)
    ensures Start(host) < |host| && Loop(host, domains, Start(host), |host| + 1) == Some(r)
  {
    StartReached(host, domains);
    var pos := LastIndexOf(host, |host|);
    pos := LastIndexOf(host, pos - 1);
    ghost var fuel: nat := |host| + 1;
    hide *;
    while true
      invariant -1 <= pos < |host| && Reached(host, domains, pos) && fuel > pos + 1
      invariant Loop(host, domains, Start(host), |host| + 1) == Loop(host, domains, pos, fuel)
      decreases pos + 1
    {
      if pos == -1 {
        Answer(host, domains, pos, fuel);
        return if host in domains then Proxy else Direct;
      }
      var suffix := host[pos + 1..];
      if suffix in domains {
        Answer(host, domains, pos, fuel);
        return Proxy;
      }
      RoundReaches(host, domains, pos, fuel);
      fuel := fuel - 1;
      pos := LastIndexOf(host, pos - 1);
    }
  }

  /** The script answers within some number of rounds if and only if it halts by the guard above. */
  lemma HaltsExactly(host: string, domains: set<string>)
    ensures Start(host) < |host|
    ensures Halts(host, domains) <==> exists fuel: nat :: Loop(host, domains, Start(host), fuel).Some?
  {
    StartReached(host, domains);
    if Halts(host, domains) {
      EndsFrom(host, domains, Start(host));
    } else {
      forall fuel: nat ensures Loop(host, domains, Start(host), fuel) == None {
        LoopsForever(host, domains, Start(host), fuel);
      }
    }
  }

  /** Such a host is ".a" with nothing listed: the script never answers, whatever number of rounds it is given. */
  lemma DottedHostLoops(fuel: nat)
    ensures !Halts(".a", {}) && Start(".a") == 0 && Loop(".a", {}, 0, fuel) == None
  {
    assert ScanBack(".a", 0) == 0 && ScanBack(".a", 1) == 0;
    assert Scanned(".a", 0);
    LoopsForever(".a", {}, 0, fuel);
  }

  lemma {:induction false} EndsFrom(host: string, domains: set<string>, pos: int)
    requires Reached(host, domains, pos) && Halts(host, domains)
    ensures Loop(host, domains, pos, pos + 2).Some?
    decreases pos + 1
  {
    if pos >= 0 && host[pos + 1..] !in domains {
      RoundReaches(host, domains, pos, pos + 2);
      var next := LastIndexOf(host, pos - 1);
      EndsFrom(host, domains, next);
      LoopMonotone(host, domains, next, next + 2, pos + 1);
    }
  }

  /** For a host that does not start with a dot: the listed text is the host or follows any dot but the last one. */
  lemma OrdinaryHost(host: string, domains: set<string>)
    requires host == "" || host[0] != '.'
    ensures Halts(host, domains)
    ensures SuffixListed(host, domains) <==>
            exists p, q :: 0 <= p < q < |host| && host[p] == '.' && host[q] == '.' && host[p + 1..] in domains
  {
    if p, q :| 0 <= p < q < |host| && host[p] == '.' && host[q] == '.' && host[p + 1..] in domains {
      assert Scanned(host, p);
    }
    if SuffixListed(host, domains) {
      var p :| Scanned(host, p) && host[p + 1..] in domains;
      var q := LastIndexOf(host, |host|);
      assert p < q && host[q] == '.';
    }
  }
}
