/**
 * The outbound connector `Proxy::connect` and its deadline wrapper
 * `Proxy::connect_with_timeout`. The target `host[:port]` is split at its
 * first `:`, the name is resolved, the addresses are split by family
 * (each family keeping resolver order), and connects are attempted in a
 * fixed priority: IPv6 targets from the configured IPv6 source address,
 * then IPv4 targets from the configured IPv4 source address, then IPv4
 * targets from an unbound socket. A refused connect moves on to the next
 * candidate; failing to create or bind a socket aborts with IO.
 *
 * The resolver, the sockets and the clock are the `Network` oracle.
 */
module Connector {

  import opened Base
  import opened Config

  /** A resolved socket address. */
  datatype SocketAddr = V4(ip4: Ipv4Addr, port: nat) | V6(ip6: Ipv6Addr, port: nat)

  /** The local side of a socket: unbound, or bound to a configured source
      address with port 0. */
  datatype Source = Unbound | BoundV4(src4: Ipv4Addr) | BoundV6(src6: Ipv6Addr)

  /** One connect attempt: a fresh socket from `source` to `target`. */
  datatype Attempt = Attempt(source: Source, target: SocketAddr)

  /** How one attempt ends: the socket could not be created or bound, the
      connect failed, or the connection is established. */
  datatype Dial = SocketFailed | Refused | Connected

  /** `resolve` is `lookup_host` (None for a lookup error); `dial(k, a)` is
      how the k-th attempt of a connect, counting from 0, ends; `expired`
      says whether the connect deadline passes before the connect is done. */
  datatype Network = Network(
    resolve: string -> Option<seq<SocketAddr>>,
    dial: (nat, Attempt) -> Dial,
    expired: bool)

  // ---------------------------------------------------------------------
  // Target name

  /** `host.splitn(2, ":")` with the default port for a missing second piece.
      The first piece always exists, so `IncorrectHost` cannot arise here. */
  function HostPort(host: string, defaultPort: string): (r: (string, string))
    ensures ':' !in r.0
    ensures ':' in host ==> host == r.0 + ":" + r.1
    ensures ':' !in host ==> r == (host, defaultPort)
  {
    SplitFirst(host, ':', defaultPort)
  }

  /** The name handed to the resolver: `format!("{host}:{port}")`. */
  function LookupName(host: string, defaultPort: string): string
  {
    var (name, port) := HostPort(host, defaultPort);
    name + ":" + port
  }

  /** A target that names its port is resolved as given; otherwise the
      default port is appended. */
  lemma LookupNameOfTarget(host: string, defaultPort: string)
    ensures ':' in host ==> LookupName(host, defaultPort) == host
    ensures ':' !in host ==> LookupName(host, defaultPort) == host + ":" + defaultPort
  {
  }

  // ---------------------------------------------------------------------
  // Candidates

  /** The IPv4 addresses of `addrs`, in resolver order. */
  function Ipv4s(addrs: seq<SocketAddr>): (r: seq<SocketAddr>)
    ensures forall i | 0 <= i < |r| :: r[i].V4? && r[i] in addrs
  {
    if addrs == [] then []
    else (if addrs[0].V4? then [addrs[0]] else []) + Ipv4s(addrs[1..])
  }

  /** The IPv6 addresses of `addrs`, in resolver order. */
  function Ipv6s(addrs: seq<SocketAddr>): (r: seq<SocketAddr>)
    ensures forall i | 0 <= i < |r| :: r[i].V6? && r[i] in addrs
  {
    if addrs == [] then []
    else (if addrs[0].V6? then [addrs[0]] else []) + Ipv6s(addrs[1..])
  }

  /** Splitting by family loses nothing and invents nothing: the two lists
      together are a permutation of the resolver's answer. */
  lemma {:induction false} PartitionIsPermutation(addrs: seq<SocketAddr>)
    ensures multiset(Ipv4s(addrs)) + multiset(Ipv6s(addrs)) == multiset(addrs)
  {
    if addrs != [] {
      PartitionIsPermutation(addrs[1..]);
      assert addrs == [addrs[0]] + addrs[1..];
    }
  }

  /** Splitting keeps resolver order: splitting a concatenation splits each part. */
  lemma {:induction false} PartitionKeepsOrder(a: seq<SocketAddr>, b: seq<SocketAddr>)
    ensures Ipv4s(a + b) == Ipv4s(a) + Ipv4s(b)
    ensures Ipv6s(a + b) == Ipv6s(a) + Ipv6s(b)
  {
    if a != [] {
      assert (a + b)[1..] == a[1..] + b;
      PartitionKeepsOrder(a[1..], b);
    } else {
      assert a + b == b;
    }
  }

  /** The two `for addr in lookup_host(..)` pushes of `connect`. */
  method Partition(addrs: seq<SocketAddr>) returns (v4: seq<SocketAddr>, v6: seq<SocketAddr>)
    ensures v4 == Ipv4s(addrs) && v6 == Ipv6s(addrs)
  {
    v4, v6 := [], [];
    var i := 0;
    while i < |addrs|
      invariant i <= |addrs|
      invariant v4 == Ipv4s(addrs[..i]) && v6 == Ipv6s(addrs[..i])
    {
      PartitionKeepsOrder(addrs[..i], [addrs[i]]);
      assert addrs[..i + 1] == addrs[..i] + [addrs[i]];
      if addrs[i].V4? {
        v4 := v4 + [addrs[i]];
      } else {
        v6 := v6 + [addrs[i]];
      }
      i := i + 1;
    }
    assert addrs[..i] == addrs;
  }

  /** One attempt from `source` to each target, in order. */
  function Attempts(source: Source, targets: seq<SocketAddr>): (r: seq<Attempt>)
    ensures |r| == |targets|
    ensures forall i | 0 <= i < |r| :: r[i] == Attempt(source, targets[i])
  {
    seq(|targets|, i requires 0 <= i < |targets| => Attempt(source, targets[i]))
  }

  /** The attempts from the IPv6 source, when one is configured. */
  function Stage6(p: Proxy, addrs: seq<SocketAddr>): seq<Attempt>
  {
    if p.bindIpv6.Some? then Attempts(BoundV6(p.bindIpv6.value), Ipv6s(addrs)) else []
  }

  /** The attempts from the IPv4 source, when one is configured. */
  function Stage4(p: Proxy, addrs: seq<SocketAddr>): seq<Attempt>
  {
    if p.bindIpv4.Some? then Attempts(BoundV4(p.bindIpv4.value), Ipv4s(addrs)) else []
  }

  /** The attempts `connect` makes, in order, for a resolver answer: bound
      IPv6 (when an IPv6 source is set), bound IPv4 (when an IPv4 source is
      set), then unbound IPv4. */
  function Plan(p: Proxy, addrs: seq<SocketAddr>): seq<Attempt>
  {
    Stage6(p, addrs) + (Stage4(p, addrs) + Attempts(Unbound, Ipv4s(addrs)))
  }

  /** Every planned attempt pairs a source with a target of its own family,
      an IPv6 target is only ever tried from the configured IPv6 source
      (never unbound), and each target is a resolved address. */
  lemma PlanFamilies(p: Proxy, addrs: seq<SocketAddr>)
    ensures forall a | a in Plan(p, addrs) :: a.target in addrs
    ensures forall a | a in Plan(p, addrs) :: a.target.V6? <==> a.source.BoundV6?
    ensures forall a | a in Plan(p, addrs) :: a.source.BoundV6? ==> p.bindIpv6 == Some(a.source.src6)
    ensures forall a | a in Plan(p, addrs) :: a.source.BoundV4? ==> p.bindIpv4 == Some(a.source.src4)
  {
    var six := Stage6(p, addrs);
    var four := Stage4(p, addrs);
    var plain := Attempts(Unbound, Ipv4s(addrs));
    forall a | a in Plan(p, addrs)
      ensures a.target in addrs
      ensures a.target.V6? <==> a.source.BoundV6?
      ensures a.source.BoundV6? ==> p.bindIpv6 == Some(a.source.src6)
      ensures a.source.BoundV4? ==> p.bindIpv4 == Some(a.source.src4)
    {
      assert a in six || a in four || a in plain;
    }
  }

  /** How many attempts are planned, by configuration. */
  lemma PlanLength(p: Proxy, addrs: seq<SocketAddr>)
    ensures |Plan(p, addrs)| ==
      (if p.bindIpv6.Some? then |Ipv6s(addrs)| else 0)
      + (if p.bindIpv4.Some? then |Ipv4s(addrs)| else 0)
      + |Ipv4s(addrs)|
  {
  }

  /** With an IPv4 source set, every IPv4 target is tried bound before it is
      tried unbound. */
  lemma BoundBeforeUnbound(p: Proxy, addrs: seq<SocketAddr>, i: nat, j: nat)
    requires p.bindIpv4.Some?
    requires i < |Plan(p, addrs)| && j < |Plan(p, addrs)|
    requires Plan(p, addrs)[i].source.BoundV4? && Plan(p, addrs)[j].source.Unbound?
    ensures i < j
  {
    var six := Stage6(p, addrs);
    var four := Stage4(p, addrs);
    var plan := Plan(p, addrs);
    var plain := Attempts(Unbound, Ipv4s(addrs));
    assert plan == six + (four + plain);
    forall m | 0 <= m < |plan|
      ensures m < |six| + |four| ==> !plan[m].source.Unbound?
      ensures m >= |six| + |four| ==> plan[m].source.Unbound?
      ensures m < |six| ==> plan[m].source.BoundV6?
    {
      if m < |six| {
        assert plan[m] == six[m];
      } else if m < |six| + |four| {
        assert plan[m] == four[m - |six|];
      } else {
        assert plan[m] == plain[m - |six| - |four|];
      }
    }
  }

  // ---------------------------------------------------------------------
  // Running the plan

  /** The result of trying `plan` in order, its first attempt being attempt
      number `k`: the first established connection; IO as soon as a socket
      cannot be created or bound; DistConnect when every connect fails. */
  function Outcome(dial: (nat, Attempt) -> Dial, plan: seq<Attempt>, k: nat): (r: Result<Attempt, Error>)
    ensures r.Err? ==> r.error == IO || r.error == DistConnect
    decreases |plan|
  {
    if plan == [] then Err(DistConnect)
    else match dial(k, plan[0])
      case SocketFailed => Err(IO)
      case Refused => Outcome(dial, plan[1..], k + 1)
      case Connected => Ok(plan[0])
  }

  /** An established connection is one of the planned attempts. */
  lemma {:induction false} OutcomeInPlan(dial: (nat, Attempt) -> Dial, plan: seq<Attempt>, k: nat)
    ensures Outcome(dial, plan, k).Ok? ==> Outcome(dial, plan, k).value in plan
    decreases |plan|
  {
    if plan != [] && dial(k, plan[0]) == Refused {
      OutcomeInPlan(dial, plan[1..], k + 1);
      if Outcome(dial, plan, k).Ok? {
        assert Outcome(dial, plan, k).value in plan[1..];
      }
    }
  }

  /** The attempts before position `i` all had their connect refused. */
  ghost predicate AllRefused(dial: (nat, Attempt) -> Dial, plan: seq<Attempt>, k: nat, i: nat)
    requires i <= |plan|
  {
    forall j | 0 <= j < i :: dial(k + j, plan[j]) == Refused
  }

  /** `Outcome` is decided by the first attempt that is not refused: its
      connection when it connects, IO when its socket fails. */
  lemma {:induction false} OutcomeDecidedAt(dial: (nat, Attempt) -> Dial, plan: seq<Attempt>, k: nat, i: nat)
    requires i < |plan| && AllRefused(dial, plan, k, i) && dial(k + i, plan[i]) != Refused
    ensures Outcome(dial, plan, k) == if dial(k + i, plan[i]) == Connected then Ok(plan[i]) else Err(IO)
    decreases i
  {
    if i > 0 {
      assert dial(k + 0, plan[0]) == Refused;
      assert AllRefused(dial, plan[1..], k + 1, i - 1) by {
        forall j | 0 <= j < i - 1 ensures dial(k + 1 + j, plan[1..][j]) == Refused {
          assert dial(k + (j + 1), plan[j + 1]) == Refused;
        }
      }
      assert plan[1..][i - 1] == plan[i] && k + 1 + (i - 1) == k + i;
      OutcomeDecidedAt(dial, plan[1..], k + 1, i - 1);
    }
  }

  /** DistConnect exactly when every connect of the plan is refused. */
  lemma {:induction false} OutcomeDistConnect(dial: (nat, Attempt) -> Dial, plan: seq<Attempt>, k: nat)
    ensures Outcome(dial, plan, k) == Err(DistConnect) <==> AllRefused(dial, plan, k, |plan|)
    decreases |plan|
  {
    if plan != [] {
      if dial(k, plan[0]) == Refused {
        OutcomeDistConnect(dial, plan[1..], k + 1);
        if AllRefused(dial, plan[1..], k + 1, |plan| - 1) {
          forall j | 0 <= j < |plan| ensures dial(k + j, plan[j]) == Refused {
            if j > 0 {
              assert dial(k + 1 + (j - 1), plan[1..][j - 1]) == Refused;
            }
          }
        }
        if AllRefused(dial, plan, k, |plan|) {
          forall j | 0 <= j < |plan| - 1 ensures dial(k + 1 + j, plan[1..][j]) == Refused {
            assert dial(k + (j + 1), plan[j + 1]) == Refused;
          }
        }
      } else {
        assert dial(k + 0, plan[0]) != Refused;
      }
    }
  }

  /** Running two plans one after the other: the second only runs when every
      connect of the first was refused, with the attempt count carried on. */
  lemma {:induction false} OutcomeAppend(dial: (nat, Attempt) -> Dial, a: seq<Attempt>, b: seq<Attempt>, k: nat)
    ensures Outcome(dial, a, k) != Err(DistConnect) ==> Outcome(dial, a + b, k) == Outcome(dial, a, k)
    ensures Outcome(dial, a, k) == Err(DistConnect) ==> Outcome(dial, a + b, k) == Outcome(dial, b, k + |a|)
    decreases |a|
  {
    if a == [] {
      assert a + b == b;
    } else {
      assert (a + b)[0] == a[0] && (a + b)[1..] == a[1..] + b;
      OutcomeAppend(dial, a[1..], b, k + 1);
    }
  }

  /** What `connect` returns: IO when the lookup fails, else the outcome of
      the plan for the resolver's answer. */
  function ConnectSpec(p: Proxy, host: string, defaultPort: string, net: Network): (r: Result<Attempt, Error>)
    ensures r.Err? ==> r.error == IO || r.error == DistConnect
  {
    match net.resolve(LookupName(host, defaultPort))
    case None => Err(IO)
    case Some(addrs) => Outcome(net.dial, Plan(p, addrs), 0)
  }

  /** `connect_with_timeout`: Timeout when a deadline is configured and it
      passes first; with no deadline configured the clock is never consulted. */
  function ConnectWithTimeout(p: Proxy, host: string, defaultPort: string, net: Network): (r: Result<Attempt, Error>)
    ensures p.connectTimeout.None? ==> r == ConnectSpec(p, host, defaultPort, net)
    ensures r == Err(Timeout) <==> p.connectTimeout.Some? && net.expired
    ensures r != Err(Timeout) ==> r == ConnectSpec(p, host, defaultPort, net)
  {
    if p.connectTimeout.Some? && net.expired then Err(Timeout)
    else ConnectSpec(p, host, defaultPort, net)
  }

  /** The connector's errors are IO, DistConnect and Timeout only; in
      particular `IncorrectHost` is never returned. */
  lemma ConnectErrors(p: Proxy, host: string, defaultPort: string, net: Network)
    ensures var r := ConnectWithTimeout(p, host, defaultPort, net);
      r.Err? ==> r.error in {IO, DistConnect, Timeout}
    ensures ConnectWithTimeout(p, host, defaultPort, net) != Err(IncorrectHost)
  {
  }

  /** An established connection always goes to a resolved address of the
      requested name, from a source of its own family. */
  lemma ConnectedToResolved(p: Proxy, host: string, defaultPort: string, net: Network)
    requires ConnectWithTimeout(p, host, defaultPort, net).Ok?
    ensures var a := ConnectWithTimeout(p, host, defaultPort, net).value;
      && net.resolve(LookupName(host, defaultPort)).Some?
      && a.target in net.resolve(LookupName(host, defaultPort)).value
      && (a.target.V6? <==> a.source.BoundV6?)
  {
    var addrs := net.resolve(LookupName(host, defaultPort)).value;
    PlanFamilies(p, addrs);
    OutcomeInPlan(net.dial, Plan(p, addrs), 0);
  }

  /** Without an IPv6 source address, a name that resolves only to IPv6
      addresses cannot be reached: no attempt is made and DistConnect is returned. */
  lemma Ipv6NeedsSource(p: Proxy, addrs: seq<SocketAddr>, dial: (nat, Attempt) -> Dial)
    requires p.bindIpv6.None? && Ipv4s(addrs) == []
    ensures Plan(p, addrs) == []
    ensures Outcome(dial, Plan(p, addrs), 0) == Err(DistConnect)
  {
  }

  /** Setting an IPv6 source puts the bound IPv6 attempts in front of the
      plan the configuration had before, which is otherwise unchanged. */
  lemma SetBindIpv6Plan(p: Proxy, x: Ipv6Addr, addrs: seq<SocketAddr>)
    requires p.bindIpv6.None?
    ensures Plan(p.SetBindIpv6(x), addrs) == Attempts(BoundV6(x), Ipv6s(addrs)) + Plan(p, addrs)
  {
  }

  // ---------------------------------------------------------------------
  // connect

  /** One of the three attempt loops of `connect`: a socket from `source`
      to each target in turn. None when every connect was refused (the
      caller goes on); otherwise the result to return at once. */
  method TryEach(source: Source, targets: seq<SocketAddr>, dial: (nat, Attempt) -> Dial, k: nat)
    returns (r: Option<Result<Attempt, Error>>)
    ensures var o := Outcome(dial, Attempts(source, targets), k);
      r == if o == Err(DistConnect) then None else Some(o)
  {
    ghost var plan := Attempts(source, targets);
    var i := 0;
    while i < |targets|
      invariant i <= |targets|
      invariant Outcome(dial, plan, k) == Outcome(dial, plan[i..], k + i)
    {
      var attempt := Attempt(source, targets[i]);
      assert plan[i..][0] == attempt && plan[i..][1..] == plan[i + 1..];
      match dial(k + i, attempt) {
        case SocketFailed => return Some(Err(IO));
        case Connected => return Some(Ok(attempt));
        case Refused =>
      }
      i := i + 1;
    }
    return None;
  }

  /** The first of two stages that is decisive. */
  function Then(first: Result<Attempt, Error>, next: Result<Attempt, Error>): Result<Attempt, Error>
  {
    if first == Err(DistConnect) then next else first
  }

  /** The plan run stage by stage, each stage continuing the attempt count. */
  function Staged(p: Proxy, addrs: seq<SocketAddr>, dial: (nat, Attempt) -> Dial): Result<Attempt, Error>
  {
    var six := Stage6(p, addrs);
    var four := Stage4(p, addrs);
    Then(Outcome(dial, six, 0),
      Then(Outcome(dial, four, |six|),
        Outcome(dial, Attempts(Unbound, Ipv4s(addrs)), |six| + |four|)))
  }

  /** Running the plan as a whole is running it stage by stage. */
  lemma PlanStages(p: Proxy, addrs: seq<SocketAddr>, dial: (nat, Attempt) -> Dial)
    ensures Outcome(dial, Plan(p, addrs), 0) == Staged(p, addrs, dial)
  {
    var six := Stage6(p, addrs);
    var four := Stage4(p, addrs);
    var plain := Attempts(Unbound, Ipv4s(addrs));
    assert Plan(p, addrs) == six + (four + plain);
    OutcomeAppend(dial, six, four + plain, 0);
    OutcomeAppend(dial, four, plain, |six|);
  }

  /** The three attempt loops of `connect` over a resolver answer. */
  method TryPlan(p: Proxy, addrs: seq<SocketAddr>, dial: (nat, Attempt) -> Dial) returns (r: Result<Attempt, Error>)
    ensures r == Staged(p, addrs, dial)
  {
    var v4, v6 := Partition(addrs);
    ghost var six := Stage6(p, addrs);
    ghost var four := Stage4(p, addrs);
    var k := 0;
    if p.bindIpv6.Some? {
      var t := TryEach(BoundV6(p.bindIpv6.value), v6, dial, k);
      if t.Some? {
        return t.value;
      }
      k := k + |v6|;
    }
    assert k == |six| && Outcome(dial, six, 0) == Err(DistConnect);
    if p.bindIpv4.Some? {
      var t := TryEach(BoundV4(p.bindIpv4.value), v4, dial, k);
      if t.Some? {
        return t.value;
      }
      k := k + |v4|;
    }
    assert k == |six| + |four| && Outcome(dial, four, |six|) == Err(DistConnect);
    var t := TryEach(Unbound, v4, dial, k);
    if t.Some? {
      return t.value;
    }
    return Err(DistConnect);
  }

  /** `Proxy::connect`. */
  method Connect(p: Proxy, host: string, defaultPort: string, net: Network) returns (r: Result<Attempt, Error>)
    ensures r == ConnectSpec(p, host, defaultPort, net)
  {
    var (name, port) := HostPort(host, defaultPort);
    assert name + ":" + port == LookupName(host, defaultPort);
    var resolved := net.resolve(name + ":" + port);
    if resolved.None? {
      return Err(IO);
    }
    r := TryPlan(p, resolved.value, net.dial);
    PlanStages(p, resolved.value, net.dial);
  }
}
