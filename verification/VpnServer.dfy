/**
 The VPN server's address pool, peers and host routes. `Server` is the state as a value; the
 classes are proved to compute it, and the run lemmas say what stays true of it.
 */
module VpnServer {
  import opened ByteStrings
  import opened Text
  import opened Ipv4

  datatype Pool = Pool(free: set<nat>, held: map<int, nat>)

  /** `peers` holds the address text given to each peer; `routes` the host routes asked of the kernel. */
  datatype Server = Server(pool: Pool, peers: map<int, string>, routes: set<string>, tunUp: bool)

  function Range(lo: nat, hi: nat): (r: set<nat>)
    ensures forall a: nat :: a in r <==> lo <= a <= hi
    decreases hi + 1 - lo
  {
    if lo > hi then {} else {lo} + Range(lo + 1, hi)
  }

  predicate Least(a: nat, s: set<nat>) {
    a in s && forall b :: b in s ==> a <= b
  }

  lemma {:induction false} HasLeast(s: set<nat>) returns (a: nat)
    requires s != {}
    ensures Least(a, s)
  {
    a := Member(s);
    var rest := s - {a};
    if rest != {} {
      var b := HasLeast(rest);
      assert s == rest + {a};
      a := if a < b then a else b;
    } else {
      assert s == {a};
    }
  }

  ghost function LeastOf(s: set<nat>): (a: nat)
    requires s != {}
    ensures Least(a, s)
  {
    assert exists a :: Least(a, s) by {
      var a := HasLeast(s);
    }
    var a :| Least(a, s);
    a
  }

  ghost predicate InRange32(s: set<nat>) {
    forall a :: a in s ==> a < TWO_TO_THE_32
  }

  /** The constructor's counter after a number of turns: a `uint32_t`. */
  function Counter(lo: nat, turns: nat): nat {
    (lo + turns) % TWO_TO_THE_32
  }

  /** The loop over the range comes to an end exactly when its last address is not the last of all. */
  lemma PoolLoopEnds(lo: nat, hi: nat)
    requires lo < TWO_TO_THE_32 && hi < TWO_TO_THE_32
    ensures (exists turns: nat :: Counter(lo, turns) > hi) <==> hi < TWO_TO_THE_32 - 1
  {
    if hi < TWO_TO_THE_32 - 1 {
      assert Counter(lo, TWO_TO_THE_32 - 1 - lo) == TWO_TO_THE_32 - 1;
    }
  }

  /** The text that makes it run for ever. */
  lemma LastAddressNeverEnds(turns: nat, lo: nat)
    ensures ToU32("255.255.255.255") == TWO_TO_THE_32 - 1
    ensures Counter(lo, turns) <= ToU32("255.255.255.255")
  {
    var last := TWO_TO_THE_32 - 1;
    assert Octets(last) == [255, 255, 255, 255] && Decimal(255) == "255";
    assert ToStr(last) == "255.255.255.255" by {
      assert ["255", "255", "255", "255"][1..] == ["255", "255", "255"];
      assert ["255", "255", "255"][1..] == ["255", "255"] && ["255", "255"][1..] == ["255"];
    }
    ToU32OfToStr(last);
  }

  class IpPool {
    var free: set<nat>
    var held: map<int, nat>

    function State(): Pool
      reads this
    {
      Pool(free, held)
    }

    ghost predicate Fits()
      reads this
    {
      InRange32(free) && forall ch :: ch in held ==> held[ch] < TWO_TO_THE_32
    }

    /** The counter is a `uint32_t`: it can pass `hi` only if `hi` is not the last address. */
    constructor (startIp: string, endIp: string)
      requires ToU32(endIp) < TWO_TO_THE_32 - 1
      ensures Fits() && State() == Pool(Range(ToU32(startIp), ToU32(endIp)), map[])
    {
      var lo := ToU32(startIp);
      var hi := ToU32(endIp);
      var addresses: set<nat> := {};
      var a := lo;
      while a <= hi
        invariant lo <= a < TWO_TO_THE_32
        invariant forall b: nat :: b in addresses <==> lo <= b < a && b <= hi
        decreases hi + 1 - a
      {
        addresses := addresses + {a};
        a := (a + 1) % TWO_TO_THE_32;
      }
      free, held := addresses, map[];
      assert addresses == Range(lo, hi);
    }

    method Assign(channel: int) returns (ip: string)
      requires Fits()
      modifies this
      ensures Fits()
      ensures old(free) == {} ==> ip == "" && State() == old(State())
      ensures old(free) != {} ==>
                var a := LeastOf(old(free));
                ip == ToStr(a) && State() == Pool(old(free) - {a}, old(held)[channel := a])
    {
      if free == {} {
        return "";
      }
      ghost var least := LeastOf(free);
      assert Least(least, free);
      var addr: nat :| Least(addr, free);
      assert Least(addr, free) && addr == least;
      free := free - {addr};
      held := held[channel := addr];
      ip := ToStr(addr);
    }

    method Release(channel: int)
      modifies this
      ensures old(Fits()) ==> Fits()
      ensures State() == Released(old(State()), channel)
    {
      if channel in held {
        free := free + {held[channel]};
        held := held - {channel};
      }
    }

    method Get(channel: int) returns (ip: string)
      requires Fits()
      ensures ip == if channel in held then ToStr(held[channel]) else ""
    {
      if channel in held {
        return ToStr(held[channel]);
      }
      return "";
    }

    /** The first match in some order; -1 when there is none. */
    method FindChannel(ip: string) returns (channel: int)
      ensures (channel in held && held[channel] == ToU32(ip)) ||
              (channel == -1 && forall ch :: ch in held ==> held[ch] != ToU32(ip))
    {
      var addr := ToU32(ip);
      var left := held.Keys;
      while left != {}
        invariant left <= held.Keys
        invariant forall ch :: ch in held && ch !in left ==> held[ch] != addr
        decreases |left|
      {
        ghost var some := Member(left);
        var ch :| ch in left;
        if held[ch] == addr {
          return ch;
        }
        left := left - {ch};
      }
      return -1;
    }
  }

  function Released(p: Pool, channel: int): Pool {
    if channel in p.held then Pool(p.free + {p.held[channel]}, p.held - {channel}) else p
  }

  datatype Event = Connect(channel: int) | Close(channel: int)

  /** The kernel gives a new connection a descriptor that no live one holds. */
  predicate Enabled(s: Server, e: Event) {
    e.Connect? ==> e.channel >= 0 && e.channel !in s.peers
  }

  ghost predicate Fits(s: Server) {
    InRange32(s.pool.free) && forall ch :: ch in s.pool.held ==> s.pool.held[ch] < TWO_TO_THE_32
  }

  /** `emplace` keeps an entry that is already there. */
  function Emplaced(peers: map<int, string>, channel: int, ip: string): map<int, string> {
    if channel in peers then peers else peers[channel := ip]
  }

  ghost function Step(s: Server, e: Event): Server
    requires Fits(s)
  {
    match e
    case Connect(ch) =>
      if s.pool.free == {} then
        s
      else
        var a := LeastOf(s.pool.free);
        Server(Pool(s.pool.free - {a}, s.pool.held[ch := a]), Emplaced(s.peers, ch, ToStr(a)),
               if s.tunUp then s.routes + {ToStr(a)} else s.routes, s.tunUp)
    case Close(ch) =>
      Server(Released(s.pool, ch), s.peers - {ch},
             if s.tunUp && ch in s.pool.held then s.routes - {ToStr(s.pool.held[ch])} else s.routes, s.tunUp)
  }

  /** Pool, peers and routes agree, and no address is lost or given out twice. */
  ghost predicate Agrees(s: Server, lo: nat, hi: nat) {
    && s.pool.free + s.pool.held.Values == Range(lo, hi)
    && s.pool.free !! s.pool.held.Values
    && Injective(s.pool.held) && Injective(s.peers)
    && s.peers.Keys == s.pool.held.Keys
    && (forall ch :: ch in s.peers ==>
          ch >= 0 && s.pool.held[ch] < TWO_TO_THE_32 && s.peers[ch] == ToStr(s.pool.held[ch]))
    && s.routes == (if s.tunUp then s.peers.Values else {})
  }

  /** What routing needs of that, whatever the range. */
  ghost predicate Routable(s: Server) {
    Injective(s.pool.held) && s.peers.Keys == s.pool.held.Keys && forall ch :: ch in s.peers ==> ch >= 0
  }

  lemma AgreesFits(s: Server, lo: nat, hi: nat)
    requires hi < TWO_TO_THE_32 && Agrees(s, lo, hi)
    ensures Fits(s) && Routable(s)
  {
    forall a | a in s.pool.free
      ensures a < TWO_TO_THE_32
    {
      assert a in Range(lo, hi);
    }
  }

  /** No peer was given the text of an address that nobody holds. */
  lemma TextIsNew(s: Server, a: nat, lo: nat, hi: nat)
    requires hi < TWO_TO_THE_32 && Agrees(s, lo, hi) && a < TWO_TO_THE_32 && a !in s.pool.held.Values
    ensures ToStr(a) !in s.peers.Values
  {
    if ToStr(a) in s.peers.Values {
      var c := KeyOf(s.peers, ToStr(a));
      ToStrInjective(s.pool.held[c], a);
    }
  }

  lemma ConnectKeepsAgreement(s: Server, ch: int, lo: nat, hi: nat)
    requires hi < TWO_TO_THE_32 && Fits(s) && Agrees(s, lo, hi) && Enabled(s, Connect(ch))
    ensures Agrees(Step(s, Connect(ch)), lo, hi)
  {
    if s.pool.free != {} {
      var a := LeastOf(s.pool.free);
      var s' := Step(s, Connect(ch));
      TextIsNew(s, a, lo, hi);
      hide ToStr, Injective;
      ValuesAdd(s.pool.held, ch, a);
      ValuesAdd(s.peers, ch, ToStr(a));
      InjectiveAdd(s.pool.held, ch, a);
      InjectiveAdd(s.peers, ch, ToStr(a));
    }
  }

  lemma CloseKeepsAgreement(s: Server, ch: int, lo: nat, hi: nat)
    requires hi < TWO_TO_THE_32 && Fits(s) && Agrees(s, lo, hi)
    ensures Agrees(Step(s, Close(ch)), lo, hi)
  {
    var s' := Step(s, Close(ch));
    if ch in s.pool.held {
      var a := s.pool.held[ch];
      hide ToStr, Injective;
      InjectiveRemove(s.pool.held, ch);
      InjectiveRemove(s.peers, ch);
    } else {
      assert s.peers - {ch} == s.peers;
    }
  }

  ghost function Run(start: Server, trace: seq<Event>): Option<Server> {
    if trace == [] then
      Some(start)
    else
      match Run(start, trace[..|trace| - 1])
      case None => None
      case Some(s) => if Fits(s) && Enabled(s, trace[|trace| - 1]) then Some(Step(s, trace[|trace| - 1])) else None
  }

  /** Over every run of connects and closes on fresh channels: free and assigned addresses partition the range, no
      address has two holders, and the pool's channels, the peers and the routes are the same set. */
  lemma {:induction false} RunKeepsAgreement(lo: nat, hi: nat, tunUp: bool, trace: seq<Event>)
    requires hi < TWO_TO_THE_32
    requires Run(Server(Pool(Range(lo, hi), map[]), map[], {}, tunUp), trace).Some?
    ensures Agrees(Run(Server(Pool(Range(lo, hi), map[]), map[], {}, tunUp), trace).value, lo, hi)
  {
    var start := Server(Pool(Range(lo, hi), map[]), map[], {}, tunUp);
    if trace == [] {
      assert start.pool.held.Values == {} && start.peers.Values == {};
    } else {
      RunKeepsAgreement(lo, hi, tunUp, trace[..|trace| - 1]);
      var s := Run(start, trace[..|trace| - 1]).value;
      match trace[|trace| - 1] {
        case Connect(ch) => ConnectKeepsAgreement(s, ch, lo, hi);
        case Close(ch) => CloseKeepsAgreement(s, ch, lo, hi);
      }
    }
  }

  /** Conservation: a connection is refused exactly when as many channels are live as there are addresses. */
  lemma RefusedWhenFull(s: Server, lo: nat, hi: nat)
    requires Agrees(s, lo, hi)
    ensures |s.pool.free| + |s.peers| == |Range(lo, hi)|
    ensures s.pool.free == {} <==> |s.peers| == |Range(lo, hi)|
  {
    InjectiveSize(s.pool.held);
    assert |s.peers| == |s.peers.Keys| == |s.pool.held.Keys| == |s.pool.held|;
    assert |s.pool.free + s.pool.held.Values| == |s.pool.free| + |s.pool.held.Values|;
  }

  /** A new peer takes the least address nobody holds; everyone else keeps theirs. */
  lemma ConnectTakesLeast(s: Server, ch: int, lo: nat, hi: nat)
    requires Fits(s) && Agrees(s, lo, hi) && Enabled(s, Connect(ch)) && s.pool.free != {}
    ensures var s' := Step(s, Connect(ch));
            var a := s'.pool.held[ch];
            lo <= a <= hi && a !in s.pool.held.Values &&
            (forall b :: lo <= b < a ==> b in s.pool.held.Values) &&
            (forall c :: c in s.peers ==> c in s'.peers && s'.peers[c] == s.peers[c])
  {
    var a := LeastOf(s.pool.free);
    assert a in Range(lo, hi);
    forall b: nat | lo <= b < a
      ensures b in s.pool.held.Values
    {
      assert b in Range(lo, hi);
    }
  }

  /** Closing gives the address back, so that connecting on a fresh channel and closing again changes nothing. */
  lemma CloseUndoesConnect(s: Server, ch: int, lo: nat, hi: nat)
    requires hi < TWO_TO_THE_32 && Fits(s) && Agrees(s, lo, hi) && Enabled(s, Connect(ch))
    ensures Fits(Step(s, Connect(ch))) && Step(Step(s, Connect(ch)), Close(ch)) == s
  {
    ConnectKeepsAgreement(s, ch, lo, hi);
    var s' := Step(s, Connect(ch));
    AgreesFits(s', lo, hi);
    var s'' := Step(s', Close(ch));
    if s.pool.free == {} {
      assert s.peers - {ch} == s.peers;
    } else {
      var a := LeastOf(s.pool.free);
      TextIsNew(s, a, lo, hi);
      PutAndRemove(s.pool.held, ch, a);
      PutAndRemove(s.peers, ch, ToStr(a));
      hide ToStr, Injective;
      assert s''.pool.free == s.pool.free;
      assert s''.routes == s.routes;
    }
  }

  class VpnServer {
    const pool: IpPool
    const tunUp: bool
    var peers: map<int, string>
    var routes: set<string>
    var forwarded: seq<(int, Bytes)>   // packets handed to `forward_data`, with the peer's channel

    ghost function State(): Server
      reads this, pool
    {
      Server(pool.State(), peers, routes, tunUp)
    }

    constructor (poolStart: string, poolEnd: string, tunUp: bool)
      requires ToU32(poolEnd) < TWO_TO_THE_32 - 1
      ensures fresh(pool) && forwarded == []
      ensures State() == Server(Pool(Range(ToU32(poolStart), ToU32(poolEnd)), map[]), map[], {}, tunUp)
    {
      this.pool := new IpPool(poolStart, poolEnd);
      this.tunUp := tunUp;
      peers, routes, forwarded := map[], {}, [];
    }

    method ManageClientRoute(ip: string, add: bool)
      modifies this`routes
      ensures routes == if !tunUp then old(routes) else if add then old(routes) + {ip} else old(routes) - {ip}
    {
      if !tunUp {
        return;
      }
      routes := if add then routes + {ip} else routes - {ip};
    }

    method HandleConnect(channel: int) returns (rc: int)
      requires Fits(State())
      modifies this, pool
      ensures State() == Step(old(State()), Connect(channel)) && forwarded == old(forwarded)
      ensures rc == if old(pool.free) == {} then -1 else 0
    {
      ghost var before := pool.free;
      var ip := pool.Assign(channel);
      if before != {} {
        ToStrNotEmpty(LeastOf(before));
      }
      if ip == "" {
        return -1;
      }
      if channel !in peers {
        peers := peers[channel := ip];
      }
      ManageClientRoute(ip, true);
      return 0;
    }

    method HandleClose(channel: int)
      requires Fits(State())
      modifies this, pool
      ensures State() == Step(old(State()), Close(channel)) && forwarded == old(forwarded)
    {
      var ip := pool.Get(channel);
      if channel in pool.held {
        ToStrNotEmpty(pool.held[channel]);
      }
      if ip != "" {
        ManageClientRoute(ip, false);
      }
      pool.Release(channel);
      peers := peers - {channel};
    }

    /** A packet from the TUN device. It reaches exactly the peer that holds its destination address, if any. */
    method HandleTunRead(data: Bytes)
      requires Routable(State())
      modifies this`forwarded
      ensures |data| < 20 ==> forwarded == old(forwarded)
      ensures |data| >= 20 ==>
                (forall ch :: ch in peers && pool.held[ch] == Un32(data[16..20]) ==>
                   forwarded == old(forwarded) + [(ch, data)]) &&
                ((forall ch :: ch in peers ==> pool.held[ch] != Un32(data[16..20])) ==> forwarded == old(forwarded))
    {
      if |data| < 20 {
        return;
      }
      var addr := Un32(data[16..20]);
      var dst := ToStr(addr);
      ToU32OfToStr(addr);
      var ch := pool.FindChannel(dst);
      if ch >= 0 {
        if ch in peers {
          forwarded := forwarded + [(ch, data)];
        }
      }
    }
  }
}
