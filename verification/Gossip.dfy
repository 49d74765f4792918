// TTL gossip of one message id over a finite graph of honest peers that never forget an id.

module Gossip {

  type Peer = nat

  // The connections of every peer; one connection per neighbour.
  type Links = map<Peer, seq<Peer>>

  datatype Packet = Packet(src: Peer, dst: Peer, ttl: int)

  datatype Accept = Accept(peer: Peer, ttl: int, from: Peer)

  // sent lists every directed link the id was ever sent over; delivered counts the packets taken off
  // the wire, whatever became of them.
  datatype Net = Net(seen: set<Peer>, flying: seq<Packet>, sent: seq<(Peer, Peer)>, accepts: seq<Accept>, delivered: nat)

  // What a peer does with a packet. A packet whose id is new may be turned away before the id is
  // remembered (blocked, invite, proof of work, rate, owner), or after (welcome, denied open, auth).
  // An accepted one is relayed, unless relaying is off or it is a handshake, to the neighbours in ok:
  // those authorized and with an open session.
  datatype Fate = TurnedAway | Remembered | Accepted(mayRelay: bool, ok: set<Peer>)

  datatype Step = Deliver(i: nat, fate: Fate)

  predicate Distinct<T(==)>(s: seq<T>) {
    forall i, j | 0 <= i < j < |s| :: s[i] != s[j]
  }

  // Every connection leads to a peer of the graph.
  predicate WellFormed(g: Links) {
    forall u | u in g :: Distinct(g[u]) && forall v | v in g[u] :: v in g
  }

  // The neighbours a packet goes to: not the one it came from.
  function Targets(conns: seq<Peer>, ok: set<Peer>, except: set<Peer>): seq<Peer> {
    if conns == [] then []
    else if conns[0] in ok && conns[0] !in except then [conns[0]] + Targets(conns[1..], ok, except)
    else Targets(conns[1..], ok, except)
  }

  function Packets(src: Peer, targets: seq<Peer>, ttl: int): seq<Packet> {
    seq(|targets|, i requires 0 <= i < |targets| => Packet(src, targets[i], ttl))
  }

  function Pairs(src: Peer, targets: seq<Peer>): seq<(Peer, Peer)> {
    seq(|targets|, i requires 0 <= i < |targets| => (src, targets[i]))
  }

  function Broadcast(g: Links, origin: Peer, relayTtl: int, ok: set<Peer>): Net
    requires origin in g
  {
    var targets := Targets(g[origin], ok, {});
    Net({origin}, Packets(origin, targets, relayTtl), Pairs(origin, targets), [], 0)
  }

  function RelayTargets(conns: seq<Peer>, p: Packet, fate: Fate): seq<Peer>
    requires fate.Accepted?
  {
    if fate.mayRelay && p.ttl > 0 then Targets(conns, fate.ok, {p.src}) else []
  }

  function Next(g: Links, s: Net, step: Step): Net {
    if step.i >= |s.flying| || s.flying[step.i].dst !in g then s
    else
      var p := s.flying[step.i];
      var s' := s.(flying := s.flying[..step.i] + s.flying[step.i + 1..], delivered := s.delivered + 1);
      if step.fate.TurnedAway? || p.dst in s.seen then s'
      else if step.fate.Remembered? then s'.(seen := s.seen + {p.dst})
      else
        var targets := RelayTargets(g[p.dst], p, step.fate);
        s'.(seen := s.seen + {p.dst}, accepts := s.accepts + [Accept(p.dst, p.ttl, p.src)],
            flying := s'.flying + Packets(p.dst, targets, p.ttl - 1), sent := s.sent + Pairs(p.dst, targets))
  }

  function Run(g: Links, s: Net, steps: seq<Step>): Net {
    if steps == [] then s else Next(g, Run(g, s, steps[..|steps| - 1]), steps[|steps| - 1])
  }

  // The relay loop of one peer.
  method Relay(self: Peer, conns: seq<Peer>, p: Packet, fate: Fate) returns (out: seq<Packet>)
    requires fate.Accepted?
    ensures out == Packets(self, RelayTargets(conns, p, fate), p.ttl - 1)
  {
    out := [];
    if !fate.mayRelay || p.ttl <= 0 { return; }
    ghost var done: seq<Peer> := [];
    var i := 0;
    while i < |conns|
      invariant 0 <= i <= |conns|
      invariant done + Targets(conns[i..], fate.ok, {p.src}) == Targets(conns, fate.ok, {p.src})
      invariant out == Packets(self, done, p.ttl - 1)
    {
      if conns[i] != p.src && conns[i] in fate.ok {
        out := out + [Packet(self, conns[i], p.ttl - 1)];
        done := done + [conns[i]];
      }
      i := i + 1;
    }
  }

  // ---------------------------------------------------------------- what every run keeps

  function Edges(g: Links): set<(Peer, Peer)> {
    set u, v | u in g && v in g[u] :: (u, v)
  }

  // There is a path of exactly n links from the origin.
  ghost predicate Path(g: Links, origin: Peer, v: Peer, n: nat)
    decreases n
  {
    if n == 0 then v == origin else exists u :: Path(g, origin, u, n - 1) && u in g && v in g[u]
  }

  // A packet or accept with this ttl has travelled this many links.
  function Hops(relayTtl: int, ttl: int): int {
    relayTtl - ttl + 1
  }

  ghost predicate Travelled(g: Links, origin: Peer, relayTtl: int, v: Peer, ttl: int) {
    && 1 <= Hops(relayTtl, ttl)
    && (Hops(relayTtl, ttl) == 1 || ttl >= 0)
    && v in g && Path(g, origin, v, Hops(relayTtl, ttl))
  }

  ghost predicate LinksUsedOnce(g: Links, s: Net) {
    && Distinct(s.sent)
    && (forall e | e in s.sent :: e in Edges(g) && e.0 in s.seen)
    && s.delivered + |s.flying| == |s.sent|
  }

  ghost predicate AcceptedOnce(origin: Peer, s: Net) {
    && origin in s.seen
    && (forall i, j | 0 <= i < j < |s.accepts| :: s.accepts[i].peer != s.accepts[j].peer)
    && (forall i | 0 <= i < |s.accepts| :: s.accepts[i].peer in s.seen && s.accepts[i].peer != origin)
  }

  ghost predicate WithinHops(g: Links, origin: Peer, relayTtl: int, s: Net) {
    && (forall i | 0 <= i < |s.flying| :: Travelled(g, origin, relayTtl, s.flying[i].dst, s.flying[i].ttl))
    && (forall i | 0 <= i < |s.accepts| :: Travelled(g, origin, relayTtl, s.accepts[i].peer, s.accepts[i].ttl))
  }

  ghost predicate Inv(g: Links, origin: Peer, relayTtl: int, s: Net) {
    s.seen <= g.Keys && LinksUsedOnce(g, s) && AcceptedOnce(origin, s) && WithinHops(g, origin, relayTtl, s)
  }

  lemma TargetsSound(conns: seq<Peer>, ok: set<Peer>, except: set<Peer>)
    requires Distinct(conns)
    ensures var t := Targets(conns, ok, except); Distinct(t) && forall v :: v in t <==> v in conns && v in ok && v !in except
  {
    if conns != [] {
      TargetsSound(conns[1..], ok, except);
      assert conns == [conns[0]] + conns[1..];
      var rest := Targets(conns[1..], ok, except);
      assert conns[0] !in rest;
      assert forall v :: v in [conns[0]] + rest <==> v == conns[0] || v in rest;
    }
  }

  // New links: all from one peer that has sent nothing before, to distinct neighbours.
  lemma SendMore(g: Links, sent: seq<(Peer, Peer)>, u: Peer, targets: seq<Peer>)
    requires u in g && Distinct(sent) && Distinct(targets)
    requires forall e | e in sent :: e.0 != u
    requires forall v | v in targets :: v in g[u]
    ensures Distinct(sent + Pairs(u, targets))
    ensures forall e | e in Pairs(u, targets) :: e.0 == u && e in Edges(g)
  {
    var more := Pairs(u, targets);
    forall i, j | 0 <= i < j < |sent + more| ensures (sent + more)[i] != (sent + more)[j] {
      if i < |sent| <= j { assert sent[i] in sent; }
    }
  }

  lemma BroadcastInv(g: Links, origin: Peer, relayTtl: int, ok: set<Peer>)
    requires WellFormed(g) && origin in g
    ensures Inv(g, origin, relayTtl, Broadcast(g, origin, relayTtl, ok))
  {
    var s, targets := Broadcast(g, origin, relayTtl, ok), Targets(g[origin], ok, {});
    TargetsSound(g[origin], ok, {});
    SendMore(g, [], origin, targets);
    assert [] + Pairs(origin, targets) == s.sent;
    assert Path(g, origin, origin, 0);
    forall i | 0 <= i < |s.flying| ensures Travelled(g, origin, relayTtl, s.flying[i].dst, relayTtl) {
      assert targets[i] in targets;
    }
  }

  lemma LinksKept(g: Links, s: Net, step: Step)
    requires WellFormed(g) && LinksUsedOnce(g, s)
    ensures LinksUsedOnce(g, Next(g, s, step))
  {
    if step.i < |s.flying| {
      var p := s.flying[step.i];
      if p.dst in g && p.dst !in s.seen && step.fate.Accepted? {
        var targets := RelayTargets(g[p.dst], p, step.fate);
        TargetsSound(g[p.dst], step.fate.ok, {p.src});
        SendMore(g, s.sent, p.dst, targets);
      }
    }
  }

  lemma HopsKept(g: Links, origin: Peer, relayTtl: int, s: Net, step: Step)
    requires WellFormed(g) && WithinHops(g, origin, relayTtl, s)
    ensures WithinHops(g, origin, relayTtl, Next(g, s, step))
  {
    if step.i < |s.flying| {
      var p := s.flying[step.i];
      assert Travelled(g, origin, relayTtl, p.dst, p.ttl);
      if p.dst !in s.seen && step.fate.Accepted? {
        var targets := RelayTargets(g[p.dst], p, step.fate);
        TargetsSound(g[p.dst], step.fate.ok, {p.src});
        forall i | 0 <= i < |targets| ensures Travelled(g, origin, relayTtl, targets[i], p.ttl - 1) {
          assert targets[i] in targets;
        }
      }
    }
  }

  lemma {:induction false} RunKeeps(g: Links, origin: Peer, relayTtl: int, ok: set<Peer>, steps: seq<Step>)
    requires WellFormed(g) && origin in g
    ensures Inv(g, origin, relayTtl, Run(g, Broadcast(g, origin, relayTtl, ok), steps))
  {
    var s0 := Broadcast(g, origin, relayTtl, ok);
    if steps == [] {
      BroadcastInv(g, origin, relayTtl, ok);
    } else {
      var n := |steps| - 1;
      RunKeeps(g, origin, relayTtl, ok, steps[..n]);
      var s := Run(g, s0, steps[..n]);
      LinksKept(g, s, steps[n]);
      HopsKept(g, origin, relayTtl, s, steps[n]);
    }
  }

  ghost predicate Within(g: Links, origin: Peer, v: Peer, most: nat) {
    exists n: nat :: 1 <= n <= most && Path(g, origin, v, n)
  }

  lemma {:induction false} DistinctFits<T>(s: seq<T>, t: set<T>)
    requires Distinct(s) && forall x | x in s :: x in t
    ensures |s| <= |t|
  {
    if s != [] {
      assert forall x | x in s[1..] :: x in s && x != s[0] by {
        forall x | x in s[1..] ensures x in s && x != s[0] {
          var i :| 0 <= i < |s[1..]| && s[1..][i] == x;
          assert s[i + 1] == x;
        }
      }
      DistinctFits(s[1..], t - {s[0]});
    }
  }

  // In every run of one broadcast, whatever is dropped, refused or left unrelayed and in whatever
  // order packets arrive: a peer accepts the id at most once and the origin never does; an accepting
  // peer is at the end of a path of at most relayTtl + 1 links; every link carries the id at most
  // once, so sends and deliveries together are bounded by the links of the graph.
  lemma Safety(g: Links, origin: Peer, relayTtl: nat, ok: set<Peer>, steps: seq<Step>)
    requires WellFormed(g) && origin in g
    ensures var s := Run(g, Broadcast(g, origin, relayTtl, ok), steps);
      && (forall i, j | 0 <= i < j < |s.accepts| :: s.accepts[i].peer != s.accepts[j].peer)
      && (forall i | 0 <= i < |s.accepts| :: s.accepts[i].peer != origin)
      && (forall i | 0 <= i < |s.accepts| :: Within(g, origin, s.accepts[i].peer, relayTtl + 1))
      && Distinct(s.sent) && (forall e | e in s.sent :: e in Edges(g))
      && s.delivered + |s.flying| == |s.sent| <= |Edges(g)|
  {
    RunKeeps(g, origin, relayTtl, ok, steps);
    var s := Run(g, Broadcast(g, origin, relayTtl, ok), steps);
    forall i | 0 <= i < |s.accepts| ensures Within(g, origin, s.accepts[i].peer, relayTtl + 1) {
      assert Travelled(g, origin, relayTtl, s.accepts[i].peer, s.accepts[i].ttl);
      var n := Hops(relayTtl, s.accepts[i].ttl);
      assert 1 <= n <= relayTtl + 1 && Path(g, origin, s.accepts[i].peer, n);
    }
    DistinctFits(s.sent, Edges(g));
  }

  // Each delivery lowers the pair (peers that have not seen the id, packets on the wire).
  lemma DeliveryDescends(g: Links, s: Net, step: Step)
    requires s.seen <= g.Keys && step.i < |s.flying| && s.flying[step.i].dst in g
    ensures var s' := Next(g, s, step);
      && s'.seen <= g.Keys
      && (|g.Keys - s'.seen| < |g.Keys - s.seen| || (s'.seen == s.seen && |s'.flying| < |s.flying|))
  {
    var p := s.flying[step.i];
    if p.dst !in s.seen && !step.fate.TurnedAway? {
      assert g.Keys - (s.seen + {p.dst}) == (g.Keys - s.seen) - {p.dst};
    }
  }

  // ---------------------------------------------------------------- who gets it

  // A relay sends the packet, with one less to live, once to each authorized neighbour with an open
  // session other than the one it came from, and to nobody else.
  lemma RelayExactly(self: Peer, conns: seq<Peer>, p: Packet, fate: Fate)
    requires Distinct(conns) && fate.Accepted?
    ensures var out := Packets(self, RelayTargets(conns, p, fate), p.ttl - 1);
      && Distinct(out) && (forall q | q in out :: q.src == self && q.ttl == p.ttl - 1 && q.dst != p.src)
      && forall v :: Packet(self, v, p.ttl - 1) in out <==> fate.mayRelay && p.ttl > 0 && v in conns && v in fate.ok && v != p.src
  {
    TargetsSound(conns, fate.ok, {p.src});
    var targets := RelayTargets(conns, p, fate);
    var out := Packets(self, targets, p.ttl - 1);
    forall v | v in targets ensures Packet(self, v, p.ttl - 1) in out {
      var i :| 0 <= i < |targets| && targets[i] == v;
      assert out[i] == Packet(self, v, p.ttl - 1);
    }
    forall q | q in out ensures q.dst in targets {
      var i :| 0 <= i < |out| && out[i] == q;
      assert targets[i] in targets;
    }
  }

  // A broadcast goes to the authorized neighbours of the origin, each once.
  lemma BroadcastExactly(g: Links, origin: Peer, relayTtl: int, ok: set<Peer>)
    requires WellFormed(g) && origin in g
    ensures var s := Broadcast(g, origin, relayTtl, ok);
      && s.seen == {origin} && s.accepts == [] && s.delivered == 0 && Distinct(s.sent)
      && (forall e :: e in s.sent <==> e.0 == origin && e.1 in g[origin] && e.1 in ok)
      && (forall q | q in s.flying :: q.src == origin && q.ttl == relayTtl) && |s.flying| == |s.sent|
  {
    BroadcastInv(g, origin, relayTtl, ok);
    TargetsSound(g[origin], ok, {});
    PairsExact(origin, Targets(g[origin], ok, {}));
  }

  lemma PairsExact(u: Peer, targets: seq<Peer>)
    ensures forall e :: e in Pairs(u, targets) <==> e.0 == u && e.1 in targets
  {
    forall e: (Peer, Peer) | e.0 == u && e.1 in targets ensures e in Pairs(u, targets) {
      var i :| 0 <= i < |targets| && targets[i] == e.1;
      assert Pairs(u, targets)[i] == e;
    }
  }

  predicate GoesTo(g: Links, p: Packet, fate: Fate, v: Peer)
    requires p.dst in g && fate.Accepted?
  {
    fate.mayRelay && p.ttl > 0 && v in g[p.dst] && v in fate.ok && v != p.src
  }

  // What one packet does: only the first copy a peer does not turn away is remembered, only an accepted
  // one is relayed, and never back to where it came from.
  lemma DeliverExactly(g: Links, s: Net, step: Step)
    requires WellFormed(g) && step.i < |s.flying| && s.flying[step.i].dst in g
    ensures var p, s' := s.flying[step.i], Next(g, s, step);
      var first := p.dst !in s.seen && !step.fate.TurnedAway?; var taken := first && step.fate.Accepted?;
      && s'.seen == (if first then s.seen + {p.dst} else s.seen)
      && s'.accepts == (if taken then s.accepts + [Accept(p.dst, p.ttl, p.src)] else s.accepts)
      && (forall e :: e in s'.sent <==> (e in s.sent || (taken && e.0 == p.dst && GoesTo(g, p, step.fate, e.1))))
      && s'.delivered == s.delivered + 1 && |s'.flying| + 1 - |s.flying| == |s'.sent| - |s.sent|
  {
    var p := s.flying[step.i];
    if p.dst !in s.seen && step.fate.Accepted? {
      TargetsSound(g[p.dst], step.fate.ok, {p.src});
      PairsExact(p.dst, RelayTargets(g[p.dst], p, step.fate));
    }
  }

  // In every run no peer sends the id back over the link on which it accepted it.
  ghost predicate NoEcho(s: Net) {
    forall a | a in s.accepts :: (a.peer, a.from) !in s.sent
  }

  lemma {:induction false} NeverEchoed(g: Links, origin: Peer, relayTtl: int, ok: set<Peer>, steps: seq<Step>)
    requires WellFormed(g) && origin in g
    ensures NoEcho(Run(g, Broadcast(g, origin, relayTtl, ok), steps))
  {
    if steps != [] {
      var n := |steps| - 1;
      NeverEchoed(g, origin, relayTtl, ok, steps[..n]);
      RunKeeps(g, origin, relayTtl, ok, steps[..n]);
      EchoStep(g, Run(g, Broadcast(g, origin, relayTtl, ok), steps[..n]), origin, steps[n]);
    }
  }

  lemma EchoStep(g: Links, s: Net, origin: Peer, step: Step)
    requires WellFormed(g) && NoEcho(s) && LinksUsedOnce(g, s) && AcceptedOnce(origin, s)
    ensures NoEcho(Next(g, s, step))
  {
    if step.i < |s.flying| && s.flying[step.i].dst in g {
      DeliverExactly(g, s, step);
      var p, s' := s.flying[step.i], Next(g, s, step);
      forall a | a in s'.accepts ensures (a.peer, a.from) !in s'.sent {
        if a in s.accepts {
          var k :| 0 <= k < |s.accepts| && s.accepts[k] == a;
          assert a.peer in s.seen;
        } else {
          assert a == Accept(p.dst, p.ttl, p.src) && p.dst !in s.seen;
        }
      }
    }
  }

  // ---------------------------------------------------------------- when everyone hears

  predicate Lossless(g: Links, fate: Fate) {
    fate.Accepted? && fate.mayRelay && g.Keys <= fate.ok
  }

  ghost predicate Coming(s: Net, v: Peer) {
    exists i | 0 <= i < |s.flying| :: s.flying[i].dst == v
  }

  ghost predicate HasAccepted(s: Net, v: Peer) {
    exists i | 0 <= i < |s.accepts| :: s.accepts[i].peer == v
  }

  ghost predicate Spreading(g: Links, origin: Peer, relayTtl: int, s: Net) {
    && origin in s.seen && s.seen <= g.Keys && |s.seen| == |s.accepts| + 1
    && (forall v | v in s.seen && v != origin :: HasAccepted(s, v))
    && (forall u, v | u in s.seen && v in g[u] :: v in s.seen || Coming(s, v))
    && (forall i | 0 <= i < |s.flying| :: s.flying[i].src in s.seen && s.flying[i].dst in g)
    && (forall i | 0 <= i < |s.flying| :: Hops(relayTtl, s.flying[i].ttl) <= |s.accepts| + 1)
  }

  lemma StillComing(s: Net, i: nat, more: seq<Packet>, s': Net, v: Peer)
    requires i < |s.flying| && s'.flying == s.flying[..i] + s.flying[i + 1..] + more
    requires Coming(s, v) && v != s.flying[i].dst
    ensures Coming(s', v)
  {
    var j :| 0 <= j < |s.flying| && s.flying[j].dst == v;
    assert s'.flying[if j < i then j else j - 1] == s.flying[j];
  }

  // While the id spreads without loss the time to live never runs out on the way to a new peer.
  lemma FreshArrival(g: Links, origin: Peer, relayTtl: int, s: Net, i: nat)
    requires Spreading(g, origin, relayTtl, s) && relayTtl >= |g.Keys| - 1
    requires i < |s.flying| && s.flying[i].dst !in s.seen
    ensures s.flying[i].ttl > 0
  {
    DistinctSets(s.seen + {s.flying[i].dst}, g.Keys);
  }

  lemma {:induction false} DistinctSets<T>(a: set<T>, b: set<T>)
    requires a <= b
    ensures |a| <= |b|
  {
    if a != {} {
      var x :| x in a;
      DistinctSets(a - {x}, b - {x});
    }
  }

  lemma SpreadStep(g: Links, origin: Peer, relayTtl: int, s: Net, step: Step)
    requires WellFormed(g) && Spreading(g, origin, relayTtl, s) && relayTtl >= |g.Keys| - 1 && Lossless(g, step.fate)
    ensures Spreading(g, origin, relayTtl, Next(g, s, step))
  {
    if step.i < |s.flying| {
      var s', p := Next(g, s, step), s.flying[step.i];
      if p.dst in s.seen {
        forall u, v | u in s'.seen && v in g[u] ensures v in s'.seen || Coming(s', v) {
          if v !in s.seen { StillComing(s, step.i, [], s', v); }
        }
      } else {
        FreshArrival(g, origin, relayTtl, s, step.i);
        SpreadAccept(g, origin, relayTtl, s, step, s');
      }
    }
  }

  lemma SpreadAccept(g: Links, origin: Peer, relayTtl: int, s: Net, step: Step, s': Net)
    requires WellFormed(g) && Spreading(g, origin, relayTtl, s) && Lossless(g, step.fate)
    requires step.i < |s.flying| && s.flying[step.i].dst !in s.seen && s.flying[step.i].ttl > 0
    requires s' == Next(g, s, step)
    ensures Spreading(g, origin, relayTtl, s')
  {
    var p := s.flying[step.i];
    forall v | v in s'.seen && v != origin ensures HasAccepted(s', v) {
      AcceptRecorded(s, Accept(p.dst, p.ttl, p.src), s', v);
    }
    SpreadsOn(g, origin, relayTtl, s, step, s');
    PacketsSound(g, origin, relayTtl, s, step, s');
  }

  lemma PacketsSound(g: Links, origin: Peer, relayTtl: int, s: Net, step: Step, s': Net)
    requires WellFormed(g) && Spreading(g, origin, relayTtl, s) && Lossless(g, step.fate)
    requires step.i < |s.flying| && s.flying[step.i].dst !in s.seen && s.flying[step.i].ttl > 0
    requires s' == Next(g, s, step)
    ensures forall i | 0 <= i < |s'.flying| ::
      s'.flying[i].src in s'.seen && s'.flying[i].dst in g && Hops(relayTtl, s'.flying[i].ttl) <= |s'.accepts| + 1
  {
    var p := s.flying[step.i];
    var targets := RelayTargets(g[p.dst], p, step.fate);
    TargetsSound(g[p.dst], step.fate.ok, {p.src});
    forall i | 0 <= i < |s'.flying|
      ensures s'.flying[i].src in s'.seen && s'.flying[i].dst in g && Hops(relayTtl, s'.flying[i].ttl) <= |s'.accepts| + 1
    {
      if i >= |s.flying| - 1 { assert targets[i - |s.flying| + 1] in targets; }
    }
  }

  lemma AcceptRecorded(s: Net, a: Accept, s': Net, v: Peer)
    requires s'.accepts == s.accepts + [a] && (v == a.peer || HasAccepted(s, v))
    ensures HasAccepted(s', v)
  {
    assert s'.accepts[|s.accepts|].peer == a.peer;
    if v != a.peer {
      var j :| 0 <= j < |s.accepts| && s.accepts[j].peer == v;
      assert s'.accepts[j].peer == v;
    }
  }

  lemma SpreadsOn(g: Links, origin: Peer, relayTtl: int, s: Net, step: Step, s': Net)
    requires WellFormed(g) && Spreading(g, origin, relayTtl, s) && Lossless(g, step.fate)
    requires step.i < |s.flying| && s.flying[step.i].dst !in s.seen && s.flying[step.i].ttl > 0
    requires s' == Next(g, s, step)
    ensures forall u, v | u in s'.seen && v in g[u] :: v in s'.seen || Coming(s', v)
  {
    var p := s.flying[step.i];
    var targets := RelayTargets(g[p.dst], p, step.fate);
    var more := Packets(p.dst, targets, p.ttl - 1);
    TargetsSound(g[p.dst], step.fate.ok, {p.src});
    forall u, v | u in s'.seen && v in g[u] ensures v in s'.seen || Coming(s', v) {
      if v !in s'.seen {
        if u == p.dst {
          var j :| 0 <= j < |targets| && targets[j] == v;
          assert s'.flying[|s.flying| - 1 + j] == more[j];
        } else {
          StillComing(s, step.i, more, s', v);
        }
      }
    }
  }

  lemma {:induction false} RunSpreads(g: Links, origin: Peer, relayTtl: int, steps: seq<Step>)
    requires WellFormed(g) && origin in g && relayTtl >= |g.Keys| - 1
    requires forall i | 0 <= i < |steps| :: Lossless(g, steps[i].fate)
    ensures Spreading(g, origin, relayTtl, Run(g, Broadcast(g, origin, relayTtl, g.Keys), steps))
  {
    var s0 := Broadcast(g, origin, relayTtl, g.Keys);
    if steps == [] {
      var targets := Targets(g[origin], g.Keys, {});
      TargetsSound(g[origin], g.Keys, {});
      forall v | v in g[origin] ensures Coming(s0, v) {
        assert v in targets;
        var j :| 0 <= j < |targets| && targets[j] == v;
        assert s0.flying[j].dst == v;
      }
      forall j | 0 <= j < |targets| ensures targets[j] in g {
        assert targets[j] in targets;
      }
    } else {
      var n := |steps| - 1;
      RunSpreads(g, origin, relayTtl, steps[..n]);
      SpreadStep(g, origin, relayTtl, Run(g, s0, steps[..n]), steps[n]);
    }
  }

  lemma {:induction false} ReachableSeen(g: Links, origin: Peer, s: Net, v: Peer, n: nat)
    requires origin in s.seen && Path(g, origin, v, n)
    requires forall u, w | u in s.seen && u in g && w in g[u] :: w in s.seen
    ensures v in s.seen
    decreases n
  {
    if n > 0 {
      var u :| Path(g, origin, u, n - 1) && u in g && v in g[u];
      ReachableSeen(g, origin, s, u, n - 1);
    }
  }

  lemma QuietMeansHeard(g: Links, origin: Peer, relayTtl: int, s: Net, v: Peer, n: nat)
    requires Spreading(g, origin, relayTtl, s) && s.flying == [] && v != origin && Path(g, origin, v, n)
    ensures HasAccepted(s, v)
  {
    ReachableSeen(g, origin, s, v, n);
  }

  // When nothing is lost, refused or held back and the time to live is at least the number of other
  // peers, then once the wire is empty every peer reachable from the origin has accepted the id.
  // With a smaller time to live only the upper bound of Safety holds.
  lemma EveryoneHears(g: Links, origin: Peer, relayTtl: int, steps: seq<Step>, v: Peer, n: nat)
    requires WellFormed(g) && origin in g && relayTtl >= |g.Keys| - 1
    requires forall i | 0 <= i < |steps| :: Lossless(g, steps[i].fate)
    requires Run(g, Broadcast(g, origin, relayTtl, g.Keys), steps).flying == []
    requires v != origin && Path(g, origin, v, n)
    ensures HasAccepted(Run(g, Broadcast(g, origin, relayTtl, g.Keys), steps), v)
  {
    RunSpreads(g, origin, relayTtl, steps);
    QuietMeansHeard(g, origin, relayTtl, Run(g, Broadcast(g, origin, relayTtl, g.Keys), steps), v, n);
  }
}
