/**
 The relay's message handlers over its tokens and its peer registry: registration by bootstrap token,
 heartbeats, disconnects and the two parts of the periodic sweep.
 */
module RelayServer {
  import opened Common
  import opened Json
  import opened RelayTokens

  datatype PeerInfo = PeerInfo(connectedAt: real, lastSeenAt: real, online: bool, meta: Dict)

  type Registry = map<string, PeerInfo>

  datatype Relay = Relay(tokens: Tokens, registry: Registry)

  const EMPTY := Relay(Tokens(map[], map[]), map[])

  datatype Config = Config(heartbeatTimeout: int, peerTokenTtl: int)

  /** A message or a sweep, with the ids and tokens it generates and its clock readings in order. */
  datatype Message =
    | IssueBootstrapToken(token: string, ttl: int, claims: Dict, now: real)
    | Register(bootstrap: string, meta: Dict, peerId: string, peerToken: string, consumed: real, registered: real, issued: real)
    | Heartbeat(peerToken: string, checked: real, refreshed: real, seen: real)
    | Disconnect(peerId: string)
    | SweepPeers(now: real)
    | SweepTokens(now: real)

  datatype Reply = Silent | Issued(token: string) | RegisterOk(peerId: string, peerToken: string) | Rejected

  // ---------------------------------------------------------------- one step

  function Joined(r: Registry, peerId: string, meta: Dict, now: real): Registry {
    r[peerId := PeerInfo(now, now, true, meta)]
  }

  function Beaten(r: Registry, peerId: string, now: real): Registry {
    if peerId in r then r[peerId := r[peerId].(lastSeenAt := now, online := true)] else r
  }

  function Left(i: PeerInfo, reason: string): PeerInfo {
    i.(online := false, meta := i.meta["disconnect_reason" := Str(reason)])
  }

  function Disconnected(r: Registry, peerId: string, reason: string): Registry {
    if peerId in r then r[peerId := Left(r[peerId], reason)] else r
  }

  predicate Stale(i: PeerInfo, timeout: int, now: real) {
    i.online && now - i.lastSeenAt > timeout as real
  }

  function Swept(r: Registry, timeout: int, now: real): Registry {
    map k | k in r :: if Stale(r[k], timeout, now) then Left(r[k], "heartbeat_timeout") else r[k]
  }

  function WithPrincipal(meta: Dict, claims: Dict): Dict {
    if claims == map[] then meta else meta["auth_principal" := Obj(claims)]
  }

  function Serve(c: Config, s: Relay, m: Message): (Relay, Reply) {
    match m
    case IssueBootstrapToken(token, ttl, claims, now) =>
      (s.(tokens := IssueBootstrapSpec(s.tokens, token, ttl, claims, now)), Issued(token))
    case Register(bootstrap, meta, peerId, peerToken, consumed, registered, issued) =>
      var (t, claims) := ConsumeSpec(s.tokens, bootstrap, consumed);
      if claims.None? then (s, Rejected)
      else (Relay(IssuePeerSpec(t, peerToken, peerId, c.peerTokenTtl, issued),
                  Joined(s.registry, peerId, WithPrincipal(meta, claims.value), registered)),
            RegisterOk(peerId, peerToken))
    case Heartbeat(peerToken, checked, refreshed, seen) =>
      var (t, peer) := RefreshSpec(s.tokens, peerToken, c.peerTokenTtl, checked, refreshed);
      if peer.None? || peer.value == "" then (s.(tokens := t), Silent)
      else (Relay(t, Beaten(s.registry, peer.value, seen)), Silent)
    case Disconnect(peerId) =>
      (if peerId == "" then s else s.(registry := Disconnected(s.registry, peerId, "peer_initiated")), Silent)
    case SweepPeers(now) => (s.(registry := Swept(s.registry, c.heartbeatTimeout, now)), Silent)
    case SweepTokens(now) => (s.(tokens := PruneSpec(s.tokens, now)), Silent)
  }

  // ---------------------------------------------------------------- the server

  class PeerRegistry {
    var peers: Registry
    const heartbeatTimeout: int

    constructor (timeout: int)
      ensures peers == map[] && heartbeatTimeout == timeout
    {
      peers, heartbeatTimeout := map[], timeout;
    }

    method Register(peerId: string, meta: Dict, now: real)
      modifies this
      ensures peers == Joined(old(peers), peerId, meta, now)
    {
      peers := peers[peerId := PeerInfo(now, now, true, meta)];
    }

    method UpdateHeartbeat(peerId: string, now: real) returns (found: bool)
      modifies this
      ensures found == (peerId in old(peers)) && peers == Beaten(old(peers), peerId, now)
    {
      if peerId !in peers {
        return false;
      }
      var info := peers[peerId].(lastSeenAt := now);
      if !info.online {
        info := info.(online := true);
      }
      peers := peers[peerId := info];
      return true;
    }

    method MarkDisconnected(peerId: string, reason: string) returns (info: Option<PeerInfo>)
      modifies this
      ensures peers == Disconnected(old(peers), peerId, reason)
      ensures info == if peerId in peers then Some(peers[peerId]) else None
    {
      if peerId !in peers {
        return None;
      }
      peers := peers[peerId := Left(peers[peerId], reason)];
      return Some(peers[peerId]);
    }

    method PruneStale(now: real) returns (stale: set<string>)
      modifies this
      ensures peers == Swept(old(peers), heartbeatTimeout, now)
      ensures stale == set k | k in old(peers) && Stale(old(peers)[k], heartbeatTimeout, now)
    {
      hide Stale, Left;
      var left := peers.Keys;
      stale := {};
      while left != {}
        invariant left <= old(peers).Keys == peers.Keys
        invariant forall k :: k in left ==> peers[k] == old(peers)[k]
        invariant forall k :: k in peers && k !in left ==> peers[k] == Swept(old(peers), heartbeatTimeout, now)[k]
        invariant stale == set k | k in old(peers) && k !in left && Stale(old(peers)[k], heartbeatTimeout, now)
        decreases |left|
      {
        var peerId :| peerId in left;
        if Stale(peers[peerId], heartbeatTimeout, now) {
          peers := peers[peerId := Left(peers[peerId], "heartbeat_timeout")];
          stale := stale + {peerId};
        }
        left := left - {peerId};
      }
    }
  }

  class RelayServer {
    const tokens: TokenManager
    const registry: PeerRegistry
    const peerTokenTtl: int

    constructor (timeout: int, ttl: int)
      ensures fresh(tokens) && fresh(registry)
      ensures State() == EMPTY && Settings() == Config(timeout, ttl)
    {
      tokens := new TokenManager();
      registry := new PeerRegistry(timeout);
      peerTokenTtl := ttl;
    }

    function State(): Relay
      reads tokens, registry
    {
      Relay(tokens.State(), registry.peers)
    }

    function Settings(): Config {
      Config(registry.heartbeatTimeout, peerTokenTtl)
    }

    method OnRegister(m: Message) returns (reply: Reply)
      requires m.Register?
      modifies tokens, registry
      ensures (State(), reply) == Serve(Settings(), old(State()), m)
    {
      var claims := tokens.ConsumeBootstrapToken(m.bootstrap, m.consumed);
      if claims.None? {
        return Rejected;
      }
      var meta := m.meta;
      if claims.value != map[] {
        meta := meta["auth_principal" := Obj(claims.value)];
      }
      registry.Register(m.peerId, meta, m.registered);
      tokens.IssuePeerToken(m.peerToken, m.peerId, peerTokenTtl, m.issued);
      return RegisterOk(m.peerId, m.peerToken);
    }

    method OnHeartbeat(m: Message)
      requires m.Heartbeat?
      modifies tokens, registry
      ensures State() == Serve(Settings(), old(State()), m).0
    {
      var peer := tokens.RefreshPeerToken(m.peerToken, peerTokenTtl, m.checked, m.refreshed);
      if peer.Some? && peer.value != "" {
        var _ := registry.UpdateHeartbeat(peer.value, m.seen);
      }
    }

    method OnDisconnect(m: Message)
      requires m.Disconnect?
      modifies registry
      ensures State() == Serve(Settings(), old(State()), m).0
    {
      if m.peerId != "" {
        var _ := registry.MarkDisconnected(m.peerId, "peer_initiated");
      }
    }

    /** One round of `_prune_loop`. */
    method Prune(now: real, later: real)
      modifies tokens, registry
      ensures State() == Serve(Settings(), Serve(Settings(), old(State()), SweepPeers(now)).0, SweepTokens(later)).0
    {
      hide Swept, PruneSpec;
      var _ := registry.PruneStale(now);
      var _ := tokens.PruneExpired(later);
    }
  }

  // ---------------------------------------------------------------- what the messages do to a peer

  /** A sweep takes offline, with the reason, exactly the peers that are online and were not seen for longer than the timeout. */
  lemma SweepEffect(c: Config, s: Relay, now: real, peerId: string)
    requires peerId in s.registry
    ensures var t := Serve(c, s, SweepPeers(now)).0;
            && t.tokens == s.tokens && t.registry.Keys == s.registry.Keys
            && var was, after := s.registry[peerId], t.registry[peerId];
            && after.connectedAt == was.connectedAt && after.lastSeenAt == was.lastSeenAt
            && (was.online && !after.online <==> was.online && was.lastSeenAt + c.heartbeatTimeout as real < now)
            && (was.online && !after.online ==> after.meta == was.meta["disconnect_reason" := Str("heartbeat_timeout")])
            && (was.online == after.online ==> after == was)
  {
  }

  /** A registration stores the peer as online from now, with its claims where the token had any; other peers stay. */
  lemma RegisterEffect(c: Config, s: Relay, m: Message, key: string)
    requires m.Register?
    ensures var (t, reply) := Serve(c, s, m);
            && (reply == Rejected ==> t == s)
            && (reply != Rejected ==>
                  && reply == RegisterOk(m.peerId, m.peerToken) && m.bootstrap in s.tokens.bootstrap
                  && m.peerId in t.registry
                  && var info, claims := t.registry[m.peerId], s.tokens.bootstrap[m.bootstrap].claims;
                  && info.connectedAt == m.registered && info.lastSeenAt == m.registered && info.online
                  && info.meta == (if claims == map[] then m.meta else m.meta["auth_principal" := Obj(claims)])
                  && (key != m.peerId ==> (key in t.registry <==> key in s.registry) && (key in s.registry ==> t.registry[key] == s.registry[key])))
  {
  }

  /** A heartbeat by a token that lives, and not otherwise, brings its peer online and renews the time it was seen. */
  lemma HeartbeatEffect(c: Config, s: Relay, m: Message, key: string)
    requires m.Heartbeat? && key in s.registry
    ensures var t := Serve(c, s, m).0;
            var mine := key != "" && m.peerToken in s.tokens.peers
                     && s.tokens.peers[m.peerToken].peerId == Some(key) && m.checked <= s.tokens.peers[m.peerToken].expiresAt;
            && t.registry.Keys == s.registry.Keys
            && t.registry[key] == (if mine then s.registry[key].(lastSeenAt := m.seen, online := true) else s.registry[key])
  {
  }

  /** A disconnect takes its peer offline, with the reason, and no other. */
  lemma DisconnectEffect(c: Config, s: Relay, peerId: string, key: string)
    requires key in s.registry
    ensures var t := Serve(c, s, Disconnect(peerId)).0;
            && t.tokens == s.tokens && t.registry.Keys == s.registry.Keys
            && t.registry[key] == (if peerId != "" && key == peerId
                                   then s.registry[key].(online := false, meta := s.registry[key].meta["disconnect_reason" := Str("peer_initiated")])
                                   else s.registry[key])
  {
  }

  // ---------------------------------------------------------------- runs

  predicate InOrder(m: Message, from: real) {
    match m
    case Register(_, _, _, _, consumed, registered, issued) => from <= consumed <= registered <= issued
    case Heartbeat(_, checked, refreshed, seen) => from <= checked <= refreshed <= seen
    case Disconnect(_) => true
    case _ => from <= m.now
  }

  function Reading(m: Message, from: real): real {
    match m
    case Register(_, _, _, _, _, _, issued) => issued
    case Heartbeat(_, _, _, seen) => seen
    case Disconnect(_) => from
    case _ => m.now
  }

  predicate ClockAdvances(ms: seq<Message>, from: real) {
    ms == [] || (InOrder(ms[0], from) && ClockAdvances(ms[1..], Reading(ms[0], from)))
  }

  function ServeAll(c: Config, s: Relay, ms: seq<Message>): Relay
    decreases |ms|
  {
    if ms == [] then s else ServeAll(c, Serve(c, s, ms[0]).0, ms[1..])
  }

  /** The replies, and the registry after each step other than a sweep of the tokens. */
  function Observed(c: Config, s: Relay, ms: seq<Message>): seq<(Reply, Registry)>
    decreases |ms|
  {
    if ms == [] then []
    else
      var (u, reply) := Serve(c, s, ms[0]);
      (if ms[0].SweepTokens? then [] else [(reply, u.registry)]) + Observed(c, u, ms[1..])
  }

  function Unswept(ms: seq<Message>): seq<Message> {
    if ms == [] then [] else (if ms[0].SweepTokens? then [] else [ms[0]]) + Unswept(ms[1..])
  }

  ghost predicate ThinnedRelay(p: Relay, f: Relay, now: real) {
    p.registry == f.registry && ThinnedTokens(p.tokens, f.tokens, now)
  }

  lemma LaterThinned(p: Tokens, f: Tokens, from: real, now: real)
    requires ThinnedTokens(p, f, from) && from <= now
    ensures ThinnedTokens(p, f, now)
  {
  }

  lemma RegisterThinned(c: Config, p: Relay, f: Relay, m: Message, from: real)
    requires ThinnedRelay(p, f, from) && InOrder(m, from) && m.Register?
    ensures Serve(c, p, m).1 == Serve(c, f, m).1
    ensures ThinnedRelay(Serve(c, p, m).0, Serve(c, f, m).0, Reading(m, from))
  {
    hide ThinnedTokens, ConsumeSpec, IssuePeerSpec, Joined, WithPrincipal;
    var consume, issue := Consume(m.bootstrap, m.consumed), IssuePeer(m.peerToken, m.peerId, c.peerTokenTtl, m.issued);
    StepThinned(p.tokens, f.tokens, consume, from);
    assert Timely(issue, m.consumed);
    StepThinned(Next(p.tokens, consume).0, Next(f.tokens, consume).0, issue, m.consumed);
    LaterThinned(p.tokens, f.tokens, from, m.issued);
  }

  lemma MessageThinned(c: Config, p: Relay, f: Relay, m: Message, from: real)
    requires ThinnedRelay(p, f, from) && InOrder(m, from) && !m.SweepTokens?
    ensures Serve(c, p, m).1 == Serve(c, f, m).1
    ensures ThinnedRelay(Serve(c, p, m).0, Serve(c, f, m).0, Reading(m, from))
  {
    hide ThinnedTokens, ConsumeSpec, IssuePeerSpec, RefreshSpec, IssueBootstrapSpec, Joined, WithPrincipal, Swept, Beaten;
    match m
    case IssueBootstrapToken(token, ttl, claims, now) =>
      StepThinned(p.tokens, f.tokens, IssueBootstrap(token, ttl, claims, now), from);
    case Register(_, _, _, _, _, _, _) => RegisterThinned(c, p, f, m, from);
    case Heartbeat(peerToken, checked, refreshed, seen) =>
      var refresh := Refresh(peerToken, c.peerTokenTtl, checked, refreshed);
      StepThinned(p.tokens, f.tokens, refresh, from);
      LaterThinned(Next(p.tokens, refresh).0, Next(f.tokens, refresh).0, refreshed, seen);
    case Disconnect(_) =>
    case SweepPeers(now) => LaterThinned(p.tokens, f.tokens, from, now);
  }

  lemma {:induction false} ThinnedObserved(c: Config, p: Relay, f: Relay, ms: seq<Message>, from: real)
    requires ThinnedRelay(p, f, from) && ClockAdvances(ms, from)
    ensures Observed(c, p, ms) == Observed(c, f, Unswept(ms))
    decreases |ms|
  {
    hide ThinnedTokens, Serve, InOrder, Reading;
    if ms != [] {
      var m := ms[0];
      if m.SweepTokens? {
        SweepThins(c, p, f, m, from);
        ThinnedObserved(c, Serve(c, p, m).0, f, ms[1..], Reading(m, from));
        assert Unswept(ms) == Unswept(ms[1..]);
      } else {
        MessageThinned(c, p, f, m, from);
        ThinnedObserved(c, Serve(c, p, m).0, Serve(c, f, m).0, ms[1..], Reading(m, from));
        assert Unswept(ms) == [m] + Unswept(ms[1..]);
        assert Unswept(ms)[1..] == Unswept(ms[1..]);
      }
    }
  }

  lemma SweepThins(c: Config, p: Relay, f: Relay, m: Message, from: real)
    requires ThinnedRelay(p, f, from) && InOrder(m, from) && m.SweepTokens?
    ensures ThinnedRelay(Serve(c, p, m).0, f, Reading(m, from))
  {
    hide ThinnedTokens, PruneSpec;
    PruneThins(p.tokens, f.tokens, from, m.now);
  }

  /** Sweeping the tokens changes no reply and no registry of the whole run. */
  lemma SweepInvisible(c: Config, s: Relay, ms: seq<Message>, from: real)
    requires ClockAdvances(ms, from)
    ensures Observed(c, s, ms) == Observed(c, s, Unswept(ms))
  {
    hide Observed, ClockAdvances;
    assert ThinnedTokens(s.tokens, s.tokens, from);
    ThinnedObserved(c, s, s, ms, from);
  }

  // ---------------------------------------------------------------- one peer per bootstrap token

  function Registrations(c: Config, s: Relay, ms: seq<Message>, token: string): nat
    decreases |ms|
  {
    if ms == [] then 0
    else
      var (u, reply) := Serve(c, s, ms[0]);
      (if ms[0].Register? && ms[0].bootstrap == token && reply.RegisterOk? then 1 else 0) + Registrations(c, u, ms[1..], token)
  }

  function Issues(ms: seq<Message>, token: string): nat {
    if ms == [] then 0
    else (if ms[0].IssueBootstrapToken? && ms[0].token == token then 1 else 0) + Issues(ms[1..], token)
  }

  function Unspent(s: Relay, token: string): nat {
    if token in s.tokens.bootstrap && !s.tokens.bootstrap[token].used then 1 else 0
  }

  /** Registrations by a token use up the times it was issued. */
  lemma {:induction false} RegistrationsSpend(c: Config, s: Relay, ms: seq<Message>, token: string)
    ensures Registrations(c, s, ms, token) <= Unspent(s, token) + Issues(ms, token)
    decreases |ms|
  {
    hide Serve, Unspent;
    if ms != [] {
      SpendStep(c, s, ms[0], token);
      RegistrationsSpend(c, Serve(c, s, ms[0]).0, ms[1..], token);
    }
  }

  lemma SpendStep(c: Config, s: Relay, m: Message, token: string)
    ensures var (u, reply) := Serve(c, s, m);
            (if m.Register? && m.bootstrap == token && reply.RegisterOk? then 1 else 0) + Unspent(u, token)
            <= Unspent(s, token) + (if m.IssueBootstrapToken? && m.token == token then 1 else 0)
  {
    hide Joined, WithPrincipal, Swept, Beaten, Disconnected;
  }

  /** From start-up, a token issued once registers at most one peer, whatever is sent and however often. */
  lemma OnePeerPerToken(c: Config, ms: seq<Message>, token: string)
    ensures Registrations(c, EMPTY, ms, token) <= Issues(ms, token)
  {
    RegistrationsSpend(c, EMPTY, ms, token);
  }

  // ---------------------------------------------------------------- presence

  /** Every peer token belongs to a registered peer. */
  ghost predicate PeersKnown(s: Relay) {
    forall k :: k in s.tokens.peers ==> s.tokens.peers[k].peerId.Some? && s.tokens.peers[k].peerId.value in s.registry
  }

  lemma PeersKnownStep(c: Config, s: Relay, m: Message)
    requires PeersKnown(s)
    ensures PeersKnown(Serve(c, s, m).0)
    ensures s.registry.Keys <= Serve(c, s, m).0.registry.Keys
  {
    hide WithPrincipal, Stale, Left;
  }

  /** In every run a peer once registered stays known, and every token, live or not, belongs to one. */
  lemma {:induction false} PeersKnownThroughout(c: Config, s: Relay, ms: seq<Message>)
    requires PeersKnown(s)
    ensures PeersKnown(ServeAll(c, s, ms)) && s.registry.Keys <= ServeAll(c, s, ms).registry.Keys
    decreases |ms|
  {
    hide Serve, PeersKnown;
    if ms != [] {
      PeersKnownStep(c, s, ms[0]);
      PeersKnownThroughout(c, Serve(c, s, ms[0]).0, ms[1..]);
    }
  }

  /**
   Disconnecting revokes nothing: a later heartbeat brings the peer back exactly when its token has
   not expired.
   */
  lemma DisconnectKeepsToken(c: Config, s: Relay, peerId: string, token: string, checked: real, refreshed: real, seen: real)
    requires peerId != "" && peerId in s.registry
    ensures var gone := Serve(c, s, Disconnect(peerId)).0;
            var back := Serve(c, gone, Heartbeat(token, checked, refreshed, seen)).0;
            && !gone.registry[peerId].online
            && (back.registry[peerId].online <==> Live(s.tokens.peers, token, checked) && s.tokens.peers[token].peerId == Some(peerId))
  {
  }

  /** Offline, and every token it was given has run out. */
  ghost predicate Lapsed(s: Relay, peerId: string, now: real) {
    && peerId in s.registry && !s.registry[peerId].online
    && forall k :: k in s.tokens.peers && s.tokens.peers[k].peerId == Some(peerId) ==> Expired(s.tokens.peers[k], now)
  }

  lemma LapsedStep(c: Config, s: Relay, m: Message, peerId: string, from: real)
    requires Lapsed(s, peerId, from) && InOrder(m, from) && !(m.Register? && m.peerId == peerId)
    ensures Lapsed(Serve(c, s, m).0, peerId, Reading(m, from))
  {
    hide WithPrincipal;
  }

  /** A lapsed peer stays offline in every run that does not hand its id out again. */
  lemma {:induction false} LapsedForever(c: Config, s: Relay, ms: seq<Message>, peerId: string, from: real)
    requires Lapsed(s, peerId, from) && ClockAdvances(ms, from)
    requires forall m :: m in ms && m.Register? ==> m.peerId != peerId
    ensures peerId in ServeAll(c, s, ms).registry && !ServeAll(c, s, ms).registry[peerId].online
    decreases |ms|
  {
    hide Serve, InOrder, Reading;
    if ms != [] {
      assert ms[0] in ms;
      LapsedStep(c, s, ms[0], peerId, from);
      LapsedForever(c, Serve(c, s, ms[0]).0, ms[1..], peerId, Reading(ms[0], from));
    }
  }
}
