/**
 The relay's in-memory tokens: one-time bootstrap tokens, short-lived peer tokens and the pruning of
 expired ones, which is proved to be invisible as long as the clock does not fall back.
 */
module RelayTokens {
  import opened Common
  import opened Json

  datatype Entry = Entry(expiresAt: real, used: bool, peerId: Option<string>, claims: Dict)

  type Store = map<string, Entry>

  datatype Tokens = Tokens(bootstrap: Store, peers: Store)

  /** A call with the tokens it generates and the clock readings it makes. */
  datatype Op =
    | IssueBootstrap(token: string, ttl: int, claims: Dict, now: real)
    | Consume(token: string, now: real)
    | IssuePeer(token: string, peerId: string, ttl: int, now: real)
    | Verify(token: string, now: real)
    | Refresh(token: string, ttl: int, now: real, later: real)
    | Revoke(token: string)
    | Prune(now: real)

  datatype Answer = Done | Claims(claims: Option<Dict>) | Peer(peerId: Option<string>) | Removed(count: nat)

  // ---------------------------------------------------------------- one call

  predicate Expired(e: Entry, now: real) {
    now > e.expiresAt
  }

  predicate Live(s: Store, token: string, now: real) {
    token in s && !Expired(s[token], now)
  }

  function IssueBootstrapSpec(t: Tokens, token: string, ttl: int, claims: Dict, now: real): Tokens {
    t.(bootstrap := t.bootstrap[token := Entry(now + ttl as real, false, None, claims)])
  }

  predicate Consumable(t: Tokens, token: string, now: real) {
    Live(t.bootstrap, token, now) && !t.bootstrap[token].used
  }

  function ConsumeSpec(t: Tokens, token: string, now: real): (Tokens, Option<Dict>) {
    if Consumable(t, token, now) then
      (t.(bootstrap := t.bootstrap[token := t.bootstrap[token].(used := true)]), Some(t.bootstrap[token].claims))
    else (t, None)
  }

  function IssuePeerSpec(t: Tokens, token: string, peerId: string, ttl: int, now: real): Tokens {
    t.(peers := t.peers[token := Entry(now + ttl as real, false, Some(peerId), map[])])
  }

  function VerifySpec(t: Tokens, token: string, now: real): Option<string> {
    if Live(t.peers, token, now) then t.peers[token].peerId else None
  }

  function RefreshSpec(t: Tokens, token: string, ttl: int, now: real, later: real): (Tokens, Option<string>) {
    if Live(t.peers, token, now) then
      (t.(peers := t.peers[token := t.peers[token].(expiresAt := later + ttl as real)]), t.peers[token].peerId)
    else (t, None)
  }

  function RevokeSpec(t: Tokens, token: string): Tokens {
    t.(peers := t.peers - {token})
  }

  /** The entries a prune leaves. */
  function Kept(s: Store, now: real): Store {
    map k | k in s && !Expired(s[k], now) :: s[k]
  }

  function PruneSpec(t: Tokens, now: real): Tokens {
    Tokens(Kept(t.bootstrap, now), Kept(t.peers, now))
  }

  function Missing(before: Store, after: Store): nat {
    |before.Keys - after.Keys|
  }

  function Next(t: Tokens, op: Op): (Tokens, Answer) {
    match op
    case IssueBootstrap(token, ttl, claims, now) => (IssueBootstrapSpec(t, token, ttl, claims, now), Done)
    case Consume(token, now) => var (u, claims) := ConsumeSpec(t, token, now); (u, Claims(claims))
    case IssuePeer(token, peerId, ttl, now) => (IssuePeerSpec(t, token, peerId, ttl, now), Done)
    case Verify(token, now) => (t, Peer(VerifySpec(t, token, now)))
    case Refresh(token, ttl, now, later) => var (u, peer) := RefreshSpec(t, token, ttl, now, later); (u, Peer(peer))
    case Revoke(token) => (RevokeSpec(t, token), Done)
    case Prune(now) =>
      var u := PruneSpec(t, now);
      (u, Removed(Missing(t.bootstrap, u.bootstrap) + Missing(t.peers, u.peers)))
  }

  // ---------------------------------------------------------------- the manager

  /** The inner loop of `prune_expired`. */
  method PruneStore(store: Store, now: real) returns (kept: Store, removed: nat)
    ensures kept == Kept(store, now)
    ensures removed == Missing(store, kept)
  {
    var expired := set k | k in store && Expired(store[k], now);
    var left := expired;
    kept, removed := store, 0;
    while left != {}
      invariant left <= expired
      invariant forall k :: k in kept <==> k in store && (k in expired ==> k in left)
      invariant forall k :: k in kept ==> kept[k] == store[k]
      invariant removed + |left| == |expired|
      decreases |left|
    {
      var k :| k in left;
      kept, removed, left := kept - {k}, removed + 1, left - {k};
    }
    assert store.Keys - kept.Keys == expired;
  }

  class TokenManager {
    var bootstrap: Store
    var peers: Store

    constructor ()
      ensures State() == Tokens(map[], map[])
    {
      bootstrap, peers := map[], map[];
    }

    function State(): Tokens
      reads this
    {
      Tokens(bootstrap, peers)
    }

    method IssueBootstrapToken(token: string, ttl: int, claims: Dict, now: real)
      modifies this
      ensures State() == Next(old(State()), IssueBootstrap(token, ttl, claims, now)).0
    {
      bootstrap := bootstrap[token := Entry(now + ttl as real, false, None, claims)];
    }

    method ConsumeBootstrapToken(token: string, now: real) returns (claims: Option<Dict>)
      modifies this
      ensures (State(), Claims(claims)) == Next(old(State()), Consume(token, now))
    {
      if token !in bootstrap {
        return None;
      }
      var entry := bootstrap[token];
      if entry.used {
        return None;
      }
      if now > entry.expiresAt {
        return None;
      }
      bootstrap := bootstrap[token := entry.(used := true)];
      return Some(entry.claims);
    }

    method IssuePeerToken(token: string, peerId: string, ttl: int, now: real)
      modifies this
      ensures State() == Next(old(State()), IssuePeer(token, peerId, ttl, now)).0
    {
      peers := peers[token := Entry(now + ttl as real, false, Some(peerId), map[])];
    }

    method VerifyPeerToken(token: string, now: real) returns (peerId: Option<string>)
      ensures Peer(peerId) == Next(State(), Verify(token, now)).1
    {
      if token !in peers {
        return None;
      }
      if now > peers[token].expiresAt {
        return None;
      }
      return peers[token].peerId;
    }

    method RefreshPeerToken(token: string, ttl: int, now: real, later: real) returns (peerId: Option<string>)
      modifies this
      ensures (State(), Peer(peerId)) == Next(old(State()), Refresh(token, ttl, now, later))
    {
      if token !in peers {
        return None;
      }
      var entry := peers[token];
      if now > entry.expiresAt {
        return None;
      }
      peers := peers[token := entry.(expiresAt := later + ttl as real)];
      return entry.peerId;
    }

    method RevokePeerToken(token: string)
      modifies this
      ensures State() == Next(old(State()), Revoke(token)).0
    {
      peers := peers - {token};
    }

    method PruneExpired(now: real) returns (removed: nat)
      modifies this
      ensures (State(), Removed(removed)) == Next(old(State()), Prune(now))
    {
      hide Kept, Missing;
      var first, second;
      bootstrap, first := PruneStore(bootstrap, now);
      peers, second := PruneStore(peers, now);
      removed := first + second;
    }
  }

  // ---------------------------------------------------------------- runs

  /** The readings of a call do not lie before `from`, nor before one another. */
  predicate Timely(op: Op, from: real) {
    match op
    case Revoke(_) => true
    case Refresh(_, _, now, later) => from <= now <= later
    case _ => from <= op.now
  }

  function Clock(op: Op, from: real): real {
    match op
    case Revoke(_) => from
    case Refresh(_, _, _, later) => later
    case _ => op.now
  }

  /** The clock never falls back during the run. */
  predicate ClockRuns(ops: seq<Op>, from: real) {
    ops == [] || (Timely(ops[0], from) && ClockRuns(ops[1..], Clock(ops[0], from)))
  }

  /** What the callers are told; a prune reports to nobody. */
  function Answers(t: Tokens, ops: seq<Op>): seq<Answer>
    decreases |ops|
  {
    if ops == [] then []
    else
      var (u, answer) := Next(t, ops[0]);
      (if ops[0].Prune? then [] else [answer]) + Answers(u, ops[1..])
  }

  function Unpruned(ops: seq<Op>): seq<Op> {
    if ops == [] then [] else (if ops[0].Prune? then [] else [ops[0]]) + Unpruned(ops[1..])
  }

  /** `p` is `f` without some of its entries, all of which have expired by `now`. */
  ghost predicate Thinned(p: Store, f: Store, now: real) {
    && (forall k :: k in p ==> k in f && p[k] == f[k])
    && (forall k :: k in f && k !in p ==> Expired(f[k], now))
  }

  ghost predicate ThinnedTokens(p: Tokens, f: Tokens, now: real) {
    Thinned(p.bootstrap, f.bootstrap, now) && Thinned(p.peers, f.peers, now)
  }

  lemma PruneThins(p: Tokens, f: Tokens, from: real, now: real)
    requires ThinnedTokens(p, f, from) && from <= now
    ensures ThinnedTokens(PruneSpec(p, now), f, now)
  {
  }

  lemma SameLive(p: Store, f: Store, token: string, from: real, now: real)
    requires Thinned(p, f, from) && from <= now
    ensures Live(p, token, now) == Live(f, token, now)
    ensures Live(p, token, now) ==> token in p && p[token] == f[token]
    ensures Thinned(p, f, now)
  {
  }

  lemma SetThinned(p: Store, f: Store, token: string, e: Entry, now: real)
    requires Thinned(p, f, now)
    ensures Thinned(p[token := e], f[token := e], now)
    ensures Thinned(p - {token}, f - {token}, now)
  {
  }

  lemma StoresThinned(p: Tokens, f: Tokens, now: real, later: real)
    requires ThinnedTokens(p, f, now) && now <= later
    ensures Thinned(p.bootstrap, f.bootstrap, later) && Thinned(p.peers, f.peers, later)
  {
  }

  /** A thinned store answers like the whole one and stays a thinned one. */
  lemma StepThinned(p: Tokens, f: Tokens, op: Op, from: real)
    requires ThinnedTokens(p, f, from) && Timely(op, from) && !op.Prune?
    ensures Next(p, op).1 == Next(f, op).1
    ensures ThinnedTokens(Next(p, op).0, Next(f, op).0, Clock(op, from))
  {
    hide Thinned, Live, Missing, Kept;
    StoresThinned(p, f, from, Clock(op, from));
    match op
    case IssueBootstrap(token, ttl, claims, now) =>
      SetThinned(p.bootstrap, f.bootstrap, token, Entry(now + ttl as real, false, None, claims), now);
    case IssuePeer(token, peerId, ttl, now) =>
      SetThinned(p.peers, f.peers, token, Entry(now + ttl as real, false, Some(peerId), map[]), now);
    case Consume(token, now) =>
      SameLive(p.bootstrap, f.bootstrap, token, from, now);
      if Live(p.bootstrap, token, now) {
        SetThinned(p.bootstrap, f.bootstrap, token, p.bootstrap[token].(used := true), now);
      }
    case Verify(token, now) => SameLive(p.peers, f.peers, token, from, now);
    case Refresh(token, ttl, now, later) =>
      SameLive(p.peers, f.peers, token, from, now);
      if Live(p.peers, token, now) {
        SetThinned(p.peers, f.peers, token, p.peers[token].(expiresAt := later + ttl as real), later);
      }
    case Revoke(token) => SetThinned(p.peers, f.peers, token, Entry(from, false, None, map[]), from);
  }

  lemma {:induction false} ThinnedAnswers(p: Tokens, f: Tokens, ops: seq<Op>, from: real)
    requires ThinnedTokens(p, f, from) && ClockRuns(ops, from)
    ensures Answers(p, ops) == Answers(f, Unpruned(ops))
    decreases |ops|
  {
    hide Next, ThinnedTokens, Timely, Clock;
    if ops != [] {
      var op := ops[0];
      if op.Prune? {
        PruneStep(p, f, op, from);
        ThinnedAnswers(Next(p, op).0, f, ops[1..], Clock(op, from));
        assert Unpruned(ops) == Unpruned(ops[1..]);
      } else {
        StepThinned(p, f, op, from);
        ThinnedAnswers(Next(p, op).0, Next(f, op).0, ops[1..], Clock(op, from));
        assert Unpruned(ops) == [op] + Unpruned(ops[1..]);
        assert Unpruned(ops)[1..] == Unpruned(ops[1..]);
      }
    }
  }

  lemma PruneStep(p: Tokens, f: Tokens, op: Op, from: real)
    requires ThinnedTokens(p, f, from) && Timely(op, from) && op.Prune?
    ensures ThinnedTokens(Next(p, op).0, f, Clock(op, from))
  {
    hide ThinnedTokens, PruneSpec;
    PruneThins(p, f, from, op.now);
  }

  /** Under a clock that never falls back, a run with prunes anywhere in it answers as the run without them. */
  lemma PruneInvisible(t: Tokens, ops: seq<Op>, from: real)
    requires ClockRuns(ops, from)
    ensures Answers(t, ops) == Answers(t, Unpruned(ops))
  {
    hide Answers, ClockRuns;
    assert ThinnedTokens(t, t, from);
    ThinnedAnswers(t, t, ops, from);
  }

  /** A prune at `swept` changes the answer of a later check exactly if the clock fell back over the token's end. */
  lemma PruneSeen(t: Tokens, token: string, swept: real, now: real)
    requires token in t.peers && t.peers[token].peerId.Some?
    ensures VerifySpec(PruneSpec(t, swept), token, now) != VerifySpec(t, token, now)
            <==> now <= t.peers[token].expiresAt < swept
  {
    assert token in Kept(t.peers, swept) <==> !Expired(t.peers[token], swept);
  }

  /** The same for a bootstrap token that has not been used. */
  lemma PruneSeenByConsume(t: Tokens, token: string, swept: real, now: real)
    requires token in t.bootstrap
    ensures ConsumeSpec(PruneSpec(t, swept), token, now).1 != ConsumeSpec(t, token, now).1
            <==> !t.bootstrap[token].used && now <= t.bootstrap[token].expiresAt < swept
  {
    assert token in Kept(t.bootstrap, swept) <==> !Expired(t.bootstrap[token], swept);
  }

  // ---------------------------------------------------------------- answers from the history

  function RunAll(t: Tokens, ops: seq<Op>): Tokens
    decreases |ops|
  {
    if ops == [] then t else RunAll(Next(t, ops[0]).0, ops[1..])
  }

  function ClockAfter(ops: seq<Op>, from: real): real {
    if ops == [] then from else ClockAfter(ops[1..], Clock(ops[0], from))
  }

  /** The peer and the end of a peer token, as its issues, refreshes and revocations in the run say; prunes are ignored. */
  function PeerGrant(g: Option<(string, real)>, ops: seq<Op>, token: string): Option<(string, real)>
    decreases |ops|
  {
    if ops == [] then g else PeerGrant(GrantStep(g, ops[0], token), ops[1..], token)
  }

  function GrantStep(g: Option<(string, real)>, op: Op, token: string): Option<(string, real)> {
    match op
    case IssuePeer(x, peerId, ttl, now) => if x == token then Some((peerId, now + ttl as real)) else g
    case Refresh(x, ttl, now, later) => if x == token && g.Some? && now <= g.value.1 then Some((g.value.0, later + ttl as real)) else g
    case Revoke(x) => if x == token then None else g
    case _ => g
  }

  /** The claims and the end of a bootstrap token that was issued and not consumed since. */
  function Pass(g: Option<(Dict, real)>, ops: seq<Op>, token: string): Option<(Dict, real)>
    decreases |ops|
  {
    if ops == [] then g else Pass(PassStep(g, ops[0], token), ops[1..], token)
  }

  function PassStep(g: Option<(Dict, real)>, op: Op, token: string): Option<(Dict, real)> {
    match op
    case IssueBootstrap(x, ttl, claims, now) => if x == token then Some((claims, now + ttl as real)) else g
    case Consume(x, now) => if x == token && g.Some? && now <= g.value.1 then None else g
    case _ => g
  }

  /** The store says the same of a token as the history, but for what has run out. */
  ghost predicate GrantKept(t: Tokens, g: Option<(string, real)>, token: string, now: real) {
    if token in t.peers then g.Some? && t.peers[token].peerId == Some(g.value.0) && t.peers[token].expiresAt == g.value.1
    else g.None? || g.value.1 < now
  }

  ghost predicate PassKept(t: Tokens, g: Option<(Dict, real)>, token: string, now: real) {
    if token in t.bootstrap then
      (t.bootstrap[token].used ==> g.None?) && (!t.bootstrap[token].used ==> g == Some((t.bootstrap[token].claims, t.bootstrap[token].expiresAt)))
    else g.None? || g.value.1 < now
  }

  lemma GrantKeptStep(t: Tokens, g: Option<(string, real)>, op: Op, token: string, from: real)
    requires GrantKept(t, g, token, from) && Timely(op, from)
    ensures GrantKept(Next(t, op).0, GrantStep(g, op, token), token, Clock(op, from))
  {
    hide Missing;
  }

  lemma PassKeptStep(t: Tokens, g: Option<(Dict, real)>, op: Op, token: string, from: real)
    requires PassKept(t, g, token, from) && Timely(op, from)
    ensures PassKept(Next(t, op).0, PassStep(g, op, token), token, Clock(op, from))
  {
    hide Missing;
  }

  lemma {:induction false} KeptThroughout(t: Tokens, g: Option<(string, real)>, p: Option<(Dict, real)>, ops: seq<Op>, token: string, from: real)
    requires GrantKept(t, g, token, from) && PassKept(t, p, token, from) && ClockRuns(ops, from)
    ensures GrantKept(RunAll(t, ops), PeerGrant(g, ops, token), token, ClockAfter(ops, from))
    ensures PassKept(RunAll(t, ops), Pass(p, ops, token), token, ClockAfter(ops, from))
    decreases |ops|
  {
    hide Next, GrantStep, PassStep, GrantKept, PassKept, Timely, Clock;
    if ops != [] {
      GrantKeptStep(t, g, ops[0], token, from);
      PassKeptStep(t, p, ops[0], token, from);
      KeptThroughout(Next(t, ops[0]).0, GrantStep(g, ops[0], token), PassStep(p, ops[0], token), ops[1..], token, Clock(ops[0], from));
    }
  }

  /**
   From start-up, whatever was called and pruned, a token is answered for by its own history alone: a
   check names the granted peer exactly until the grant ends, and a bootstrap token is accepted exactly
   until its pass ends, with the claims it was issued for, and once.
   */
  lemma AnswersFromHistory(ops: seq<Op>, from: real, token: string, now: real)
    requires ClockRuns(ops, from) && ClockAfter(ops, from) <= now
    ensures var t := RunAll(Tokens(map[], map[]), ops);
            var g, p := PeerGrant(None, ops, token), Pass(None, ops, token);
            && VerifySpec(t, token, now) == (if g.Some? && now <= g.value.1 then Some(g.value.0) else None)
            && ConsumeSpec(t, token, now).1 == (if p.Some? && now <= p.value.1 then Some(p.value.0) else None)
  {
    hide RunAll, PeerGrant, Pass, ClockRuns, ClockAfter;
    KeptThroughout(Tokens(map[], map[]), None, None, ops, token, from);
  }
}
