/** The bearer-token cache that all Kubernetes clients of a process share, and the hook
    that each client runs before a request. Times are in seconds. */
module TokenCache {
  import opened Options

  const REFRESH_EARLY_SECONDS := 60
  const EFFECTIVE_TOKEN_TTL := 14 * 60

  /** A signed token; what matters of it is when it was signed. */
  datatype Token = Token(mintedAt: int)

  datatype Cached = Cached(token: Token, expiresAt: int)

  /** The shared cache and the key each client holds. */
  datatype Keys = Keys(cache: Option<Cached>, held: map<nat, Token>)

  /** Signing starts at one time and the clock is read again when it is done. */
  datatype Minting = Minting(signed: int, done: int)

  class Clients {
    var tokenCache: Option<Cached>
    var apiKey: map<nat, Token>

    ghost function View(): Keys
      reads this
    {
      Keys(tokenCache, apiKey)
    }

    constructor ()
      ensures View() == Keys(None, map[])
    {
      tokenCache, apiKey := None, map[];
    }

    /** setup_kubernetes_client: a fresh token for the new client and for the cache. */
    method Setup(client: nat, m: Minting)
      modifies this
      ensures View() == AfterSetup(old(View()), client, m)
    {
      var initial := Token(m.signed);
      apiKey := apiKey[client := initial];
      tokenCache := Some(Cached(initial, m.done + EFFECTIVE_TOKEN_TTL));
    }

    /** The refresh hook: nothing while the cached token is far from its end, else a new token. */
    method Refresh(client: nat, now: int, m: Minting)
      modifies this
      ensures View() == AfterRefresh(old(View()), client, now, m)
    {
      if tokenCache.Some? && now < tokenCache.value.expiresAt - REFRESH_EARLY_SECONDS {
        return;
      }
      var newToken := Token(m.signed);
      tokenCache := Some(Cached(newToken, m.done + EFFECTIVE_TOKEN_TTL));
      apiKey := apiKey[client := newToken];
    }
  }

  function Minted(s: Keys, client: nat, m: Minting): Keys {
    Keys(Some(Cached(Token(m.signed), m.done + EFFECTIVE_TOKEN_TTL)), s.held[client := Token(m.signed)])
  }

  function AfterSetup(s: Keys, client: nat, m: Minting): Keys {
    Minted(s, client, m)
  }

  predicate CacheServes(s: Keys, now: int) {
    s.cache.Some? && now < s.cache.value.expiresAt - REFRESH_EARLY_SECONDS
  }

  function AfterRefresh(s: Keys, client: nat, now: int, m: Minting): Keys {
    if CacheServes(s, now) then s else Minted(s, client, m)
  }

  // ----- runs

  datatype Event = NewClient(client: nat, m: Minting) | Request(client: nat, now: int, m: Minting)

  function Next(s: Keys, ev: Event): Keys {
    match ev
    case NewClient(c, m) => AfterSetup(s, c, m)
    case Request(c, now, m) => AfterRefresh(s, c, now, m)
  }

  function Run(events: seq<Event>): Keys {
    if events == [] then Keys(None, map[]) else Next(Run(events[..|events| - 1]), events[|events| - 1])
  }

  /** Minting takes from 0 to latency seconds, and starts no earlier than the request. */
  predicate Timed(ev: Event, latency: nat) {
    ev.m.signed <= ev.m.done <= ev.m.signed + latency && (ev.Request? ==> ev.now <= ev.m.signed)
  }

  predicate AllTimed(events: seq<Event>, latency: nat) {
    forall i :: 0 <= i < |events| ==> Timed(events[i], latency)
  }

  // ----- who minted what, told from the events alone

  datatype Mint = Mint(client: nat, m: Minting)

  /** A new client mints; a request mints when nobody has, or when 780 seconds have passed since the
      last minting was done. */
  predicate Mints(last: Option<Mint>, ev: Event) {
    ev.NewClient? || last.None? || ev.now >= last.value.m.done + 780
  }

  function LastMint(events: seq<Event>): Option<Mint> {
    if events == [] then None
    else
      var last, ev := LastMint(events[..|events| - 1]), events[|events| - 1];
      if Mints(last, ev) then Some(Mint(ev.client, ev.m)) else last
  }

  /** The last minting of one client. */
  function OwnMint(events: seq<Event>, client: nat): Option<Minting> {
    if events == [] then None
    else
      var front, ev := events[..|events| - 1], events[|events| - 1];
      if ev.client == client && Mints(LastMint(front), ev) then Some(ev.m) else OwnMint(front, client)
  }

  /** The cache holds the token minted last, whoever minted it; each client holds the token it minted
      last itself; and the client that minted last holds the cached token. */
  ghost predicate Explained(events: seq<Event>) {
    var s, last := Run(events), LastMint(events);
    && s.cache == (if last.None? then None
                   else Some(Cached(Token(last.value.m.signed), last.value.m.done + 840)))
    && (forall c: nat :: c in s.held <==> OwnMint(events, c).Some?)
    && (forall c: nat :: c in s.held ==> s.held[c] == Token(OwnMint(events, c).value.signed))
    && (last.Some? ==> OwnMint(events, last.value.client) == Some(last.value.m))
  }

  lemma {:induction false} RunExplained(events: seq<Event>)
    ensures Explained(events)
    decreases |events|
  {
    if events != [] { RunExplained(events[..|events| - 1]); }
  }

  /** The time the key was signed that a client sends with a request. */
  function SentKey(events: seq<Event>, client: nat, now: int, m: Minting): Option<int> {
    var s := AfterRefresh(Run(events), client, now, m);
    if client in s.held then Some(s.held[client].mintedAt) else None
  }

  /** A token is good for 900 seconds after it was signed. */
  predicate Expired(key: Option<int>, now: int) {
    key.Some? && now - key.value >= 900
  }

  lemma {:induction false} MintsTimed(events: seq<Event>, client: nat, latency: nat)
    requires AllTimed(events, latency)
    ensures LastMint(events).Some? ==>
              var m := LastMint(events).value.m; m.signed <= m.done <= m.signed + latency
    decreases |events|
  {
    if events != [] { MintsTimed(events[..|events| - 1], client, latency); }
  }

  /** A request goes out with an expired key exactly when somebody's minting was done less than 780
      seconds ago while the client's own last minting was signed at least 900 seconds ago. */
  lemma {:induction false} ExpiredIff(events: seq<Event>, client: nat, now: int, m: Minting)
    requires now <= m.signed && OwnMint(events, client).Some?
    ensures SentKey(events, client, now, m).Some?
    ensures Expired(SentKey(events, client, now, m), now) <==>
            && now < LastMint(events).value.m.done + 780
            && now >= OwnMint(events, client).value.signed + 900
  {
    RunExplained(events);
    OwnMintLast(events, client);
  }

  lemma {:induction false} OwnMintLast(events: seq<Event>, client: nat)
    requires OwnMint(events, client).Some?
    ensures LastMint(events).Some?
    decreases |events|
  {
    if events != [] && !Mints(LastMint(events[..|events| - 1]), events[|events| - 1]) {
      OwnMintLast(events[..|events| - 1], client);
    }
  }

  /** The client that minted last, or that mints on this request, sends a key younger than 780 seconds
      plus the minting latency. */
  lemma {:induction false} LastMinterFresh(events: seq<Event>, client: nat, now: int, m: Minting, latency: nat)
    requires AllTimed(events, latency) && Timed(Request(client, now, m), latency)
    requires var last := LastMint(events + [Request(client, now, m)]); last.Some? && last.value.client == client
    ensures var key := SentKey(events, client, now, m);
            key.Some? && now - key.value < 780 + latency
  {
    var all := events + [Request(client, now, m)];
    assert all[..|all| - 1] == events && all[|all| - 1] == Request(client, now, m);
    RunExplained(events);
    MintsTimed(events, client, latency);
  }

  /** Every event of the run is about one client. */
  predicate OnlyClient(events: seq<Event>, client: nat) {
    forall i :: 0 <= i < |events| ==> events[i].client == client
  }

  lemma {:induction false} OneClientMints(events: seq<Event>, client: nat)
    requires OnlyClient(events, client)
    ensures LastMint(events).Some? ==> LastMint(events).value.client == client
    decreases |events|
  {
    if events != [] { OneClientMints(events[..|events| - 1], client); }
  }

  /** With one client its key is the cached token in every state. */
  lemma {:induction false} OneClientInStep(events: seq<Event>, client: nat)
    requires OnlyClient(events, client) && Run(events).cache.Some?
    ensures client in Run(events).held && Run(events).held[client] == Run(events).cache.value.token
  {
    RunExplained(events);
    OneClientMints(events, client);
  }

  /** With one client every request has a key younger than 780 seconds plus the minting latency: below
      the 900 seconds of a token when minting takes no more than two minutes. */
  lemma {:induction false} OneClientSafe(events: seq<Event>, client: nat, now: int, m: Minting, latency: nat)
    requires OnlyClient(events, client) && AllTimed(events, latency) && Timed(Request(client, now, m), latency)
    ensures var key := SentKey(events, client, now, m);
            && key.Some? && now - key.value < 780 + latency
            && (latency <= 120 ==> !Expired(key, now))
  {
    var all := events + [Request(client, now, m)];
    assert all[..|all| - 1] == events && all[|all| - 1] == Request(client, now, m);
    assert OnlyClient(all, client);
    OneClientMints(all, client);
    LastMinterFresh(events, client, now, m, latency);
  }

  /** Two clients suffice for an expired key: the second can keep the cache serving while the first
      one's key runs out. */
  lemma OtherClientExpires(t: int, latency: nat)
    ensures var events := [NewClient(0, Minting(t, t)), NewClient(1, Minting(t + 600, t + 600))];
            var m := Minting(t + 1000, t + 1000);
            && AllTimed(events, latency) && Timed(Request(0, t + 1000, m), latency)
            && Expired(SentKey(events, 0, t + 1000, m), t + 1000)
  {
    var events := [NewClient(0, Minting(t, t)), NewClient(1, Minting(t + 600, t + 600))];
    var first := events[..1];
    assert first[..0] == [] && first == [NewClient(0, Minting(t, t))];
    assert OwnMint(first, 0) == Some(Minting(t, t));
    assert OwnMint(events, 0) == Some(Minting(t, t));
    assert LastMint(events) == Some(Mint(1, Minting(t + 600, t + 600)));
    ExpiredIff(events, 0, t + 1000, Minting(t + 1000, t + 1000));
  }
}
