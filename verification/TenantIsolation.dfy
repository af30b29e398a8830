/** The cache as the gateway uses it: requests become lookups and stored responses. No
    request is answered with a response stored for another tenant. */
module TenantIsolation {
  import opened CacheHits
  import opened CacheKeys
  import opened CacheRun
  import opened CacheSearch
  import opened CacheTheorems
  import opened PartitionedIndex
  import opened SemanticCache
  import opened Wrappers

  /** What `RequestContext` holds of a request. */
  datatype Context = Context(
    tenant: string, chat: Request, model: string, temperature: Option<real>, stream: bool, hasTools: bool)

  datatype Policy = Policy(enabled: bool, skipModels: set<string>, maxTemperature: real, skipStreaming: bool)

  /** `resolves` tells whether a conversation id resolver is injected. */
  datatype Gateway = Gateway(
    sha: string -> string, mode: HashMode, summarize: Option<seq<Message> -> string>, resolves: bool, policy: Policy)

  predicate ShouldCache(p: Policy, x: Context) {
    p.enabled ==>
      && x.model !in p.skipModels
      && !(x.temperature.Some? && x.temperature.value > p.maxTemperature)
      && !(p.skipStreaming && x.stream)
  }

  /** The content of the last user message. */
  function PromptOf(messages: seq<Message>): string {
    if messages == [] then ""
    else if messages[|messages| - 1].role == "user" then messages[|messages| - 1].content
    else PromptOf(messages[..|messages| - 1])
  }

  function ConversationOf(g: Gateway, x: Context): string {
    if g.resolves then Resolve(g.sha, x.chat) else ""
  }

  function KeyFor(g: Gateway, x: Context): string {
    KeyOf(g.sha, g.mode, g.summarize, x.chat.messages, x.tenant, ConversationOf(g, x))
  }

  /** `process`: the lookup that a request makes, if any. */
  function Lookups(g: Gateway, x: Context): Option<Query> {
    if x.chat.messages == [] || x.hasTools || !ShouldCache(g.policy, x) then None
    else if PromptOf(x.chat.messages) == "" then None
    else Some(Query(PromptOf(x.chat.messages), x.model, KeyFor(g, x)))
  }

  /** `finalizeNonStreamingResponse` and `putFromContext`: what is stored of the response
      that the target model gave to a request, if anything. */
  function Stores(g: Gateway, x: Context, response: string, target: string): Option<Put> {
    if x.chat.messages == [] || x.hasTools then None
    else if g.policy.enabled && target in g.policy.skipModels then None
    else if PromptOf(x.chat.messages) == "" then None
    else Some(Put(PromptOf(x.chat.messages), response, target, KeyFor(g, x)))
  }

  // ---------------------------------------------------------------- runs of the gateway

  ghost predicate FromStore(g: Gateway, put: Put) {
    exists x, response, target :: Stores(g, x, response, target) == Some(put)
  }

  ghost predicate FromLookup(g: Gateway, q: Query) {
    exists x :: Lookups(g, x) == Some(q)
  }

  ghost predicate OpFrom(g: Gateway, op: Op) {
    && (IsPut(op) ==> FromStore(g, op.put))
    && (op.GetReady? || op.GetFound? ==> FromLookup(g, op.q))
  }

  ghost predicate EventFrom(g: Gateway, e: Event) {
    && (e.Stored? ==> FromStore(g, e.put))
    && (e.Served? ==> FromLookup(g, e.q))
  }

  /** Every lookup and every stored response of the run is that of some request. */
  ghost predicate ByRequests(g: Gateway, actions: seq<Action>) {
    forall a <- actions :: a.Begin? ==> OpFrom(g, a.op)
  }

  ghost predicate AllFrom(g: Gateway, s: State) {
    (forall t <- s.ops :: OpFrom(g, s.ops[t])) && (forall e <- s.log :: EventFrom(g, e))
  }

  lemma AllFromStays(g: Gateway, s: State, s': State, t: nat, e: Event)
    requires AllFrom(g, s) && SameOpsBut(s.ops, s'.ops, t) && (t in s'.ops ==> OpFrom(g, s'.ops[t]))
    requires s'.log == s.log || (s'.log == s.log + [e] && EventFrom(g, e))
    ensures AllFrom(g, s')
  {
  }

  lemma LockedShape(cfg: Config, s: State, t: nat)
    requires Enabled(cfg, s, Locked(t))
    ensures var s' := Step(cfg, s, Locked(t));
            && SameOpsBut(s.ops, s'.ops, t)
            && (t in s'.ops ==>
                  || s'.ops[t].Flush?
                  || (s'.ops[t].PutFlush? && s.ops[t].PutReady? && s'.ops[t].put == s.ops[t].put))
            && (s'.log != s.log ==>
                  && |s'.log| == |s.log| + 1 && s'.log == s.log + [s'.log[|s.log|]]
                  && var e := s'.log[|s.log|];
                     && (e.Stored? ==> s.ops[t].PutInserted? && e.put == s.ops[t].put)
                     && (e.Served? ==> s.ops[t].GetFound? && e.q == s.ops[t].q))
  {
  }

  lemma LockedKeepsOrigins(cfg: Config, g: Gateway, s: State, t: nat)
    requires AllFrom(g, s) && Enabled(cfg, s, Locked(t))
    ensures AllFrom(g, Step(cfg, s, Locked(t)))
  {
    var s' := Step(cfg, s, Locked(t));
    LockedShape(cfg, s, t);
    assert OpFrom(g, s.ops[t]);
    AllFromStays(g, s, s', t, if s'.log == s.log then Gone({}) else s'.log[|s.log|]);
  }

  lemma StepKeepsOrigins(cfg: Config, g: Gateway, s: State, a: Action)
    requires AllFrom(g, s) && Enabled(cfg, s, a) && (a.Begin? ==> OpFrom(g, a.op))
    ensures AllFrom(g, Step(cfg, s, a))
  {
    if a.Locked? {
      LockedKeepsOrigins(cfg, g, s, a.t);
    } else if !a.Tick? {
      assert !a.Begin? ==> OpFrom(g, s.ops[a.t]);
      AllFromStays(g, s, Step(cfg, s, a), a.t, Gone({}));
    }
  }

  lemma {:induction false} RunKeepsOrigins(cfg: Config, g: Gateway, s: State, actions: seq<Action>)
    requires AllFrom(g, s) && IsRun(cfg, s, actions) && ByRequests(g, actions)
    ensures AllFrom(g, End(cfg, s, actions))
    decreases |actions|
  {
    if actions != [] {
      assert actions[0] in actions;
      StepKeepsOrigins(cfg, g, s, actions[0]);
      RunKeepsOrigins(cfg, g, Step(cfg, s, actions[0]), actions[1..]);
    }
  }

  // ---------------------------------------------------------------- isolation

  function FieldsFor(g: Gateway, x: Context): Fields {
    FieldsOf(g.sha, g.mode, g.summarize, x.chat.messages, x.tenant, ConversationOf(g, x))
  }

  /** Two requests of one tenant, with the same conversation id, the same first system prompt
      and the same earlier messages as far as the mode looks, or else a collision of SHA-256
      on two named texts. */
  ghost predicate SameOwner(g: Gateway, x: Context, y: Context) {
    || Collide(g.sha, Blob(FieldsFor(g, x)), Blob(FieldsFor(g, y)))
    || (&& x.tenant == y.tenant
        && ConversationOf(g, x) == ConversationOf(g, y)
        && (g.resolves ==> SameResolved(g.sha, x.chat, y.chat))
        && SameSystem(g.sha, x.chat.messages, y.chat.messages)
        && SameConversation(g.sha, g.mode, g.summarize, x.chat.messages, y.chat.messages))
  }

  lemma SameKeySameOwner(g: Gateway, x: Context, y: Context)
    requires HexDigest(g.sha) && x.chat.messages != [] && y.chat.messages != [] && KeyFor(g, x) == KeyFor(g, y)
    ensures SameOwner(g, x, y)
  {
    ResolvedIdHasNoSeparator(g.sha, x.chat);
    ResolvedIdHasNoSeparator(g.sha, y.chat);
    KeyTellsMessages(g.sha, g.mode, g.summarize, x.chat.messages, x.tenant, ConversationOf(g, x),
                     y.chat.messages, y.tenant, ConversationOf(g, y));
    if g.resolves && ConversationOf(g, x) == ConversationOf(g, y) {
      ResolvedIdTells(g.sha, x.chat, y.chat);
    }
  }

  /** The hit at position `i` returns what the put at position `j` stored, some requests made
      the lookup and the put, and all requests that could have made them have one owner. */
  ghost predicate WithinOwner(cfg: Config, g: Gateway, log: seq<Event>, i: int, j: int) {
    && EarnedBy(cfg, log, i, j)
    && FromLookup(g, log[i].q) && FromStore(g, log[j].put)
    && forall x, y, response, target ::
         Lookups(g, x) == Some(log[i].q) && Stores(g, y, response, target) == Some(log[j].put)
         ==> SameOwner(g, x, y) && response == log[i].response
  }

  /** In every run of lookups and puts that requests make, each hit for a request returns
      the response that was stored for a request of the same tenant, with the same
      conversation id, the same first system prompt and the same earlier messages, unless
      SHA-256 collides on two named texts. */
  lemma HitsStayWithinTenant(cfg: Config, g: Gateway, actions: seq<Action>, i: nat)
    requires HexDigest(g.sha) && IsRun(cfg, INITIAL, actions) && ByRequests(g, actions)
    requires i < |End(cfg, INITIAL, actions).log| && End(cfg, INITIAL, actions).log[i].Served?
    ensures exists j :: WithinOwner(cfg, g, End(cfg, INITIAL, actions).log, i, j)
  {
    HitsAreEarned(cfg, actions);
    RunKeepsOrigins(cfg, g, INITIAL, actions);
    var log := End(cfg, INITIAL, actions).log;
    var j :| EarnedBy(cfg, log, i, j);
    assert log[i] in log && log[j] in log;
    forall x, y, response, target |
      Lookups(g, x) == Some(log[i].q) && Stores(g, y, response, target) == Some(log[j].put)
      ensures SameOwner(g, x, y)
    {
      SameKeySameOwner(g, x, y);
    }
    assert WithinOwner(cfg, g, log, i, j);
  }

  // ---------------------------------------------------------------- asking again

  /** `c` is the content of the last user message. */
  ghost predicate LastUser(messages: seq<Message>, c: string) {
    exists i :: 0 <= i < |messages| && messages[i] == Message("user", c)
                && forall j | i < j < |messages| :: messages[j].role != "user"
  }

  lemma {:induction false} PromptIs(messages: seq<Message>, c: string)
    requires LastUser(messages, c)
    ensures PromptOf(messages) == c
    decreases |messages|
  {
    var n := |messages| - 1;
    var i :| 0 <= i < |messages| && messages[i] == Message("user", c)
             && forall j | i < j < |messages| :: messages[j].role != "user";
    if i < n {
      assert messages[..n][i] == Message("user", c);
      PromptIs(messages[..n], c);
    }
  }

  lemma {:induction false} NoPrompt(messages: seq<Message>)
    requires forall m <- messages :: m.role != "user"
    ensures PromptOf(messages) == ""
    decreases |messages|
  {
    if messages != [] {
      assert messages[|messages| - 1] in messages;
      NoPrompt(messages[..|messages| - 1]);
    }
  }

  /** Whether a request is looked up: no tools, a user message, and a policy that is off or
      that neither the model, nor the temperature, nor streaming violates. */
  ghost predicate Cacheable(g: Gateway, x: Context, c: string) {
    && LastUser(x.chat.messages, c) && c != "" && !x.hasTools
    && (!g.policy.enabled ||
        (&& x.model !in g.policy.skipModels
         && (x.temperature == None || x.temperature.value <= g.policy.maxTemperature)
         && (!g.policy.skipStreaming || !x.stream)))
  }

  lemma LookedUpIff(g: Gateway, x: Context)
    ensures Lookups(g, x).Some? <==> exists c :: Cacheable(g, x, c)
    ensures forall c :: Cacheable(g, x, c) ==> Lookups(g, x).Some? && Lookups(g, x).value.prompt == c
  {
    forall c | LastUser(x.chat.messages, c) ensures PromptOf(x.chat.messages) == c {
      PromptIs(x.chat.messages, c);
    }
    if Lookups(g, x).Some? {
      LastUserExists(x.chat.messages);
      assert Cacheable(g, x, PromptOf(x.chat.messages));
    }
  }

  lemma {:induction false} LastUserExists(messages: seq<Message>)
    requires PromptOf(messages) != ""
    ensures LastUser(messages, PromptOf(messages))
    decreases |messages|
  {
    var n := |messages| - 1;
    if messages[n].role == "user" {
      assert messages[n] == Message("user", messages[n].content);
    } else {
      LastUserExists(messages[..n]);
      var i :| 0 <= i < n && messages[..n][i] == Message("user", PromptOf(messages))
               && forall j | i < j < n :: messages[..n][j].role != "user";
      assert forall j | i < j < n :: messages[j] == messages[..n][j];
    }
  }

  /** What is stored of a response: without tools, for a request with a user message, unless the
      policy skips the target model. */
  lemma StoredIff(g: Gateway, x: Context, response: string, target: string)
    ensures Stores(g, x, response, target).Some? <==>
              && (exists c :: LastUser(x.chat.messages, c) && c != "") && !x.hasTools
              && !(g.policy.enabled && target in g.policy.skipModels)
  {
    forall c | LastUser(x.chat.messages, c) ensures PromptOf(x.chat.messages) == c {
      PromptIs(x.chat.messages, c);
    }
    if PromptOf(x.chat.messages) != "" {
      LastUserExists(x.chat.messages);
    }
  }

  /** Two requests for which an entry is meant to be shared: the same tenant, prompt `c` and
      system prompt `p`, and the same earlier messages as far as the mode looks; when a resolver
      is installed, also the same client id and all earlier messages. */
  ghost predicate Alike(g: Gateway, x: Context, y: Context, c: string, p: string) {
    var a, b := x.chat.messages, y.chat.messages;
    && x.tenant == y.tenant && LastUser(a, c) && LastUser(b, c)
    && FirstSystem(a, p) && FirstSystem(b, p)
    && SameEarlier(g.mode, a, b) && (g.mode == Window(0) ==> (Earlier(a) == 0 <==> Earlier(b) == 0))
    && (g.resolves ==>
          && x.chat.clientId == y.chat.clientId
          && SameEarlier(Full, a, b) && (|a| == 1 <==> |b| == 1))
  }

  lemma AlikeShareKey(g: Gateway, x: Context, y: Context, c: string, p: string)
    requires Alike(g, x, y, c, p)
    ensures KeyFor(g, x) == KeyFor(g, y)
  {
    var a, b := x.chat.messages, y.chat.messages;
    if g.resolves {
      assert |a| == 1 ==> a == [Message("user", c)] && b == [Message("user", c)];
      AgreeingRequestsShareId(g.sha, x.chat, y.chat);
    }
    AgreeingRequestsShareKey(g.sha, g.mode, g.summarize, a, b, x.tenant, ConversationOf(g, x), p);
  }

  /** What is stored for a request suits every request alike to it, as long as the entry lives,
      its model is compatible and a text is similar enough to itself. */
  lemma AlikeRequestsSuit(
    cfg: Config, g: Gateway, s: State, x: Context, y: Context, c: string, p: string,
    response: string, target: string, id: Id)
    requires Cacheable(g, x, c) && Cacheable(g, y, c) && Alike(g, x, y, c, p)
    requires g.policy.enabled ==> target !in g.policy.skipModels
    ensures Stores(g, x, response, target).Some? && Lookups(g, y).Some?
    ensures var put, q := Stores(g, x, response, target).value, Lookups(g, y).value;
            && id in s.cache.entries && s.cache.entries[id].put == put
            && s.now - s.cache.entries[id].createdAt <= cfg.limits.ttl && Compatible(y.model, target)
            && cfg.score(cfg.embed(c), cfg.embed(c)) >= cfg.threshold
            ==> Suits(cfg, s, q, id)
  {
    PromptIs(x.chat.messages, c);
    PromptIs(y.chat.messages, c);
    AlikeShareKey(g, x, y, c, p);
  }

  /** The partner of isolation: what is stored for a request suits the same request when it
      comes again, as long as the entry lives, its model is compatible and a text is similar
      enough to itself. */
  lemma RepeatedRequestSuits(cfg: Config, g: Gateway, s: State, x: Context, c: string, response: string, target: string, id: Id)
    requires Cacheable(g, x, c) && (g.policy.enabled ==> target !in g.policy.skipModels)
    ensures Stores(g, x, response, target).Some? && Lookups(g, x).Some?
    ensures var put, q := Stores(g, x, response, target).value, Lookups(g, x).value;
            && put.response == response && put.model == target && q.model == x.model
            && (&& id in s.cache.entries && s.cache.entries[id].put == put
                && s.now - s.cache.entries[id].createdAt <= cfg.limits.ttl && Compatible(x.model, target)
                && cfg.score(cfg.embed(c), cfg.embed(c)) >= cfg.threshold
                ==> Suits(cfg, s, q, id))
  {
    PromptIs(x.chat.messages, c);
  }
}
