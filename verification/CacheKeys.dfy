/** Conversation ids and the tenant-isolated partition key of the cache. Characters stand
    for bytes. SHA-256 is a parameter: nothing is assumed about collisions, so each claim
    names the two inputs that would have to collide for it to fail. */
module CacheKeys {
  import opened Text
  import opened Wrappers

  const FIELD: char := '\U{1F}'
  const RECORD: char := '\U{1E}'
  const GROUP: char := '\U{1D}'
  const SUMMARY: string := [GROUP] + "|summary|"
  const MAX_ID_LEN: nat := 256

  datatype Message = Message(role: string, content: string)
  datatype HashMode = NoHash | Full | Window(size: nat)
  /** `clientId` is the `conversation_id` of the request metadata, if any. */
  datatype Request = Request(messages: seq<Message>, clientId: Option<string>)

  predicate IsHex(c: char) {
    '0' <= c <= '9' || 'a' <= c <= 'f'
  }

  /** What is known of SHA-256: 64 lower-case hex characters. */
  ghost predicate HexDigest(sha: string -> string) {
    forall x :: |sha(x)| == 64 && forall c <- sha(x) :: IsHex(c)
  }

  ghost predicate Collide(sha: string -> string, x: string, y: string) {
    x != y && sha(x) == sha(y)
  }

  // ---------------------------------------------------------------- conversation ids

  predicate Keeps(c: char) {
    c >= ' ' && c != '\U{7F}'
  }

  function Kept(s: string): (r: string)
    ensures forall c <- r :: Keeps(c)
  {
    if s == [] then [] else if Keeps(s[0]) then [s[0]] + Kept(s[1..]) else Kept(s[1..])
  }

  lemma {:induction false} KeptAppend(s: string, c: char)
    ensures Kept(s + [c]) == Kept(s) + if Keeps(c) then [c] else []
  {
    if s != [] {
      assert (s + [c])[1..] == s[1..] + [c];
      KeptAppend(s[1..], c);
    }
  }

  lemma {:induction false} KeptPrefix(s: string, i: nat)
    requires i <= |s|
    ensures Kept(s[..i]) <= Kept(s)
    decreases |s| - i
  {
    if i == |s| {
      assert s[..i] == s;
    } else {
      KeptAppend(s[..i], s[i]);
      assert s[..i] + [s[i]] == s[..i + 1];
      KeptPrefix(s, i + 1);
    }
  }

  /** The printable and high bytes of a client id, at most 256 of them. */
  method SanitizeClientId(raw: string) returns (out: string)
    ensures |out| == if |Kept(raw)| < MAX_ID_LEN then |Kept(raw)| else MAX_ID_LEN
    ensures out <= Kept(raw)
    ensures out == Sanitized(raw)
  {
    out := [];
    var i := 0;
    while i < |raw| && |out| < MAX_ID_LEN
      invariant 0 <= i <= |raw| && |out| <= MAX_ID_LEN
      invariant out == Kept(raw[..i])
    {
      KeptAppend(raw[..i], raw[i]);
      assert raw[..i] + [raw[i]] == raw[..i + 1];
      if Keeps(raw[i]) {
        out := out + [raw[i]];
      }
      i := i + 1;
    }
    KeptPrefix(raw, i);
    assert i == |raw| ==> raw[..i] == raw;
  }

  function Sanitized(raw: string): string {
    var kept := Kept(raw);
    if |kept| < MAX_ID_LEN then kept else kept[..MAX_ID_LEN]
  }

  /** The hashed form of a stretch of conversation. */
  function Body(messages: seq<Message>): string {
    if messages == [] then []
    else
      var last := messages[|messages| - 1];
      Body(messages[..|messages| - 1]) + last.role + [FIELD] + last.content + [RECORD]
  }

  /** Everything but a trailing user message, which is the current turn. */
  function History(messages: seq<Message>): seq<Message> {
    if messages != [] && messages[|messages| - 1].role == "user" then messages[..|messages| - 1] else messages
  }

  method HashHistory(sha: string -> string, messages: seq<Message>) returns (id: string)
    ensures id == HistoryId(sha, messages)
  {
    var combined := "";
    var end := |messages|;
    if end > 0 && messages[end - 1].role == "user" {
      end := end - 1;
    }
    for i := 0 to end
      invariant combined == Body(messages[..i])
    {
      assert messages[..i + 1][..i] == messages[..i];
      combined := combined + messages[i].role + [FIELD] + messages[i].content + [RECORD];
    }
    assert messages[..end] == History(messages);
    var digest := sha(combined);
    id := "hist-" + if |digest| < 32 then digest else digest[..32];
  }

  function Prefix32(s: string): string {
    if |s| < 32 then s else s[..32]
  }

  function HistoryId(sha: string -> string, messages: seq<Message>): string {
    "hist-" + Prefix32(sha(Body(History(messages))))
  }

  function Turn(m: Message): string {
    m.role + ":" + m.content
  }

  function FirstTurnId(sha: string -> string, messages: seq<Message>): string {
    if messages == [] then ""
    else "first-" + Prefix32(sha(Turn(messages[|messages| - 1])))
  }

  function ClientId(r: Request): string {
    if r.clientId.Some? then Sanitized(r.clientId.value) else ""
  }

  function Resolve(sha: string -> string, r: Request): string {
    if r.messages == [] then ""
    else if ClientId(r) != "" then ClientId(r)
    else if |r.messages| >= 2 then HistoryId(sha, r.messages)
    else FirstTurnId(sha, r.messages)
  }

  /** No conversation id the resolver produces contains the field separator. */
  lemma ResolvedIdHasNoSeparator(sha: string -> string, r: Request)
    requires HexDigest(sha)
    ensures FIELD !in Resolve(sha, r)
  {
    assert forall x, c <- sha(x) :: IsHex(c);
    assert !Keeps(FIELD) && !IsHex(FIELD);
  }

  // ---------------------------------------------------------------- partition key

  datatype Fields = Fields(tenant: string, conversation: string, system: string, history: string)

  function Blob(f: Fields): string {
    f.tenant + [FIELD] + f.conversation + [FIELD] + f.system + [FIELD] + f.history
  }

  function PartitionKey(sha: string -> string, f: Fields): string {
    sha(Blob(f))
  }

  function SystemHash(sha: string -> string, messages: seq<Message>): string {
    if messages == [] then ""
    else if messages[0].role == "system" && messages[0].content != "" then sha(messages[0].content)
    else SystemHash(sha, messages[1..])
  }

  function Recent(mode: HashMode, messages: seq<Message>): seq<Message> {
    var history := History(messages);
    if mode.Window? && mode.size < |history| then history[|history| - mode.size..] else history
  }

  /** The text that is hashed of a conversation; `summarize` is the injected summarizer, when
      there is one. */
  function ConversationText(mode: HashMode, summarize: Option<seq<Message> -> string>, messages: seq<Message>): string {
    var recent := Recent(mode, messages);
    var summary := if summarize.Some? then summarize.value(recent) else "";
    Body(recent) + if summary == "" then "" else SUMMARY + summary
  }

  function ConversationHash(
    sha: string -> string, mode: HashMode, summarize: Option<seq<Message> -> string>, messages: seq<Message>): string
  {
    if mode.NoHash? || History(messages) == [] then "" else sha(ConversationText(mode, summarize, messages))
  }

  function FieldsOf(
    sha: string -> string, mode: HashMode, summarize: Option<seq<Message> -> string>,
    messages: seq<Message>, tenant: string, conversation: string): Fields
  {
    Fields(tenant, conversation, SystemHash(sha, messages), ConversationHash(sha, mode, summarize, messages))
  }

  /** The fields that may reach the key derivation: any tenant, a conversation id without
      separator, and hex hashes. */
  ghost predicate KeyFields(f: Fields) {
    FIELD !in f.conversation && FIELD !in f.system && FIELD !in f.history
  }

  lemma {:induction false} SystemHashIsHex(sha: string -> string, messages: seq<Message>)
    requires HexDigest(sha)
    ensures forall c <- SystemHash(sha, messages) :: IsHex(c)
  {
    if messages != [] {
      SystemHashIsHex(sha, messages[1..]);
      assert forall c <- sha(messages[0].content) :: IsHex(c);
    }
  }

  lemma HashesHaveNoSeparator(
    sha: string -> string, mode: HashMode, summarize: Option<seq<Message> -> string>, messages: seq<Message>)
    requires HexDigest(sha)
    ensures FIELD !in SystemHash(sha, messages) && FIELD !in ConversationHash(sha, mode, summarize, messages)
  {
    SystemHashIsHex(sha, messages);
    assert forall x, c <- sha(x) :: IsHex(c);
    assert !IsHex(FIELD);
  }

  /** The key that `extractCacheKeyInfoV2` derives: none for a request without messages. */
  function KeyOf(
    sha: string -> string, mode: HashMode, summarize: Option<seq<Message> -> string>,
    messages: seq<Message>, tenant: string, conversation: string): string
  {
    if messages == [] then "" else PartitionKey(sha, FieldsOf(sha, mode, summarize, messages, tenant, conversation))
  }

  /** Both the read path (`process`) and the write path (`putFromContext`) derive such
      fields: the conversation id is the resolver's, or empty without a resolver. Only a
      request without messages has no key. */
  lemma RequestsHaveKeyFields(
    sha: string -> string, mode: HashMode, summarize: Option<seq<Message> -> string>, tenant: string, r: Request,
    conversation: string)
    requires HexDigest(sha) && (conversation == Resolve(sha, r) || conversation == "")
    ensures KeyFields(FieldsOf(sha, mode, summarize, r.messages, tenant, conversation))
    ensures KeyOf(sha, mode, summarize, r.messages, tenant, conversation) == "" <==> r.messages == []
  {
    ResolvedIdHasNoSeparator(sha, r);
    HashesHaveNoSeparator(sha, mode, summarize, r.messages);
    assert |PartitionKey(sha, FieldsOf(sha, mode, summarize, r.messages, tenant, conversation))| == 64;
  }

  /** The hashed text determines all four fields, whatever bytes the tenant contains. */
  lemma BlobInjective(f: Fields, g: Fields)
    requires KeyFields(f) && KeyFields(g) && Blob(f) == Blob(g)
    ensures f == g
  {
    var f3 := f.tenant + [FIELD] + f.conversation + [FIELD] + f.system;
    var g3 := g.tenant + [FIELD] + g.conversation + [FIELD] + g.system;
    JoinInjective(FIELD, f3, f.history, g3, g.history);
    JoinInjective(FIELD, f.tenant + [FIELD] + f.conversation, f.system, g.tenant + [FIELD] + g.conversation, g.system);
    JoinInjective(FIELD, f.tenant, f.conversation, g.tenant, g.conversation);
  }

  /** Equal partition keys mean equal tenant, conversation and hashes, or a collision of
      SHA-256 on exactly these two texts. */
  lemma KeyDeterminesFields(sha: string -> string, f: Fields, g: Fields)
    requires KeyFields(f) && KeyFields(g) && PartitionKey(sha, f) == PartitionKey(sha, g)
    ensures f == g || Collide(sha, Blob(f), Blob(g))
  {
    if Blob(f) == Blob(g) {
      BlobInjective(f, g);
    }
  }

  /** The condition on conversation ids is needed: any id with a separator in it shares its
      key with another tenant. */
  lemma SeparatorInConversationMixesTenants(sha: string -> string, f: Fields)
    requires FIELD in f.conversation
    ensures exists g: Fields :: g.tenant != f.tenant && PartitionKey(sha, g) == PartitionKey(sha, f)
  {
    var i :| 0 <= i < |f.conversation| && f.conversation[i] == FIELD;
    var g := f.(tenant := f.tenant + [FIELD] + f.conversation[..i], conversation := f.conversation[i + 1..]);
    assert f.conversation == f.conversation[..i] + [FIELD] + f.conversation[i + 1..];
    assert f.tenant + [FIELD] + f.conversation == g.tenant + [FIELD] + g.conversation;
    assert Blob(g) == Blob(f);
    assert |g.tenant| > |f.tenant|;
    assert g.tenant != f.tenant && PartitionKey(sha, g) == PartitionKey(sha, f);
  }

  // ---------------------------------------------------------------- hashed conversations

  /** Messages whose fields do not contain the separator that ends them. */
  ghost predicate Delimited(messages: seq<Message>) {
    forall m <- messages :: FIELD !in m.role && RECORD !in m.role && FIELD !in m.content && RECORD !in m.content
  }

  /** The text that is hashed determines the messages when no field contains a separator. */
  lemma {:induction false} BodyInjective(a: seq<Message>, b: seq<Message>)
    requires Delimited(a) && Delimited(b) && Body(a) == Body(b)
    ensures a == b
    decreases |a|
  {
    if a == [] || b == [] {
      assert |a| > 0 ==> |Body(a)| > 0;
      assert |b| > 0 ==> |Body(b)| > 0;
    } else {
      var x, y := a[|a| - 1], b[|b| - 1];
      var a', b' := a[..|a| - 1], b[..|b| - 1];
      assert Body(a)[..|Body(a)| - 1] == Body(a') + x.role + [FIELD] + x.content;
      assert Body(b)[..|Body(b)| - 1] == Body(b') + y.role + [FIELD] + y.content;
      JoinInjective(FIELD, Body(a') + x.role, x.content, Body(b') + y.role, y.content);
      BodyEndsRecord(a');
      BodyEndsRecord(b');
      SplitRole(Body(a'), x.role, Body(b'), y.role);
      BodyInjective(a', b');
      assert a == a' + [x] && b == b' + [y];
    }
  }

  lemma BodyEndsRecord(a: seq<Message>)
    ensures Body(a) == [] || Body(a)[|Body(a)| - 1] == RECORD
  {
  }

  lemma SplitRole(p: string, r: string, q: string, t: string)
    requires p + r == q + t && RECORD !in r && RECORD !in t
    requires p == [] || p[|p| - 1] == RECORD
    requires q == [] || q[|q| - 1] == RECORD
    ensures p == q && r == t
  {
    var u, v := ([RECORD] + p)[..|p|], ([RECORD] + q)[..|q|];
    assert [RECORD] + p == u + [RECORD] && [RECORD] + q == v + [RECORD];
    assert u + [RECORD] + r == [RECORD] + (p + r) == [RECORD] + (q + t) == v + [RECORD] + t;
    JoinInjective(RECORD, u, r, v, t);
    assert p == ([RECORD] + p)[1..] && q == ([RECORD] + q)[1..];
  }

  /** One message that spells out two: contents are not escaped. */
  function Merged(x: Message, y: Message): Message {
    Message(x.role, x.content + [RECORD] + y.role + [FIELD] + y.content)
  }

  function RecordText(m: Message): string {
    m.role + [FIELD] + m.content + [RECORD]
  }

  lemma BodyOfMore(front: seq<Message>, m: Message)
    ensures Body(front + [m]) == Body(front) + RecordText(m)
  {
    assert (front + [m])[..|front|] == front;
    assert Body(front) + m.role + [FIELD] + m.content + [RECORD] == Body(front) + (m.role + [FIELD] + m.content + [RECORD]);
  }

  lemma MergedText(x: Message, y: Message)
    ensures RecordText(Merged(x, y)) == RecordText(x) + RecordText(y)
  {
  }

  lemma TwoReadAsOne(front: seq<Message>, x: Message, y: Message)
    ensures Body(front + [Merged(x, y)]) == Body((front + [x]) + [y])
  {
    BodyOfMore(front, Merged(x, y));
    MergedText(x, y);
    BodyOfMore(front, x);
    BodyOfMore(front + [x], y);
    assert Body(front) + (RecordText(x) + RecordText(y)) == (Body(front) + RecordText(x)) + RecordText(y);
  }

  lemma BodyOfOne(m: Message)
    ensures Body([m]) == RecordText(m)
  {
    assert [m][..0] == [];
  }

  /** A separator within a field can be read as the one between the fields. */
  function Resplit(role: string, middle: string, content: string, first: bool): Message {
    if first then Message(role, middle + [FIELD] + content) else Message(role + [FIELD] + middle, content)
  }

  lemma ResplitText(role: string, middle: string, content: string)
    ensures RecordText(Resplit(role, middle, content, true)) == RecordText(Resplit(role, middle, content, false))
    ensures Resplit(role, middle, content, true) != Resplit(role, middle, content, false)
  {
    assert |role| < |role + [FIELD] + middle|;
  }

  lemma SplitAnew(m: Message)
    requires FIELD in m.role || FIELD in m.content
    ensures exists other: Message :: other != m && RecordText(other) == RecordText(m)
  {
    if FIELD in m.role {
      var i :| 0 <= i < |m.role| && m.role[i] == FIELD;
      assert m == Resplit(m.role[..i], m.role[i + 1..], m.content, false);
      ResplitText(m.role[..i], m.role[i + 1..], m.content);
    } else {
      var i :| 0 <= i < |m.content| && m.content[i] == FIELD;
      assert m == Resplit(m.role, m.content[..i], m.content[i + 1..], true);
      ResplitText(m.role, m.content[..i], m.content[i + 1..]);
    }
  }

  lemma {:induction false} FieldPerMessage(a: seq<Message>)
    ensures multiset(Body(a))[FIELD] >= |a|
    decreases |a|
  {
    if a != [] {
      FieldPerMessage(a[..|a| - 1]);
    }
  }

  lemma OneReadsBack(m: Message, b: seq<Message>)
    requires FIELD !in m.role && FIELD !in m.content && Body(b) == Body([m])
    ensures b == [m]
  {
    BodyOfOne(m);
    FieldPerMessage(b);
    assert multiset(Body([m]))[FIELD] == 1;
    assert |b| == 1;
    var y := b[0];
    assert b == [y];
    BodyOfOne(y);
    assert multiset(Body([y])) == multiset(y.role) + multiset([FIELD]) + multiset(y.content) + multiset([RECORD]);
    assert FIELD !in multiset(y.content);
    assert Body([m])[..|Body([m])| - 1] == m.role + [FIELD] + m.content;
    assert Body([y])[..|Body([y])| - 1] == y.role + [FIELD] + y.content;
    JoinInjective(FIELD, m.role, m.content, y.role, y.content);
  }

  /** No other conversation has the same hashed text. */
  ghost predicate Unique(a: seq<Message>) {
    forall b :: Body(b) == Body(a) ==> b == a
  }

  lemma OneIsUniqueIff(m: Message)
    ensures Unique([m]) <==> FIELD !in m.role && FIELD !in m.content
  {
    if FIELD in m.role || FIELD in m.content {
      SplitAnew(m);
      var other: Message :| other != m && RecordText(other) == RecordText(m);
      BodyOfOne(m);
      BodyOfOne(other);
      assert [other][0] != [m][0];
    } else {
      forall b | Body(b) == Body([m]) ensures b == [m] {
        OneReadsBack(m, b);
      }
    }
  }

  lemma MoreAreNotUnique(front: seq<Message>, x: Message, y: Message)
    ensures !Unique((front + [x]) + [y])
  {
    TwoReadAsOne(front, x, y);
    assert |front + [Merged(x, y)]| < |(front + [x]) + [y]|;
  }

  /** Against arbitrary other conversations the hashed text tells only the empty one and
      single messages without a separator apart: every longer conversation shares its text,
      and so its hash, with a different one. */
  lemma BodyIsUniqueIff(a: seq<Message>)
    ensures Unique(a) <==> a == [] || (|a| == 1 && FIELD !in a[0].role && FIELD !in a[0].content)
  {
    if a == [] {
      forall b | Body(b) == Body(a) ensures b == a {
        FieldPerMessage(b);
      }
    } else if |a| == 1 {
      assert a == [a[0]];
      OneIsUniqueIff(a[0]);
    } else {
      var n := |a| - 2;
      assert a == (a[..n] + [a[n]]) + [a[n + 1]];
      MoreAreNotUnique(a[..n], a[n], a[n + 1]);
    }
  }

  // ---------------------------------------------------------------- what a key tells about the messages

  predicate Prompting(m: Message) {
    m.role == "system" && m.content != ""
  }

  /** `c` is the first content that a system message has, or "" when none has any. */
  ghost predicate FirstSystem(messages: seq<Message>, c: string) {
    if c == "" then forall m <- messages :: !Prompting(m)
    else exists i :: 0 <= i < |messages| && messages[i] == Message("system", c) && NonePrompting(messages[..i])
  }

  ghost predicate NonePrompting(messages: seq<Message>) {
    forall m <- messages :: !Prompting(m)
  }

  lemma {:induction false} HasFirstSystem(messages: seq<Message>)
    ensures exists c :: FirstSystem(messages, c)
    decreases |messages|
  {
    if messages == [] {
      assert FirstSystem(messages, "");
    } else {
      var n := |messages| - 1;
      HasFirstSystem(messages[..n]);
      var c :| FirstSystem(messages[..n], c);
      if c != "" {
        var i :| 0 <= i < n && messages[..n][i] == Message("system", c) && NonePrompting(messages[..n][..i]);
        assert messages[..n][..i] == messages[..i];
        assert FirstSystem(messages, c);
      } else if Prompting(messages[n]) {
        assert NonePrompting(messages[..n]) && messages[n] == Message("system", messages[n].content);
        assert FirstSystem(messages, messages[n].content);
      } else {
        assert FirstSystem(messages, "");
      }
    }
  }

  lemma {:induction false} SystemHashIs(sha: string -> string, messages: seq<Message>, c: string)
    requires FirstSystem(messages, c)
    ensures SystemHash(sha, messages) == if c == "" then "" else sha(c)
  {
    if messages != [] {
      var rest := messages[1..];
      if c == "" {
        assert !Prompting(messages[0]);
        SystemHashIs(sha, rest, c);
      } else {
        var i :| 0 <= i < |messages| && messages[i] == Message("system", c) && NonePrompting(messages[..i]);
        if i > 0 {
          assert !Prompting(messages[..i][0]);
          assert rest[..i - 1] == messages[..i][1..];
          assert rest[i - 1] == Message("system", c) && NonePrompting(rest[..i - 1]);
          SystemHashIs(sha, rest, c);
        }
      }
    }
  }

  /** The system prompts agree, or the two first contents collide. */
  ghost predicate SameSystem(sha: string -> string, a: seq<Message>, b: seq<Message>) {
    forall c, d :: FirstSystem(a, c) && FirstSystem(b, d) ==> c == d || Collide(sha, c, d)
  }

  lemma SystemHashTells(sha: string -> string, a: seq<Message>, b: seq<Message>)
    requires HexDigest(sha) && SystemHash(sha, a) == SystemHash(sha, b)
    ensures SameSystem(sha, a, b)
  {
    forall c, d | FirstSystem(a, c) && FirstSystem(b, d) ensures c == d || Collide(sha, c, d) {
      SystemHashIs(sha, a, c);
      SystemHashIs(sha, b, d);
      assert |sha(c)| == 64 && |sha(d)| == 64;
    }
  }

  /** How many messages come before the current turn, which is a trailing user message. */
  function Earlier(messages: seq<Message>): nat {
    if messages != [] && messages[|messages| - 1].role == "user" then |messages| - 1 else |messages|
  }

  /** The messages before the current turn agree: all of them, or the last `size`. */
  ghost predicate SameEarlier(mode: HashMode, a: seq<Message>, b: seq<Message>) {
    match mode
    case NoHash => true
    case Full => a[..Earlier(a)] == b[..Earlier(b)]
    case Window(size) => forall k: nat | k < size :: SameFromEnd(a, b, k)
  }

  /** Both conversations have a message that far back, and the same one, or neither has. */
  ghost predicate SameFromEnd(a: seq<Message>, b: seq<Message>, k: nat) {
    && (k < Earlier(a) <==> k < Earlier(b))
    && (k < Earlier(a) ==> FromEnd(a, k) == FromEnd(b, k))
  }

  /** The message `k` places before the last one before the current turn. */
  function FromEnd(messages: seq<Message>, k: nat): Message
    requires k < Earlier(messages)
  {
    messages[Earlier(messages) - 1 - k]
  }

  /** No separator within the messages before the current turn, nor, when a summary is
      appended, its mark. */
  ghost predicate Separable(summarize: Option<seq<Message> -> string>, messages: seq<Message>) {
    && Delimited(messages[..Earlier(messages)])
    && (summarize.Some? ==> NoGroup(messages[..Earlier(messages)]))
  }

  ghost predicate NoGroup(messages: seq<Message>) {
    forall m <- messages :: GROUP !in m.role && GROUP !in m.content
  }

  lemma {:induction false} BodyHasNoGroup(messages: seq<Message>)
    requires NoGroup(messages)
    ensures GROUP !in Body(messages)
    decreases |messages|
  {
    if messages != [] {
      var last := messages[|messages| - 1];
      assert last in messages;
      BodyHasNoGroup(messages[..|messages| - 1]);
    }
  }

  /** What follows the first mark does not matter for what comes before it. */
  lemma SplitAtGroup(x: string, s: string, y: string, t: string)
    requires x + s == y + t && GROUP !in x && GROUP !in y
    requires (s == "" || s[0] == GROUP) && (t == "" || t[0] == GROUP)
    ensures x == y
  {
    var w := x + s;
    assert forall i | 0 <= i < |x| :: w[i] == x[i];
    assert forall i | 0 <= i < |y| :: (y + t)[i] == y[i];
    assert x == w[..|x|] && y == (y + t)[..|y|];
  }

  lemma HistoryIsEarlier(messages: seq<Message>)
    ensures History(messages) == messages[..Earlier(messages)]
  {
  }

  lemma RecentAreEarlier(mode: HashMode, messages: seq<Message>)
    ensures forall m <- Recent(mode, messages) :: m in messages[..Earlier(messages)]
  {
    HistoryIsEarlier(messages);
  }

  lemma TextTellsRecent(mode: HashMode, summarize: Option<seq<Message> -> string>, a: seq<Message>, b: seq<Message>)
    requires Separable(summarize, a) && Separable(summarize, b)
    requires ConversationText(mode, summarize, a) == ConversationText(mode, summarize, b)
    ensures Recent(mode, a) == Recent(mode, b)
  {
    var x, y := Recent(mode, a), Recent(mode, b);
    RecentAreEarlier(mode, a);
    RecentAreEarlier(mode, b);
    if summarize.Some? {
      BodyHasNoGroup(x);
      BodyHasNoGroup(y);
      var s, t := summarize.value(x), summarize.value(y);
      SplitAtGroup(Body(x), if s == "" then "" else SUMMARY + s, Body(y), if t == "" then "" else SUMMARY + t);
    } else {
      assert Body(x) + "" == Body(x) && Body(y) + "" == Body(y);
    }
    BodyInjective(x, y);
  }

  lemma RecentTells(mode: HashMode, a: seq<Message>, b: seq<Message>)
    requires Recent(mode, a) == Recent(mode, b) && !mode.NoHash?
    ensures SameEarlier(mode, a, b)
  {
    HistoryIsEarlier(a);
    HistoryIsEarlier(b);
    if mode.Window? {
      var recent := Recent(mode, a);
      forall k: nat | k < mode.size ensures SameFromEnd(a, b, k) {
        if k < |recent| {
          assert FromEnd(a, k) == recent[|recent| - 1 - k];
          assert FromEnd(b, k) == recent[|recent| - 1 - k];
        }
      }
    }
  }

  /** The conversations before the current turn agree as far as the mode looks, or the two
      hashed texts collide. */
  ghost predicate SameConversation(
    sha: string -> string, mode: HashMode, summarize: Option<seq<Message> -> string>, a: seq<Message>, b: seq<Message>)
  {
    Separable(summarize, a) && Separable(summarize, b) ==>
      || SameEarlier(mode, a, b)
      || Collide(sha, ConversationText(mode, summarize, a), ConversationText(mode, summarize, b))
  }

  lemma ConversationHashTells(
    sha: string -> string, mode: HashMode, summarize: Option<seq<Message> -> string>, a: seq<Message>, b: seq<Message>)
    requires HexDigest(sha) && ConversationHash(sha, mode, summarize, a) == ConversationHash(sha, mode, summarize, b)
    ensures SameConversation(sha, mode, summarize, a, b)
  {
    HistoryIsEarlier(a);
    HistoryIsEarlier(b);
    var x, y := ConversationText(mode, summarize, a), ConversationText(mode, summarize, b);
    assert |sha(x)| == 64 && |sha(y)| == 64;
    if Separable(summarize, a) && Separable(summarize, b) && !mode.NoHash? && Earlier(a) > 0 && x == y {
      TextTellsRecent(mode, summarize, a, b);
      RecentTells(mode, a, b);
    }
  }

  lemma RecentFromEnd(mode: HashMode, a: seq<Message>, i: nat)
    requires mode.Window? && i < |Recent(mode, a)|
    ensures |Recent(mode, a)| - 1 - i < Earlier(a) && Recent(mode, a)[i] == FromEnd(a, |Recent(mode, a)| - 1 - i)
  {
    HistoryIsEarlier(a);
  }

  lemma EarlierGivesLength(size: nat, a: seq<Message>, b: seq<Message>)
    requires SameEarlier(Window(size), a, b)
    ensures |Recent(Window(size), a)| <= |Recent(Window(size), b)|
  {
    HistoryIsEarlier(a);
    HistoryIsEarlier(b);
    var k := |Recent(Window(size), b)|;
    assert k < size ==> SameFromEnd(a, b, k);
  }

  lemma EarlierGivesRecent(mode: HashMode, a: seq<Message>, b: seq<Message>)
    requires !mode.NoHash? && SameEarlier(mode, a, b)
    ensures Recent(mode, a) == Recent(mode, b)
  {
    HistoryIsEarlier(a);
    HistoryIsEarlier(b);
    if mode.Window? {
      EarlierGivesLength(mode.size, a, b);
      forall k: nat | k < mode.size ensures SameFromEnd(b, a, k) {
        assert SameFromEnd(a, b, k);
      }
      EarlierGivesLength(mode.size, b, a);
      forall i: nat | i < |Recent(mode, a)| ensures Recent(mode, a)[i] == Recent(mode, b)[i] {
        assert SameFromEnd(a, b, |Recent(mode, a)| - 1 - i);
        RecentFromEnd(mode, a, i);
        RecentFromEnd(mode, b, i);
      }
    }
  }

  /** The other direction, whatever the messages hold: conversations that agree as far as the
      mode looks have one hash. A window of no messages still tells whether there are any. */
  lemma AgreeingConversationsShareHash(
    sha: string -> string, mode: HashMode, summarize: Option<seq<Message> -> string>, a: seq<Message>, b: seq<Message>)
    requires SameEarlier(mode, a, b) && (mode == Window(0) ==> (Earlier(a) == 0 <==> Earlier(b) == 0))
    ensures ConversationHash(sha, mode, summarize, a) == ConversationHash(sha, mode, summarize, b)
  {
    HistoryIsEarlier(a);
    HistoryIsEarlier(b);
    if !mode.NoHash? {
      EarlierGivesRecent(mode, a, b);
      assert mode.Window? && mode.size > 0 ==> SameFromEnd(a, b, 0);
    }
  }

  /** Requests of one tenant and conversation that agree on the first system prompt `c` and on
      the messages before the current turn, as far as the mode looks, share their key. */
  lemma AgreeingRequestsShareKey(
    sha: string -> string, mode: HashMode, summarize: Option<seq<Message> -> string>,
    a: seq<Message>, b: seq<Message>, tenant: string, conversation: string, c: string)
    requires a != [] && b != [] && FirstSystem(a, c) && FirstSystem(b, c)
    requires SameEarlier(mode, a, b) && (mode == Window(0) ==> (Earlier(a) == 0 <==> Earlier(b) == 0))
    ensures KeyOf(sha, mode, summarize, a, tenant, conversation) == KeyOf(sha, mode, summarize, b, tenant, conversation)
  {
    SystemHashIs(sha, a, c);
    SystemHashIs(sha, b, c);
    AgreeingConversationsShareHash(sha, mode, summarize, a, b);
  }

  /** Requests with equal keys have the same tenant and conversation id, the same first system
      prompt, and the same messages before the current turn as far as the mode looks, or
      SHA-256 collides on two named texts. */
  lemma KeyTellsMessages(
    sha: string -> string, mode: HashMode, summarize: Option<seq<Message> -> string>,
    a: seq<Message>, tenant: string, conversation: string, b: seq<Message>, tenant': string, conversation': string)
    requires HexDigest(sha) && a != [] && b != []
    requires FIELD !in conversation && FIELD !in conversation'
    requires KeyOf(sha, mode, summarize, a, tenant, conversation) == KeyOf(sha, mode, summarize, b, tenant', conversation')
    ensures var f := FieldsOf(sha, mode, summarize, a, tenant, conversation);
            var g := FieldsOf(sha, mode, summarize, b, tenant', conversation');
            || Collide(sha, Blob(f), Blob(g))
            || (&& tenant == tenant' && conversation == conversation'
                && SameSystem(sha, a, b) && SameConversation(sha, mode, summarize, a, b))
  {
    HashesHaveNoSeparator(sha, mode, summarize, a);
    HashesHaveNoSeparator(sha, mode, summarize, b);
    var f := FieldsOf(sha, mode, summarize, a, tenant, conversation);
    var g := FieldsOf(sha, mode, summarize, b, tenant', conversation');
    KeyDeterminesFields(sha, f, g);
    if f == g {
      SystemHashTells(sha, a, b);
      ConversationHashTells(sha, mode, summarize, a, b);
    }
  }

  // ---------------------------------------------------------------- what a conversation id tells

  /** The 32 characters that an id keeps of a digest agree for two texts. */
  ghost predicate Collide32(sha: string -> string, x: string, y: string) {
    x != y && Prefix32(sha(x)) == Prefix32(sha(y))
  }

  lemma KindsDiffer(x: string, y: string)
    ensures "hist-" + x != "first-" + y
  {
    assert ("hist-" + x)[0] == 'h' && ("first-" + y)[0] == 'f';
  }

  lemma SameSuffix(p: string, x: string, y: string)
    requires p + x == p + y
    ensures x == y
  {
    assert x == (p + x)[|p|..] && y == (p + y)[|p|..];
  }

  /** Two requests that share a conversation id: both clients sent it, or neither did and the
      messages before the current turn, or the only messages, agree, or the shortened digests
      of the two texts do. Only a client can choose the id of another conversation. */
  ghost predicate SameResolved(sha: string -> string, a: Request, b: Request) {
    && (ClientId(a) != "" && ClientId(b) != "" ==> ClientId(a) == ClientId(b))
    && (ClientId(a) == "" && ClientId(b) == "" ==>
          && (|a.messages| == 1 <==> |b.messages| == 1)
          && (|a.messages| > 1 && Separable(None, a.messages) && Separable(None, b.messages) ==>
                || SameEarlier(Full, a.messages, b.messages)
                || Collide32(sha, Body(a.messages[..Earlier(a.messages)]), Body(b.messages[..Earlier(b.messages)])))
          && (|a.messages| == 1 && |b.messages| == 1 && ':' !in a.messages[0].role && ':' !in b.messages[0].role ==>
                || a.messages == b.messages
                || Collide32(sha, Turn(a.messages[0]), Turn(b.messages[0]))))
  }

  lemma ResolvedIdTells(sha: string -> string, a: Request, b: Request)
    requires a.messages != [] && b.messages != [] && Resolve(sha, a) == Resolve(sha, b)
    ensures SameResolved(sha, a, b)
  {
    if ClientId(a) == "" && ClientId(b) == "" {
      if |a.messages| > 1 && |b.messages| > 1 {
        HistoryIdTells(sha, a.messages, b.messages);
      } else if |a.messages| == 1 && |b.messages| == 1 {
        FirstTurnIdTells(sha, a.messages, b.messages);
      } else {
        KindsDiffer(Prefix32(sha(Body(History(a.messages)))), Prefix32(sha(Turn(b.messages[|b.messages| - 1]))));
        KindsDiffer(Prefix32(sha(Body(History(b.messages)))), Prefix32(sha(Turn(a.messages[|a.messages| - 1]))));
      }
    }
  }

  /** The other direction: without client ids, or with the same one, requests whose messages
      before the current turn agree share their id, and so do equal first turns. */
  lemma AgreeingRequestsShareId(sha: string -> string, a: Request, b: Request)
    requires a.clientId == b.clientId && a.messages != [] && b.messages != []
    requires if |a.messages| == 1 then a.messages == b.messages
             else |b.messages| > 1 && SameEarlier(Full, a.messages, b.messages)
    ensures Resolve(sha, a) == Resolve(sha, b)
  {
    HistoryIsEarlier(a.messages);
    HistoryIsEarlier(b.messages);
  }

  lemma HistoryIdTells(sha: string -> string, a: seq<Message>, b: seq<Message>)
    requires HistoryId(sha, a) == HistoryId(sha, b)
    ensures Separable(None, a) && Separable(None, b) ==>
              SameEarlier(Full, a, b) || Collide32(sha, Body(a[..Earlier(a)]), Body(b[..Earlier(b)]))
  {
    HistoryIsEarlier(a);
    HistoryIsEarlier(b);
    SameSuffix("hist-", Prefix32(sha(Body(History(a)))), Prefix32(sha(Body(History(b)))));
    if Separable(None, a) && Separable(None, b) && Body(History(a)) == Body(History(b)) {
      BodyInjective(History(a), History(b));
    }
  }

  lemma FirstTurnIdTells(sha: string -> string, a: seq<Message>, b: seq<Message>)
    requires |a| == 1 && |b| == 1 && FirstTurnId(sha, a) == FirstTurnId(sha, b)
    ensures ':' !in a[0].role && ':' !in b[0].role ==> a == b || Collide32(sha, Turn(a[0]), Turn(b[0]))
  {
    SameSuffix("first-", Prefix32(sha(Turn(a[0]))), Prefix32(sha(Turn(b[0]))));
    if ':' !in a[0].role && ':' !in b[0].role && Turn(a[0]) == Turn(b[0]) {
      SplitAtColon(a[0], b[0]);
      assert a == [a[0]] && b == [b[0]];
    }
  }

  lemma SplitAtColon(m: Message, n: Message)
    requires ':' !in m.role && ':' !in n.role && Turn(m) == Turn(n)
    ensures m == n
  {
    assert Turn(m)[|m.role|] == ':' && Turn(n)[|n.role|] == ':';
    assert forall i | 0 <= i < |m.role| :: Turn(m)[i] == m.role[i];
    assert forall i | 0 <= i < |n.role| :: Turn(n)[i] == n.role[i];
    assert |m.role| == |n.role|;
    assert m.role == Turn(m)[..|m.role|] && n.role == Turn(n)[..|n.role|];
    assert m.content == Turn(m)[|m.role| + 1..] && n.content == Turn(n)[|n.role| + 1..];
  }

  lemma {:induction false} KeptIsIdentityIff(s: string)
    ensures |Kept(s)| <= |s|
    ensures Kept(s) == s <==> forall c <- s :: Keeps(c)
  {
    if s != [] {
      KeptIsIdentityIff(s[1..]);
      assert s == [s[0]] + s[1..];
      if Keeps(s[0]) {
        assert Kept(s)[1..] == Kept(s[1..]);
      }
    }
  }

  predicate Control(c: char) {
    c as int < 0x20 || c as int == 0x7F
  }

  /** A client id is used as it is exactly when it has at most 256 bytes and none of them is a
      control byte. */
  lemma SanitizedIsIdentityIff(raw: string)
    ensures Sanitized(raw) == raw <==> |raw| <= MAX_ID_LEN && forall c <- raw :: !Control(c)
  {
    KeptIsIdentityIff(raw);
    assert forall c :: Keeps(c) <==> !Control(c);
    assert |Kept(raw)| == MAX_ID_LEN ==> Kept(raw)[..MAX_ID_LEN] == Kept(raw);
  }

  lemma {:induction false} KeptCounts(s: string, c: char)
    ensures multiset(Kept(s))[c] == if Control(c) then 0 else multiset(s)[c]
  {
    if s != [] {
      KeptCounts(s[1..], c);
      assert s == [s[0]] + s[1..];
    }
  }

  lemma KeptNothingIff(s: string)
    ensures Kept(s) == "" <==> forall c <- s :: Control(c)
  {
    forall c ensures c in s && !Control(c) <==> c in Kept(s) {
      KeptCounts(s, c);
      assert c in s <==> c in multiset(s);
      assert c in Kept(s) <==> c in multiset(Kept(s));
    }
    assert Kept(s) != "" ==> Kept(s)[0] in Kept(s);
  }

  /** A request without messages has no id. Otherwise a client id with something printable in it
      is taken, as it is when it is printable and short; without one the id is derived. */
  lemma ResolvedIdIs(sha: string -> string, r: Request)
    requires HexDigest(sha)
    ensures r.messages == [] ==> Resolve(sha, r) == ""
    ensures r.messages != [] ==>
              var id := Resolve(sha, r);
              if r.clientId.Some? && exists c <- r.clientId.value :: !Control(c) then
                && 0 < |id| <= MAX_ID_LEN
                && ((forall c <- r.clientId.value :: !Control(c)) && |r.clientId.value| <= MAX_ID_LEN ==>
                      id == r.clientId.value)
              else if |r.messages| == 1 then "first-" <= id && |id| == |"first-"| + 32
              else "hist-" <= id && |id| == |"hist-"| + 32
  {
    if r.clientId.Some? {
      KeptNothingIff(r.clientId.value);
      SanitizedIsIdentityIff(r.clientId.value);
    }
  }
}
