/** Keys line up from turn to turn, agree exactly when everything that is hashed agrees, and do not depend on
    the order of tools whose names can be told apart. */
module ConversationKeyLaws {
  import opened Prelude
  import opened CanonicalJson
  import opened CanonicalJsonLaws
  import opened ConversationKeys

  // ------------------------------------------------------------------
  // From turn to turn
  // ------------------------------------------------------------------

  lemma {:induction false} SystemSkipped(env: Env, messages: seq<Message>)
    ensures ProjectTurns(env, WithoutSystem(messages)) == ProjectTurns(env, messages)
    decreases |messages|
  {
    if messages != [] {
      var init, last := messages[..|messages| - 1], messages[|messages| - 1];
      SystemSkipped(env, init);
      var kept := WithoutSystem(init);
      assert (kept + [last])[..|kept|] == kept;
    }
  }

  lemma {:induction false} SystemTurnsAppend(env: Env, a: seq<Message>, b: seq<Message>)
    ensures SystemTurns(env, a + b) == SystemTurns(env, a) + SystemTurns(env, b)
    decreases |a|
  {
    if a == [] {
      assert a + b == b;
    } else {
      assert (a + b)[1..] == a[1..] + b;
      SystemTurnsAppend(env, a[1..], b);
    }
  }

  /** A lookup before a turn and the store after the messages that precede its newest user or tool turn can only differ in
      the system digest. */
  lemma {:induction false} LookupAndStore(env: Env, id: Identity, messages: seq<Message>, k: int)
    requires k == NewestStable(messages) && k > 0
    ensures Before(env, id, messages).None? <==> ProjectTurns(env, messages[..k]).None?
    ensures After(env, id, messages[..k]).None? <==> ProjectTurns(env, messages[..k]).None?
    ensures ProjectTurns(env, messages[..k]).Some? ==>
              Before(env, id, messages).value == After(env, id, messages[..k]).value.(sys := SystemDigest(env, messages))
  {
    SystemSkipped(env, messages[..k]);
  }

  lemma {:induction false} NextTurnIsNewest(messages: seq<Message>, next: Message, all: seq<Message>)
    requires Newest(next) && all == messages + [next]
    ensures NewestStable(all) == |messages| && all[..|messages|] == messages
  {
    assert all[|messages|] == next;
  }

  lemma NextTurnIsNoSystemTurn(env: Env, messages: seq<Message>, next: Message, all: seq<Message>)
    requires Newest(next) && all == messages + [next]
    ensures SystemDigest(env, all) == SystemDigest(env, messages)
  {
    SystemTurnsAppend(env, messages, [next]);
    assert SystemTurns(env, [next]) == [] && SystemTurns(env, messages) + [] == SystemTurns(env, messages);
  }

  /** What was stored after a conversation is what is looked up when one user or tool turn is added. */
  lemma KeyContinuity(env: Env, id: Identity, messages: seq<Message>, next: Message)
    requires messages != [] && (next.role.User? || next.role.ToolResult?)
    ensures FingerprintAfter(env, id, messages) == FingerprintBefore(env, id, messages + [next])
  {
    var all := messages + [next];
    NextTurnIsNewest(messages, next, all);
    NextTurnIsNoSystemTurn(env, messages, next, all);
    LookupAndStore(env, id, all, |messages|);
  }

  // ------------------------------------------------------------------
  // What a key says
  // ------------------------------------------------------------------

  lemma WordsApart(a: string, b: string)
    requires Ascii(a) && Ascii(b) && a != b
    ensures Word(a) != Word(b)
  {
    if |a| == |b| {
      var i :| 0 <= i < |a| && a[i] != b[i];
      assert Word(a)[i] == a[i] as int && Word(b)[i] == b[i] as int;
    }
  }

  /** The keys of a payload are distinct. */
  lemma PayloadKeys()
    ensures Word("v") !in {Word("caller"), Word("model"), Word("route"), Word("sys"), Word("tools"), Word("turns")}
    ensures Word("caller") !in {Word("model"), Word("route"), Word("sys"), Word("tools"), Word("turns")}
    ensures Word("model") !in {Word("route"), Word("sys"), Word("tools"), Word("turns")}
    ensures Word("route") !in {Word("sys"), Word("tools"), Word("turns")}
    ensures Word("sys") !in {Word("tools"), Word("turns")}
    ensures Word("tools") != Word("turns")
  {
    assert "model"[0] != "route"[0] && "model"[0] != "tools"[0] && "model"[0] != "turns"[0];
    assert "route"[0] != "tools"[0] && "route"[0] != "turns"[0] && "tools"[1] != "turns"[1];
    WordsApart("model", "route");
    WordsApart("model", "tools");
    WordsApart("model", "turns");
    WordsApart("route", "tools");
    WordsApart("route", "turns");
    WordsApart("tools", "turns");
  }

  predicate AllValid(vs: seq<Json>) {
    forall i :: 0 <= i < |vs| ==> Valid(vs[i])
  }

  function Meanings(vs: seq<Json>): seq<Value> {
    seq(|vs|, i requires 0 <= i < |vs| => Denote(vs[i]))
  }

  lemma {:induction false} ArrayMeans(vs: seq<Json>)
    ensures DenoteItems(Array(vs)) == Meanings(vs)
    ensures AllValid(vs) ==> ValidItems(Array(vs))
    decreases |vs|
  {
    if vs != [] {
      ArrayMeans(vs[1..]);
      assert Meanings(vs) == [Denote(vs[0])] + Meanings(vs[1..]);
    }
  }

  function Meaning(c: Components): map<Text, Value> {
    map[Word("v") := VNum(KEY_VERSION), Word("caller") := VStr(c.caller), Word("model") := VStr(c.model),
        Word("route") := VStr(c.route), Word("sys") := VStr(c.sys), Word("tools") := VStr(c.tools),
        Word("turns") := VArr(Meanings(c.turns))]
  }

  lemma PayloadMeans(c: Components)
    requires AllValid(c.turns)
    ensures Valid(Payload(c)) && Denote(Payload(c)) == VObj(Meaning(c))
  {
    PayloadKeys();
    assert Literal(KEY_VERSION);
    var m4 := TailMeans(c);
    var m5 := WithMember(Word("model"), Str(c.model), m4);
    var m6 := WithMember(Word("caller"), Str(c.caller), m5);
    var m7 := WithMember(Word("v"), Num(KEY_VERSION), m6);
    assert DenoteMembers(m7) == Meaning(c);
  }

  lemma TailMeans(c: Components) returns (m4: Members<Json>)
    requires AllValid(c.turns)
    ensures m4 == Member(Word("route"), Str(c.route), Member(Word("sys"), Str(c.sys), Member(Word("tools"), Str(c.tools),
                    Member(Word("turns"), Arr(Array(c.turns)), NoMembers))))
    ensures ValidMembers(m4) && Keys(m4) == {Word("route"), Word("sys"), Word("tools"), Word("turns")}
    ensures DenoteMembers(m4) == map[Word("route") := VStr(c.route), Word("sys") := VStr(c.sys), Word("tools") := VStr(c.tools),
                                     Word("turns") := VArr(Meanings(c.turns))]
  {
    PayloadKeys();
    ArrayMeans(c.turns);
    var m1 := WithMember(Word("turns"), Arr(Array(c.turns)), NoMembers);
    var m2 := WithMember(Word("tools"), Str(c.tools), m1);
    var m3 := WithMember(Word("sys"), Str(c.sys), m2);
    m4 := WithMember(Word("route"), Str(c.route), m3);
  }

  lemma WithMember(k: Text, v: Json, ms: Members<Json>) returns (more: Members<Json>)
    requires k !in Keys(ms) && Valid(v) && ValidMembers(ms)
    ensures more == Member(k, v, ms) && ValidMembers(more)
    ensures Keys(more) == {k} + Keys(ms) && DenoteMembers(more) == DenoteMembers(ms)[k := Denote(v)]
  {
    more := Member(k, v, ms);
  }

  /** The same meaning: every component is the same, and the turns are the same values one by one. */
  predicate SameComponents(c: Components, d: Components) {
    c.caller == d.caller && c.model == d.model && c.route == d.route && c.sys == d.sys && c.tools == d.tools
    && Meanings(c.turns) == Meanings(d.turns)
  }

  /** Two payloads are the same text exactly when all their components agree. */
  lemma PayloadsAgreeIff(c: Components, d: Components)
    requires AllValid(c.turns) && AllValid(d.turns)
    ensures StableStringify(Payload(c)) == StableStringify(Payload(d)) <==> SameComponents(c, d)
  {
    PayloadMeans(c);
    PayloadMeans(d);
    PayloadKeys();
    StableStringifyIff(Payload(c), Payload(d));
    var m, n := Meaning(c), Meaning(d);
    if m == n {
      assert m[Word("caller")] == n[Word("caller")] && m[Word("model")] == n[Word("model")];
      assert m[Word("route")] == n[Word("route")] && m[Word("sys")] == n[Word("sys")];
      assert m[Word("tools")] == n[Word("tools")] && m[Word("turns")] == n[Word("turns")];
    }
  }

  // ------------------------------------------------------------------
  // What a turn is in a key
  // ------------------------------------------------------------------

  /** What a projection keeps of a turn. */
  datatype View =
    | Said(role: Text, content: seq<Value>)
    | Returned(toolCallId: Text, content: seq<Value>)
    | Answered(text: Text, calls: seq<Call>)

  function BlockValues(bs: seq<Block>): seq<Value> {
    if bs == [] then [] else [Denote(BlockJson(bs[0]))] + BlockValues(bs[1..])
  }

  function ViewOf(env: Env, m: Message): View {
    match m.role
    case System => Said(Word("system"), BlockValues(m.content))
    case User => Said(Word("user"), BlockValues(m.content))
    case ToolResult => Returned(m.toolCallId, BlockValues(m.content))
    case Assistant => Answered(env.flatten(Texts(m.content)), m.calls)
    case Other(name) => Said(name, BlockValues(m.content))
  }

  function CallValue(c: Call): Value {
    VObj(map[Word("name") := VStr(c.name), Word("args") := VStr(c.args)])
  }

  function CallValues(cs: seq<Call>): seq<Value> {
    if cs == [] then [] else [CallValue(cs[0])] + CallValues(cs[1..])
  }

  function ViewValue(v: View): Value {
    match v
    case Said(role, content) => VObj(map[Word("role") := VStr(role), Word("content") := VArr(content)])
    case Returned(id, content) =>
      VObj(map[Word("role") := VStr(Word("tool_result")), Word("tool_call_id") := VStr(id), Word("content") := VArr(content)])
    case Answered(text, calls) =>
      VObj(map[Word("role") := VStr(Word("assistant")), Word("text") := VStr(text), Word("tool_calls") := VArr(CallValues(calls))])
  }

  predicate ValidBlocks(bs: seq<Block>) {
    forall i :: 0 <= i < |bs| && bs[i].Plain? ==> Valid(bs[i].json)
  }

  lemma {:induction false} TwoMembers(k1: string, v1: Json, k2: string, v2: Json)
    requires Ascii(k1) && Ascii(k2) && k1 != k2 && Valid(v1) && Valid(v2)
    ensures Valid(Object2(k1, v1, k2, v2))
    ensures Denote(Object2(k1, v1, k2, v2)) == VObj(map[Word(k1) := Denote(v1), Word(k2) := Denote(v2)])
  {
    WordsApart(k1, k2);
    var m1 := WithMember(Word(k2), v2, NoMembers);
    var m2 := WithMember(Word(k1), v1, m1);
    assert DenoteMembers(m2) == map[Word(k1) := Denote(v1), Word(k2) := Denote(v2)];
  }

  lemma {:induction false} ThreeMembers(k1: string, v1: Json, k2: string, v2: Json, k3: string, v3: Json)
    requires Ascii(k1) && Ascii(k2) && Ascii(k3) && k1 != k2 && k1 != k3 && k2 != k3
    requires Valid(v1) && Valid(v2) && Valid(v3)
    ensures Valid(Object3(k1, v1, k2, v2, k3, v3))
    ensures Denote(Object3(k1, v1, k2, v2, k3, v3))
         == VObj(map[Word(k1) := Denote(v1), Word(k2) := Denote(v2), Word(k3) := Denote(v3)])
  {
    WordsApart(k1, k2);
    WordsApart(k1, k3);
    WordsApart(k2, k3);
    var m1 := WithMember(Word(k3), v3, NoMembers);
    var m2 := WithMember(Word(k2), v2, m1);
    var m3 := WithMember(Word(k1), v1, m2);
    assert DenoteMembers(m3) == map[Word(k1) := Denote(v1), Word(k2) := Denote(v2), Word(k3) := Denote(v3)];
  }

  lemma {:induction false} BlocksMean(bs: seq<Block>)
    requires ValidBlocks(bs)
    ensures ValidItems(Blocks(bs)) && DenoteItems(Blocks(bs)) == BlockValues(bs)
    decreases |bs|
  {
    if bs != [] {
      BlocksMean(bs[1..]);
      match bs[0]
      case TextBlock(text) => TwoMembers("type", Str(Word("text")), "text", Str(text));
      case Unhashable(kind) => TwoMembers("type", Str(kind), "unhashable", Bool(true));
      case Plain(json) =>
    }
  }

  lemma {:induction false} CallsMean(cs: seq<Call>)
    ensures ValidItems(Calls(cs)) && DenoteItems(Calls(cs)) == CallValues(cs)
    decreases |cs|
  {
    if cs != [] {
      CallsMean(cs[1..]);
      TwoMembers("name", Str(cs[0].name), "args", Str(cs[0].args));
    }
  }

  lemma {:induction false} SaidMeans(role: Text, bs: seq<Block>)
    requires ValidBlocks(bs)
    ensures var j := Object2("role", Str(role), "content", Arr(Blocks(bs)));
            Valid(j) && Denote(j) == ViewValue(Said(role, BlockValues(bs)))
  {
    BlocksMean(bs);
    TwoMembers("role", Str(role), "content", Arr(Blocks(bs)));
  }

  lemma {:induction false} ReturnedMeans(id: Text, bs: seq<Block>)
    requires ValidBlocks(bs)
    ensures var j := Object3("role", Str(Word("tool_result")), "tool_call_id", Str(id), "content", Arr(Blocks(bs)));
            Valid(j) && Denote(j) == ViewValue(Returned(id, BlockValues(bs)))
  {
    BlocksMean(bs);
    ThreeMembers("role", Str(Word("tool_result")), "tool_call_id", Str(id), "content", Arr(Blocks(bs)));
  }

  lemma {:induction false} AnsweredMeans(text: Text, cs: seq<Call>)
    ensures var j := Object3("role", Str(Word("assistant")), "text", Str(text), "tool_calls", Arr(Calls(cs)));
            Valid(j) && Denote(j) == ViewValue(Answered(text, cs))
  {
    CallsMean(cs);
    ThreeMembers("role", Str(Word("assistant")), "text", Str(text), "tool_calls", Arr(Calls(cs)));
  }

  lemma ProjectionMeans(env: Env, m: Message)
    requires ValidBlocks(m.content)
    ensures Valid(ProjectMessage(env, m)) && Denote(ProjectMessage(env, m)) == ViewValue(ViewOf(env, m))
  {
    match m.role
    case System => SaidMeans(Word("system"), m.content);
    case User => SaidMeans(Word("user"), m.content);
    case ToolResult => ReturnedMeans(m.toolCallId, m.content);
    case Assistant => AnsweredMeans(env.flatten(Texts(m.content)), m.calls);
    case Other(name) => SaidMeans(name, m.content);
  }

  lemma {:induction false} CallsApart(a: seq<Call>, b: seq<Call>)
    requires CallValues(a) == CallValues(b)
    ensures a == b
    decreases |a|
  {
    if a != [] && b != [] {
      Cons(CallValue(a[0]), CallValues(a[1..]), CallValue(b[0]), CallValues(b[1..]));
      CallApart(a[0], b[0]);
      CallsApart(a[1..], b[1..]);
      assert a == [a[0]] + a[1..] && b == [b[0]] + b[1..];
    }
  }

  lemma CallApart(c: Call, d: Call)
    requires CallValue(c) == CallValue(d)
    ensures c == d
  {
    WordsApart("name", "args");
    var m, n := CallValue(c).members, CallValue(d).members;
    assert m[Word("name")] == n[Word("name")] && m[Word("args")] == n[Word("args")];
  }

  lemma ViewWords()
    ensures Word("content") != Word("role") && Word("text") != Word("role") && Word("text") != Word("content")
    ensures Word("tool_call_id") !in {Word("role"), Word("content"), Word("text"), Word("tool_calls")}
    ensures Word("tool_calls") !in {Word("role"), Word("content"), Word("text")}
  {
    assert "text"[0] != "role"[0];
  }

  lemma ViewsApart(v: View, w: View)
    requires ViewValue(v) == ViewValue(w)
    ensures v == w
  {
    ViewWords();
    var m, n := ViewValue(v).members, ViewValue(w).members;
    assert m.Keys == n.Keys;
    assert Word("text") in m <==> Word("text") in n;
    assert Word("tool_call_id") in m <==> Word("tool_call_id") in n;
    assert m[Word("role")] == n[Word("role")];
    match v
    case Said(_, _) => assert m[Word("content")] == n[Word("content")];
    case Returned(_, _) =>
      assert m[Word("content")] == n[Word("content")] && m[Word("tool_call_id")] == n[Word("tool_call_id")];
    case Answered(_, calls) =>
      assert m[Word("text")] == n[Word("text")] && m[Word("tool_calls")] == n[Word("tool_calls")];
      CallsApart(calls, w.calls);
  }

  /** The turns a key speaks of. */
  function Views(env: Env, messages: seq<Message>): seq<View> {
    if messages == [] then []
    else
      var last := messages[|messages| - 1];
      Views(env, messages[..|messages| - 1]) + if last.role.System? then [] else [ViewOf(env, last)]
  }

  predicate ValidMessages(messages: seq<Message>) {
    forall m :: m in messages ==> ValidBlocks(m.content)
  }

  lemma {:induction false} ProjectedMean(env: Env, messages: seq<Message>)
    requires ValidMessages(messages) && ProjectTurns(env, messages).Some?
    ensures var vs, views := ProjectTurns(env, messages).value, Views(env, messages);
            |vs| == |views| && AllValid(vs) && forall i :: 0 <= i < |vs| ==> Denote(vs[i]) == ViewValue(views[i])
    decreases |messages|
  {
    if messages != [] {
      var init, last := messages[..|messages| - 1], messages[|messages| - 1];
      assert last in messages && forall m :: m in init ==> m in messages;
      ProjectedMean(env, init);
      ProjectionMeans(env, last);
    }
  }

  lemma SameMeaningsIff(vs: seq<Json>, ws: seq<Json>, a: seq<View>, b: seq<View>)
    requires |vs| == |a| && |ws| == |b|
    requires forall i :: 0 <= i < |vs| ==> Denote(vs[i]) == ViewValue(a[i])
    requires forall i :: 0 <= i < |ws| ==> Denote(ws[i]) == ViewValue(b[i])
    ensures Meanings(vs) == Meanings(ws) <==> a == b
  {
    if Meanings(vs) == Meanings(ws) {
      forall i | 0 <= i < |a| ensures |a| == |b| && a[i] == b[i] {
        assert Meanings(vs)[i] == Meanings(ws)[i];
        ViewsApart(a[i], b[i]);
      }
      assert |a| == |Meanings(vs)| == |b|;
    }
  }

  /** A lookup before `mine` finds what was stored after `theirs` exactly when the caller, the model, the route and the
      two digests agree and the histories agree turn by turn in what the projection keeps. */
  lemma {:induction false} LookupFindsStoredIff(env: Env, id: Identity, mine: seq<Message>, other: Identity, theirs: seq<Message>,
                                                c: Components, d: Components, k: nat)
    requires Before(env, id, mine) == Some(c) && After(env, other, theirs) == Some(d) && k == NewestStable(mine)
    requires ValidMessages(mine) && ValidMessages(theirs)
    ensures FingerprintBefore(env, id, mine) == FingerprintAfter(env, other, theirs) <==>
            (c.caller == d.caller && c.model == d.model && c.route == d.route && c.sys == d.sys && c.tools == d.tools
             && Views(env, mine[..k]) == Views(env, theirs))
  {
    SystemSkipped(env, theirs);
    assert forall m :: m in mine[..k] ==> m in mine;
    ProjectedMean(env, mine[..k]);
    ProjectedMean(env, theirs);
    SameMeaningsIff(c.turns, d.turns, Views(env, mine[..k]), Views(env, theirs));
    PayloadsAgreeIff(c, d);
  }

  // ------------------------------------------------------------------
  // When a lookup asks for what was stored
  // ------------------------------------------------------------------

  /** Digests are told apart, and none is empty. */
  ghost predicate CollisionFree(env: Env) {
    forall s, t :: env.digest(s, 32) != [] && (env.digest(s, 32) == env.digest(t, 32) ==> s == t)
  }

  predicate NoSystem(messages: seq<Message>) {
    forall m :: m in messages ==> !m.role.System?
  }

  /** A block that cannot be digested, in a turn whose blocks are in the key: system messages are hashed apart, and of an
      assistant's turn only the texts and calls count. */
  predicate Opaque(m: Message) {
    !m.role.System? && !m.role.Assistant? && exists b :: b in m.content && b.Unhashable?
  }

  predicate Undigestible(messages: seq<Message>) {
    exists m :: m in messages && Opaque(m)
  }

  lemma OpaqueIff(m: Message)
    ensures Opaque(m) <==> !m.role.System? && HasUnhashable(m)
  {
  }

  lemma {:induction false} NoProjectionIff(env: Env, messages: seq<Message>)
    ensures ProjectTurns(env, messages).None? <==> Undigestible(messages)
    decreases |messages|
  {
    if messages != [] {
      var init, last := messages[..|messages| - 1], messages[|messages| - 1];
      NoProjectionIff(env, init);
      OpaqueIff(last);
      assert messages == init + [last];
      assert forall m :: m in messages <==> m in init || m == last;
    }
  }

  lemma {:induction false} NoSystemTurnsIff(env: Env, messages: seq<Message>)
    ensures SystemTurns(env, messages) == [] <==> NoSystem(messages)
    decreases |messages|
  {
    if messages != [] {
      NoSystemTurnsIff(env, messages[1..]);
      assert messages == [messages[0]] + messages[1..];
    }
  }

  lemma {:induction false} NormalizedKeepsValid(env: Env, bs: seq<Block>)
    requires ValidBlocks(bs)
    ensures ValidBlocks(Normalized(env, bs))
    decreases |bs|
  {
    if bs != [] {
      NormalizedKeepsValid(env, bs[1..]);
    }
  }

  lemma {:induction false} SystemTurnsValid(env: Env, messages: seq<Message>)
    requires ValidMessages(messages)
    ensures AllValid(SystemTurns(env, messages))
    decreases |messages|
  {
    if messages != [] {
      var m := messages[0];
      assert m in messages && forall x :: x in messages[1..] ==> x in messages;
      SystemTurnsValid(env, messages[1..]);
      NormalizedKeepsValid(env, m.content);
      ProjectionMeans(env, m.(content := Normalized(env, m.content)));
    }
  }

  /** A longer list of values has another canonical text. */
  lemma {:induction false} LongerArraysDiffer(a: seq<Json>, b: seq<Json>)
    requires AllValid(a) && AllValid(b) && |a| != |b|
    ensures StableStringify(Arr(Array(a))) != StableStringify(Arr(Array(b)))
  {
    ArrayMeans(a);
    ArrayMeans(b);
    StableStringifyIff(Arr(Array(a)), Arr(Array(b)));
    assert |Meanings(a)| == |a| && |Meanings(b)| == |b|;
  }

  /** A tail of messages shows in the system digest only by its system messages; and then it does, if digests do not
      collide and system prompts are hashed. */
  lemma SystemDigestOfTail(env: Env, front: seq<Message>, tail: seq<Message>)
    ensures !env.hashSystem || NoSystem(tail) ==> SystemDigest(env, front + tail) == SystemDigest(env, front)
    ensures CollisionFree(env) && ValidMessages(front + tail) && env.hashSystem && !NoSystem(tail) ==>
              SystemDigest(env, front + tail) != SystemDigest(env, front)
  {
    var a, b := SystemTurns(env, front), SystemTurns(env, tail);
    SystemTurnsAppend(env, front, tail);
    NoSystemTurnsIff(env, tail);
    assert b == [] ==> a + b == a;
    if CollisionFree(env) && ValidMessages(front + tail) && env.hashSystem && b != [] && a != [] {
      assert forall m :: m in front ==> m in front + tail;
      SystemTurnsValid(env, front);
      SystemTurnsValid(env, front + tail);
      LongerArraysDiffer(a + b, a);
    }
  }

  /** For any message list: a lookup asks for what was stored after the messages before its newest user or tool turn
      if and only if those cannot be digested at all, or system prompts are not hashed, or none stands at or after that turn. */
  lemma {:induction false} LookupMatchesStoreIff(env: Env, id: Identity, messages: seq<Message>, k: int)
    requires CollisionFree(env) && ValidMessages(messages) && k == NewestStable(messages) && k > 0
    ensures FingerprintBefore(env, id, messages) == FingerprintAfter(env, id, messages[..k]) <==>
            (Undigestible(messages[..k]) || !env.hashSystem || NoSystem(messages[k..]))
  {
    var front, tail := messages[..k], messages[k..];
    assert messages == front + tail;
    LookupAndStore(env, id, messages, k);
    NoProjectionIff(env, front);
    SystemDigestOfTail(env, front, tail);
    if ProjectTurns(env, front).Some? {
      assert forall m :: m in front ==> m in messages;
      ProjectedMean(env, front);
      PayloadsAgreeIff(Before(env, id, messages).value, After(env, id, front).value);
    }
  }

  /** One direction needs nothing of the digest. */
  lemma {:induction false} QuietTailMatches(env: Env, id: Identity, messages: seq<Message>, k: int)
    requires k == NewestStable(messages) && k > 0 && (!env.hashSystem || NoSystem(messages[k..]))
    ensures FingerprintBefore(env, id, messages) == FingerprintAfter(env, id, messages[..k])
  {
    assert messages == messages[..k] + messages[k..];
    LookupAndStore(env, id, messages, k);
    SystemDigestOfTail(env, messages[..k], messages[k..]);
  }

  /** A system message behind the newest turn makes the lookup miss what was stored. */
  lemma LateSystemMessageMisses(env: Env, id: Identity, text: Text)
    requires CollisionFree(env) && env.hashSystem
    ensures var first, next, late := Message(User, [TextBlock(text)], [], []), Message(User, [], [], []), Message(System, [], [], []);
            FingerprintBefore(env, id, [first, next, late]) != FingerprintAfter(env, id, [first])
            && FingerprintBefore(env, id, [first, next]) == FingerprintAfter(env, id, [first])
  {
    var first, next, late := Message(User, [TextBlock(text)], [], []), Message(User, [], [], []), Message(System, [], [], []);
    var all := [first, next, late];
    NextTurnIsNewest([first], next, [first, next]);
    assert all[..2] == [first, next] && all[..1] == [first] && all[1..] == [next, late];
    assert late in all[1..];
    assert NewestStable(all) == 1 by {
      assert !Newest(all[2]) && all[..|all| - 1] == [first, next];
    }
    LookupMatchesStoreIff(env, id, all, 1);
    assert [first] + [next] == [first, next];
    KeyContinuity(env, id, [first], next);
  }

  // ------------------------------------------------------------------
  // The order of tools
  // ------------------------------------------------------------------

  /** The comparison is a total preorder. */
  ghost predicate Consistent(env: Env) {
    (forall a, b :: env.compare(a, b) <= 0 || env.compare(b, a) <= 0)
    && (forall a, b, c :: env.compare(a, b) <= 0 && env.compare(b, c) <= 0 ==> env.compare(a, c) <= 0)
  }

  predicate Tied(env: Env, a: Text, b: Text) {
    env.compare(a, b) <= 0 && env.compare(b, a) <= 0
  }

  /** The tools whose names the comparison cannot tell from `name`. */
  function TiedTo(env: Env, tools: seq<Tool>, name: Text): seq<Tool> {
    Filter(tools, TiedWith(env, name))
  }

  function TiedWith(env: Env, name: Text): Tool -> bool {
    (t: Tool) => Tied(env, t.name, name)
  }

  lemma ByNameRanks(env: Env)
    requires Consistent(env)
    ensures Ranks(ByName(env))
  {
    var before := ByName(env);
    forall x, y ensures !(before(x, y) && before(y, x)) {
      assert env.compare(x.name, y.name) <= 0 || env.compare(y.name, x.name) <= 0;
    }
    forall x, y, z | !before(y, x) && !before(z, y) ensures !before(z, x) {
      assert env.compare(x.name, y.name) <= 0 && env.compare(y.name, z.name) <= 0;
    }
  }

  lemma SortToolsKeepsTies(env: Env, tools: seq<Tool>, name: Text)
    requires Consistent(env)
    ensures TiedTo(env, SortTools(env, tools), name) == TiedTo(env, tools, name)
  {
    SortByIsStable(tools, ByName(env), TiedWith(env, name));
  }

  lemma {:induction false} TiedToMembers(env: Env, tools: seq<Tool>, name: Text, t: Tool)
    ensures t in TiedTo(env, tools, name) <==> t in tools && Tied(env, t.name, name)
    decreases |tools|
  {
    if tools != [] {
      TiedToMembers(env, tools[1..], name, t);
      assert t in tools <==> t == tools[0] || t in tools[1..];
    }
  }

  /** Every tool of one list is met by the first of the other. */
  lemma {:induction false} FirstIsLeast(env: Env, a: seq<Tool>, b: seq<Tool>)
    requires Consistent(env) && a != [] && b != [] && InOrder(b, ByName(env))
    requires TiedTo(env, a, a[0].name) == TiedTo(env, b, a[0].name)
    ensures env.compare(b[0].name, a[0].name) <= 0
  {
    TiedToMembers(env, a, a[0].name, a[0]);
    TiedToMembers(env, b, a[0].name, a[0]);
    assert !ByName(env)(a[0], b[0]);
  }

  /** Tools that the comparison cannot tell apart come in the same order. */
  ghost predicate SameTies(env: Env, a: seq<Tool>, b: seq<Tool>) {
    forall name :: TiedTo(env, a, name) == TiedTo(env, b, name)
  }

  lemma FirstOfTies(env: Env, a: seq<Tool>)
    requires Consistent(env)
    ensures a != [] ==> TiedTo(env, a, a[0].name) != [] && TiedTo(env, a, a[0].name)[0] == a[0]
    ensures a == [] ==> forall name :: TiedTo(env, a, name) == []
  {
  }

  lemma {:induction false} TiesDetermine(env: Env, a: seq<Tool>, b: seq<Tool>)
    requires Consistent(env) && InOrder(a, ByName(env)) && InOrder(b, ByName(env)) && SameTies(env, a, b)
    ensures a == b
    decreases |a|
  {
    FirstOfTies(env, a);
    FirstOfTies(env, b);
    if a != [] && b != [] {
      FirstIsLeast(env, a, b);
      FirstIsLeast(env, b, a);
      assert TiedTo(env, b, a[0].name)[0] == b[0];
      forall name ensures TiedTo(env, a[1..], name) == TiedTo(env, b[1..], name) {
        var skip := if Tied(env, a[0].name, name) then 1 else 0;
        assert TiedTo(env, a, name)[skip..] == TiedTo(env, a[1..], name);
        assert TiedTo(env, b, name)[skip..] == TiedTo(env, b[1..], name);
      }
      TiesDetermine(env, a[1..], b[1..]);
      assert a == [a[0]] + a[1..] && b == [b[0]] + b[1..];
    }
  }

  lemma SortingKeepsTies(env: Env, tools: seq<Tool>)
    requires Consistent(env)
    ensures SameTies(env, SortTools(env, tools), tools)
  {
    forall name ensures TiedTo(env, SortTools(env, tools), name) == TiedTo(env, tools, name) {
      SortToolsKeepsTies(env, tools, name);
    }
  }

  lemma TiesCarryOver(env: Env, a: seq<Tool>, a': seq<Tool>, b: seq<Tool>, b': seq<Tool>)
    requires SameTies(env, a', a) && SameTies(env, b', b) && SameTies(env, a, b)
    ensures SameTies(env, a', b')
  {
    forall name ensures TiedTo(env, a', name) == TiedTo(env, b', name) {
      assert TiedTo(env, a', name) == TiedTo(env, a, name) && TiedTo(env, b', name) == TiedTo(env, b, name);
    }
  }

  lemma TiesReverse(env: Env, a: seq<Tool>, b: seq<Tool>)
    requires SameTies(env, a, b)
    ensures SameTies(env, b, a)
  {
    forall name ensures TiedTo(env, b, name) == TiedTo(env, a, name) {
      assert TiedTo(env, a, name) == TiedTo(env, b, name);
    }
  }

  /** Two tool lists sort to the same list exactly when tools with indistinguishable names come in the same order. */
  lemma SortToolsIff(env: Env, a: seq<Tool>, b: seq<Tool>)
    requires Consistent(env)
    ensures SortTools(env, a) == SortTools(env, b) <==> SameTies(env, a, b)
  {
    var s, t := SortTools(env, a), SortTools(env, b);
    SortingKeepsTies(env, a);
    SortingKeepsTies(env, b);
    if SameTies(env, a, b) {
      TiesCarryOver(env, a, s, b, t);
      ByNameRanks(env);
      SortByOrders(a, ByName(env));
      SortByOrders(b, ByName(env));
      TiesDetermine(env, s, t);
    }
    if s == t {
      TiesReverse(env, s, a);
      TiesReverse(env, t, b);
      TiesCarryOver(env, s, a, t, b);
    }
  }

  lemma {:induction false} TiesAsMultiset(env: Env, tools: seq<Tool>, name: Text, t: Tool)
    ensures multiset(TiedTo(env, tools, name))[t] == if Tied(env, t.name, name) then multiset(tools)[t] else 0
    decreases |tools|
  {
    if tools != [] {
      TiesAsMultiset(env, tools[1..], name, t);
      assert tools == [tools[0]] + tools[1..];
    }
  }

  /** No two tools have names that the comparison cannot tell apart. */
  ghost predicate Separated(env: Env, tools: seq<Tool>) {
    forall i, j :: 0 <= i < j < |tools| ==> !Tied(env, tools[i].name, tools[j].name)
  }

  lemma {:induction false} AtMostOneTied(env: Env, tools: seq<Tool>, name: Text)
    requires Consistent(env) && Separated(env, tools)
    ensures |TiedTo(env, tools, name)| <= 1
    decreases |tools|
  {
    if tools != [] {
      var rest := tools[1..];
      assert forall i, j :: 0 <= i < j < |rest| ==> rest[i] == tools[i + 1] && rest[j] == tools[j + 1];
      AtMostOneTied(env, rest, name);
      if Tied(env, tools[0].name, name) && TiedTo(env, rest, name) != [] {
        var t := TiedTo(env, rest, name)[0];
        TiedToMembers(env, rest, name, t);
      }
    }
  }

  /** The order in which a client lists its tools does not matter when their names can be told apart. */
  lemma ToolOrderIrrelevant(env: Env, id: Identity, tools: seq<Tool>, messages: seq<Message>)
    requires Consistent(env) && Separated(env, tools) && multiset(tools) == multiset(id.opts.tools)
    ensures var other := id.(opts := id.opts.(tools := tools));
            FingerprintBefore(env, other, messages) == FingerprintBefore(env, id, messages)
            && FingerprintAfter(env, other, messages) == FingerprintAfter(env, id, messages)
  {
    PermutedTies(env, tools, id.opts.tools);
    SortToolsIff(env, tools, id.opts.tools);
  }

  lemma PermutedTies(env: Env, tools: seq<Tool>, theirs: seq<Tool>)
    requires Consistent(env) && Separated(env, tools) && multiset(tools) == multiset(theirs)
    ensures SameTies(env, tools, theirs)
  {
    forall name ensures TiedTo(env, tools, name) == TiedTo(env, theirs, name) {
      AtMostOneTied(env, tools, name);
      var a, b := TiedTo(env, tools, name), TiedTo(env, theirs, name);
      forall t ensures multiset(a)[t] == multiset(b)[t] {
        TiesAsMultiset(env, tools, name, t);
        TiesAsMultiset(env, theirs, name, t);
      }
      assert multiset(a) == multiset(b);
      SameSingleton(a, b);
    }
  }

  lemma SameSingleton<T>(a: seq<T>, b: seq<T>)
    requires multiset(a) == multiset(b) && |a| <= 1
    ensures a == b
  {
    assert |b| == |multiset(b)| == |multiset(a)| == |a|;
    if |a| == 1 {
      assert a[0] in multiset(b);
    }
  }

  /** When they cannot, it does: such tools stay in the order of the request. */
  lemma TiesKeepRequestOrder(env: Env, s: Tool, t: Tool)
    requires Consistent(env) && Tied(env, s.name, t.name) && s != t
    ensures SortTools(env, [s, t]) == [s, t] && SortTools(env, [t, s]) == [t, s]
    ensures SortTools(env, [s, t]) != SortTools(env, [t, s])
  {
    var before := ByName(env);
    assert !before(s, t) && !before(t, s);
    assert [s, t][1..] == [t] && [t, s][1..] == [s] && [s][1..] == [] == [t][1..];
    assert SortBy([s], before) == InsertBy(s, [], before) == [s] && SortBy([t], before) == InsertBy(t, [], before) == [t];
    assert InsertBy(s, [t], before) == [s, t] && InsertBy(t, [s], before) == [t, s];
    assert [s, t][0] != [t, s][0];
  }
}
