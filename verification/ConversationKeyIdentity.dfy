/** What two keys that agree have in common, said by the callers, the requests and the messages themselves. */
module ConversationKeyIdentity {
  import opened Prelude
  import opened CanonicalJson
  import opened CanonicalJsonLaws
  import opened ConversationKeys
  import opened ConversationKeyLaws

  // ------------------------------------------------------------------
  // Tools
  // ------------------------------------------------------------------

  predicate ValidTools(tools: seq<Tool>) {
    forall t :: t in tools ==> Valid(t.description) && Valid(t.parameters)
  }

  predicate ValidOptions(opts: Options) {
    ValidTools(opts.tools) && Valid(opts.toolChoice) && Valid(opts.preambleTier)
  }

  /** A tool as far as it is hashed. */
  datatype ToolView = ToolView(name: Text, description: Value, parameters: Value)

  function ToolViews(tools: seq<Tool>): seq<ToolView> {
    if tools == [] then []
    else [ToolView(tools[0].name, Denote(tools[0].description), Denote(tools[0].parameters))] + ToolViews(tools[1..])
  }

  function ToolValue(v: ToolView): Value {
    VObj(map[Word("name") := VStr(v.name), Word("description") := v.description, Word("parameters") := v.parameters])
  }

  function ToolValues(vs: seq<ToolView>): seq<Value> {
    if vs == [] then [] else [ToolValue(vs[0])] + ToolValues(vs[1..])
  }

  lemma {:induction false} ToolMeans(t: Tool)
    requires Valid(t.description) && Valid(t.parameters)
    ensures var j := Object3("name", Str(t.name), "description", t.description, "parameters", t.parameters);
            Valid(j) && Denote(j) == ToolValue(ToolView(t.name, Denote(t.description), Denote(t.parameters)))
  {
    ThreeMembers("name", Str(t.name), "description", t.description, "parameters", t.parameters);
  }

  lemma {:induction false} ToolsMean(tools: seq<Tool>)
    requires ValidTools(tools)
    ensures ValidItems(ToolItems(tools)) && DenoteItems(ToolItems(tools)) == ToolValues(ToolViews(tools))
    decreases |tools|
  {
    if tools != [] {
      var t, views := tools[0], ToolViews(tools);
      assert t in tools && forall x :: x in tools[1..] ==> x in tools;
      ToolsMean(tools[1..]);
      assert views[1..] == ToolViews(tools[1..]) && views[0] == ToolView(t.name, Denote(t.description), Denote(t.parameters));
      ToolMeans(t);
    }
  }

  lemma ToolWords()
    ensures Word("name") != Word("description") && Word("name") != Word("parameters") && Word("description") != Word("parameters")
  {
    WordsApart("name", "description");
    WordsApart("name", "parameters");
    WordsApart("description", "parameters");
  }

  lemma ToolViewsApart(v: ToolView, w: ToolView)
    requires ToolValue(v) == ToolValue(w)
    ensures v == w
  {
    ToolWords();
    var m, n := ToolValue(v).members, ToolValue(w).members;
    assert m[Word("name")] == n[Word("name")] && m[Word("description")] == n[Word("description")]
           && m[Word("parameters")] == n[Word("parameters")];
  }

  lemma {:induction false} ToolListsApart(a: seq<ToolView>, b: seq<ToolView>)
    requires ToolValues(a) == ToolValues(b)
    ensures a == b
    decreases |a|
  {
    if a != [] && b != [] {
      Cons(ToolValue(a[0]), ToolValues(a[1..]), ToolValue(b[0]), ToolValues(b[1..]));
      ToolViewsApart(a[0], b[0]);
      ToolListsApart(a[1..], b[1..]);
      assert a == [a[0]] + a[1..] && b == [b[0]] + b[1..];
    }
  }

  /** Digests of both lengths in use are told apart, and none is empty. */
  ghost predicate Injective(env: Env) {
    CollisionFree(env) && forall s, t :: env.digest(s, 16) != [] && (env.digest(s, 16) == env.digest(t, 16) ==> s == t)
  }

  function PreambleDigest(env: Env, preamble: Text): Text {
    if preamble == [] then [] else env.digest(preamble, 16)
  }

  lemma ContextWords()
    ensures Word("tools") != Word("tool_choice") && Word("tools") != Word("preambleTier") && Word("tools") != Word("toolPreambleHash")
    ensures Word("tool_choice") != Word("preambleTier") && Word("tool_choice") != Word("toolPreambleHash")
    ensures Word("preambleTier") != Word("toolPreambleHash")
  {
    WordsApart("tools", "tool_choice");
    WordsApart("tools", "preambleTier");
    WordsApart("tools", "toolPreambleHash");
    WordsApart("tool_choice", "preambleTier");
    WordsApart("tool_choice", "toolPreambleHash");
    WordsApart("preambleTier", "toolPreambleHash");
  }

  function ContextValue(env: Env, opts: Options): map<Text, Value> {
    map[Word("tools") := VArr(ToolValues(ToolViews(SortTools(env, opts.tools)))), Word("tool_choice") := Denote(opts.toolChoice),
        Word("preambleTier") := Denote(opts.preambleTier), Word("toolPreambleHash") := VStr(PreambleDigest(env, opts.toolPreamble))]
  }

  lemma SortedToolsValid(env: Env, tools: seq<Tool>)
    requires ValidTools(tools)
    ensures ValidTools(SortTools(env, tools))
  {
    forall t | t in SortTools(env, tools) ensures t in tools {
      SortByHas(tools, ByName(env), t);
    }
  }

  lemma ContextMeans(env: Env, opts: Options)
    requires ValidOptions(opts)
    ensures Valid(ToolContext(env, opts)) && Denote(ToolContext(env, opts)) == VObj(ContextValue(env, opts))
  {
    ContextWords();
    SortedToolsValid(env, opts.tools);
    ToolsMean(SortTools(env, opts.tools));
    var m1 := WithMember(Word("toolPreambleHash"), Str(PreambleDigest(env, opts.toolPreamble)), NoMembers);
    var m2 := WithMember(Word("preambleTier"), opts.preambleTier, m1);
    var m3 := WithMember(Word("tool_choice"), opts.toolChoice, m2);
    var m4 := WithMember(Word("tools"), Arr(ToolItems(SortTools(env, opts.tools))), m3);
    assert ToolContext(env, opts) == Obj(m4);
    assert DenoteMembers(m4) == ContextValue(env, opts);
  }

  /** The same tools in the sorted order, the same choice, tier and preamble; of these nothing counts while tools are not emulated. */
  predicate SameTools(env: Env, a: Options, b: Options) {
    && a.emulateTools == b.emulateTools
    && (a.emulateTools ==>
          && ToolViews(SortTools(env, a.tools)) == ToolViews(SortTools(env, b.tools))
          && Denote(a.toolChoice) == Denote(b.toolChoice) && Denote(a.preambleTier) == Denote(b.preambleTier)
          && a.toolPreamble == b.toolPreamble)
  }

  lemma ContextsAgreeIff(env: Env, a: Options, b: Options)
    requires Injective(env)
    ensures ContextValue(env, a) == ContextValue(env, b) <==> SameTools(env, a.(emulateTools := true), b.(emulateTools := true))
  {
    ContextWords();
    var m, n := ContextValue(env, a), ContextValue(env, b);
    if m == n {
      assert m[Word("tools")] == n[Word("tools")] && m[Word("tool_choice")] == n[Word("tool_choice")];
      assert m[Word("preambleTier")] == n[Word("preambleTier")] && m[Word("toolPreambleHash")] == n[Word("toolPreambleHash")];
      ToolListsApart(ToolViews(SortTools(env, a.tools)), ToolViews(SortTools(env, b.tools)));
    }
  }

  /** The tool digests agree exactly when the tools do. */
  lemma ToolDigestsAgreeIff(env: Env, a: Options, b: Options)
    requires Injective(env) && ValidOptions(a) && ValidOptions(b)
    ensures ToolContextDigest(env, a) == ToolContextDigest(env, b) <==> SameTools(env, a, b)
  {
    if a.emulateTools && b.emulateTools {
      ContextMeans(env, a);
      ContextMeans(env, b);
      StableStringifyIff(ToolContext(env, a), ToolContext(env, b));
      ContextsAgreeIff(env, a, b);
    }
  }

  // ------------------------------------------------------------------
  // System messages
  // ------------------------------------------------------------------

  /** The system messages as they are hashed: their blocks with the texts rewritten. */
  function SystemViews(env: Env, messages: seq<Message>): seq<View> {
    if messages == [] then []
    else
      (if messages[0].role.System? then [Said(Word("system"), BlockValues(Normalized(env, messages[0].content)))] else [])
      + SystemViews(env, messages[1..])
  }

  lemma {:induction false} SystemTurnsMean(env: Env, messages: seq<Message>)
    requires ValidMessages(messages)
    ensures var vs, views := SystemTurns(env, messages), SystemViews(env, messages);
            |vs| == |views| && AllValid(vs) && forall i :: 0 <= i < |vs| ==> Denote(vs[i]) == ViewValue(views[i])
    decreases |messages|
  {
    if messages != [] {
      var m := messages[0];
      assert m in messages && forall x :: x in messages[1..] ==> x in messages;
      SystemTurnsMean(env, messages[1..]);
      NormalizedKeepsValid(env, m.content);
      ProjectionMeans(env, m.(content := Normalized(env, m.content)));
    }
  }

  /** The same system messages, which only count while system prompts are hashed. */
  predicate SameSystem(env: Env, mine: seq<Message>, theirs: seq<Message>) {
    env.hashSystem ==> SystemViews(env, mine) == SystemViews(env, theirs)
  }

  lemma SystemDigestsAgreeIff(env: Env, mine: seq<Message>, theirs: seq<Message>)
    requires CollisionFree(env) && ValidMessages(mine) && ValidMessages(theirs)
    ensures SystemDigest(env, mine) == SystemDigest(env, theirs) <==> SameSystem(env, mine, theirs)
  {
    var a, b := SystemTurns(env, mine), SystemTurns(env, theirs);
    SystemTurnsMean(env, mine);
    SystemTurnsMean(env, theirs);
    SameMeaningsIff(a, b, SystemViews(env, mine), SystemViews(env, theirs));
    ArrayMeans(a);
    ArrayMeans(b);
    StableStringifyIff(Arr(Array(a)), Arr(Array(b)));
  }

  // ------------------------------------------------------------------
  // Keys
  // ------------------------------------------------------------------

  function RouteOf(opts: Options): Text {
    if opts.route != [] then opts.route else Word("chat")
  }

  /** Who asks, for which model and route, with which tools, behind which system prompts. */
  predicate SameRequest(env: Env, id: Identity, mine: seq<Message>, other: Identity, theirs: seq<Message>) {
    && id.caller == other.caller && id.model == other.model && RouteOf(id.opts) == RouteOf(other.opts)
    && SameTools(env, id.opts, other.opts) && SameSystem(env, mine, theirs)
  }

  /** What is digested of a conversation as a whole, and which turns of it are listed. */
  ghost predicate Listed(env: Env, id: Identity, all: seq<Message>, turns: seq<Message>, key: Option<Text>) {
    && ProjectTurns(env, turns).Some?
    && key == Hashed(Some(ComponentsOf(env, id, all, ProjectTurns(env, turns).value)))
  }

  lemma {:induction false} ListedAgreeIff(env: Env, id: Identity, mine: seq<Message>, turns: seq<Message>, key: Option<Text>,
                                          other: Identity, theirs: seq<Message>, turns': seq<Message>, key': Option<Text>)
    requires Injective(env) && ValidOptions(id.opts) && ValidOptions(other.opts)
    requires ValidMessages(mine) && ValidMessages(theirs) && ValidMessages(turns) && ValidMessages(turns')
    requires Listed(env, id, mine, turns, key) && Listed(env, other, theirs, turns', key')
    ensures key == key' <==> SameRequest(env, id, mine, other, theirs) && Views(env, turns) == Views(env, turns')
  {
    var vs, ws := ProjectTurns(env, turns).value, ProjectTurns(env, turns').value;
    ProjectedMean(env, turns);
    ProjectedMean(env, turns');
    SameMeaningsIff(vs, ws, Views(env, turns), Views(env, turns'));
    PayloadsAgreeIff(ComponentsOf(env, id, mine, vs), ComponentsOf(env, other, theirs, ws));
    ToolDigestsAgreeIff(env, id.opts, other.opts);
    SystemDigestsAgreeIff(env, mine, theirs);
  }

  lemma BeforeIsListed(env: Env, id: Identity, messages: seq<Message>)
    requires FingerprintBefore(env, id, messages).Some?
    ensures NewestStable(messages) > 0 && !Undigestible(messages[..NewestStable(messages)])
    ensures Listed(env, id, messages, messages[..NewestStable(messages)], FingerprintBefore(env, id, messages))
  {
    NoProjectionIff(env, messages[..NewestStable(messages)]);
  }

  lemma AfterIsListed(env: Env, id: Identity, messages: seq<Message>)
    requires FingerprintAfter(env, id, messages).Some?
    ensures messages != [] && !Undigestible(messages)
    ensures Listed(env, id, messages, messages, FingerprintAfter(env, id, messages))
  {
    SystemSkipped(env, messages);
    NoProjectionIff(env, messages);
  }

  /** The newest turn is the last one of a user or a tool, whatever comes behind it. */
  lemma {:induction false} NewestIff(messages: seq<Message>, k: nat)
    ensures NewestStable(messages) == k <==>
            k < |messages| && messages[k].role in {User, ToolResult} && forall j :: k < j < |messages| ==> messages[j].role !in {User, ToolResult}
    ensures NewestStable(messages) < 0 <==> forall m :: m in messages ==> m.role !in {User, ToolResult}
  {
    var n := NewestStable(messages);
    if n < 0 {
      assert forall j :: 0 <= j < |messages| ==> !Newest(messages[j]);
    } else {
      assert messages[n] in messages;
    }
  }

  /** There is a key to look up exactly when something digestible comes before the newest user or tool turn, and one to store
      exactly when something digestible was said. */
  lemma KeysExistIff(env: Env, id: Identity, messages: seq<Message>)
    ensures FingerprintBefore(env, id, messages).Some? <==> NewestStable(messages) > 0 && !Undigestible(messages[..NewestStable(messages)])
    ensures FingerprintAfter(env, id, messages).Some? <==> messages != [] && !Undigestible(messages)
  {
    if NewestStable(messages) > 0 {
      NoProjectionIff(env, messages[..NewestStable(messages)]);
    }
    SystemSkipped(env, messages);
    NoProjectionIff(env, messages);
  }

  /** A lookup finds what was stored exactly when caller, model and effective route are the same, so are the emulated tools and
      the hashed system messages, and the histories agree turn by turn in what is kept of a turn. */
  lemma {:induction false} KeysAgreeIff(env: Env, id: Identity, mine: seq<Message>, other: Identity, theirs: seq<Message>)
    requires Injective(env) && ValidOptions(id.opts) && ValidOptions(other.opts) && ValidMessages(mine) && ValidMessages(theirs)
    requires FingerprintBefore(env, id, mine).Some? && FingerprintAfter(env, other, theirs).Some?
    ensures NewestStable(mine) > 0
    ensures FingerprintBefore(env, id, mine) == FingerprintAfter(env, other, theirs) <==>
            SameRequest(env, id, mine, other, theirs) && Views(env, mine[..NewestStable(mine)]) == Views(env, theirs)
  {
    BeforeIsListed(env, id, mine);
    AfterIsListed(env, other, theirs);
    var turns := mine[..NewestStable(mine)];
    assert forall m :: m in turns ==> m in mine;
    ListedAgreeIff(env, id, mine, turns, FingerprintBefore(env, id, mine), other, theirs, theirs, FingerprintAfter(env, other, theirs));
  }

  /** The key texts of a lookup and of a store. */
  ghost predicate KeyOf(env: Env, id: Identity, messages: seq<Message>, key: Text) {
    FingerprintBefore(env, id, messages) == Some(key) || FingerprintAfter(env, id, messages) == Some(key)
  }

  /** Two callers never share a key, nor do two models, whatever they say and whatever the digest. */
  lemma {:induction false} CallersNeverShareKeys(env: Env, id: Identity, mine: seq<Message>, key: Text,
                                                 other: Identity, theirs: seq<Message>, key': Text)
    requires ValidMessages(mine) && ValidMessages(theirs) && (id.caller != other.caller || id.model != other.model)
    requires KeyOf(env, id, mine, key) && KeyOf(env, other, theirs, key')
    ensures key != key'
  {
    var turns, vs := KeyIsListed(env, id, mine, key);
    var turns', ws := KeyIsListed(env, other, theirs, key');
    PayloadsAgreeIff(ComponentsOf(env, id, mine, vs), ComponentsOf(env, other, theirs, ws));
  }

  lemma {:induction false} KeyIsListed(env: Env, id: Identity, messages: seq<Message>, key: Text) returns (turns: seq<Message>, vs: seq<Json>)
    requires ValidMessages(messages) && KeyOf(env, id, messages, key)
    ensures Listed(env, id, messages, turns, Some(key)) && vs == ProjectTurns(env, turns).value && AllValid(vs)
  {
    if FingerprintAfter(env, id, messages) == Some(key) {
      AfterIsListed(env, id, messages);
      turns := messages;
    } else {
      BeforeIsListed(env, id, messages);
      turns := messages[..NewestStable(messages)];
      assert forall m :: m in turns ==> m in messages;
    }
    ProjectedMean(env, turns);
    vs := ProjectTurns(env, turns).value;
  }
}
