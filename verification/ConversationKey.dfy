/** The key under which a conversation is stored after a turn and looked up before the next one. */
module ConversationKeys {
  import opened Prelude
  import opened CanonicalJson

  /** What the key computation takes from elsewhere: a digest of a given length, the rewriting of system
      prompts, the flattening of an assistant's text blocks, and the comparison of names under the locale. */
  datatype Env = Env(
    hashSystem: bool, digest: (Text, nat) -> Text, normalize: Text -> Text, flatten: seq<Text> -> Text,
    compare: (Text, Text) -> int)

  datatype Role = System | User | ToolResult | Assistant | Other(name: Text)

  /** A content block after canonicalisation. */
  datatype Block = TextBlock(text: Text) | Unhashable(kind: Text) | Plain(json: Json)

  datatype Call = Call(name: Text, args: Text)

  datatype Message = Message(role: Role, content: seq<Block>, toolCallId: Text, calls: seq<Call>)

  datatype Tool = Tool(name: Text, description: Json, parameters: Json)

  datatype Options = Options(
    emulateTools: bool, tools: seq<Tool>, toolChoice: Json, preambleTier: Json, toolPreamble: Text, route: Text)

  datatype Identity = Identity(caller: Text, model: Text, opts: Options)

  // ------------------------------------------------------------------
  // Projection
  // ------------------------------------------------------------------

  predicate Ascii(s: string) {
    forall i :: 0 <= i < |s| ==> s[i] as int < 128
  }

  function Object2(k1: string, v1: Json, k2: string, v2: Json): Json
    requires Ascii(k1) && Ascii(k2)
  {
    Obj(Member(Word(k1), v1, Member(Word(k2), v2, NoMembers)))
  }

  function Object3(k1: string, v1: Json, k2: string, v2: Json, k3: string, v3: Json): Json
    requires Ascii(k1) && Ascii(k2) && Ascii(k3)
  {
    Obj(Member(Word(k1), v1, Member(Word(k2), v2, Member(Word(k3), v3, NoMembers))))
  }

  function BlockJson(b: Block): Json {
    match b
    case TextBlock(text) => Object2("type", Str(Word("text")), "text", Str(text))
    case Unhashable(kind) => Object2("type", Str(kind), "unhashable", Bool(true))
    case Plain(json) => json
  }

  function Blocks(bs: seq<Block>): Items {
    if bs == [] then NoItems else Item(BlockJson(bs[0]), Blocks(bs[1..]))
  }

  function Texts(bs: seq<Block>): seq<Text> {
    if bs == [] then [] else (if bs[0].TextBlock? then [bs[0].text] else []) + Texts(bs[1..])
  }

  function Calls(cs: seq<Call>): Items {
    if cs == [] then NoItems
    else Item(Object2("name", Str(cs[0].name), "args", Str(cs[0].args)), Calls(cs[1..]))
  }

  function ProjectMessage(env: Env, m: Message): Json {
    match m.role
    case System => Object2("role", Str(Word("system")), "content", Arr(Blocks(m.content)))
    case User => Object2("role", Str(Word("user")), "content", Arr(Blocks(m.content)))
    case ToolResult =>
      Object3("role", Str(Word("tool_result")), "tool_call_id", Str(m.toolCallId), "content", Arr(Blocks(m.content)))
    case Assistant =>
      Object3("role", Str(Word("assistant")), "text", Str(env.flatten(Texts(m.content))), "tool_calls", Arr(Calls(m.calls)))
    case Other(name) => Object2("role", Str(name), "content", Arr(Blocks(m.content)))
  }

  /** The projection of an assistant turn has no content blocks, so nothing in it is unhashable. */
  predicate HasUnhashable(m: Message) {
    !m.role.Assistant? && exists i :: 0 <= i < |m.content| && m.content[i].Unhashable?
  }

  /** The turns in the key, without system messages; none when one of them cannot be digested. */
  function ProjectTurns(env: Env, turns: seq<Message>): Option<seq<Json>> {
    if turns == [] then Some([])
    else
      var last := turns[|turns| - 1];
      var before := ProjectTurns(env, turns[..|turns| - 1]);
      if before.None? || last.role.System? then before
      else if HasUnhashable(last) then None
      else Some(before.value + [ProjectMessage(env, last)])
  }

  method ProjectAll(env: Env, turns: seq<Message>) returns (r: Option<seq<Json>>)
    ensures r == ProjectTurns(env, turns)
  {
    var projected := [];
    var i := 0;
    while i < |turns|
      invariant i <= |turns|
      invariant ProjectTurns(env, turns[..i]) == Some(projected)
    {
      var m := turns[i];
      assert turns[..i + 1][..i] == turns[..i];
      if !m.role.System? {
        if HasUnhashable(m) {
          NoProjection(env, turns, i + 1);
          return None;
        }
        projected := projected + [ProjectMessage(env, m)];
      }
      i := i + 1;
    }
    assert turns[..i] == turns;
    return Some(projected);
  }

  /** One turn that cannot be digested is enough. */
  lemma {:induction false} NoProjection(env: Env, turns: seq<Message>, i: nat)
    requires i <= |turns| && ProjectTurns(env, turns[..i]).None?
    ensures ProjectTurns(env, turns).None?
    decreases |turns|
  {
    if i == |turns| {
      assert turns[..i] == turns;
    } else {
      var init := turns[..|turns| - 1];
      assert init[..i] == turns[..i];
      NoProjection(env, init, i);
    }
  }

  predicate Newest(m: Message) {
    m.role.User? || m.role.ToolResult?
  }

  /** Where the newest user or tool turn is, or -1. */
  function NewestStable(messages: seq<Message>): (k: int)
    ensures -1 <= k < |messages|
    ensures k >= 0 ==> Newest(messages[k])
    ensures forall i :: k < i < |messages| ==> !Newest(messages[i])
  {
    if messages == [] then -1
    else if Newest(messages[|messages| - 1]) then |messages| - 1
    else NewestStable(messages[..|messages| - 1])
  }

  /** Everything before the newest user or tool turn; nothing when that is the first message or missing. */
  method PriorTurns(messages: seq<Message>) returns (r: Option<seq<Message>>)
    ensures r == PriorTurnsForBefore(messages)
  {
    var newest := -1;
    var i := |messages| - 1;
    while i >= 0
      invariant -1 <= i < |messages|
      invariant forall j :: i < j < |messages| ==> !Newest(messages[j])
    {
      if Newest(messages[i]) {
        newest := i;
        break;
      }
      i := i - 1;
    }
    assert NewestStable(messages) == newest;
    if newest <= 0 {
      return None;
    }
    return Some(messages[..newest]);
  }

  function PriorTurnsForBefore(messages: seq<Message>): Option<seq<Message>> {
    var k := NewestStable(messages);
    if k <= 0 then None else Some(messages[..k])
  }

  // ------------------------------------------------------------------
  // Digests
  // ------------------------------------------------------------------

  function Array(vs: seq<Json>): Items {
    if vs == [] then NoItems else Item(vs[0], Array(vs[1..]))
  }

  function Normalized(env: Env, bs: seq<Block>): seq<Block> {
    if bs == [] then []
    else [if bs[0].TextBlock? then TextBlock(env.normalize(bs[0].text)) else bs[0]] + Normalized(env, bs[1..])
  }

  function SystemTurns(env: Env, messages: seq<Message>): seq<Json> {
    if messages == [] then []
    else
      (if messages[0].role.System? then [ProjectMessage(env, messages[0].(content := Normalized(env, messages[0].content)))] else [])
      + SystemTurns(env, messages[1..])
  }

  function SystemDigest(env: Env, messages: seq<Message>): Text {
    var sys := SystemTurns(env, messages);
    if !env.hashSystem || sys == [] then [] else env.digest(StableStringify(Arr(Array(sys))), 32)
  }

  function ByName(env: Env): (Tool, Tool) -> bool {
    (a: Tool, b: Tool) => env.compare(b.name, a.name) > 0
  }

  /** The stable sort by name. */
  function SortTools(env: Env, tools: seq<Tool>): seq<Tool> {
    SortBy(tools, ByName(env))
  }

  function ToolItems(tools: seq<Tool>): Items {
    if tools == [] then NoItems
    else
      Item(Object3("name", Str(tools[0].name), "description", tools[0].description, "parameters", tools[0].parameters),
           ToolItems(tools[1..]))
  }

  function ToolContext(env: Env, opts: Options): Json {
    var preamble := if opts.toolPreamble == [] then [] else env.digest(opts.toolPreamble, 16);
    Obj(Member(Word("tools"), Arr(ToolItems(SortTools(env, opts.tools))),
        Member(Word("tool_choice"), opts.toolChoice,
        Member(Word("preambleTier"), opts.preambleTier,
        Member(Word("toolPreambleHash"), Str(preamble), NoMembers)))))
  }

  function ToolContextDigest(env: Env, opts: Options): Text {
    if !opts.emulateTools then [] else env.digest(StableStringify(ToolContext(env, opts)), 32)
  }

  // ------------------------------------------------------------------
  // Keys
  // ------------------------------------------------------------------

  /** Everything that is hashed. */
  datatype Components = Components(caller: Text, model: Text, route: Text, sys: Text, tools: Text, turns: seq<Json>)

  const KEY_VERSION: Text := Word("2")

  function Payload(c: Components): Json {
    Obj(Member(Word("v"), Num(KEY_VERSION),
        Member(Word("caller"), Str(c.caller),
        Member(Word("model"), Str(c.model),
        Member(Word("route"), Str(c.route),
        Member(Word("sys"), Str(c.sys),
        Member(Word("tools"), Str(c.tools),
        Member(Word("turns"), Arr(Array(c.turns)), NoMembers))))))))
  }

  function ComponentsOf(env: Env, id: Identity, all: seq<Message>, turns: seq<Json>): Components {
    Components(id.caller, id.model, if id.opts.route == [] then Word("chat") else id.opts.route,
               SystemDigest(env, all), ToolContextDigest(env, id.opts), turns)
  }

  /** What is looked up before `messages` are sent. */
  function Before(env: Env, id: Identity, messages: seq<Message>): Option<Components> {
    var prior := PriorTurnsForBefore(messages);
    if prior.None? then None
    else
      var turns := ProjectTurns(env, prior.value);
      if turns.None? then None else Some(ComponentsOf(env, id, messages, turns.value))
  }

  function WithoutSystem(messages: seq<Message>): seq<Message> {
    if messages == [] then []
    else
      var before := WithoutSystem(messages[..|messages| - 1]);
      if messages[|messages| - 1].role.System? then before else before + [messages[|messages| - 1]]
  }

  /** What the conversation is stored under after `messages`. */
  function After(env: Env, id: Identity, messages: seq<Message>): Option<Components> {
    if messages == [] then None
    else
      var turns := ProjectTurns(env, WithoutSystem(messages));
      if turns.None? then None else Some(ComponentsOf(env, id, messages, turns.value))
  }

  function Hashed(c: Option<Components>): Option<Text> {
    if c.None? then None else Some(StableStringify(Payload(c.value)))
  }

  /** The hashed text of `fingerprintBefore` and of `fingerprintAfter`. */
  function FingerprintBefore(env: Env, id: Identity, messages: seq<Message>): Option<Text> {
    Hashed(Before(env, id, messages))
  }

  function FingerprintAfter(env: Env, id: Identity, messages: seq<Message>): Option<Text> {
    Hashed(After(env, id, messages))
  }
}
