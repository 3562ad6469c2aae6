/** JSON values, the canonical text under which they are compared, and what that text says about them. */
module CanonicalJson {
  import opened Prelude

  /** `literal` is the shortest literal of a finite number. The members of an object are in the order in
      which they were added. */
  datatype Json = Null | Bool(b: bool) | Num(literal: Text) | Str(s: Text) | Arr(items: Items) | Obj(members: Members<Json>)

  datatype Items = NoItems | Item(head: Json, tail: Items)

  datatype Members<V> = NoMembers | Member(key: Text, value: V, rest: Members<V>)

  // ------------------------------------------------------------------
  // Strings
  // ------------------------------------------------------------------

  const QUOTE: Unit := 0x22
  const BACKSLASH: Unit := 0x5C
  const COMMA: Unit := 0x2C
  const COLON: Unit := 0x3A
  const LBRACKET: Unit := 0x5B
  const RBRACKET: Unit := 0x5D
  const LBRACE: Unit := 0x7B
  const RBRACE: Unit := 0x7D

  predicate High(u: Unit) {
    0xD800 <= u < 0xDC00
  }

  predicate Low(u: Unit) {
    0xDC00 <= u < 0xE000
  }

  function HexDigit(d: int): Unit
    requires 0 <= d < 16
  {
    if d < 10 then 48 + d else 87 + d
  }

  function Hex4(u: Unit): Text {
    var tens := u / 16;
    var hundreds := tens / 16;
    [HexDigit(hundreds / 16), HexDigit(hundreds % 16), HexDigit(tens % 16), HexDigit(u % 16)]
  }

  /** A string is read as surrogate pairs and single units. */
  datatype Scalar = Pair(hi: Unit, lo: Unit) | Single(u: Unit)

  predicate WellFormed(c: Scalar) {
    c.Pair? ==> High(c.hi) && Low(c.lo)
  }

  function Units(c: Scalar): Text {
    if c.Pair? then [c.hi, c.lo] else [c.u]
  }

  /** The letter of a two-unit escape, or 0. */
  function Short(u: Unit): Unit {
    if u == QUOTE || u == BACKSLASH then u
    else if u == 8 then 98
    else if u == 12 then 102
    else if u == 10 then 110
    else if u == 13 then 114
    else if u == 9 then 116
    else 0
  }

  /** Control characters and lone surrogates are escaped. */
  function Escaped(c: Scalar): Text {
    if c.Pair? then [c.hi, c.lo]
    else if Short(c.u) != 0 then [BACKSLASH, Short(c.u)]
    else if c.u < 0x20 || High(c.u) || Low(c.u) then [BACKSLASH, 117] + Hex4(c.u)
    else [c.u]
  }

  function First(s: Text): (c: Scalar)
    requires s != []
    ensures WellFormed(c) && Units(c) <= s
  {
    if |s| > 1 && High(s[0]) && Low(s[1]) then Pair(s[0], s[1]) else Single(s[0])
  }

  function Body(s: Text): Text {
    if s == [] then [] else Escaped(First(s)) + Body(s[|Units(First(s))|..])
  }

  function Quoted(s: Text): Text {
    [QUOTE] + Body(s) + [QUOTE]
  }

  // ------------------------------------------------------------------
  // Texts
  // ------------------------------------------------------------------

  const NULL: Text := Word("null")
  const TRUE: Text := Word("true")
  const FALSE: Text := Word("false")

  /** The lexicographic order of code units. */
  predicate Less(a: Text, b: Text) {
    b != [] && (a == [] || a[0] < b[0] || (a[0] == b[0] && Less(a[1..], b[1..])))
  }

  function Insert<V>(key: Text, value: V, ms: Members<V>): Members<V> {
    match ms
    case NoMembers => Member(key, value, NoMembers)
    case Member(k, v, rest) => if Less(key, k) then Member(key, value, ms) else Member(k, v, Insert(key, value, rest))
  }

  function SortKeys<V>(ms: Members<V>): Members<V> {
    match ms
    case NoMembers => NoMembers
    case Member(k, v, rest) => Insert(k, v, SortKeys(rest))
  }

  /** `"key":text` for every member, separated by commas. */
  function JoinMembers(ms: Members<Text>): Text {
    match ms
    case NoMembers => []
    case Member(k, t, NoMembers) => Quoted(k) + [COLON] + t
    case Member(k, t, rest) => Quoted(k) + [COLON] + t + [COMMA] + JoinMembers(rest)
  }

  /** The canonical text: members in the order of their keys. */
  function StableStringify(v: Json): Text {
    match v
    case Null => NULL
    case Bool(b) => if b then TRUE else FALSE
    case Num(literal) => literal
    case Str(s) => Quoted(s)
    case Arr(items) => [LBRACKET] + StableItems(items) + [RBRACKET]
    case Obj(members) => [LBRACE] + JoinMembers(SortKeys(StableMembers(members))) + [RBRACE]
  }

  function StableItems(items: Items): Text {
    match items
    case NoItems => []
    case Item(v, NoItems) => StableStringify(v)
    case Item(v, tail) => StableStringify(v) + [COMMA] + StableItems(tail)
  }

  function StableMembers(ms: Members<Json>): Members<Text> {
    match ms
    case NoMembers => NoMembers
    case Member(k, v, rest) => Member(k, StableStringify(v), StableMembers(rest))
  }

  // ------------------------------------------------------------------
  // What a JSON value is
  // ------------------------------------------------------------------

  /** An object is a map: the order of its members means nothing. */
  datatype Value = VNull | VBool(b: bool) | VNum(literal: Text) | VStr(s: Text) | VArr(items: seq<Value>) | VObj(members: map<Text, Value>)

  function Denote(v: Json): Value {
    match v
    case Null => VNull
    case Bool(b) => VBool(b)
    case Num(literal) => VNum(literal)
    case Str(s) => VStr(s)
    case Arr(items) => VArr(DenoteItems(items))
    case Obj(members) => VObj(DenoteMembers(members))
  }

  function DenoteItems(items: Items): seq<Value> {
    match items
    case NoItems => []
    case Item(v, tail) => [Denote(v)] + DenoteItems(tail)
  }

  function DenoteMembers(ms: Members<Json>): map<Text, Value> {
    match ms
    case NoMembers => map[]
    case Member(k, v, rest) => DenoteMembers(rest)[k := Denote(v)]
  }

  function Keys<V>(ms: Members<V>): set<Text> {
    match ms
    case NoMembers => {}
    case Member(k, _, rest) => {k} + Keys(rest)
  }

  predicate NumUnit(u: Unit) {
    48 <= u <= 57 || u == 43 || u == 45 || u == 46 || u == 69 || u == 101
  }

  predicate Literal(t: Text) {
    t != [] && forall i :: 0 <= i < |t| ==> NumUnit(t[i])
  }

  /** Numbers are literals and the keys of an object are distinct. */
  predicate Valid(v: Json) {
    match v
    case Num(literal) => Literal(literal)
    case Arr(items) => ValidItems(items)
    case Obj(members) => ValidMembers(members)
    case _ => true
  }

  predicate ValidItems(items: Items) {
    match items
    case NoItems => true
    case Item(v, tail) => Valid(v) && ValidItems(tail)
  }

  predicate ValidMembers(ms: Members<Json>) {
    match ms
    case NoMembers => true
    case Member(k, v, rest) => k !in Keys(rest) && Valid(v) && ValidMembers(rest)
  }
}
