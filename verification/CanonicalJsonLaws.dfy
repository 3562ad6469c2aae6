/** Two JSON values have the same canonical text exactly when they are the same value. */
module CanonicalJsonLaws {
  import opened Prelude
  import opened CanonicalJson

  // ------------------------------------------------------------------
  // Strings: no quoted string is a proper prefix of another
  // ------------------------------------------------------------------

  lemma HexDigits(d: int, e: int)
    requires 0 <= d < 16 && 0 <= e < 16 && HexDigit(d) == HexDigit(e)
    ensures d == e
  {
  }

  lemma HexApart(u: Unit, v: Unit)
    requires Hex4(u) == Hex4(v)
    ensures u == v
  {
    var s, t := Hex4(u), Hex4(v);
    assert s[0] == t[0] && s[1] == t[1] && s[2] == t[2] && s[3] == t[3];
    HexDigits(u / 16 / 16 / 16, v / 16 / 16 / 16);
    HexDigits(u / 16 / 16 % 16, v / 16 / 16 % 16);
    HexDigits(u / 16 % 16, v / 16 % 16);
    HexDigits(u % 16, v % 16);
  }

  lemma Cut(a: Text, x: Text, b: Text, y: Text)
    requires a + x == b + y && |a| == |b|
    ensures a == b && x == y
  {
    assert a == (a + x)[..|a|] && b == (b + y)[..|b|];
    assert x == (a + x)[|a|..] && y == (b + y)[|b|..];
  }

  lemma SameLength(c: Scalar, d: Scalar, x: Text, y: Text)
    requires WellFormed(c) && WellFormed(d) && Escaped(c) + x == Escaped(d) + y
    ensures |Escaped(c)| == |Escaped(d)|
  {
    var t := Escaped(c) + x;
    assert t[0] == Escaped(c)[0] == Escaped(d)[0];
    if |Escaped(c)| > 1 && |Escaped(d)| > 1 {
      assert t[1] == Escaped(c)[1] == Escaped(d)[1];
    }
  }

  lemma EscapedApart(c: Scalar, d: Scalar)
    requires WellFormed(c) && WellFormed(d) && Escaped(c) == Escaped(d)
    ensures c == d
  {
    var s, t := Escaped(c), Escaped(d);
    assert s[0] == t[0];
    if |s| > 1 {
      assert s[1] == t[1];
    }
    if |s| > 2 {
      assert s[2..] == Hex4(c.u) && t[2..] == Hex4(d.u);
      HexApart(c.u, d.u);
    }
  }

  lemma {:induction false} BodyUnfolds(s: Text, x: Text)
    requires s != []
    ensures Body(s) + x == Escaped(First(s)) + (Body(s[|Units(First(s))|..]) + x)
  {
  }

  lemma {:induction false} BodyUnambiguous(a: Text, b: Text, x: Text, y: Text)
    requires Body(a) + ([QUOTE] + x) == Body(b) + ([QUOTE] + y)
    ensures a == b && x == y
    decreases |a|
  {
    var p, q := [QUOTE] + x, [QUOTE] + y;
    if a == [] && b == [] {
      assert [] + p == p && [] + q == q;
      assert x == p[1..] && y == q[1..];
    } else if a == [] {
      BodyUnfolds(b, q);
      StartsInside(First(b), Body(b[|Units(First(b))|..]) + q, p);
    } else if b == [] {
      BodyUnfolds(a, p);
      StartsInside(First(a), Body(a[|Units(First(a))|..]) + p, q);
    } else {
      var c, d := First(a), First(b);
      var a', b' := a[|Units(c)|..], b[|Units(d)|..];
      BodyUnfolds(a, p);
      BodyUnfolds(b, q);
      SameLength(c, d, Body(a') + p, Body(b') + q);
      Cut(Escaped(c), Body(a') + p, Escaped(d), Body(b') + q);
      EscapedApart(c, d);
      BodyUnambiguous(a', b', x, y);
      assert a == Units(c) + a' && b == Units(d) + b';
    }
  }

  /** No escaped scalar looks like the closing quote. */
  lemma StartsInside(c: Scalar, rest: Text, closing: Text)
    requires WellFormed(c) && closing != [] && closing[0] == QUOTE
    ensures Escaped(c) + rest != [] + closing
  {
    assert (Escaped(c) + rest)[0] == Escaped(c)[0];
    assert ([] + closing)[0] == QUOTE;
  }

  lemma QuotedUnambiguous(a: Text, b: Text, x: Text, y: Text)
    requires Quoted(a) + x == Quoted(b) + y
    ensures a == b && x == y
  {
    var p, q := Body(a) + ([QUOTE] + x), Body(b) + ([QUOTE] + y);
    assert Quoted(a) + x == [QUOTE] + p && Quoted(b) + y == [QUOTE] + q;
    Cut([QUOTE], p, [QUOTE], q);
    BodyUnambiguous(a, b, x, y);
  }

  // ------------------------------------------------------------------
  // Numbers end where something else begins
  // ------------------------------------------------------------------

  predicate Ends(x: Text) {
    x == [] || x[0] == COMMA || x[0] == RBRACKET || x[0] == RBRACE
  }

  lemma LiteralUnambiguous(a: Text, b: Text, x: Text, y: Text)
    requires Literal(a) && Literal(b) && Ends(x) && Ends(y) && a + x == b + y
    ensures a == b && x == y
  {
    var t := a + x;
    if |a| < |b| {
      InLiteral(b, y, t, |a|);
      AfterLiteral(a, x, t);
    } else if |b| < |a| {
      InLiteral(a, x, t, |b|);
      AfterLiteral(b, y, t);
    }
    Cut(a, x, b, y);
  }

  lemma InLiteral(b: Text, y: Text, t: Text, i: nat)
    requires Literal(b) && t == b + y && i < |b|
    ensures NumUnit(t[i])
  {
    assert t[i] == b[i];
  }

  lemma AfterLiteral(a: Text, x: Text, t: Text)
    requires Ends(x) && t == a + x && |a| < |t|
    ensures !NumUnit(t[|a|])
  {
    assert t[|a|] == x[0];
  }

  // ------------------------------------------------------------------
  // Sorted values
  // ------------------------------------------------------------------

  function Canonical(v: Json): Json {
    match v
    case Arr(items) => Arr(CanonicalItems(items))
    case Obj(members) => Obj(SortKeys(CanonicalMembers(members)))
    case _ => v
  }

  function CanonicalItems(items: Items): Items {
    match items
    case NoItems => NoItems
    case Item(v, tail) => Item(Canonical(v), CanonicalItems(tail))
  }

  function CanonicalMembers(ms: Members<Json>): Members<Json> {
    match ms
    case NoMembers => NoMembers
    case Member(k, v, rest) => Member(k, Canonical(v), CanonicalMembers(rest))
  }

  /** The text of a value as it stands, without sorting. */
  function Plain(v: Json): Text {
    match v
    case Null => NULL
    case Bool(b) => if b then TRUE else FALSE
    case Num(literal) => literal
    case Str(s) => Quoted(s)
    case Arr(items) => [LBRACKET] + PlainItems(items) + [RBRACKET]
    case Obj(members) => [LBRACE] + JoinMembers(PlainMembers(members)) + [RBRACE]
  }

  function PlainItems(items: Items): Text {
    match items
    case NoItems => []
    case Item(v, NoItems) => Plain(v)
    case Item(v, tail) => Plain(v) + [COMMA] + PlainItems(tail)
  }

  function PlainMembers(ms: Members<Json>): Members<Text> {
    match ms
    case NoMembers => NoMembers
    case Member(k, v, rest) => Member(k, Plain(v), PlainMembers(rest))
  }

  lemma {:induction false} InsertPlain(k: Text, v: Json, ms: Members<Json>)
    ensures PlainMembers(Insert(k, v, ms)) == Insert(k, Plain(v), PlainMembers(ms))
    decreases ms
  {
    match ms
    case NoMembers =>
    case Member(_, _, rest) => InsertPlain(k, v, rest);
  }

  lemma {:induction false} SortPlain(ms: Members<Json>)
    ensures PlainMembers(SortKeys(ms)) == SortKeys(PlainMembers(ms))
    decreases ms
  {
    match ms
    case NoMembers =>
    case Member(k, v, rest) =>
      SortPlain(rest);
      InsertPlain(k, v, SortKeys(rest));
  }

  /** The canonical text is the text of the value with all its members sorted. */
  lemma {:induction false} StableIsPlain(v: Json)
    ensures StableStringify(v) == Plain(Canonical(v))
    decreases v
  {
    match v
    case Arr(items) => StableItemsArePlain(items);
    case Obj(members) =>
      StableMembersArePlain(members);
      SortPlain(CanonicalMembers(members));
    case _ =>
  }

  lemma {:induction false} StableItemsArePlain(items: Items)
    ensures StableItems(items) == PlainItems(CanonicalItems(items))
    decreases items
  {
    match items
    case NoItems =>
    case Item(v, tail) =>
      StableIsPlain(v);
      StableItemsArePlain(tail);
  }

  lemma {:induction false} StableMembersArePlain(ms: Members<Json>)
    ensures StableMembers(ms) == PlainMembers(CanonicalMembers(ms))
    decreases ms
  {
    match ms
    case NoMembers =>
    case Member(k, v, rest) =>
      StableIsPlain(v);
      StableMembersArePlain(rest);
  }

  // ------------------------------------------------------------------
  // The text of a value says what the value is
  // ------------------------------------------------------------------

  /** Numbers are literals; keys need not be distinct or sorted. */
  predicate Literals(v: Json) {
    match v
    case Num(literal) => Literal(literal)
    case Arr(items) => LiteralItems(items)
    case Obj(members) => LiteralMembers(members)
    case _ => true
  }

  predicate LiteralItems(items: Items) {
    match items
    case NoItems => true
    case Item(v, tail) => Literals(v) && LiteralItems(tail)
  }

  predicate LiteralMembers(ms: Members<Json>) {
    match ms
    case NoMembers => true
    case Member(k, v, rest) => Literals(v) && LiteralMembers(rest)
  }

  /** The first unit of a text tells what kind of value it is. */
  function Kind(v: Json): int {
    match v
    case Null => 110
    case Bool(b) => if b then 116 else 102
    case Num(_) => 0
    case Str(_) => QUOTE
    case Arr(_) => LBRACKET
    case Obj(_) => LBRACE
  }

  function KindOf(u: Unit): int {
    if NumUnit(u) then 0 else u
  }

  lemma {:induction false} StartsWithKind(v: Json, x: Text)
    requires Literals(v)
    ensures Plain(v) != [] && (Plain(v) + x)[0] == Plain(v)[0] && KindOf(Plain(v)[0]) == Kind(v)
  {
  }

  /** The rest of an array or an object after one of its values. */
  function ItemsAfter(items: Items, x: Text): Text {
    if items.NoItems? then [RBRACKET] + x else [COMMA] + (PlainItems(items) + ([RBRACKET] + x))
  }

  function MembersAfter(ms: Members<Json>, x: Text): Text {
    if ms.NoMembers? then [RBRACE] + x else [COMMA] + (JoinMembers(PlainMembers(ms)) + ([RBRACE] + x))
  }

  lemma {:induction false} ItemsUnfold(v: Json, tail: Items, x: Text)
    ensures PlainItems(Item(v, tail)) + ([RBRACKET] + x) == Plain(v) + ItemsAfter(tail, x)
  {
  }

  lemma {:induction false} MembersUnfold(k: Text, v: Json, rest: Members<Json>, x: Text)
    ensures JoinMembers(PlainMembers(Member(k, v, rest))) + ([RBRACE] + x)
         == Quoted(k) + ([COLON] + (Plain(v) + MembersAfter(rest, x)))
  {
    RegroupMember(Quoted(k), Plain(v), JoinMembers(PlainMembers(rest)), [RBRACE] + x);
  }

  lemma RegroupMember(key: Text, value: Text, rest: Text, end: Text)
    ensures key + [COLON] + value + end == key + ([COLON] + (value + end))
    ensures key + [COLON] + value + [COMMA] + rest + end == key + ([COLON] + (value + ([COMMA] + (rest + end))))
  {
  }

  lemma {:induction false} PlainUnambiguous(v: Json, w: Json, x: Text, y: Text)
    requires Literals(v) && Literals(w) && Ends(x) && Ends(y) && Plain(v) + x == Plain(w) + y
    ensures v == w && x == y
    decreases v
  {
    StartsWithKind(v, x);
    StartsWithKind(w, y);
    assert Kind(v) == Kind(w);
    match v
    case Null => Cut(NULL, x, NULL, y);
    case Bool(b) => Cut(Plain(v), x, Plain(w), y);
    case Num(literal) => LiteralUnambiguous(literal, w.literal, x, y);
    case Str(s) => QuotedUnambiguous(s, w.s, x, y);
    case Arr(items) =>
      Peel(LBRACKET, PlainItems(items), RBRACKET, x, Plain(v), PlainItems(w.items), y, Plain(w));
      ItemsUnambiguous(items, w.items, x, y);
    case Obj(members) =>
      Peel(LBRACE, JoinMembers(PlainMembers(members)), RBRACE, x, Plain(v), JoinMembers(PlainMembers(w.members)), y, Plain(w));
      MembersUnambiguous(members, w.members, x, y);
  }

  lemma Peel(open: Unit, p: Text, close: Unit, x: Text, s: Text, q: Text, y: Text, t: Text)
    requires s == [open] + p + [close] && t == [open] + q + [close] && s + x == t + y
    ensures p + ([close] + x) == q + ([close] + y)
  {
    assert s + x == [open] + (p + ([close] + x)) && t + y == [open] + (q + ([close] + y));
    Cut([open], p + ([close] + x), [open], q + ([close] + y));
  }

  lemma {:induction false} ItemsUnambiguous(a: Items, b: Items, x: Text, y: Text)
    requires LiteralItems(a) && LiteralItems(b)
    requires PlainItems(a) + ([RBRACKET] + x) == PlainItems(b) + ([RBRACKET] + y)
    ensures a == b && x == y
    decreases a
  {
    match (a, b)
    case (NoItems, NoItems) =>
      Cut([], [RBRACKET] + x, [], [RBRACKET] + y);
      Cut([RBRACKET], x, [RBRACKET], y);
    case (NoItems, Item(w, tail)) =>
      ItemsUnfold(w, tail, y);
      StartsWithKind(w, ItemsAfter(tail, y));
    case (Item(v, tail), NoItems) =>
      ItemsUnfold(v, tail, x);
      StartsWithKind(v, ItemsAfter(tail, x));
    case (Item(v, tail), Item(w, more)) =>
      ItemsUnfold(v, tail, x);
      ItemsUnfold(w, more, y);
      PlainUnambiguous(v, w, ItemsAfter(tail, x), ItemsAfter(more, y));
      assert ItemsAfter(tail, x)[0] == ItemsAfter(more, y)[0];
      if tail.NoItems? {
        Cut([RBRACKET], x, [RBRACKET], y);
      } else {
        Cut([COMMA], PlainItems(tail) + ([RBRACKET] + x), [COMMA], PlainItems(more) + ([RBRACKET] + y));
        ItemsUnambiguous(tail, more, x, y);
      }
  }

  lemma {:induction false} MembersStart(ms: Members<Json>, x: Text)
    ensures (JoinMembers(PlainMembers(ms)) + ([RBRACE] + x))[0] == if ms.NoMembers? then RBRACE else QUOTE
  {
  }

  lemma {:induction false} MembersUnambiguous(a: Members<Json>, b: Members<Json>, x: Text, y: Text)
    requires LiteralMembers(a) && LiteralMembers(b)
    requires JoinMembers(PlainMembers(a)) + ([RBRACE] + x) == JoinMembers(PlainMembers(b)) + ([RBRACE] + y)
    ensures a == b && x == y
    decreases a
  {
    MembersStart(a, x);
    MembersStart(b, y);
    match (a, b)
    case (NoMembers, NoMembers) =>
      Cut([], [RBRACE] + x, [], [RBRACE] + y);
      Cut([RBRACE], x, [RBRACE], y);
    case (NoMembers, Member(k, w, rest)) =>
    case (Member(k, v, rest), NoMembers) =>
    case (Member(k, v, rest), Member(l, w, more)) =>
      MembersUnfold(k, v, rest, x);
      MembersUnfold(l, w, more, y);
      var p, q := Plain(v) + MembersAfter(rest, x), Plain(w) + MembersAfter(more, y);
      QuotedUnambiguous(k, l, [COLON] + p, [COLON] + q);
      Cut([COLON], p, [COLON], q);
      PlainUnambiguous(v, w, MembersAfter(rest, x), MembersAfter(more, y));
      assert MembersAfter(rest, x)[0] == MembersAfter(more, y)[0];
      if rest.NoMembers? {
        Cut([RBRACE], x, [RBRACE], y);
      } else {
        Cut([COMMA], JoinMembers(PlainMembers(rest)) + ([RBRACE] + x), [COMMA], JoinMembers(PlainMembers(more)) + ([RBRACE] + y));
        MembersUnambiguous(rest, more, x, y);
      }
  }

  // ------------------------------------------------------------------
  // Sorting finds one representative of each value
  // ------------------------------------------------------------------

  lemma {:induction false} LessTotal(a: Text, b: Text)
    ensures a == b || Less(a, b) || Less(b, a)
    ensures !(Less(a, b) && Less(b, a)) && !Less(a, a)
    decreases |a|
  {
    if a != [] {
      LessTotal(a[1..], a[1..]);
    }
    if a != [] && b != [] {
      LessTotal(a[1..], b[1..]);
      assert a == [a[0]] + a[1..] && b == [b[0]] + b[1..];
    }
  }

  lemma {:induction false} LessTransitive(a: Text, b: Text, c: Text)
    requires Less(a, b) && Less(b, c)
    ensures Less(a, c)
    decreases |a|
  {
    if a != [] && a[0] == b[0] == c[0] {
      LessTransitive(a[1..], b[1..], c[1..]);
    }
  }

  /** `k` comes before every key. */
  ghost predicate Below<V(!new)>(k: Text, ms: Members<V>) {
    forall l :: l in Keys(ms) ==> Less(k, l)
  }

  ghost predicate Ordered<V(!new)>(ms: Members<V>) {
    match ms
    case NoMembers => true
    case Member(k, _, rest) => Below(k, rest) && Ordered(rest)
  }

  lemma {:induction false} InsertOrders<V(!new)>(k: Text, v: V, ms: Members<V>)
    requires Ordered(ms) && k !in Keys(ms)
    ensures Ordered(Insert(k, v, ms)) && Keys(Insert(k, v, ms)) == Keys(ms) + {k}
    decreases ms
  {
    match ms
    case NoMembers =>
    case Member(l, w, rest) =>
      LessTotal(k, l);
      if Less(k, l) {
        forall m | m in Keys(ms) ensures Less(k, m) {
          if m != l {
            LessTransitive(k, l, m);
          }
        }
      } else {
        InsertOrders(k, v, rest);
      }
  }

  /** Sorted all the way down. */
  ghost predicate Sorted(v: Json) {
    match v
    case Arr(items) => SortedItems(items)
    case Obj(members) => Ordered(members) && SortedMembers(members)
    case _ => true
  }

  ghost predicate SortedItems(items: Items) {
    match items
    case NoItems => true
    case Item(v, tail) => Sorted(v) && SortedItems(tail)
  }

  ghost predicate SortedMembers(ms: Members<Json>) {
    match ms
    case NoMembers => true
    case Member(k, v, rest) => Sorted(v) && SortedMembers(rest)
  }

  lemma {:induction false} InsertKeeps(k: Text, v: Json, ms: Members<Json>)
    requires k !in Keys(ms) && SortedMembers(ms) && LiteralMembers(ms) && Sorted(v) && Literals(v)
    ensures SortedMembers(Insert(k, v, ms)) && LiteralMembers(Insert(k, v, ms))
    ensures DenoteMembers(Insert(k, v, ms)) == DenoteMembers(ms)[k := Denote(v)]
    decreases ms
  {
    match ms
    case NoMembers =>
    case Member(l, w, rest) =>
      if !Less(k, l) {
        InsertKeeps(k, v, rest);
      }
  }

  /** The canonical form is sorted and is the same value. */
  lemma {:induction false} CanonicalKeeps(v: Json)
    requires Valid(v)
    ensures Sorted(Canonical(v)) && Literals(Canonical(v)) && Denote(Canonical(v)) == Denote(v)
    decreases v
  {
    match v
    case Arr(items) => CanonicalItemsKeep(items);
    case Obj(members) => CanonicalMembersKeep(members);
    case _ =>
  }

  lemma {:induction false} CanonicalItemsKeep(items: Items)
    requires ValidItems(items)
    ensures var c := CanonicalItems(items); SortedItems(c) && LiteralItems(c) && DenoteItems(c) == DenoteItems(items)
    decreases items
  {
    match items
    case NoItems =>
    case Item(v, tail) =>
      CanonicalKeeps(v);
      CanonicalItemsKeep(tail);
  }

  lemma {:induction false} CanonicalMembersKeep(ms: Members<Json>)
    requires ValidMembers(ms)
    ensures var c := SortKeys(CanonicalMembers(ms));
            Ordered(c) && SortedMembers(c) && LiteralMembers(c) && Keys(c) == Keys(ms) && DenoteMembers(c) == DenoteMembers(ms)
    decreases ms
  {
    match ms
    case NoMembers =>
    case Member(k, v, rest) =>
      CanonicalKeeps(v);
      CanonicalMembersKeep(rest);
      var sorted := SortKeys(CanonicalMembers(rest));
      InsertOrders(k, Canonical(v), sorted);
      InsertKeeps(k, Canonical(v), sorted);
  }

  lemma {:induction false} KeysDenote(ms: Members<Json>)
    ensures DenoteMembers(ms).Keys == Keys(ms)
    decreases ms
  {
    match ms
    case NoMembers =>
    case Member(_, _, rest) => KeysDenote(rest);
  }

  /** A sorted form is determined by its value. */
  lemma {:induction false} SortedIsUnique(v: Json, w: Json)
    requires Sorted(v) && Sorted(w) && Denote(v) == Denote(w)
    ensures v == w
    decreases v
  {
    match v
    case Arr(items) => SortedItemsAreUnique(items, w.items);
    case Obj(members) => SortedMembersAreUnique(members, w.members);
    case _ =>
  }

  lemma {:induction false} SortedItemsAreUnique(a: Items, b: Items)
    requires SortedItems(a) && SortedItems(b) && DenoteItems(a) == DenoteItems(b)
    ensures a == b
    decreases a
  {
    match (a, b)
    case (Item(v, tail), Item(w, more)) =>
      Cons(Denote(v), DenoteItems(tail), Denote(w), DenoteItems(more));
      SortedIsUnique(v, w);
      SortedItemsAreUnique(tail, more);
    case _ =>
  }

  lemma Cons<T>(x: T, s: seq<T>, y: T, t: seq<T>)
    requires [x] + s == [y] + t
    ensures x == y && s == t
  {
    assert ([x] + s)[0] == x && ([y] + t)[0] == y;
    assert ([x] + s)[1..] == s && ([y] + t)[1..] == t;
  }

  /** The least key of a map is the first of its sorted members. */
  lemma {:induction false} SameFirst(a: Members<Json>, b: Members<Json>)
    requires a.Member? && b.Member? && Ordered(a) && Ordered(b) && Keys(a) == Keys(b)
    ensures a.key == b.key && Keys(a.rest) == Keys(b.rest)
  {
    LessTotal(a.key, b.key);
    assert a.key in Keys(b) && b.key in Keys(a);
    LessTotal(a.key, a.key);
    assert Keys(a.rest) == Keys(a) - {a.key};
    assert Keys(b.rest) == Keys(b) - {b.key};
  }

  lemma {:induction false} SortedMembersAreUnique(a: Members<Json>, b: Members<Json>)
    requires Ordered(a) && Ordered(b) && SortedMembers(a) && SortedMembers(b) && DenoteMembers(a) == DenoteMembers(b)
    ensures a == b
    decreases a
  {
    KeysDenote(a);
    KeysDenote(b);
    match (a, b)
    case (Member(k, v, rest), Member(l, w, more)) =>
      SameFirst(a, b);
      KeysDenote(rest);
      KeysDenote(more);
      LessTotal(k, k);
      SameRest(DenoteMembers(rest), DenoteMembers(more), k, Denote(v), Denote(w));
      SortedIsUnique(v, w);
      SortedMembersAreUnique(rest, more);
    case _ =>
  }

  lemma SameRest(m: map<Text, Value>, n: map<Text, Value>, k: Text, x: Value, y: Value)
    requires m[k := x] == n[k := y] && k !in m && k !in n
    ensures x == y && m == n
  {
    assert m[k := x][k] == n[k := y][k];
    assert m == m[k := x] - {k} && n == n[k := y] - {k};
  }

  /** The canonical text forgets the order of members and nothing else. */
  lemma {:induction false} StableStringifyIff(v: Json, w: Json)
    requires Valid(v) && Valid(w)
    ensures StableStringify(v) == StableStringify(w) <==> Denote(v) == Denote(w)
  {
    StableIsPlain(v);
    StableIsPlain(w);
    CanonicalKeeps(v);
    CanonicalKeeps(w);
    var c, d := Canonical(v), Canonical(w);
    if Plain(c) == Plain(d) {
      assert Plain(c) + [] == Plain(d) + [];
      PlainUnambiguous(c, d, [], []);
    }
    if Denote(v) == Denote(w) {
      SortedIsUnique(c, d);
    }
  }
}
