/**
 The canonical JSON printer whose output feeds the deduplication hash. Objects are printed with sorted
 keys, so the token stream determines the value up to the order of object members, and nothing else.
 Scalars print as one token; string escaping and number formatting stay inside the token.
 */
module CanonicalJson {
  import opened Base

  datatype Json =
    | Null
    | Bool(value: bool)
    | Number(literal: string)
    | Str(text: string)
    | Array(items: seq<Json>)
    | Object(members: seq<Member>)

  datatype Member = Member(key: string, value: Json)

  /** Object keys print like string values. */
  datatype Token =
    | Scalar(json: Json)
    | OpenBrace | CloseBrace | OpenBracket | CloseBracket | Comma | Colon | Newline

  /** Object keys are distinct, at every level, as in any parsed map. */
  ghost predicate WellFormed(v: Json) {
    match v
    case Array(items) => forall i :: 0 <= i < |items| ==> WellFormed(items[i])
    case Object(ms) => DistinctKeys(ms) && forall i :: 0 <= i < |ms| ==> WellFormed(ms[i].value)
    case _ => true
  }

  ghost predicate DistinctKeys(ms: seq<Member>) {
    forall i, j :: 0 <= i < j < |ms| ==> ms[i].key != ms[j].key
  }

  ghost predicate HasKey(ms: seq<Member>, key: string) {
    exists i :: 0 <= i < |ms| && ms[i].key == key
  }

  /** Equal up to the order of object members (objects are unordered, section 4 of RFC 8259). */
  ghost predicate Same(a: Json, b: Json) {
    match a
    case Array(xs) =>
      b.Array? && |xs| == |b.items| && forall i :: 0 <= i < |xs| ==> Same(xs[i], b.items[i])
    case Object(ms) =>
      && b.Object?
      && (forall key :: HasKey(ms, key) <==> HasKey(b.members, key))
      && forall i, j :: 0 <= i < |ms| && 0 <= j < |b.members| && ms[i].key == b.members[j].key ==>
           Same(ms[i].value, b.members[j].value)
    case _ => a == b
  }

  // ---- Key order ----

  /** Order of strings by code points, which is also the order of their UTF-8 bytes. */
  predicate Less(a: string, b: string) {
    b != [] && (a == [] || a[0] < b[0] || (a[0] == b[0] && Less(a[1..], b[1..])))
  }

  lemma {:induction false} LessIsTotal(a: string, b: string)
    ensures a == b || Less(a, b) || Less(b, a)
    ensures !(Less(a, b) && Less(b, a))
    ensures Less(a, b) ==> a != b
  {
    if a != [] && b != [] {
      LessIsTotal(a[1..], b[1..]);
      assert a == [a[0]] + a[1..] && b == [b[0]] + b[1..];
    }
  }

  lemma {:induction false} LessIsTransitive(a: string, b: string, c: string)
    requires Less(a, b) && Less(b, c)
    ensures Less(a, c)
  {
    if a != [] && a[0] == b[0] == c[0] {
      LessIsTransitive(a[1..], b[1..], c[1..]);
    }
  }

  ghost predicate Sorted(keys: seq<string>) {
    forall i, j :: 0 <= i < j < |keys| ==> Less(keys[i], keys[j])
  }

  /** A strictly sorted sequence is determined by its elements. */
  lemma {:induction false} SortedIsUnique(a: seq<string>, b: seq<string>)
    requires Sorted(a) && Sorted(b)
    requires forall k :: k in a <==> k in b
    ensures a == b
  {
    if b != [] {
      NonEmptyCarriesOver(b, a);
    }
    if a != [] {
      NonEmptyCarriesOver(a, b);
      LastIsLargest(a, b);
      LastIsLargest(b, a);
      LessIsTotal(Last(a), Last(b));
      FrontsAgree(a, b);
      SortedIsUnique(Front(a), Front(b));
      assert a == Front(a) + [Last(a)] && b == Front(b) + [Last(b)];
    }
  }

  lemma FrontsAgree(a: seq<string>, b: seq<string>)
    requires a != [] && b != [] && Sorted(a) && Sorted(b) && Last(a) == Last(b)
    requires forall k :: k in a <==> k in b
    ensures Sorted(Front(a)) && Sorted(Front(b)) && forall k :: k in Front(a) <==> k in Front(b)
  {
    forall k
      ensures k in Front(a) <==> k in Front(b)
    {
      FrontElements(a, k);
      FrontElements(b, k);
    }
  }

  lemma NonEmptyCarriesOver(a: seq<string>, b: seq<string>)
    requires a != [] && forall k :: k in a ==> k in b
    ensures b != []
  {
    assert a[0] in b;
  }

  lemma LastIsLargest(a: seq<string>, b: seq<string>)
    requires a != [] && b != [] && Sorted(b) && forall k :: k in a ==> k in b
    ensures Last(a) == Last(b) || Less(Last(a), Last(b))
  {
    assert Last(a) in b;
    var i :| 0 <= i < |b| && b[i] == Last(a);
    assert i < |b| - 1 ==> Less(b[i], b[|b| - 1]);
  }

  lemma FrontElements(a: seq<string>, k: string)
    requires a != [] && Sorted(a)
    ensures k in Front(a) <==> k in a && k != Last(a)
  {
    if k in Front(a) {
      var i :| 0 <= i < |a| - 1 && a[i] == k;
      assert Less(a[i], a[|a| - 1]);
      LessIsTotal(k, Last(a));
    }
    if k in a && k != Last(a) {
      var i :| 0 <= i < |a| && a[i] == k;
      assert Front(a)[i] == k;
    }
  }

  // ---- Canonical form ----

  function KeysOf(ms: seq<Member>): seq<string> {
    seq(|ms|, i requires 0 <= i < |ms| => ms[i].key)
  }

  function Insert(m: Member, ms: seq<Member>): seq<Member> {
    if ms == [] then [m]
    else if Less(m.key, ms[0].key) then [m] + ms
    else [ms[0]] + Insert(m, ms[1..])
  }

  function SortMembers(ms: seq<Member>): seq<Member> {
    if ms == [] then [] else Insert(ms[0], SortMembers(ms[1..]))
  }

  /** Children first, then the members of objects in key order. */
  function Canon(v: Json): Json {
    match v
    case Array(items) => Array(seq(|items|, i requires 0 <= i < |items| => Canon(items[i])))
    case Object(ms) => Object(SortMembers(CanonMembers(ms)))
    case _ => v
  }

  function CanonMembers(ms: seq<Member>): seq<Member> {
    seq(|ms|, i requires 0 <= i < |ms| => Member(ms[i].key, Canon(ms[i].value)))
  }

  lemma KeysOfCons(m: Member, ms: seq<Member>)
    ensures KeysOf([m] + ms) == [m.key] + KeysOf(ms)
  {
  }

  /** A smaller key goes to the front. */
  lemma ConsKeepsSorted(m: Member, ms: seq<Member>)
    requires Sorted(KeysOf(ms)) && forall i :: 0 <= i < |ms| ==> Less(m.key, ms[i].key)
    ensures Sorted(KeysOf([m] + ms))
  {
    KeysOfCons(m, ms);
    var keys := KeysOf([m] + ms);
    forall i, j | 0 <= i < j < |keys|
      ensures Less(keys[i], keys[j])
    {
      if i == 0 {
        assert keys[j] == ms[j - 1].key;
      } else {
        assert keys[i] == KeysOf(ms)[i - 1] && keys[j] == KeysOf(ms)[j - 1];
      }
    }
  }

  lemma SortedTail(ms: seq<Member>)
    requires ms != [] && Sorted(KeysOf(ms))
    ensures Sorted(KeysOf(ms[1..]))
    ensures forall i :: 0 <= i < |ms[1..]| ==> Less(ms[0].key, ms[1..][i].key)
  {
    var keys := KeysOf(ms);
    assert forall i :: 0 <= i < |ms| - 1 ==> KeysOf(ms[1..])[i] == keys[i + 1];
    forall i | 0 <= i < |ms[1..]|
      ensures Less(ms[0].key, ms[1..][i].key)
    {
      assert Less(keys[0], keys[i + 1]);
    }
  }

  lemma {:induction false} InsertMembers(m: Member, ms: seq<Member>)
    ensures forall x :: x in Insert(m, ms) <==> x == m || x in ms
    ensures |Insert(m, ms)| == |ms| + 1
  {
    if ms != [] && !Less(m.key, ms[0].key) {
      InsertMembers(m, ms[1..]);
      assert ms == [ms[0]] + ms[1..];
    }
  }

  lemma {:induction false} InsertKeepsSorted(m: Member, ms: seq<Member>)
    requires Sorted(KeysOf(ms)) && !HasKey(ms, m.key)
    ensures Sorted(KeysOf(Insert(m, ms)))
    ensures forall x :: x in Insert(m, ms) <==> x == m || x in ms
    ensures |Insert(m, ms)| == |ms| + 1
  {
    InsertMembers(m, ms);
    if ms != [] {
      var rest := ms[1..];
      SortedTail(ms);
      if Less(m.key, ms[0].key) {
        forall i | 0 <= i < |ms|
          ensures Less(m.key, ms[i].key)
        {
          if i > 0 {
            assert rest[i - 1] == ms[i];
            LessIsTransitive(m.key, ms[0].key, ms[i].key);
          }
        }
        ConsKeepsSorted(m, ms);
      } else {
        LessIsTotal(m.key, ms[0].key);
        assert forall i :: 0 <= i < |rest| ==> rest[i] == ms[i + 1];
        InsertKeepsSorted(m, rest);
        var inner := Insert(m, rest);
        forall i | 0 <= i < |inner|
          ensures Less(ms[0].key, inner[i].key)
        {
          assert inner[i] in inner;
          if inner[i] != m {
            var j :| 0 <= j < |rest| && rest[j] == inner[i];
          } else {
            assert ms[0].key != m.key;
          }
        }
        ConsKeepsSorted(ms[0], inner);
      }
    }
  }

  lemma {:induction false} SortMembersSorts(ms: seq<Member>)
    requires DistinctKeys(ms)
    ensures Sorted(KeysOf(SortMembers(ms)))
    ensures forall x :: x in SortMembers(ms) <==> x in ms
    ensures |SortMembers(ms)| == |ms|
  {
    if ms != [] {
      SortMembersSorts(ms[1..]);
      var rest := SortMembers(ms[1..]);
      assert ms == [ms[0]] + ms[1..];
      forall i | 0 <= i < |rest|
        ensures rest[i].key != ms[0].key
      {
        assert rest[i] in ms[1..];
        var j :| 0 <= j < |ms[1..]| && ms[1..][j] == rest[i];
        assert ms[0].key != ms[j + 1].key;
      }
      InsertKeepsSorted(ms[0], rest);
    }
  }

  // ---- Printing ----

  function Render(v: Json): (ts: seq<Token>)
    ensures ts != [] && ts[0] != CloseBracket
    decreases v, 1
  {
    match v
    case Array(items) => [OpenBracket] + RenderItems(items)
    case Object(ms) => [OpenBrace] + RenderMembers(ms)
    case _ => [Scalar(v)]
  }

  /** The items and the closing bracket. */
  function RenderItems(items: seq<Json>): seq<Token>
    decreases items, 0
  {
    if items == [] then [CloseBracket] else Render(items[0]) + MoreItems(items[1..])
  }

  function MoreItems(items: seq<Json>): seq<Token>
    decreases items, 0
  {
    if items == [] then [CloseBracket] else [Comma] + Render(items[0]) + MoreItems(items[1..])
  }

  /** The members and the closing brace. */
  function RenderMembers(ms: seq<Member>): seq<Token>
    decreases ms, 0
  {
    if ms == [] then [CloseBrace] else RenderMember(ms[0]) + MoreMembers(ms[1..])
  }

  function MoreMembers(ms: seq<Member>): seq<Token>
    decreases ms, 0
  {
    if ms == [] then [CloseBrace] else [Comma] + RenderMember(ms[0]) + MoreMembers(ms[1..])
  }

  function RenderMember(m: Member): seq<Token>
    decreases m, 0
  {
    [Scalar(Str(m.key)), Colon] + Render(m.value)
  }

  function Print(v: Json): seq<Token> {
    Render(Canon(v))
  }

  // ---- Reading back (the grammar of section 2 of RFC 8259, on tokens) ----

  datatype Read<T> = Read(value: T, rest: seq<Token>) | Malformed

  /** value = scalar / "[" "]" / "[" elements / "{" "}" / "{" members */
  function ReadValue(ts: seq<Token>): Read<Json>
    decreases |ts|, 0
  {
    if ts == [] then Malformed
    else
      match ts[0]
      case Scalar(v) => if v.Array? || v.Object? then Malformed else Read(v, ts[1..])
      case OpenBracket =>
        if |ts| > 1 && ts[1] == CloseBracket then Read(Array([]), ts[2..])
        else
          var r := ReadItems(ts[1..]);
          if r.Read? then Read(Array(r.value), r.rest) else Malformed
      case OpenBrace =>
        if |ts| > 1 && ts[1] == CloseBrace then Read(Object([]), ts[2..])
        else
          var r := ReadMembers(ts[1..]);
          if r.Read? then Read(Object(r.value), r.rest) else Malformed
      case _ => Malformed
  }

  /** elements = value ( "]" / "," elements ) */
  function ReadItems(ts: seq<Token>): Read<seq<Json>>
    decreases |ts|, 1
  {
    var first := ReadValue(ts);
    if first.Malformed? || !(0 < |first.rest| < |ts|) then Malformed
    else if first.rest[0] == CloseBracket then Read([first.value], first.rest[1..])
    else if first.rest[0] == Comma then
      var more := ReadItems(first.rest[1..]);
      if more.Read? then Read([first.value] + more.value, more.rest) else Malformed
    else Malformed
  }

  /** members = string ":" value ( "}" / "," members ) */
  function ReadMembers(ts: seq<Token>): Read<seq<Member>>
    decreases |ts|, 1
  {
    if |ts| < 2 || !ts[0].Scalar? || !ts[0].json.Str? || ts[1] != Colon then Malformed
    else
      var first := ReadValue(ts[2..]);
      if first.Malformed? || !(0 < |first.rest| < |ts|) then Malformed
      else
        var member := Member(ts[0].json.text, first.value);
        if first.rest[0] == CloseBrace then Read([member], first.rest[1..])
        else if first.rest[0] == Comma then
          var more := ReadMembers(first.rest[1..]);
          if more.Read? then Read([member] + more.value, more.rest) else Malformed
        else Malformed
  }

  /** Reading undoes printing, and stops where the printed value ends. */
  lemma {:induction false} ReadUndoesRender(v: Json, x: seq<Token>)
    ensures ReadValue(Render(v) + x) == Read(v, x)
    decreases v, 1
  {
    match v
    case Array(items) =>
      if items == [] {
        ReadEmpty(x);
        assert Render(v) == [OpenBracket] + [CloseBracket] == [OpenBracket, CloseBracket];
      } else {
        AppendAssociative([OpenBracket], RenderItems(items), x);
        var body := RenderItems(items) + x;
        assert body[0] == Render(items[0])[0];
        ReadUndoesItems(items, x);
        ReadBracketed(items, body, x);
      }
    case Object(ms) =>
      if ms == [] {
        ReadEmpty(x);
        assert Render(v) == [OpenBrace] + [CloseBrace] == [OpenBrace, CloseBrace];
      } else {
        AppendAssociative([OpenBrace], RenderMembers(ms), x);
        var body := RenderMembers(ms) + x;
        MembersFirst(ms, x);
        assert body[0] == Scalar(Str(ms[0].key));
        ReadUndoesMembers(ms, x);
        ReadBraced(ms, body, x);
      }
    case _ => assert (Render(v) + x)[0] == Scalar(v) && (Render(v) + x)[1..] == x;
  }

  lemma ReadEmpty(x: seq<Token>)
    ensures ReadValue([OpenBracket, CloseBracket] + x) == Read(Array([]), x)
    ensures ReadValue([OpenBrace, CloseBrace] + x) == Read(Object([]), x)
  {
    assert ([OpenBracket, CloseBracket] + x)[2..] == x && ([OpenBrace, CloseBrace] + x)[2..] == x;
  }

  lemma ReadBracketed(items: seq<Json>, body: seq<Token>, x: seq<Token>)
    requires body != [] && body[0] != CloseBracket && ReadItems(body) == Read(items, x)
    ensures ReadValue([OpenBracket] + body) == Read(Array(items), x)
  {
    assert ([OpenBracket] + body)[1..] == body;
  }

  lemma ReadBraced(ms: seq<Member>, body: seq<Token>, x: seq<Token>)
    requires body != [] && body[0] != CloseBrace && ReadMembers(body) == Read(ms, x)
    ensures ReadValue([OpenBrace] + body) == Read(Object(ms), x)
  {
    assert ([OpenBrace] + body)[1..] == body;
  }

  lemma ReadLastItem(ts: seq<Token>, v: Json, x: seq<Token>)
    requires ReadValue(ts) == Read(v, [CloseBracket] + x) && |ts| > |x| + 1
    ensures ReadItems(ts) == Read([v], x)
  {
    assert ([CloseBracket] + x)[1..] == x;
  }

  lemma ReadFirstItem(ts: seq<Token>, v: Json, rest: seq<Token>, items: seq<Json>, x: seq<Token>)
    requires ReadValue(ts) == Read(v, [Comma] + rest) && |ts| > |rest| + 1 && ReadItems(rest) == Read(items, x)
    ensures ReadItems(ts) == Read([v] + items, x)
  {
    assert ([Comma] + rest)[1..] == rest;
  }

  lemma {:induction false} ItemsFirst(items: seq<Json>, x: seq<Token>)
    requires items != []
    ensures RenderItems(items) + x == Render(items[0]) + (MoreItems(items[1..]) + x)
  {
    AppendAssociative(Render(items[0]), MoreItems(items[1..]), x);
  }

  lemma {:induction false} MoreItemsFirst(items: seq<Json>, x: seq<Token>)
    requires items != []
    ensures MoreItems(items) + x == [Comma] + (RenderItems(items) + x)
  {
    AppendAssociative([Comma], Render(items[0]), MoreItems(items[1..]));
    AppendAssociative([Comma], RenderItems(items), x);
  }

  lemma {:induction false} ReadUndoesItems(items: seq<Json>, x: seq<Token>)
    requires items != []
    ensures ReadItems(RenderItems(items) + x) == Read(items, x)
    decreases items, 0
  {
    var ts, v, tail := RenderItems(items) + x, items[0], items[1..];
    ItemsFirst(items, x);
    ReadUndoesRender(v, MoreItems(tail) + x);
    assert items == [v] + tail;
    if tail == [] {
      ReadLastItem(ts, v, x);
      assert items == [v];
    } else {
      MoreItemsFirst(tail, x);
      ReadUndoesItems(tail, x);
      ReadFirstItem(ts, v, RenderItems(tail) + x, tail, x);
    }
  }

  function KeyTokens(key: string): seq<Token> {
    [Scalar(Str(key)), Colon]
  }

  lemma ReadLastMember(key: string, ts: seq<Token>, v: Json, x: seq<Token>)
    requires ReadValue(ts) == Read(v, [CloseBrace] + x) && |ts| > |x| + 1
    ensures ReadMembers(KeyTokens(key) + ts) == Read([Member(key, v)], x)
  {
    assert (KeyTokens(key) + ts)[2..] == ts;
    assert ([CloseBrace] + x)[1..] == x;
  }

  lemma ReadFirstMember(key: string, ts: seq<Token>, v: Json, rest: seq<Token>, ms: seq<Member>, x: seq<Token>)
    requires ReadValue(ts) == Read(v, [Comma] + rest) && |ts| > |rest| + 1 && ReadMembers(rest) == Read(ms, x)
    ensures ReadMembers(KeyTokens(key) + ts) == Read([Member(key, v)] + ms, x)
  {
    assert (KeyTokens(key) + ts)[2..] == ts;
    assert ([Comma] + rest)[1..] == rest;
  }

  lemma {:induction false} MembersFirst(ms: seq<Member>, x: seq<Token>)
    requires ms != []
    ensures RenderMembers(ms) + x == KeyTokens(ms[0].key) + (Render(ms[0].value) + (MoreMembers(ms[1..]) + x))
  {
    AppendAssociative(RenderMember(ms[0]), MoreMembers(ms[1..]), x);
    AppendAssociative(KeyTokens(ms[0].key), Render(ms[0].value), MoreMembers(ms[1..]) + x);
  }

  lemma {:induction false} MoreMembersFirst(ms: seq<Member>, x: seq<Token>)
    requires ms != []
    ensures MoreMembers(ms) + x == [Comma] + (RenderMembers(ms) + x)
  {
    AppendAssociative([Comma], RenderMember(ms[0]), MoreMembers(ms[1..]));
    AppendAssociative([Comma], RenderMembers(ms), x);
  }

  lemma {:induction false} ReadUndoesMembers(ms: seq<Member>, x: seq<Token>)
    requires ms != []
    ensures ReadMembers(RenderMembers(ms) + x) == Read(ms, x)
    decreases ms, 0
  {
    var key, v, tail := ms[0].key, ms[0].value, ms[1..];
    var ts := Render(v) + (MoreMembers(tail) + x);
    MembersFirst(ms, x);
    ReadUndoesRender(v, MoreMembers(tail) + x);
    assert ms == [Member(key, v)] + tail;
    if tail == [] {
      ReadLastMember(key, ts, v, x);
      assert ms == [Member(key, v)];
    } else {
      MoreMembersFirst(tail, x);
      ReadUndoesMembers(tail, x);
      ReadFirstMember(key, ts, v, RenderMembers(tail) + x, tail, x);
    }
  }

  lemma CancelHead(h: seq<Token>, a: seq<Token>, b: seq<Token>)
    requires h + a == h + b
    ensures a == b
  {
    assert (h + a)[|h|..] == a && (h + b)[|h|..] == b;
  }

  /** A rendered value can be read off the front of a stream in only one way. */
  lemma {:induction false} RenderIsUnambiguous(a: Json, b: Json, x: seq<Token>, y: seq<Token>)
    requires Render(a) + x == Render(b) + y
    ensures a == b && x == y
  {
    ReadUndoesRender(a, x);
    ReadUndoesRender(b, y);
  }

  // ---- Canonical forms are equal exactly for equal values ----

  lemma CanonMembersDistinct(ms: seq<Member>)
    requires DistinctKeys(ms)
    ensures DistinctKeys(CanonMembers(ms))
  {
  }

  /** Two listings of distinct members sort to the same sequence exactly if they hold the same members. */
  lemma SortedEqualIff(a: seq<Member>, b: seq<Member>)
    requires DistinctKeys(a) && DistinctKeys(b)
    ensures SortMembers(a) == SortMembers(b) <==> forall m :: m in a <==> m in b
  {
    SortMembersSorts(a);
    SortMembersSorts(b);
    if forall m :: m in a <==> m in b {
      MembersFromKeys(SortMembers(a), SortMembers(b));
    }
  }

  lemma MembersFromKeys(a: seq<Member>, b: seq<Member>)
    requires Sorted(KeysOf(a)) && Sorted(KeysOf(b))
    requires forall m :: m in a <==> m in b
    ensures a == b
  {
    forall k
      ensures k in KeysOf(a) <==> k in KeysOf(b)
    {
      if k in KeysOf(a) {
        var i :| 0 <= i < |a| && KeysOf(a)[i] == k;
        assert a[i] in b;
        var j :| 0 <= j < |b| && b[j] == a[i];
        assert KeysOf(b)[j] == k;
      }
      if k in KeysOf(b) {
        var i :| 0 <= i < |b| && KeysOf(b)[i] == k;
        assert b[i] in a;
        var j :| 0 <= j < |a| && a[j] == b[i];
        assert KeysOf(a)[j] == k;
      }
    }
    SortedIsUnique(KeysOf(a), KeysOf(b));
    assert |a| == |KeysOf(a)| == |KeysOf(b)| == |b|;
    forall i | 0 <= i < |a|
      ensures a[i] == b[i]
    {
      assert a[i] in b;
      var j :| 0 <= j < |b| && b[j] == a[i];
      assert KeysOf(b)[j] == a[i].key == KeysOf(a)[i] == KeysOf(b)[i];
      LessIsTotal(KeysOf(b)[i], KeysOf(b)[j]);
    }
  }

  lemma {:induction false} SameIffCanonEqual(a: Json, b: Json)
    requires WellFormed(a) && WellFormed(b)
    ensures Same(a, b) <==> Canon(a) == Canon(b)
    decreases a
  {
    match a
    case Array(xs) =>
      if b.Array? && |xs| == |b.items| {
        forall i | 0 <= i < |xs|
          ensures Same(xs[i], b.items[i]) <==> Canon(a).items[i] == Canon(b).items[i]
        {
          SameIffCanonEqual(xs[i], b.items[i]);
        }
      } else if b.Array? {
        assert |Canon(a).items| == |xs| && |Canon(b).items| == |b.items|;
      }
    case Object(ms) =>
      if b.Object? {
        forall i, j | 0 <= i < |ms| && 0 <= j < |b.members|
          ensures Same(ms[i].value, b.members[j].value) <==> Canon(ms[i].value) == Canon(b.members[j].value)
        {
          SameIffCanonEqual(ms[i].value, b.members[j].value);
        }
        CanonMembersDistinct(ms);
        CanonMembersDistinct(b.members);
        SortedEqualIff(CanonMembers(ms), CanonMembers(b.members));
        SameMembersIff(ms, b.members);
      }
    case _ =>
  }

  ghost predicate MembersAgree(a: seq<Member>, b: seq<Member>) {
    forall i, j :: 0 <= i < |a| && 0 <= j < |b| && a[i].key == b[j].key ==> Canon(a[i].value) == Canon(b[j].value)
  }

  lemma SameMembersIff(a: seq<Member>, b: seq<Member>)
    requires DistinctKeys(a) && DistinctKeys(b)
    ensures (forall m :: m in CanonMembers(a) <==> m in CanonMembers(b)) <==>
            ((forall key :: HasKey(a, key) <==> HasKey(b, key)) && MembersAgree(a, b))
  {
    if (forall key :: HasKey(a, key) <==> HasKey(b, key)) && MembersAgree(a, b) {
      MembersCarryOver(a, b);
      MembersCarryOver(b, a);
    }
    if forall m :: m in CanonMembers(a) <==> m in CanonMembers(b) {
      KeysCarryOver(a, b);
      KeysCarryOver(b, a);
      forall i, j | 0 <= i < |a| && 0 <= j < |b| && a[i].key == b[j].key
        ensures Canon(a[i].value) == Canon(b[j].value)
      {
        assert CanonMembers(a)[i] in CanonMembers(b);
        var k :| 0 <= k < |b| && CanonMembers(b)[k] == CanonMembers(a)[i];
        assert b[k].key == b[j].key;
      }
    }
  }

  lemma MembersCarryOver(a: seq<Member>, b: seq<Member>)
    requires forall key :: HasKey(a, key) ==> HasKey(b, key)
    requires MembersAgree(a, b)
    ensures forall m :: m in CanonMembers(a) ==> m in CanonMembers(b)
  {
    forall m | m in CanonMembers(a)
      ensures m in CanonMembers(b)
    {
      var i :| 0 <= i < |a| && CanonMembers(a)[i] == m;
      assert HasKey(a, a[i].key);
      var j :| 0 <= j < |b| && b[j].key == a[i].key;
      assert CanonMembers(b)[j] == m;
    }
  }

  lemma KeysCarryOver(a: seq<Member>, b: seq<Member>)
    requires forall m :: m in CanonMembers(a) ==> m in CanonMembers(b)
    ensures forall key :: HasKey(a, key) ==> HasKey(b, key)
  {
    forall key | HasKey(a, key)
      ensures HasKey(b, key)
    {
      var i :| 0 <= i < |a| && a[i].key == key;
      assert CanonMembers(a)[i] in CanonMembers(b);
      var j :| 0 <= j < |b| && CanonMembers(b)[j] == CanonMembers(a)[i];
      assert b[j].key == key;
    }
  }

  // ---- Main results ----

  /** Two values print the same token stream exactly if they are equal up to member order. */
  lemma {:induction false} PrintDeterminesValue(a: Json, b: Json)
    requires WellFormed(a) && WellFormed(b)
    ensures Print(a) == Print(b) <==> Same(a, b)
  {
    SameIffCanonEqual(a, b);
    if Print(a) == Print(b) {
      RenderIsUnambiguous(Canon(a), Canon(b), [], []);
    }
  }

  /** Canonical values are their own canonical form. */
  lemma {:induction false} CanonIsCanonical(v: Json)
    requires WellFormed(v)
    ensures WellFormed(Canon(v)) && Canon(Canon(v)) == Canon(v)
    decreases v
  {
    match v
    case Array(items) =>
      var canonical := Canon(v).items;
      forall i | 0 <= i < |items|
        ensures WellFormed(canonical[i]) && Canon(canonical[i]) == canonical[i]
      {
        CanonIsCanonical(items[i]);
      }
      assert Canon(Canon(v)).items == canonical;
    case Object(ms) =>
      forall i | 0 <= i < |ms|
        ensures WellFormed(Canon(ms[i].value)) && Canon(Canon(ms[i].value)) == Canon(ms[i].value)
      {
        CanonIsCanonical(ms[i].value);
      }
      CanonMembersDistinct(ms);
      SortedStays(CanonMembers(ms));
    case _ =>
  }

  /** Members with canonical values, once sorted, stay as they are. */
  lemma SortedStays(ms: seq<Member>)
    requires DistinctKeys(ms)
    requires forall i :: 0 <= i < |ms| ==> WellFormed(ms[i].value) && Canon(ms[i].value) == ms[i].value
    ensures WellFormed(Object(SortMembers(ms))) && Canon(Object(SortMembers(ms))) == Object(SortMembers(ms))
  {
    var sorted := SortMembers(ms);
    SortMembersSorts(ms);
    forall i | 0 <= i < |sorted|
      ensures WellFormed(sorted[i].value) && Canon(sorted[i].value) == sorted[i].value
    {
      assert sorted[i] in ms;
    }
    assert CanonMembers(sorted) == sorted;
    SortedKeysDiffer(sorted);
    SortMembersSorts(sorted);
    MembersFromKeys(SortMembers(sorted), sorted);
  }

  lemma SortedKeysDiffer(ms: seq<Member>)
    requires Sorted(KeysOf(ms))
    ensures DistinctKeys(ms)
  {
    forall i, j | 0 <= i < j < |ms|
      ensures ms[i].key != ms[j].key
    {
      assert Less(KeysOf(ms)[i], KeysOf(ms)[j]);
      LessIsTotal(ms[i].key, ms[j].key);
    }
  }

  /** Reading a printed value back gives the same value, up to member order, and nothing is left over. */
  lemma PrintReadsBack(v: Json)
    requires WellFormed(v)
    ensures ReadValue(Print(v)) == Read(Canon(v), []) && Same(v, Canon(v))
  {
    assert Print(v) + [] == Print(v);
    ReadUndoesRender(Canon(v), []);
    CanonIsCanonical(v);
    SameIffCanonEqual(v, Canon(v));
  }

  /** Lexicographic order by code points: a proper prefix comes first, else the first difference decides. */
  ghost predicate ComesBefore(a: string, b: string) {
    exists n: nat :: n <= |a| && n < |b| && a[..n] == b[..n] && (n == |a| || a[n] < b[n])
  }

  lemma {:induction false} LessIsLexicographic(a: string, b: string)
    ensures Less(a, b) <==> ComesBefore(a, b)
  {
    if a != [] && b != [] && a[0] == b[0] {
      LessIsLexicographic(a[1..], b[1..]);
      if Less(a, b) {
        var n: nat :| n <= |a[1..]| && n < |b[1..]| && a[1..][..n] == b[1..][..n] && (n == |a[1..]| || a[1..][n] < b[1..][n]);
        assert a[..n + 1] == [a[0]] + a[1..][..n] && b[..n + 1] == [b[0]] + b[1..][..n];
        assert n + 1 <= |a| && n + 1 < |b| && a[..n + 1] == b[..n + 1];
      }
      if ComesBefore(a, b) {
        var n: nat :| n <= |a| && n < |b| && a[..n] == b[..n] && (n == |a| || a[n] < b[n]);
        assert n > 0;
        assert a[1..][..n - 1] == a[..n][1..] && b[1..][..n - 1] == b[..n][1..];
      }
    } else if Less(a, b) {
      assert a[..0] == b[..0];
    }
  }

  /** The printed members of an object are its own, in the order of their keys. */
  lemma PrintedMembersAreSorted(ms: seq<Member>)
    requires WellFormed(Object(ms))
    ensures var printed := Canon(Object(ms)).members;
            && |printed| == |ms|
            && (forall i, j :: 0 <= i < j < |printed| ==> ComesBefore(printed[i].key, printed[j].key))
            && forall m :: m in printed <==> exists i :: 0 <= i < |ms| && m == Member(ms[i].key, Canon(ms[i].value))
  {
    CanonMembersDistinct(ms);
    SortMembersSorts(CanonMembers(ms));
    var printed := SortMembers(CanonMembers(ms));
    forall i, j | 0 <= i < j < |printed|
      ensures ComesBefore(printed[i].key, printed[j].key)
    {
      assert Less(KeysOf(printed)[i], KeysOf(printed)[j]);
      LessIsLexicographic(printed[i].key, printed[j].key);
    }
    forall m
      ensures m in CanonMembers(ms) <==> exists i :: 0 <= i < |ms| && m == Member(ms[i].key, Canon(ms[i].value))
    {
      if i :| 0 <= i < |ms| && m == Member(ms[i].key, Canon(ms[i].value)) {
        assert CanonMembers(ms)[i] == m;
      }
    }
  }

  /** No printed stream is a proper prefix of another. */
  lemma {:induction false} PrintIsPrefixFree(a: Json, b: Json)
    requires WellFormed(a) && WellFormed(b)
    requires Print(a) <= Print(b)
    ensures Print(a) == Print(b) && Same(a, b)
  {
    var rest := Print(b)[|Print(a)|..];
    assert Print(a) + rest == Print(b) + [];
    RenderIsUnambiguous(Canon(a), Canon(b), rest, []);
    PrintDeterminesValue(a, b);
  }

  /** The stream that is hashed for one static report. */
  function HashInput(cpu: Json, system: Json, gpu: Json): seq<Token> {
    Print(cpu) + [Newline] + (Print(system) + [Newline] + Print(gpu))
  }

  /** The three-part hash input determines cpu, system and gpu, each up to member order, and nothing less. */
  lemma {:induction false} HashInputDeterminesParts(c: Json, s: Json, g: Json, c': Json, s': Json, g': Json)
    requires WellFormed(c) && WellFormed(s) && WellFormed(g) && WellFormed(c') && WellFormed(s') && WellFormed(g')
    ensures HashInput(c, s, g) == HashInput(c', s', g') <==> Same(c, c') && Same(s, s') && Same(g, g')
  {
    PrintDeterminesValue(c, c');
    PrintDeterminesValue(s, s');
    PrintDeterminesValue(g, g');
    if HashInput(c, s, g) == HashInput(c', s', g') {
      PartIsDetermined(c, c', Print(s) + [Newline] + Print(g), Print(s') + [Newline] + Print(g'));
      PartIsDetermined(s, s', Print(g), Print(g'));
    }
  }

  /** The stream reads as the given values, in this order, with one separator between each two. */
  ghost predicate Holds(ts: seq<Token>, vs: seq<Json>)
    decreases |vs|
  {
    if vs == [] then false
    else
      var first := ReadValue(ts);
      && first.Read? && Same(vs[0], first.value)
      && if |vs| == 1 then first.rest == []
         else first.rest != [] && first.rest[0] == Newline && Holds(first.rest[1..], vs[1..])
  }

  /** The hash input reads back as cpu, system and gpu, in this order, one separator between each two. */
  lemma HashInputReadsBack(c: Json, s: Json, g: Json)
    requires WellFormed(c) && WellFormed(s) && WellFormed(g)
    ensures Holds(HashInput(c, s, g), [c, s, g])
  {
    PrintReadsBack(c);
    PrintReadsBack(s);
    PrintReadsBack(g);
    var last := [Newline] + Print(g);
    var middle := [Newline] + (Print(s) + last);
    AppendAssociative(Print(s), [Newline], Print(g));
    AppendAssociative(Print(c), [Newline], Print(s) + last);
    ReadUndoesRender(Canon(c), middle);
    assert middle[1..] == Print(s) + last;
    ReadUndoesRender(Canon(s), last);
    assert last[1..] == Print(g);
    assert Holds(Print(g), [g]);
    assert [s, g][1..] == [g] && Holds(Print(s) + last, [s, g]);
    assert [c, s, g][1..] == [s, g];
  }

  lemma PartIsDetermined(a: Json, b: Json, x: seq<Token>, y: seq<Token>)
    ensures Print(a) + [Newline] + x == Print(b) + [Newline] + y ==> Print(a) == Print(b) && x == y
  {
    if Print(a) + [Newline] + x == Print(b) + [Newline] + y {
      assert Print(a) + [Newline] + x == Print(a) + ([Newline] + x);
      assert Print(b) + [Newline] + y == Print(b) + ([Newline] + y);
      RenderIsUnambiguous(Canon(a), Canon(b), [Newline] + x, [Newline] + y);
      CancelHead([Newline], x, y);
    }
  }

  // ---- The writer ----

  /** What is still to be written when `i` members have been. */
  ghost function MembersFrom(ms: seq<Member>, i: nat): seq<Token>
    requires i <= |ms|
  {
    if i == 0 then RenderMembers(ms) else MoreMembers(ms[i..])
  }

  ghost function ItemsFrom(items: seq<Json>, i: nat): seq<Token>
    requires i <= |items|
  {
    if i == 0 then RenderItems(items) else MoreItems(items[i..])
  }

  lemma MemberWritten(ms: seq<Member>, i: nat)
    requires i < |ms|
    ensures MembersFrom(ms, i) == (if i > 0 then [Comma] else []) + RenderMember(ms[i]) + MembersFrom(ms, i + 1)
  {
    assert ms[i..][0] == ms[i] && ms[i..][1..] == ms[i + 1..];
  }

  lemma ItemWritten(items: seq<Json>, i: nat)
    requires i < |items|
    ensures ItemsFrom(items, i) == (if i > 0 then [Comma] else []) + Render(items[i]) + ItemsFrom(items, i + 1)
  {
    assert items[i..][0] == items[i] && items[i..][1..] == items[i + 1..];
  }

  /** The keys of a map in sorted order. */
  function SortedKeys(ms: seq<Member>): seq<string> {
    KeysOf(SortMembers(ms))
  }

  /** `map.get(key)`. */
  method Lookup(ms: seq<Member>, key: string) returns (i: nat)
    requires HasKey(ms, key)
    ensures i < |ms| && ms[i].key == key
  {
    i := 0;
    while ms[i].key != key
      invariant i < |ms|
      invariant forall j :: 0 <= j < i ==> ms[j].key != key
      decreases |ms| - i
    {
      i := i + 1;
    }
  }

  /** Sorting the keys first and looking the values up visits the canonical members in order. */
  lemma KeysVisitCanonicalMembers(ms: seq<Member>)
    requires DistinctKeys(ms)
    ensures SortedKeys(ms) == KeysOf(SortMembers(CanonMembers(ms)))
    ensures forall i :: 0 <= i < |SortedKeys(ms)| ==> HasKey(ms, SortedKeys(ms)[i])
    ensures forall i, j :: 0 <= i < |SortedKeys(ms)| && 0 <= j < |ms| && ms[j].key == SortedKeys(ms)[i] ==>
              SortMembers(CanonMembers(ms))[i] == Member(ms[j].key, Canon(ms[j].value))
  {
    var sorted, canonical := SortMembers(ms), SortMembers(CanonMembers(ms));
    CanonMembersDistinct(ms);
    SortMembersSorts(ms);
    SortMembersSorts(CanonMembers(ms));
    KeysAreThose(sorted, ms);
    KeysAreThose(canonical, CanonMembers(ms));
    forall k
      ensures HasKey(ms, k) <==> HasKey(CanonMembers(ms), k)
    {
      if HasKey(ms, k) {
        var i :| 0 <= i < |ms| && ms[i].key == k;
        assert CanonMembers(ms)[i].key == k;
      }
    }
    SortedIsUnique(KeysOf(sorted), KeysOf(canonical));
    forall i, j | 0 <= i < |canonical| && 0 <= j < |ms| && ms[j].key == SortedKeys(ms)[i]
      ensures canonical[i] == Member(ms[j].key, Canon(ms[j].value))
    {
      assert KeysOf(canonical)[i] == canonical[i].key;
      assert canonical[i] in CanonMembers(ms);
      var k :| 0 <= k < |ms| && CanonMembers(ms)[k] == canonical[i];
    }
  }

  lemma KeysAreThose(sorted: seq<Member>, ms: seq<Member>)
    requires forall m :: m in sorted <==> m in ms
    ensures forall k :: k in KeysOf(sorted) <==> HasKey(ms, k)
  {
    forall k
      ensures k in KeysOf(sorted) <==> HasKey(ms, k)
    {
      if k in KeysOf(sorted) {
        var i :| 0 <= i < |sorted| && KeysOf(sorted)[i] == k;
        assert sorted[i] in ms;
        var j :| 0 <= j < |ms| && ms[j] == sorted[i];
        assert ms[j].key == k;
      }
      if HasKey(ms, k) {
        var i :| 0 <= i < |ms| && ms[i].key == k;
        assert ms[i] in sorted;
        var j :| 0 <= j < |sorted| && sorted[j] == ms[i];
        assert KeysOf(sorted)[j] == k;
      }
    }
  }

  lemma Regroup(out: seq<Token>, comma: seq<Token>, name: seq<Token>, value: seq<Token>, rest: seq<Token>)
    ensures out + comma + name + value + rest == out + (comma + (name + value) + rest)
  {
  }

  /** The recursive writer appends exactly the canonical print of its value. */
  method WriteCanonicalJson(v: Json, w: seq<Token>) returns (out: seq<Token>)
    requires WellFormed(v)
    ensures out == w + Print(v)
    decreases v, 1
  {
    match v
    case Object(ms) => out := WriteObject(ms, w);
    case Array(items) => out := WriteArray(items, w);
    case _ => out := w + [Scalar(v)];
  }

  method WriteObject(ms: seq<Member>, w: seq<Token>) returns (out: seq<Token>)
    requires WellFormed(Object(ms))
    ensures out == w + Print(Object(ms))
    decreases ms, 0
  {
    var keys := SortedKeys(ms);
    ghost var canonical := SortMembers(CanonMembers(ms));
    KeysVisitCanonicalMembers(ms);
    assert |keys| == |canonical|;
    ghost var goal := w + Print(Object(ms));
    out := w + [OpenBrace];
    assert out + RenderMembers(canonical) == goal;
    for i := 0 to |keys|
      invariant out + MembersFrom(canonical, i) == goal
    {
      MemberWritten(canonical, i);
      ghost var before := out;
      ghost var comma: seq<Token> := if i > 0 then [Comma] else [];
      if i > 0 {
        out := out + [Comma];
      } else {
        assert out == before + comma;
      }
      out := out + [Scalar(Str(keys[i])), Colon];
      var j := Lookup(ms, keys[i]);
      assert canonical[i] == Member(keys[i], Canon(ms[j].value));
      out := WriteCanonicalJson(ms[j].value, out);
      Regroup(before, comma, [Scalar(Str(keys[i])), Colon], Print(ms[j].value), MembersFrom(canonical, i + 1));
    }
    assert canonical[|keys|..] == [];
    out := out + [CloseBrace];
  }

  method WriteArray(items: seq<Json>, w: seq<Token>) returns (out: seq<Token>)
    requires WellFormed(Array(items))
    ensures out == w + Print(Array(items))
    decreases items, 0
  {
    ghost var canonical := Canon(Array(items)).items;
    ghost var goal := w + Print(Array(items));
    out := w + [OpenBracket];
    assert out + RenderItems(canonical) == goal;
    for i := 0 to |items|
      invariant out + ItemsFrom(canonical, i) == goal
    {
      ItemWritten(canonical, i);
      ghost var before := out;
      ghost var comma: seq<Token> := if i > 0 then [Comma] else [];
      if i > 0 {
        out := out + [Comma];
      } else {
        assert out == before + comma;
      }
      out := WriteCanonicalJson(items[i], out);
      Regroup(before, comma, [], Print(items[i]), ItemsFrom(canonical, i + 1));
      assert [] + Print(items[i]) == Print(items[i]) && before + comma + [] == before + comma;
    }
    assert canonical[|items|..] == [];
    out := out + [CloseBracket];
  }

  /** Up to the digest itself: the three writes and the two separators of `compute_data_hash`. */
  method WriteHashInput(cpu: Json, system: Json, gpu: Json) returns (out: seq<Token>)
    requires WellFormed(cpu) && WellFormed(system) && WellFormed(gpu)
    ensures out == HashInput(cpu, system, gpu)
  {
    out := WriteCanonicalJson(cpu, []);
    out := out + [Newline];
    out := WriteCanonicalJson(system, out);
    out := out + [Newline];
    out := WriteCanonicalJson(gpu, out);
  }
}
