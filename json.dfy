/** JSON values and the two canonical serialisations the signatures are computed over:
    JavaScript's `JSON.stringify(value, propertyList)` with a property-name list, and
    Python's `json.dumps(value, sort_keys=True)`.

    Numbers are integers here (money amounts are modelled in minor units). */
module Json {
  import opened Wrappers
  import opened Text

  datatype Json =
    | JNull
    | JBool(b: bool)
    | JNum(n: int)
    | JStr(s: string)
    | JArr(items: seq<Json>)
    | JObj(members: seq<(string, Json)>)

  /** The own properties of an object (a JavaScript object or a Python dict), in enumeration order. */
  type Members = seq<(string, Json)>

  function Keys<V>(m: seq<(string, V)>): (ks: seq<string>)
    ensures |ks| == |m| && forall i :: 0 <= i < |m| ==> ks[i] == m[i].0
  {
    seq(|m|, i requires 0 <= i < |m| => m[i].0)
  }

  /** Objects and dicts never hold the same property name twice. */
  predicate DistinctKeys<V>(m: seq<(string, V)>) {
    forall i, j :: 0 <= i < j < |m| ==> m[i].0 != m[j].0
  }

  /** Position of the property named `k`, if any. */
  function FindKey<V>(m: seq<(string, V)>, k: string): (r: Option<nat>)
    ensures r.Some? ==> r.value < |m| && m[r.value].0 == k
    ensures r.Some? ==> forall i :: 0 <= i < r.value ==> m[i].0 != k
    ensures r.None? <==> forall i :: 0 <= i < |m| ==> m[i].0 != k
  {
    if m == [] then None
    else if m[0].0 == k then Some(0)
    else match FindKey(m[1..], k)
      case Some(i) => Some(i + 1)
      case None => None
  }

  /** `obj[k]`, or None when `obj` has no property `k`. */
  function Lookup(m: Members, k: string): Option<Json> {
    match FindKey(m, k)
    case Some(i) => Some(m[i].1)
    case None => None
  }

  /** In an object with distinct property names, a lookup finds exactly the member that is there. */
  lemma LookupDistinct(m: Members, k: string, v: Json)
    requires DistinctKeys(m)
    ensures Lookup(m, k) == Some(v) <==> (k, v) in m
  {
    if (k, v) in m {
      var j :| 0 <= j < |m| && m[j] == (k, v);
      var r := FindKey(m, k);
      assert r.Some? && r.value == j;
    }
  }

  // ---------------------------------------------------------------------------------------
  // Sorting properties by name

  predicate SortedByKey<V>(o: Collation, m: seq<(string, V)>) {
    forall i, j :: 0 <= i < j < |m| ==> !Less(o, m[j].0, m[i].0)
  }

  predicate StrictlySortedByKey<V>(o: Collation, m: seq<(string, V)>) {
    forall i, j :: 0 <= i < j < |m| ==> Less(o, m[i].0, m[j].0)
  }

  function InsertByKey<V>(o: Collation, x: (string, V), m: seq<(string, V)>): (r: seq<(string, V)>)
    requires SortedByKey(o, m)
    ensures SortedByKey(o, r)
    ensures multiset(r) == multiset(m) + multiset{x}
  {
    if m == [] then [x]
    else if Less(o, m[0].0, x.0) then
      var rest := InsertByKey(o, x, m[1..]);
      InsertAfterHead(o, x, m, rest);
      [m[0]] + rest
    else
      InsertAtHead(o, x, m);
      [x] + m
  }

  /** An entry that sorts after the head goes into the tail. */
  lemma InsertAfterHead<V>(o: Collation, x: (string, V), m: seq<(string, V)>, rest: seq<(string, V)>)
    requires SortedByKey(o, m) && m != [] && Less(o, m[0].0, x.0)
    requires SortedByKey(o, rest) && multiset(rest) == multiset(m[1..]) + multiset{x}
    ensures SortedByKey(o, [m[0]] + rest)
    ensures multiset([m[0]] + rest) == multiset(m) + multiset{x}
  {
    assert m == [m[0]] + m[1..];
    LessAsymmetric(o, m[0].0, x.0);
    forall k | 0 <= k < |rest| ensures !Less(o, rest[k].0, m[0].0) {
      assert rest[k] in multiset(m[1..]) + multiset{x};
      if rest[k] != x {
        assert rest[k] in m[1..];
      }
    }
  }

  /** An entry that sorts no later than the head goes in front. */
  lemma InsertAtHead<V>(o: Collation, x: (string, V), m: seq<(string, V)>)
    requires SortedByKey(o, m) && (m == [] || !Less(o, m[0].0, x.0))
    ensures SortedByKey(o, [x] + m)
  {
    forall j | 0 <= j < |m| ensures !Less(o, m[j].0, x.0) {
      if j > 0 { NotLessTransitive(o, x.0, m[0].0, m[j].0); }
    }
  }

  /** The properties sorted by name under a collation: code points for `sort_keys=True`, code
      units for `Object.keys(o).sort()`. */
  function SortByKey<V>(o: Collation, m: seq<(string, V)>): (r: seq<(string, V)>)
    ensures SortedByKey(o, r)
    ensures multiset(r) == multiset(m)
    ensures |r| == |m|
  {
    if m == [] then []
    else
      assert m == [m[0]] + m[1..];
      InsertByKey(o, m[0], SortByKey(o, m[1..]))
  }

  lemma SortedDistinctIsStrict<V>(o: Collation, m: seq<(string, V)>)
    requires SortedByKey(o, m) && DistinctKeys(m)
    ensures StrictlySortedByKey(o, m)
  {
    forall i, j | 0 <= i < j < |m| ensures Less(o, m[i].0, m[j].0) {
      LessTotal(o, m[i].0, m[j].0);
    }
  }

  lemma {:induction false} InsertKeepsDistinct<V>(o: Collation, x: (string, V), m: seq<(string, V)>)
    requires SortedByKey(o, m) && DistinctKeys(m)
    requires forall p :: p in m ==> p.0 != x.0
    ensures DistinctKeys(InsertByKey(o, x, m))
  {
    if m == [] {
    } else if Less(o, m[0].0, x.0) {
      InsertKeepsDistinct(o, x, m[1..]);
      var rest := InsertByKey(o, x, m[1..]);
      assert InsertByKey(o, x, m) == [m[0]] + rest;
      forall p | p in rest ensures p.0 != m[0].0 {
        assert p in multiset(m[1..]) + multiset{x};
      }
      ConsDistinct(m[0], rest);
    } else {
      assert InsertByKey(o, x, m) == [x] + m;
      ConsDistinct(x, m);
    }
  }

  /** Putting a new name in front keeps the names distinct. */
  lemma ConsDistinct<V>(x: (string, V), m: seq<(string, V)>)
    requires DistinctKeys(m) && forall p :: p in m ==> p.0 != x.0
    ensures DistinctKeys([x] + m)
  {
    forall i, j | 0 <= i < j < |[x] + m| ensures ([x] + m)[i].0 != ([x] + m)[j].0 {
      if i == 0 { assert ([x] + m)[j] == m[j - 1]; }
    }
  }

  lemma {:induction false} SortKeepsDistinct<V>(o: Collation, m: seq<(string, V)>)
    requires DistinctKeys(m)
    ensures DistinctKeys(SortByKey(o, m))
  {
    if m != [] {
      SortKeepsDistinct(o, m[1..]);
      var rest := SortByKey(o, m[1..]);
      forall p | p in rest ensures p.0 != m[0].0 {
        assert p in multiset(m[1..]);
      }
      InsertKeepsDistinct(o, m[0], rest);
    }
  }

  lemma StrictHeadsEqual<V>(o: Collation, a: seq<(string, V)>, b: seq<(string, V)>)
    requires StrictlySortedByKey(o, a) && StrictlySortedByKey(o, b)
    requires multiset(a) == multiset(b) && a != []
    ensures b != [] && a[0] == b[0]
  {
    assert a[0] in multiset(b);
    var i :| 0 <= i < |b| && b[i] == a[0];
    assert b[0] in multiset(a);
    var j :| 0 <= j < |a| && a[j] == b[0];
    if i != 0 && j != 0 {
      LessAsymmetric(o, b[0].0, a[0].0);
    }
  }

  lemma TailsSameElements<V>(a: seq<(string, V)>, b: seq<(string, V)>)
    requires a != [] && b != [] && a[0] == b[0]
    requires multiset(a) == multiset(b)
    ensures multiset(a[1..]) == multiset(b[1..])
  {
    assert a == [a[0]] + a[1..] && b == [b[0]] + b[1..];
    assert multiset(a[1..]) == multiset(a) - multiset{a[0]};
    assert multiset(b[1..]) == multiset(b) - multiset{b[0]};
  }

  /** Two strictly sorted sequences with the same elements are equal. */
  lemma {:induction false} StrictlySortedUnique<V>(o: Collation, a: seq<(string, V)>, b: seq<(string, V)>)
    requires StrictlySortedByKey(o, a) && StrictlySortedByKey(o, b)
    requires multiset(a) == multiset(b)
    ensures a == b
    decreases |a|
  {
    if a == [] {
      assert |multiset(b)| == 0;
    } else {
      StrictHeadsEqual(o, a, b);
      TailsSameElements(a, b);
      StrictlySortedUnique(o, a[1..], b[1..]);
      assert a == [a[0]] + a[1..] && b == [b[0]] + b[1..];
    }
  }

  /** Sorting forgets the enumeration order: objects with the same properties sort alike. */
  lemma SortCanonical<V>(o: Collation, a: seq<(string, V)>, b: seq<(string, V)>)
    requires DistinctKeys(a) && DistinctKeys(b)
    requires multiset(a) == multiset(b)
    ensures SortByKey(o, a) == SortByKey(o, b)
  {
    SortKeepsDistinct(o, a);
    SortKeepsDistinct(o, b);
    SortedDistinctIsStrict(o, SortByKey(o, a));
    SortedDistinctIsStrict(o, SortByKey(o, b));
    StrictlySortedUnique(o, SortByKey(o, a), SortByKey(o, b));
  }

  // ---------------------------------------------------------------------------------------
  // String literals

  function HexDigit(d: nat): char
    requires d < 16
  {
    "0123456789abcdef"[d]
  }

  /** `\u` followed by four lower-case hex digits. */
  function UnicodeEscape(code: nat): string
    requires code < 0x1_0000
  {
    "\\u" + [HexDigit(code / 0x1000), HexDigit(code / 0x100 % 16), HexDigit(code / 16 % 16), HexDigit(code % 16)]
  }

  /** The two-character escapes both serialisers use. */
  function ShortEscape(c: char): Option<string> {
    if c == '"' then Some("\\\"")
    else if c == '\\' then Some("\\\\")
    else if c == '\n' then Some("\\n")
    else if c == '\r' then Some("\\r")
    else if c == '\t' then Some("\\t")
    else if c == '\U{0008}' then Some("\\b")
    else if c == '\U{000C}' then Some("\\f")
    else None
  }

  /** JavaScript: short escapes, `\u00XX` for the other control characters, everything else as is. */
  function TsEscapeChar(c: char): string {
    match ShortEscape(c)
    case Some(e) => e
    case None => if c < ' ' then UnicodeEscape(c as int) else [c]
  }

  /** Python with `ensure_ascii=True`: short escapes, and every character outside `' '..'~'`
      as `\uXXXX`, characters beyond the Basic Multilingual Plane as a surrogate pair. */
  function PyEscapeChar(c: char): string {
    match ShortEscape(c)
    case Some(e) => e
    case None =>
      if ' ' <= c <= '~' then [c]
      else if c as int < 0x1_0000 then UnicodeEscape(c as int)
      else
        var u := c as int - 0x1_0000;
        UnicodeEscape(0xD800 + u / 0x400) + UnicodeEscape(0xDC00 + u % 0x400)
  }

  function TsQuote(s: string): string {
    "\"" + EscapeAll(s, false) + "\""
  }

  function PyQuote(s: string): string {
    "\"" + EscapeAll(s, true) + "\""
  }

  function EscapeAll(s: string, ensureAscii: bool): string {
    if s == [] then ""
    else (if ensureAscii then PyEscapeChar(s[0]) else TsEscapeChar(s[0])) + EscapeAll(s[1..], ensureAscii)
  }

  // ---------------------------------------------------------------------------------------
  // JSON.stringify(value, propertyList)

  /** `JSON.stringify(v, allow)`: with a property-name list, EVERY object at EVERY depth is written
      with exactly the listed names it has, in list order; arrays are written in full. */
  function TsStringify(v: Json, allow: seq<string>): string
    decreases v, 1
  {
    match v
    case JNull => "null"
    case JBool(b) => if b then "true" else "false"
    case JNum(n) => IntText(n)
    case JStr(s) => TsQuote(s)
    case JArr(items) => "[" + Join(",", seq(|items|, i requires 0 <= i < |items| => TsStringify(items[i], allow))) + "]"
    case JObj(m) => "{" + Join(",", TsProps(v, m, allow, allow)) + "}"
  }

  /** The `"name":value` fragments of object `m` for the names in `keys`, in the order of `keys`. */
  function TsProps(ghost v: Json, m: Members, keys: seq<string>, allow: seq<string>): seq<string>
    requires v == JObj(m)
    decreases v, 0, |keys|
  {
    if keys == [] then []
    else
      var rest := TsProps(v, m, keys[1..], allow);
      match FindKey(m, keys[0])
      case Some(i) => [TsQuote(keys[0]) + ":" + TsStringify(m[i].1, allow)] + rest
      case None => rest
  }

  /** What `JSON.stringify` writes for property `k` of `m`, if it writes anything. */
  function PropText(m: Members, k: string, allow: seq<string>): Option<string> {
    match FindKey(m, k)
    case Some(i) => Some(TsStringify(m[i].1, allow))
    case None => None
  }

  /** An object's text under a property list depends only on what is written for the listed names. */
  lemma {:induction false} TsPropsDetermined(m1: Members, m2: Members, keys: seq<string>, allow: seq<string>)
    requires forall k :: k in keys ==> PropText(m1, k, allow) == PropText(m2, k, allow)
    ensures TsProps(JObj(m1), m1, keys, allow) == TsProps(JObj(m2), m2, keys, allow)
  {
    if keys != [] {
      assert PropText(m1, keys[0], allow) == PropText(m2, keys[0], allow);
      TsPropsDetermined(m1, m2, keys[1..], allow);
    }
  }

  lemma TsObjectDetermined(m1: Members, m2: Members, allow: seq<string>)
    requires forall k :: k in allow ==> PropText(m1, k, allow) == PropText(m2, k, allow)
    ensures TsStringify(JObj(m1), allow) == TsStringify(JObj(m2), allow)
  {
    TsPropsDetermined(m1, m2, allow, allow);
  }

  /** Where a name is found depends on the names alone, not on the values. */
  lemma {:induction false} FindKeyOnlyKeys<V>(a: seq<(string, V)>, b: seq<(string, V)>, k: string)
    requires Keys(a) == Keys(b)
    ensures FindKey(a, k) == FindKey(b, k)
  {
    if a != [] {
      assert |b| == |a| && b[0].0 == a[0].0;
      assert Keys(a[1..]) == Keys(a)[1..] && Keys(b[1..]) == Keys(b)[1..];
      FindKeyOnlyKeys(a[1..], b[1..], k);
    }
  }

  lemma {:induction false} InsertKeysOnlyKeys<V>(o: Collation, x: (string, V), a: seq<(string, V)>, y: (string, V), b: seq<(string, V)>)
    requires SortedByKey(o, a) && SortedByKey(o, b) && x.0 == y.0 && Keys(a) == Keys(b)
    ensures Keys(InsertByKey(o, x, a)) == Keys(InsertByKey(o, y, b))
  {
    if a != [] {
      assert |b| == |a| && b[0].0 == a[0].0;
      if Less(o, a[0].0, x.0) {
        assert Keys(a[1..]) == Keys(a)[1..] && Keys(b[1..]) == Keys(b)[1..];
        InsertKeysOnlyKeys(o, x, a[1..], y, b[1..]);
        KeysCons(a[0], InsertByKey(o, x, a[1..]));
        KeysCons(b[0], InsertByKey(o, y, b[1..]));
      } else {
        KeysCons(x, a);
        KeysCons(y, b);
      }
    }
  }

  lemma KeysCons<V>(x: (string, V), m: seq<(string, V)>)
    ensures Keys([x] + m) == [x.0] + Keys(m)
  {
  }

  /** The sorted order of the property names depends on the names alone. */
  lemma {:induction false} SortKeysOnlyKeys<V>(o: Collation, a: seq<(string, V)>, b: seq<(string, V)>)
    requires Keys(a) == Keys(b)
    ensures Keys(SortByKey(o, a)) == Keys(SortByKey(o, b))
  {
    if a != [] {
      assert |b| == |a| && b[0].0 == a[0].0;
      assert Keys(a[1..]) == Keys(a)[1..] && Keys(b[1..]) == Keys(b)[1..];
      SortKeysOnlyKeys(o, a[1..], b[1..]);
      InsertKeysOnlyKeys(o, a[0], SortByKey(o, a[1..]), b[0], SortByKey(o, b[1..]));
    }
  }

  /** Objects with the same names, whose values are written alike, are written alike. */
  lemma TsSameTextsSameObject(d1: Members, d2: Members, allow: seq<string>)
    requires Keys(d1) == Keys(d2)
    requires forall i :: 0 <= i < |d1| ==> TsStringify(d1[i].1, allow) == TsStringify(d2[i].1, allow)
    ensures TsStringify(JObj(d1), allow) == TsStringify(JObj(d2), allow)
  {
    forall k | k in allow ensures PropText(d1, k, allow) == PropText(d2, k, allow) {
      FindKeyOnlyKeys(d1, d2, k);
    }
    TsObjectDetermined(d1, d2, allow);
  }

  /** `Object.keys(o).sort()`. */
  function SortedKeys(m: Members): seq<string> {
    Keys(SortByKey(CodeUnits, m))
  }

  lemma SortedKeysMembership(m: Members, k: string)
    ensures k in SortedKeys(m) <==> exists i :: 0 <= i < |m| && m[i].0 == k
  {
    var r := SortByKey(CodeUnits, m);
    if k in SortedKeys(m) {
      var j :| 0 <= j < |r| && r[j].0 == k;
      assert r[j] in multiset(m);
    }
    if i :| 0 <= i < |m| && m[i].0 == k {
      assert m[i] in multiset(r);
    }
  }

  /** `JSON.stringify(o, Object.keys(o).sort())`: the canonical text the TypeScript SDK signs. */
  function TsCanon(m: Members): string {
    TsStringify(JObj(m), SortedKeys(m))
  }

  /** Replacing the object value of one property changes nothing in the canonical text when the
      two objects agree on the names of the property list. */
  lemma TsCanonNestedFiltered(prefix: Members, name: string, md1: Members, md2: Members)
    requires forall k :: k in SortedKeys(prefix + [(name, JObj(md1))]) ==>
               PropText(md1, k, SortedKeys(prefix + [(name, JObj(md1))]))
               == PropText(md2, k, SortedKeys(prefix + [(name, JObj(md1))]))
    ensures TsCanon(prefix + [(name, JObj(md1))]) == TsCanon(prefix + [(name, JObj(md2))])
  {
    var d1, d2 := prefix + [(name, JObj(md1))], prefix + [(name, JObj(md2))];
    var allow := SortedKeys(d1);
    assert SortedKeys(d2) == allow by {
      assert Keys(d1) == Keys(d2);
      SortKeysOnlyKeys(CodeUnits, d1, d2);
    }
    TsObjectDetermined(md1, md2, allow);
    forall i | 0 <= i < |d1| ensures TsStringify(d1[i].1, allow) == TsStringify(d2[i].1, allow) {
      if i < |prefix| {
        assert d1[i] == d2[i];
      }
    }
    TsSameTextsSameObject(d1, d2, allow);
  }

  /** The TypeScript canonical text does not depend on the order the properties were created in. */
  lemma TsCanonOrderIndependent(m1: Members, m2: Members)
    requires DistinctKeys(m1) && DistinctKeys(m2)
    requires multiset(m1) == multiset(m2)
    ensures TsCanon(m1) == TsCanon(m2)
  {
    SortCanonical(CodeUnits, m1, m2);
    var allow := SortedKeys(m1);
    forall k | k in allow ensures PropText(m1, k, allow) == PropText(m2, k, allow) {
      SortedKeysMembership(m1, k);
      PermutedPropText(m1, m2, k, allow);
    }
    TsObjectDetermined(m1, m2, allow);
  }

  /** Two orderings of the same distinct-keyed members write the same text for a name present. */
  lemma PermutedPropText(m1: Members, m2: Members, k: string, allow: seq<string>)
    requires DistinctKeys(m1) && DistinctKeys(m2) && multiset(m1) == multiset(m2)
    requires exists i :: 0 <= i < |m1| && m1[i].0 == k
    ensures PropText(m1, k, allow) == PropText(m2, k, allow)
  {
    var i :| 0 <= i < |m1| && m1[i].0 == k;
    var v := m1[i].1;
    assert (k, v) in m1;
    LookupDistinct(m1, k, v);
    assert (k, v) in multiset(m2);
    LookupDistinct(m2, k, v);
  }

  // ---------------------------------------------------------------------------------------
  // json.dumps(value, sort_keys=True)

  /** `json.dumps(v, sort_keys=True)` with the default separators `", "` and `": "`:
      objects at every depth have their keys sorted, and every key is kept. */
  function PyDumps(v: Json): string
    decreases v, 1
  {
    match v
    case JNull => "null"
    case JBool(b) => if b then "true" else "false"
    case JNum(n) => IntText(n)
    case JStr(s) => PyQuote(s)
    case JArr(items) => "[" + Join(", ", seq(|items|, i requires 0 <= i < |items| => PyDumps(items[i]))) + "]"
    case JObj(m) =>
      assert forall p :: p in SortByKey(CodePoints, m) ==> p in m by {
        forall p | p in SortByKey(CodePoints, m) ensures p in m { assert p in multiset(SortByKey(CodePoints, m)); }
      }
      "{" + Join(", ", PyMembers(v, SortByKey(CodePoints, m))) + "}"
  }

  function PyMembers(ghost v: Json, ms: Members): seq<string>
    requires v.JObj? && forall p :: p in ms ==> p in v.members
    decreases v, 0, |ms|
  {
    if ms == [] then []
    else
      assert ms[0] in v.members;
      [PyQuote(ms[0].0) + ": " + PyDumps(ms[0].1)] + PyMembers(v, ms[1..])
  }

  /** The Python canonical text does not depend on the order the keys were inserted in. */
  lemma PyDumpsOrderIndependent(m1: Members, m2: Members)
    requires DistinctKeys(m1) && DistinctKeys(m2)
    requires multiset(m1) == multiset(m2)
    ensures PyDumps(JObj(m1)) == PyDumps(JObj(m2))
  {
    var r := SortByKey(CodePoints, m1);
    SortCanonical(CodePoints, m1, m2);
    SortedMembers(CodePoints, m1);
    SortedMembers(CodePoints, m2);
    PyMembersAgree(JObj(m1), JObj(m2), r);
  }

  lemma SortedMembers<V>(o: Collation, m: seq<(string, V)>)
    ensures forall p :: p in SortByKey(o, m) ==> p in m
  {
    forall p | p in SortByKey(o, m) ensures p in m {
      assert p in multiset(SortByKey(o, m));
    }
  }

  lemma {:induction false} PyMembersAgree(v1: Json, v2: Json, ms: Members)
    requires v1.JObj? && v2.JObj?
    requires forall p :: p in ms ==> p in v1.members && p in v2.members
    ensures PyMembers(v1, ms) == PyMembers(v2, ms)
  {
    if ms != [] { PyMembersAgree(v1, v2, ms[1..]); }
  }
}
