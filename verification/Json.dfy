/**
 JSON values as the services hold them, Python's text and truth of a value, and the compact
 key-sorted JSON text (`json.dumps(…, ensure_ascii=False, sort_keys=True, separators=(",", ":"))`),
 which is proved to determine the value.
 */
module Json {
  import opened Decimal
  import opened Text

  /** Dictionaries compare by content, so the order of insertion is not kept. */
  datatype Json =
    | Null
    | Bool(b: bool)
    | Int(n: int)
    | Str(s: string)
    | List(items: seq<Json>)
    | Obj(fields: Dict)

  type Dict = map<string, Json>

  /** `d.get(key)`. */
  function Get(d: Dict, key: string): Json {
    if key in d then d[key] else Null
  }

  /** `bool(value)`. */
  predicate Truthy(v: Json) {
    match v
    case Null => false
    case Bool(b) => b
    case Int(n) => n != 0
    case Str(s) => s != ""
    case List(items) => items != []
    case Obj(fields) => fields != map[]
  }

  /** `a or b`. */
  function Or(a: Json, b: Json): Json {
    if Truthy(a) then a else b
  }

  /** `_dict`. */
  function AsDict(v: Json): Dict {
    if v.Obj? then v.fields else map[]
  }

  /** The elements of a list; anything else has none. */
  function Items(v: Json): seq<Json> {
    if v.List? then v.items else []
  }

  function DictItems(items: seq<Json>): seq<Json> {
    if items == [] then []
    else (if items[0].Obj? then [items[0]] else []) + DictItems(items[1..])
  }

  function TextList(ids: seq<string>): Json {
    List(seq(|ids|, i requires 0 <= i < |ids| => Str(ids[i])))
  }

  // ---------------------------------------------------------------- order of strings

  predicate StrLess(a: string, b: string) {
    if a == "" then b != ""
    else if b == "" then false
    else a[0] < b[0] || (a[0] == b[0] && StrLess(a[1..], b[1..]))
  }

  lemma {:induction false} StrLessTotal(a: string, b: string)
    ensures StrLess(a, b) || StrLess(b, a) || a == b
    ensures !(StrLess(a, b) && StrLess(b, a))
    ensures !StrLess(a, a)
  {
    if a != "" {
      StrLessTotal(a[1..], if b == "" then "" else b[1..]);
      assert b != "" ==> a == [a[0]] + a[1..] && b == [b[0]] + b[1..];
    }
  }

  lemma {:induction false} StrLessTransitive(a: string, b: string, c: string)
    requires StrLess(a, b) && StrLess(b, c)
    ensures StrLess(a, c)
  {
    if a != "" && a[0] == b[0] && b[0] == c[0] {
      StrLessTransitive(a[1..], b[1..], c[1..]);
    }
  }

  predicate IsLeast(k: string, keys: set<string>) {
    k in keys && forall j :: j in keys ==> !StrLess(j, k)
  }

  lemma {:induction false} LeastExists(keys: set<string>)
    requires keys != {}
    ensures exists k :: IsLeast(k, keys)
  {
    var x :| x in keys;
    var rest := keys - {x};
    if rest == {} {
      assert keys == {x};
      StrLessTotal(x, x);
      assert IsLeast(x, keys);
    } else {
      LeastExists(rest);
      var k :| IsLeast(k, rest);
      StrLessTotal(x, k);
      StrLessTotal(x, x);
      if StrLess(x, k) {
        forall j | j in keys ensures !StrLess(j, x) {
          if StrLess(j, x) { StrLessTransitive(j, x, k); }
        }
        assert IsLeast(x, keys);
      } else {
        assert IsLeast(k, keys);
      }
    }
  }

  lemma LeastUnique(j: string, k: string, keys: set<string>)
    requires IsLeast(j, keys) && IsLeast(k, keys)
    ensures j == k
  {
    StrLessTotal(j, k);
  }

  /** `sorted(keys)`. */
  function SortedKeys(keys: set<string>): (r: seq<string>)
    ensures |r| == |keys|
    ensures forall k :: k in r <==> k in keys
  {
    if keys == {} then []
    else
      LeastExists(keys);
      assert forall j, k :: IsLeast(j, keys) && IsLeast(k, keys) ==> j == k by {
        forall j, k | IsLeast(j, keys) && IsLeast(k, keys) ensures j == k { LeastUnique(j, k, keys); }
      }
      var k :| k in keys && IsLeast(k, keys);
      [k] + SortedKeys(keys - {k})
  }

  // ---------------------------------------------------------------- the JSON text

  function Hex(d: nat): char
    requires d < 16
  {
    "0123456789abcdef"[d]
  }

  function EscapeChar(c: char): (s: string)
    ensures s != "" && s[0] != '"'
  {
    if c == '"' then "\\\""
    else if c == '\\' then "\\\\"
    else if c == '\n' then "\\n"
    else if c == '\r' then "\\r"
    else if c == '\t' then "\\t"
    else if c == '\U{8}' then "\\b"
    else if c == '\U{C}' then "\\f"
    else if c < ' ' then "\\u00" + [Hex(c as int / 16), Hex(c as int % 16)]
    else [c]
  }

  function Escape(s: string): string {
    if s == "" then "" else EscapeChar(s[0]) + Escape(s[1..])
  }

  function Quote(s: string): string {
    "\"" + Escape(s) + "\""
  }

  function Print(v: Json): (s: string)
    ensures s != "" && s[0] != ']' && s[0] != '}' && s[0] != ','
    decreases v, 1, 0
  {
    match v
    case Null => "null"
    case Bool(b) => if b then "true" else "false"
    case Int(n) => IntText(n)
    case Str(s) => Quote(s)
    case List(items) => "[" + PrintItems(v, 0)
    case Obj(fields) => "{" + PrintFields(v, SortedKeys(fields.Keys), 0)
  }

  /** The elements from the `i`-th on, and the closing bracket. */
  function PrintItems(v: Json, i: nat): (s: string)
    requires v.List? && i <= |v.items|
    ensures s != "" && (s[0] == ']' <==> i == |v.items|) && (0 < i < |v.items| ==> s[0] == ',')
    decreases v, 0, |v.items| - i
  {
    if i == |v.items| then "]"
    else (if i == 0 then "" else ",") + Print(v.items[i]) + PrintItems(v, i + 1)
  }

  /** The fields from the `i`-th key on, and the closing brace. */
  function PrintFields(v: Json, keys: seq<string>, i: nat): (s: string)
    requires v.Obj? && i <= |keys| && forall k :: k in keys ==> k in v.fields
    ensures s != "" && (s[0] == '}' <==> i == |keys|) && (0 < i < |keys| ==> s[0] == ',')
    decreases v, 0, |keys| - i
  {
    if i == |keys| then "}"
    else (if i == 0 then "" else ",") + Quote(keys[i]) + ":" + Print(v.fields[keys[i]]) + PrintFields(v, keys, i + 1)
  }

  /** `str(value)`; the repr of a container is stood in for by its JSON text. */
  function PyStr(v: Json): (s: string)
    ensures v.List? || v.Obj? ==> s != ""
  {
    match v
    case Null => "None"
    case Bool(b) => if b then "True" else "False"
    case Int(n) => IntText(n)
    case Str(s) => s
    case _ => Print(v)
  }

  /** `str(value or "").strip()`. */
  function TrimmedText(v: Json): (s: string)
    ensures Stripped(s)
  {
    Strip(PyStr(Or(v, Str(""))))
  }

  lemma Cancel(p: string, x: string, q: string, y: string)
    requires p + x == q + y && |p| == |q|
    ensures p == q && x == y
  {
    assert p == (p + x)[..|p|] && q == (q + y)[..|q|];
    assert x == (p + x)[|p|..] && y == (q + y)[|q|..];
  }

  lemma EscapeCharInjective(c: char, d: char)
    requires EscapeChar(c) <= EscapeChar(d)
    ensures c == d
  {
    var p, q := EscapeChar(c), EscapeChar(d);
    assert p[0] == q[0];
    if |p| > 1 {
      assert p[1] == q[1];
      if |p| == 6 {
        assert p[4] == q[4] && p[5] == q[5];
      }
    }
  }

  lemma EscapeCharReadable(c: char, d: char, x: string, y: string)
    requires EscapeChar(c) + x == EscapeChar(d) + y
    ensures c == d && x == y
  {
    hide EscapeChar;
    var p, q := EscapeChar(c), EscapeChar(d);
    var n := if |p| < |q| then |p| else |q|;
    assert p[..n] == (p + x)[..n] && q[..n] == (q + y)[..n];
    if |p| <= |q| {
      EscapeCharInjective(c, d);
    } else {
      EscapeCharInjective(d, c);
    }
    Cancel(p, x, q, y);
  }

  /** An escaped text ends at the first quote that is not escaped. */
  lemma {:induction false} EscapeReadable(s: string, t: string, x: string, y: string)
    requires Escape(s) + "\"" + x == Escape(t) + "\"" + y
    ensures s == t && x == y
  {
    hide EscapeChar;
    if s == "" || t == "" {
      assert (Escape(s) + "\"" + x)[0] == (Escape(t) + "\"" + y)[0];
      assert s == t;
      assert Escape(s) + "\"" == "\"" && Escape(t) + "\"" == "\"";
      Cancel("\"", x, "\"", y);
    } else {
      var c, d := s[0], t[0];
      var u, w := Escape(s[1..]) + "\"" + x, Escape(t[1..]) + "\"" + y;
      assert Escape(s) + "\"" + x == EscapeChar(c) + u;
      assert Escape(t) + "\"" + y == EscapeChar(d) + w;
      EscapeCharReadable(c, d, u, w);
      EscapeReadable(s[1..], t[1..], x, y);
      assert s == [c] + s[1..] && t == [d] + t[1..];
    }
  }

  lemma QuoteReadable(s: string, t: string, x: string, y: string)
    requires Quote(s) + x == Quote(t) + y
    ensures s == t && x == y
  {
    var u, w := Escape(s) + "\"" + x, Escape(t) + "\"" + y;
    assert Quote(s) + x == "\"" + u && Quote(t) + y == "\"" + w;
    Cancel("\"", u, "\"", w);
    EscapeReadable(s, t, x, y);
  }

  /** What may follow a value: nothing, a separator or a closing bracket. */
  ghost predicate Follows(x: string) {
    x == "" || x[0] == ',' || x[0] == ']' || x[0] == '}'
  }

  function Kind(c: char): nat {
    if c == 'n' then 0 else if c == 't' || c == 'f' then 1 else if c == '-' || IsDigit(c) then 2
    else if c == '"' then 3 else if c == '[' then 4 else 5
  }

  lemma PrintKind(v: Json)
    ensures Kind(Print(v)[0]) == match v case Null => 0 case Bool(_) => 1 case Int(_) => 2 case Str(_) => 3 case List(_) => 4 case Obj(_) => 5
  {
  }

  /** The text of a value determines the value and where it ends. */
  lemma {:induction false} PrintReadable(a: Json, b: Json, x: string, y: string)
    requires Follows(x) && Follows(y) && Print(a) + x == Print(b) + y
    ensures a == b && x == y
    decreases a, 2, 0
  {
    hide Escape, IntText, PrintItems, PrintFields, SortedKeys, Print;
    assert (Print(a) + x)[0] == Print(a)[0] && (Print(b) + y)[0] == Print(b)[0];
    PrintKind(a);
    PrintKind(b);
    match a
    case List(_) => ListReadable(a, b, x, y);
    case Obj(_) => ObjReadable(a, b, x, y);
    case _ => ScalarReadable(a, b, x, y);
  }

  lemma ScalarReadable(a: Json, b: Json, x: string, y: string)
    requires Follows(x) && Follows(y) && Print(a) + x == Print(b) + y
    requires Kind(Print(a)[0]) == Kind(Print(b)[0]) < 4
    ensures a == b && x == y
  {
    hide Escape, IntText, PrintItems, PrintFields, SortedKeys;
    PrintKind(a);
    PrintKind(b);
    match a
    case Null => Cancel(Print(a), x, Print(b), y);
    case Bool(_) =>
      assert (Print(a) + x)[0] == Print(a)[0] && (Print(b) + y)[0] == Print(b)[0];
      Cancel(Print(a), x, Print(b), y);
    case Int(m) => IntReadable(m, b.n, x, y);
    case Str(s) => QuoteReadable(s, b.s, x, y);
    case _ =>
  }

  lemma {:induction false} ListReadable(a: Json, b: Json, x: string, y: string)
    requires a.List? && b.List? && Print(a) + x == Print(b) + y
    ensures a == b && x == y
    decreases a, 0, |a.items| + 1
  {
    hide PrintItems;
    assert Print(a) + x == "[" + (PrintItems(a, 0) + x) && Print(b) + y == "[" + (PrintItems(b, 0) + y);
    Cancel("[", PrintItems(a, 0) + x, "[", PrintItems(b, 0) + y);
    ItemsReadable(a, b, 0, x, y);
  }

  lemma {:induction false} ObjReadable(a: Json, b: Json, x: string, y: string)
    requires a.Obj? && b.Obj? && Print(a) + x == Print(b) + y
    ensures a == b && x == y
    decreases a, 1, 0
  {
    hide PrintFields;
    var ks, kt := SortedKeys(a.fields.Keys), SortedKeys(b.fields.Keys);
    ObjText(a, x);
    ObjText(b, y);
    hide *;
    Cancel("{", PrintFields(a, ks, 0) + x, "{", PrintFields(b, kt, 0) + y);
    FieldsReadable(a, ks, b, kt, 0, x, y);
    SameFields(a.fields, ks, b.fields, kt);
  }

  lemma ObjText(a: Json, x: string)
    requires a.Obj?
    ensures Print(a) + x == "{" + (PrintFields(a, SortedKeys(a.fields.Keys), 0) + x)
  {
    hide PrintFields, SortedKeys;
  }

  lemma SameFields(f: Dict, ks: seq<string>, g: Dict, kt: seq<string>)
    requires ks == kt
    requires forall k :: k in ks <==> k in f
    requires forall k :: k in kt <==> k in g
    requires forall j :: 0 <= j < |ks| ==> f[ks[j]] == g[kt[j]]
    ensures f == g
  {
    forall k | k in f ensures k in g && f[k] == g[k] {
      var j :| 0 <= j < |ks| && ks[j] == k;
    }
    assert f.Keys == g.Keys by {
      assert forall k :: k in f <==> k in g;
    }
  }

  lemma {:induction false} ItemsReadable(a: Json, b: Json, i: nat, x: string, y: string)
    requires a.List? && b.List? && i <= |a.items| && i <= |b.items| && a.items[..i] == b.items[..i]
    requires PrintItems(a, i) + x == PrintItems(b, i) + y
    ensures a == b && x == y
    decreases a, 0, |a.items| - i
  {
    hide Print;
    assert (PrintItems(a, i) + x)[0] == PrintItems(a, i)[0] && (PrintItems(b, i) + y)[0] == PrintItems(b, i)[0];
    if i == |a.items| {
      assert i == |b.items|;
      Cancel("]", x, "]", y);
    } else {
      var sep := if i == 0 then "" else ",";
      var u, w := PrintItems(a, i + 1) + x, PrintItems(b, i + 1) + y;
      assert PrintItems(a, i) + x == sep + (Print(a.items[i]) + u);
      assert PrintItems(b, i) + y == sep + (Print(b.items[i]) + w);
      Cancel(sep, Print(a.items[i]) + u, sep, Print(b.items[i]) + w);
      PrintReadable(a.items[i], b.items[i], u, w);
      assert a.items[..i + 1] == a.items[..i] + [a.items[i]] && b.items[..i + 1] == b.items[..i] + [b.items[i]];
      ItemsReadable(a, b, i + 1, x, y);
    }
  }

  lemma NoFields(a: Json, ks: seq<string>)
    requires a.Obj? && forall k :: k in ks ==> k in a.fields
    ensures PrintFields(a, ks, |ks|) == "}"
  {
  }

  lemma FieldText(a: Json, ks: seq<string>, i: nat, x: string)
    requires a.Obj? && i < |ks| && forall k :: k in ks ==> k in a.fields
    ensures PrintFields(a, ks, i) + x
            == (if i == 0 then "" else ",") + (Quote(ks[i]) + (":" + (Print(a.fields[ks[i]]) + (PrintFields(a, ks, i + 1) + x))))
  {
    hide Print, Quote;
  }

  lemma {:induction false} FieldsReadable(a: Json, ks: seq<string>, b: Json, kt: seq<string>, i: nat, x: string, y: string)
    requires a.Obj? && b.Obj? && i <= |ks| && i <= |kt| && ks[..i] == kt[..i]
    requires forall k :: k in ks ==> k in a.fields
    requires forall k :: k in kt ==> k in b.fields
    requires forall j :: 0 <= j < i ==> a.fields[ks[j]] == b.fields[kt[j]]
    requires PrintFields(a, ks, i) + x == PrintFields(b, kt, i) + y
    ensures ks == kt && x == y
    ensures forall j :: 0 <= j < |ks| ==> a.fields[ks[j]] == b.fields[kt[j]]
    decreases a, 0, |ks| - i
  {
    hide Print, Quote, PrintFields;
    assert (PrintFields(a, ks, i) + x)[0] == PrintFields(a, ks, i)[0] && (PrintFields(b, kt, i) + y)[0] == PrintFields(b, kt, i)[0];
    if i == |ks| {
      assert i == |kt|;
      NoFields(a, ks);
      NoFields(b, kt);
      Cancel("}", x, "}", y);
    } else {
      var sep := if i == 0 then "" else ",";
      var f, g := a.fields[ks[i]], b.fields[kt[i]];
      var u, w := PrintFields(a, ks, i + 1) + x, PrintFields(b, kt, i + 1) + y;
      FieldText(a, ks, i, x);
      FieldText(b, kt, i, y);
      Cancel(sep, Quote(ks[i]) + (":" + (Print(f) + u)), sep, Quote(kt[i]) + (":" + (Print(g) + w)));
      QuoteReadable(ks[i], kt[i], ":" + (Print(f) + u), ":" + (Print(g) + w));
      Cancel(":", Print(f) + u, ":", Print(g) + w);
      PrintReadable(f, g, u, w);
      assert ks[..i + 1] == ks[..i] + [ks[i]] && kt[..i + 1] == kt[..i] + [kt[i]];
      FieldsReadable(a, ks, b, kt, i + 1, x, y);
    }
  }

  /** The JSON text determines the value, so sorting by it leaves no ties between different values. */
  lemma PrintInjective(a: Json, b: Json)
    requires Print(a) == Print(b)
    ensures a == b
  {
    hide Print;
    assert Print(a) + "" == Print(b) + "";
    PrintReadable(a, b, "", "");
  }
}
