/**
 Merging of source documents gathered for a capability package: documents with one key become one
 document, at the place of the first, that is no less complete than any of them.
 */
module DocumentMerge {
  import Decimal
  import opened Json
  import opened KeyedMerge
  import opened Text

  // ---------------------------------------------------------------- keys

  function StripAny(s: string, chars: set<char>): string
    decreases |s|
  {
    if s != "" && s[0] in chars then StripAny(s[1..], chars)
    else if s != "" && s[|s| - 1] in chars then StripAny(s[..|s| - 1], chars)
    else s
  }

  function Slashes(s: string): string {
    seq(|s|, i requires 0 <= i < |s| => if s[i] == '\\' then '/' else s[i])
  }

  function DropSlashes(s: string): string {
    if s != "" && s[0] == '/' then DropSlashes(s[1..]) else s
  }

  /** `_normalize_source_path`: unquoted, forward slashes, no leading `./` and no outer slashes. */
  function NormalizePath(value: string): string {
    var text := Slashes(StripAny(Strip(value), {'\'', '"'}));
    var relative := if "./" <= text then DropSlashes(text[1..]) else text;
    StripAny(relative, {'/'})
  }

  const KEY_FIELDS := ["source_path", "path", "url", "title", "tool_call_id"]

  function FieldKey(field: string, text: string): string {
    if field in {"source_path", "path"} then NormalizePath(text) else text
  }

  /** The key given by the first of the fields with text in it. */
  function KeyIn(d: Dict, fields: seq<string>): string {
    if fields == [] then ""
    else if TrimmedText(Get(d, fields[0])) != "" then FieldKey(fields[0], TrimmedText(Get(d, fields[0])))
    else KeyIn(d, fields[1..])
  }

  /** `_document_dedupe_key`. */
  function KeyOf(d: Dict): string {
    KeyIn(d, KEY_FIELDS)
  }

  /** The key is the first text among five fields, normalised where it is a path; without any there is none. */
  lemma KeyExactly(d: Dict, i: nat)
    requires i <= 5
    requires forall j :: 0 <= j < i ==> TrimmedText(Get(d, ["source_path", "path", "url", "title", "tool_call_id"][j])) == ""
    ensures i == 5 ==> KeyOf(d) == ""
    ensures i < 5 ==>
              var text := TrimmedText(Get(d, ["source_path", "path", "url", "title", "tool_call_id"][i]));
              text != "" ==> KeyOf(d) == if i < 2 then NormalizePath(text) else text
  {
    var fields := ["source_path", "path", "url", "title", "tool_call_id"];
    KeyFromField(d, fields, i);
    assert KEY_FIELDS == fields;
    hide TrimmedText, NormalizePath, KeyIn;
  }

  lemma {:induction false} KeyFromField(d: Dict, fields: seq<string>, i: nat)
    requires i <= |fields| && forall j :: 0 <= j < i ==> TrimmedText(Get(d, fields[j])) == ""
    ensures i == |fields| ==> KeyIn(d, fields) == ""
    ensures i < |fields| && TrimmedText(Get(d, fields[i])) != "" ==> KeyIn(d, fields) == FieldKey(fields[i], TrimmedText(Get(d, fields[i])))
  {
    hide TrimmedText, Get, FieldKey;
    if i > 0 {
      assert TrimmedText(Get(d, fields[0])) == "";
      forall j | 0 <= j < i - 1 ensures TrimmedText(Get(d, fields[1..][j])) == "" {
        assert fields[1..][j] == fields[j + 1];
      }
      KeyFromField(d, fields[1..], i - 1);
    }
  }

  /** No outer character is one of these. */
  ghost predicate OuterFree(s: string, chars: set<char>) {
    s == "" || (s[0] !in chars && s[|s| - 1] !in chars)
  }

  lemma {:induction false} StripAnyShape(s: string, chars: set<char>)
    ensures OuterFree(StripAny(s, chars), chars)
    ensures OuterFree(s, chars) ==> StripAny(s, chars) == s
    decreases |s|
  {
    if s != "" && s[0] in chars {
      StripAnyShape(s[1..], chars);
    } else if s != "" && s[|s| - 1] in chars {
      StripAnyShape(s[..|s| - 1], chars);
    }
  }

  lemma {:induction false} StripAnyPart(s: string, chars: set<char>) returns (i: nat, j: nat)
    ensures i <= j <= |s| && StripAny(s, chars) == s[i..j]
    decreases |s|
  {
    if s != "" && s[0] in chars {
      i, j := StripAnyPart(s[1..], chars);
      i, j := i + 1, j + 1;
    } else if s != "" && s[|s| - 1] in chars {
      i, j := StripAnyPart(s[..|s| - 1], chars);
    } else {
      i, j := 0, |s|;
    }
  }

  lemma {:induction false} DropSlashesSuffix(s: string)
    ensures exists i :: 0 <= i <= |s| && DropSlashes(s) == s[i..]
    ensures s == "" || s[0] != '/' ==> DropSlashes(s) == s
  {
    if s != "" && s[0] == '/' {
      DropSlashesSuffix(s[1..]);
      var i :| 0 <= i <= |s[1..]| && DropSlashes(s) == s[1..][i..];
      assert s[1..][i..] == s[i + 1..];
    } else {
      assert s[0..] == s;
    }
  }

  /** A normalised path has no backslash and no outer slash. */
  lemma PathShape(value: string)
    ensures var path := NormalizePath(value); '\\' !in path && OuterFree(path, {'/'})
  {
    var text := Slashes(StripAny(Strip(value), {'\'', '"'}));
    SlashesOnly(StripAny(Strip(value), {'\'', '"'}));
    hide Strip, Slashes, StripAny, DropSlashes;
    var relative := if "./" <= text then DropSlashes(text[1..]) else text;
    RelativeClean(text);
    StripClean(relative);
  }

  lemma SlashesOnly(s: string)
    ensures '\\' !in Slashes(s)
  {
  }

  lemma RelativeClean(text: string)
    requires '\\' !in text
    ensures "./" <= text ==> '\\' !in DropSlashes(text[1..])
  {
    hide DropSlashes;
    if "./" <= text {
      DropSlashesSuffix(text[1..]);
      var i :| 0 <= i <= |text[1..]| && DropSlashes(text[1..]) == text[1..][i..];
    }
  }

  lemma StripClean(s: string)
    requires '\\' !in s
    ensures '\\' !in StripAny(s, {'/'}) && OuterFree(StripAny(s, {'/'}), {'/'})
  {
    hide StripAny;
    StripAnyShape(s, {'/'});
    var i, j := StripAnyPart(s, {'/'});
  }

  /** A path in normal form. */
  ghost predicate PlainPath(p: string) {
    && p != "" && p != "." && '\\' !in p && !("./" <= p)
    && !IsSpace(p[0]) && !IsSpace(p[|p| - 1])
    && OuterFree(p, {'/', '\'', '"'})
  }

  /** It is the normal form of itself, and of itself in quotes, behind `./` or a slash, or before one. */
  lemma PlainPathKept(p: string)
    requires PlainPath(p)
    ensures NormalizePath(p) == p && NormalizePath("./" + p) == p && NormalizePath("/" + p) == p
    ensures NormalizePath(p + "/") == p && NormalizePath("\"" + p + "\"") == p
  {
    OwnPath(p);
    DottedPath(p);
    SlashedPath(p);
    QuotedPath(p);
    hide NormalizePath;
  }

  /** How a text without quotes and backslashes is normalised. */
  lemma UnquotedPath(value: string)
    requires Stripped(value) && OuterFree(value, {'\'', '"'}) && '\\' !in value
    ensures NormalizePath(value) == StripAny(if "./" <= value then DropSlashes(value[1..]) else value, {'/'})
  {
    StripFixpoint(value);
    StripAnyShape(value, {'\'', '"'});
    SlashesKept(value);
    hide Strip, Slashes, DropSlashes, StripAny;
  }

  lemma DottedPath(p: string)
    requires PlainPath(p)
    ensures NormalizePath("./" + p) == p
  {
    UnquotedPath("./" + p);
    hide NormalizePath, StripAny, DropSlashes;
    StripAnyShape(p, {'/'});
    assert ("./" + p)[1..] == "/" + p;
    Dropped(p);
  }

  lemma OwnPath(p: string)
    requires PlainPath(p)
    ensures NormalizePath(p) == p
  {
    UnquotedPath(p);
    hide NormalizePath, StripAny;
    StripAnyShape(p, {'/'});
  }

  lemma SlashedPath(p: string)
    requires PlainPath(p)
    ensures NormalizePath("/" + p) == p && NormalizePath(p + "/") == p
  {
    UnquotedPath("/" + p);
    UnquotedPath(p + "/");
    Outer(p, '/', {'/'});
    NotDotted(p);
    assert !("./" <= "/" + p) by { assert ("/" + p)[0] == '/'; }
    hide NormalizePath, StripAny, DropSlashes;
  }

  lemma QuotedPath(p: string)
    requires PlainPath(p)
    ensures NormalizePath("\"" + p + "\"") == p
  {
    StripFixpoint("\"" + p + "\"");
    Quoted(p);
    SlashesKept(p);
    StripAnyShape(p, {'/'});
    hide Strip, Slashes, DropSlashes, StripAny;
  }

  lemma NotDotted(p: string)
    requires p != "" && p != "." && !("./" <= p)
    ensures !("./" <= p + "/")
  {
    assert (p + "/")[0] == p[0];
    assert |p| > 1 ==> (p + "/")[1] == p[1] && (p[0] == '.' && p[1] == '/' <==> "./" <= p);
  }

  lemma SlashesKept(s: string)
    requires '\\' !in s
    ensures Slashes(s) == s
  {
    assert forall i :: 0 <= i < |s| ==> s[i] in s;
  }

  lemma Dropped(p: string)
    requires p != "" && p[0] != '/'
    ensures DropSlashes("/" + p) == p
  {
    assert ("/" + p)[1..] == p;
  }

  lemma Outer(p: string, c: char, chars: set<char>)
    requires p != "" && OuterFree(p, chars) && c in chars
    ensures StripAny([c] + p, chars) == p && StripAny(p + [c], chars) == p
  {
    assert ([c] + p)[1..] == p && (p + [c])[..|p|] == p;
    StripAnyShape(p, chars);
  }

  lemma Quoted(p: string)
    requires p != "" && OuterFree(p, {'\'', '"'})
    ensures StripAny("\"" + p + "\"", {'\'', '"'}) == p
  {
    assert ("\"" + p + "\"")[1..] == p + "\"";
    Outer(p, '"', {'\'', '"'});
  }

  // ---------------------------------------------------------------- merging two documents

  /** `_document_merge_value_present`. */
  predicate Present(v: Json) {
    match v
    case Null => false
    case Str(s) => Strip(s) != ""
    case List(items) => items != []
    case Obj(fields) => fields != map[]
    case _ => true
  }

  function Content(d: Dict): string {
    TrimmedText(Get(d, "content"))
  }

  /** `_document_has_complete_content`. */
  predicate Complete(d: Dict) {
    Get(d, "content_complete") != Bool(false) && Content(d) != ""
  }

  function Overlay(base: Dict, preferred: Dict): Dict {
    map k | k in base.Keys + preferred.Keys && (k in base || Present(preferred[k]))
      :: if k in preferred && Present(preferred[k]) then preferred[k] else base[k]
  }

  /** The texts among a list's elements. */
  function Texts(items: seq<Json>): set<string> {
    if items == [] then {} else {Strip(PyStr(items[0]))} - {""} + Texts(items[1..])
  }

  function Identities(d: Dict): set<string> {
    Texts(Items(Get(d, "path_identities")))
  }

  function RefKey(v: Json): (string, string, string) {
    var d := AsDict(v);
    (PyStr(Or(Get(d, "agent_run_id"), Str(""))), PyStr(Or(Get(d, "seq"), Str(""))), PyStr(Or(Get(d, "type"), Str(""))))
  }

  /** Two event references are the same if they have the same run, sequence number and type. */
  lemma SameReference(d: Dict, e: Dict)
    requires Get(d, "agent_run_id").Str? && Get(d, "type").Str? && Get(d, "seq").Int? && Get(d, "seq") != Int(0)
    requires Get(e, "agent_run_id").Str? && Get(e, "type").Str? && Get(e, "seq").Int? && Get(e, "seq") != Int(0)
    ensures RefKey(Obj(d)) == RefKey(Obj(e)) <==>
              Get(d, "agent_run_id") == Get(e, "agent_run_id") && Get(d, "seq") == Get(e, "seq") && Get(d, "type") == Get(e, "type")
  {
    var m, n := Get(d, "seq").n, Get(e, "seq").n;
    if PyStr(Int(m)) == PyStr(Int(n)) {
      IntSame(m, n);
    }
    hide Print;
  }

  lemma IntSame(m: int, n: int)
    requires PyStr(Int(m)) == PyStr(Int(n))
    ensures m == n
  {
    Decimal.IntRoundTrip(m);
    Decimal.IntRoundTrip(n);
  }

  /** `_dedupe_raw_event_refs`. */
  function DedupeRefs(refs: seq<Json>): seq<Json> {
    if refs == [] then []
    else
      var n := |refs| - 1;
      var rest := DedupeRefs(refs[..n]);
      if exists r :: r in rest && RefKey(r) == RefKey(refs[n]) then rest else rest + [refs[n]]
  }

  function Refs(d: Dict): seq<Json> {
    DictItems(Items(Get(d, "raw_event_refs")))
  }

  function WithIdentities(d: Dict, ids: set<string>): Dict {
    if ids == {} then d else d["path_identities" := TextList(SortedKeys(ids))]
  }

  function WithRefs(d: Dict, refs: seq<Json>): Dict {
    if refs == [] then d else d["raw_event_refs" := List(DedupeRefs(refs))]
  }

  function WithMeasures(hash: string -> string, d: Dict): Dict {
    var content := Content(d);
    if content == "" then d
    else
      var measured := d["content_chars" := Int(|content|)];
      if TrimmedText(Get(measured, "content_hash")) != "" then measured
      else measured["content_hash" := Str(hash(content))]
  }

  /** `_merge_source_documents`. */
  function Merge(hash: string -> string, base: Dict, preferred: Dict): Dict {
    WithMeasures(hash,
      WithRefs(
        WithIdentities(Overlay(base, preferred), Identities(base) + Identities(preferred)),
        Refs(base) + Refs(preferred)))
  }

  /** `_document_content_chars`; `count` is what reading a textual count yields. */
  function ContentChars(count: Json -> int, d: Dict): int {
    var raw := Get(d, "content_chars");
    if Content(d) != "" then |Content(d)|
    else if raw.Int? then raw.n
    else if raw.Bool? then (if raw.b then 1 else 0)
    else count(raw)
  }

  datatype Readers = Readers(hash: string -> string, count: Json -> int)

  /** Which of two documents is laid over which: the base and the preferred one. */
  function Layers(r: Readers, existing: Dict, incoming: Dict): (Dict, Dict) {
    if Complete(incoming) && !Complete(existing) then (existing, incoming)
    else if Complete(existing) && !Complete(incoming) then (incoming, existing)
    else if ContentChars(r.count, incoming) >= ContentChars(r.count, existing) then (existing, incoming)
    else (incoming, existing)
  }

  /** `_preferred_document`. */
  function Preferred(r: Readers, existing: Dict, incoming: Dict): Dict {
    var (base, preferred) := Layers(r, existing, incoming);
    Merge(r.hash, base, preferred)
  }

  // ---------------------------------------------------------------- merging many

  function DocumentRule(r: Readers): Rule<Dict> {
    Rule(d => KeyOf(d), (a, b) => Preferred(r, a, b))
  }

  function Dicts(values: seq<Json>): seq<Dict> {
    if values == [] then []
    else
      var n := |values| - 1;
      Dicts(values[..n]) + (if values[n].Obj? then [values[n].fields] else [])
  }

  /** `_dedupe_documents`. */
  method DedupeDocuments(r: Readers, values: seq<Json>) returns (result: seq<Dict>)
    ensures result == Deduped(DocumentRule(r), Dicts(values))
  {
    hide KeyOf, Preferred, Deduped, Heads;
    ghost var rule := DocumentRule(r);
    ghost var docs: seq<Dict> := [];
    var indexes: map<string, nat> := map[];
    result := [];
    EmptyDeduped(rule);
    for i := 0 to |values|
      invariant docs == Dicts(values[..i])
      invariant result == Deduped(rule, docs)
      invariant Indexes(rule, docs, indexes)
    {
      assert values[..i + 1][..i] == values[..i];
      if values[i].Obj? {
        var item := values[i].fields;
        var key := KeyOf(item);
        IndexesAppend(rule, docs, item, indexes);
        DedupedLength(rule, docs);
        if key == "" {
          DedupedNew(rule, docs, item);
          result := result + [item];
        } else if key !in indexes {
          DedupedNew(rule, docs, item);
          indexes := indexes[key := |result|];
          result := result + [item];
        } else {
          DedupedKnown(rule, docs, item, indexes[key]);
          result := result[indexes[key] := Preferred(r, result[indexes[key]], item)];
        }
        docs := docs + [item];
      }
    }
    assert values[..|values|] == values;
  }

  lemma EmptyDeduped(rule: Rule<Dict>)
    ensures Deduped(rule, []) == [] && Indexes(rule, [], map[])
  {
  }

  lemma DedupedLength(rule: Rule<Dict>, docs: seq<Dict>)
    ensures |Deduped(rule, docs)| == |Heads(rule, docs)|
  {
  }

  /** `keyed_indexes` leads every key seen so far to the entry of that key. */
  ghost predicate Indexes(rule: Rule<Dict>, docs: seq<Dict>, indexes: map<string, nat>) {
    && (forall k :: k in indexes ==> k != "" && indexes[k] < |Heads(rule, docs)| && rule.key(docs[Heads(rule, docs)[indexes[k]]]) == k)
    && forall i :: 0 <= i < |docs| && rule.key(docs[i]) != "" ==> rule.key(docs[i]) in indexes
  }

  lemma IndexesAppend(rule: Rule<Dict>, docs: seq<Dict>, d: Dict, indexes: map<string, nat>)
    requires Indexes(rule, docs, indexes)
    ensures var k := rule.key(d);
            && (k == "" || k in indexes ==> Indexes(rule, docs + [d], indexes))
            && (k != "" && k !in indexes ==> !HasKey(rule, docs, k) && Indexes(rule, docs + [d], indexes[k := |Heads(rule, docs)|]))
  {
    HeadsAppend(rule, docs, d);
    var hs, all := Heads(rule, docs), docs + [d];
    assert forall j :: 0 <= j < |hs| ==> all[hs[j]] == docs[hs[j]];
    hide Heads;
  }

  // ---------------------------------------------------------------- what a merge keeps

  /** The fields a merge computes. */
  const COMPUTED: set<string> := {"path_identities", "raw_event_refs", "content_chars", "content_hash"}

  lemma OverlayFields(base: Dict, preferred: Dict, k: string)
    ensures Get(Overlay(base, preferred), k) == if Present(Get(preferred, k)) then Get(preferred, k) else Get(base, k)
  {
    hide Present;
    AbsentNull();
  }

  lemma ComputedOnly(hash: string -> string, d: Dict, ids: set<string>, refs: seq<Json>, k: string)
    requires k !in COMPUTED
    ensures Get(WithIdentities(d, ids), k) == Get(d, k)
    ensures Get(WithRefs(d, refs), k) == Get(d, k)
    ensures Get(WithMeasures(hash, d), k) == Get(d, k)
  {
    hide Content, TrimmedText, SortedKeys, DedupeRefs, TextList;
  }

  /** Any other field is the preferred document's where it has a value, else the base's. */
  lemma MergeFields(hash: string -> string, base: Dict, preferred: Dict, k: string)
    requires k !in COMPUTED
    ensures Get(Merge(hash, base, preferred), k) == if Present(Get(preferred, k)) then Get(preferred, k) else Get(base, k)
  {
    hide Present, Identities, Refs, Overlay, WithIdentities, WithRefs, WithMeasures, COMPUTED;
    var ids, refs := Identities(base) + Identities(preferred), Refs(base) + Refs(preferred);
    var first := Overlay(base, preferred);
    OverlayFields(base, preferred, k);
    ComputedOnly(hash, first, ids, refs, k);
    ComputedOnly(hash, WithIdentities(first, ids), ids, refs, k);
    ComputedOnly(hash, WithRefs(WithIdentities(first, ids), refs), ids, refs, k);
  }

  /** The value a merge takes over: the preferred document's where it has one, else the base's. */
  function Taken(base: Dict, preferred: Dict, k: string): Json {
    if Present(Get(preferred, k)) then Get(preferred, k) else Get(base, k)
  }

  /** A merge with content counts its characters and keeps the content's hash, or computes it where there is none. */
  lemma MergeMeasured(hash: string -> string, base: Dict, preferred: Dict)
    ensures var m := Merge(hash, base, preferred);
            var content := TrimmedText(Taken(base, preferred, "content"));
            && (content == "" ==>
                  && Get(m, "content_chars") == Taken(base, preferred, "content_chars")
                  && Get(m, "content_hash") == Taken(base, preferred, "content_hash"))
            && (content != "" ==>
                  && Get(m, "content_chars") == Int(|content|)
                  && var kept := Taken(base, preferred, "content_hash");
                     Get(m, "content_hash") == if TrimmedText(kept) != "" then kept else Str(hash(content)))
  {
    var ids, refs := Identities(base) + Identities(preferred), Refs(base) + Refs(preferred);
    var first := Overlay(base, preferred);
    var second := WithRefs(WithIdentities(first, ids), refs);
    hide Present, Identities, Refs, Overlay, TrimmedText, WithRefs, WithIdentities;
    forall k | k in {"content", "content_chars", "content_hash"} ensures Get(second, k) == Taken(base, preferred, k) {
      OverlayFields(base, preferred, k);
      MeasuresApart(first, ids, refs, k);
    }
  }

  lemma MeasuresApart(d: Dict, ids: set<string>, refs: seq<Json>, k: string)
    requires k != "path_identities" && k != "raw_event_refs"
    ensures Get(WithRefs(WithIdentities(d, ids), refs), k) == Get(d, k)
  {
    hide SortedKeys, DedupeRefs, TextList;
  }

  /**
   Of two documents the later is laid over the earlier if only it is complete, or if neither or both are
   and it is no shorter; else the earlier is laid over the later. Other fields are taken over so.
   */
  lemma PreferredFields(r: Readers, existing: Dict, incoming: Dict, k: string)
    requires k !in COMPUTED
    ensures var done := Get(existing, "content_complete") != Bool(false) && TrimmedText(Get(existing, "content")) != "";
            var ready := Get(incoming, "content_complete") != Bool(false) && TrimmedText(Get(incoming, "content")) != "";
            var laidOver := (ready && !done) || (ready == done && ContentChars(r.count, incoming) >= ContentChars(r.count, existing));
            Get(Preferred(r, existing, incoming), k) == if laidOver then Taken(existing, incoming, k) else Taken(incoming, existing, k)
  {
    hide Merge, TrimmedText, ContentChars, Present;
    MergeFields(r.hash, existing, incoming, k);
    MergeFields(r.hash, incoming, existing, k);
  }

  /** The length of a document is that of its content, or else the number stated for it. */
  lemma LengthExactly(r: Readers, d: Dict)
    ensures var content, stated := TrimmedText(Get(d, "content")), Get(d, "content_chars");
            && (content != "" ==> ContentChars(r.count, d) == |content|)
            && (content == "" && stated.Int? ==> ContentChars(r.count, d) == stated.n)
            && (content == "" && stated == Bool(true) ==> ContentChars(r.count, d) == 1)
            && (content == "" && stated == Bool(false) ==> ContentChars(r.count, d) == 0)
            && (content == "" && !stated.Int? && !stated.Bool? ==> ContentChars(r.count, d) == r.count(stated))
  {
    hide TrimmedText;
  }

  lemma AbsentNull()
    ensures !Present(Null)
  {
  }

  lemma KeyFieldsKept()
    ensures forall f :: f in KEY_FIELDS ==> f !in COMPUTED
    ensures "content" !in COMPUTED && "content_complete" !in COMPUTED
  {
  }

  lemma StripsToText(s: string)
    requires s != "" && !IsSpace(s[0])
    ensures Strip(s) != ""
  {
    StartKept(s);
  }

  lemma {:induction false} StartKept(s: string)
    requires s != "" && !IsSpace(s[0])
    ensures StripRight(s) != ""
  {
    if IsSpace(s[|s| - 1]) {
      StartKept(s[..|s| - 1]);
    }
  }

  /** A value is taken over exactly when it has text, but for zero and false, which have none. */
  lemma PresentText(v: Json)
    ensures Present(v) <==> TrimmedText(v) != "" || v == Int(0) || v == Bool(false)
  {
    hide Strip, StripLeft, StripRight;
    BlankStripped();
    match v
    case Int(n) => if n != 0 { StartsSolid(v); }
    case Bool(b) => if b { StripsToText("True"); }
    case List(items) => if items != [] { StartsSolid(v); }
    case Obj(fields) => if fields != map[] { StartsSolid(v); }
    case _ =>
  }

  lemma BlankStripped()
    ensures Strip("") == ""
  {
  }

  lemma StartsSolid(v: Json)
    requires v.Int? || v.List? || v.Obj?
    ensures Strip(PyStr(v)) != ""
  {
    hide Strip, PrintItems, PrintFields, SortedKeys;
    StripsToText(PyStr(v));
  }

  /** No key field is the number zero or the value false. */
  predicate PlainKeys(d: Dict) {
    forall f :: f in KEY_FIELDS ==> Get(d, f) != Int(0) && Get(d, f) != Bool(false)
  }

  predicate HasText(d: Dict, field: string) {
    TrimmedText(Get(d, field)) != ""
  }

  /** A preferred value without text that is taken over all the same. */
  predicate Zero(d: Dict, field: string) {
    Get(d, field) == Int(0) || Get(d, field) == Bool(false)
  }

  /**
   Before the first field the preferred document has text in, a field of the base shows through that
   gives another key: the first one with text that no zero covers.
   */
  predicate Overridden(base: Dict, preferred: Dict, fields: seq<string>, key: string) {
    if fields == [] || HasText(preferred, fields[0]) then false
    else if !HasText(base, fields[0]) || Zero(preferred, fields[0]) then Overridden(base, preferred, fields[1..], key)
    else FieldKey(fields[0], TrimmedText(Get(base, fields[0]))) != key
  }

  /** What a merge leaves in each of the key fields. */
  ghost predicate MergedTexts(base: Dict, preferred: Dict, m: Dict, fields: seq<string>) {
    forall f :: f in fields ==>
      TrimmedText(Get(m, f)) == if HasText(preferred, f) || Zero(preferred, f) then TrimmedText(Get(preferred, f)) else TrimmedText(Get(base, f))
  }

  lemma ZeroHasNoText()
    ensures TrimmedText(Int(0)) == "" && TrimmedText(Bool(false)) == ""
  {
  }

  lemma {:induction false} KeyInMerged(base: Dict, preferred: Dict, m: Dict, fields: seq<string>, key: string)
    requires MergedTexts(base, preferred, m, fields)
    requires key != "" && KeyIn(preferred, fields) == key
    ensures KeyIn(m, fields) == key <==> !Overridden(base, preferred, fields, key)
  {
    ZeroHasNoText();
    hide TrimmedText, FieldKey;
    if fields != [] {
      assert fields[0] in fields;
      if !HasText(preferred, fields[0]) {
        assert forall f :: f in fields[1..] ==> f in fields;
        KeyInMerged(base, preferred, m, fields[1..], key);
      }
    }
  }

  lemma MergeTexts(hash: string -> string, base: Dict, preferred: Dict)
    ensures MergedTexts(base, preferred, Merge(hash, base, preferred), KEY_FIELDS)
    ensures forall f :: f in KEY_FIELDS ==> Get(Merge(hash, base, preferred), f) in {Get(preferred, f), Get(base, f)}
  {
    hide Merge, TrimmedText, Present, KEY_FIELDS, COMPUTED;
    KeyFieldsKept();
    var m := Merge(hash, base, preferred);
    forall f | f in KEY_FIELDS
      ensures TrimmedText(Get(m, f)) == if HasText(preferred, f) || Zero(preferred, f) then TrimmedText(Get(preferred, f)) else TrimmedText(Get(base, f))
      ensures Get(m, f) in {Get(preferred, f), Get(base, f)}
    {
      MergeFields(hash, base, preferred, f);
      PresentText(Get(preferred, f));
    }
  }

  /** Merging two documents of one key yields a document of that key exactly when no base field shows through before. */
  lemma MergeKeyExactly(hash: string -> string, base: Dict, preferred: Dict)
    requires KeyOf(base) == KeyOf(preferred) != ""
    ensures KeyOf(Merge(hash, base, preferred)) == KeyOf(base) <==> !Overridden(base, preferred, KEY_FIELDS, KeyOf(base))
  {
    hide Merge, TrimmedText, MergedTexts, KEY_FIELDS;
    MergeTexts(hash, base, preferred);
    KeyInMerged(base, preferred, Merge(hash, base, preferred), KEY_FIELDS, KeyOf(base));
  }

  lemma {:induction false} PlainNotOverridden(base: Dict, preferred: Dict, fields: seq<string>, key: string)
    requires KeyIn(base, fields) == key
    requires forall f :: f in fields ==> !Zero(preferred, f)
    ensures !Overridden(base, preferred, fields, key)
  {
    hide TrimmedText, FieldKey, Zero;
    if fields != [] {
      assert fields[0] in fields;
      if !HasText(base, fields[0]) {
        assert forall f :: f in fields[1..] ==> f in fields;
        PlainNotOverridden(base, preferred, fields[1..], key);
      }
    }
  }

  /** In particular when no key field is a zero. */
  lemma MergeKeepsKey(hash: string -> string, base: Dict, preferred: Dict)
    requires PlainKeys(base) && PlainKeys(preferred) && KeyOf(base) == KeyOf(preferred) != ""
    ensures PlainKeys(Merge(hash, base, preferred)) && KeyOf(Merge(hash, base, preferred)) == KeyOf(base)
  {
    hide Merge, MergedTexts, KEY_FIELDS;
    MergeTexts(hash, base, preferred);
    PlainNotOverridden(base, preferred, KEY_FIELDS, KeyOf(base));
    MergeKeyExactly(hash, base, preferred);
  }

  lemma LetterKeys(c: char)
    requires 'a' <= c <= 'z'
    ensures TrimmedText(Str([c])) == [c] && forall f :: FieldKey(f, [c]) == [c]
  {
    StripFixpoint([c]);
  }

  lemma ZeroHidesKey(hash: string -> string, base: Dict, preferred: Dict)
    requires Get(base, "source_path") == Str("a") && Get(base, "path") == Str("b")
    requires Get(preferred, "source_path") == Int(0) && Get(preferred, "path") == Null && Get(preferred, "url") == Str("a")
    ensures KeyOf(base) == KeyOf(preferred) == "a" && KeyOf(Merge(hash, base, preferred)) == "b"
  {
    LetterKeys('a');
    LetterKeys('b');
    BlankTexts();
    hide Merge, TrimmedText, Present, FieldKey, KeyOf, COMPUTED;
    KeyFieldsKept();
    MergeFields(hash, base, preferred, "source_path");
    MergeFields(hash, base, preferred, "path");
    PresentText(Int(0));
    PresentText(Null);
    var m := Merge(hash, base, preferred);
    assert TrimmedText(Get(m, "source_path")) == "" && TrimmedText(Get(m, "path")) == "b";
    FirstKey(base);
    FirstKey(preferred);
    FirstKey(m);
  }

  /** The key does change: here a zero hides the field that gave it. */
  lemma ZeroFieldChangesKey(hash: string -> string)
    ensures var base := map["source_path" := Str("a"), "path" := Str("b")];
            var preferred := map["source_path" := Int(0), "url" := Str("a")];
            KeyOf(base) == KeyOf(preferred) == "a" && KeyOf(Merge(hash, base, preferred)) == "b"
  {
    hide KeyOf, Merge;
    ZeroHidesKey(hash, map["source_path" := Str("a"), "path" := Str("b")], map["source_path" := Int(0), "url" := Str("a")]);
  }

  lemma BlankTexts()
    ensures TrimmedText(Null) == "" && TrimmedText(Int(0)) == ""
  {
  }

  lemma FirstKey(d: Dict)
    ensures var s, p, u := TrimmedText(Get(d, "source_path")), TrimmedText(Get(d, "path")), TrimmedText(Get(d, "url"));
            && (s != "" ==> KeyOf(d) == FieldKey("source_path", s))
            && (s == "" && p != "" ==> KeyOf(d) == FieldKey("path", p))
            && (s == "" && p == "" && u != "" ==> KeyOf(d) == FieldKey("url", u))
  {
    hide TrimmedText, FieldKey;
    var fields := KEY_FIELDS;
    var rest := fields[1..];
    assert fields[0] == "source_path" && rest[0] == "path" && rest[1..][0] == "url";
    if TrimmedText(Get(d, "source_path")) == "" {
      assert KeyOf(d) == KeyIn(d, rest);
      if TrimmedText(Get(d, "path")) == "" {
        assert KeyIn(d, rest) == KeyIn(d, rest[1..]);
      }
    }
  }

  // ---------------------------------------------------------------- keys of the result

  /** Merging the two gives another key than theirs. */
  predicate LosesKey(r: Readers, a: Dict, b: Dict) {
    var (base, preferred) := Layers(r, a, b);
    Overridden(base, preferred, KEY_FIELDS, KeyOf(a))
  }

  lemma PreferredKeyExactly(r: Readers, a: Dict, b: Dict)
    requires KeyOf(a) == KeyOf(b) != ""
    ensures KeyOf(Preferred(r, a, b)) == KeyOf(a) <==> !LosesKey(r, a, b)
  {
    hide Merge, KeyOf, Overridden, Complete, ContentChars;
    var (base, preferred) := Layers(r, a, b);
    MergeKeyExactly(r.hash, base, preferred);
  }

  /** No merge of the run gives another key than that of the merged documents. */
  ghost predicate KeysStable(r: Readers, docs: seq<Dict>) {
    forall key :: key != "" && HasKey(DocumentRule(r), docs, key) ==> StepsAvoid(DocumentRule(r), docs, key, (a, b) => LosesKey(r, a, b))
  }

  /** The document kept for a key has that key at every stage exactly when no merge on the way loses it. */
  lemma KeyKeptExactly(r: Readers, docs: seq<Dict>, key: string)
    requires key != ""
    ensures AtEveryStage(DocumentRule(r), docs, key, d => KeyOf(d) == key)
            <==> StepsAvoid(DocumentRule(r), docs, key, (a, b) => LosesKey(r, a, b))
  {
    hide KeyOf, Preferred, LosesKey, StepsAvoid, AtEveryStage;
    var rule := DocumentRule(r);
    forall a, b | KeyOf(a) == key && KeyOf(b) == key ensures KeyOf(rule.merge(a, b)) == key <==> !LosesKey(r, a, b) {
      PreferredKeyExactly(r, a, b);
    }
    StagesExactly(rule, docs, key, d => KeyOf(d) == key, (a, b) => LosesKey(r, a, b));
  }

  lemma EntryKey(r: Readers, docs: seq<Dict>, h: nat)
    requires h < |docs| && KeysStable(r, docs)
    ensures KeyOf(Entry(DocumentRule(r), docs, h)) == KeyOf(docs[h])
  {
    hide KeyOf, Preferred, LosesKey, StepsAvoid;
    var rule, key := DocumentRule(r), KeyOf(docs[h]);
    if key != "" {
      assert rule.key(docs[h]) == key && HasKey(rule, docs, key);
      KeyKeptExactly(r, docs, key);
      assert docs[..|docs|] == docs;
    }
  }

  /**
   Where no merge loses its key, the result has the keys in the order they first occur, each once;
   documents without a key stay.
   */
  lemma KeysInOrder(r: Readers, docs: seq<Dict>)
    requires KeysStable(r, docs)
    ensures var out, hs := Deduped(DocumentRule(r), docs), Heads(DocumentRule(r), docs);
            && |out| == |hs|
            && (forall j :: 0 <= j < |out| ==> KeyOf(out[j]) == KeyOf(docs[hs[j]]))
            && (forall a, b :: 0 <= a < b < |hs| ==> hs[a] < hs[b])
            && (forall a, b :: 0 <= a < b < |out| && KeyOf(out[a]) != "" ==> KeyOf(out[a]) != KeyOf(out[b]))
  {
    hide KeyOf, Preferred, KeysStable, Heads;
    var rule := DocumentRule(r);
    HeadsExact(rule, docs);
    var hs := Heads(rule, docs);
    forall j | 0 <= j < |hs| ensures KeyOf(Entry(rule, docs, hs[j])) == KeyOf(docs[hs[j]]) {
      EntryKey(r, docs, hs[j]);
    }
  }

  /** Then deduplicating a second time changes nothing. */
  lemma DedupeIdempotent(r: Readers, docs: seq<Dict>)
    requires KeysStable(r, docs)
    ensures var out := Deduped(DocumentRule(r), docs); Deduped(DocumentRule(r), out) == out
  {
    hide KeyOf, Preferred, KeysStable, Heads, Deduped;
    KeysInOrder(r, docs);
    DistinctUnchanged(DocumentRule(r), Deduped(DocumentRule(r), docs));
  }

  lemma PlainMerge(r: Readers, a: Dict, b: Dict)
    requires PlainKeys(a) && PlainKeys(b) && KeyOf(a) == KeyOf(b) != ""
    ensures PlainKeys(Preferred(r, a, b)) && KeyOf(Preferred(r, a, b)) == KeyOf(a) && !LosesKey(r, a, b)
  {
    hide KeyOf, Merge, PlainKeys, LosesKey;
    MergeKeepsKey(r.hash, a, b);
    MergeKeepsKey(r.hash, b, a);
    PreferredKeyExactly(r, a, b);
  }

  /** In particular no merge loses its key when no key field of any document is a zero. */
  lemma PlainKeysStable(r: Readers, docs: seq<Dict>)
    requires forall d :: d in docs ==> PlainKeys(d)
    ensures KeysStable(r, docs)
  {
    hide KeyOf, Preferred, PlainKeys, LosesKey;
    var rule := DocumentRule(r);
    forall key, n | key != "" && 0 <= n < |docs| && MergesAt(rule, docs, key, n) ensures !LosesKey(r, Merged(rule, docs[..n], key), docs[n]) {
      forall a, b | PlainKeys(a) && KeyOf(a) == key && PlainKeys(b) && KeyOf(b) == key
        ensures PlainKeys(rule.merge(a, b)) && KeyOf(rule.merge(a, b)) == key
      {
        PlainMerge(r, a, b);
      }
      assert forall i :: 0 <= i < n ==> docs[..n][i] in docs;
      MergedKeeps(rule, docs[..n], key, d => PlainKeys(d) && KeyOf(d) == key);
      PlainMerge(r, Merged(rule, docs[..n], key), docs[n]);
    }
  }

  // ---------------------------------------------------------------- completeness

  /** `content_complete` is one of the two booleans. */
  predicate Explicit(d: Dict) {
    Get(d, "content_complete").Bool?
  }

  /** The length of the content of a complete document, which is never zero; zero for any other. */
  function CompleteChars(d: Dict): nat {
    if Complete(d) then |Content(d)| else 0
  }

  lemma MergedContent(hash: string -> string, base: Dict, preferred: Dict)
    ensures var m := Merge(hash, base, preferred);
            && Get(m, "content_complete") == (if Present(Get(preferred, "content_complete")) then Get(preferred, "content_complete") else Get(base, "content_complete"))
            && Content(m) == (if Present(Get(preferred, "content")) then Content(preferred) else Content(base))
  {
    hide Merge, Present, TrimmedText, COMPUTED;
    KeyFieldsKept();
    MergeFields(hash, base, preferred, "content");
    MergeFields(hash, base, preferred, "content_complete");
  }

  /** A complete document laid over another loses its completeness exactly when it leaves the flag to a false one. */
  lemma CompleteKept(hash: string -> string, base: Dict, preferred: Dict)
    requires Complete(preferred)
    ensures var m := Merge(hash, base, preferred);
            && Content(m) == Content(preferred)
            && (Complete(m) <==> Present(Get(preferred, "content_complete")) || Get(base, "content_complete") != Bool(false))
  {
    hide Merge, TrimmedText;
    MergedContent(hash, base, preferred);
    PresentText(Get(preferred, "content"));
  }

  /** Merging the two lays a complete one without a flag over a false flag. */
  predicate LosesFlag(r: Readers, a: Dict, b: Dict) {
    var (base, preferred) := Layers(r, a, b);
    Complete(preferred) && !Present(Get(preferred, "content_complete")) && Get(base, "content_complete") == Bool(false)
  }

  /** If one of two documents is complete, what is kept is complete exactly unless a flag is lost so. */
  lemma PreferredCompleteExactly(r: Readers, a: Dict, b: Dict)
    requires Complete(a) || Complete(b)
    ensures Complete(Preferred(r, a, b)) <==> !LosesFlag(r, a, b)
    ensures !LosesFlag(r, a, b) ==> CompleteChars(Preferred(r, a, b)) >= CompleteChars(a) && CompleteChars(Preferred(r, a, b)) >= CompleteChars(b)
  {
    hide Merge, Content, Present;
    var (base, preferred) := Layers(r, a, b);
    CompleteKept(r.hash, base, preferred);
  }

  /**
   Where no merge loses a flag, the document kept for a key is complete if any of that key is, and then
   as long as the longest complete one.
   */
  lemma CompletenessKept(r: Readers, docs: seq<Dict>, key: string)
    requires HasKey(DocumentRule(r), docs, key) && StepsAvoid(DocumentRule(r), docs, key, (a, b) => LosesFlag(r, a, b))
    ensures var kept := Merged(DocumentRule(r), docs, key);
            forall i :: 0 <= i < |docs| && KeyOf(docs[i]) == key ==>
              CompleteChars(kept) >= CompleteChars(docs[i]) && (Complete(docs[i]) ==> Complete(kept))
  {
    hide KeyOf, Preferred, Content, LosesFlag, Merged, StepsAvoid;
    var rule := DocumentRule(r);
    forall a, b | !LosesFlag(r, a, b)
      ensures CompleteChars(rule.merge(a, b)) >= CompleteChars(a) && CompleteChars(rule.merge(a, b)) >= CompleteChars(b)
    {
      if Complete(a) || Complete(b) {
        PreferredCompleteExactly(r, a, b);
      }
    }
    MergedBounds(rule, docs, key, (a, b) => LosesFlag(r, a, b), d => CompleteChars(d));
    forall i | 0 <= i < |docs| && KeyOf(docs[i]) == key
      ensures CompleteChars(Merged(rule, docs, key)) >= CompleteChars(docs[i])
    {
      assert rule.key(docs[i]) == key;
    }
  }

  /** That condition is exact: it holds exactly when no merge on the way to the entry makes a complete document incomplete. */
  lemma CompletenessExactly(r: Readers, docs: seq<Dict>, key: string)
    ensures var rule := DocumentRule(r);
            StepsAvoid(rule, docs, key, (a, b) => LosesFlag(r, a, b)) <==>
              forall n :: 0 <= n < |docs| && MergesAt(rule, docs, key, n) && (Complete(Merged(rule, docs[..n], key)) || Complete(docs[n]))
                ==> Complete(Preferred(r, Merged(rule, docs[..n], key), docs[n]))
  {
    hide KeyOf, Preferred, LosesFlag, Complete, Merged;
    var rule := DocumentRule(r);
    forall n | 0 <= n < |docs| && MergesAt(rule, docs, key, n)
      ensures LosesFlag(r, Merged(rule, docs[..n], key), docs[n]) <==>
                (Complete(Merged(rule, docs[..n], key)) || Complete(docs[n])) && !Complete(Preferred(r, Merged(rule, docs[..n], key), docs[n]))
    {
      var a, b := Merged(rule, docs[..n], key), docs[n];
      if LosesFlag(r, a, b) {
        FlagOfComplete(r, a, b);
      }
      if Complete(a) || Complete(b) {
        PreferredCompleteExactly(r, a, b);
      }
    }
  }

  lemma FlagOfComplete(r: Readers, a: Dict, b: Dict)
    requires LosesFlag(r, a, b)
    ensures Complete(a) || Complete(b)
  {
    hide Complete, ContentChars;
  }

  lemma ExplicitMerge(r: Readers, a: Dict, b: Dict)
    requires Explicit(a) && Explicit(b)
    ensures Explicit(Preferred(r, a, b)) && !LosesFlag(r, a, b)
  {
    hide Merge, Content;
    MergedContent(r.hash, a, b);
    MergedContent(r.hash, b, a);
  }

  /** In particular no merge loses a flag when every document says whether it is complete. */
  lemma ExplicitKept(r: Readers, docs: seq<Dict>, key: string)
    requires forall d :: d in docs ==> Explicit(d)
    ensures StepsAvoid(DocumentRule(r), docs, key, (a, b) => LosesFlag(r, a, b))
  {
    hide KeyOf, Preferred, Explicit, LosesFlag;
    var rule := DocumentRule(r);
    forall n | 0 <= n < |docs| && MergesAt(rule, docs, key, n) ensures !LosesFlag(r, Merged(rule, docs[..n], key), docs[n]) {
      forall a, b | Explicit(a) && Explicit(b) ensures Explicit(rule.merge(a, b)) {
        ExplicitMerge(r, a, b);
      }
      assert forall i :: 0 <= i < n ==> docs[..n][i] in docs;
      MergedKeeps(rule, docs[..n], key, d => Explicit(d));
      ExplicitMerge(r, Merged(rule, docs[..n], key), docs[n]);
    }
  }

  /** A complete document without a flag is made incomplete by one that says false. */
  lemma CompleteBecomesPartial(r: Readers)
    ensures var partial := map["content_complete" := Bool(false), "content" := Str("p")];
            var whole := map["content" := Str("w")];
            Complete(whole) && !Complete(Preferred(r, partial, whole)) && !Complete(Preferred(r, whole, partial))
  {
    var partial := map["content_complete" := Bool(false), "content" := Str("p")];
    var whole := map["content" := Str("w")];
    assert Content(partial) == "p" && Content(whole) == "w" by {
      LetterKeys('p');
      LetterKeys('w');
    }
    hide Merge, Content;
    CompleteKept(r.hash, partial, whole);
  }

  /**
   Of two incomplete documents the merge is complete exactly when a flag that is present and not false
   is laid, without any content, over someone else's.
   */
  lemma IncompleteMerge(hash: string -> string, base: Dict, preferred: Dict)
    requires !Complete(base) && !Complete(preferred)
    ensures Complete(Merge(hash, base, preferred))
            <==> Present(Get(preferred, "content_complete")) && Get(preferred, "content_complete") != Bool(false)
                 && !Present(Get(preferred, "content")) && Content(base) != ""
  {
    hide Merge, TrimmedText;
    MergedContent(hash, base, preferred);
    PresentText(Get(preferred, "content"));
  }

  /** So two incomplete documents may merge to one that claims to be complete, by a true flag or by any other, zero included. */
  lemma PartialBecomesComplete(r: Readers, flag: Json)
    requires flag == Bool(true) || flag == Int(0)
    ensures var partial := map["content_complete" := Bool(false), "content" := Str("p")];
            var empty := map["content_complete" := flag, "content_chars" := Int(9)];
            !Complete(partial) && !Complete(empty) && Complete(Preferred(r, partial, empty))
  {
    var partial := map["content_complete" := Bool(false), "content" := Str("p")];
    var empty := map["content_complete" := flag, "content_chars" := Int(9)];
    assert Content(partial) == "p" && Content(empty) == "" by {
      LetterKeys('p');
      BlankTexts();
    }
    hide Merge, Content;
    IncompleteMerge(r.hash, partial, empty);
  }

  // ---------------------------------------------------------------- path identities

  lemma {:induction false} TextsStripped(items: seq<Json>)
    ensures forall x :: x in Texts(items) ==> x != "" && Strip(x) == x
  {
    if items != [] {
      StripFixpoint(PyStr(items[0]));
      TextsStripped(items[1..]);
    }
  }

  lemma {:induction false} TextsOfList(ids: seq<string>)
    requires forall x :: x in ids ==> x != "" && Strip(x) == x
    ensures Texts(TextList(ids).items) == set x | x in ids
  {
    hide Strip;
    if ids != [] {
      var rest := ids[1..];
      forall x | x in rest ensures x != "" && Strip(x) == x {
        assert x in ids;
      }
      TextsOfList(rest);
      assert TextList(ids).items[1..] == TextList(ids[1..]).items;
      assert forall x :: x in ids <==> x == ids[0] || x in ids[1..];
    }
  }

  lemma IdentitiesWritten(d: Dict, ids: set<string>)
    requires forall x :: x in ids ==> x != "" && Strip(x) == x
    requires ids == {} ==> Identities(d) == {}
    ensures Identities(WithIdentities(d, ids)) == ids
  {
    hide Strip, Texts, SortedKeys;
    if ids != {} {
      TextsOfList(SortedKeys(ids));
      assert (set x | x in SortedKeys(ids)) == ids;
    }
  }

  lemma BookkeepingKeepsIdentities(hash: string -> string, d: Dict, refs: seq<Json>)
    ensures Identities(WithMeasures(hash, WithRefs(d, refs))) == Identities(d)
  {
    hide Content, TrimmedText, DedupeRefs, Texts;
  }

  /** A merge unites the path identities. */
  lemma IdentitiesUnited(hash: string -> string, base: Dict, preferred: Dict)
    ensures Identities(Merge(hash, base, preferred)) == Identities(base) + Identities(preferred)
  {
    hide Strip, Texts, Overlay, WithIdentities, WithRefs, WithMeasures, Present, Refs;
    var first := Overlay(base, preferred);
    var ids := Identities(base) + Identities(preferred);
    OverlayFields(base, preferred, "path_identities");
    TextsStripped(Items(Get(base, "path_identities")));
    TextsStripped(Items(Get(preferred, "path_identities")));
    IdentitiesWritten(first, ids);
    var second := WithIdentities(first, ids);
    BookkeepingKeepsIdentities(hash, second, Refs(base) + Refs(preferred));
  }

  /** Nothing is lost: the kept document of a key has exactly the path identities of all documents of that key. */
  lemma IdentitiesConserved(r: Readers, docs: seq<Dict>, key: string, x: string)
    requires HasKey(DocumentRule(r), docs, key)
    ensures x in Identities(Merged(DocumentRule(r), docs, key))
            <==> exists i :: 0 <= i < |docs| && KeyOf(docs[i]) == key && x in Identities(docs[i])
  {
    hide KeyOf, Merge, Identities, Merged;
    var rule := DocumentRule(r);
    forall a, b ensures Identities(rule.merge(a, b)) == Identities(a) + Identities(b) {
      IdentitiesUnited(r.hash, a, b);
      IdentitiesUnited(r.hash, b, a);
    }
    MergedUnites(rule, docs, key, d => Identities(d), x);
  }

  // ---------------------------------------------------------------- event references

  function RefKeys(refs: seq<Json>): set<(string, string, string)> {
    set v | v in refs :: RefKey(v)
  }

  /** No two references have one key. */
  ghost predicate DistinctRefs(refs: seq<Json>) {
    forall i, j :: 0 <= i < j < |refs| ==> RefKey(refs[i]) != RefKey(refs[j])
  }

  lemma {:induction false} DedupeRefsExact(refs: seq<Json>)
    ensures RefKeys(DedupeRefs(refs)) == RefKeys(refs) && DistinctRefs(DedupeRefs(refs))
    ensures forall v :: v in DedupeRefs(refs) ==> v in refs
  {
    hide RefKey, RefKeys;
    if refs == [] {
      assert DedupeRefs(refs) == refs;
    } else {
      var n := |refs| - 1;
      var init := refs[..n];
      DedupeRefsExact(init);
      assert refs == init + [refs[n]];
      RefKeysAppend(init, refs[n]);
      RefKeysAppend(DedupeRefs(init), refs[n]);
      KeyAmong(DedupeRefs(init), refs[n]);
    }
  }

  lemma RefKeysAppend(refs: seq<Json>, v: Json)
    ensures RefKeys(refs + [v]) == RefKeys(refs) + {RefKey(v)}
  {
    hide RefKey;
  }

  lemma KeyAmong(refs: seq<Json>, v: Json)
    ensures RefKey(v) in RefKeys(refs) <==> exists r :: r in refs && RefKey(r) == RefKey(v)
  {
    hide RefKey;
  }

  lemma {:induction false} DictItemsKept(items: seq<Json>)
    ensures (forall v :: v in items ==> v.Obj?) ==> DictItems(items) == items
    ensures forall v :: v in DictItems(items) ==> v.Obj?
  {
    if items != [] {
      DictItemsKept(items[1..]);
      assert items == [items[0]] + items[1..];
    }
  }

  lemma RefsWritten(hash: string -> string, d: Dict, refs: seq<Json>)
    requires forall v :: v in refs ==> v.Obj?
    ensures Refs(WithMeasures(hash, WithRefs(d, refs))) == if refs == [] then Refs(d) else DedupeRefs(refs)
  {
    hide Content, TrimmedText, DictItems, DedupeRefs, RefKey;
    if refs != [] {
      DedupeRefsExact(refs);
      DictItemsKept(DedupeRefs(refs));
    }
  }

  lemma RefsOfOverlay(base: Dict, preferred: Dict, ids: set<string>)
    ensures var d := WithIdentities(Overlay(base, preferred), ids);
            Refs(d) == Refs(base) || Refs(d) == Refs(preferred)
  {
    hide Overlay, Present, DictItems, SortedKeys, TextList;
    OverlayFields(base, preferred, "raw_event_refs");
    assert Get(WithIdentities(Overlay(base, preferred), ids), "raw_event_refs") == Get(Overlay(base, preferred), "raw_event_refs");
  }

  lemma RefsUnited(hash: string -> string, base: Dict, preferred: Dict)
    ensures RefKeys(Refs(Merge(hash, base, preferred))) == RefKeys(Refs(base)) + RefKeys(Refs(preferred))
  {
    hide Overlay, WithIdentities, WithRefs, WithMeasures, Refs, DedupeRefs, RefKey, Identities;
    var refs := Refs(base) + Refs(preferred);
    RefsAreDicts(base);
    RefsAreDicts(preferred);
    RefsOfOverlay(base, preferred, Identities(base) + Identities(preferred));
    RefsWritten(hash, WithIdentities(Overlay(base, preferred), Identities(base) + Identities(preferred)), refs);
    DedupeRefsExact(refs);
    assert RefKeys(refs) == RefKeys(Refs(base)) + RefKeys(Refs(preferred));
  }

  lemma RefsAreDicts(d: Dict)
    ensures forall v :: v in Refs(d) ==> v.Obj?
  {
    DictItemsKept(Items(Get(d, "raw_event_refs")));
  }

  /** The kept document of a key refers to exactly the events that any document of that key refers to. */
  lemma RefsConserved(r: Readers, docs: seq<Dict>, key: string, x: (string, string, string))
    requires HasKey(DocumentRule(r), docs, key)
    ensures x in RefKeys(Refs(Merged(DocumentRule(r), docs, key)))
            <==> exists i :: 0 <= i < |docs| && KeyOf(docs[i]) == key && x in RefKeys(Refs(docs[i]))
  {
    hide KeyOf, Merge, Refs, RefKeys, Merged;
    var rule := DocumentRule(r);
    forall a, b ensures RefKeys(Refs(rule.merge(a, b))) == RefKeys(Refs(a)) + RefKeys(Refs(b)) {
      RefsUnited(r.hash, a, b);
      RefsUnited(r.hash, b, a);
    }
    MergedUnites(rule, docs, key, d => RefKeys(Refs(d)), x);
  }

  /** No document is lost: one entry, at its key's first place, has all its path identities and event references. */
  lemma DocumentKept(r: Readers, docs: seq<Dict>, i: nat) returns (j: nat)
    requires i < |docs| && KeyOf(docs[i]) != ""
    ensures var out, hs := Deduped(DocumentRule(r), docs), Heads(DocumentRule(r), docs);
            && j < |out| && j < |hs| && hs[j] <= i && KeyOf(docs[hs[j]]) == KeyOf(docs[i])
            && Identities(docs[i]) <= Identities(out[j]) && RefKeys(Refs(docs[i])) <= RefKeys(Refs(out[j]))
  {
    hide KeyOf, Preferred, Refs, RefKeys, Identities, Deduped, Heads, Merged;
    var rule, key := DocumentRule(r), KeyOf(docs[i]);
    assert rule.key(docs[i]) == key;
    j := EntryOfKey(rule, docs, i);
    forall x | x in Identities(docs[i]) ensures x in Identities(Merged(rule, docs, key)) {
      IdentitiesConserved(r, docs, key, x);
    }
    forall x | x in RefKeys(Refs(docs[i])) ensures x in RefKeys(Refs(Merged(rule, docs, key))) {
      RefsConserved(r, docs, key, x);
    }
  }
}
