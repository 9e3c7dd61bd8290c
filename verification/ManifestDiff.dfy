/**
 The diff between two normalised capability manifests. Its redundant parts (component sets, changed
 sections, list counts) are proved to agree, so that "has changes" means what it should.
 */
module ManifestDiff {
  import opened Json
  import opened Canonical
  import opened Text

  const SECTIONS: seq<string> := [
    "package", "components", "dependency_edges", "environment_requirements", "credential_requirements",
    "install_plans", "activation_rules", "exposed_file_closures", "update_metadata"]

  const LIST_SECTIONS: set<string> := {
    "components", "dependency_edges", "environment_requirements", "credential_requirements",
    "install_plans", "exposed_file_closures"}

  datatype Diff = Diff(
    addedComponents: seq<string>,
    removedComponents: seq<string>,
    changedComponents: seq<string>,
    changedSections: seq<string>,
    countBefore: nat,
    countAfter: nat,
    edgeDelta: int,
    environmentDelta: int,
    credentialDelta: int)

  // ---------------------------------------------------------------- Python's equality

  /** A value with its booleans read as the integers they equal in Python. */
  function Erase(v: Json): Json {
    match v
    case Bool(b) => Int(if b then 1 else 0)
    case List(items) => List(EraseAll(items))
    case Obj(fields) => Obj(map k | k in fields :: Erase(fields[k]))
    case _ => v
  }

  function EraseAll(items: seq<Json>): (r: seq<Json>)
    ensures |r| == |items| && forall i :: 0 <= i < |items| ==> r[i] == Erase(items[i])
  {
    if items == [] then [] else [Erase(items[0])] + EraseAll(items[1..])
  }

  /** `a == b` for JSON values. */
  predicate PyEqual(a: Json, b: Json) {
    Erase(a) == Erase(b)
  }

  // ---------------------------------------------------------------- the diff

  /** `str(item.get("id") or item.get("component_id") or "").strip()`. */
  function ItemId(item: Dict): string {
    Strip(PyStr(Or(Or(Get(item, "id"), Get(item, "component_id")), Str(""))))
  }

  predicate Listed(v: Json, id: string) {
    v.Obj? && id != "" && ItemId(v.fields) == id
  }

  /** The items of a list by id; of several with one id the last counts. */
  function ById(items: seq<Json>): map<string, Dict> {
    if items == [] then map[]
    else
      var n := |items| - 1;
      var v := items[n];
      if v.Obj? && ItemId(v.fields) != "" then ById(items[..n])[ItemId(v.fields) := v.fields] else ById(items[..n])
  }

  /** The keys of that dictionary in its order: by first occurrence. */
  function IdsInOrder(items: seq<Json>): (r: seq<string>)
    ensures forall id :: id in r <==> id in ById(items)
  {
    if items == [] then []
    else
      var n := |items| - 1;
      var v := items[n];
      var ids := IdsInOrder(items[..n]);
      if v.Obj? && ItemId(v.fields) != "" && ItemId(v.fields) !in ids then ids + [ItemId(v.fields)] else ids
  }

  /** `_items_by_id`, as a dictionary and the order of its keys. */
  method ItemsById(v: Json) returns (ids: seq<string>, byId: map<string, Dict>)
    ensures byId == ById(Items(v)) && ids == IdsInOrder(Items(v))
  {
    hide ItemId;
    ids, byId := [], map[];
    var items := Items(v);
    for i := 0 to |items|
      invariant byId == ById(items[..i]) && ids == IdsInOrder(items[..i])
    {
      assert items[..i + 1][..i] == items[..i];
      var item := items[i];
      if item.Obj? {
        var id := ItemId(item.fields);
        if id != "" {
          if id !in byId {
            ids := ids + [id];
          }
          byId := byId[id := item.fields];
        }
      }
    }
    assert items[..|items|] == items;
  }

  /** `_stable_manifest_section`, before comparison. */
  function Section(d: Dict, section: string): Json {
    var v := Get(d, section);
    if v.Null? then (if section in LIST_SECTIONS then List([]) else Obj(map[])) else v
  }

  predicate SameSection(c: Dict, n: Dict, section: string) {
    PyEqual(Canon(Section(c, section)), Canon(Section(n, section)))
  }

  function ChangedSections(c: Dict, n: Dict, sections: seq<string>): (r: seq<string>)
    ensures forall s :: s in r <==> s in sections && !SameSection(c, n, s)
    ensures r == [] <==> forall s :: s in sections ==> SameSection(c, n, s)
  {
    if sections == [] then []
    else (if SameSection(c, n, sections[0]) then [] else [sections[0]]) + ChangedSections(c, n, sections[1..])
  }

  function ListDelta(before: Json, after: Json): int {
    |Items(after)| - |Items(before)|
  }

  /** The ids of both sides whose items look different. */
  function ChangedIds(cs: map<string, Dict>, ns: map<string, Dict>): set<string> {
    set id | id in cs && id in ns && !PyEqual(Canon(Obj(cs[id])), Canon(Obj(ns[id])))
  }

  function Compare(current: Json, next: Json): Diff {
    var c, n := AsDict(current), AsDict(next);
    var cs, ns := ById(Items(Get(c, "components"))), ById(Items(Get(n, "components")));
    Diff(
      SortedKeys(ns.Keys - cs.Keys),
      SortedKeys(cs.Keys - ns.Keys),
      SortedKeys(ChangedIds(cs, ns)),
      ChangedSections(c, n, SECTIONS),
      |cs|,
      |ns|,
      ListDelta(Get(c, "dependency_edges"), Get(n, "dependency_edges")),
      ListDelta(Get(c, "environment_requirements"), Get(n, "environment_requirements")),
      ListDelta(Get(c, "credential_requirements"), Get(n, "credential_requirements")))
  }

  predicate HasChanges(d: Diff) {
    || d.addedComponents != [] || d.removedComponents != [] || d.changedComponents != []
    || d.changedSections != []
    || d.edgeDelta != 0 || d.environmentDelta != 0 || d.credentialDelta != 0
  }

  // ---------------------------------------------------------------- what the diff reports

  /** The id of an item is its own id, or else its component id. */
  lemma ItemIdExactly(item: Dict)
    ensures ItemId(item) == TrimmedText(if Truthy(Get(item, "id")) then Get(item, "id") else Get(item, "component_id"))
  {
    hide Strip, PyStr;
  }

  /** The list has a dictionary with the id. */
  ghost predicate Lists(items: seq<Json>, id: string) {
    exists v :: v in items && Listed(v, id)
  }

  /** The last dictionary with the id. */
  ghost predicate LastListed(items: seq<Json>, id: string, v: Json) {
    exists i :: 0 <= i < |items| && items[i] == v && Listed(v, id) && forall j :: i < j < |items| ==> !Listed(items[j], id)
  }

  /** The ids in a list. */
  ghost function IdsOf(items: seq<Json>): set<string> {
    set v | v in items && v.Obj? && ItemId(v.fields) != "" :: ItemId(v.fields)
  }

  lemma {:induction false} ByIdExactly(items: seq<Json>, id: string)
    ensures id in ById(items) <==> Lists(items, id)
    ensures id in ById(items) ==> LastListed(items, id, Obj(ById(items)[id]))
  {
    hide ItemId;
    if items != [] {
      var n := |items| - 1;
      var front := items[..n];
      ByIdExactly(front, id);
      assert items == front + [items[n]];
      if Listed(items[n], id) {
        assert items[n] == Obj(ById(items)[id]);
      } else if id in ById(items) {
        var v := Obj(ById(front)[id]);
        var i :| 0 <= i < n && front[i] == v && Listed(v, id) && forall j :: i < j < n ==> !Listed(front[j], id);
        assert items[i] == v && forall j :: i < j < |items| ==> !Listed(items[j], id);
      }
    }
  }

  lemma LastListedOnce(items: seq<Json>, id: string, v: Json, w: Json)
    requires LastListed(items, id, v) && LastListed(items, id, w)
    ensures v == w
  {
    hide Listed;
  }

  lemma {:induction false} SortedKeysOrdered(keys: set<string>, i: nat, j: nat)
    requires i < j < |SortedKeys(keys)|
    ensures StrLess(SortedKeys(keys)[i], SortedKeys(keys)[j])
  {
    hide StrLess;
    LeastExists(keys);
    var k := SortedKeys(keys)[0];
    assert IsLeast(k, keys) && SortedKeys(keys)[1..] == SortedKeys(keys - {k});
    if i == 0 {
      var l := SortedKeys(keys)[j];
      assert l == SortedKeys(keys - {k})[j - 1] && l in SortedKeys(keys - {k});
      StrLessTotal(k, l);
    } else {
      SortedKeysOrdered(keys - {k}, i - 1, j - 1);
    }
  }

  /**
   The diff names as added the ids that only the new manifest lists, as removed those that only the old
   one lists, and as changed those of both whose last dictionaries look different.
   */
  lemma DiffExactly(current: Json, next: Json, id: string)
    ensures var d := Compare(current, next);
            var xs, ys := Items(Get(AsDict(current), "components")), Items(Get(AsDict(next), "components"));
            && (id in d.addedComponents <==> !Lists(xs, id) && Lists(ys, id))
            && (id in d.removedComponents <==> Lists(xs, id) && !Lists(ys, id))
            && (id in d.changedComponents <==>
                  exists v, w :: LastListed(xs, id, v) && LastListed(ys, id, w) && Erase(Canon(v)) != Erase(Canon(w)))
  {
    var c, n := AsDict(current), AsDict(next);
    var xs, ys := Items(Get(c, "components")), Items(Get(n, "components"));
    hide ById, Canon, Erase, Listed, Lists, LastListed, ChangedSections, ChangedIds, SortedKeys;
    ByIdExactly(xs, id);
    ByIdExactly(ys, id);
    LastLookDifferent(xs, ys, id);
  }

  /** It names the sections that look different, counts the ids of each side and subtracts old list lengths from new. */
  lemma DiffCounts(current: Json, next: Json, id: string)
    ensures var d := Compare(current, next);
            var c, n := AsDict(current), AsDict(next);
            && (id in d.changedSections <==>
                  && id in {"package", "components", "dependency_edges", "environment_requirements", "credential_requirements",
                            "install_plans", "activation_rules", "exposed_file_closures", "update_metadata"}
                  && Erase(Canon(Section(c, id))) != Erase(Canon(Section(n, id))))
            && d.countBefore == |IdsOf(Items(Get(c, "components")))| && d.countAfter == |IdsOf(Items(Get(n, "components")))|
            && d.edgeDelta == |Items(Get(n, "dependency_edges"))| - |Items(Get(c, "dependency_edges"))|
            && d.environmentDelta == |Items(Get(n, "environment_requirements"))| - |Items(Get(c, "environment_requirements"))|
            && d.credentialDelta == |Items(Get(n, "credential_requirements"))| - |Items(Get(c, "credential_requirements"))|
  {
    var c, n := AsDict(current), AsDict(next);
    hide ById, Canon, Erase, IdsOf, ItemId, Section, ChangedSections, ChangedIds, SortedKeys;
    IdsCounted(Items(Get(c, "components")));
    IdsCounted(Items(Get(n, "components")));
    assert id in Compare(current, next).changedSections <==> id in ChangedSections(c, n, SECTIONS);
  }

  lemma LastLookDifferent(xs: seq<Json>, ys: seq<Json>, id: string)
    ensures id in ChangedIds(ById(xs), ById(ys)) <==>
              exists v, w :: LastListed(xs, id, v) && LastListed(ys, id, w) && Erase(Canon(v)) != Erase(Canon(w))
  {
    hide ById, Canon, Erase, Listed, Lists, LastListed;
    ByIdExactly(xs, id);
    ByIdExactly(ys, id);
    if v, w :| LastListed(xs, id, v) && LastListed(ys, id, w) && Erase(Canon(v)) != Erase(Canon(w)) {
      LastIsListed(xs, id, v);
      LastIsListed(ys, id, w);
      LastListedOnce(xs, id, v, Obj(ById(xs)[id]));
      LastListedOnce(ys, id, w, Obj(ById(ys)[id]));
    }
  }

  lemma LastIsListed(items: seq<Json>, id: string, v: Json)
    requires LastListed(items, id, v)
    ensures Lists(items, id)
  {
    hide Listed;
  }

  lemma IdsCounted(items: seq<Json>)
    ensures |ById(items)| == |IdsOf(items)|
  {
    hide ItemId;
    forall id ensures id in ById(items) <==> id in IdsOf(items) {
      ByIdExactly(items, id);
      if Lists(items, id) {
        var v :| v in items && Listed(v, id);
      }
    }
    assert ById(items).Keys == IdsOf(items);
  }

  /** An absent section counts as empty: as no list elements where it is a list, else as no entries. */
  lemma SectionExactly(d: Dict, section: string)
    ensures Get(d, section) != Null ==> Section(d, section) == Get(d, section)
    ensures Get(d, section) == Null && section in {"package", "activation_rules", "update_metadata"} ==> Section(d, section) == Obj(map[])
    ensures Get(d, section) == Null ==>
              section in {"components", "dependency_edges", "environment_requirements", "credential_requirements",
                          "install_plans", "exposed_file_closures"} ==>
                Section(d, section) == List([])
  {
  }

  /** The reported ids are in ascending order. */
  lemma DiffOrdered(current: Json, next: Json, i: nat, j: nat)
    requires i < j
    ensures var d := Compare(current, next);
            && (j < |d.addedComponents| ==> StrLess(d.addedComponents[i], d.addedComponents[j]))
            && (j < |d.removedComponents| ==> StrLess(d.removedComponents[i], d.removedComponents[j]))
            && (j < |d.changedComponents| ==> StrLess(d.changedComponents[i], d.changedComponents[j]))
  {
    hide ById, Canon, Erase, ChangedSections, ChangedIds, SortedKeys, StrLess;
    var c, n := AsDict(current), AsDict(next);
    var cs, ns := ById(Items(Get(c, "components"))), ById(Items(Get(n, "components")));
    var changed := ChangedIds(cs, ns);
    var d := Compare(current, next);
    if j < |d.addedComponents| { SortedKeysOrdered(ns.Keys - cs.Keys, i, j); }
    if j < |d.removedComponents| { SortedKeysOrdered(cs.Keys - ns.Keys, i, j); }
    if j < |d.changedComponents| { SortedKeysOrdered(changed, i, j); }
  }

  /** Comparing the other way round swaps what was added and removed and negates the deltas. */
  lemma DiffReversed(current: Json, next: Json)
    ensures var d, e := Compare(current, next), Compare(next, current);
            && e.addedComponents == d.removedComponents && e.removedComponents == d.addedComponents
            && e.changedComponents == d.changedComponents
            && e.countBefore == d.countAfter && e.countAfter == d.countBefore
            && e.edgeDelta == -d.edgeDelta && e.environmentDelta == -d.environmentDelta && e.credentialDelta == -d.credentialDelta
            && forall s :: s in e.changedSections <==> s in d.changedSections
  {
    hide ById, ChangedIds, SortedKeys, ChangedSections, SECTIONS;
    var c, n := AsDict(current), AsDict(next);
    ChangedBothWays(ById(Items(Get(c, "components"))), ById(Items(Get(n, "components"))));
    SectionsBothWays(c, n);
  }

  lemma ChangedBothWays(cs: map<string, Dict>, ns: map<string, Dict>)
    ensures ChangedIds(cs, ns) == ChangedIds(ns, cs)
  {
    hide Canon, Erase;
  }

  lemma SectionsBothWays(c: Dict, n: Dict)
    ensures forall s :: s in ChangedSections(c, n, SECTIONS) <==> s in ChangedSections(n, c, SECTIONS)
  {
    hide Canon, Erase, Section, ChangedSections, SECTIONS;
  }

  // ---------------------------------------------------------------- matching list elements

  /** What the comparison sees of a value. */
  function Seen(v: Json): Json {
    Erase(Canon(v))
  }

  lemma EraseKeepsMultiset(s: seq<Json>, t: seq<Json>)
    requires multiset(s) == multiset(t)
    ensures multiset(EraseAll(s)) == multiset(EraseAll(t))
  {
    var p := MultisetPermutation(s, t);
    PermutationMultiset(EraseAll(s), EraseAll(t), p);
  }

  /** Lists that look the same have elements that look the same, up to a permutation. */
  lemma MatchItems(xs: seq<Json>, ys: seq<Json>) returns (p: seq<nat>)
    requires Seen(List(xs)) == Seen(List(ys))
    ensures |xs| == |ys| && Permutation(p, |xs|) && forall i :: 0 <= i < |xs| ==> Seen(xs[i]) == Seen(ys[p[i]])
  {
    var cx, cy := CanonAll(xs), CanonAll(ys);
    SeenElements(cx, cy);
    p := MultisetPermutation(EraseAll(cx), EraseAll(cy));
    hide Erase, Canon, SortByText;
    forall i | 0 <= i < |xs| ensures Seen(xs[i]) == Seen(ys[p[i]]) {
      assert EraseAll(cx)[i] == EraseAll(cy)[p[i]];
    }
  }

  lemma SeenElements(cx: seq<Json>, cy: seq<Json>)
    requires Erase(List(SortByText(cx))) == Erase(List(SortByText(cy)))
    ensures multiset(EraseAll(cx)) == multiset(EraseAll(cy))
  {
    hide SortByText;
    SortMultiset(cx);
    SortMultiset(cy);
    EraseKeepsMultiset(SortByText(cx), cx);
    EraseKeepsMultiset(SortByText(cy), cy);
  }

  ghost predicate TextOrNull(v: Json) {
    v.Null? || v.Str?
  }

  /** The ids of dictionary items are text. */
  ghost predicate TextIds(items: seq<Json>) {
    forall v :: v in items && v.Obj? ==> TextOrNull(Get(v.fields, "id")) && TextOrNull(Get(v.fields, "component_id"))
  }

  /** Items of one id look the same. */
  ghost predicate UniformItems(items: seq<Json>) {
    forall i, j, id :: 0 <= i < |items| && 0 <= j < |items| && Listed(items[i], id) && Listed(items[j], id)
      ==> Seen(items[i]) == Seen(items[j])
  }

  lemma SameField(f: Dict, g: Dict, key: string)
    requires Seen(Obj(f)) == Seen(Obj(g)) && key !in VOLATILE
    requires TextOrNull(Get(f, key)) && TextOrNull(Get(g, key))
    ensures Get(f, key) == Get(g, key)
  {
    assert key in f <==> key in Seen(Obj(f)).fields;
    assert key in g <==> key in Seen(Obj(g)).fields;
    if key in f {
      assert Seen(Obj(f)).fields[key] == Seen(f[key]);
      assert Seen(Obj(g)).fields[key] == Seen(g[key]);
    }
  }

  /** Items of the two lists that look the same have the same id. */
  ghost predicate LooksKeepIds(xs: seq<Json>, ys: seq<Json>) {
    forall v, w, id :: v in xs && w in ys && Seen(v) == Seen(w) ==> (Listed(v, id) <==> Listed(w, id))
  }

  /** Text looks like itself only, so it does when all ids are text. */
  lemma TextIdsKept(xs: seq<Json>, ys: seq<Json>)
    requires TextIds(xs) && TextIds(ys)
    ensures LooksKeepIds(xs, ys)
  {
    hide Strip, Print, Erase, Canon;
    forall v, w, id | v in xs && w in ys && Seen(v) == Seen(w) ensures Listed(v, id) <==> Listed(w, id) {
      if v.Obj? && w.Obj? {
        SameField(v.fields, w.fields, "id");
        SameField(v.fields, w.fields, "component_id");
      } else {
        LooksKeepDicts(v, w);
      }
    }
  }

  lemma LooksKeepDicts(v: Json, w: Json)
    requires Seen(v) == Seen(w)
    ensures v.Obj? <==> w.Obj?
  {
  }

  /** The dictionary holds the last item of each listed id. */
  lemma {:induction false} ByIdLast(items: seq<Json>, id: string)
    ensures id in ById(items) <==> exists i :: 0 <= i < |items| && Listed(items[i], id)
    ensures id in ById(items) ==> exists i :: 0 <= i < |items| && Listed(items[i], id) && items[i] == Obj(ById(items)[id])
  {
    hide ItemId;
    if items != [] {
      var n := |items| - 1;
      var front := items[..n];
      ByIdLast(front, id);
      assert forall i :: 0 <= i < n ==> front[i] == items[i];
      if !Listed(items[n], id) && id in ById(items) {
        var i :| 0 <= i < n && Listed(front[i], id) && front[i] == Obj(ById(front)[id]);
        assert Listed(items[i], id) && items[i] == Obj(ById(items)[id]);
      }
    }
  }

  /** Component lists that look the same list the same ids, and the items under an id look the same. */
  lemma SameListing(xs: seq<Json>, ys: seq<Json>, id: string)
    requires Seen(List(xs)) == Seen(List(ys))
    requires LooksKeepIds(xs, ys) && UniformItems(ys)
    requires id in ById(xs)
    ensures id in ById(ys) && PyEqual(Canon(Obj(ById(xs)[id])), Canon(Obj(ById(ys)[id])))
  {
    hide Erase, Canon, ItemId;
    var p := MatchItems(xs, ys);
    ByIdLast(xs, id);
    ByIdLast(ys, id);
    var i :| 0 <= i < |xs| && Listed(xs[i], id) && xs[i] == Obj(ById(xs)[id]);
    var v, w := xs[i], ys[p[i]];
    assert v in xs && w in ys;
    var j :| 0 <= j < |ys| && Listed(ys[j], id) && ys[j] == Obj(ById(ys)[id]);
    assert Seen(ys[j]) == Seen(w);
  }

  // ---------------------------------------------------------------- has changes

  function Components(d: Dict): seq<Json> {
    Items(Get(d, "components"))
  }

  /** In each manifest components of one id look the same, and components of the two that look the same have one id. */
  ghost predicate Regular(c: Dict, n: Dict) {
    && UniformItems(Components(c)) && UniformItems(Components(n))
    && LooksKeepIds(Components(c), Components(n))
  }

  /** In particular when all ids are text and no id occurs twice. */
  lemma DistinctTextRegular(c: Dict, n: Dict)
    requires TextIds(Components(c)) && TextIds(Components(n))
    requires forall i, j, id :: 0 <= i < j < |Components(c)| && Listed(Components(c)[i], id) ==> !Listed(Components(c)[j], id)
    requires forall i, j, id :: 0 <= i < j < |Components(n)| && Listed(Components(n)[i], id) ==> !Listed(Components(n)[j], id)
    ensures Regular(c, n)
  {
    hide TextIds, Listed, Erase, Canon;
    TextIdsKept(Components(c), Components(n));
  }

  lemma SameLength(c: Dict, n: Dict, section: string)
    requires section in LIST_SECTIONS && SameSection(c, n, section)
    ensures ListDelta(Get(c, section), Get(n, section)) == 0
  {
    hide SortByText;
    var v, w := Section(c, section), Section(n, section);
    if v.List? && w.List? {
      var p := MatchItems(v.items, w.items);
    }
  }

  lemma SameComponents(c: Dict, n: Dict)
    requires Regular(c, n) && SameSection(c, n, "components")
    ensures var cs, ns := ById(Items(Get(c, "components"))), ById(Items(Get(n, "components")));
            cs.Keys == ns.Keys && forall id :: id in cs && id in ns ==> PyEqual(Canon(Obj(cs[id])), Canon(Obj(ns[id])))
  {
    hide Canon, ItemId, UniformItems, PyEqual, Listed;
    var xs, ys := Items(Get(c, "components")), Items(Get(n, "components"));
    ListsSeen(c, n);
    forall id ensures id in ById(xs) ==> id in ById(ys) && PyEqual(Canon(Obj(ById(xs)[id])), Canon(Obj(ById(ys)[id]))) {
      if id in ById(xs) { SameListing(xs, ys, id); }
    }
    forall id ensures id in ById(ys) ==> id in ById(xs) {
      if id in ById(ys) { SameListing(ys, xs, id); }
    }
    assert ById(xs).Keys == ById(ys).Keys;
  }

  lemma ListsSeen(c: Dict, n: Dict)
    requires SameSection(c, n, "components")
    ensures Seen(List(Items(Get(c, "components")))) == Seen(List(Items(Get(n, "components"))))
  {
    hide SortByText;
    var v, w := Section(c, "components"), Section(n, "components");
    assert v.List? ==> Items(Get(c, "components")) == v.items;
    assert w.List? ==> Items(Get(n, "components")) == w.items;
    assert v.List? <==> w.List?;
  }

  /**
   A diff has changes exactly when one of the nine sections looks different. The component sets and
   the counts add nothing, as long as components of one id look the same, and components that
   look the same have one id.
   */
  lemma ChangesExactly(current: Json, next: Json)
    requires Regular(AsDict(current), AsDict(next))
    ensures HasChanges(Compare(current, next)) <==>
              exists s :: s in SECTIONS && !SameSection(AsDict(current), AsDict(next), s)
  {
    hide SameSection, Regular, ById, Canon, PyEqual, SortedKeys;
    var c, n := AsDict(current), AsDict(next);
    var d := Compare(current, next);
    if forall s :: s in SECTIONS ==> SameSection(c, n, s) {
      SectionNames();
      SameComponents(c, n);
      SameLength(c, n, "dependency_edges");
      SameLength(c, n, "environment_requirements");
      SameLength(c, n, "credential_requirements");
      var cs, ns := ById(Items(Get(c, "components"))), ById(Items(Get(n, "components")));
      assert (set id | id in cs && id in ns && !PyEqual(Canon(Obj(cs[id])), Canon(Obj(ns[id])))) == {};
      assert ns.Keys - cs.Keys == {} && cs.Keys - ns.Keys == {};
    } else {
      var s :| s in SECTIONS && !SameSection(c, n, s);
      assert s in d.changedSections;
    }
  }

  lemma SectionNames()
    ensures {"components", "dependency_edges", "environment_requirements", "credential_requirements"} <= set s | s in SECTIONS
  {
    assert SECTIONS[1] == "components" && SECTIONS[2] == "dependency_edges";
    assert SECTIONS[3] == "environment_requirements" && SECTIONS[4] == "credential_requirements";
  }

  // ---------------------------------------------------------------- equality against agreement

  predicate NoBool(v: Json) {
    match v
    case Bool(_) => false
    case List(items) => forall x :: x in items ==> NoBool(x)
    case Obj(fields) => forall k :: k in fields ==> NoBool(fields[k])
    case _ => true
  }

  predicate NoBit(v: Json) {
    match v
    case Int(n) => n != 0 && n != 1
    case List(items) => forall x :: x in items ==> NoBit(x)
    case Obj(fields) => forall k :: k in fields ==> NoBit(fields[k])
    case _ => true
  }

  /** Booleans cannot be confused with integers: one of the two is absent. */
  predicate Unmixed(a: Json, b: Json) {
    (NoBool(a) && NoBool(b)) || (NoBit(a) && NoBit(b))
  }

  lemma {:induction false} EraseFaithful(a: Json, b: Json)
    requires Unmixed(a, b) && Erase(a) == Erase(b)
    ensures a == b
    decreases a
  {
    match a
    case List(xs) =>
      forall i | 0 <= i < |xs| ensures xs[i] == b.items[i] {
        assert xs[i] in a.items && b.items[i] in b.items;
        assert EraseAll(xs)[i] == EraseAll(b.items)[i];
        EraseFaithful(xs[i], b.items[i]);
      }
    case Obj(f) =>
      assert f.Keys == Erase(a).fields.Keys && b.fields.Keys == Erase(b).fields.Keys;
      forall k | k in f ensures f[k] == b.fields[k] {
        assert Erase(f[k]) == Erase(a).fields[k] == Erase(b.fields[k]);
        EraseFaithful(f[k], b.fields[k]);
      }
    case _ =>
  }

  /** What a value keeps of the kinds another holds. */
  ghost predicate KeepsKinds(v: Json, w: Json) {
    (NoBool(v) ==> NoBool(w)) && (NoBit(v) ==> NoBit(w))
  }

  lemma ListKeepsKinds(xs: seq<Json>, ys: seq<Json>)
    requires forall y :: y in ys ==> exists x :: x in xs && KeepsKinds(x, y)
    ensures KeepsKinds(List(xs), List(ys))
  {
  }

  lemma ObjKeepsKinds(f: Dict, g: Dict)
    requires forall k :: k in g ==> k in f && KeepsKinds(f[k], g[k])
    ensures KeepsKinds(Obj(f), Obj(g))
  {
  }

  lemma {:induction false} CanonKeepsKinds(v: Json)
    ensures KeepsKinds(v, Canon(v))
    decreases v
  {
    hide SortByText, KeepsKinds;
    match v
    case List(xs) =>
      var cs := CanonAll(xs);
      SortMultiset(cs);
      forall y | y in SortByText(cs) ensures exists x :: x in xs && KeepsKinds(x, y) {
        assert y in multiset(cs);
        var i :| 0 <= i < |xs| && cs[i] == y;
        CanonKeepsKinds(xs[i]);
        assert xs[i] in xs;
      }
      ListKeepsKinds(xs, SortByText(cs));
    case Obj(f) =>
      forall k | k in f && k !in VOLATILE ensures KeepsKinds(f[k], Canon(v).fields[k]) {
        CanonKeepsKinds(f[k]);
      }
      ObjKeepsKinds(f, Canon(v).fields);
    case _ => SameKeepsKinds(v);
  }

  lemma SameKeepsKinds(v: Json)
    ensures KeepsKinds(v, v)
  {
  }

  /** Unless booleans meet the integers 0 or 1, looking the same is agreeing. */
  lemma SameIsAgreeing(a: Json, b: Json)
    requires Unmixed(a, b)
    ensures PyEqual(Canon(a), Canon(b)) <==> Agree(a, b)
  {
    hide Canon, Agree, Erase;
    CanonKeepsKinds(a);
    CanonKeepsKinds(b);
    NormalForm(a, b);
    if PyEqual(Canon(a), Canon(b)) {
      EraseFaithful(Canon(a), Canon(b));
    }
  }

  /**
   No change is reported exactly when all nine sections agree up to volatile fields and list order,
   for such manifests that do not mix booleans with 0 and 1.
   */
  lemma NoChangesMeansAgreement(current: Json, next: Json)
    requires Regular(AsDict(current), AsDict(next))
    requires forall s :: s in SECTIONS ==> Unmixed(Section(AsDict(current), s), Section(AsDict(next), s))
    ensures !HasChanges(Compare(current, next)) <==>
              forall s :: s in SECTIONS ==> Agree(Section(AsDict(current), s), Section(AsDict(next), s))
  {
    hide Agree, Canon, PyEqual, HasChanges, Regular, Section;
    ChangesExactly(current, next);
    forall s | s in SECTIONS
      ensures SameSection(AsDict(current), AsDict(next), s) <==> Agree(Section(AsDict(current), s), Section(AsDict(next), s))
    {
      SameIsAgreeing(Section(AsDict(current), s), Section(AsDict(next), s));
    }
  }

  /** Somewhere one value holds a boolean where the other holds the integer it equals. */
  predicate Confuses(a: Json, b: Json) {
    match a
    case Bool(x) => b == Int(if x then 1 else 0)
    case Int(n) => b.Bool? && n == (if b.b then 1 else 0)
    case List(xs) => b.List? && exists i :: 0 <= i < |xs| && i < |b.items| && Confuses(xs[i], b.items[i])
    case Obj(f) => b.Obj? && exists k :: k in f && k in b.fields && Confuses(f[k], b.fields[k])
    case _ => false
  }

  /** Values equal in Python are the same exactly when they confuse nothing. */
  lemma {:induction false} ConfusionExactly(a: Json, b: Json)
    requires Erase(a) == Erase(b)
    ensures a == b <==> !Confuses(a, b)
    decreases a
  {
    match a
    case List(xs) =>
      var ys := b.items;
      forall i | 0 <= i < |xs| ensures i < |ys| && (xs[i] == ys[i] <==> !Confuses(xs[i], ys[i])) {
        assert EraseAll(xs)[i] == EraseAll(ys)[i];
        ConfusionExactly(xs[i], ys[i]);
      }
      assert xs == ys <==> forall i :: 0 <= i < |xs| ==> xs[i] == ys[i];
    case Obj(f) =>
      var g := b.fields;
      assert f.Keys == Erase(a).fields.Keys && g.Keys == Erase(b).fields.Keys;
      forall k | k in f ensures k in g && (f[k] == g[k] <==> !Confuses(f[k], g[k])) {
        assert Erase(f[k]) == Erase(a).fields[k] == Erase(g[k]);
        ConfusionExactly(f[k], g[k]);
      }
      assert f == g <==> forall k :: k in f ==> f[k] == g[k];
    case _ =>
  }

  lemma SectionAgreesExactly(a: Json, b: Json)
    ensures Agree(a, b) <==> PyEqual(Canon(a), Canon(b)) && !Confuses(Canon(a), Canon(b))
  {
    hide Agree, Canon, Erase, Confuses;
    NormalForm(a, b);
    if PyEqual(Canon(a), Canon(b)) {
      ConfusionExactly(Canon(a), Canon(b));
    }
    if Canon(a) == Canon(b) {
      ConfusionExactly(Canon(a), Canon(b));
    }
  }

  /**
   All nine sections agree exactly when no change is reported and no boolean stands, in the stable
   forms of a section, where the other has the integer it equals.
   */
  lemma AgreementExactly(current: Json, next: Json)
    requires Regular(AsDict(current), AsDict(next))
    ensures var c, n := AsDict(current), AsDict(next);
            (forall s :: s in SECTIONS ==> Agree(Section(c, s), Section(n, s))) <==>
              !HasChanges(Compare(current, next)) && forall s :: s in SECTIONS ==> !Confuses(Canon(Section(c, s)), Canon(Section(n, s)))
  {
    hide Agree, Canon, PyEqual, HasChanges, Regular, Section, Confuses;
    ChangesExactly(current, next);
    forall s | s in SECTIONS
      ensures Agree(Section(AsDict(current), s), Section(AsDict(next), s))
              <==> SameSection(AsDict(current), AsDict(next), s) && !Confuses(Canon(Section(AsDict(current), s)), Canon(Section(AsDict(next), s)))
    {
      SectionAgreesExactly(Section(AsDict(current), s), Section(AsDict(next), s));
    }
  }

  // ---------------------------------------------------------------- reordered components

  function WithComponents(d: Dict, items: seq<Json>): Dict {
    d["components" := List(items)]
  }

  ghost predicate Reordering(xs: seq<Json>, ys: seq<Json>) {
    multiset(xs) == multiset(ys)
  }

  lemma ReorderingAgrees(xs: seq<Json>, ys: seq<Json>)
    requires Reordering(xs, ys)
    ensures Agree(List(xs), List(ys)) && Seen(List(xs)) == Seen(List(ys))
  {
    var p := MultisetPermutation(xs, ys);
    forall i | 0 <= i < |xs| ensures Agree(xs[i], ys[p[i]]) {
      AgreeReflexive(xs[i]);
    }
    hide Agree, Canon;
    AgreeByPermutation(xs, ys, p);
    NormalForm(List(xs), List(ys));
  }

  /** Reordering the components leaves all nine sections in agreement. */
  lemma SectionsAgree(d: Dict, ys: seq<Json>)
    requires Get(d, "components").List? && Reordering(Components(d), ys)
    ensures forall s :: s in SECTIONS ==> Agree(Section(d, s), Section(WithComponents(d, ys), s))
    ensures forall s :: s in SECTIONS ==> SameSection(d, WithComponents(d, ys), s)
  {
    hide Agree, Canon, Erase, Reordering;
    forall s | s in SECTIONS
      ensures Agree(Section(d, s), Section(WithComponents(d, ys), s)) && SameSection(d, WithComponents(d, ys), s)
    {
      if s == "components" {
        ReorderingAgrees(Components(d), ys);
      } else {
        AgreeReflexive(Section(d, s));
      }
    }
  }

  lemma ReorderingKeepsIds(xs: seq<Json>, ys: seq<Json>)
    requires Reordering(xs, ys)
    ensures ById(xs).Keys == ById(ys).Keys
    ensures UniformItems(xs) ==> forall id :: id in ById(xs) && id in ById(ys) ==> Seen(Obj(ById(xs)[id])) == Seen(Obj(ById(ys)[id]))
  {
    hide ItemId, Erase, Canon, ById, Listed;
    assert forall v :: v in xs <==> v in ys by {
      assert forall v :: v in xs <==> v in multiset(xs);
    }
    forall id ensures id in ById(xs) <==> id in ById(ys)
      ensures UniformItems(xs) && id in ById(xs) && id in ById(ys) ==> Seen(Obj(ById(xs)[id])) == Seen(Obj(ById(ys)[id]))
    {
      ByIdLast(xs, id);
      ByIdLast(ys, id);
      if id in ById(xs) {
        var i :| 0 <= i < |xs| && Listed(xs[i], id) && xs[i] == Obj(ById(xs)[id]);
        assert xs[i] in ys;
      }
      if id in ById(ys) {
        var j :| 0 <= j < |ys| && Listed(ys[j], id) && ys[j] == Obj(ById(ys)[id]);
        assert ys[j] in xs;
      }
    }
  }

  lemma UniformUnseen(d: Dict, ys: seq<Json>)
    requires Get(d, "components").List? && Reordering(Components(d), ys) && UniformItems(Components(d))
    ensures !HasChanges(Compare(Obj(d), Obj(WithComponents(d, ys))))
  {
    hide ById, UniformItems, Reordering, SameSection, Canon, Erase, SortedKeys, Section;
    var n := WithComponents(d, ys);
    SectionsAgree(d, ys);
    ReorderingKeepsIds(Components(d), ys);
    assert Components(n) == ys;
    var cs, ns := ById(Components(d)), ById(ys);
    assert ns.Keys - cs.Keys == {} && cs.Keys - ns.Keys == {};
    assert (set id | id in cs && id in ns && !PyEqual(Canon(Obj(cs[id])), Canon(Obj(ns[id])))) == {};
    OtherCounts(d, ys);
  }

  lemma OtherCounts(d: Dict, ys: seq<Json>)
    ensures var n := WithComponents(d, ys);
            && Get(n, "dependency_edges") == Get(d, "dependency_edges")
            && Get(n, "environment_requirements") == Get(d, "environment_requirements")
            && Get(n, "credential_requirements") == Get(d, "credential_requirements")
  {
  }

  /** The list with its `k`-th element moved to the end. */
  function MovedLast(xs: seq<Json>, k: nat): seq<Json>
    requires k < |xs|
  {
    Without(xs, k) + [xs[k]]
  }

  /**
   A component that looks different from the last one of its id is enough: moving it to the end, which
   changes no section, is reported.
   */
  lemma MovedItemReported(d: Dict, k: nat, id: string)
    requires Get(d, "components").List? && k < |Components(d)| && Listed(Components(d)[k], id)
    requires id in ById(Components(d)) && Seen(Components(d)[k]) != Seen(Obj(ById(Components(d))[id]))
    ensures Reordering(Components(d), MovedLast(Components(d), k))
    ensures HasChanges(Compare(Obj(d), Obj(WithComponents(d, MovedLast(Components(d), k)))))
  {
    hide Canon, Erase, SortedKeys, ItemId, ChangedSections;
    var xs := Components(d);
    var ys := MovedLast(xs, k);
    WithoutMultiset(xs, k);
    assert ys[..|ys| - 1] == Without(xs, k) && ys[|ys| - 1] == xs[k];
    var cs, ns := ById(xs), ById(ys);
    assert id in ns && Obj(ns[id]) == xs[k];
    hide ById;
    var changed := set x | x in cs && x in ns && !PyEqual(Canon(Obj(cs[x])), Canon(Obj(ns[x])));
    assert id in changed;
    assert id in Compare(Obj(d), Obj(WithComponents(d, ys))).changedComponents;
  }

  /**
   Reordering the components of a manifest goes unreported, whatever the new order, exactly when its
   components of one id look the same.
   */
  lemma ReorderingUnseenExactly(d: Dict)
    requires Get(d, "components").List?
    ensures UniformItems(Components(d)) <==>
              forall ys :: Reordering(Components(d), ys) ==> !HasChanges(Compare(Obj(d), Obj(WithComponents(d, ys))))
  {
    hide Compare, HasChanges, Reordering, Canon, Erase, ItemId;
    var xs := Components(d);
    if UniformItems(xs) {
      forall ys | Reordering(xs, ys) ensures !HasChanges(Compare(Obj(d), Obj(WithComponents(d, ys)))) {
        UniformUnseen(d, ys);
      }
    } else {
      var i, j, id :| 0 <= i < |xs| && 0 <= j < |xs| && Listed(xs[i], id) && Listed(xs[j], id) && Seen(xs[i]) != Seen(xs[j]);
      ByIdLast(xs, id);
      var k := if Seen(xs[i]) != Seen(Obj(ById(xs)[id])) then i else j;
      MovedItemReported(d, k, id);
    }
  }

  function Two(f: Dict, g: Dict): Json {
    Obj(map["components" := List([Obj(f), Obj(g)])])
  }

  /** With two components under one id, a mere reordering is reported as a change. */
  lemma DuplicateIdsReportChange()
    ensures var f, g := map["id" := Str("a"), "v" := Int(2)], map["id" := Str("a"), "v" := Int(3)];
            var c, n := Two(f, g), Two(g, f);
            && (forall s :: s in SECTIONS ==> Agree(Section(c.fields, s), Section(n.fields, s)))
            && HasChanges(Compare(c, n))
  {
    hide Agree, Canon, SortedKeys, Section, ById, SameSection, ItemId;
    var f, g := map["id" := Str("a"), "v" := Int(2)], map["id" := Str("a"), "v" := Int(3)];
    SwapAgrees(f, g);
    LastOfTwo(f, g);
    LastOfTwo(g, f);
    LooksDifferent(f, g);
    var cs, ns := map["a" := g], map["a" := f];
    assert "a" in (set id | id in cs && id in ns && !PyEqual(Canon(Obj(cs[id])), Canon(Obj(ns[id]))));
    assert "a" in Compare(Two(f, g), Two(g, f)).changedComponents;
  }

  function One(f: Dict): Dict {
    map["components" := List([Obj(f)])]
  }

  /** Ids that look the same but read differently are reported although the sections look the same: true against one. */
  lemma BooleanIdReported()
    ensures var c, n := One(map["id" := Bool(true)]), One(map["id" := Int(1)]);
            (forall s :: s in SECTIONS ==> SameSection(c, n, s)) && HasChanges(Compare(Obj(c), Obj(n)))
  {
    var f, g := map["id" := Bool(true)], map["id" := Int(1)];
    BooleanIds(f, g);
    SameOnes(f, g);
    hide Canon, Erase, ItemId, SameSection, Section, Compare, HasChanges;
    NewIdReported(f, g);
  }

  lemma NewIdReported(f: Dict, g: Dict)
    requires ItemId(f) != ItemId(g) && ItemId(f) != "" && ItemId(g) != ""
    ensures HasChanges(Compare(Obj(One(f)), Obj(One(g))))
  {
    hide Canon, Erase, SortedKeys, ItemId, SameSection, ChangedSections, Section;
    OneById(f);
    OneById(g);
    hide ById;
    assert ItemId(g) in ById([Obj(g)]).Keys - ById([Obj(f)]).Keys;
    assert ItemId(g) in Compare(Obj(One(f)), Obj(One(g))).addedComponents;
  }

  lemma OneById(f: Dict)
    requires ItemId(f) != ""
    ensures ById([Obj(f)]).Keys == {ItemId(f)}
  {
    hide ItemId;
    var items := [Obj(f)];
    assert items[..0] == [];
    assert ById(items) == ById(items[..0])[ItemId(f) := f];
  }

  lemma BooleanIds(f: Dict, g: Dict)
    requires f == map["id" := Bool(true)] && g == map["id" := Int(1)]
    ensures ItemId(f) == "True" && ItemId(g) == "1"
    ensures Seen(Obj(f)) == Seen(Obj(g))
  {
    OneField("id", Bool(true));
    OneField("id", Int(1));
    hide Canon, Erase;
    IdTexts(f, g);
  }

  lemma IdTexts(f: Dict, g: Dict)
    requires Get(f, "id") == Bool(true) && Get(g, "id") == Int(1)
    ensures ItemId(f) == "True" && ItemId(g) == "1"
  {
    StripFixpoint("True");
    StripFixpoint("1");
    hide Strip;
  }

  lemma SameOnes(f: Dict, g: Dict)
    requires Seen(Obj(f)) == Seen(Obj(g))
    ensures forall s :: s in SECTIONS ==> SameSection(One(f), One(g), s)
  {
    OneItem(Obj(f));
    OneItem(Obj(g));
    hide Canon, Erase;
    forall s | s in SECTIONS ensures SameSection(One(f), One(g), s) {
      if s != "components" {
        assert Section(One(f), s) == Section(One(g), s);
      }
    }
  }

  lemma OneItem(v: Json)
    ensures Seen(List([v])) == List([Seen(v)])
  {
    assert CanonAll([v]) == [Canon(v)];
    assert [Canon(v)][..0] == [];
    assert SortByText([Canon(v)]) == [Canon(v)];
    assert EraseAll([Canon(v)]) == [Erase(Canon(v))];
  }

  lemma SwapAgrees(f: Dict, g: Dict)
    ensures forall s :: s in SECTIONS ==> Agree(Section(Two(f, g).fields, s), Section(Two(g, f).fields, s))
  {
    forall s | s in SECTIONS ensures Agree(Section(Two(f, g).fields, s), Section(Two(g, f).fields, s)) {
      if s == "components" {
        AgreeReflexive(Obj(f));
        AgreeReflexive(Obj(g));
        SwapTwo(Obj(f), Obj(g));
      } else {
        AgreeReflexive(Section(Two(f, g).fields, s));
      }
    }
  }

  lemma AgreeByPermutation(xs: seq<Json>, ys: seq<Json>, p: seq<nat>)
    requires Permutation(p, |xs|) && |ys| == |xs| && forall i :: 0 <= i < |xs| ==> Agree(xs[i], ys[p[i]])
    ensures Agree(List(xs), List(ys))
  {
  }

  lemma SwapTwo(x: Json, y: Json)
    requires Agree(x, x) && Agree(y, y)
    ensures Agree(List([x, y]), List([y, x]))
  {
    hide Agree;
    AgreeByPermutation([x, y], [y, x], [1, 0]);
  }

  /** What is seen of one field does not depend on the others. */
  lemma SeenField(f: Dict, key: string)
    requires key in f && key !in VOLATILE
    ensures Seen(Obj(f)).Obj? && key in Seen(Obj(f)).fields && Seen(Obj(f)).fields[key] == Seen(f[key])
  {
  }

  lemma LooksDifferent(f: Dict, g: Dict)
    requires f == map["id" := Str("a"), "v" := Int(2)] && g == map["id" := Str("a"), "v" := Int(3)]
    ensures !PyEqual(Canon(Obj(g)), Canon(Obj(f)))
  {
    SeenField(f, "v");
    SeenField(g, "v");
    assert Seen(Int(2)) == Int(2) && Seen(Int(3)) == Int(3);
  }

  lemma LastOfTwo(f: Dict, g: Dict)
    requires Get(f, "id") == Get(g, "id") == Str("a")
    ensures ById([Obj(f), Obj(g)]) == map["a" := g]
  {
    hide ItemId;
    PlainId(f);
    PlainId(g);
    assert [Obj(f)][..0] == [];
    assert ById([Obj(f)]) == map["a" := f];
    assert [Obj(f), Obj(g)][..1] == [Obj(f)];
  }

  lemma PlainId(f: Dict)
    requires Get(f, "id") == Str("a")
    ensures ItemId(f) == "a"
  {
    StripFixpoint("a");
  }

  lemma AgreeReflexive(v: Json)
    ensures Agree(v, v)
  {
    NormalForm(v, v);
  }

  lemma OneField(key: string, v: Json)
    requires key !in VOLATILE
    ensures Canon(Obj(map[key := v])) == Obj(map[key := Canon(v)])
    ensures Erase(Obj(map[key := v])) == Obj(map[key := Erase(v)])
  {
    assert Canon(Obj(map[key := v])).fields == map[key := Canon(v)];
    assert Erase(Obj(map[key := v])).fields == map[key := Erase(v)];
  }

  /** A boolean that becomes the integer it equals in Python is not reported, although the JSON differs. */
  lemma BooleanAgainstIntegerUnseen()
    ensures var c, n := Obj(map["package" := Obj(map["x" := Bool(true)])]), Obj(map["package" := Obj(map["x" := Int(1)])]);
            !HasChanges(Compare(c, n)) && !Agree(Section(c.fields, "package"), Section(n.fields, "package"))
  {
    var p, q := Obj(map["x" := Bool(true)]), Obj(map["x" := Int(1)]);
    ScalarsEqual();
    ScalarsDisagree();
    hide Agree, Canon, Erase;
    PackageUnseen(p, q);
  }

  lemma ScalarsDisagree()
    ensures !Agree(Obj(map["x" := Bool(true)]), Obj(map["x" := Int(1)]))
  {
    OneField("x", Bool(true));
    OneField("x", Int(1));
    assert map["x" := Bool(true)]["x"] != map["x" := Int(1)]["x"];
    hide Agree;
    NormalForm(Obj(map["x" := Bool(true)]), Obj(map["x" := Int(1)]));
  }

  lemma PackageUnseen(p: Json, q: Json)
    requires p.Obj? && q.Obj? && PyEqual(Canon(p), Canon(q))
    ensures var c, n := Obj(map["package" := p]), Obj(map["package" := q]);
            !HasChanges(Compare(c, n)) && Section(c.fields, "package") == p && Section(n.fields, "package") == q
  {
    hide Canon, Erase, Compare, HasChanges;
    var c, n := Obj(map["package" := p]), Obj(map["package" := q]);
    ChangesExactly(c, n);
    forall s | s in SECTIONS ensures SameSection(c.fields, n.fields, s) {
      if s != "package" {
        assert Section(c.fields, s) == Section(n.fields, s);
      }
    }
  }

  lemma ScalarsEqual()
    ensures Erase(Canon(Obj(map["x" := Bool(true)]))) == Erase(Canon(Obj(map["x" := Int(1)])))
  {
    OneField("x", Bool(true));
    OneField("x", Int(1));
  }
}
