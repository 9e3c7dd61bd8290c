/**
 Assembly of a capability draft from field patches: dotted paths are set in a nested dictionary, and
 the draft is handed out when no required field is missing or a whole draft was supplied.
 */
module DraftAssembler {
  import opened Canonical
  import opened Common
  import opened Json
  import opened Text

  // ---------------------------------------------------------------- paths

  /** `path.split(".")`. */
  function Split(path: string): (parts: seq<string>)
    ensures parts != []
  {
    if path == "" then [""]
    else
      var rest := Split(path[1..]);
      if path[0] == '.' then [""] + rest else [[path[0]] + rest[0]] + rest[1..]
  }

  function NonEmpty(parts: seq<string>): (r: seq<string>)
    ensures "" !in r
  {
    if parts == [] then [] else (if parts[0] == "" then [] else [parts[0]]) + NonEmpty(parts[1..])
  }

  /** The keys `_set_draft_value` walks. */
  function Parts(path: string): seq<string> {
    NonEmpty(Split(path))
  }

  function SetAt(d: Dict, parts: seq<string>, v: Json): Dict
    decreases |parts|
  {
    if parts == [] then d
    else if |parts| == 1 then d[parts[0] := v]
    else d[parts[0] := Obj(SetAt(AsDict(Get(d, parts[0])), parts[1..], v))]
  }

  /** `_draft_field_value`, which keeps empty parts. */
  function ReadAt(v: Json, parts: seq<string>): Option<Json> {
    if parts == [] then Some(v)
    else if !v.Obj? || parts[0] !in v.fields then None
    else ReadAt(v.fields[parts[0]], parts[1..])
  }

  // ---------------------------------------------------------------- assembly

  /** `meta` stands for the references, confidence and diagnostics, which are only carried along. */
  datatype Patch = Patch(path: string, value: Json, meta: Dict)

  datatype Failure = NoFailure | DraftFieldMissing | FieldGenerationIncomplete

  datatype Assembly = Assembly(draft: Option<Dict>, fieldState: map<string, Patch>, missing: seq<string>, failure: Failure)

  const REQUIRED := ["id", "name", "contributions", "install_plan", "usage", "evidence", "risk_level"]

  const ROOTS: set<string> := {
    "id", "name", "description", "source", "source_inventory", "components", "contributions", "install_plan", "usage",
    "effective_capabilities", "evidence", "credentials", "optional_features", "risk_level", "execution_policy", "notes",
    "runtime_footprint", "hooks", "materialization_plan", "manifest_candidate", "open_findings",
    "target_placement_proposals", "exposed_path_candidates"}

  predicate IsDraftField(path: string) {
    Split(path)[0] in ROOTS
  }

  predicate HasComponents(v: Json) {
    v.Obj? && exists k :: k in v.fields && v.fields[k].List? && v.fields[k].items != []
  }

  /** `_field_missing`. */
  predicate Missing(draft: Dict, field: string) {
    match ReadAt(Obj(draft), Split(field))
    case None => true
    case Some(v) =>
      if v.Null? then true
      else if field in {"install_plan", "usage"} then !v.List?
      else if field in {"id", "name", "risk_level"} then Strip(PyStr(v)) == ""
      else if field == "contributions" then !HasComponents(v)
      else if field == "evidence" then !v.List? || v.items == []
      else if v.Str? then Strip(v.s) == ""
      else v == List([]) || v == Obj(map[])
  }

  function MissingOf(draft: Dict, fields: seq<string>): seq<string> {
    if fields == [] then []
    else (if Missing(draft, fields[0]) then [fields[0]] else []) + MissingOf(draft, fields[1..])
  }

  function FieldState(patches: seq<Patch>): map<string, Patch> {
    if patches == [] then map[]
    else FieldState(patches[..|patches| - 1])[patches[|patches| - 1].path := patches[|patches| - 1]]
  }

  /** `_last_patch_value`. */
  function LastValue(patches: seq<Patch>, path: string): Json {
    if patches == [] then Null
    else if patches[|patches| - 1].path == path then patches[|patches| - 1].value
    else LastValue(patches[..|patches| - 1], path)
  }

  function Patched(draft: Dict, p: Patch): Dict {
    if IsDraftField(p.path) then SetAt(draft, Parts(p.path), p.value) else draft
  }

  function PatchAll(draft: Dict, patches: seq<Patch>): Dict {
    if patches == [] then draft
    else Patched(PatchAll(draft, patches[..|patches| - 1]), patches[|patches| - 1])
  }

  function StartDraft(bundle: Dict): Dict {
    if Get(bundle, "source").Obj? then map["source" := Get(bundle, "source")] else map[]
  }

  predicate HasDraftField(patches: seq<Patch>) {
    exists p :: p in patches && IsDraftField(p.path)
  }

  function Assembled(bundle: Dict, patches: seq<Patch>): Assembly {
    var whole := LastValue(patches, "full_draft");
    if whole.Obj? then Assembly(Some(whole.fields), FieldState(patches), [], NoFailure)
    else
      var draft := PatchAll(StartDraft(bundle), patches);
      var missing := MissingOf(draft, REQUIRED);
      if missing == [] then Assembly(Some(draft), FieldState(patches), [], NoFailure)
      else Assembly(None, FieldState(patches), missing, if HasDraftField(patches) then DraftFieldMissing else FieldGenerationIncomplete)
  }

  method FindLast(patches: seq<Patch>, path: string) returns (value: Json)
    ensures value == LastValue(patches, path)
  {
    var i := |patches|;
    assert patches[..i] == patches;
    while i > 0
      invariant 0 <= i <= |patches|
      invariant LastValue(patches, path) == LastValue(patches[..i], path)
    {
      i := i - 1;
      assert patches[..i + 1][..i] == patches[..i];
      if patches[i].path == path {
        return patches[i].value;
      }
    }
    return Null;
  }

  /** `_field_state_from_patches`. */
  method CollectFieldState(patches: seq<Patch>) returns (state: map<string, Patch>)
    ensures state == FieldState(patches)
  {
    state := map[];
    for i := 0 to |patches|
      invariant state == FieldState(patches[..i])
    {
      assert patches[..i + 1][..i] == patches[..i];
      state := state[patches[i].path := patches[i]];
    }
    assert patches[..|patches|] == patches;
  }

  /** The loop of `assemble` over the patches. */
  method ApplyPatches(start: Dict, patches: seq<Patch>) returns (draft: Dict)
    ensures draft == PatchAll(start, patches)
  {
    hide Patched, IsDraftField, SetAt, Parts;
    draft := start;
    for i := 0 to |patches|
      invariant draft == PatchAll(start, patches[..i])
    {
      var p := patches[i];
      PatchedSkips(draft, p);
      assert patches[..i + 1] == patches[..i] + [p];
      PatchAppend(start, patches[..i], p);
      if p.path != "full_draft" && IsDraftField(p.path) {
        draft := SetAt(draft, Parts(p.path), p.value);
      }
    }
    assert patches[..|patches|] == patches;
  }

  /** `assemble`. */
  method Assemble(bundle: Dict, patches: seq<Patch>) returns (result: Assembly)
    ensures result == Assembled(bundle, patches)
  {
    hide PatchAll, FieldState, LastValue, MissingOf, HasDraftField;
    var state := CollectFieldState(patches);
    var whole := FindLast(patches, "full_draft");
    if whole.Obj? {
      return Assembly(Some(whole.fields), state, [], NoFailure);
    }
    var draft := ApplyPatches(StartDraft(bundle), patches);
    var missing := MissingOf(draft, REQUIRED);
    if missing == [] {
      return Assembly(Some(draft), state, [], NoFailure);
    }
    return Assembly(None, state, missing, if HasDraftField(patches) then DraftFieldMissing else FieldGenerationIncomplete);
  }

  lemma PatchedSkips(draft: Dict, p: Patch)
    ensures Patched(draft, p) == if p.path != "full_draft" && IsDraftField(p.path) then SetAt(draft, Parts(p.path), p.value) else draft
  {
    hide SetAt, Parts;
    WholeIsNoField();
  }

  lemma WholeIsNoField()
    ensures !IsDraftField("full_draft")
  {
    WholeIsNoRoot();
    hide ROOTS, Split;
    NoDots("full_draft");
  }

  lemma WholeIsNoRoot()
    ensures "full_draft" !in ROOTS
  {
  }

  lemma {:induction false} NoDots(s: string)
    requires '.' !in s
    ensures Split(s) == [s]
  {
    if s != "" {
      NoDots(s[1..]);
      assert [s[0]] + s[1..] == s;
    }
  }

  // ---------------------------------------------------------------- missing fields

  /** Some entry of the contributions is a list with elements. */
  ghost predicate ContributesSomething(v: Json) {
    exists k, x :: v.Obj? && k in v.fields && v.fields[k].List? && x in v.fields[k].items
  }

  /** A required field is missing if it is absent or null, or of no use: which values are depends on the field. */
  lemma FieldMissingExactly(draft: Dict, field: string)
    requires field in REQUIRED
    ensures var v := Get(draft, field);
            Missing(draft, field) <==>
              || v.Null?
              || (field in {"id", "name", "risk_level"} && Strip(PyStr(v)) == "")
              || (field in {"install_plan", "usage"} && !v.List?)
              || (field == "contributions" && !ContributesSomething(v))
              || (field == "evidence" && v != List(Items(v)))
              || (field == "evidence" && Items(v) == [])
  {
    RequiredPlain(field);
    NoDots(field);
    var v := Get(draft, field);
    assert ReadAt(Obj(draft), [field]) == if field in draft then Some(draft[field]) else None by {
      assert [field][1..] == [];
    }
    hide Strip, PyStr, Split, ReadAt;
    if v.Obj? {
      assert HasComponents(v) <==> ContributesSomething(v) by {
        if HasComponents(v) {
          var k :| k in v.fields && v.fields[k].List? && v.fields[k].items != [];
          assert v.fields[k].items[0] in v.fields[k].items;
        }
      }
    }
  }

  lemma RequiredPlain(field: string)
    requires field in REQUIRED
    ensures '.' !in field
  {
  }

  /** The missing fields are reported in the order in which they are required. */
  lemma {:induction false} MissingInOrder(draft: Dict, fields: seq<string>, i: nat, j: nat) returns (p: nat, q: nat)
    requires i < j < |MissingOf(draft, fields)|
    ensures p < q < |fields| && fields[p] == MissingOf(draft, fields)[i] && fields[q] == MissingOf(draft, fields)[j]
  {
    hide Missing;
    var rest := MissingOf(draft, fields[1..]);
    if !Missing(draft, fields[0]) {
      p, q := MissingInOrder(draft, fields[1..], i, j);
      p, q := p + 1, q + 1;
    } else if i > 0 {
      p, q := MissingInOrder(draft, fields[1..], i - 1, j - 1);
      p, q := p + 1, q + 1;
    } else {
      MissingExactly(draft, fields[1..]);
      assert rest[j - 1] in rest;
      var k :| 0 <= k < |fields[1..]| && fields[1..][k] == rest[j - 1];
      p, q := 0, k + 1;
    }
  }

  /** A failed assembly says that a field is missing if any patch was for a draft field, and that nothing was generated otherwise. */
  lemma FailureExactly(bundle: Dict, patches: seq<Patch>)
    ensures var a := Assembled(bundle, patches);
            && (a.draft.Some? <==> a.failure == NoFailure) && (a.draft.Some? <==> a.missing == [])
            && (a.failure == DraftFieldMissing ==> exists i :: 0 <= i < |patches| && Split(patches[i].path)[0] in ROOTS)
            && (a.failure == FieldGenerationIncomplete ==> forall i :: 0 <= i < |patches| ==> Split(patches[i].path)[0] !in ROOTS)
  {
    hide Split, PatchAll, FieldState, LastValue, MissingOf, ROOTS;
    if HasDraftField(patches) {
      var p :| p in patches && IsDraftField(p.path);
      var i :| 0 <= i < |patches| && patches[i] == p;
    }
  }

  // ---------------------------------------------------------------- setting and reading paths

  /** Neither path runs through the other. */
  predicate Apart(p: seq<string>, q: seq<string>) {
    !(p <= q) && !(q <= p)
  }

  lemma ApartTails(p: seq<string>, q: seq<string>)
    requires Apart(p, q) && p[0] == q[0]
    ensures |p| > 1 && |q| > 1 && Apart(p[1..], q[1..])
  {
    assert p == [p[0]] + p[1..] && q == [q[0]] + q[1..];
  }

  /** A path reads back what was set there. */
  lemma {:induction false} SetThenRead(d: Dict, p: seq<string>, v: Json)
    requires p != []
    ensures ReadAt(Obj(SetAt(d, p, v)), p) == Some(v)
    decreases |p|
  {
    if |p| > 1 {
      SetThenRead(AsDict(Get(d, p[0])), p[1..], v);
    }
  }

  /** A path set leaves what is read at a path apart from it. */
  lemma {:induction false} SetReadApart(d: Dict, p: seq<string>, v: Json, q: seq<string>)
    requires Apart(p, q)
    ensures ReadAt(Obj(SetAt(d, p, v)), q) == ReadAt(Obj(d), q)
    decreases |p|
  {
    if p[0] == q[0] {
      ApartTails(p, q);
      SetReadApart(AsDict(Get(d, p[0])), p[1..], v, q[1..]);
    }
  }

  function Child(d: Dict, p: seq<string>, v: Json): Json
    requires p != []
  {
    if |p| == 1 then v else Obj(SetAt(AsDict(Get(d, p[0])), p[1..], v))
  }

  lemma SetHead(d: Dict, p: seq<string>, v: Json)
    requires p != []
    ensures SetAt(d, p, v) == d[p[0] := Child(d, p, v)]
  {
  }

  lemma GetOther(d: Dict, a: string, b: string, v: Json, w: Json)
    requires a != b
    ensures Get(d[a := v], b) == Get(d, b) && Get(d[b := w], a) == Get(d, a)
  {
  }

  lemma SameChild(d: Dict, e: Dict, p: seq<string>, v: Json)
    requires p != [] && Get(d, p[0]) == Get(e, p[0])
    ensures Child(d, p, v) == Child(e, p, v)
  {
  }

  lemma SameHead(d: Dict, p: seq<string>, v: Json, q: seq<string>, w: Json)
    requires |p| > 1 && |q| > 1 && p[0] == q[0]
    ensures SetAt(SetAt(d, p, v), q, w) == d[p[0] := Obj(SetAt(SetAt(AsDict(Get(d, p[0])), p[1..], v), q[1..], w))]
  {
    SetHead(d, p, v);
    SetHead(SetAt(d, p, v), q, w);
  }

  lemma OtherHead(d: Dict, p: seq<string>, v: Json, q: seq<string>, w: Json)
    requires p != [] && q != [] && p[0] != q[0]
    ensures SetAt(SetAt(d, p, v), q, w) == d[p[0] := Child(d, p, v)][q[0] := Child(d, q, w)]
  {
    SetHead(d, p, v);
    SetHead(SetAt(d, p, v), q, w);
    hide SetAt, Child;
    GetOther(d, p[0], q[0], Child(d, p, v), Child(d, q, w));
    SameChild(d, SetAt(d, p, v), q, w);
  }

  lemma UpdatesCommute(d: Dict, a: string, b: string, v: Json, w: Json)
    requires a != b
    ensures d[a := v][b := w] == d[b := w][a := v]
  {
  }

  /** Paths apart from each other may be set in either order. */
  lemma {:induction false} SetsCommute(d: Dict, p: seq<string>, v: Json, q: seq<string>, w: Json)
    requires Apart(p, q)
    ensures SetAt(SetAt(d, p, v), q, w) == SetAt(SetAt(d, q, w), p, v)
    decreases |p|
  {
    hide SetAt, Child;
    if p[0] == q[0] {
      ApartTails(p, q);
      SameHead(d, p, v, q, w);
      SameHead(d, q, w, p, v);
      SetsCommute(AsDict(Get(d, p[0])), p[1..], v, q[1..], w);
    } else {
      OtherHead(d, p, v, q, w);
      OtherHead(d, q, w, p, v);
      UpdatesCommute(d, p[0], q[0], Child(d, p, v), Child(d, q, w));
    }
  }

  lemma {:induction false} AllKept(parts: seq<string>)
    ensures "" !in parts ==> NonEmpty(parts) == parts
  {
    if parts != [] {
      AllKept(parts[1..]);
      assert parts == [parts[0]] + parts[1..];
    }
  }

  lemma {:induction false} ReadBelow(v: Json, parts: seq<string>)
    requires parts != [] && ReadAt(v, parts).Some?
    ensures v decreases to ReadAt(v, parts).value
  {
    if |parts| > 1 {
      ReadBelow(v.fields[parts[0]], parts[1..]);
    }
  }

  lemma {:induction false} ReadBackParts(parts: seq<string>, v: Json)
    requires parts != []
    ensures ReadAt(Obj(SetAt(map[], NonEmpty(parts), v)), parts) == Some(v) <==> "" !in parts
  {
    if parts[0] != "" {
      var rest := parts[1..];
      if NonEmpty(rest) == [] {
        if rest != [] && ReadAt(v, rest).Some? {
          ReadBelow(v, rest);
        }
        assert "" !in parts ==> NonEmpty(rest) == rest by { AllKept(rest); }
      } else {
        ReadBackParts(rest, v);
        assert NonEmpty(parts)[1..] == NonEmpty(rest);
      }
    }
  }

  /** In an empty draft a path reads back what was set there exactly when none of its parts is empty. */
  lemma ReadBackExactly(path: string, v: Json)
    ensures ReadAt(Obj(SetAt(map[], Parts(path), v)), Split(path)) == Some(v) <==> "" !in Split(path)
  {
    ReadBackParts(Split(path), v);
  }

  // ---------------------------------------------------------------- order of patches

  /** The patches set different paths, none of which runs through another. */
  ghost predicate Independent(p: Patch, q: Patch) {
    p.path != q.path && (IsDraftField(p.path) && IsDraftField(q.path) ==> Apart(Parts(p.path), Parts(q.path)))
  }

  ghost predicate AllIndependent(s: seq<Patch>) {
    forall i, j :: 0 <= i < j < |s| ==> Independent(s[i], s[j])
  }

  lemma PatchesCommute(d: Dict, p: Patch, q: Patch)
    requires Independent(p, q)
    ensures Patched(Patched(d, p), q) == Patched(Patched(d, q), p)
  {
    hide SetAt, Parts, IsDraftField, Apart;
    if IsDraftField(p.path) && IsDraftField(q.path) {
      SetsCommute(d, Parts(p.path), p.value, Parts(q.path), q.value);
    }
  }

  lemma PatchAppend(d: Dict, s: seq<Patch>, p: Patch)
    ensures PatchAll(d, s + [p]) == Patched(PatchAll(d, s), p)
    ensures FieldState(s + [p]) == FieldState(s)[p.path := p]
    ensures LastValue(s + [p], "full_draft") == if p.path == "full_draft" then p.value else LastValue(s, "full_draft")
  {
    assert (s + [p])[..|s|] == s;
  }

  /** What a run of patches computes: the draft, the state of the fields and the whole draft. */
  datatype Effect = Effect(draft: Dict, state: map<string, Patch>, whole: Json)

  function EffectOf(d: Dict, s: seq<Patch>): Effect {
    Effect(PatchAll(d, s), FieldState(s), LastValue(s, "full_draft"))
  }

  lemma EffectAppend(d: Dict, s: seq<Patch>, t: seq<Patch>, p: Patch)
    requires EffectOf(d, s) == EffectOf(d, t)
    ensures EffectOf(d, s + [p]) == EffectOf(d, t + [p])
  {
    hide Patched;
    PatchAppend(d, s, p);
    PatchAppend(d, t, p);
  }

  lemma EffectSwap(d: Dict, s: seq<Patch>, p: Patch, q: Patch)
    requires Independent(p, q)
    ensures EffectOf(d, s + [p] + [q]) == EffectOf(d, s + [q] + [p])
  {
    hide Patched, PatchAll, FieldState, LastValue;
    PatchAppend(d, s, p);
    PatchAppend(d, s, q);
    PatchAppend(d, s + [p], q);
    PatchAppend(d, s + [q], p);
    PatchesCommute(PatchAll(d, s), p, q);
    var state := FieldState(s);
    assert state[p.path := p][q.path := q] == state[q.path := q][p.path := p];
  }

  /** A patch independent of those after it may be applied last. */
  lemma {:induction false} MoveLast(d: Dict, s: seq<Patch>, p: Patch, t: seq<Patch>)
    requires forall q :: q in t ==> Independent(p, q)
    ensures EffectOf(d, s + [p] + t) == EffectOf(d, s + t + [p])
    decreases |t|
  {
    hide EffectOf, Independent;
    if t == [] {
      assert s + [p] + t == s + t + [p];
    } else {
      var n := |t| - 1;
      var init, q := t[..n], t[n];
      assert t == init + [q];
      MoveLast(d, s, p, init);
      EffectAppend(d, s + [p] + init, s + init + [p], q);
      EffectSwap(d, s + init, p, q);
      assert s + [p] + t == s + [p] + init + [q];
      assert s + t + [p] == s + init + [q] + [p];
    }
  }

  lemma MoveOut(d: Dict, t: seq<Patch>, j: nat)
    requires j < |t| && AllIndependent(t)
    ensures AllIndependent(Without(t, j)) && EffectOf(d, Without(t, j) + [t[j]]) == EffectOf(d, t)
  {
    hide EffectOf, Independent;
    var before, after := t[..j], t[j + 1..];
    forall q | q in after ensures Independent(t[j], q) {
      var i :| 0 <= i < |after| && after[i] == q;
      assert after[i] == t[j + 1 + i];
    }
    assert t == before + [t[j]] + after;
    MoveLast(d, before, t[j], after);
  }

  lemma {:induction false} SameEffect(d: Dict, s: seq<Patch>, t: seq<Patch>)
    requires multiset(s) == multiset(t) && AllIndependent(t)
    ensures EffectOf(d, s) == EffectOf(d, t)
    decreases |s|
  {
    hide EffectOf, AllIndependent;
    assert |s| == |t| by { assert |multiset(s)| == |s| && |multiset(t)| == |t|; }
    if s != [] {
      var n := |s| - 1;
      var p := s[n];
      assert p in multiset(t);
      var j :| 0 <= j < |t| && t[j] == p;
      var init, rest := s[..n], Without(t, j);
      WithoutMultiset(t, j);
      assert s == init + [p];
      CancelOne(multiset(init), multiset(rest), p);
      hide *;
      MoveOut(d, t, j);
      SameEffect(d, init, rest);
      EffectAppend(d, init, rest, p);
    }
  }

  /** Assembling does not depend on the order of patches whose paths are independent. */
  lemma AssembleOrderFree(bundle: Dict, s: seq<Patch>, t: seq<Patch>)
    requires multiset(s) == multiset(t) && AllIndependent(t)
    ensures Assembled(bundle, s) == Assembled(bundle, t)
  {
    hide AllIndependent, PatchAll, FieldState, LastValue, MissingOf, IsDraftField;
    SameEffect(StartDraft(bundle), s, t);
    assert forall p :: p in s <==> p in t by {
      assert forall p :: p in s <==> p in multiset(s);
    }
  }

  // ---------------------------------------------------------------- what a draft contains

  lemma {:induction false} LaterPatchesKeep(d: Dict, s: seq<Patch>, n: nat, q: seq<string>)
    requires n <= |s|
    requires forall i :: n <= i < |s| && IsDraftField(s[i].path) ==> Apart(Parts(s[i].path), q)
    ensures ReadAt(Obj(PatchAll(d, s)), q) == ReadAt(Obj(PatchAll(d, s[..n])), q)
    decreases |s|
  {
    hide SetAt, ReadAt, IsDraftField, Parts, Apart;
    if n == |s| {
      assert s[..n] == s;
    } else {
      var init, last := s[..|s| - 1], s[|s| - 1];
      LaterPatchesKeep(d, init, n, q);
      assert init[..n] == s[..n];
      if IsDraftField(last.path) {
        SetReadApart(PatchAll(d, init), Parts(last.path), last.value, q);
      }
    }
  }

  /**
   The draft holds at a patch's path that patch's value, unless a later patch sets the path, a part of
   it, or a path through it.
   */
  lemma LastPatchWins(d: Dict, s: seq<Patch>, n: nat)
    requires n < |s| && IsDraftField(s[n].path) && "" !in Split(s[n].path)
    requires forall i :: n < i < |s| && IsDraftField(s[i].path) ==> Apart(Parts(s[i].path), Parts(s[n].path))
    ensures ReadAt(Obj(PatchAll(d, s)), Split(s[n].path)) == Some(s[n].value)
  {
    hide SetAt, ReadAt, IsDraftField, Split, Apart;
    var p := s[n];
    AllKept(Split(p.path));
    LaterPatchesKeep(d, s, n + 1, Parts(p.path));
    assert s[..n + 1][..n] == s[..n];
    SetThenRead(PatchAll(d, s[..n]), Parts(p.path), p.value);
  }

  lemma {:induction false} MissingExactly(draft: Dict, fields: seq<string>)
    ensures forall f :: f in MissingOf(draft, fields) <==> f in fields && Missing(draft, f)
  {
    hide Missing;
    if fields != [] {
      MissingExactly(draft, fields[1..]);
      assert forall f :: f in fields <==> f == fields[0] || f in fields[1..];
    }
  }

  /**
   A draft is handed out exactly when a whole draft was supplied or no required field is missing, and
   the missing fields are reported exactly when no draft is.
   */
  lemma DraftExactly(bundle: Dict, patches: seq<Patch>)
    ensures var a := Assembled(bundle, patches);
            var built := PatchAll(StartDraft(bundle), patches);
            && (a.draft.Some? <==> LastValue(patches, "full_draft").Obj? || forall f :: f in REQUIRED ==> !Missing(built, f))
            && (a.draft.Some? <==> a.missing == []) && (a.draft.Some? <==> a.failure == NoFailure)
            && (a.draft.None? ==> forall f :: f in a.missing <==> f in REQUIRED && Missing(built, f))
  {
    hide Missing, PatchAll, LastValue, FieldState, IsDraftField, MissingOf;
    var built := PatchAll(StartDraft(bundle), patches);
    MissingExactly(built, REQUIRED);
    var missing := MissingOf(built, REQUIRED);
    if missing != [] {
      assert missing[0] in missing;
    }
  }

  /** A whole draft is handed out even if it lacks every required field. */
  lemma WholeDraftUnchecked(bundle: Dict)
    ensures var a := Assembled(bundle, [Patch("full_draft", Obj(map[]), map[])]);
            a.draft == Some(map[]) && a.missing == [] && forall f :: f in REQUIRED ==> Missing(a.draft.value, f)
  {
    var p := Patch("full_draft", Obj(map[]), map[]);
    assert [p][|[p]| - 1] == p;
    forall f | f in REQUIRED ensures Missing(map[], f) {
      EmptyMisses(f);
    }
    hide Missing, MissingOf;
  }

  lemma EmptyMisses(f: string)
    ensures Missing(map[], f)
  {
    assert ReadAt(Obj(map[]), Split(f)) == None;
  }

  // ---------------------------------------------------------------- draft fields

  lemma {:induction false} SplitHead(path: string, root: string)
    requires '.' !in root
    ensures Split(path)[0] == root <==> path == root || root + "." <= path
    ensures '.' !in Split(path)[0]
  {
    if path == "" {
    } else if path[0] == '.' {
      if root == "" {
        assert path[..1] == root + ".";
      } else {
        assert root[0] in root && (root + ".")[0] == root[0];
      }
    } else if root == "" {
      SplitHead(path[1..], "");
    } else {
      SplitHead(path[1..], root[1..]);
      assert path == [path[0]] + path[1..] && root == [root[0]] + root[1..];
      assert root + "." == [root[0]] + (root[1..] + ".");
      if Split(path)[0] == root {
        assert Split(path)[0][0] == path[0] && Split(path)[0][1..] == Split(path[1..])[0];
      }
      if root + "." <= path {
        assert path[0] == root[0] && root[1..] + "." <= path[1..] by {
          assert path[..|root| + 1] == root + ".";
          assert path[1..][..|root|] == (root + ".")[1..] == root[1..] + ".";
        }
      }
    }
  }

  /** A path is one of a draft field if it is a field of the draft or leads into one. */
  lemma DraftFieldExactly(path: string)
    ensures IsDraftField(path) <==>
              exists root :: root in {
                "id", "name", "description", "source", "source_inventory", "components", "contributions", "install_plan", "usage",
                "effective_capabilities", "evidence", "credentials", "optional_features", "risk_level", "execution_policy", "notes",
                "runtime_footprint", "hooks", "materialization_plan", "manifest_candidate", "open_findings",
                "target_placement_proposals", "exposed_path_candidates"} && (path == root || root + "." <= path)
  {
    var head := Split(path)[0];
    SplitHead(path, "");
    SplitHead(path, head);
    forall root | root in ROOTS ensures Split(path)[0] == root <==> path == root || root + "." <= path {
      RootsPlain(root);
      SplitHead(path, root);
    }
    hide Split;
  }

  lemma RootsPlain(root: string)
    requires root in ROOTS
    ensures '.' !in root && root != ""
  {
    if !BriefRoot(root) {
      LongRootsPlain(root);
    } else {
      BriefRootsPlain(root);
    }
  }

  predicate BriefRoot(root: string) {
    root in {"id", "name", "description", "source", "source_inventory", "components", "contributions", "install_plan",
             "usage", "hooks", "notes", "evidence"}
  }

  lemma BriefRootsPlain(root: string)
    requires BriefRoot(root)
    ensures '.' !in root && root != ""
  {
  }

  lemma LongRootsPlain(root: string)
    requires root in ROOTS && !BriefRoot(root)
    ensures '.' !in root && root != ""
  {
  }

  /** The bundle's source, where it is a dictionary, is in the draft unless a patch leads there. */
  lemma SourceCarried(bundle: Dict, patches: seq<Patch>)
    requires forall i :: 0 <= i < |patches| && IsDraftField(patches[i].path) ==> Split(patches[i].path)[0] != "source"
    ensures var built := PatchAll(StartDraft(bundle), patches);
            Get(built, "source") == if Get(bundle, "source").Obj? then Get(bundle, "source") else Null
  {
    var start := StartDraft(bundle);
    hide SetAt, PatchAll, ReadAt, Apart, Split, Parts, IsDraftField;
    forall i | 0 <= i < |patches| && IsDraftField(patches[i].path) ensures Apart(Parts(patches[i].path), ["source"]) {
      HeadPart(patches[i].path);
      HeadsApart(Parts(patches[i].path), "source");
    }
    LaterPatchesKeep(start, patches, 0, ["source"]);
    assert patches[..0] == [];
    NothingPatched(start);
    ReadOne(start, "source");
    ReadOne(PatchAll(start, patches), "source");
  }

  lemma NothingPatched(d: Dict)
    ensures PatchAll(d, []) == d
  {
  }

  lemma HeadsApart(p: seq<string>, key: string)
    requires p != [] && p[0] != key
    ensures Apart(p, [key])
  {
  }

  lemma ReadOne(d: Dict, key: string)
    ensures ReadAt(Obj(d), [key]) == if key in d then Some(d[key]) else None
  {
    assert [key][1..] == [];
  }

  lemma HeadPart(path: string)
    requires IsDraftField(path)
    ensures Parts(path) != [] && Parts(path)[0] == Split(path)[0]
  {
    RootsPlain(Split(path)[0]);
    hide ROOTS, Split;
  }
}
