/**
 Composition of the selected branch's transcript: the walk up the branch parents with cycle
 detection, and the stitching of preorder segments at fork items.

 `entries` is the entry dictionary in insertion order; the only assumption on it is that the key
 of an entry is the entry's id, so ids are distinct (`WellKeyed`). Nothing is assumed of the
 binding dictionary: keys, ids and parent links are arbitrary and may be cyclic.
 */
module BranchTree {
  import opened Common
  import opened Text

  /** A timestamp is unusable when it is blank, unparsable or has no time zone. */
  datatype Stamp = Unusable | At(instant: int)

  datatype Entry = Entry(id: string, parent: Option<string>, branch: string, kind: string, stamp: Stamp)
  {
    function Time(): int {
      if stamp.At? then stamp.instant else 0
    }
  }

  datatype Binding = Binding(id: string, parentId: string, baseItemId: string)

  datatype Tree = Tree(entries: seq<Entry>, bindings: map<string, Binding>)

  datatype TreeError =
    | BranchRequired
    | BranchNotFound(id: string)
    | ParentCycle(id: string)
    | BaseRequired
    | BaseNotFound(id: string)
    | BaseNotInParent(id: string)
    | Unorderable

  ghost predicate DistinctIds(s: seq<Entry>) {
    forall i, j :: 0 <= i < j < |s| ==> s[i].id != s[j].id
  }

  ghost predicate WellKeyed(tree: Tree) {
    DistinctIds(tree.entries)
  }

  // ---------------------------------------------------------------- the ancestor chain

  function Unseen(tree: Tree, seen: set<string>): set<string> {
    set k | k in tree.bindings && Strip(tree.bindings[k].id) !in seen
  }

  function Validate(tree: Tree, id: string): (r: Result<string, TreeError>)
    ensures r.Ok? ==> r.value == Strip(id) && r.value in tree.bindings
  {
    var key := Strip(id);
    if key == "" then Err(BranchRequired)
    else if key !in tree.bindings then Err(BranchNotFound(key))
    else Ok(key)
  }

  /** The chain that ends in the binding stored under `key`, root first. */
  function ChainFrom(tree: Tree, key: string, seen: set<string>): (r: Result<seq<Binding>, TreeError>)
    requires key in tree.bindings
    ensures r.Ok? ==> 0 < |r.value| <= |Unseen(tree, seen)|
    decreases |Unseen(tree, seen)|
  {
    var binding := tree.bindings[key];
    var current := Strip(binding.id);
    if current in seen then Err(ParentCycle(current))
    else
      var parent := Strip(binding.parentId);
      assert Unseen(tree, seen + {current}) < Unseen(tree, seen) by {
        assert key in Unseen(tree, seen) && key !in Unseen(tree, seen + {current});
      }
      StrictSubsetSmaller(Unseen(tree, seen + {current}), Unseen(tree, seen));
      if parent == "" then Ok([binding])
      else
        match Validate(tree, parent)
        case Err(e) => Err(e)
        case Ok(next) =>
          match ChainFrom(tree, next, seen + {current})
          case Err(e) => Err(e)
          case Ok(c) => Ok(c + [binding])
  }

  function Chain(tree: Tree, id: string): Result<seq<Binding>, TreeError> {
    match Validate(tree, id)
    case Err(e) => Err(e)
    case Ok(key) => ChainFrom(tree, key, {})
  }

  lemma StrictSubsetSmaller<T>(a: set<T>, b: set<T>)
    requires a < b
    ensures |a| < |b|
  {
    var x :| x in b && x !in a;
    SubsetNotLarger(a, b - {x});
  }

  lemma {:induction false} SubsetNotLarger<T>(a: set<T>, b: set<T>)
    requires a <= b
    ensures |a| <= |b|
  {
    if a != {} {
      var x :| x in a;
      SubsetNotLarger(a - {x}, b - {x});
    }
  }

  /** What a chain is, without reference to how it is found: linked by parents, rooted, and acyclic. */
  ghost predicate IsChain(tree: Tree, id: string, c: seq<Binding>) {
    && c != []
    && Links(tree, Strip(id), c[|c| - 1])
    && Strip(c[0].parentId) == ""
    && (forall i :: 0 < i < |c| ==> Links(tree, Strip(c[i].parentId), c[i - 1]))
    && (forall i, j :: 0 <= i < j < |c| ==> Strip(c[i].id) != Strip(c[j].id))
  }

  ghost predicate Links(tree: Tree, key: string, b: Binding) {
    key != "" && key in tree.bindings && tree.bindings[key] == b
  }

  lemma {:induction false} ChainFromSound(tree: Tree, key: string, seen: set<string>)
    requires key in tree.bindings && key != "" && Stripped(key)
    requires ChainFrom(tree, key, seen).Ok?
    ensures var c := ChainFrom(tree, key, seen).value;
            IsChain(tree, key, c) && forall i :: 0 <= i < |c| ==> Strip(c[i].id) !in seen
    decreases |Unseen(tree, seen)|
  {
    StripFixpoint(key);
    var binding := tree.bindings[key];
    var current := Strip(binding.id);
    var parent := Strip(binding.parentId);
    if parent != "" {
      StripFixpoint(binding.parentId);
      assert key in Unseen(tree, seen) && key !in Unseen(tree, seen + {current});
      StrictSubsetSmaller(Unseen(tree, seen + {current}), Unseen(tree, seen));
      ChainFromSound(tree, parent, seen + {current});
    }
  }

  /** All but the last binding of a chain is the chain of the parent. */
  lemma ChainPrefix(tree: Tree, id: string, c: seq<Binding>)
    requires IsChain(tree, id, c) && |c| > 1
    ensures IsChain(tree, c[|c| - 1].parentId, c[..|c| - 1])
    ensures IsChain(tree, Strip(c[|c| - 1].parentId), c[..|c| - 1])
  {
    hide Strip;
    var n := |c| - 1;
    StripFixpoint(c[n].parentId);
    assert Links(tree, Strip(c[n].parentId), c[n - 1]);
  }

  lemma {:induction false} ChainFromComplete(tree: Tree, key: string, seen: set<string>, c: seq<Binding>)
    requires key != "" && Stripped(key) && IsChain(tree, key, c)
    requires forall i :: 0 <= i < |c| ==> Strip(c[i].id) !in seen
    ensures key in tree.bindings && ChainFrom(tree, key, seen) == Ok(c)
    decreases |c|
  {
    hide Strip;
    StripFixpoint(key);
    var n := |c| - 1;
    var current := Strip(c[n].id);
    if n == 0 {
      assert c == [c[0]];
    } else {
      var parent := Strip(c[n].parentId);
      StripFixpoint(c[n].parentId);
      ChainPrefix(tree, key, c);
      ChainFromComplete(tree, parent, seen + {current}, c[..n]);
      assert c[..n] + [c[n]] == c;
    }
  }

  /** The walk finds a chain exactly when there is one, and then it is the only one. */
  lemma ChainExact(tree: Tree, id: string, c: seq<Binding>)
    ensures Chain(tree, id) == Ok(c) <==> IsChain(tree, id, c)
    ensures IsChain(tree, id, c) ==> |c| <= |tree.bindings|
  {
    StripFixpoint(id);
    var key := Strip(id);
    if IsChain(tree, id, c) {
      ChainFromComplete(tree, key, {}, c);
      SubsetNotLarger(Unseen(tree, {}), tree.bindings.Keys);
    }
    if Chain(tree, id) == Ok(c) {
      ChainFromSound(tree, key, {});
    }
  }

  /** The way up from a branch, following parents, no branch twice. */
  ghost predicate Climb(tree: Tree, id: string, up: seq<Binding>) {
    && up != []
    && Links(tree, Strip(id), up[0])
    && (forall i :: 0 < i < |up| ==> Links(tree, Strip(up[i - 1].parentId), up[i]))
    && (forall i, j :: 0 <= i < j < |up| ==> Strip(up[i].id) != Strip(up[j].id))
  }

  ghost predicate Passed(up: seq<Binding>, branch: string) {
    exists i :: 0 <= i < |up| && Strip(up[i].id) == branch
  }

  /** The way up ends at a parent that is missing or was passed already. */
  ghost predicate StuckAbove(tree: Tree, up: seq<Binding>, seen: set<string>, e: TreeError)
    requires up != []
  {
    var parent := Strip(up[|up| - 1].parentId);
    && parent != ""
    && if parent !in tree.bindings then e == BranchNotFound(parent)
       else
         var branch := Strip(tree.bindings[parent].id);
         (Passed(up, branch) || branch in seen) && e == ParentCycle(branch)
  }

  lemma {:induction false} ClimbGetsStuck(tree: Tree, key: string, seen: set<string>) returns (up: seq<Binding>)
    requires key in tree.bindings && key != "" && Stripped(key) && ChainFrom(tree, key, seen).Err?
    requires Strip(tree.bindings[key].id) !in seen
    ensures Climb(tree, key, up) && StuckAbove(tree, up, seen, ChainFrom(tree, key, seen).error)
    ensures forall i :: 0 <= i < |up| ==> Strip(up[i].id) !in seen
    decreases |Unseen(tree, seen)|
  {
    StripFixpoint(key);
    var binding := tree.bindings[key];
    var current, parent := Strip(binding.id), Strip(binding.parentId);
    StripFixpoint(binding.parentId);
    hide Strip;
    up := [binding];
    if parent in tree.bindings {
      var above := Strip(tree.bindings[parent].id);
      if above == current {
        assert Strip(up[0].id) == above;
      } else if above !in seen {
        assert key in Unseen(tree, seen) && key !in Unseen(tree, seen + {current});
        StrictSubsetSmaller(Unseen(tree, seen + {current}), Unseen(tree, seen));
        var rest := ClimbGetsStuck(tree, parent, seen + {current});
        up := [binding] + rest;
        ClimbFrom(tree, key, binding, rest, seen, ChainFrom(tree, parent, seen + {current}).error);
      }
    }
  }

  lemma ClimbFrom(tree: Tree, key: string, binding: Binding, rest: seq<Binding>, seen: set<string>, e: TreeError)
    requires Links(tree, Strip(key), binding) && Climb(tree, Strip(binding.parentId), rest)
    requires StuckAbove(tree, rest, seen + {Strip(binding.id)}, e)
    requires forall i :: 0 <= i < |rest| ==> Strip(rest[i].id) !in seen + {Strip(binding.id)}
    ensures Climb(tree, key, [binding] + rest) && StuckAbove(tree, [binding] + rest, seen, e)
  {
    StripFixpoint(binding.parentId);
    hide Strip;
    var up := [binding] + rest;
    assert Strip(up[0].id) == Strip(binding.id);
    forall branch | Passed(rest, branch) ensures Passed(up, branch) {
      var i :| 0 <= i < |rest| && Strip(rest[i].id) == branch;
      assert up[i + 1] == rest[i];
    }
    assert Passed(up, Strip(binding.id));
    assert up[|up| - 1] == rest[|rest| - 1];
  }

  lemma {:induction false} StuckFails(tree: Tree, key: string, seen: set<string>, up: seq<Binding>, e: TreeError)
    requires key != "" && Stripped(key) && Climb(tree, key, up) && StuckAbove(tree, up, seen, e)
    requires forall i :: 0 <= i < |up| ==> Strip(up[i].id) !in seen
    ensures key in tree.bindings && ChainFrom(tree, key, seen) == Err(e)
    decreases |up|
  {
    StripFixpoint(key);
    var binding := up[0];
    var current, parent := Strip(binding.id), Strip(binding.parentId);
    StripFixpoint(binding.parentId);
    hide Strip;
    assert Links(tree, Strip(key), binding);
    if |up| == 1 {
      assert Passed(up, current);
      if parent in tree.bindings {
        assert Strip(tree.bindings[parent].id) in seen + {current};
      }
    } else {
      ClimbOn(tree, key, up, seen, e);
      StuckFails(tree, parent, seen + {current}, up[1..], e);
    }
  }

  /** One branch further up, with the branch left behind among those seen. */
  lemma ClimbOn(tree: Tree, key: string, up: seq<Binding>, seen: set<string>, e: TreeError)
    requires Climb(tree, key, up) && StuckAbove(tree, up, seen, e) && |up| > 1
    requires forall i :: 0 <= i < |up| ==> Strip(up[i].id) !in seen
    ensures var parent := Strip(up[0].parentId);
            && parent != "" && parent in tree.bindings && tree.bindings[parent] == up[1]
            && Climb(tree, parent, up[1..]) && StuckAbove(tree, up[1..], seen + {Strip(up[0].id)}, e)
    ensures forall i :: 0 <= i < |up[1..]| ==> Strip(up[1..][i].id) !in seen + {Strip(up[0].id)}
  {
    StripFixpoint(up[0].parentId);
    hide Strip;
    var rest := up[1..];
    assert Links(tree, Strip(up[0].parentId), up[1]);
    forall i | 0 < i < |rest| ensures Links(tree, Strip(rest[i - 1].parentId), rest[i]) {
      assert Links(tree, Strip(up[i].parentId), up[i + 1]);
    }
    forall branch | Passed(up, branch) ensures Passed(rest, branch) || branch == Strip(up[0].id) {
      var i :| 0 <= i < |up| && Strip(up[i].id) == branch;
      if i > 0 { assert rest[i - 1] == up[i]; }
    }
    assert rest[|rest| - 1] == up[|up| - 1];
  }

  /**
   Which error the walk ends in: the branch is not named or not there, or the way up comes to a parent
   that is not there, or to a branch it has passed.
   */
  lemma ChainErrorExactly(tree: Tree, id: string, e: TreeError)
    ensures Chain(tree, id) == Err(e) <==>
              || (Strip(id) == "" && e == BranchRequired)
              || (Strip(id) != "" && Strip(id) !in tree.bindings && e == BranchNotFound(Strip(id)))
              || exists up :: Climb(tree, id, up) && StuckAbove(tree, up, {}, e)
  {
    StripFixpoint(id);
    hide Strip, ChainFrom;
    var key := Strip(id);
    if Chain(tree, id) == Err(e) && key in tree.bindings && key != "" {
      var up := ClimbGetsStuck(tree, key, {});
      assert Climb(tree, id, up);
    }
    if up: seq<Binding> :| Climb(tree, id, up) && StuckAbove(tree, up, {}, e) {
      assert Climb(tree, key, up);
      StuckFails(tree, key, {}, up, e);
    }
  }

  function Reversed<T>(s: seq<T>): seq<T> {
    if s == [] then [] else Reversed(s[1..]) + [s[0]]
  }

  lemma {:induction false} ReversedAppend<T>(s: seq<T>, x: T)
    ensures Reversed(s + [x]) == [x] + Reversed(s)
  {
    if s == [] {
      assert [x] == s + [x];
    } else {
      assert (s + [x])[1..] == s[1..] + [x];
      ReversedAppend(s[1..], x);
    }
  }

  method AncestorChain(tree: Tree, branchBindingId: string) returns (r: Result<seq<Binding>, TreeError>)
    ensures r == Chain(tree, branchBindingId)
  {
    hide Strip;
    var first := Validate(tree, branchBindingId);
    if first.Err? {
      return Err(first.error);
    }
    var key := first.value;
    var chain: seq<Binding> := [];
    var seen: set<string> := {};
    ghost var whole := ChainFrom(tree, key, seen);
    assert whole.Ok? ==> whole.value + Reversed(chain) == whole.value;
    while true
      invariant key in tree.bindings
      invariant Chain(tree, branchBindingId) ==
                match ChainFrom(tree, key, seen) case Err(e) => Err(e) case Ok(c) => Ok(c + Reversed(chain))
      decreases |Unseen(tree, seen)|
    {
      var binding := tree.bindings[key];
      var current := Strip(binding.id);
      if current in seen {
        return Err(ParentCycle(current));
      }
      ghost var before := seen;
      assert key in Unseen(tree, before);
      ReversedAppend(chain, binding);
      seen := seen + {current};
      chain := chain + [binding];
      assert key !in Unseen(tree, seen);
      StrictSubsetSmaller(Unseen(tree, seen), Unseen(tree, before));
      var parent := Strip(binding.parentId);
      if parent == "" {
        break;
      }
      var next := Validate(tree, parent);
      if next.Err? {
        return Err(next.error);
      }
      ghost var tail := ChainFrom(tree, next.value, seen);
      assert tail.Ok? ==> (tail.value + [binding]) + Reversed(chain[..|chain| - 1]) == tail.value + Reversed(chain);
      key := next.value;
    }
    r := Ok(Reversed(chain));
  }

  // ---------------------------------------------------------------- one branch segment

  /** The entries of one branch, in the order given. */
  function OfBranch(entries: seq<Entry>, branch: string): (r: seq<Entry>)
    ensures forall e :: e in r <==> e in entries && Strip(e.branch) == branch
    ensures DistinctIds(entries) ==> DistinctIds(r)
  {
    hide Strip;
    if entries == [] then []
    else
      var n := |entries| - 1;
      var before := OfBranch(entries[..n], branch);
      if Strip(entries[n].branch) == branch then before + [entries[n]] else before
  }

  function ChildrenOf(b: seq<Entry>, parent: Option<string>): (r: seq<Entry>)
    ensures forall e :: e in r <==> e in b && e.parent == parent
    ensures DistinctIds(b) ==> DistinctIds(r)
  {
    if b == [] then []
    else
      var n := |b| - 1;
      var before := ChildrenOf(b[..n], parent);
      if b[n].parent == parent then before + [b[n]] else before
  }

  function InsertByTime(e: Entry, s: seq<Entry>): (r: seq<Entry>)
    ensures |r| == |s| + 1
    ensures forall x :: x in r <==> x == e || x in s
  {
    if s == [] || s[|s| - 1].Time() <= e.Time() then s + [e]
    else InsertByTime(e, s[..|s| - 1]) + [s[|s| - 1]]
  }

  /** `children.sort(key=_entry_timestamp)`. */
  function SortedByTime(s: seq<Entry>): (r: seq<Entry>)
    ensures |r| == |s|
    ensures forall x :: x in r <==> x in s
  {
    if s == [] then [] else InsertByTime(s[|s| - 1], SortedByTime(s[..|s| - 1]))
  }

  /** Every timestamp is usable and no two siblings share an instant. */
  predicate Orderable(b: seq<Entry>) {
    && (forall e :: e in b ==> e.stamp.At?)
    && (forall e, f :: e in b && f in b && e.id != f.id && e.parent == f.parent ==> e.stamp != f.stamp)
  }

  function Parents(b: seq<Entry>): set<Option<string>> {
    set e | e in b :: e.parent
  }

  /**
   Depth-first order below `parent`; `open` holds the parents being expanded. The guard on `open`
   makes the definition total; `Walk` shows that the code, which has no such guard, never needs it.
   */
  function Preorder(b: seq<Entry>, open: set<Option<string>>, parent: Option<string>): seq<Entry>
    decreases |Parents(b) - open|, 0
  {
    if parent in open || parent !in Parents(b) then []
    else
      assert Parents(b) - (open + {parent}) < Parents(b) - open by { assert parent in Parents(b) - open; }
      StrictSubsetSmaller(Parents(b) - (open + {parent}), Parents(b) - open);
      PreorderAll(b, open + {parent}, SortedByTime(ChildrenOf(b, parent)))
  }

  function PreorderAll(b: seq<Entry>, open: set<Option<string>>, kids: seq<Entry>): seq<Entry>
    decreases |Parents(b) - open|, 1 + |kids|
  {
    if kids == [] then []
    else
      var n := |kids| - 1;
      PreorderAll(b, open, kids[..n]) + [kids[n]] + Preorder(b, open, Some(kids[n].id))
  }

  function Segment(entries: seq<Entry>, branchBindingId: string, parent: Option<string>): Result<seq<Entry>, TreeError> {
    var b := OfBranch(entries, Strip(branchBindingId));
    if Orderable(b) then Ok(Preorder(b, {}, parent)) else Err(Unorderable)
  }

  /**
   The open parents form a path: an entry whose id is open, or is about to be expanded, hangs below
   an open parent. The start of the path is no entry of the branch.
   */
  ghost predicate OnPath(b: seq<Entry>, open: set<Option<string>>, current: Option<string>) {
    && current !in open
    && forall e :: e in b && Some(e.id) in open + {current} ==> e.parent in open
  }

  /** No entry of the branch is its own ancestor on the way down from the path's start. */
  lemma PathExtends(b: seq<Entry>, open: set<Option<string>>, current: Option<string>, kid: Entry)
    requires DistinctIds(b) && OnPath(b, open, current)
    requires kid in b && kid.parent == current
    ensures OnPath(b, open + {current}, Some(kid.id))
  {
    forall e | e in b && e.id == kid.id ensures e == kid {
      var i :| 0 <= i < |b| && b[i] == e;
      var j :| 0 <= j < |b| && b[j] == kid;
      assert i == j;
    }
  }

  type ChildTable = map<Option<string>, seq<Entry>>

  ghost predicate Tabulates(table: ChildTable, b: seq<Entry>) {
    && table.Keys == Parents(b)
    && forall p :: p in table ==> table[p] == SortedByTime(ChildrenOf(b, p))
  }

  /** The order below a parent that has children is the order of its sorted children. */
  lemma PreorderUnfolds(table: ChildTable, b: seq<Entry>, open: set<Option<string>>, parent: Option<string>)
    requires Tabulates(table, b) && OnPath(b, open, parent)
    ensures parent !in table ==> Preorder(b, open, parent) == []
    ensures parent in table ==>
              && Preorder(b, open, parent) == PreorderAll(b, open + {parent}, table[parent])
              && |Parents(b) - (open + {parent})| < |Parents(b) - open|
              && forall kid :: kid in table[parent] ==> kid in b && kid.parent == parent
  {
    if parent in table {
      assert parent in Parents(b) - open && parent !in Parents(b) - (open + {parent});
      StrictSubsetSmaller(Parents(b) - (open + {parent}), Parents(b) - open);
    }
  }

  lemma PreorderAllStep(b: seq<Entry>, open: set<Option<string>>, kids: seq<Entry>, i: nat)
    requires i < |kids|
    ensures PreorderAll(b, open, kids[..i + 1])
         == PreorderAll(b, open, kids[..i]) + [kids[i]] + Preorder(b, open, Some(kids[i].id))
  {
    assert kids[..i + 1][..i] == kids[..i];
  }

  /** The recursive walk: it terminates because ids along the path stay distinct. */
  method Walk(table: ChildTable, current: Option<string>, out: seq<Entry>,
              ghost b: seq<Entry>, ghost open: set<Option<string>>)
    returns (r: seq<Entry>)
    requires DistinctIds(b) && Tabulates(table, b) && OnPath(b, open, current)
    ensures r == out + Preorder(b, open, current)
    decreases |Parents(b) - open|
  {
    hide *;
    r := out;
    PreorderUnfolds(table, b, open, current);
    if current in table {
      var kids := table[current];
      ghost var expanded := open + {current};
      assert PreorderAll(b, expanded, kids[..0]) == [] by { PreorderAllEmpty(b, expanded, kids[..0]); }
      for i := 0 to |kids|
        invariant r == out + PreorderAll(b, expanded, kids[..i])
      {
        var kid := kids[i];
        PathExtends(b, open, current, kid);
        PreorderAllStep(b, expanded, kids, i);
        r := r + [kid];
        r := Walk(table, Some(kid.id), r, b, expanded);
        ConcatAssociative(out, PreorderAll(b, expanded, kids[..i]), [kid], Preorder(b, expanded, Some(kid.id)));
      }
      assert kids[..|kids|] == kids;
    }
  }

  lemma ConcatAssociative<T>(a: seq<T>, b: seq<T>, c: seq<T>, d: seq<T>)
    ensures a + b + c + d == a + (b + c + d)
  {
  }

  lemma PreorderAllEmpty(b: seq<Entry>, open: set<Option<string>>, kids: seq<Entry>)
    requires kids == []
    ensures PreorderAll(b, open, kids) == []
  {
  }

  /** The check of one sibling group, which fills `seen_timestamps`. */
  method CheckSiblings(children: seq<Entry>) returns (ok: bool)
    requires DistinctIds(children)
    requires forall e, f :: e in children && f in children ==> e.parent == f.parent
    ensures ok <==> Orderable(children)
  {
    var seen: set<Stamp> := {};
    for i := 0 to |children|
      invariant seen == set k | 0 <= k < i :: children[k].stamp
      invariant forall k :: 0 <= k < i ==> children[k].stamp.At?
      invariant forall k, l :: 0 <= k < l < i ==> children[k].stamp != children[l].stamp
    {
      var child := children[i];
      if child.stamp.Unusable? {
        assert child in children;
        return false;
      }
      if child.stamp in seen {
        ghost var k :| 0 <= k < i && children[k].stamp == child.stamp;
        assert children[k] in children && child in children;
        return false;
      }
      seen := seen + {child.stamp};
    }
    ok := true;
  }

  /** Sibling groups are independent: the whole branch is orderable when each group is. */
  lemma OrderableByGroup(b: seq<Entry>)
    ensures Orderable(b) <==> forall p :: p in Parents(b) ==> Orderable(ChildrenOf(b, p))
  {
    if forall p :: p in Parents(b) ==> Orderable(ChildrenOf(b, p)) {
      forall e | e in b ensures e.stamp.At? {
        assert e in ChildrenOf(b, e.parent);
      }
      forall e, f | e in b && f in b && e.id != f.id && e.parent == f.parent ensures e.stamp != f.stamp {
        assert e in ChildrenOf(b, e.parent) && f in ChildrenOf(b, e.parent);
      }
    }
  }

  lemma ChildrenOfAppend(b: seq<Entry>, e: Entry, p: Option<string>)
    ensures ChildrenOf(b + [e], p) == if e.parent == p then ChildrenOf(b, p) + [e] else ChildrenOf(b, p)
  {
    assert (b + [e])[..|b|] == b;
  }

  ghost predicate Groups(children: ChildTable, b: seq<Entry>) {
    && children.Keys == Parents(b)
    && forall p :: p in children ==> children[p] == ChildrenOf(b, p)
  }

  function AddToGroup(children: ChildTable, e: Entry): ChildTable {
    children[e.parent := (if e.parent in children then children[e.parent] else []) + [e]]
  }

  lemma GroupsAppend(children: ChildTable, b: seq<Entry>, e: Entry)
    requires Groups(children, b)
    ensures Groups(AddToGroup(children, e), b + [e])
  {
    var grown := AddToGroup(children, e);
    assert e.parent !in children ==> ChildrenOf(b, e.parent) == [] by {
      if ChildrenOf(b, e.parent) != [] {
        var x := ChildrenOf(b, e.parent)[0];
        assert x in ChildrenOf(b, e.parent);
      }
    }
    forall p | p in grown ensures grown[p] == ChildrenOf(b + [e], p) {
      ChildrenOfAppend(b, e, p);
    }
    assert forall x :: x in b + [e] <==> x in b || x == e;
  }

  lemma OfBranchAppend(entries: seq<Entry>, i: nat, branchId: string)
    requires i < |entries|
    ensures OfBranch(entries[..i + 1], branchId)
         == if Strip(entries[i].branch) == branchId then OfBranch(entries[..i], branchId) + [entries[i]]
            else OfBranch(entries[..i], branchId)
  {
    hide Strip;
    assert entries[..i + 1][..i] == entries[..i];
  }

  lemma GroupsEmpty(entries: seq<Entry>, branchId: string)
    requires entries == []
    ensures Groups(map[], OfBranch(entries, branchId))
  {
  }

  /** `children_by_parent`, filled in dictionary order. */
  method GroupByParent(entries: seq<Entry>, branchId: string) returns (children: ChildTable)
    ensures Groups(children, OfBranch(entries, branchId))
  {
    hide *;
    children := map[];
    GroupsEmpty(entries[..0], branchId);
    for i := 0 to |entries|
      invariant Groups(children, OfBranch(entries[..i], branchId))
    {
      var e := entries[i];
      OfBranchAppend(entries, i, branchId);
      if Strip(e.branch) != branchId {
        continue;
      }
      GroupsAppend(children, OfBranch(entries[..i], branchId), e);
      children := AddToGroup(children, e);
    }
    assert entries[..|entries|] == entries;
  }

  /** The start of a segment is no entry of the branch it is in. */
  ghost predicate OutsideBranch(entries: seq<Entry>, branchBindingId: string, parent: Option<string>) {
    forall e :: e in entries && Some(e.id) == parent ==> Strip(e.branch) != Strip(branchBindingId)
  }

  /** Every group passed its check and was sorted, or one group failed it. */
  lemma GroupsDecide(groups: ChildTable, b: seq<Entry>)
    requires Groups(groups, b) && DistinctIds(b)
    ensures Orderable(b) <==> forall p :: p in groups ==> Orderable(groups[p])
    ensures forall p :: p in groups ==>
              DistinctIds(groups[p]) && forall e, f :: e in groups[p] && f in groups[p] ==> e.parent == f.parent
  {
    OrderableByGroup(b);
  }

  lemma SegmentStart(entries: seq<Entry>, branchBindingId: string, parent: Option<string>)
    requires DistinctIds(entries) && OutsideBranch(entries, branchBindingId, parent)
    ensures DistinctIds(OfBranch(entries, Strip(branchBindingId)))
    ensures OnPath(OfBranch(entries, Strip(branchBindingId)), {}, parent)
  {
    hide Strip;
  }

  method BranchDescendants(tree: Tree, branchBindingId: string, parent: Option<string>)
    returns (r: Result<seq<Entry>, TreeError>)
    requires WellKeyed(tree) && OutsideBranch(tree.entries, branchBindingId, parent)
    ensures r == Segment(tree.entries, branchBindingId, parent)
  {
    hide Strip, Preorder, SortedByTime, ChildrenOf, OfBranch, Orderable, DistinctIds, OnPath, OutsideBranch;
    var branchId := Strip(branchBindingId);
    ghost var b := OfBranch(tree.entries, branchId);
    SegmentStart(tree.entries, branchBindingId, parent);
    var groups := GroupByParent(tree.entries, branchId);
    GroupsDecide(groups, b);
    var table: ChildTable := map[];
    var pending := groups.Keys;
    while pending != {}
      invariant pending <= groups.Keys && table.Keys == groups.Keys - pending
      invariant forall p :: p in table ==> Orderable(groups[p]) && table[p] == SortedByTime(groups[p])
    {
      var p :| p in pending;
      var ok := CheckSiblings(groups[p]);
      if !ok {
        return Err(Unorderable);
      }
      table := table[p := SortedByTime(groups[p])];
      pending := pending - {p};
    }
    var out := Walk(table, parent, [], b, {});
    assert [] + Preorder(b, {}, parent) == Preorder(b, {}, parent);
    r := Ok(out);
  }

  // ---------------------------------------------------------------- what preorder means

  type Key = seq<int>

  /** `a` comes before `b`: it is a proper prefix, or smaller at the first difference. */
  predicate KeyLess(a: Key, b: Key) {
    if a == [] then b != []
    else if b == [] then false
    else a[0] < b[0] || (a[0] == b[0] && KeyLess(a[1..], b[1..]))
  }

  /** `key` lists the instants on the way from `start` (excluded) down to `e` (included). */
  ghost predicate KeyOf(b: seq<Entry>, start: Option<string>, e: Entry, key: Key)
    decreases |key|
  {
    && key != []
    && e in b
    && e.stamp == At(key[|key| - 1])
    && if |key| == 1 then e.parent == start
       else exists q :: q in b && e.parent == Some(q.id) && KeyOf(b, start, q, key[..|key| - 1])
  }

  ghost predicate KeysSorted(keys: seq<Key>) {
    forall i, j :: 0 <= i < j < |keys| ==> KeyLess(keys[i], keys[j])
  }

  ghost predicate KeysMatch(b: seq<Entry>, start: Option<string>, s: seq<Entry>, keys: seq<Key>) {
    |keys| == |s| && forall i :: 0 <= i < |s| ==> KeyOf(b, start, s[i], keys[i])
  }

  /**
   The preorder, defined without a traversal: exactly the entries reachable from `start`, in the
   strict lexicographic order of the instants on their paths. So parents precede children,
   siblings are in strictly increasing time, and subtrees are contiguous.
   */
  ghost predicate IsPreorder(b: seq<Entry>, start: Option<string>, s: seq<Entry>) {
    && (forall e, key :: KeyOf(b, start, e, key) ==> e in s)
    && exists keys :: KeysMatch(b, start, s, keys) && KeysSorted(keys)
  }

  function Prefixed(t: int, keys: seq<Key>): (r: seq<Key>)
    ensures |r| == |keys|
    ensures forall i :: 0 <= i < |keys| ==> r[i] == [t] + keys[i]
  {
    if keys == [] then [] else [[t] + keys[0]] + Prefixed(t, keys[1..])
  }

  /** The keys of `Preorder`, entry by entry. */
  function PreorderKeys(b: seq<Entry>, open: set<Option<string>>, parent: Option<string>): seq<Key>
    decreases |Parents(b) - open|, 0
  {
    if parent in open || parent !in Parents(b) then []
    else
      assert Parents(b) - (open + {parent}) < Parents(b) - open by { assert parent in Parents(b) - open; }
      StrictSubsetSmaller(Parents(b) - (open + {parent}), Parents(b) - open);
      PreorderAllKeys(b, open + {parent}, SortedByTime(ChildrenOf(b, parent)))
  }

  function PreorderAllKeys(b: seq<Entry>, open: set<Option<string>>, kids: seq<Entry>): seq<Key>
    decreases |Parents(b) - open|, 1 + |kids|
  {
    if kids == [] then []
    else
      var n := |kids| - 1;
      var t := kids[n].Time();
      PreorderAllKeys(b, open, kids[..n]) + [[t]] + Prefixed(t, PreorderKeys(b, open, Some(kids[n].id)))
  }

  ghost predicate TimesIncrease(s: seq<Entry>) {
    forall i, j :: 0 <= i < j < |s| ==> s[i].Time() < s[j].Time()
  }

  lemma {:induction false} InsertIncreases(e: Entry, s: seq<Entry>)
    requires TimesIncrease(s) && forall x :: x in s ==> x.Time() != e.Time()
    ensures TimesIncrease(InsertByTime(e, s))
  {
    if s != [] && s[|s| - 1].Time() > e.Time() {
      var n := |s| - 1;
      InsertIncreases(e, s[..n]);
      var r := InsertByTime(e, s[..n]);
      forall i | 0 <= i < |r| ensures r[i].Time() < s[n].Time() {
        assert r[i] in r;
      }
    }
  }

  lemma {:induction false} SortIncreases(s: seq<Entry>)
    requires forall i, j :: 0 <= i < j < |s| ==> s[i].Time() != s[j].Time()
    ensures TimesIncrease(SortedByTime(s))
  {
    if s != [] {
      var n := |s| - 1;
      SortIncreases(s[..n]);
      forall x | x in SortedByTime(s[..n]) ensures x.Time() != s[n].Time() {
        assert x in s[..n];
      }
      InsertIncreases(s[n], SortedByTime(s[..n]));
    }
  }

  /** The children of one parent, sorted: strictly increasing in time. */
  lemma KidsIncrease(b: seq<Entry>, parent: Option<string>)
    requires DistinctIds(b) && Orderable(b)
    ensures TimesIncrease(SortedByTime(ChildrenOf(b, parent)))
  {
    var kids := ChildrenOf(b, parent);
    forall i, j | 0 <= i < j < |kids| ensures kids[i].Time() != kids[j].Time() {
      assert kids[i] in b && kids[j] in b;
    }
    SortIncreases(kids);
  }

  /** A key below a child is a key below the parent, one step longer. */
  lemma {:induction false} KeyBelowChild(b: seq<Entry>, start: Option<string>, kid: Entry, e: Entry, key: Key)
    requires kid in b && kid.stamp.At? && kid.parent == start
    requires KeyOf(b, Some(kid.id), e, key)
    ensures KeyOf(b, start, e, [kid.Time()] + key)
    decreases |key|
  {
    var longer := [kid.Time()] + key;
    var n := |key| - 1;
    assert longer[..|longer| - 1] == [kid.Time()] + key[..n];
    if n == 0 {
      assert [kid.Time()] + key[..0] == [kid.Time()];
      assert KeyOf(b, start, kid, [kid.Time()]);
    } else {
      var q :| q in b && e.parent == Some(q.id) && KeyOf(b, Some(kid.id), q, key[..n]);
      KeyBelowChild(b, start, kid, q, key[..n]);
    }
  }

  /** Every longer key passes through a child of the start. */
  lemma {:induction false} KeyThroughChild(b: seq<Entry>, start: Option<string>, e: Entry, key: Key) returns (kid: Entry)
    requires KeyOf(b, start, e, key) && |key| > 1
    ensures kid in b && kid.parent == start && kid.stamp == At(key[0])
    ensures KeyOf(b, Some(kid.id), e, key[1..])
    decreases |key|
  {
    var n := |key| - 1;
    var q :| q in b && e.parent == Some(q.id) && KeyOf(b, start, q, key[..n]);
    if n == 1 {
      kid := q;
    } else {
      kid := KeyThroughChild(b, start, q, key[..n]);
      assert key[..n][1..] == key[1..][..|key[1..]| - 1];
    }
  }

  lemma KeysUnder(b: seq<Entry>, start: Option<string>, kid: Entry, s: seq<Entry>, keys: seq<Key>)
    requires kid in b && kid.stamp.At? && kid.parent == start
    requires KeysMatch(b, Some(kid.id), s, keys)
    ensures KeysMatch(b, start, [kid] + s, [[kid.Time()]] + Prefixed(kid.Time(), keys))
  {
    forall i | 0 <= i < |s| ensures KeyOf(b, start, s[i], [kid.Time()] + keys[i]) {
      KeyBelowChild(b, start, kid, s[i], keys[i]);
    }
  }

  lemma KeysMatchConcat(b: seq<Entry>, start: Option<string>, s: seq<Entry>, ks: seq<Key>, t: seq<Entry>, kt: seq<Key>)
    requires KeysMatch(b, start, s, ks) && KeysMatch(b, start, t, kt)
    ensures KeysMatch(b, start, s + t, ks + kt)
  {
  }

  /** Every entry listed is reachable, with the key listed beside it. */
  lemma {:induction false} PreorderReachable(b: seq<Entry>, open: set<Option<string>>, parent: Option<string>)
    requires Orderable(b)
    ensures KeysMatch(b, parent, Preorder(b, open, parent), PreorderKeys(b, open, parent))
    decreases |Parents(b) - open|, 0
  {
    if parent !in open && parent in Parents(b) {
      assert parent in Parents(b) - open && parent !in Parents(b) - (open + {parent});
      StrictSubsetSmaller(Parents(b) - (open + {parent}), Parents(b) - open);
      PreorderAllReachable(b, open + {parent}, parent, SortedByTime(ChildrenOf(b, parent)));
    }
  }

  lemma {:induction false} PreorderAllReachable(b: seq<Entry>, open: set<Option<string>>, parent: Option<string>, kids: seq<Entry>)
    requires Orderable(b) && forall k :: k in kids ==> k in b && k.parent == parent
    ensures KeysMatch(b, parent, PreorderAll(b, open, kids), PreorderAllKeys(b, open, kids))
    decreases |Parents(b) - open|, 1 + |kids|
  {
    hide KeyOf, Preorder, PreorderKeys, SortedByTime, ChildrenOf;
    if kids != [] {
      var n := |kids| - 1;
      var kid := kids[n];
      PreorderAllReachable(b, open, parent, kids[..n]);
      PreorderReachable(b, open, Some(kid.id));
      var s, ks := Preorder(b, open, Some(kid.id)), PreorderKeys(b, open, Some(kid.id));
      KeysUnder(b, parent, kid, s, ks);
      var t := kid.Time();
      var a, ka := PreorderAll(b, open, kids[..n]), PreorderAllKeys(b, open, kids[..n]);
      KeysMatchConcat(b, parent, a, ka, [kid] + s, [[t]] + Prefixed(t, ks));
      assert a + [kid] + s == a + ([kid] + s);
      assert ka + [[t]] + Prefixed(t, ks) == ka + ([[t]] + Prefixed(t, ks));
    }
  }

  /** Every key of a list of children starts with the time of one of them. */
  ghost predicate StartsAmong(keys: seq<Key>, kids: seq<Entry>) {
    forall i :: 0 <= i < |keys| ==> keys[i] != [] && exists k :: k in kids && k.Time() == keys[i][0]
  }

  lemma {:induction false} PreorderKeysSorted(b: seq<Entry>, open: set<Option<string>>, parent: Option<string>)
    requires DistinctIds(b) && Orderable(b)
    ensures KeysSorted(PreorderKeys(b, open, parent)) && [] !in PreorderKeys(b, open, parent)
    decreases |Parents(b) - open|, 0
  {
    if parent !in open && parent in Parents(b) {
      assert parent in Parents(b) - open && parent !in Parents(b) - (open + {parent});
      StrictSubsetSmaller(Parents(b) - (open + {parent}), Parents(b) - open);
      KidsIncrease(b, parent);
      PreorderAllKeysSorted(b, open + {parent}, SortedByTime(ChildrenOf(b, parent)));
    }
  }

  lemma {:induction false} PreorderAllKeysSorted(b: seq<Entry>, open: set<Option<string>>, kids: seq<Entry>)
    requires DistinctIds(b) && Orderable(b) && TimesIncrease(kids)
    ensures KeysSorted(PreorderAllKeys(b, open, kids)) && StartsAmong(PreorderAllKeys(b, open, kids), kids)
    decreases |Parents(b) - open|, 1 + |kids|
  {
    if kids != [] {
      hide Orderable, DistinctIds, PreorderKeys;
      var n := |kids| - 1;
      PreorderAllKeysSorted(b, open, kids[..n]);
      PreorderKeysSorted(b, open, Some(kids[n].id));
      KeysBlock(PreorderAllKeys(b, open, kids[..n]), kids, PreorderKeys(b, open, Some(kids[n].id)));
    }
  }

  /** The keys of the last child's subtree follow those of its elder siblings. */
  lemma KeysBlock(front: seq<Key>, kids: seq<Entry>, below: seq<Key>)
    requires kids != [] && TimesIncrease(kids) && StartsAmong(front, kids[..|kids| - 1])
    requires KeysSorted(front) && KeysSorted(below) && [] !in below
    ensures var t := kids[|kids| - 1].Time();
            var all := front + [[t]] + Prefixed(t, below);
            KeysSorted(all) && StartsAmong(all, kids)
  {
    var last := kids[|kids| - 1];
    var t := last.Time();
    var block := [[t]] + Prefixed(t, below);
    PrefixedSorted(t, below);
    assert front + [[t]] + Prefixed(t, below) == front + block;
    forall i | 0 <= i < |front| ensures front[i] != [] && front[i][0] < t && exists k :: k in kids && k.Time() == front[i][0] {
      var k :| k in kids[..|kids| - 1] && k.Time() == front[i][0];
      assert k in kids;
    }
    assert last in kids;
  }

  lemma PrefixedSorted(t: int, below: seq<Key>)
    requires KeysSorted(below) && [] !in below
    ensures KeysSorted([[t]] + Prefixed(t, below))
    ensures forall k :: k in [[t]] + Prefixed(t, below) ==> k != [] && k[0] == t
  {
    var block := [[t]] + Prefixed(t, below);
    forall i, j | 0 <= i < j < |block| ensures KeyLess(block[i], block[j]) {
      var k := below[j - 1];
      assert block[j][1..] == k && k in below;
      if i > 0 {
        assert block[i][1..] == below[i - 1];
      }
    }
  }

  /** A child is listed below its parent, and so is whatever is listed below the child. */
  lemma ChildListed(b: seq<Entry>, open: set<Option<string>>, parent: Option<string>, kid: Entry)
    requires DistinctIds(b) && OnPath(b, open, parent) && kid in b && kid.parent == parent
    ensures kid in Preorder(b, open, parent)
    ensures forall x :: x in Preorder(b, open + {parent}, Some(kid.id)) ==> x in Preorder(b, open, parent)
  {
    assert parent in Parents(b);
    var kids := SortedByTime(ChildrenOf(b, parent));
    assert kid in kids;
    var i :| 0 <= i < |kids| && kids[i] == kid;
    hide SortedByTime, ChildrenOf, DistinctIds;
    PreorderAllContains(b, open + {parent}, kids, i);
  }

  /** Every reachable entry is listed: the guard on `open` never cuts a branch off. */
  lemma {:induction false} PreorderComplete(b: seq<Entry>, open: set<Option<string>>, parent: Option<string>, e: Entry, key: Key)
    requires DistinctIds(b) && OnPath(b, open, parent) && KeyOf(b, parent, e, key)
    ensures e in Preorder(b, open, parent)
    decreases |key|
  {
    hide Preorder, OnPath, DistinctIds;
    if |key| == 1 {
      ChildListed(b, open, parent, e);
    } else {
      var kid := KeyThroughChild(b, parent, e, key);
      hide KeyOf;
      PathExtends(b, open, parent, kid);
      PreorderComplete(b, open + {parent}, Some(kid.id), e, key[1..]);
      ChildListed(b, open, parent, kid);
    }
  }

  lemma {:induction false} PreorderAllContains(b: seq<Entry>, open: set<Option<string>>, kids: seq<Entry>, i: nat)
    requires i < |kids|
    ensures kids[i] in PreorderAll(b, open, kids)
    ensures forall x :: x in Preorder(b, open, Some(kids[i].id)) ==> x in PreorderAll(b, open, kids)
    decreases |kids|
  {
    if i < |kids| - 1 {
      PreorderAllContains(b, open, kids[..|kids| - 1], i);
    }
  }

  /** The segment the code computes is a preorder of the branch below its start. */
  lemma SegmentIsPreorder(entries: seq<Entry>, branchBindingId: string, parent: Option<string>)
    requires DistinctIds(entries) && OutsideBranch(entries, branchBindingId, parent)
    ensures Segment(entries, branchBindingId, parent).Ok? ==>
              IsPreorder(OfBranch(entries, Strip(branchBindingId)), parent, Segment(entries, branchBindingId, parent).value)
  {
    hide Strip, OfBranch, Preorder, PreorderKeys;
    var b := OfBranch(entries, Strip(branchBindingId));
    SegmentStart(entries, branchBindingId, parent);
    if Orderable(b) {
      PreorderReachable(b, {}, parent);
      PreorderKeysSorted(b, {}, parent);
      forall e, key | KeyOf(b, parent, e, key) ensures e in Preorder(b, {}, parent) {
        PreorderComplete(b, {}, parent, e, key);
      }
    }
  }

  // ---------------------------------------------------------------- the preorder is unique

  lemma {:induction false} KeyLessOrders(a: Key, b: Key)
    ensures !(KeyLess(a, b) && KeyLess(b, a)) && !KeyLess(a, a)
  {
    if a != [] {
      KeyLessOrders(a[1..], if b == [] then [] else b[1..]);
    }
  }

  lemma {:induction false} SortedKeysEqual(ks: seq<Key>, kt: seq<Key>)
    requires KeysSorted(ks) && KeysSorted(kt) && forall k :: k in ks <==> k in kt
    ensures ks == kt
  {
    if ks == [] {
      HasMember(kt);
    } else {
      var m := ks[|ks| - 1];
      assert m in ks;
      var n := kt[|kt| - 1];
      assert n in kt;
      if m != n {
        var i :| 0 <= i < |ks| && ks[i] == n;
        var j :| 0 <= j < |kt| && kt[j] == m;
        assert KeyLess(n, m) && KeyLess(m, n);
        KeyLessOrders(m, n);
      }
      LastOnce(ks);
      LastOnce(kt);
      assert m == n;
      var front, other := ks[..|ks| - 1], kt[..|kt| - 1];
      forall k | k in front ensures k in other {
        assert k in ks;
      }
      forall k | k in other ensures k in front {
        assert k in kt;
      }
      SortedKeysEqual(front, other);
    }
  }

  lemma HasMember(ks: seq<Key>)
    ensures ks != [] ==> exists k :: k in ks
  {
    if ks != [] {
      assert ks[0] in ks;
    }
  }

  lemma LastOnce(ks: seq<Key>)
    requires KeysSorted(ks) && ks != []
    ensures forall k :: k in ks[..|ks| - 1] <==> k in ks && k != ks[|ks| - 1]
  {
    var n := |ks| - 1;
    forall k | k in ks && k != ks[n] ensures k in ks[..n] {
      var i :| 0 <= i < |ks| && ks[i] == k;
      assert ks[..n][i] == k;
    }
    forall k | k in ks[..n] ensures k != ks[n] {
      KeyLessOrders(k, ks[n]);
    }
  }

  ghost predicate StartOutside(b: seq<Entry>, start: Option<string>) {
    forall e :: e in b ==> Some(e.id) != start
  }

  lemma SameId(b: seq<Entry>, e: Entry, f: Entry)
    requires DistinctIds(b) && e in b && f in b && e.id == f.id
    ensures e == f
  {
    var i :| 0 <= i < |b| && b[i] == e;
    var j :| 0 <= j < |b| && b[j] == f;
    assert i == j;
  }

  lemma {:induction false} OneKey(b: seq<Entry>, start: Option<string>, e: Entry, k: Key, l: Key)
    requires DistinctIds(b) && StartOutside(b, start)
    requires KeyOf(b, start, e, k) && KeyOf(b, start, e, l)
    ensures k == l
    decreases |k|
  {
    assert |k| == 1 <==> |l| == 1;
    var m, n := |k| - 1, |l| - 1;
    if m > 0 {
      var p :| p in b && e.parent == Some(p.id) && KeyOf(b, start, p, k[..m]);
      var q :| q in b && e.parent == Some(q.id) && KeyOf(b, start, q, l[..n]);
      SameId(b, p, q);
      OneKey(b, start, p, k[..m], l[..n]);
      assert k == k[..m] + [k[m]] && l == l[..n] + [l[n]];
    }
  }

  lemma {:induction false} OneEntry(b: seq<Entry>, start: Option<string>, e: Entry, f: Entry, k: Key)
    requires DistinctIds(b) && Orderable(b)
    requires KeyOf(b, start, e, k) && KeyOf(b, start, f, k)
    ensures e == f
    decreases |k|
  {
    var m := |k| - 1;
    if m > 0 {
      var p :| p in b && e.parent == Some(p.id) && KeyOf(b, start, p, k[..m]);
      var q :| q in b && f.parent == Some(q.id) && KeyOf(b, start, q, k[..m]);
      OneEntry(b, start, p, q, k[..m]);
    }
    if e.id == f.id {
      SameId(b, e, f);
    }
  }

  /** At most one sequence is a preorder, so `IsPreorder` determines the segment. */
  lemma PreorderUnique(b: seq<Entry>, start: Option<string>, s: seq<Entry>, t: seq<Entry>)
    requires DistinctIds(b) && Orderable(b) && StartOutside(b, start)
    requires IsPreorder(b, start, s) && IsPreorder(b, start, t)
    ensures s == t
  {
    var ks :| KeysMatch(b, start, s, ks) && KeysSorted(ks);
    var kt :| KeysMatch(b, start, t, kt) && KeysSorted(kt);
    KeysWithin(b, start, s, ks, t, kt);
    KeysWithin(b, start, t, kt, s, ks);
    SortedKeysEqual(ks, kt);
    forall i | 0 <= i < |s| ensures s[i] == t[i] {
      OneEntry(b, start, s[i], t[i], ks[i]);
    }
  }

  lemma KeysWithin(b: seq<Entry>, start: Option<string>, s: seq<Entry>, ks: seq<Key>, t: seq<Entry>, kt: seq<Key>)
    requires DistinctIds(b) && StartOutside(b, start)
    requires KeysMatch(b, start, s, ks) && KeysMatch(b, start, t, kt) && IsPreorder(b, start, t)
    ensures forall k :: k in ks ==> k in kt
  {
    forall k | k in ks ensures k in kt {
      var i :| 0 <= i < |ks| && ks[i] == k;
      assert KeyOf(b, start, s[i], k);
      var j :| 0 <= j < |t| && t[j] == s[i];
      OneKey(b, start, s[i], k, kt[j]);
    }
  }

  /** Reachability only depends on which entries there are. */
  lemma {:induction false} KeySameEntries(b: seq<Entry>, c: seq<Entry>, start: Option<string>, e: Entry, key: Key)
    requires forall x :: x in b ==> x in c
    requires KeyOf(b, start, e, key)
    ensures KeyOf(c, start, e, key)
    decreases |key|
  {
    var n := |key| - 1;
    if n > 0 {
      var q :| q in b && e.parent == Some(q.id) && KeyOf(b, start, q, key[..n]);
      KeySameEntries(b, c, start, q, key[..n]);
    }
  }

  lemma PreorderSameEntries(b: seq<Entry>, c: seq<Entry>, start: Option<string>, s: seq<Entry>)
    requires forall x :: x in b <==> x in c
    requires IsPreorder(b, start, s)
    ensures IsPreorder(c, start, s)
  {
    var ks :| KeysMatch(b, start, s, ks) && KeysSorted(ks);
    forall i | 0 <= i < |s| ensures KeyOf(c, start, s[i], ks[i]) {
      KeySameEntries(b, c, start, s[i], ks[i]);
    }
    forall e, key | KeyOf(c, start, e, key) ensures e in s {
      KeySameEntries(c, b, start, e, key);
    }
  }

  lemma OutsideStart(entries: seq<Entry>, branchBindingId: string, parent: Option<string>)
    requires OutsideBranch(entries, branchBindingId, parent)
    ensures StartOutside(OfBranch(entries, Strip(branchBindingId)), parent)
  {
    hide Strip;
  }

  /** A segment does not depend on the insertion order of the entries. */
  lemma SegmentOrderFree(entries: seq<Entry>, other: seq<Entry>, branchBindingId: string, parent: Option<string>)
    requires DistinctIds(entries) && DistinctIds(other) && forall x :: x in entries <==> x in other
    requires OutsideBranch(entries, branchBindingId, parent)
    ensures Segment(entries, branchBindingId, parent) == Segment(other, branchBindingId, parent)
  {
    hide Strip, Preorder, OfBranch, KeyOf, StartOutside, IsPreorder;
    var b, c := OfBranch(entries, Strip(branchBindingId)), OfBranch(other, Strip(branchBindingId));
    assert OutsideBranch(other, branchBindingId, parent);
    SegmentStart(entries, branchBindingId, parent);
    SegmentStart(other, branchBindingId, parent);
    if Orderable(b) {
      SegmentIsPreorder(entries, branchBindingId, parent);
      SegmentIsPreorder(other, branchBindingId, parent);
      PreorderSameEntries(c, b, parent, Preorder(c, {}, parent));
      OutsideStart(entries, branchBindingId, parent);
      PreorderUnique(b, parent, Preorder(b, {}, parent), Preorder(c, {}, parent));
    }
  }

  // ---------------------------------------------------------------- stitching the transcript

  function IndexOf(s: seq<Entry>, id: string): (r: Option<nat>)
    ensures r.Some? ==> r.value < |s| && s[r.value].id == id && forall k :: 0 <= k < r.value ==> s[k].id != id
    ensures r.None? ==> forall k :: 0 <= k < |s| ==> s[k].id != id
  {
    if s == [] then None
    else if s[0].id == id then Some(0)
    else match IndexOf(s[1..], id)
      case None => None
      case Some(i) => assert forall k :: 0 < k < |s| ==> s[k] == s[1..][k - 1]; Some(i + 1)
  }

  method EntryIndex(s: seq<Entry>, id: string) returns (r: Option<nat>)
    ensures r == IndexOf(s, id)
  {
    for i := 0 to |s|
      invariant forall k :: 0 <= k < i ==> s[k].id != id
    {
      if s[i].id == id {
        return Some(i);
      }
    }
    r := None;
  }

  predicate HasId(entries: seq<Entry>, id: string) {
    exists e :: e in entries && e.id == id
  }

  /** The transcript one round of the composition turns another into. */
  function Stitch(entries: seq<Entry>, transcript: seq<Entry>, b: Binding): Result<seq<Entry>, TreeError> {
    var base := Strip(b.baseItemId);
    if b.parentId == "" then Segment(entries, b.id, None)
    else if base == "" then Err(BaseRequired)
    else if !HasId(entries, base) then Err(BaseNotFound(base))
    else
      match IndexOf(transcript, base)
      case None => Err(BaseNotInParent(base))
      case Some(i) =>
        match Segment(entries, b.id, Some(base))
        case Err(e) => Err(e)
        case Ok(own) => Ok(transcript[..i + 1] + own)
  }

  function ComposeChain(entries: seq<Entry>, chain: seq<Binding>): Result<seq<Entry>, TreeError> {
    if chain == [] then Ok([])
    else
      var n := |chain| - 1;
      match ComposeChain(entries, chain[..n])
      case Err(e) => Err(e)
      case Ok(t) => Stitch(entries, t, chain[n])
  }

  function Compose(tree: Tree, branchBindingId: string): Result<seq<Entry>, TreeError> {
    match Chain(tree, branchBindingId)
    case Err(e) => Err(e)
    case Ok(chain) => ComposeChain(tree.entries, chain)
  }

  lemma {:induction false} ComposeStopsAtError(entries: seq<Entry>, chain: seq<Binding>, i: nat)
    requires i <= |chain| && ComposeChain(entries, chain[..i]).Err?
    ensures ComposeChain(entries, chain) == ComposeChain(entries, chain[..i])
    decreases |chain| - i
  {
    if i < |chain| {
      assert chain[..i + 1][..i] == chain[..i];
      ComposeStopsAtError(entries, chain, i + 1);
    } else {
      assert chain[..i] == chain;
    }
  }

  ghost predicate DistinctBranches(chain: seq<Binding>) {
    forall i, j :: 0 <= i < j < |chain| ==> Strip(chain[i].id) != Strip(chain[j].id)
  }

  /** The transcript consists of entries of the branches of the chain. */
  ghost predicate WithinChain(entries: seq<Entry>, chain: seq<Binding>, t: seq<Entry>) {
    forall e :: e in t ==> e in entries && exists k :: 0 <= k < |chain| && Strip(e.branch) == Strip(chain[k].id)
  }

  lemma {:induction false} PreorderWithin(b: seq<Entry>, open: set<Option<string>>, parent: Option<string>)
    requires Orderable(b)
    ensures forall e :: e in Preorder(b, open, parent) ==> e in b
  {
    PreorderReachable(b, open, parent);
  }

  lemma SegmentWithin(entries: seq<Entry>, branchBindingId: string, parent: Option<string>)
    ensures Segment(entries, branchBindingId, parent).Ok? ==>
              forall e :: e in Segment(entries, branchBindingId, parent).value ==>
                e in entries && Strip(e.branch) == Strip(branchBindingId)
  {
    hide Strip;
    var b := OfBranch(entries, Strip(branchBindingId));
    if Orderable(b) {
      PreorderWithin(b, {}, parent);
    }
  }

  /** The fork item of a branch lies outside it: it came from an ancestor's transcript. */
  lemma ForkOutside(entries: seq<Entry>, chain: seq<Binding>, t: seq<Entry>, base: string)
    requires DistinctIds(entries) && chain != [] && DistinctBranches(chain)
    requires WithinChain(entries, chain[..|chain| - 1], t)
    requires IndexOf(t, base).Some?
    ensures OutsideBranch(entries, chain[|chain| - 1].id, Some(base))
  {
    hide Strip, DistinctIds;
    var fork := t[IndexOf(t, base).value];
    assert fork in t;
    var k :| 0 <= k < |chain| - 1 && Strip(fork.branch) == Strip(chain[..|chain| - 1][k].id);
    forall e | e in entries && e.id == base ensures Strip(e.branch) != Strip(chain[|chain| - 1].id) {
      SameId(entries, e, fork);
    }
  }

  lemma {:induction false} ComposeWithin(entries: seq<Entry>, chain: seq<Binding>)
    requires ComposeChain(entries, chain).Ok?
    ensures WithinChain(entries, chain, ComposeChain(entries, chain).value)
  {
    hide Strip, Segment, OfBranch;
    if chain != [] {
      var n := |chain| - 1;
      ComposeWithin(entries, chain[..n]);
      var t := ComposeChain(entries, chain[..n]).value;
      SegmentWithin(entries, chain[n].id, None);
      SegmentWithin(entries, chain[n].id, Some(Strip(chain[n].baseItemId)));
      forall e | e in t ensures exists k :: 0 <= k < |chain| && Strip(e.branch) == Strip(chain[k].id) {
        var k :| 0 <= k < n && Strip(e.branch) == Strip(chain[..n][k].id);
        assert chain[k] == chain[..n][k];
      }
    }
  }

  /** One round of the loop in `compose_selected_transcript`. */
  method StitchBinding(tree: Tree, transcript: seq<Entry>, binding: Binding) returns (r: Result<seq<Entry>, TreeError>)
    requires WellKeyed(tree)
    requires IndexOf(transcript, Strip(binding.baseItemId)).Some? ==> OutsideBranch(tree.entries, binding.id, Some(Strip(binding.baseItemId)))
    ensures r == Stitch(tree.entries, transcript, binding)
  {
    hide Strip, Segment, OfBranch, IndexOf, OutsideBranch, DistinctIds;
    var base := Strip(binding.baseItemId);
    if binding.parentId == "" {
      NoneOutside(tree.entries, binding.id);
      r := BranchDescendants(tree, binding.id, None);
      return;
    }
    if base == "" {
      return Err(BaseRequired);
    }
    if !HasId(tree.entries, base) {
      return Err(BaseNotFound(base));
    }
    var baseIndex := EntryIndex(transcript, base);
    if baseIndex.None? {
      return Err(BaseNotInParent(base));
    }
    var own := BranchDescendants(tree, binding.id, Some(base));
    IndexInRange(transcript, base);
    r := if own.Err? then Err(own.error) else Ok(transcript[..baseIndex.value + 1] + own.value);
  }

  method ComposeSelectedTranscript(tree: Tree, branchBindingId: string) returns (r: Result<seq<Entry>, TreeError>)
    requires WellKeyed(tree)
    ensures r == Compose(tree, branchBindingId)
  {
    hide Strip, Segment, OfBranch, IndexOf, OutsideBranch, IsChain, DistinctIds, Stitch;
    var ancestors := AncestorChain(tree, branchBindingId);
    if ancestors.Err? {
      return Err(ancestors.error);
    }
    var chain := ancestors.value;
    ChainDistinct(tree, branchBindingId);
    var transcript: seq<Entry> := [];
    for i := 0 to |chain|
      invariant ComposeChain(tree.entries, chain[..i]) == Ok(transcript)
    {
      var base := Strip(chain[i].baseItemId);
      ghost var upTo := chain[..i + 1];
      assert upTo[..i] == chain[..i];
      if IndexOf(transcript, base).Some? {
        ComposeWithin(tree.entries, chain[..i]);
        ForkOutside(tree.entries, upTo, transcript, base);
      }
      var next := StitchBinding(tree, transcript, chain[i]);
      assert next == ComposeChain(tree.entries, upTo);
      if next.Err? {
        ComposeStopsAtError(tree.entries, chain, i + 1);
        return next;
      }
      transcript := next.value;
    }
    assert chain[..|chain|] == chain;
    r := Ok(transcript);
  }

  lemma IndexInRange(s: seq<Entry>, id: string)
    ensures IndexOf(s, id).Some? ==> IndexOf(s, id).value < |s|
  {
  }

  lemma NoneOutside(entries: seq<Entry>, branchBindingId: string)
    ensures OutsideBranch(entries, branchBindingId, None)
  {
  }

  lemma ChainDistinct(tree: Tree, id: string)
    requires Chain(tree, id).Ok?
    ensures IsChain(tree, id, Chain(tree, id).value)
    ensures forall i :: 0 <= i <= |Chain(tree, id).value| ==> DistinctBranches(Chain(tree, id).value[..i])
  {
    hide Strip, ChainFrom;
    ChainExact(tree, id, Chain(tree, id).value);
  }

  // ---------------------------------------------------------------- what a transcript satisfies

  /** A key-sorted sequence of reachable entries repeats none. */
  lemma PreorderDistinct(b: seq<Entry>, start: Option<string>, s: seq<Entry>)
    requires DistinctIds(b) && StartOutside(b, start) && IsPreorder(b, start, s)
    ensures DistinctIds(s)
  {
    var ks :| KeysMatch(b, start, s, ks) && KeysSorted(ks);
    forall i, j | 0 <= i < j < |s| ensures s[i].id != s[j].id {
      if s[i].id == s[j].id {
        SameId(b, s[i], s[j]);
        OneKey(b, start, s[i], ks[i], ks[j]);
        KeyLessOrders(ks[i], ks[j]);
      }
    }
  }

  lemma SegmentDistinct(entries: seq<Entry>, branchBindingId: string, parent: Option<string>)
    requires DistinctIds(entries) && OutsideBranch(entries, branchBindingId, parent)
    ensures Segment(entries, branchBindingId, parent).Ok? ==> DistinctIds(Segment(entries, branchBindingId, parent).value)
  {
    hide Strip, OfBranch, Preorder, Orderable;
    var b := OfBranch(entries, Strip(branchBindingId));
    if Orderable(b) {
      SegmentIsPreorder(entries, branchBindingId, parent);
      SegmentStart(entries, branchBindingId, parent);
      OutsideStart(entries, branchBindingId, parent);
      PreorderDistinct(b, parent, Preorder(b, {}, parent));
    }
  }

  lemma {:induction false} ComposeDistinct(entries: seq<Entry>, chain: seq<Binding>)
    requires DistinctIds(entries) && DistinctBranches(chain) && ComposeChain(entries, chain).Ok?
    ensures DistinctIds(ComposeChain(entries, chain).value)
  {
    hide Strip, Segment, IndexOf;
    if chain != [] {
      var n := |chain| - 1;
      var t := ComposeChain(entries, chain[..n]).value;
      var base := Strip(chain[n].baseItemId);
      ComposeDistinct(entries, chain[..n]);
      ComposeWithin(entries, chain[..n]);
      IndexInRange(t, base);
      if chain[n].parentId == "" {
        NoneOutside(entries, chain[n].id);
        SegmentDistinct(entries, chain[n].id, None);
      } else {
        ForkOutside(entries, chain, t, base);
        SegmentDistinct(entries, chain[n].id, Some(base));
        SegmentWithin(entries, chain[n].id, Some(base));
        PrefixThenOwn(entries, chain, t[..IndexOf(t, base).value + 1], Segment(entries, chain[n].id, Some(base)).value);
      }
    }
  }

  lemma PrefixThenOwn(entries: seq<Entry>, chain: seq<Binding>, prefix: seq<Entry>, own: seq<Entry>)
    requires DistinctIds(entries) && chain != [] && DistinctBranches(chain)
    requires DistinctIds(prefix) && WithinChain(entries, chain[..|chain| - 1], prefix)
    requires DistinctIds(own)
    requires forall e :: e in own ==> e in entries && Strip(e.branch) == Strip(chain[|chain| - 1].id)
    ensures DistinctIds(prefix + own)
  {
    hide Strip;
    forall e, f | e in prefix && f in own ensures e.id != f.id {
      var k :| 0 <= k < |chain| - 1 && Strip(e.branch) == Strip(chain[..|chain| - 1][k].id);
      if e.id == f.id {
        SameId(entries, e, f);
      }
    }
  }

  /** A successful transcript repeats no entry. */
  lemma TranscriptDistinct(tree: Tree, branchBindingId: string)
    requires WellKeyed(tree) && Compose(tree, branchBindingId).Ok?
    ensures DistinctIds(Compose(tree, branchBindingId).value)
  {
    hide Strip, Segment, IndexOf, IsChain;
    ChainDistinct(tree, branchBindingId);
    var chain := Chain(tree, branchBindingId).value;
    assert chain[..|chain|] == chain;
    ComposeDistinct(tree.entries, chain);
  }

  /** The transcript, or the error, is the same for every insertion order of `entries_by_id`. */
  lemma ComposeOrderFree(tree: Tree, other: seq<Entry>, branchBindingId: string)
    requires WellKeyed(tree) && DistinctIds(other) && forall e :: e in tree.entries <==> e in other
    ensures Compose(tree, branchBindingId) == Compose(tree.(entries := other), branchBindingId)
  {
    hide Strip, Segment, IndexOf, IsChain, ComposeChain, ChainFrom;
    ChainSameBindings(tree, other, branchBindingId);
    if Chain(tree, branchBindingId).Ok? {
      ChainDistinct(tree, branchBindingId);
      var chain := Chain(tree, branchBindingId).value;
      assert chain[..|chain|] == chain;
      ComposeChainOrderFree(tree.entries, other, chain);
    }
  }

  lemma {:induction false} ComposeChainOrderFree(entries: seq<Entry>, other: seq<Entry>, chain: seq<Binding>)
    requires DistinctIds(entries) && DistinctIds(other) && forall e :: e in entries <==> e in other
    requires DistinctBranches(chain)
    ensures ComposeChain(entries, chain) == ComposeChain(other, chain)
  {
    hide Strip, Segment, IndexOf, DistinctIds;
    if chain != [] {
      var n := |chain| - 1;
      ComposeChainOrderFree(entries, other, chain[..n]);
      if ComposeChain(entries, chain[..n]).Ok? {
        var t := ComposeChain(entries, chain[..n]).value;
        var base := Strip(chain[n].baseItemId);
        NoneOutside(entries, chain[n].id);
        SegmentOrderFree(entries, other, chain[n].id, None);
        if IndexOf(t, base).Some? {
          ComposeWithin(entries, chain[..n]);
          ForkOutside(entries, chain, t, base);
          SegmentOrderFree(entries, other, chain[n].id, Some(base));
        }
      }
    }
  }

  lemma ChainSameBindings(tree: Tree, other: seq<Entry>, id: string)
    ensures Chain(tree, id) == Chain(tree.(entries := other), id)
  {
    hide Strip;
    if Validate(tree, id).Ok? {
      ChainFromSameBindings(tree, other, Validate(tree, id).value, {});
    }
  }

  lemma {:induction false} ChainFromSameBindings(tree: Tree, other: seq<Entry>, key: string, seen: set<string>)
    requires key in tree.bindings
    ensures ChainFrom(tree, key, seen) == ChainFrom(tree.(entries := other), key, seen)
    decreases |Unseen(tree, seen)|
  {
    hide Strip;
    var tree' := tree.(entries := other);
    var current := Strip(tree.bindings[key].id);
    if current !in seen {
      var parent := Validate(tree, Strip(tree.bindings[key].parentId));
      assert key in Unseen(tree, seen) && key !in Unseen(tree, seen + {current});
      StrictSubsetSmaller(Unseen(tree, seen + {current}), Unseen(tree, seen));
      if parent.Ok? {
        ChainFromSameBindings(tree, other, parent.value, seen + {current});
      }
    }
  }

  // ---------------------------------------------------------------- root branches

  /** A segment is the preorder of the branch's entries below its start, and fails exactly when they cannot be ordered. */
  lemma SegmentExactly(entries: seq<Entry>, branchBindingId: string, parent: Option<string>, own: seq<Entry>)
    requires DistinctIds(entries) && OutsideBranch(entries, branchBindingId, parent)
    ensures var b := OfBranch(entries, Strip(branchBindingId));
            && (Segment(entries, branchBindingId, parent) == Ok(own) <==> Orderable(b) && IsPreorder(b, parent, own))
            && (Segment(entries, branchBindingId, parent).Err? <==> !Orderable(b))
            && (Segment(entries, branchBindingId, parent).Err? ==> Segment(entries, branchBindingId, parent) == Err(Unorderable))
  {
    hide Strip, OfBranch, Preorder, IsPreorder, DistinctIds, OutsideBranch, StartOutside, OnPath;
    var b := OfBranch(entries, Strip(branchBindingId));
    SegmentStart(entries, branchBindingId, parent);
    OutsideStart(entries, branchBindingId, parent);
    SegmentIsPreorder(entries, branchBindingId, parent);
    if Orderable(b) && IsPreorder(b, parent, own) {
      hide Orderable;
      PreorderUnique(b, parent, own, Segment(entries, branchBindingId, parent).value);
    }
  }

  lemma RootChain(tree: Tree, id: string)
    requires Strip(id) != "" && Strip(id) in tree.bindings && Strip(tree.bindings[Strip(id)].parentId) == ""
    ensures Compose(tree, id) == Stitch(tree.entries, [], tree.bindings[Strip(id)])
  {
    hide Strip, Stitch;
    var b := tree.bindings[Strip(id)];
    assert ChainFrom(tree, Strip(id), {}) == Ok([b]);
    var chain := [b];
    assert chain[..0] == [] && chain[0] == b;
    assert ComposeChain(tree.entries, chain[..0]) == Ok([]);
    assert ComposeChain(tree.entries, chain) == Stitch(tree.entries, [], b);
  }

  /**
   The transcript of a branch without a parent is the preorder of all its entries; the only failure is
   that they cannot be ordered.
   */
  lemma RootLaw(tree: Tree, id: string, r: seq<Entry>)
    requires WellKeyed(tree) && Strip(id) != "" && Strip(id) in tree.bindings
    requires tree.bindings[Strip(id)].parentId == ""
    ensures var own := OfBranch(tree.entries, Strip(tree.bindings[Strip(id)].id));
            && (Compose(tree, id) == Ok(r) <==> Orderable(own) && IsPreorder(own, None, r))
            && (Compose(tree, id).Err? <==> !Orderable(own))
            && (Compose(tree, id).Err? ==> Compose(tree, id) == Err(Unorderable))
  {
    assert Strip("") == "";
    hide Strip, OfBranch, Segment, Compose, Orderable, IsPreorder;
    RootChain(tree, id);
    NoneOutside(tree.entries, tree.bindings[Strip(id)].id);
    SegmentExactly(tree.entries, tree.bindings[Strip(id)].id, None, r);
  }

  /** A parent id of blanks only is no parent to the walk but one to the composition, which then always fails. */
  lemma BlankParentFails(tree: Tree, id: string)
    requires Strip(id) != "" && Strip(id) in tree.bindings
    requires tree.bindings[Strip(id)].parentId != "" && Strip(tree.bindings[Strip(id)].parentId) == ""
    ensures var base := Strip(tree.bindings[Strip(id)].baseItemId);
            Compose(tree, id) == Err(if base == "" then BaseRequired else if !HasId(tree.entries, base) then BaseNotFound(base) else BaseNotInParent(base))
  {
    hide Strip, Compose, Segment;
    RootChain(tree, id);
  }

  // ---------------------------------------------------------------- fork law and frame

  /** A child binding's chain is its parent's chain followed by the child, unless that closes a cycle. */
  lemma ChainOfChild(tree: Tree, child: string, c: seq<Binding>)
    requires Strip(child) != "" && Strip(child) in tree.bindings
    requires Strip(tree.bindings[Strip(child)].parentId) != ""
    ensures var b := tree.bindings[Strip(child)];
            IsChain(tree, child, c + [b]) <==>
              IsChain(tree, b.parentId, c) && forall k :: 0 <= k < |c| ==> Strip(c[k].id) != Strip(b.id)
  {
    hide Strip;
    var b := tree.bindings[Strip(child)];
    var longer := c + [b];
    if IsChain(tree, child, longer) {
      assert longer[|longer| - 1] == b;
      assert c != [];
      ChainPrefix(tree, child, longer);
      assert longer[..|c|] == c;
      assert forall k :: 0 <= k < |c| ==> longer[k] == c[k];
    }
  }

  /** `child` forks off its parent's transcript `t` at index `i` and continues with its own entries. */
  ghost predicate ForksAt(tree: Tree, b: Binding, t: seq<Entry>, i: nat, own: seq<Entry>) {
    && Compose(tree, b.parentId) == Ok(t)
    && Strip(b.baseItemId) != ""
    && i < |t| && t[i].id == Strip(b.baseItemId)
    && Orderable(OfBranch(tree.entries, Strip(b.id)))
    && IsPreorder(OfBranch(tree.entries, Strip(b.id)), Some(Strip(b.baseItemId)), own)
  }

  /** The child is not one of its own ancestors. */
  ghost predicate OffChain(tree: Tree, b: Binding) {
    Chain(tree, b.parentId).Ok? && forall k :: 0 <= k < |Chain(tree, b.parentId).value| ==> Strip(Chain(tree, b.parentId).value[k].id) != Strip(b.id)
  }

  /** What the composition does with a child that is off its parent's chain. */
  lemma ComposeChild(tree: Tree, child: string)
    requires Strip(child) != "" && Strip(child) in tree.bindings
    requires Strip(tree.bindings[Strip(child)].parentId) != ""
    ensures var b := tree.bindings[Strip(child)];
            && (Chain(tree, child).Ok? <==> OffChain(tree, b))
            && (OffChain(tree, b) ==>
                  Compose(tree, child) == match Compose(tree, b.parentId) case Err(e) => Err(e) case Ok(t) => Stitch(tree.entries, t, b))
  {
    hide Strip, Segment, IndexOf, IsChain, ChainFrom, Validate, Stitch;
    var b := tree.bindings[Strip(child)];
    if Chain(tree, child).Ok? {
      var whole := Chain(tree, child).value;
      ChainExact(tree, child, whole);
      LastOfChain(tree, child, whole);
      var c := whole[..|whole| - 1];
      assert whole == c + [b];
      ChainOfChild(tree, child, c);
      ChainExact(tree, b.parentId, c);
    }
    if OffChain(tree, b) {
      var c := Chain(tree, b.parentId).value;
      ChainExact(tree, b.parentId, c);
      ChainOfChild(tree, child, c);
      ChainExact(tree, child, c + [b]);
      assert (c + [b])[..|c|] == c;
    }
  }

  /** The base item found in the parent's transcript is no entry of the child's branch. */
  lemma BaseOutside(tree: Tree, child: string, t: seq<Entry>)
    requires WellKeyed(tree) && Strip(child) != "" && Strip(child) in tree.bindings
    requires var b := tree.bindings[Strip(child)];
             Strip(b.parentId) != "" && OffChain(tree, b) && Compose(tree, b.parentId) == Ok(t) && IndexOf(t, Strip(b.baseItemId)).Some?
    ensures OutsideBranch(tree.entries, tree.bindings[Strip(child)].id, Some(Strip(tree.bindings[Strip(child)].baseItemId)))
  {
    hide Strip, Segment, IndexOf, IsChain, ChainFrom, Validate, OutsideBranch, DistinctIds;
    var b := tree.bindings[Strip(child)];
    var c := Chain(tree, b.parentId).value;
    ChainExact(tree, b.parentId, c);
    ChainOfChild(tree, child, c);
    ChainExact(tree, child, c + [b]);
    ChainDistinct(tree, child);
    assert (c + [b])[..|c|] == c && (c + [b])[..|c| + 1] == c + [b];
    ComposeWithin(tree.entries, c);
    ForkOutside(tree.entries, c + [b], t, Strip(b.baseItemId));
  }

  /**
   The fork law: a child's transcript is exactly its parent's transcript up to and including the
   base item, followed by the child's own preorder below it.
   */
  lemma ForkLaw(tree: Tree, child: string, r: seq<Entry>)
    requires WellKeyed(tree)
    requires Strip(child) != "" && Strip(child) in tree.bindings
    requires Strip(tree.bindings[Strip(child)].parentId) != ""
    ensures var b := tree.bindings[Strip(child)];
            Compose(tree, child) == Ok(r) <==>
              OffChain(tree, b) && exists t, i, own :: ForksAt(tree, b, t, i, own) && r == t[..i + 1] + own
  {
    var b := tree.bindings[Strip(child)];
    hide Strip, Compose, OffChain, ForksAt;
    if Compose(tree, child) == Ok(r) {
      var t, i, own := ChildForks(tree, child, r);
    }
    if OffChain(tree, b) && exists t, i, own :: ForksAt(tree, b, t, i, own) && r == t[..i + 1] + own {
      var t, i, own :| ForksAt(tree, b, t, i, own) && r == t[..i + 1] + own;
      ForkComposes(tree, child, t, i, own);
    }
  }

  /** A binding with a parent contributes the prefix up to its base item and its own segment. */
  lemma StitchedAt(entries: seq<Entry>, t: seq<Entry>, b: Binding, r: seq<Entry>)
    requires b.parentId != ""
    ensures var base := Strip(b.baseItemId);
            Stitch(entries, t, b) == Ok(r) <==>
              && base != "" && HasId(entries, base) && IndexOf(t, base).Some? && IndexOf(t, base).value < |t|
              && Segment(entries, b.id, Some(base)).Ok?
              && r == t[..IndexOf(t, base).value + 1] + Segment(entries, b.id, Some(base)).value
  {
    hide Strip, Segment, IndexOf, HasId;
    IndexInRange(t, Strip(b.baseItemId));
  }

  lemma ChildForks(tree: Tree, child: string, r: seq<Entry>) returns (t: seq<Entry>, i: nat, own: seq<Entry>)
    requires WellKeyed(tree) && Strip(child) != "" && Strip(child) in tree.bindings
    requires Strip(tree.bindings[Strip(child)].parentId) != "" && Compose(tree, child) == Ok(r)
    ensures var b := tree.bindings[Strip(child)]; OffChain(tree, b) && ForksAt(tree, b, t, i, own) && r == t[..i + 1] + own
  {
    var b := tree.bindings[Strip(child)];
    BlankParent(b);
    ComposeChild(tree, child);
    FailedChain(tree, child);
    hide *;
    t := Compose(tree, b.parentId).value;
    StitchedAt(tree.entries, t, b, r);
    i, own := ForkParts(tree, child, t, r);
  }

  lemma ForkParts(tree: Tree, child: string, t: seq<Entry>, r: seq<Entry>) returns (i: nat, own: seq<Entry>)
    requires WellKeyed(tree) && Strip(child) != "" && Strip(child) in tree.bindings
    requires var b := tree.bindings[Strip(child)];
             Strip(b.parentId) != "" && OffChain(tree, b) && Compose(tree, b.parentId) == Ok(t) && Stitch(tree.entries, t, b) == Ok(r)
    ensures ForksAt(tree, tree.bindings[Strip(child)], t, i, own) && r == t[..i + 1] + own
  {
    var b := tree.bindings[Strip(child)];
    BlankParent(b);
    StitchedAt(tree.entries, t, b, r);
    var base := Strip(b.baseItemId);
    i := IndexOf(t, base).value;
    hide Strip, Segment, IndexOf, OffChain, OfBranch, Orderable, IsPreorder, OutsideBranch, DistinctIds, Compose, Chain, Stitch, HasId;
    BaseOutside(tree, child, t);
    FoundAt(t, base, i);
    own := Segment(tree.entries, b.id, Some(base)).value;
    SegmentExactly(tree.entries, b.id, Some(base), own);
  }

  lemma ForkComposes(tree: Tree, child: string, t: seq<Entry>, i: nat, own: seq<Entry>)
    requires WellKeyed(tree) && Strip(child) != "" && Strip(child) in tree.bindings
    requires var b := tree.bindings[Strip(child)];
             Strip(b.parentId) != "" && OffChain(tree, b) && ForksAt(tree, b, t, i, own)
    ensures i < |t| && Compose(tree, child) == Ok(t[..i + 1] + own)
  {
    ForkStitches(tree, child, t, i, own);
    ComposeChild(tree, child);
    hide Strip, OffChain, Compose, Chain, Stitch, WellKeyed, OfBranch, Orderable, IsPreorder;
  }

  lemma ForkStitches(tree: Tree, child: string, t: seq<Entry>, i: nat, own: seq<Entry>)
    requires WellKeyed(tree) && Strip(child) != "" && Strip(child) in tree.bindings
    requires var b := tree.bindings[Strip(child)];
             Strip(b.parentId) != "" && OffChain(tree, b) && ForksAt(tree, b, t, i, own)
    ensures i < |t| && Stitch(tree.entries, t, tree.bindings[Strip(child)]) == Ok(t[..i + 1] + own)
  {
    var b := tree.bindings[Strip(child)];
    BlankParent(b);
    ForkIndex(tree, child, t, i);
    hide Strip, Segment, IndexOf, OffChain, OfBranch, Orderable, IsPreorder, OutsideBranch, Compose, Chain, Stitch, HasId;
    StitchesOwn(tree.entries, t, b, i, own);
  }

  lemma StitchesOwn(entries: seq<Entry>, t: seq<Entry>, b: Binding, i: nat, own: seq<Entry>)
    requires DistinctIds(entries) && b.parentId != "" && Strip(b.baseItemId) != "" && HasId(entries, Strip(b.baseItemId))
    requires IndexOf(t, Strip(b.baseItemId)) == Some(i) && i < |t| && OutsideBranch(entries, b.id, Some(Strip(b.baseItemId)))
    requires Orderable(OfBranch(entries, Strip(b.id))) && IsPreorder(OfBranch(entries, Strip(b.id)), Some(Strip(b.baseItemId)), own)
    ensures Stitch(entries, t, b) == Ok(t[..i + 1] + own)
  {
    hide Strip, Segment, IndexOf, OfBranch, Orderable, IsPreorder, OutsideBranch, HasId, DistinctIds;
    SegmentExactly(entries, b.id, Some(Strip(b.baseItemId)), own);
  }

  lemma ForkIndex(tree: Tree, child: string, t: seq<Entry>, i: nat)
    requires WellKeyed(tree) && Strip(child) != "" && Strip(child) in tree.bindings
    requires var b := tree.bindings[Strip(child)];
             Strip(b.parentId) != "" && OffChain(tree, b) && Compose(tree, b.parentId) == Ok(t) && i < |t| && t[i].id == Strip(b.baseItemId)
    ensures var b := tree.bindings[Strip(child)]; var base := Strip(b.baseItemId);
            IndexOf(t, base) == Some(i) && HasId(tree.entries, base) && OutsideBranch(tree.entries, b.id, Some(base))
  {
    var b := tree.bindings[Strip(child)];
    hide Strip, Segment, IndexOf, OffChain, OutsideBranch, DistinctIds, Compose, Chain, HasId;
    TranscriptDistinct(tree, b.parentId);
    OnlyIndex(t, Strip(b.baseItemId), i);
    TranscriptEntry(tree, b.parentId, t, i);
    BaseOutside(tree, child, t);
  }

  lemma FailedChain(tree: Tree, id: string)
    ensures Compose(tree, id).Ok? ==> Chain(tree, id).Ok?
    ensures Chain(tree, id).Err? ==> Compose(tree, id) == Err(Chain(tree, id).error)
  {
    hide Chain, ComposeChain;
  }

  /**
   Which error a branch with a parent ends in: that of its chain, else that of the parent's transcript,
   else the first of these: no base item is named, it does not exist, it is not in the parent's
   transcript, the branch's entries cannot be ordered.
   */
  lemma ForkErrors(tree: Tree, child: string)
    requires WellKeyed(tree)
    requires Strip(child) != "" && Strip(child) in tree.bindings
    requires Strip(tree.bindings[Strip(child)].parentId) != ""
    ensures var b := tree.bindings[Strip(child)];
            && (!OffChain(tree, b) ==> Chain(tree, child).Err? && Compose(tree, child) == Err(Chain(tree, child).error))
            && (OffChain(tree, b) && Compose(tree, b.parentId).Err? ==> Compose(tree, child) == Err(Compose(tree, b.parentId).error))
            && (OffChain(tree, b) && Compose(tree, b.parentId).Ok? ==>
                  var base, t := Strip(b.baseItemId), Compose(tree, b.parentId).value;
                  && (base == "" ==> Compose(tree, child) == Err(BaseRequired))
                  && (base != "" && !HasId(tree.entries, base) ==> Compose(tree, child) == Err(BaseNotFound(base)))
                  && (base != "" && HasId(tree.entries, base) && !HasId(t, base) ==> Compose(tree, child) == Err(BaseNotInParent(base)))
                  && (base != "" && HasId(t, base) ==>
                        (Compose(tree, child).Err? <==> !Orderable(OfBranch(tree.entries, Strip(b.id))))
                        && (Compose(tree, child).Err? ==> Compose(tree, child) == Err(Unorderable))))
  {
    var b := tree.bindings[Strip(child)];
    BlankParent(b);
    ComposeChild(tree, child);
    FailedChain(tree, child);
    hide Strip, Segment, IndexOf, OffChain, OfBranch, Orderable, IsPreorder, OutsideBranch, DistinctIds, Compose;
    var base := Strip(b.baseItemId);
    if OffChain(tree, b) && Compose(tree, b.parentId).Ok? {
      var t := Compose(tree, b.parentId).value;
      IndexedId(t, base);
      if HasId(t, base) && base != "" {
        var i := IndexOf(t, base).value;
        FoundAt(t, base, i);
        TranscriptEntry(tree, b.parentId, t, i);
        BaseOutside(tree, child, t);
        SegmentExactly(tree.entries, b.id, Some(base), []);
      }
    }
  }

  lemma IndexedId(t: seq<Entry>, id: string)
    ensures HasId(t, id) <==> IndexOf(t, id).Some?
  {
    if e :| e in t && e.id == id {
      var i :| 0 <= i < |t| && t[i] == e;
    }
    if IndexOf(t, id).Some? {
      assert t[IndexOf(t, id).value] in t;
    }
  }

  lemma BlankParent(b: Binding)
    ensures Strip(b.parentId) != "" ==> b.parentId != ""
  {
  }

  lemma LastOfChain(tree: Tree, id: string, c: seq<Binding>)
    requires IsChain(tree, id, c)
    ensures Strip(id) in tree.bindings && c[|c| - 1] == tree.bindings[Strip(id)]
  {
    hide Strip;
  }

  lemma FoundAt(t: seq<Entry>, id: string, i: nat)
    requires IndexOf(t, id) == Some(i)
    ensures i < |t| && t[i].id == id
  {
  }

  lemma FoundEntry(entries: seq<Entry>, chain: seq<Binding>, t: seq<Entry>, id: string)
    requires WithinChain(entries, chain, t)
    ensures IndexOf(t, id).Some? ==> HasId(entries, id)
  {
    hide Strip, IndexOf;
    if IndexOf(t, id).Some? {
      var i := IndexOf(t, id).value;
      FoundAt(t, id, i);
      assert t[i] in t;
    }
  }

  lemma OnlyIndex(t: seq<Entry>, id: string, i: nat)
    requires DistinctIds(t) && i < |t| && t[i].id == id
    ensures IndexOf(t, id) == Some(i)
  {
  }

  lemma TranscriptEntry(tree: Tree, id: string, t: seq<Entry>, i: nat)
    requires Compose(tree, id) == Ok(t) && i < |t|
    ensures HasId(tree.entries, t[i].id)
  {
    hide Strip, Segment, IndexOf;
    ComposeWithin(tree.entries, Chain(tree, id).value);
    assert t[i] in t;
  }

  /**
   The frame: an entry added to a branch outside the chain changes no successful transcript and
   repairs no failing one. (A base item that did not exist may now exist, but in the wrong branch.)
   */
  lemma ComposeFrame(tree: Tree, x: Entry, branchBindingId: string)
    requires WellKeyed(tree) && !HasId(tree.entries, x.id)
    requires Chain(tree, branchBindingId).Ok? ==>
               forall k :: 0 <= k < |Chain(tree, branchBindingId).value| ==> Strip(Chain(tree, branchBindingId).value[k].id) != Strip(x.branch)
    ensures WellKeyed(tree.(entries := tree.entries + [x]))
    ensures var after := Compose(tree.(entries := tree.entries + [x]), branchBindingId);
            var before := Compose(tree, branchBindingId);
            after.Ok? == before.Ok? && (before.Ok? ==> after == before)
  {
    hide Strip, Segment, IndexOf, ChainFrom, ComposeChain;
    ChainSameBindings(tree, tree.entries + [x], branchBindingId);
    assert forall e :: e in tree.entries ==> e.id != x.id;
    if Chain(tree, branchBindingId).Ok? {
      ComposeChainFrame(tree.entries, x, Chain(tree, branchBindingId).value);
    }
  }

  lemma {:induction false} ComposeChainFrame(entries: seq<Entry>, x: Entry, chain: seq<Binding>)
    requires !HasId(entries, x.id)
    requires forall k :: 0 <= k < |chain| ==> Strip(chain[k].id) != Strip(x.branch)
    ensures var after, before := ComposeChain(entries + [x], chain), ComposeChain(entries, chain);
            after.Ok? == before.Ok? && (before.Ok? ==> after == before)
  {
    hide Strip, Segment, IndexOf;
    if chain != [] {
      var n := |chain| - 1;
      ComposeChainFrame(entries, x, chain[..n]);
      if ComposeChain(entries, chain[..n]).Ok? {
        var t := ComposeChain(entries, chain[..n]).value;
        var base := Strip(chain[n].baseItemId);
        SegmentFrame(entries, x, chain[n].id, None);
        SegmentFrame(entries, x, chain[n].id, Some(base));
        ComposeWithin(entries, chain[..n]);
        FoundEntry(entries, chain[..n], t, base);
      }
    }
  }

  lemma SegmentFrame(entries: seq<Entry>, x: Entry, branchBindingId: string, parent: Option<string>)
    requires Strip(branchBindingId) != Strip(x.branch)
    ensures Segment(entries + [x], branchBindingId, parent) == Segment(entries, branchBindingId, parent)
  {
    hide Strip;
    assert (entries + [x])[..|entries|] == entries;
  }
}
