/**
 Merging elements that share a key, in place: the elements of one key become one element at the
 place of the first, elements without a key stay as they are.
 */
module KeyedMerge {

  datatype Rule<!D> = Rule(key: D -> string, merge: (D, D) -> D)

  /** The element at `i` opens an entry of its own. */
  predicate IsHead<D>(rule: Rule<D>, s: seq<D>, i: nat)
    requires i < |s|
  {
    rule.key(s[i]) == "" || forall j :: 0 <= j < i ==> rule.key(s[j]) != rule.key(s[i])
  }

  /** The places of the entries, in the order of first occurrence. */
  function Heads<D>(rule: Rule<D>, s: seq<D>): (hs: seq<nat>)
    ensures forall j :: 0 <= j < |hs| ==> hs[j] < |s|
  {
    if s == [] then []
    else
      var n := |s| - 1;
      Heads(rule, s[..n]) + (if IsHead(rule, s, n) then [n] else [])
  }

  predicate HasKey<D>(rule: Rule<D>, s: seq<D>, key: string) {
    exists i :: 0 <= i < |s| && rule.key(s[i]) == key
  }

  /** All elements with a key, merged one after the other. */
  function Merged<D>(rule: Rule<D>, s: seq<D>, key: string): D
    requires HasKey(rule, s, key)
  {
    var n := |s| - 1;
    if rule.key(s[n]) != key then
      EarlierKey(rule, s, key);
      Merged(rule, s[..n], key)
    else if HasKey(rule, s[..n], key) then rule.merge(Merged(rule, s[..n], key), s[n])
    else s[n]
  }

  lemma EarlierKey<D>(rule: Rule<D>, s: seq<D>, key: string)
    requires HasKey(rule, s, key) && rule.key(s[|s| - 1]) != key
    ensures HasKey(rule, s[..|s| - 1], key)
  {
    var i :| 0 <= i < |s| && rule.key(s[i]) == key;
    assert rule.key(s[..|s| - 1][i]) == key;
  }

  function Entry<D>(rule: Rule<D>, s: seq<D>, h: nat): D
    requires h < |s|
  {
    if rule.key(s[h]) == "" then s[h] else Merged(rule, s, rule.key(s[h]))
  }

  function Deduped<D>(rule: Rule<D>, s: seq<D>): seq<D> {
    var hs := Heads(rule, s);
    seq(|hs|, j requires 0 <= j < |hs| => Entry(rule, s, hs[j]))
  }

  // ---------------------------------------------------------------- one more element

  lemma HeadsAppend<D>(rule: Rule<D>, s: seq<D>, d: D)
    ensures Heads(rule, s + [d]) == Heads(rule, s) + (if IsHead(rule, s + [d], |s|) then [|s|] else [])
  {
    assert (s + [d])[..|s|] == s;
  }

  lemma EntryAppend<D>(rule: Rule<D>, s: seq<D>, d: D, h: nat)
    requires h < |s|
    ensures Entry(rule, s + [d], h)
            == if rule.key(s[h]) != "" && rule.key(s[h]) == rule.key(d) then rule.merge(Entry(rule, s, h), d) else Entry(rule, s, h)
  {
    var t := s + [d];
    assert t[..|s|] == s && t[h] == s[h] && t[|s|] == d;
    assert HasKey(rule, s, rule.key(s[h]));
  }

  lemma EntryOfHead<D>(rule: Rule<D>, s: seq<D>, d: D)
    requires IsHead(rule, s + [d], |s|)
    ensures Entry(rule, s + [d], |s|) == d
  {
    var t := s + [d];
    assert t[..|s|] == s && t[|s|] == d;
    if HasKey(rule, s, rule.key(d)) {
      var i :| 0 <= i < |s| && rule.key(s[i]) == rule.key(d);
      assert t[i] == s[i];
    }
  }

  /** A new key, or no key, adds an entry at the end. */
  lemma DedupedNew<D>(rule: Rule<D>, s: seq<D>, d: D)
    requires rule.key(d) == "" || !HasKey(rule, s, rule.key(d))
    ensures Deduped(rule, s + [d]) == Deduped(rule, s) + [d]
  {
    var hs, t := Heads(rule, s), s + [d];
    HeadsAppend(rule, s, d);
    forall j | 0 <= j < |s| && rule.key(d) != "" ensures rule.key(t[j]) != rule.key(d) {
      assert t[j] == s[j];
    }
    assert IsHead(rule, t, |s|);
    EntryOfHead(rule, s, d);
    forall j | 0 <= j < |hs| ensures Entry(rule, t, hs[j]) == Entry(rule, s, hs[j]) {
      EntryAppend(rule, s, d, hs[j]);
    }
  }

  lemma KnownIsNoHead<D>(rule: Rule<D>, s: seq<D>, d: D, h: nat)
    requires rule.key(d) != "" && h < |s| && rule.key(s[h]) == rule.key(d)
    ensures Heads(rule, s + [d]) == Heads(rule, s)
  {
    HeadsAppend(rule, s, d);
    var t := s + [d];
    assert t[h] == s[h] && t[|s|] == d;
  }

  /** A known key replaces the entry of that key and nothing else. */
  lemma DedupedKnown<D>(rule: Rule<D>, s: seq<D>, d: D, j: nat)
    requires rule.key(d) != "" && j < |Heads(rule, s)| && rule.key(s[Heads(rule, s)[j]]) == rule.key(d)
    ensures Deduped(rule, s + [d]) == Deduped(rule, s)[j := rule.merge(Deduped(rule, s)[j], d)]
  {
    hide Heads, Entry, IsHead;
    var hs, t := Heads(rule, s), s + [d];
    KnownIsNoHead(rule, s, d, hs[j]);
    HeadsExact(rule, s);
    forall i | 0 <= i < |hs|
      ensures Entry(rule, t, hs[i]) == if i == j then rule.merge(Entry(rule, s, hs[i]), d) else Entry(rule, s, hs[i])
    {
      EntryAppend(rule, s, d, hs[i]);
    }
  }

  // ---------------------------------------------------------------- entries and keys

  lemma {:induction false} HeadsExact<D>(rule: Rule<D>, s: seq<D>)
    ensures forall i :: i in Heads(rule, s) <==> 0 <= i < |s| && IsHead(rule, s, i)
    ensures forall a, b :: 0 <= a < b < |Heads(rule, s)| ==> Heads(rule, s)[a] < Heads(rule, s)[b]
    ensures forall a, b :: 0 <= a < b < |Heads(rule, s)| && rule.key(s[Heads(rule, s)[a]]) != ""
                           ==> rule.key(s[Heads(rule, s)[a]]) != rule.key(s[Heads(rule, s)[b]])
  {
    if s != [] {
      var n := |s| - 1;
      var init, hs := s[..n], Heads(rule, s);
      HeadsExact(rule, init);
      forall i | 0 <= i < n ensures IsHead(rule, init, i) == IsHead(rule, s, i) {
        assert forall j :: 0 <= j <= i ==> init[j] == s[j];
      }
      assert forall j :: 0 <= j < |Heads(rule, init)| ==> hs[j] == Heads(rule, init)[j] && hs[j] < n;
      forall a, b | 0 <= a < b < |hs| && rule.key(s[hs[a]]) != "" ensures rule.key(s[hs[a]]) != rule.key(s[hs[b]]) {
        assert hs[b] in hs;
        assert IsHead(rule, s, hs[b]);
      }
    }
  }

  lemma {:induction false} HeadOfKey<D>(rule: Rule<D>, s: seq<D>, i: nat) returns (j: nat)
    requires i < |s| && rule.key(s[i]) != ""
    ensures j < |Heads(rule, s)| && Heads(rule, s)[j] <= i && rule.key(s[Heads(rule, s)[j]]) == rule.key(s[i])
    decreases i
  {
    HeadsExact(rule, s);
    if IsHead(rule, s, i) {
      assert i in Heads(rule, s);
      j :| 0 <= j < |Heads(rule, s)| && Heads(rule, s)[j] == i;
    } else {
      var h :| 0 <= h < i && rule.key(s[h]) == rule.key(s[i]);
      j := HeadOfKey(rule, s, h);
    }
  }

  /** Every element with a key is merged into one entry, which stands for the first element of that key. */
  lemma EntryOfKey<D>(rule: Rule<D>, s: seq<D>, i: nat) returns (j: nat)
    requires i < |s| && rule.key(s[i]) != ""
    ensures j < |Deduped(rule, s)| && j < |Heads(rule, s)| && Heads(rule, s)[j] <= i
    ensures rule.key(s[Heads(rule, s)[j]]) == rule.key(s[i]) && HasKey(rule, s, rule.key(s[i]))
    ensures Deduped(rule, s)[j] == Merged(rule, s, rule.key(s[i]))
  {
    j := HeadOfKey(rule, s, i);
  }

  /** A property kept by merging holds of every merged element whose parts have it. */
  lemma {:induction false} MergedKeeps<D>(rule: Rule<D>, s: seq<D>, key: string, good: D -> bool)
    requires HasKey(rule, s, key)
    requires forall i :: 0 <= i < |s| && rule.key(s[i]) == key ==> good(s[i])
    requires forall a, b: D {:trigger rule.merge(a, b)} :: good(a) && good(b) ==> good(rule.merge(a, b))
    ensures good(Merged(rule, s, key))
  {
    var n := |s| - 1;
    var init := s[..n];
    if rule.key(s[n]) != key {
      EarlierKey(rule, s, key);
    }
    if HasKey(rule, init, key) {
      assert forall i :: 0 <= i < n ==> init[i] == s[i];
      MergedKeeps(rule, init, key, good);
    }
  }

  /** An element with the key follows another at `n`, so the two are merged. */
  predicate MergesAt<D>(rule: Rule<D>, s: seq<D>, key: string, n: nat) {
    n < |s| && rule.key(s[n]) == key && HasKey(rule, s[..n], key)
  }

  /** No merge on the way to the entry of a key is a bad one. */
  ghost predicate StepsAvoid<D>(rule: Rule<D>, s: seq<D>, key: string, bad: (D, D) -> bool) {
    forall n :: 0 <= n < |s| && MergesAt(rule, s, key, n) ==> !bad(Merged(rule, s[..n], key), s[n])
  }

  lemma PrefixesAvoid<D>(rule: Rule<D>, s: seq<D>, key: string, bad: (D, D) -> bool, m: nat)
    requires m <= |s| && StepsAvoid(rule, s, key, bad)
    ensures StepsAvoid(rule, s[..m], key, bad)
  {
    forall n | 0 <= n < m && MergesAt(rule, s[..m], key, n) ensures !bad(Merged(rule, s[..m][..n], key), s[..m][n]) {
      assert s[..m][..n] == s[..n];
      assert MergesAt(rule, s, key, n);
    }
  }

  /** A measure that no merge on the way lowers bounds every part. */
  lemma {:induction false} MergedBounds<D>(rule: Rule<D>, s: seq<D>, key: string, bad: (D, D) -> bool, m: D -> int)
    requires HasKey(rule, s, key) && StepsAvoid(rule, s, key, bad)
    requires forall a, b: D {:trigger rule.merge(a, b)} :: !bad(a, b) ==> m(rule.merge(a, b)) >= m(a) && m(rule.merge(a, b)) >= m(b)
    ensures forall i :: 0 <= i < |s| && rule.key(s[i]) == key ==> m(s[i]) <= m(Merged(rule, s, key))
  {
    var n := |s| - 1;
    var init := s[..n];
    assert forall i :: 0 <= i < n ==> init[i] == s[i];
    if rule.key(s[n]) != key {
      EarlierKey(rule, s, key);
    }
    if HasKey(rule, init, key) {
      PrefixesAvoid(rule, s, key, bad, n);
      MergedBounds(rule, init, key, bad, m);
      assert rule.key(s[n]) == key ==> MergesAt(rule, s, key, n);
    }
    forall i | 0 <= i < |s| && rule.key(s[i]) == key ensures m(s[i]) <= m(Merged(rule, s, key)) {
      if i < n {
        assert rule.key(init[i]) == key;
      }
    }
  }

  /** The entry has a property at every stage of the merging. */
  ghost predicate AtEveryStage<D>(rule: Rule<D>, s: seq<D>, key: string, good: D -> bool) {
    forall n :: 0 <= n <= |s| && HasKey(rule, s[..n], key) ==> good(Merged(rule, s[..n], key))
  }

  lemma StageStep<D>(rule: Rule<D>, s: seq<D>, key: string, n: nat)
    requires n < |s| && HasKey(rule, s[..n + 1], key)
    ensures rule.key(s[n]) != key ==> HasKey(rule, s[..n], key) && Merged(rule, s[..n + 1], key) == Merged(rule, s[..n], key)
    ensures rule.key(s[n]) == key ==>
      Merged(rule, s[..n + 1], key) == if HasKey(rule, s[..n], key) then rule.merge(Merged(rule, s[..n], key), s[n]) else s[n]
  {
    var t := s[..n + 1];
    assert t[..n] == s[..n] && t[n] == s[n];
    if rule.key(s[n]) != key {
      EarlierKey(rule, t, key);
    }
  }

  /**
   If a merge of two elements with a property has it exactly when the merge is not a bad one, the entry
   has it at every stage exactly when no merge on the way is bad.
   */
  lemma {:induction false} StagesExactly<D>(rule: Rule<D>, s: seq<D>, key: string, good: D -> bool, bad: (D, D) -> bool)
    requires forall i :: 0 <= i < |s| && rule.key(s[i]) == key ==> good(s[i])
    requires forall a, b: D {:trigger rule.merge(a, b)} :: good(a) && good(b) ==> (good(rule.merge(a, b)) <==> !bad(a, b))
    ensures AtEveryStage(rule, s, key, good) <==> StepsAvoid(rule, s, key, bad)
  {
    if AtEveryStage(rule, s, key, good) {
      forall n | 0 <= n < |s| && MergesAt(rule, s, key, n) ensures !bad(Merged(rule, s[..n], key), s[n]) {
        assert s[..n + 1][n] == s[n] && HasKey(rule, s[..n + 1], key);
        StageStep(rule, s, key, n);
      }
    }
    if StepsAvoid(rule, s, key, bad) {
      forall n | 0 <= n <= |s| && HasKey(rule, s[..n], key) ensures good(Merged(rule, s[..n], key)) {
        AvoidingStage(rule, s, key, good, bad, n);
      }
    }
  }

  lemma {:induction false} AvoidingStage<D>(rule: Rule<D>, s: seq<D>, key: string, good: D -> bool, bad: (D, D) -> bool, n: nat)
    requires forall i :: 0 <= i < |s| && rule.key(s[i]) == key ==> good(s[i])
    requires forall a, b: D {:trigger rule.merge(a, b)} :: good(a) && good(b) ==> (good(rule.merge(a, b)) <==> !bad(a, b))
    requires n <= |s| && HasKey(rule, s[..n], key) && StepsAvoid(rule, s, key, bad)
    ensures good(Merged(rule, s[..n], key))
  {
    StageStep(rule, s, key, n - 1);
    if HasKey(rule, s[..n - 1], key) {
      AvoidingStage(rule, s, key, good, bad, n - 1);
      assert rule.key(s[n - 1]) == key ==> MergesAt(rule, s, key, n - 1);
    }
  }

  /** What merging unites is united over all parts. */
  lemma {:induction false} MergedUnites<D, K>(rule: Rule<D>, s: seq<D>, key: string, f: D -> set<K>, x: K)
    requires HasKey(rule, s, key)
    requires forall a, b: D {:trigger rule.merge(a, b)} :: f(rule.merge(a, b)) == f(a) + f(b)
    ensures x in f(Merged(rule, s, key)) <==> exists i :: 0 <= i < |s| && rule.key(s[i]) == key && x in f(s[i])
  {
    var n := |s| - 1;
    var init := s[..n];
    assert forall i :: 0 <= i < n ==> init[i] == s[i];
    if rule.key(s[n]) != key {
      EarlierKey(rule, s, key);
    }
    if HasKey(rule, init, key) {
      MergedUnites(rule, init, key, f, x);
    }
  }

  /** When every key is distinct there is nothing to merge. */
  lemma {:induction false} DistinctUnchanged<D>(rule: Rule<D>, s: seq<D>)
    requires forall a, b :: 0 <= a < b < |s| && rule.key(s[a]) != "" ==> rule.key(s[a]) != rule.key(s[b])
    ensures Deduped(rule, s) == s
  {
    if s != [] {
      var n := |s| - 1;
      var init := s[..n];
      DistinctUnchanged(rule, init);
      forall i | 0 <= i < n && rule.key(s[n]) != "" ensures rule.key(init[i]) != rule.key(s[n]) {
        assert init[i] == s[i];
      }
      DedupedNew(rule, init, s[n]);
      assert s == init + [s[n]];
    }
  }
}
