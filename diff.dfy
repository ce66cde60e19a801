/** The diff engine, `compare_states(previous, current)`: walks `current` in
    order, looks each record up by `_id` in `previous`, and lists what changed. */
module Diff {
  import opened Nodes
  import opened Text

  /** One detected difference; each carries the node's `pubKey` for display. */
  datatype Change =
    | NodeAdded(pubKey: string)
    | Connectivity(pubKey: string, online: bool)
    | TotalReward(pubKey: string, delta: int)
    | TodayReward(pubKey: string, delta: int)
    | Sessions(pubKey: string, before: nat, after: nat)

  /** Position of a change's field in the fixed check order
      (connectivity, total reward, today's reward, session count). */
  function Rank(c: Change): nat
  {
    match c
    case NodeAdded(_) => 0
    case Connectivity(_, _) => 1
    case TotalReward(_, _) => 2
    case TodayReward(_, _) => 3
    case Sessions(_, _, _) => 4
  }

  /** Does field check `k` (1..4) see a difference between `p` and `n`? */
  predicate Differs(p: Node, n: Node, k: nat) {
    match k
    case 1 => p.isConnected != n.isConnected
    case 2 => p.totalReward != n.totalReward
    case 3 => p.todayReward != n.todayReward
    case 4 => p.sessionCount != n.sessionCount
    case _ => false
  }

  /** The one change a differing field check `k` reports about `n` against `p`. */
  predicate Describes(p: Node, n: Node, c: Change) {
    match c
    case NodeAdded(_) => false
    case Connectivity(key, online) => key == n.pubKey && online == n.isConnected
    case TotalReward(key, delta) => key == n.pubKey && delta == n.totalReward - p.totalReward
    case TodayReward(key, delta) => key == n.pubKey && delta == n.todayReward - p.todayReward
    case Sessions(key, before, after) => key == n.pubKey && before == p.sessionCount && after == n.sessionCount
  }

  predicate HasRank(r: seq<Change>, k: nat) {
    exists i :: 0 <= i < |r| && Rank(r[i]) == k
  }

  predicate StrictlyRanked(r: seq<Change>) {
    forall i, j :: 0 <= i < j < |r| ==> Rank(r[i]) < Rank(r[j])
  }

  /** What the field checks for a matched record must produce: one correct entry
      for exactly the fields that differ, in the fixed check order. */
  predicate ReportsFieldChanges(p: Node, n: Node, r: seq<Change>) {
    && (forall i :: 0 <= i < |r| ==> Describes(p, n, r[i]))
    && StrictlyRanked(r)
    && (forall k :: 1 <= k <= 4 ==> (HasRank(r, k) <==> Differs(p, n, k)))
  }

  // The four field checks of the source, each appending at most one entry.

  function ConnectivityCheck(p: Node, n: Node): seq<Change> {
    if n.isConnected != p.isConnected then [Connectivity(n.pubKey, n.isConnected)] else []
  }

  function TotalRewardCheck(p: Node, n: Node): seq<Change> {
    if n.totalReward != p.totalReward then [TotalReward(n.pubKey, n.totalReward - p.totalReward)] else []
  }

  function TodayRewardCheck(p: Node, n: Node): seq<Change> {
    if n.todayReward != p.todayReward then [TodayReward(n.pubKey, n.todayReward - p.todayReward)] else []
  }

  function SessionsCheck(p: Node, n: Node): seq<Change> {
    if n.sessionCount != p.sessionCount then [Sessions(n.pubKey, p.sessionCount, n.sessionCount)] else []
  }

  /** The entries for a record `n` whose previous version is `p`: the four
      checks in their fixed order. */
  function FieldChanges(p: Node, n: Node): (r: seq<Change>)
    ensures |r| <= 4
  {
    ConnectivityCheck(p, n) + TotalRewardCheck(p, n) + TodayRewardCheck(p, n) + SessionsCheck(p, n)
  }

  /** `r` meets the specification for the checks before check `k`. */
  predicate ChecksBefore(p: Node, n: Node, r: seq<Change>, k: nat) {
    && (forall i :: 0 <= i < |r| ==> Describes(p, n, r[i]) && Rank(r[i]) < k)
    && StrictlyRanked(r)
    && (forall j :: 1 <= j <= 4 ==> (HasRank(r, j) <==> j < k && Differs(p, n, j)))
  }

  /** Appending the outcome of check `k` extends the specification to check `k`. */
  lemma ChecksStep(p: Node, n: Node, a: seq<Change>, b: seq<Change>, k: nat)
    requires 1 <= k <= 4 && ChecksBefore(p, n, a, k)
    requires |b| <= 1 && (|b| == 1 <==> Differs(p, n, k))
    requires |b| == 1 ==> Rank(b[0]) == k && Describes(p, n, b[0])
    ensures ChecksBefore(p, n, a + b, k + 1)
  {
    var r := a + b;
    forall i | 0 <= i < |r| ensures Describes(p, n, r[i]) && Rank(r[i]) < k + 1 {
      if i >= |a| { assert r[i] == b[0]; }
    }
    forall i, j | 0 <= i < j < |r| ensures Rank(r[i]) < Rank(r[j]) {
      if j >= |a| { assert r[j] == b[0]; }
    }
    forall j | 1 <= j <= 4 ensures HasRank(r, j) <==> j < k + 1 && Differs(p, n, j) {
      if HasRank(a, j) {
        var i :| 0 <= i < |a| && Rank(a[i]) == j;
        assert r[i] == a[i];
      }
      if HasRank(r, j) {
        var i :| 0 <= i < |r| && Rank(r[i]) == j;
        if i >= |a| { assert r[i] == b[0]; } else { assert r[i] == a[i]; }
      }
      if j == k && Differs(p, n, k) {
        assert r[|a|] == b[0];
      }
    }
  }

  /** The field checks meet their specification: one correct entry for exactly
      the fields that differ, in the fixed check order. */
  lemma FieldChangesMeetSpec(p: Node, n: Node)
    ensures ReportsFieldChanges(p, n, FieldChanges(p, n))
  {
    var c1, c2, c3, c4 := ConnectivityCheck(p, n), TotalRewardCheck(p, n), TodayRewardCheck(p, n), SessionsCheck(p, n);
    assert ChecksBefore(p, n, c1, 2) by {
      ChecksStep(p, n, [], c1, 1);
      assert [] + c1 == c1;
    }
    assert ChecksBefore(p, n, c1 + c2, 3) by {
      ChecksStep(p, n, c1, c2, 2);
    }
    assert ChecksBefore(p, n, c1 + c2 + c3, 4) by {
      ChecksStep(p, n, c1 + c2, c3, 3);
    }
    assert ChecksBefore(p, n, FieldChanges(p, n), 5) by {
      ChecksStep(p, n, c1 + c2 + c3, c4, 4);
    }
  }

  /** Two strictly ranked lists holding the same changes are the same list. */
  lemma {:induction false} StrictlyRankedUnique(a: seq<Change>, b: seq<Change>)
    requires StrictlyRanked(a) && StrictlyRanked(b)
    requires forall c :: c in a <==> c in b
    ensures a == b
  {
    assert a != [] ==> a[0] in b;
    assert b != [] ==> b[0] in a;
    if a != [] && b != [] {
      assert a[0] == b[0] by {
        assert a[0] in b;
        assert b[0] in a;
        var i :| 0 <= i < |b| && b[i] == a[0];
        var j :| 0 <= j < |a| && a[j] == b[0];
        assert i == 0 || j == 0;
      }
      forall c ensures c in a[1..] <==> c in b[1..] {
        if c in a[1..] {
          var i :| 0 <= i < |a[1..]| && a[1..][i] == c;
          assert Rank(a[0]) < Rank(a[i + 1]);
          assert c in b && c != b[0];
          var j :| 0 <= j < |b| && b[j] == c;
          assert b[1..][j - 1] == c;
        }
        if c in b[1..] {
          var i :| 0 <= i < |b[1..]| && b[1..][i] == c;
          assert Rank(b[0]) < Rank(b[i + 1]);
          assert c in a && c != a[0];
          var j :| 0 <= j < |a| && a[j] == c;
          assert a[1..][j - 1] == c;
        }
      }
      StrictlyRankedUnique(a[1..], b[1..]);
      assert a == [a[0]] + a[1..] && b == [b[0]] + b[1..];
    }
  }

  /** A field entry is determined by which check produced it. */
  lemma DescribesDetermines(p: Node, n: Node, c: Change, d: Change)
    requires Describes(p, n, c) && Describes(p, n, d) && Rank(c) == Rank(d)
    ensures c == d
  {
  }

  /** Every entry of one list meeting the specification is an entry of any other. */
  lemma SpecEntriesShared(p: Node, n: Node, r: seq<Change>, f: seq<Change>, c: Change)
    requires ReportsFieldChanges(p, n, r) && ReportsFieldChanges(p, n, f)
    requires c in r
    ensures c in f
  {
    var i :| 0 <= i < |r| && r[i] == c;
    var k := Rank(c);
    assert Describes(p, n, c);
    assert 1 <= k <= 4;
    assert HasRank(r, k);
    assert HasRank(f, k);
    var j :| 0 <= j < |f| && Rank(f[j]) == k;
    DescribesDetermines(p, n, c, f[j]);
  }

  /** The field checks are the only list meeting their specification. */
  lemma FieldChangesUnique(p: Node, n: Node, r: seq<Change>)
    requires ReportsFieldChanges(p, n, r)
    ensures r == FieldChanges(p, n)
  {
    var f := FieldChanges(p, n);
    FieldChangesMeetSpec(p, n);
    forall c ensures c in r <==> c in f {
      if c in r { SpecEntriesShared(p, n, r, f, c); }
      if c in f { SpecEntriesShared(p, n, f, r, c); }
    }
    StrictlyRankedUnique(r, f);
  }

  /** The entries for one record of `current`: a single "new node" entry when
      no previous record has its `_id`, else the field checks against the
      first previous record that has it. */
  function NodeChanges(previous: Snapshot, n: Node): (r: seq<Change>)
    ensures |r| <= 4
  {
    match FindById(previous, n.id)
    case None => [NodeAdded(n.pubKey)]
    case Some(p) => FieldChanges(p, n)
  }

  /** An unmatched record yields exactly one "new node" entry and no field
      entries; a matched one yields the field checks against its first match. */
  lemma NodeChangesSpec(previous: Snapshot, n: Node)
    ensures !HasId(previous, n.id) ==> NodeChanges(previous, n) == [NodeAdded(n.pubKey)]
    ensures HasId(previous, n.id) ==>
              ReportsFieldChanges(FindById(previous, n.id).value, n, NodeChanges(previous, n))
  {
    if HasId(previous, n.id) {
      FieldChangesMeetSpec(FindById(previous, n.id).value, n);
    }
  }

  /** `compare_states(previous, current)`. */
  function CompareStates(previous: Snapshot, current: Snapshot): (r: seq<Change>)
    ensures |r| <= 4 * |current|
    decreases |current|
  {
    if current == [] then []
    else CompareStates(previous, current[..|current| - 1]) + NodeChanges(previous, current[|current| - 1])
  }

  /** Appending a record to `current` appends that record's entries. */
  lemma CompareStatesSnoc(previous: Snapshot, s: Snapshot, n: Node)
    ensures CompareStates(previous, s + [n]) == CompareStates(previous, s) + NodeChanges(previous, n)
  {
    assert (s + [n])[..|s|] == s;
  }

  /** The entries follow the order of `current`: each part of `current`
      contributes its own entries, in place, and nothing else. */
  lemma {:induction false} CompareStatesConcat(previous: Snapshot, a: Snapshot, b: Snapshot)
    ensures CompareStates(previous, a + b) == CompareStates(previous, a) + CompareStates(previous, b)
    decreases |b|
  {
    if b == [] {
      assert a + b == a;
    } else {
      var init, last := b[..|b| - 1], b[|b| - 1];
      assert b == init + [last];
      assert a + b == (a + init) + [last];
      CompareStatesSnoc(previous, a + init, last);
      CompareStatesSnoc(previous, init, last);
      CompareStatesConcat(previous, a, init);
      AppendAssoc(CompareStates(previous, a), CompareStates(previous, init), NodeChanges(previous, last));
    }
  }

  lemma CompareStatesAround(previous: Snapshot, a: Snapshot, n: Node, b: Snapshot)
    ensures CompareStates(previous, a + [n] + b) ==
            CompareStates(previous, a) + NodeChanges(previous, n) + CompareStates(previous, b)
  {
    CompareStatesConcat(previous, a + [n], b);
    CompareStatesConcat(previous, a, [n]);
    assert [n][..0] == [];
  }

  /** A snapshot with unique ids compared with itself yields no entries. */
  lemma {:induction false} CompareWithSelfIsEmpty(s: Snapshot)
    requires UniqueIds(s)
    ensures CompareStates(s, s) == []
  {
    PrefixUnchanged(s, |s|);
    assert s[..|s|] == s;
  }

  lemma {:induction false} PrefixUnchanged(s: Snapshot, k: nat)
    requires UniqueIds(s) && k <= |s|
    ensures CompareStates(s, s[..k]) == []
  {
    if k > 0 {
      assert s[..k][..k - 1] == s[..k - 1];
      PrefixUnchanged(s, k - 1);
      FindOwnRecord(s, k - 1);
    }
  }

  /** Without unique ids the self-comparison is not empty: a later duplicate is
      compared with the first record carrying its id. */
  lemma SelfCompareNeedsUniqueIds()
    ensures var s := [Node("a", "k", true, 1, 0, 0), Node("a", "k", true, 2, 0, 0)];
            !UniqueIds(s) && CompareStates(s, s) == [TotalReward("k", 1)]
  {
    var s := [Node("a", "k", true, 1, 0, 0), Node("a", "k", true, 2, 0, 0)];
    assert s[0].id == s[1].id;
    assert FindById(s, "a") == Some(s[0]) by { FindStep(s, "a"); }
    calc {
      CompareStates(s, s);
      { assert s[..1] == [s[0]] && s[..1][..0] == []; }
      CompareStates(s, []) + NodeChanges(s, s[0]) + NodeChanges(s, s[1]);
      FieldChanges(s[0], s[0]) + FieldChanges(s[0], s[1]);
      [TotalReward("k", 1)];
    }
  }

  /** Records only in `previous` (removed nodes) never show up in the entries. */
  lemma {:induction false} RemovedNodesIgnored(front: Snapshot, gone: Node, back: Snapshot, current: Snapshot)
    requires forall i :: 0 <= i < |current| ==> current[i].id != gone.id
    ensures CompareStates(front + [gone] + back, current) == CompareStates(front + back, current)
    decreases |current|
  {
    if current != [] {
      var last := current[|current| - 1];
      RemovedNodesIgnored(front, gone, back, current[..|current| - 1]);
      FindIgnoresOtherIds(front, gone, back, last.id);
      assert HasId(front + [gone] + back, last.id) <==> HasId(front + back, last.id);
    }
  }

  /** Number of "new node" entries in a change list. */
  function AddedCount(r: seq<Change>): nat
  {
    if r == [] then 0 else AddedCount(r[..|r| - 1]) + (if r[|r| - 1].NodeAdded? then 1 else 0)
  }

  /** Number of records of `current` whose `_id` is absent from `previous`. */
  function NewNodeCount(previous: Snapshot, current: Snapshot): nat
  {
    if current == [] then 0
    else NewNodeCount(previous, current[..|current| - 1]) + (if HasId(previous, current[|current| - 1].id) then 0 else 1)
  }

  lemma {:induction false} AddedCountConcat(a: seq<Change>, b: seq<Change>)
    ensures AddedCount(a + b) == AddedCount(a) + AddedCount(b)
    decreases |b|
  {
    if b == [] {
      assert a + b == a;
    } else {
      assert (a + b)[..|a + b| - 1] == a + b[..|b| - 1];
      AddedCountConcat(a, b[..|b| - 1]);
    }
  }

  lemma {:induction false} FieldChangesAddNothing(p: Node, n: Node, k: nat)
    requires k <= |FieldChanges(p, n)|
    ensures AddedCount(FieldChanges(p, n)[..k]) == 0
  {
    if k > 0 {
      var r := FieldChanges(p, n);
      assert r[..k][..k - 1] == r[..k - 1];
      assert Describes(p, n, r[k - 1]);
      FieldChangesAddNothing(p, n, k - 1);
    }
  }

  /** The diff reports "new node" exactly once for every record of `current`
      absent from `previous`, and for no other record. */
  lemma {:induction false} NewNodesReportedOnce(previous: Snapshot, current: Snapshot)
    ensures AddedCount(CompareStates(previous, current)) == NewNodeCount(previous, current)
    decreases |current|
  {
    if current != [] {
      var init, last := current[..|current| - 1], current[|current| - 1];
      NewNodesReportedOnce(previous, init);
      AddedCountConcat(CompareStates(previous, init), NodeChanges(previous, last));
      if HasId(previous, last.id) {
        var r := FieldChanges(FindById(previous, last.id).value, last);
        FieldChangesAddNothing(FindById(previous, last.id).value, last, |r|);
        assert r[..|r|] == r;
      } else {
        assert [NodeAdded(last.pubKey)][..0] == [];
      }
    }
  }

  /** One loop pass of the source over `current`, appending entry by entry. */
  method CompareStatesLoop(previous: Snapshot, current: Snapshot) returns (changes: seq<Change>)
    ensures changes == CompareStates(previous, current)
  {
    changes := [];
    var i := 0;
    while i < |current|
      invariant 0 <= i <= |current|
      invariant changes == CompareStates(previous, current[..i])
    {
      var node := current[i];
      assert CompareStates(previous, current[..i + 1]) == changes + NodeChanges(previous, node) by {
        assert current[..i + 1][..i] == current[..i];
      }
      i := i + 1;
      var found := FindById(previous, node.id);
      if found.None? {
        changes := changes + [NodeAdded(node.pubKey)];
        continue;
      }
      changes := AppendFieldChanges(changes, found.value, node);
    }
    assert current[..|current|] == current;
  }

  /** The four field checks of one node present in both snapshots, each
      appending its entry when the field differs. */
  method AppendFieldChanges(before: seq<Change>, prev: Node, node: Node) returns (changes: seq<Change>)
    ensures changes == before + FieldChanges(prev, node)
  {
    ghost var p1, p2, p3, p4 := ConnectivityCheck(prev, node), TotalRewardCheck(prev, node),
                                TodayRewardCheck(prev, node), SessionsCheck(prev, node);
    changes := before;
    if node.isConnected != prev.isConnected {
      changes := changes + [Connectivity(node.pubKey, node.isConnected)];
    }
    assert changes == before + p1;
    if node.totalReward != prev.totalReward {
      changes := changes + [TotalReward(node.pubKey, node.totalReward - prev.totalReward)];
    }
    assert changes == before + p1 + p2;
    if node.todayReward != prev.todayReward {
      changes := changes + [TodayReward(node.pubKey, node.todayReward - prev.todayReward)];
    }
    assert changes == before + p1 + p2 + p3;
    if node.sessionCount != prev.sessionCount {
      changes := changes + [Sessions(node.pubKey, prev.sessionCount, node.sessionCount)];
    }
    assert changes == before + FieldChanges(prev, node) by {
      AppendAssoc(before, p1, p2);
      AppendAssoc(before, p1 + p2, p3);
      AppendAssoc(before, p1 + p2 + p3, p4);
    }
  }

  // ---- Rendering of a change as the line text the source builds ----

  const AddedLabel: string := "新增节点: "
  const NodeLabel: string := "节点 "

  /** The text `compare_states` appends for a change. */
  function ChangeText(c: Change): (t: string)
  {
    match c
    case NodeAdded(key) => AddedLabel + key
    case Connectivity(key, online) => NodeLabel + key + " " + (if online then "上线" else "离线")
    case TotalReward(key, delta) => NodeLabel + key + " 总奖励变化: +" + IntStr(delta)
    case TodayReward(key, delta) => NodeLabel + key + " 今日奖励变化: +" + IntStr(delta)
    case Sessions(key, before, after) => NodeLabel + key + " sessions数量变化: " + NatStr(before) + " -> " + NatStr(after)
  }

  /** Every line names the node's key right after its label: "新增节点: " for a
      new node, "节点 " for every field change. */
  lemma ChangeTextNamesKey(c: Change)
    ensures (if c.NodeAdded? then AddedLabel else NodeLabel) + c.pubKey <= ChangeText(c)
  {
  }

  /** A session-count line names the key, then prints the old and the new
      count around " -> "; both counts read back by `NatStrRoundTrip`. */
  lemma SessionsText(key: string, before: nat, after: nat)
    ensures var t := ChangeText(Sessions(key, before, after));
            var head := NodeLabel + key + " sessions数量变化: ";
            var mid := |head| + |NatStr(before)|;
            && head <= t && |t| == mid + 4 + |NatStr(after)|
            && t[|head|..mid] == NatStr(before)
            && t[mid..mid + 4] == " -> "
            && t[mid + 4..] == NatStr(after)
  {
    var head := NodeLabel + key + " sessions数量变化: ";
    var nb, na := NatStr(before), NatStr(after);
    assert ChangeText(Sessions(key, before, after)) == head + nb + " -> " + na;
    SliceFour(head, nb, " -> ", na);
  }

  /** A connectivity entry ends in "上线" (online) exactly when the node is now
      connected, and in "离线" (offline) otherwise. */
  lemma ConnectivityText(p: Node, n: Node)
    requires p.isConnected != n.isConnected
    ensures var t := ChangeText(FieldChanges(p, n)[0]);
            t[|t| - 2..] == (if n.isConnected then "上线" else "离线") &&
            t[..|NodeLabel| + |n.pubKey|] == NodeLabel + n.pubKey
  {
  }

  /** Both reward entries print a literal "+" and then the exact difference
      current − previous, so a decrease reads "+-…". */
  lemma RewardText(key: string, delta: int)
    ensures var t := ChangeText(TotalReward(key, delta));
            var at := |NodeLabel + key + " 总奖励变化: "|;
            t[at] == '+' && ParseInt(t[at + 1..]) == delta &&
            (t[at + 1] == '-' <==> delta < 0)
    ensures var t := ChangeText(TodayReward(key, delta));
            var at := |NodeLabel + key + " 今日奖励变化: "|;
            t[at] == '+' && ParseInt(t[at + 1..]) == delta &&
            (t[at + 1] == '-' <==> delta < 0)
  {
    var t := ChangeText(TotalReward(key, delta));
    var at := |NodeLabel + key + " 总奖励变化: "|;
    assert t[at + 1..] == IntStr(delta);
    var u := ChangeText(TodayReward(key, delta));
    var bt := |NodeLabel + key + " 今日奖励变化: "|;
    assert u[bt + 1..] == IntStr(delta);
    IntStrRoundTrip(delta);
  }

  /** Scenario: a node whose total reward rose from 10 to 15, nothing else
      changed, yields exactly one entry, a total-reward change of 5. */
  lemma RewardOnlyScenario(p: Node, n: Node)
    requires p.id == n.id && p.totalReward == 10
    requires n == p.(totalReward := 15)
    ensures CompareStates([p], [n]) == [TotalReward(n.pubKey, 5)]
  {
    assert [n][..0] == [];
    FindStep([p], n.id);
  }

  /** Scenario: against an empty previous snapshot every record is new. */
  lemma {:induction false} AllNewAgainstEmpty(current: Snapshot)
    ensures CompareStates([], current) == seq(|current|, i requires 0 <= i < |current| => NodeAdded(current[i].pubKey))
    decreases |current|
  {
    if current != [] {
      AllNewAgainstEmpty(current[..|current| - 1]);
    }
  }

  /** A record differing only in its session count yields exactly one
      session-count entry with the old and new sizes. */
  lemma SessionsOnly(p: Node, n: Node)
    requires n == p.(sessionCount := n.sessionCount) && n.sessionCount != p.sessionCount
    ensures FieldChanges(p, n) == [Sessions(n.pubKey, p.sessionCount, n.sessionCount)]
  {
  }
}
