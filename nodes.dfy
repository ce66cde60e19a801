/** Node records and snapshots as the monitor receives them from the node API,
    and the first-match lookup by `_id` that the diff engine relies on. */
module Nodes {

  datatype Option<T> = None | Some(value: T)

  /** One monitored node. `sessionCount` stands for `len(node['sessions'])`:
      only the size of the session list is ever read. */
  datatype Node = Node(
    id: string,
    pubKey: string,
    isConnected: bool,
    totalReward: int,
    todayReward: int,
    sessionCount: nat)

  /** The decoded node list of one poll, in API order. */
  type Snapshot = seq<Node>

  /** The snapshot invariant: no two records share an `_id`. */
  predicate UniqueIds(s: Snapshot) {
    forall i, j :: 0 <= i < j < |s| ==> s[i].id != s[j].id
  }

  predicate HasId(s: Snapshot, id: string) {
    exists j :: 0 <= j < |s| && s[j].id == id
  }

  /** Position of the first record of `s` carrying `id`; `|s|` when there is none. */
  function FirstIndex(s: Snapshot, id: string): (k: nat)
    ensures k <= |s|
    ensures k < |s| ==> s[k].id == id
    ensures forall j :: 0 <= j < k ==> s[j].id != id
  {
    if s == [] then 0
    else if s[0].id == id then 0
    else 1 + FirstIndex(s[1..], id)
  }

  /** `next((n for n in previous if n['_id'] == node_id), None)`: the first
      record of `s` carrying `id`, or None when there is none. */
  function FindById(s: Snapshot, id: string): (r: Option<Node>)
    ensures r.None? <==> !HasId(s, id)
    ensures r.Some? ==> r.value.id == id
  {
    var k := FirstIndex(s, id);
    if k < |s| then Some(s[k]) else None
  }

  /** The record found is the first one carrying the id. */
  lemma FindByIdFirst(s: Snapshot, id: string)
    requires HasId(s, id)
    ensures exists j :: 0 <= j < |s| && s[j] == FindById(s, id).value &&
                        forall k :: 0 <= k < j ==> s[k].id != id
  {
    assert s[FirstIndex(s, id)] == FindById(s, id).value;
  }

  /** In a snapshot with unique ids, looking up a member's own id finds that member. */
  lemma FindOwnRecord(s: Snapshot, i: nat)
    requires UniqueIds(s) && i < |s|
    ensures FindById(s, s[i].id) == Some(s[i])
  {
    var k := FirstIndex(s, s[i].id);
    assert k == i;
  }

  /** The generator scans from the front: the head if it matches, else the rest. */
  lemma FindStep(s: Snapshot, id: string)
    requires s != []
    ensures FindById(s, id) == if s[0].id == id then Some(s[0]) else FindById(s[1..], id)
  {
    if s[0].id != id {
      var k := FirstIndex(s[1..], id);
      assert FirstIndex(s, id) == 1 + k;
      if k < |s[1..]| { assert s[1 + k] == s[1..][k]; }
    }
  }

  /** A lookup in `a + b` finds the match in `a` when there is one, else the one in `b`. */
  lemma {:induction false} FindConcat(a: Snapshot, b: Snapshot, id: string)
    ensures FindById(a + b, id) == if HasId(a, id) then FindById(a, id) else FindById(b, id)
  {
    if a != [] {
      assert (a + b)[0] == a[0];
      assert (a + b)[1..] == a[1..] + b;
      FindConcat(a[1..], b, id);
      FindStep(a + b, id);
      FindStep(a, id);
      assert HasId(a, id) <==> a[0].id == id || HasId(a[1..], id) by {
        if HasId(a, id) && a[0].id != id {
          var j :| 0 <= j < |a| && a[j].id == id;
          assert a[1..][j - 1].id == id;
        }
        if HasId(a[1..], id) {
          var j :| 0 <= j < |a[1..]| && a[1..][j].id == id;
          assert a[j + 1].id == id;
        }
      }
    } else {
      assert a + b == b;
    }
  }

  /** Records in `previous` whose id is not the one looked up do not affect the lookup. */
  lemma FindIgnoresOtherIds(front: Snapshot, gone: Node, back: Snapshot, id: string)
    requires gone.id != id
    ensures FindById(front + [gone] + back, id) == FindById(front + back, id)
  {
    assert front + [gone] + back == front + ([gone] + back);
    FindConcat(front, [gone] + back, id);
    FindConcat(front, back, id);
    FindConcat([gone], back, id);
  }
}
