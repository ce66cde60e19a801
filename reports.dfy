/** The report builders: `build_message(changes)` for a change report and
    `build_status_message(current_state)` for a full status report. Both
    produce a list of lines that is sent joined with newlines; the timestamp
    (local time shifted by the configured hour offset) is a parameter. */
module Reports {
  import opened Nodes
  import opened Text
  import opened Diff

  /** The lines of a report; the text sent is the lines joined by "\n". */
  datatype Report = Report(lines: seq<string>) {
    function Content(): string {
      Join(lines, "\n")
    }
  }

  const ChangeTitle: string := "【节点状态变化监控】"
  const ChangeHeading: string := "变化详情:"
  const StatusTitle: string := "【节点状态报告】"
  const StatusHeading: string := "节点详情:"
  const KeyWidth: nat := 20
  const CountLabel: string := "节点总数: "
  const OnlineLabel: string := "在线节点: "
  const TotalLabel: string := "总奖励: "
  const TodayLabel: string := "今日奖励: "

  /** The timestamp line; it ends in its own "\n", so the joined text has a blank line after it. */
  function TimeLine(timestamp: string): string {
    "时间: " + timestamp + "\n"
  }

  // ---- Change report ----

  /** One "- change" line per change, in order. */
  function Bullets(changes: seq<Change>): (r: seq<string>)
    ensures |r| == |changes|
    ensures forall i :: 0 <= i < |changes| ==> r[i] == "- " + ChangeText(changes[i])
  {
    if changes == [] then []
    else Bullets(changes[..|changes| - 1]) + ["- " + ChangeText(changes[|changes| - 1])]
  }

  /** `build_message(changes)`: nothing for an empty list, otherwise the fixed
      three-line header followed by every change once, in order. */
  function BuildMessage(changes: seq<Change>, timestamp: string): (r: Option<Report>)
    ensures r.None? <==> changes == []
    ensures r.Some? ==>
              && |r.value.lines| == 3 + |changes|
              && r.value.lines[..3] == [ChangeTitle, TimeLine(timestamp), ChangeHeading]
              && forall i :: 0 <= i < |changes| ==> r.value.lines[3 + i] == "- " + ChangeText(changes[i])
  {
    if changes == [] then None
    else Some(Report([ChangeTitle, TimeLine(timestamp), ChangeHeading] + Bullets(changes)))
  }

  // ---- Status report ----

  /** `sum(node['totalReward'] for node in s)`. */
  function TotalRewardSum(s: Snapshot): int {
    if s == [] then 0 else TotalRewardSum(s[..|s| - 1]) + s[|s| - 1].totalReward
  }

  /** `sum(node['todayReward'] for node in s)`. */
  function TodayRewardSum(s: Snapshot): int {
    if s == [] then 0 else TodayRewardSum(s[..|s| - 1]) + s[|s| - 1].todayReward
  }

  /** Number of connected nodes; never more than the number of nodes. */
  function OnlineCount(s: Snapshot): (k: nat)
    ensures k <= |s|
  {
    if s == [] then 0 else OnlineCount(s[..|s| - 1]) + (if s[|s| - 1].isConnected then 1 else 0)
  }

  function StatusWord(online: bool): string {
    if online then "在线" else "离线"
  }

  /** The detail line of one node: its key cut to 20 characters, its state and both rewards. */
  function DetailLine(n: Node): (line: string)
    ensures "- " <= line && |IntStr(n.todayReward)| < |line|
  {
    "- " + Truncate(n.pubKey, KeyWidth) + "... " + StatusWord(n.isConnected) +
    " 总奖励:" + IntStr(n.totalReward) + " 今日奖励:" + IntStr(n.todayReward)
  }

  function Details(s: Snapshot): (r: seq<string>)
    ensures |r| == |s|
    ensures forall i :: 0 <= i < |s| ==> r[i] == DetailLine(s[i])
  {
    if s == [] then [] else Details(s[..|s| - 1]) + [DetailLine(s[|s| - 1])]
  }

  /** The seven header lines: title, time, node count, online count and both
      reward sums, then the details heading. */
  function StatusHeader(s: Snapshot, timestamp: string): (h: seq<string>)
    ensures |h| == 7 && h[0] == StatusTitle && h[1] == TimeLine(timestamp) && h[6] == StatusHeading
  {
    [ StatusTitle,
      TimeLine(timestamp),
      CountLabel + NatStr(|s|),
      OnlineLabel + NatStr(OnlineCount(s)),
      TotalLabel + IntStr(TotalRewardSum(s)),
      TodayLabel + IntStr(TodayRewardSum(s)) + "\n",
      StatusHeading ]
  }

  /** `build_status_message(current_state)`: seven header lines with the
      aggregates, then one detail line per node, in snapshot order. */
  function BuildStatusMessage(s: Snapshot, timestamp: string): (r: Report)
    ensures |r.lines| == 7 + |s|
    ensures forall i :: 0 <= i < |s| ==> r.lines[7 + i] == DetailLine(s[i])
  {
    Report(StatusHeader(s, timestamp) + Details(s))
  }

  /** The source's loops: three summing passes, one per aggregate, then one
      appended line per node. */
  method BuildStatusMessageLoop(s: Snapshot, timestamp: string) returns (r: Report)
    ensures r == BuildStatusMessage(s, timestamp)
  {
    var total := 0;
    var i := 0;
    while i < |s|
      invariant 0 <= i <= |s|
      invariant total == TotalRewardSum(s[..i])
    {
      assert s[..i + 1][..i] == s[..i];
      total := total + s[i].totalReward;
      i := i + 1;
    }
    var today := 0;
    i := 0;
    while i < |s|
      invariant 0 <= i <= |s|
      invariant today == TodayRewardSum(s[..i])
    {
      assert s[..i + 1][..i] == s[..i];
      today := today + s[i].todayReward;
      i := i + 1;
    }
    var online := 0;
    i := 0;
    while i < |s|
      invariant 0 <= i <= |s|
      invariant online == OnlineCount(s[..i])
    {
      assert s[..i + 1][..i] == s[..i];
      if s[i].isConnected {
        online := online + 1;
      }
      i := i + 1;
    }
    assert s[..|s|] == s;
    r := StatusLines(s, timestamp, total, today, online);
  }

  /** The header with the aggregates computed by the summing passes, then the
      appending loop over the nodes. */
  method StatusLines(s: Snapshot, timestamp: string, total: int, today: int, online: nat) returns (r: Report)
    requires total == TotalRewardSum(s) && today == TodayRewardSum(s) && online == OnlineCount(s)
    ensures r == BuildStatusMessage(s, timestamp)
  {
    var lines := [ StatusTitle,
                   TimeLine(timestamp),
                   CountLabel + NatStr(|s|),
                   OnlineLabel + NatStr(online),
                   TotalLabel + IntStr(total),
                   TodayLabel + IntStr(today) + "\n",
                   StatusHeading ];
    assert lines == StatusHeader(s, timestamp);
    var i := 0;
    while i < |s|
      invariant 0 <= i <= |s|
      invariant lines == StatusHeader(s, timestamp) + Details(s[..i])
    {
      assert Details(s[..i + 1]) == Details(s[..i]) + [DetailLine(s[i])] by {
        assert s[..i + 1][..i] == s[..i];
      }
      AppendAssoc(StatusHeader(s, timestamp), Details(s[..i]), [DetailLine(s[i])]);
      lines := lines + [DetailLine(s[i])];
      i := i + 1;
    }
    assert s[..|s|] == s;
    r := Report(lines);
  }

  // ---- Properties of the status report ----

  /** The online count is the number of positions holding a connected node. */
  lemma {:induction false} OnlineCountIsConnectedPositions(s: Snapshot)
    ensures OnlineCount(s) == |set i | 0 <= i < |s| && s[i].isConnected|
    decreases |s|
  {
    if s != [] {
      var init := s[..|s| - 1];
      OnlineCountIsConnectedPositions(init);
      var before := set i | 0 <= i < |init| && init[i].isConnected;
      var after := set i | 0 <= i < |s| && s[i].isConnected;
      if s[|s| - 1].isConnected {
        assert after == before + {|s| - 1};
      } else {
        assert after == before;
      }
    }
  }

  /** Every node online exactly when the online count equals the node count. */
  lemma {:induction false} AllOnlineIff(s: Snapshot)
    ensures OnlineCount(s) == |s| <==> forall i :: 0 <= i < |s| ==> s[i].isConnected
    decreases |s|
  {
    if s != [] {
      var init := s[..|s| - 1];
      AllOnlineIff(init);
      if forall i :: 0 <= i < |init| ==> init[i].isConnected {
        assert forall i :: 0 <= i < |s| - 1 ==> s[i].isConnected by {
          forall i | 0 <= i < |s| - 1 ensures s[i].isConnected { assert s[i] == init[i]; }
        }
      }
    }
  }

  /** Totals are additive over concatenation of snapshots. */
  lemma {:induction false} RewardSumsConcat(a: Snapshot, b: Snapshot)
    ensures TotalRewardSum(a + b) == TotalRewardSum(a) + TotalRewardSum(b)
    ensures TodayRewardSum(a + b) == TodayRewardSum(a) + TodayRewardSum(b)
    ensures OnlineCount(a + b) == OnlineCount(a) + OnlineCount(b)
    decreases |b|
  {
    if b == [] {
      assert a + b == a;
    } else {
      assert (a + b)[..|a + b| - 1] == a + b[..|b| - 1];
      RewardSumsConcat(a, b[..|b| - 1]);
    }
  }

  /** The aggregate lines read back as the node count, the online count and
      the sums of both rewards over the snapshot. */
  lemma StatusAggregatesReadBack(s: Snapshot, timestamp: string)
    ensures var lines := BuildStatusMessage(s, timestamp).lines;
            && lines[0] == StatusTitle && lines[1] == TimeLine(timestamp) && lines[6] == StatusHeading
            && CountLabel <= lines[2] && IsNatText(lines[2][|CountLabel|..])
            && ParseNat(lines[2][|CountLabel|..]) == |s|
            && OnlineLabel <= lines[3] && IsNatText(lines[3][|OnlineLabel|..])
            && ParseNat(lines[3][|OnlineLabel|..]) == OnlineCount(s) <= |s|
            && TotalLabel <= lines[4] && IsIntText(lines[4][|TotalLabel|..])
            && ParseInt(lines[4][|TotalLabel|..]) == TotalRewardSum(s)
            && TodayLabel <= lines[5] && |TodayLabel| < |lines[5]| && lines[5][|lines[5]| - 1] == '\n'
            && IsIntText(lines[5][|TodayLabel|..|lines[5]| - 1])
            && ParseInt(lines[5][|TodayLabel|..|lines[5]| - 1]) == TodayRewardSum(s)
  {
    var lines := BuildStatusMessage(s, timestamp).lines;
    var h := StatusHeader(s, timestamp);
    assert lines == h + Details(s);
    assert lines[2] == h[2] && lines[3] == h[3] && lines[4] == h[4] && lines[5] == h[5];
    assert lines[2] == CountLabel + NatStr(|s|);
    assert lines[3] == OnlineLabel + NatStr(OnlineCount(s));
    assert lines[4] == TotalLabel + IntStr(TotalRewardSum(s));
    assert lines[5] == TodayLabel + IntStr(TodayRewardSum(s)) + "\n";
    NatAfterLabel(CountLabel, |s|);
    NatAfterLabel(OnlineLabel, OnlineCount(s));
    IntAfterLabel(TotalLabel, TotalRewardSum(s), "");
    IntAfterLabel(TodayLabel, TodayRewardSum(s), "\n");
  }

  /** A count printed after a label reads back from behind the label. */
  lemma NatAfterLabel(head: string, n: nat)
    ensures var line := head + NatStr(n);
            head <= line && IsNatText(line[|head|..]) && ParseNat(line[|head|..]) == n
  {
    assert (head + NatStr(n))[|head|..] == NatStr(n);
    NatStrRoundTrip(n);
  }

  /** An integer printed between a label and a suffix reads back from between them. */
  lemma IntAfterLabel(head: string, i: int, suffix: string)
    ensures var line := head + IntStr(i) + suffix;
            var stop := |line| - |suffix|;
            && head <= line && |head| < stop && line[stop..] == suffix
            && IsIntText(line[|head|..stop]) && ParseInt(line[|head|..stop]) == i
  {
    var line := head + IntStr(i) + suffix;
    assert line[|head|..|line| - |suffix|] == IntStr(i);
    IntStrRoundTrip(i);
  }

  /** A detail line starts with the first 20 characters of the key (all of a
      shorter key), the ellipsis and the node's state; the total reward
      follows and reads back exactly, and the line ends with the today reward. */
  lemma DetailLineShows(n: Node)
    ensures var k := if |n.pubKey| < KeyWidth then |n.pubKey| else KeyWidth;
            && "- " + n.pubKey[..k] + "... " + (if n.isConnected then "在线" else "离线") <= DetailLine(n)
            && DetailLine(n)[|DetailLine(n)| - |IntStr(n.todayReward)|..] == IntStr(n.todayReward)
    ensures var head := "- " + Truncate(n.pubKey, KeyWidth) + "... " + StatusWord(n.isConnected) + " 总奖励:";
            var line := DetailLine(n);
            && head <= line && |head| + |IntStr(n.totalReward)| <= |line|
            && ParseInt(line[|head|..|head| + |IntStr(n.totalReward)|]) == n.totalReward
  {
    var key := Truncate(n.pubKey, KeyWidth);
    assert key == n.pubKey[..|key|];
    var head := "- " + key + "... " + StatusWord(n.isConnected);
    var mid := " 总奖励:" + IntStr(n.totalReward) + " 今日奖励:";
    assert DetailLine(n) == head + mid + IntStr(n.todayReward);
    var lead := head + " 总奖励:";
    assert DetailLine(n) == lead + IntStr(n.totalReward) + (" 今日奖励:" + IntStr(n.todayReward));
    assert DetailLine(n)[|lead|..|lead| + |IntStr(n.totalReward)|] == IntStr(n.totalReward);
    IntStrRoundTrip(n.totalReward);
  }
}
