/** The per-identity monitor: what one poll does with a fetched snapshot,
    which report it sends, and when the stored snapshot is replaced.
    `NodeMonitor` is the single-token loop of main.py (one global
    `previous_state`); `TokenMonitor` is one entry of mmain.py's token list
    (its own `previous_state`), and `RunCycle` is one round of mmain.py's
    fan-out over all tokens. */
module Monitor {
  import opened Nodes
  import opened Text
  import opened Diff
  import opened Reports

  /** Pause after a failed cycle, in seconds. */
  const RetryPause: nat := 5

  /** What one poll decides: the report to send (if any) and the snapshot to keep. */
  datatype Outcome = Outcome(message: Option<Report>, next: Snapshot)

  /** A fetch that delivered a non-empty node list. `None` stands for a fetch
      that raised (transport error, non-200 status, bad compressed stream or
      bad JSON); an empty list is falsy and is ignored like a failure. */
  predicate Usable(fetched: Option<Snapshot>) {
    fetched.Some? && fetched.value != []
  }

  /** The report for a usable snapshot `current` given the stored `previous`:
      a status report on the first run, otherwise the change report when
      there are changes, the status report when there are none and
      always-notify is set, and nothing else. */
  function Decide(previous: Snapshot, current: Snapshot, alwaysNotify: bool, timestamp: string): (r: Option<Report>)
    ensures r.None? <==> previous != [] && CompareStates(previous, current) == [] && !alwaysNotify
    ensures r.Some? ==> |r.value.lines| >= 3 &&
                        (r.value.lines[0] == ChangeTitle <==> previous != [] && CompareStates(previous, current) != [])
  {
    if previous != [] then
      var changes := CompareStates(previous, current);
      if changes != [] || alwaysNotify then
        if changes != [] then BuildMessage(changes, timestamp) else Some(BuildStatusMessage(current, timestamp))
      else None
    else Some(BuildStatusMessage(current, timestamp))
  }

  /** One poll of one identity: decide on a report, then keep the new snapshot.
      An unusable fetch sends nothing and keeps the stored snapshot. */
  function Step(previous: Snapshot, fetched: Option<Snapshot>, alwaysNotify: bool, timestamp: string): (o: Outcome)
    ensures !Usable(fetched) ==> o == Outcome(None, previous)
    ensures Usable(fetched) ==> o.next == fetched.value
  {
    if Usable(fetched) then Outcome(Decide(previous, fetched.value, alwaysNotify, timestamp), fetched.value)
    else Outcome(None, previous)
  }

  /** The decision as the source computes it, with its loops. */
  method Decision(previous: Snapshot, current: Snapshot, alwaysNotify: bool, timestamp: string)
    returns (message: Option<Report>)
    ensures message == Decide(previous, current, alwaysNotify, timestamp)
  {
    if previous != [] {
      var changes := CompareStatesLoop(previous, current);
      if changes != [] || alwaysNotify {
        if changes != [] {
          message := BuildMessage(changes, timestamp);
        } else {
          var status := BuildStatusMessageLoop(current, timestamp);
          message := Some(status);
        }
      } else {
        message := None;
      }
    } else {
      var status := BuildStatusMessageLoop(current, timestamp);
      message := Some(status);
    }
  }

  // ---- Properties of the decision ----

  /** First run: a status report is sent, whatever the always-notify flag says. */
  lemma FirstRunSendsStatus(current: Snapshot, alwaysNotify: bool, timestamp: string)
    requires current != []
    ensures Step([], Some(current), alwaysNotify, timestamp) ==
            Outcome(Some(BuildStatusMessage(current, timestamp)), current)
    ensures Step([], Some(current), alwaysNotify, timestamp) ==
            Step([], Some(current), !alwaysNotify, timestamp)
  {
  }

  /** Later runs: a report is sent exactly when there are changes or
      always-notify is set; with changes it is the change report listing them,
      without changes it is the status report. */
  lemma LaterRunReports(previous: Snapshot, current: Snapshot, alwaysNotify: bool, timestamp: string)
    requires previous != [] && current != []
    ensures var o := Step(previous, Some(current), alwaysNotify, timestamp);
            var changes := CompareStates(previous, current);
            && (o.message.Some? <==> changes != [] || alwaysNotify)
            && (changes != [] ==> o.message.Some? && o.message.value.lines[0] == ChangeTitle &&
                                  o.message.value.lines[3..] == Bullets(changes))
            && (changes == [] && alwaysNotify ==> o.message == Some(BuildStatusMessage(current, timestamp)))
  {
    var changes := CompareStates(previous, current);
    if changes != [] {
      var r := BuildMessage(changes, timestamp).value;
      assert r.lines[3..] == Bullets(changes);
    }
  }

  /** Scenario: an unchanged snapshot (unique ids) sends the status report when
      always-notify is set and nothing when it is not; the snapshot is kept. */
  lemma UnchangedSnapshot(s: Snapshot, timestamp: string)
    requires s != [] && UniqueIds(s)
    ensures Step(s, Some(s), true, timestamp) == Outcome(Some(BuildStatusMessage(s, timestamp)), s)
    ensures Step(s, Some(s), false, timestamp) == Outcome(None, s)
  {
    CompareWithSelfIsEmpty(s);
  }

  /** Scenario: a failed or empty fetch leaves everything as it was, on any run. */
  lemma FailedFetchKeepsState(previous: Snapshot, alwaysNotify: bool, timestamp: string)
    ensures Step(previous, None, alwaysNotify, timestamp) == Outcome(None, previous)
    ensures Step(previous, Some([]), alwaysNotify, timestamp) == Outcome(None, previous)
  {
  }

  /** Once a snapshot has been committed, the stored snapshot is never empty
      again, whatever the next fetch and POST do. */
  lemma StoredSnapshotStaysNonEmpty(previous: Snapshot, fetched: Option<Snapshot>, alwaysNotify: bool,
                                    timestamp: string, posted: bool)
    requires previous != []
    ensures Committed(previous, Step(previous, fetched, alwaysNotify, timestamp), posted) != []
  {
  }

  /** On any run, a report whose POST raises leaves the stored snapshot as it
      was, so its changes are compared again on the next usable poll. */
  lemma RaisedPostKeepsSnapshot(previous: Snapshot, fetched: Option<Snapshot>, alwaysNotify: bool, timestamp: string)
    requires Step(previous, fetched, alwaysNotify, timestamp).message.Some?
    ensures Committed(previous, Step(previous, fetched, alwaysNotify, timestamp), false) == previous
  {
  }

  /** The first-run status report is committed only when its POST does not
      raise; otherwise nothing is stored and the next usable poll is a first
      run again. */
  lemma FirstRunCommitsOnlyWhenPosted(current: Snapshot, alwaysNotify: bool, timestamp: string, posted: bool)
    requires current != []
    ensures var o := Step([], Some(current), alwaysNotify, timestamp);
            o.message.Some? && Committed([], o, posted) == (if posted then current else [])
  {
  }

  // ---- Delivery ----

  /** The message text mmain.py sends for a token: the token's name in
      【】 brackets on a line of its own, then the report. */
  function Tagged(name: string, r: Report): (t: string)
    ensures "【" + name + "】\n" <= t && t[|name| + 3..] == r.Content()
  {
    "【" + name + "】\n" + r.Content()
  }

  /** The tag is simply one more line in front of the report's lines. */
  lemma TaggedIsExtraLine(name: string, r: Report)
    requires r.lines != []
    ensures Tagged(name, r) == Join(["【" + name + "】"] + r.lines, "\n")
  {
    JoinCons("【" + name + "】", r.lines, "\n");
  }

  /** The text handed to the webhook, if any. */
  function Sent(o: Outcome, name: Option<string>): (s: Option<string>)
    ensures s.Some? <==> o.message.Some?
    ensures s.Some? && name.None? ==> s.value == o.message.value.Content()
    ensures s.Some? && name.Some? ==> "【" + name.value + "】\n" <= s.value
  {
    match o.message
    case None => None
    case Some(r) => Some(if name.Some? then Tagged(name.value, r) else r.Content())
  }

  /** The stored snapshot after a poll: the webhook call comes before the
      commit, so a POST that raises (`posted` false) skips the commit. A
      non-200 reply does not raise and does not stop the commit. */
  function Committed(previous: Snapshot, o: Outcome, posted: bool): (r: Snapshot)
    ensures r == o.next || r == previous
    ensures r != o.next ==> o.message.Some? && !posted
    ensures o.message.Some? && !posted ==> r == previous
  {
    if o.message.Some? && !posted then previous else o.next
  }

  // ---- main.py: the single-token loop ----

  /** The single-token monitor of main.py: one stored snapshot for the process. */
  class NodeMonitor {
    var previousState: Snapshot
    const alwaysNotify: bool
    const interval: nat

    constructor (alwaysNotify: bool, interval: nat)
      ensures previousState == [] && this.alwaysNotify == alwaysNotify && this.interval == interval
    {
      previousState := [];
      this.alwaysNotify := alwaysNotify;
      this.interval := interval;
    }

    /** One pass of the `while True` loop: fetch, decide, send, commit, then
        choose the pause. A fetch or a POST that raises ends the pass early
        with the short retry pause; otherwise the pause is `interval`. */
    method Cycle(fetched: Option<Snapshot>, posted: bool, timestamp: string) returns (sent: Option<string>, pause: nat)
      modifies this
      ensures var o := Step(old(previousState), fetched, alwaysNotify, timestamp);
              && sent == Sent(o, None)
              && previousState == Committed(old(previousState), o, posted)
      ensures pause == if fetched.None? || (sent.Some? && !posted) then RetryPause else interval
      ensures sent.Some? && !posted ==> previousState == old(previousState)
    {
      if fetched.None? {
        return None, RetryPause;
      }
      var current := fetched.value;
      sent := None;
      if current != [] {
        var message := Decision(previousState, current, alwaysNotify, timestamp);
        if message.Some? {
          sent := Some(message.value.Content());
          if !posted {
            return sent, RetryPause;
          }
        }
        previousState := current;
      }
      pause := interval;
    }
  }

  // ---- mmain.py: one monitor per token ----

  /** One entry of mmain.py's token list, with its own stored snapshot. */
  class TokenMonitor {
    const name: string
    /** The bearer token the (abstracted) fetch sends for this entry. */
    const token: string
    var previousState: Snapshot

    constructor (name: string, token: string)
      ensures this.name == name && this.token == token && previousState == []
    {
      this.name := name;
      this.token := token;
      previousState := [];
    }

    /** `monitor_single_token`: every failure is caught here, so the caller
        never sees one; only this token's snapshot may change. */
    method Poll(fetched: Option<Snapshot>, alwaysNotify: bool, posted: bool, timestamp: string) returns (sent: Option<string>)
      modifies this
      ensures PolledOnce(old(previousState), fetched, alwaysNotify, timestamp, posted, name, sent, previousState)
    {
      sent := None;
      if fetched.Some? && fetched.value != [] {
        var current := fetched.value;
        var message := Decision(previousState, current, alwaysNotify, timestamp);
        if message.Some? {
          sent := Some(Tagged(name, message.value));
          if !posted {
            return;
          }
        }
        previousState := current;
      }
    }
  }

  /** `sent` and `now` are what one poll of a token named `name` yields from
      the stored snapshot `before`. */
  predicate PolledOnce(before: Snapshot, fetched: Option<Snapshot>, alwaysNotify: bool, timestamp: string,
                       posted: bool, name: string, sent: Option<string>, now: Snapshot)
  {
    var o := Step(before, fetched, alwaysNotify, timestamp);
    sent == Sent(o, Some(name)) && now == Committed(before, o, posted)
  }

  /** One round of mmain.py's `monitor_nodes`: if the shared HTTP session could
      be opened, every token is polled once with its own fetch result; each
      token's snapshot moves independently of the others. A failure to open
      the session skips the round and pauses briefly. The tokens run
      concurrently in the source; since each touches only its own snapshot,
      polling them in list order gives the same final state. */
  method RunCycle(tokens: seq<TokenMonitor>, fetches: seq<Option<Snapshot>>, posts: seq<bool>,
                  stamps: seq<string>, alwaysNotify: bool, sessionOpened: bool, interval: nat)
    returns (sent: seq<Option<string>>, pause: nat)
    requires |fetches| == |tokens| && |posts| == |tokens| && |stamps| == |tokens|
    requires forall i, j :: 0 <= i < j < |tokens| ==> tokens[i] != tokens[j]
    modifies set i | 0 <= i < |tokens| :: tokens[i]
    ensures !sessionOpened ==>
              (sent == [] && pause == RetryPause &&
               forall i :: 0 <= i < |tokens| ==> tokens[i].previousState == old(tokens[i].previousState))
    ensures sessionOpened ==>
              (pause == interval && |sent| == |tokens| &&
               forall i :: 0 <= i < |tokens| ==>
                 PolledOnce(old(tokens[i].previousState), fetches[i], alwaysNotify, stamps[i], posts[i],
                            tokens[i].name, sent[i], tokens[i].previousState))
  {
    if !sessionOpened {
      return [], RetryPause;
    }
    sent := [];
    ghost var after: seq<Snapshot> := [];
    var k := 0;
    while k < |tokens|
      invariant 0 <= k <= |tokens| && |sent| == k && |after| == k
      invariant forall i :: 0 <= i < k ==> tokens[i].previousState == after[i]
      invariant forall i :: 0 <= i < k ==>
                  PolledOnce(old(tokens[i].previousState), fetches[i], alwaysNotify, stamps[i], posts[i],
                             tokens[i].name, sent[i], after[i])
      invariant forall i :: k <= i < |tokens| ==> tokens[i].previousState == old(tokens[i].previousState)
    {
      ghost var sentBefore, afterBefore := sent, after;
      var message := tokens[k].Poll(fetches[k], alwaysNotify, posts[k], stamps[k]);
      sent := sent + [message];
      after := after + [tokens[k].previousState];
      forall i | 0 <= i < k
        ensures PolledOnce(old(tokens[i].previousState), fetches[i], alwaysNotify, stamps[i], posts[i],
                           tokens[i].name, sent[i], after[i])
      {
        assert sent[i] == sentBefore[i] && after[i] == afterBefore[i];
      }
      k := k + 1;
    }
    pause := interval;
  }
}
