/**
 * Agreement over whole runs: nodes apply the entries of one log in any order, replay and
 * skip them, restart, and catch up from one another, and still all hold prefixes of one
 * chain, exactly when the log has no entry that could fork it.
 */
module Agreement {
  import opened AgreementSpec

  /** Checked and committed on `chain` by a node whose caches are right. */
  predicate Accepted(rules: Rules, chain: Chain, b: Entry) {
    b.height == |chain| + 1 && rules.check(chain, b) && rules.add(chain, b)
  }

  /** The chain of a node that has applied the log once from start to end. */
  function Canonical(rules: Rules, start: Chain, log: seq<Entry>): Chain {
    if log == [] then start
    else
      var c := Canonical(rules, start, log[..|log| - 1]);
      if Accepted(rules, c, log[|log| - 1]) then c + [log[|log| - 1]] else c
  }

  predicate Prefix(c: Chain, d: Chain) {
    |c| <= |d| && c == d[..|c|]
  }

  predicate HeightsMatch(c: Chain) {
    forall i :: 0 <= i < |c| ==> c[i].height == i + 1
  }

  /**
   * Every entry that the canonical chain, cut off just below the entry's height, would
   * accept is the canonical block of that height.
   */
  predicate ForkFree(rules: Rules, start: Chain, log: seq<Entry>) {
    var c := Canonical(rules, start, log);
    forall k | 0 <= k < |log| && |start| < log[k].height <= |c| + 1 ::
      Accepted(rules, c[..log[k].height - 1], log[k]) ==>
        log[k].height <= |c| && log[k] == c[log[k].height - 1]
  }

  // ------------------------------------------------------------------ clusters

  type Cluster = seq<NodeState>

  /** A node applies some entry of the log, or restarts. */
  datatype Step = Applies(node: nat, entry: nat, leader: Leader) | Restarts(node: nat)

  /** The leader's answers are its height and blocks of its chain at the requested heights. */
  predicate Honest(cluster: Cluster, s: NodeState, leader: Leader) {
    leader.Answers? ==>
      exists j :: 0 <= j < |cluster| && AnswersFrom(cluster[j].chain, |s.chain|, leader)
  }

  predicate AnswersFrom(chain: Chain, from: nat, leader: Leader)
    requires leader.Answers?
  {
    && leader.height == |chain|
    && forall k :: 0 <= k < |leader.replies| && leader.replies[k].Sent? ==>
         from + k < |chain| && leader.replies[k].b == chain[from + k]
  }

  predicate Legal(cluster: Cluster, log: seq<Entry>, step: Step) {
    && step.node < |cluster|
    && (step.Applies? ==> step.entry < |log| && Honest(cluster, cluster[step.node], step.leader))
  }

  function After(rules: Rules, cluster: Cluster, log: seq<Entry>, step: Step): Cluster
    requires Legal(cluster, log, step)
  {
    var s := cluster[step.node];
    cluster[step.node := if step.Restarts? then Restart(s) else Apply(rules, s, log[step.entry], step.leader)]
  }

  /** `states` is a run of a cluster of `n` nodes that all start from `start`. */
  ghost predicate Run(rules: Rules, start: Chain, log: seq<Entry>, n: nat, steps: seq<Step>, states: seq<Cluster>) {
    && |states| == |steps| + 1
    && |states[0]| == n
    && (forall i :: 0 <= i < n ==> states[0][i] == NodeState(start, |start|, |start|))
    && (forall t :: 0 <= t < |steps| ==>
          Legal(states[t], log, steps[t]) && states[t + 1] == After(rules, states[t], log, steps[t]))
  }

  /** The node's chain is part of the canonical one, and both cached heights are its length. */
  ghost predicate Agrees(rules: Rules, start: Chain, log: seq<Entry>, s: NodeState) {
    && |start| <= |s.chain| && Prefix(s.chain, Canonical(rules, start, log))
    && s.current == s.last == |s.chain|
  }

  ghost predicate AllAgree(rules: Rules, start: Chain, log: seq<Entry>, cluster: Cluster) {
    forall i :: 0 <= i < |cluster| ==> Agrees(rules, start, log, cluster[i])
  }

  lemma {:induction false} CanonicalExtends(rules: Rules, start: Chain, log: seq<Entry>, k: nat)
    requires k <= |log|
    ensures Prefix(Canonical(rules, start, log[..k]), Canonical(rules, start, log))
    ensures Prefix(start, Canonical(rules, start, log))
  {
    if k == |log| {
      assert log[..k] == log;
      if k > 0 {
        CanonicalExtends(rules, start, log[..k - 1], k - 1);
      }
    } else {
      CanonicalExtends(rules, start, log[..|log| - 1], k);
      assert log[..|log| - 1][..k] == log[..k];
    }
  }

  lemma {:induction false} CanonicalHeights(rules: Rules, start: Chain, log: seq<Entry>)
    requires HeightsMatch(start)
    ensures HeightsMatch(Canonical(rules, start, log))
  {
    if log != [] {
      CanonicalHeights(rules, start, log[..|log| - 1]);
    }
  }

  lemma {:induction false} CatchUpAgrees(rules: Rules, start: Chain, log: seq<Entry>, s: NodeState, replies: seq<Reply>)
    requires HeightsMatch(start) && Agrees(rules, start, log, s)
    requires forall k :: 0 <= k < |replies| && replies[k].Sent? ==> replies[k].b in Canonical(rules, start, log)
    ensures Agrees(rules, start, log, CatchUp(rules, s, replies))
    decreases |replies|
  {
    var c := Canonical(rules, start, log);
    CanonicalHeights(rules, start, log);
    if replies != [] && !replies[0].Failed? {
      if replies[0].Empty? || replies[0].b.height != s.current + 1 {
        CatchUpAgrees(rules, start, log, s, replies[1..]);
      } else if Committable(rules, s.chain, replies[0].b) {
        var b := replies[0].b;
        var i :| 0 <= i < |c| && c[i] == b;
        assert i == |s.chain| && c[..i + 1] == c[..i] + [b];
        CatchUpAgrees(rules, start, log, CommitEntry(s, b).(current := b.height), replies[1..]);
      }
    }
  }

  lemma ApplyAgrees(rules: Rules, start: Chain, log: seq<Entry>, cluster: Cluster, i: nat, k: nat, leader: Leader)
    requires HeightsMatch(start) && ForkFree(rules, start, log)
    requires AllAgree(rules, start, log, cluster) && i < |cluster| && k < |log|
    requires Honest(cluster, cluster[i], leader)
    ensures Agrees(rules, start, log, Apply(rules, cluster[i], log[k], leader))
  {
    var s, b, c := cluster[i], log[k], Canonical(rules, start, log);
    assert Agrees(rules, start, log, s);
    if b.height == 1 + s.current {
      if Deliverable(rules, s, b) && Committable(rules, s.chain, b) {
        assert s.chain == c[..b.height - 1];
        assert b.height <= |c| && b == c[b.height - 1];
        assert c[..b.height] == c[..b.height - 1] + [b];
      }
    } else if b.height > 1 + s.current && leader.Answers? && b.height <= leader.height {
      var j :| 0 <= j < |cluster| && AnswersFrom(cluster[j].chain, |s.chain|, leader);
      assert Agrees(rules, start, log, cluster[j]);
      var wanted := leader.height - s.current;
      var replies := if wanted <= |leader.replies| then leader.replies[..wanted] else leader.replies;
      forall m | 0 <= m < |replies| && replies[m].Sent? ensures replies[m].b in c {
        assert leader.replies[m] == replies[m];
        assert cluster[j].chain[|s.chain| + m] == c[|s.chain| + m];
      }
      CatchUpAgrees(rules, start, log, s, replies);
    }
  }

  /** In every run over a fork-free log, at every moment, every node agrees. */
  lemma {:induction false} RunAgrees(rules: Rules, start: Chain, log: seq<Entry>, n: nat, steps: seq<Step>,
          states: seq<Cluster>, t: nat)
    requires HeightsMatch(start) && ForkFree(rules, start, log)
    requires Run(rules, start, log, n, steps, states) && t < |states|
    ensures |states[t]| == n && AllAgree(rules, start, log, states[t])
  {
    CanonicalExtends(rules, start, log, 0);
    if t > 0 {
      RunAgrees(rules, start, log, n, steps, states, t - 1);
      var before, step := states[t - 1], steps[t - 1];
      assert Legal(before, log, step) && states[t - 1 + 1] == After(rules, before, log, step);
      assert Agrees(rules, start, log, before[step.node]);
      if step.Applies? {
        ApplyAgrees(rules, start, log, before, step.node, step.entry, step.leader);
      }
    }
  }

  // --------------------------------------------------- the condition is necessary

  lemma RunExtend(rules: Rules, start: Chain, log: seq<Entry>, n: nat, steps: seq<Step>, states: seq<Cluster>,
          step: Step)
    requires Run(rules, start, log, n, steps, states)
    requires Legal(states[|steps|], log, step)
    ensures Run(rules, start, log, n, steps + [step], states + [After(rules, states[|steps|], log, step)])
  {
    var steps', states' := steps + [step], states + [After(rules, states[|steps|], log, step)];
    forall t | 0 <= t < |steps'|
      ensures Legal(states'[t], log, steps'[t]) && states'[t + 1] == After(rules, states'[t], log, steps'[t])
    {
      if t < |steps| {
        assert states'[t] == states[t] && states'[t + 1] == states[t + 1];
      }
    }
  }

  /** One node alone, applying the first `m` entries in order, holds the canonical chain of them. */
  lemma {:induction false} ReachCanonical(rules: Rules, start: Chain, log: seq<Entry>, n: nat, m: nat)
    returns (steps: seq<Step>, states: seq<Cluster>)
    requires 0 < n && m <= |log|
    ensures Run(rules, start, log, n, steps, states) && |states[|steps|]| == n
    ensures var c := Canonical(rules, start, log[..m]);
            states[|steps|][0] == NodeState(c, |c|, |c|)
  {
    if m == 0 {
      steps, states := [], [seq(n, i => NodeState(start, |start|, |start|))];
    } else {
      steps, states := ReachCanonical(rules, start, log, n, m - 1);
      assert log[..m][..m - 1] == log[..m - 1];
      var step := Applies(0, m - 1, Nobody);
      RunExtend(rules, start, log, n, steps, states, step);
      steps, states := steps + [step], states + [After(rules, states[|steps|], log, step)];
    }
  }

  /** The canonical chain grows one block at a time. */
  lemma {:induction false} CanonicalPasses(rules: Rules, start: Chain, log: seq<Entry>, h: nat) returns (m: nat)
    requires |start| <= h <= |Canonical(rules, start, log)|
    ensures m <= |log| && Canonical(rules, start, log[..m]) == Canonical(rules, start, log)[..h]
  {
    if h == |Canonical(rules, start, log)| {
      m := |log|;
      assert log[..m] == log;
    } else {
      var init := log[..|log| - 1];
      m := CanonicalPasses(rules, start, init, h);
      assert init[..m] == log[..m];
    }
  }

  /** If the log can fork, some run of any cluster ends with a node off the canonical chain. */
  lemma ForkRun(rules: Rules, start: Chain, log: seq<Entry>, n: nat)
    returns (steps: seq<Step>, states: seq<Cluster>)
    requires 0 < n && !ForkFree(rules, start, log)
    ensures Run(rules, start, log, n, steps, states)
    ensures !AllAgree(rules, start, log, states[|steps|])
  {
    var c := Canonical(rules, start, log);
    var k :| && 0 <= k < |log| && |start| < log[k].height <= |c| + 1
             && Accepted(rules, c[..log[k].height - 1], log[k])
             && !(log[k].height <= |c| && log[k] == c[log[k].height - 1]);
    var h := log[k].height;
    var m := CanonicalPasses(rules, start, log, h - 1);
    steps, states := ReachCanonical(rules, start, log, n, m);
    var step := Applies(0, k, Nobody);
    RunExtend(rules, start, log, n, steps, states, step);
    var last := After(rules, states[|steps|], log, step);
    steps, states := steps + [step], states + [last];
    var forked := last[0].chain;
    assert forked == c[..h - 1] + [log[k]];
    assert forked[h - 1] == log[k];
    assert !Agrees(rules, start, log, last[0]);
  }

  /** All runs agree at every moment if and only if the log is fork-free. */
  lemma AgreementIff(rules: Rules, start: Chain, log: seq<Entry>, n: nat)
    requires HeightsMatch(start) && 0 < n
    ensures ForkFree(rules, start, log) <==>
              forall steps, states, t ::
                Run(rules, start, log, n, steps, states) && 0 <= t < |states| ==> AllAgree(rules, start, log, states[t])
  {
    if ForkFree(rules, start, log) {
      forall steps, states, t | Run(rules, start, log, n, steps, states) && 0 <= t < |states|
        ensures AllAgree(rules, start, log, states[t])
      {
        RunAgrees(rules, start, log, n, steps, states, t);
      }
    } else {
      var steps, states := ForkRun(rules, start, log, n);
      assert Run(rules, start, log, n, steps, states) && !AllAgree(rules, start, log, states[|steps|]);
    }
  }

  // ----------------------------------------------------------- logs without surprises

  /** Every entry is for the height that follows the canonical chain at its turn. */
  predicate InOrder(rules: Rules, start: Chain, log: seq<Entry>) {
    forall k :: 0 <= k < |log| ==> log[k].height == |Canonical(rules, start, log[..k])| + 1
  }

  /** A log whose entries are neither early nor repeated cannot fork. */
  lemma InOrderIsForkFree(rules: Rules, start: Chain, log: seq<Entry>)
    requires InOrder(rules, start, log)
    ensures ForkFree(rules, start, log)
  {
    var c := Canonical(rules, start, log);
    forall k | && 0 <= k < |log| && |start| < log[k].height <= |c| + 1
               && Accepted(rules, c[..log[k].height - 1], log[k])
      ensures log[k].height <= |c| && log[k] == c[log[k].height - 1]
    {
      CanonicalExtends(rules, start, log, k);
      CanonicalExtends(rules, start, log, k + 1);
      assert log[..k + 1][..k] == log[..k];
      assert c[..log[k].height - 1] == Canonical(rules, start, log[..k]);
    }
  }
}
