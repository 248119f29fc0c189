/** How far catching up gets: to the leader's height, or to the first reply that gives no block to commit. */
module AgreementProgress {
  import opened AgreementSpec
  import opened Agreement

  /** Both cached heights are the height of the stored chain. */
  predicate InStep(s: NodeState) {
    s.current == s.last == |s.chain|
  }

  /** The state of a node that holds the chain `c`. */
  function Holding(c: Chain): NodeState {
    NodeState(c, |c|, |c|)
  }

  /** The state of a node that holds `n` blocks of `c` and knows it. */
  function Reached(c: Chain, n: nat, last: nat): NodeState
    requires n <= |c|
  {
    NodeState(c[..n], n, last)
  }

  /** The replies that hold a block hold that of `c` at the height asked for, from the one after `from` on. */
  predicate BlocksOf(c: Chain, from: nat, replies: seq<Reply>) {
    forall k :: 0 <= k < |replies| && replies[k].Sent? ==> from + k < |c| && replies[k].b == c[from + k]
  }

  /** The block `i` of `c` commits on the blocks before it. */
  predicate CommitsAt(rules: Rules, c: Chain, i: nat) {
    i < |c| && rules.add(c[..i], c[i])
  }

  /** The first `k` replies hold blocks, each of which commits on those before it. */
  predicate Usable(rules: Rules, c: Chain, from: nat, replies: seq<Reply>, k: nat) {
    && k <= |replies|
    && (forall j :: 0 <= j < k ==> replies[j].Sent?)
    && (forall i :: from <= i < from + k ==> CommitsAt(rules, c, i))
  }

  /** The replies end after `k`, or the next one is missing, empty, or not to be committed. */
  predicate EndsAt(rules: Rules, c: Chain, from: nat, replies: seq<Reply>, k: nat) {
    k == |replies| || (k < |replies| && !(replies[k].Sent? && CommitsAt(rules, c, from + k)))
  }

  /** Blocks that are too high are passed over. */
  lemma {:induction false} TooHigh(rules: Rules, s: NodeState, replies: seq<Reply>)
    requires forall k :: 0 <= k < |replies| && replies[k].Sent? ==> replies[k].b.height > s.current + 1
    ensures CatchUp(rules, s, replies) == s
    decreases |replies|
  {
    if replies != [] && !replies[0].Failed? {
      TooHigh(rules, s, replies[1..]);
    }
  }

  /** Catching up ends with exactly the blocks before the first reply that gives none to commit. */
  lemma {:induction false} CatchUpReaches(rules: Rules, c: Chain, n: nat, last: nat, replies: seq<Reply>, k: nat)
    requires HeightsMatch(c) && n <= |c| && BlocksOf(c, n, replies)
    requires Usable(rules, c, n, replies, k) && EndsAt(rules, c, n, replies, k)
    ensures n + k <= |c|
    ensures CatchUp(rules, NodeState(c[..n], n, last), replies) == Reached(c, n + k, if k == 0 then last else n + k)
    decreases k
  {
    var s := NodeState(c[..n], n, last);
    if k > 0 {
      assert CommitsAt(rules, c, n) && c[..n + 1] == c[..n] + [c[n]];
      CatchUpReaches(rules, c, n + 1, n + 1, replies[1..], k - 1);
    } else if replies != [] && replies[0].Empty? {
      TooHigh(rules, s, replies[1..]);
    }
  }

  /** The replies that a node asks for, to reach the leader's height from its own. */
  function Asked(n: nat, leader: Leader): seq<Reply>
    requires leader.Answers?
  {
    if leader.height <= n then []
    else if leader.height - n <= |leader.replies| then leader.replies[..leader.height - n]
    else leader.replies
  }

  /**
   * A node that thinks it is behind the entry it applies, whatever its caches say, ends with the blocks before the
   * first reply that gives none to commit, and knows that height.
   */
  lemma ApplyReaches(rules: Rules, c: Chain, n: nat, current: nat, last: nat, b: Entry, leader: Leader, k: nat)
    requires HeightsMatch(c) && n <= |c| && current + 1 < b.height && leader.Answers? && b.height <= leader.height
    requires BlocksOf(c, n, Asked(n, leader))
    requires Usable(rules, c, n, Asked(n, leader), k) && EndsAt(rules, c, n, Asked(n, leader), k)
    ensures n + k <= |c|
    ensures Apply(rules, NodeState(c[..n], current, last), b, leader) ==
              Reached(c, n + k, if k == 0 then last else n + k)
  {
    CatchUpReaches(rules, c, n, last, Asked(n, leader), k);
  }

  /** The entry after the cached height is committed exactly if both caches are right and both rules accept it. */
  lemma NextCommitsIff(rules: Rules, s: NodeState, b: Entry, leader: Leader)
    requires b.height == s.current + 1
    ensures Apply(rules, s, b, leader) ==
              if InStep(s) && rules.check(s.chain, b) && rules.add(s.chain, b) then Holding(s.chain + [b]) else s
  {
  }

  /** If the leader sends all its blocks and each commits, the node holds the leader's chain afterwards. */
  lemma ApplyCatchesUp(rules: Rules, c: Chain, n: nat, b: Entry, leader: Leader)
    requires HeightsMatch(c) && n + 1 < b.height <= |c| && leader.Answers? && leader.height == |c|
    requires |leader.replies| >= |c| - n
    requires forall k :: 0 <= k < |c| - n ==> leader.replies[k] == Sent(c[n + k])
    requires forall i :: n <= i < |c| ==> CommitsAt(rules, c, i)
    ensures Apply(rules, Holding(c[..n]), b, leader) == Holding(c)
  {
    ApplyReaches(rules, c, n, n, n, b, leader, |c| - n);
    assert c[..n + (|c| - n)] == c;
  }

  /** What was accepted once commits again on the same blocks. */
  lemma {:induction false} CanonicalCommits(rules: Rules, start: Chain, log: seq<Entry>, i: nat)
    requires |start| <= i < |Canonical(rules, start, log)|
    ensures CommitsAt(rules, Canonical(rules, start, log), i)
  {
    if log != [] {
      var c := Canonical(rules, start, log[..|log| - 1]);
      if i < |c| {
        CanonicalCommits(rules, start, log[..|log| - 1], i);
        CanonicalExtends(rules, start, log, |log| - 1);
        assert Canonical(rules, start, log)[..i] == c[..i];
      } else {
        assert Canonical(rules, start, log)[..i] == c;
      }
    }
  }

  /**
   * In every run over a fork-free log: a node that applies an entry it is behind of, and gets all blocks from a
   * node that has that height, holds exactly that node's chain afterwards.
   */
  lemma RunCatchesUp(rules: Rules, start: Chain, log: seq<Entry>, n: nat, steps: seq<Step>, states: seq<Cluster>,
          t: nat, i: nat, j: nat, k: nat)
    requires HeightsMatch(start) && ForkFree(rules, start, log)
    requires Run(rules, start, log, n, steps, states) && t < |states| && i < n && j < n && k < |log|
    requires |states[t]| == n && |states[t][i].chain| + 1 < log[k].height <= |states[t][j].chain|
    ensures var c, m := states[t][j].chain, |states[t][i].chain|;
            var replies := seq(|c| - m, x requires 0 <= x < |c| - m => Sent(c[m + x]));
            Apply(rules, states[t][i], log[k], Answers(|c|, replies)) == Holding(c)
  {
    RunAgrees(rules, start, log, n, steps, states, t);
    var all := Canonical(rules, start, log);
    var c, m := states[t][j].chain, |states[t][i].chain|;
    assert Agrees(rules, start, log, states[t][i]) && Agrees(rules, start, log, states[t][j]);
    CanonicalHeights(rules, start, log);
    assert states[t][i] == Holding(c[..m]);
    forall x | m <= x < |c| ensures CommitsAt(rules, c, x) {
      CanonicalCommits(rules, start, log, x);
      assert c[..x] == all[..x] && c[x] == all[x];
    }
    var replies := seq(|c| - m, x requires 0 <= x < |c| - m => Sent(c[m + x]));
    ApplyCatchesUp(rules, c, m, log[k], Answers(|c|, replies));
  }

  /** A restart brings the caches in step with the chain, whatever they were. */
  lemma RestartInStep(s: NodeState)
    ensures InStep(Restart(s)) && Restart(s).chain == s.chain
  {
  }
}
