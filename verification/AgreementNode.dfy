/** The node object, whose callbacks change the chain and the two cached heights. */
module AgreementNode {
  import opened AgreementSpec

  class Node {
    const rules: Rules
    var chain: Chain
    var currentHeight: nat
    var lastHeight: nat

    /** A node starts from its stored chain and caches its height twice. */
    constructor (rules: Rules, stored: Chain)
      ensures this.rules == rules && State() == NodeState(stored, |stored|, |stored|)
    {
      this.rules := rules;
      chain, currentHeight, lastHeight := stored, |stored|, |stored|;
    }

    function State(): NodeState
      reads this
    {
      NodeState(chain, currentHeight, lastHeight)
    }

    method AddBlock(b: Entry) returns (ok: bool)
      modifies this`chain
      ensures ok <==> Committable(rules, old(chain), b)
      ensures chain == if ok then old(chain) + [b] else old(chain)
    {
      var prevHeight := |chain|;
      if b.height != prevHeight + 1 {
        return false;
      }
      if !rules.add(chain, b) {
        return false;
      }
      chain := chain + [b];
      return true;
    }

    method Deliver(b: Entry) returns (ok: bool)
      ensures ok <==> Deliverable(rules, State(), b)
    {
      if b.height != 1 + lastHeight {
        return false;
      }
      ok := rules.check(chain, b);
    }

    method Commit(b: Entry) returns (ok: bool)
      modifies this`chain, this`lastHeight
      ensures ok <==> Committable(rules, old(chain), b)
      ensures State() == if ok then CommitEntry(old(State()), b) else old(State())
    {
      ok := AddBlock(b);
      if ok {
        lastHeight := b.height;
      }
    }

    /** Asks for the heights from `lo` to `hi`; `replies` runs out when a request fails. */
    method RecoverBackwardBlocks(lo: nat, hi: nat, replies: seq<Reply>)
      requires lo == currentHeight + 1
      modifies this
      ensures var wanted := if hi >= lo then hi - lo + 1 else 0;
              State() == CatchUp(rules, old(State()), if wanted <= |replies| then replies[..wanted] else replies)
    {
      if lo > hi {
        return;
      }
      ghost var asked := if hi - lo + 1 <= |replies| then replies[..hi - lo + 1] else replies;
      ghost var result := CatchUp(rules, State(), asked);
      for i := lo to hi + 1
        invariant i - lo <= |asked|
        invariant CatchUp(rules, State(), asked[i - lo..]) == result
      {
        if i - lo >= |replies| || replies[i - lo].Failed? {
          return;
        }
        assert asked[i - lo] == replies[i - lo] && asked[i - lo..][1..] == asked[i - lo + 1..];
        if replies[i - lo].Sent? {
          var b := replies[i - lo].b;
          if b.height > currentHeight && currentHeight + 1 == b.height {
            var ok := Commit(b);
            if !ok {
              return;
            }
            currentHeight := b.height;
          }
        }
      }
    }

    method Apply(b: Entry, leader: Leader)
      modifies this
      ensures State() == AgreementSpec.Apply(rules, old(State()), b, leader)
    {
      if b.height < 1 + currentHeight {
        return;
      }
      if b.height == 1 + currentHeight {
        var ok := Deliver(b);
        if !ok {
          return;
        }
        ok := Commit(b);
        if !ok {
          return;
        }
        currentHeight := b.height;
        return;
      }
      if !leader.Answers? {
        return;
      }
      if b.height <= leader.height {
        currentHeight := |chain|;
        RecoverBackwardBlocks(currentHeight + 1, leader.height, leader.replies);
      }
    }
  }
}
