/**
 * How a node applies an entry of the replicated log: it skips a height it has, checks and
 * commits the next one, or catches up with the leader when it has fallen behind.
 */
module AgreementSpec {
  /** A log entry or stored block; what it carries besides its height stays abstract. */
  datatype Entry = Entry(height: nat, body: string)

  type Chain = seq<Entry>

  /** Validity as unknown functions of the chain so far: the follower's check, and the commit. */
  datatype Rules = Rules(check: (Chain, Entry) -> bool, add: (Chain, Entry) -> bool)

  /** The stored chain and the heights that the log applier and the block checker cache. */
  datatype NodeState = NodeState(chain: Chain, current: nat, last: nat)

  /** What asking the leader for one block can give. */
  datatype Reply = Failed | Empty | Sent(b: Entry)

  /**
   * What a node that has fallen behind finds: no leader, itself as leader, no answer in
   * time, or the leader's height and its replies to the requests for blocks, in order.
   */
  datatype Leader = Nobody | Itself | Silent | Answers(height: nat, replies: seq<Reply>)

  predicate Committable(rules: Rules, chain: Chain, b: Entry) {
    b.height == |chain| + 1 && rules.add(chain, b)
  }

  function CommitEntry(s: NodeState, b: Entry): NodeState {
    s.(chain := s.chain + [b], last := b.height)
  }

  /** The check before a commit compares with the cached height of the block checker. */
  predicate Deliverable(rules: Rules, s: NodeState, b: Entry) {
    b.height == 1 + s.last && rules.check(s.chain, b)
  }

  /** Catching up commits the leader's blocks without checking them, and stops at the first failure. */
  function CatchUp(rules: Rules, s: NodeState, replies: seq<Reply>): NodeState
    decreases |replies|
  {
    if replies == [] || replies[0].Failed? then s
    else if replies[0].Empty? || replies[0].b.height != s.current + 1 then CatchUp(rules, s, replies[1..])
    else if !Committable(rules, s.chain, replies[0].b) then s
    else CatchUp(rules, CommitEntry(s, replies[0].b).(current := replies[0].b.height), replies[1..])
  }

  function Apply(rules: Rules, s: NodeState, b: Entry, leader: Leader): NodeState {
    if b.height < 1 + s.current then s
    else if b.height == 1 + s.current then
      if Deliverable(rules, s, b) && Committable(rules, s.chain, b) then CommitEntry(s, b).(current := b.height) else s
    else if leader.Answers? && b.height <= leader.height then
      var s' := s.(current := |s.chain|);
      var wanted := if leader.height >= s'.current then leader.height - s'.current else 0;
      CatchUp(rules, s', if wanted <= |leader.replies| then leader.replies[..wanted] else leader.replies)
    else s
  }

  /** After a restart both caches are read back from the stored chain. */
  function Restart(s: NodeState): NodeState {
    NodeState(s.chain, |s.chain|, |s.chain|)
  }
}
