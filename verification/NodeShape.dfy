/** What every step of a node keeps about its own log, term and bookkeeping, whatever arrives. */
module NodeShape {
  import opened EntryLog
  import opened ClusterNode

  ghost predicate ShapedNode(n: Node) {
    && 1 <= n.term
    && 0 <= n.commitIndex
    && Contiguous(n.log)
    && TermsOrdered(n.log, n.term)
    && (n.role == Leader ==> n.lastEntryIndex == |n.log|)
  }

  ghost predicate ShapedMessage(m: Message) {
    && 1 <= m.term
    && (m.AppendEntry? ==>
          && 0 <= m.prevIndex
          && 0 <= m.leaderCommit
          && (m.index == m.entryTerm == 0
              || (m.index == m.prevIndex + 1 && 1 <= m.entryTerm <= m.term && m.prevTerm <= m.entryTerm)))
  }

  ghost predicate ShapedOut(out: seq<Send>) {
    forall j :: 0 <= j < |out| ==> ShapedMessage(out[j].msg)
  }

  /** On a contiguous log the previous-entry check is a comparison and a cut, and no cut ever misses. */
  lemma CheckPreviousOnContiguous(log: seq<Entry>, m: Message)
    requires m.AppendEntry? && 0 <= m.prevIndex && Contiguous(log)
    ensures CheckPrevious(log, m)
         == if m.prevIndex == 0 then (if log == [] then Accepted([]) else Rejected([]))
            else if |log| < m.prevIndex then Rejected(log)
            else if log[m.prevIndex - 1].term != m.prevTerm then Rejected(log[..m.prevIndex - 1])
            else Accepted(log[..m.prevIndex])
  {
    ContiguousAccess(log, m.prevIndex);
    ContiguousAccess(log, m.prevIndex + 1);
    if |log| == m.prevIndex {
      assert log[..m.prevIndex] == log;
    }
  }

  lemma PrefixShape(log: seq<Entry>, k: nat, bound: int)
    requires k <= |log| && Contiguous(log) && TermsOrdered(log, bound)
    ensures Contiguous(log[..k]) && TermsOrdered(log[..k], bound)
  {
  }

  lemma ExtendShape(log: seq<Entry>, e: Entry, bound: int)
    requires Contiguous(log) && TermsOrdered(log, bound)
    requires e.index == |log| + 1 && 1 <= e.term <= bound && (log != [] ==> log[|log| - 1].term <= e.term)
    ensures Contiguous(log + [e]) && TermsOrdered(log + [e], bound)
  {
  }

  /** Truncation and append leave a log of the right shape. */
  lemma FollowShape(log: seq<Entry>, m: Message, bound: int)
    requires m.AppendEntry? && ShapedMessage(m) && m.term <= bound
    requires Contiguous(log) && TermsOrdered(log, bound)
    ensures Contiguous(Follow(log, m).log) && TermsOrdered(Follow(log, m).log, bound)
  {
    CheckPreviousOnContiguous(log, m);
    var v := CheckPrevious(log, m);
    PrefixShape(log, |v.log|, bound);
    assert v.log == log[..|v.log|];
    if v.Accepted? && m.index != 0 { ExtendShape(v.log, Entry(m.index, m.entryTerm, m.content), bound); }
  }

  lemma {:induction false} ToAllShape(ids: seq<int>, m: Message)
    requires ShapedMessage(m)
    ensures ShapedOut(ToAll(ids, m))
  {
    if ids != [] { ToAllShape(ids[..|ids| - 1], m); }
  }

  ghost predicate SameBut(n: Node, n': Node) {
    && n'.id == n.id
    && n'.winVoteBaseline == n.winVoteBaseline
    && n'.table.ids == n.table.ids
    && n.term <= n'.term
  }

  /** Sending touches the role, the sibling tables and nothing else of a node. */
  lemma SendAppendKeeps(n: Node, s: int)
    ensures var n' := SendAppend(n, s).node;
            && n'.log == n.log && n'.term == n.term && n'.commitIndex == n.commitIndex
            && n'.lastEntryIndex == n.lastEntryIndex && (n'.role == n.role || n'.role == Follower)
            && SameBut(n, n')
  {
  }

  lemma SendAppendFits(n: Node, s: int)
    requires ShapedNode(n)
    ensures ShapedOut(SendAppend(n, s).out)
  {
    var next := Number(n.table.next, s);
    ContiguousAccess(n.log, next);
    ContiguousAccess(n.log, next - 1);
  }

  lemma SendAppendShape(n: Node, s: int)
    requires ShapedNode(n)
    ensures ShapedNode(SendAppend(n, s).node) && ShapedOut(SendAppend(n, s).out)
    ensures SameBut(n, SendAppend(n, s).node)
  {
    SendAppendKeeps(n, s);
    SendAppendFits(n, s);
  }

  lemma {:induction false} SendAppendsShape(n: Node, ids: seq<int>)
    requires ShapedNode(n)
    ensures ShapedNode(SendAppends(n, ids).node) && ShapedOut(SendAppends(n, ids).out)
    ensures SameBut(n, SendAppends(n, ids).node)
  {
    if ids != [] {
      var r := SendAppends(n, ids[..|ids| - 1]);
      SendAppendsShape(n, ids[..|ids| - 1]);
      SendAppendShape(r.node, ids[|ids| - 1]);
    }
  }

  lemma RecogniseShape(n: Node, m: Message)
    requires ShapedNode(n) && m.AppendEntry? && ShapedMessage(m) && !TurnsAway(n, m)
    ensures var f := Recognise(n, m);
            ShapedNode(f) && f.role == Follower && f.log == n.log && SameBut(n, f) && f.term >= m.term
  {
  }

  /** A follower with the log and commit index of a followed append. */
  lemma FollowedShape(f: Node, m: Message, log: seq<Entry>, commitIndex: int)
    requires ShapedNode(f) && f.role == Follower && Contiguous(log) && TermsOrdered(log, f.term) && 0 <= commitIndex
    ensures ShapedNode(f.(log := log, commitIndex := commitIndex))
  {
  }

  lemma HandleAppendShape(n: Node, src: int, m: Message)
    requires ShapedNode(n) && m.AppendEntry? && ShapedMessage(m)
    ensures ShapedNode(HandleAppend(n, src, m).node) && ShapedOut(HandleAppend(n, src, m).out)
    ensures SameBut(n, HandleAppend(n, src, m).node)
  {
    if !TurnsAway(n, m) {
      var f := Recognise(n, m);
      var log := Follow(f.log, m).log;
      RecogniseShape(n, m);
      FollowShape(f.log, m, f.term);
      ContiguousAccess(log, 0);
      FollowedShape(f, m, log, f.commitIndex);
      FollowedShape(f, m, log, Min(m.leaderCommit, Last(log).index));
    }
  }

  lemma CandidateShape(n: Node)
    requires ShapedNode(n)
    ensures ShapedNode(ToCandidate(n).node) && ShapedOut(ToCandidate(n).out)
  {
    var c := ToCandidate(n).node;
    ToAllShape(NeedAppend(c.table, c.table.ids), VoteRequest(c));
  }

  lemma LeadShape(n: Node)
    requires ShapedNode(n)
    ensures ShapedNode(ToLead(n))
  {
    ContiguousAccess(n.log, 0);
  }

  lemma AppendReplyShape(n: Node, src: int, m: Message)
    requires ShapedNode(n) && m.AppendReply? && ShapedMessage(m)
    ensures ShapedNode(HandleAppendReply(n, src, m)) && SameBut(n, HandleAppendReply(n, src, m))
  {
  }

  lemma RequestVoteShape(n: Node, src: int, m: Message)
    requires ShapedNode(n) && ShapedMessage(m) && m.RequestVote?
    ensures ShapedNode(HandleRequestVote(n, src, m).node) && ShapedOut(HandleRequestVote(n, src, m).out)
    ensures SameBut(n, HandleRequestVote(n, src, m).node)
  {
  }

  lemma VoteReplyShape(n: Node, m: Message)
    requires ShapedNode(n) && ShapedMessage(m) && m.VoteReply?
    ensures ShapedNode(HandleVoteReply(n, m)) && SameBut(n, HandleVoteReply(n, m))
  {
    LeadShape(n.(receiveVotes := n.receiveVotes + 1));
  }

  lemma TickShape(n: Node, childrenReady: bool, timedOut: bool)
    requires ShapedNode(n)
    ensures var r := Tick(n, childrenReady, timedOut);
            ShapedNode(r.node) && ShapedOut(r.out) && SameBut(n, r.node)
  {
    SendAppendsShape(n, NeedAppend(n.table, n.table.ids));
    CandidateShape(n);
    LeadShape(n);
  }

  /** Every step keeps the shape, sends only shaped messages and never lowers the term. */
  lemma StepShape(n: Node, i: Input)
    requires ShapedNode(n) && (i.Receive? ==> ShapedMessage(i.msg))
    ensures ShapedNode(Step(n, i).node) && ShapedOut(Step(n, i).out) && SameBut(n, Step(n, i).node)
  {
    match i
    case Receive(src, m) =>
      if m.AppendEntry? { HandleAppendShape(n, src, m); }
      else if m.AppendReply? { AppendReplyShape(n, src, m); }
      else if m.RequestVote? { RequestVoteShape(n, src, m); }
      else { VoteReplyShape(n, m); }
    case Cron(childrenReady, timedOut) => TickShape(n, childrenReady, timedOut);
    case Request(content) =>
    case Add(s) =>
    case Confirm(s) =>
    case Delete(s) =>
  }
}
