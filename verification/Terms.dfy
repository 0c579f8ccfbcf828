/**
 * How a message moves its receiver's term, role and vote, which term every message carries, and
 * what one exchange of a request and its answer does to the two nodes. Stated on steps, by terms
 * and roles alone.
 */
module Terms {
  import opened EntryLog
  import opened Decimal
  import opened ClusterNode
  import opened NodeShape
  import opened World
  import opened LogMatching
  import opened Commit
  import opened Wire

  function Max(a: int, b: int): int { if a < b then b else a }

  /** Whom a message concerns: requests everybody, a reply only who may have asked. */
  predicate Heeds(n: Node, m: Message) {
    match m
    case RequestVote(_, _, _, _) => true
    case AppendEntry(_, _, _, _, _, _, _, _) => true
    case VoteReply(_, _) => n.role == Candidate
    case AppendReply(_, _) => n.role == Leader
  }

  /** The request gets the vote: the term is not behind, the log neither, and the vote is free. */
  predicate MayVote(n: Node, m: Message)
    requires m.RequestVote?
  {
    && n.term <= m.term
    && Last(n.log).term <= m.lastTerm && Last(n.log).index <= m.lastIndex
    && (n.term < m.term || n.votedFor == -1)
  }

  // ---------------------------------------------------------------- one message

  /** Whoever a message concerns has the higher of the two terms afterwards; nobody else's term moves. */
  lemma TermRule(n: Node, src: int, m: Message)
    ensures Step(n, Receive(src, m)).node.term == if Heeds(n, m) then Max(n.term, m.term) else n.term
  {
  }

  /** No reply to a node that may have asked, and no request for a vote, leaves it below its term. */
  lemma NeverBelow(n: Node, src: int, m: Message)
    requires m.RequestVote? || m.AppendEntry? || (m.VoteReply? && n.role == Candidate)
             || (m.AppendReply? && n.role == Leader)
    ensures m.term <= Step(n, Receive(src, m)).node.term
  {
    TermRule(n, src, m);
  }

  /**
   * A higher term makes a follower. Otherwise only two messages change a role: an append of the
   * same term makes a follower, and the vote that completes a majority makes a leader.
   */
  lemma RoleRule(n: Node, src: int, m: Message)
    ensures var n' := Step(n, Receive(src, m)).node;
            n'.role
            == if Heeds(n, m) && n.term < m.term then Follower
               else if m.AppendEntry? && n.term == m.term then Follower
               else if WinsNow(n, Receive(src, m)) then Leader
               else n.role
  {
  }

  /** The vote afterwards: given to who asked, forgotten with a new term or role, or kept. */
  lemma VoteRule(n: Node, src: int, m: Message)
    ensures var n' := Step(n, Receive(src, m)).node;
            n'.votedFor
            == if m.RequestVote? && MayVote(n, m) then m.candidateId
               else if n'.term != n.term || n'.role != n.role then -1
               else n.votedFor
  {
  }

  /** A leader and any reply to an append: a higher term ends the leadership, whatever the result. */
  lemma LeaderHearsReply(n: Node, src: int, m: Message)
    requires n.role == Leader && m.AppendReply?
    ensures var n' := Step(n, Receive(src, m)).node;
            && (m.term > n.term ==> n'.role == Follower && n'.term == m.term && n'.votedFor == -1)
            && (m.term <= n.term ==> n'.role == Leader && n'.term == n.term && n'.votedFor == n.votedFor)
            && n'.log == n.log
  {
    TermRule(n, src, m);
    RoleRule(n, src, m);
    VoteRule(n, src, m);
  }

  /** The same from the arguments, whose result may say anything at all. */
  lemma LeaderHearsArgs(n: Node, src: int, argv: seq<string>, term: int)
    requires n.role == Leader && |argv| == 5 && argv[0] == "replyappendentry" && Stol(argv[2]) == Some(term)
    ensures var n' := Hear(n, src, argv).1.node;
            && n'.halted == n.halted && n'.log == n.log
            && (term > n.term ==> n'.role == Follower && n'.term == term && n'.votedFor == -1)
            && (term <= n.term ==> n'.role == Leader && n'.term == n.term && n'.votedFor == n.votedFor)
    ensures term <= n.term && src in n.table.ids ==> !Flag(Hear(n, src, argv).1.node.table.already, src)
  {
    LeaderHearsReply(n, src, AppendReply(term, argv[4] == "true"));
  }

  // ---------------------------------------------------------------- the term a message carries

  ghost predicate AllOf(out: seq<Send>, term: int) { forall j :: 0 <= j < |out| ==> out[j].msg.term == term }

  lemma {:induction false} SendAppendsTerm(n: Node, ids: seq<int>)
    ensures var r := SendAppends(n, ids); r.node.term == n.term && AllOf(r.out, n.term)
  {
    if ids != [] {
      var front := ids[..|ids| - 1];
      SendAppendsTerm(n, front);
      SendAppendKeeps(SendAppends(n, front).node, ids[|ids| - 1]);
    }
  }

  lemma CronTerm(n: Node, childrenReady: bool, timedOut: bool)
    ensures var r := Step(n, Cron(childrenReady, timedOut)); AllOf(r.out, r.node.term)
  {
    SendAppendsTerm(n, NeedAppend(n.table, n.table.ids));
    var c := ToCandidate(n).node;
    NoAppends(NeedAppend(c.table, c.table.ids), VoteRequest(c));
  }

  lemma AnswerTerm(n: Node, src: int, m: Message)
    ensures var r := Step(n, Receive(src, m)); AllOf(r.out, r.node.term)
  {
  }

  /** Every message of every step carries the sender's term after the step. */
  lemma SentTerm(n: Node, i: Input)
    ensures AllOf(Step(n, i).out, Step(n, i).node.term)
  {
    match i
    case Receive(src, m) => AnswerTerm(n, src, m);
    case Cron(childrenReady, timedOut) => CronTerm(n, childrenReady, timedOut);
    case _ =>
  }

  // ---------------------------------------------------------------- the answers

  /** Every request for a vote is answered, with the voter's term then, and granted exactly if no guard fails. */
  lemma VoteAnswer(n: Node, src: int, m: Message)
    requires m.RequestVote?
    ensures var r := Step(n, Receive(src, m));
            && r.out == [Send(src, VoteReply(Max(n.term, m.term), MayVote(n, m)))]
            && r.node.term == Max(n.term, m.term) && r.node.halted == n.halted
  {
  }

  /** The append is followed: by a follower whatever its term, by anybody else if its term is not behind. */
  predicate Follows(n: Node, m: Message)
    requires m.AppendEntry?
  {
    n.role == Follower || n.term <= m.term
  }

  /** The log has what the append says comes before its entry; an append from the start wants an empty log. */
  predicate HoldsPrevious(log: seq<Entry>, m: Message)
    requires m.AppendEntry?
  {
    if m.prevIndex == 0 then log == [] else 1 <= m.prevIndex <= |log| && log[m.prevIndex - 1].term == m.prevTerm
  }

  /** The exit behind the check: something is committed, and there is no log that it could be in. */
  predicate NothingToCommit(m: Message)
    requires m.AppendEntry?
  {
    m.leaderCommit != 0 && m.prevIndex == 0 && (m.index == 0 || m.entryTerm == 0)
  }

  /**
   * Every append is answered to its sender, with the receiver's term then, and with success exactly
   * if it is followed and its previous entry is there; without an answer the process has ended.
   */
  lemma AppendAnswer(n: Node, src: int, m: Message)
    requires m.AppendEntry? && 0 <= m.prevIndex && Contiguous(n.log)
    ensures var r := Step(n, Receive(src, m));
            var success := Follows(n, m) && HoldsPrevious(n.log, m);
            && r.node.term == Max(n.term, m.term)
            && (if success && NothingToCommit(m) then r.out == [] && r.node.halted
                else r.out == [Send(src, AppendReply(Max(n.term, m.term), success))] && r.node.halted == n.halted)
  {
    if !TurnsAway(n, m) {
      var f := Recognise(n, m);
      assert f.log == n.log && f.term == Max(n.term, m.term);
      CheckPreviousOnContiguous(n.log, m);
    }
  }

  /** What the log is after the check of the previous entry has failed: the cut that goes with it. */
  function CutBack(log: seq<Entry>, m: Message): seq<Entry>
    requires m.AppendEntry? && 0 <= m.prevIndex
  {
    if m.prevIndex == 0 then [] else if |log| < m.prevIndex then log else log[..m.prevIndex - 1]
  }

  /** What the log becomes by an append that is followed. */
  lemma FollowedLog(log: seq<Entry>, m: Message)
    requires m.AppendEntry? && 0 <= m.prevIndex && Contiguous(log) && (m.index == 0 || m.index == m.prevIndex + 1)
    ensures Follow(log, m)
            == if !HoldsPrevious(log, m) then Rejected(CutBack(log, m))
               else Accepted(log[..m.prevIndex] + (if m.index == 0 || m.entryTerm == 0 then []
                                                   else [Entry(m.index, m.entryTerm, m.content)]))
    ensures HoldsPrevious(log, m) ==> Last(Follow(log, m).log).index == |Follow(log, m).log|
  {
    CheckPreviousOnContiguous(log, m);
    if HoldsPrevious(log, m) {
      assert CheckPrevious(log, m) == Accepted(log[..m.prevIndex]);
      assert log[..m.prevIndex] + [] == log[..m.prevIndex];
    }
  }

  /**
   * The log and the commit index after any append, by the same two conditions as the answer: what
   * is behind the previous entry goes, a carried entry comes, and what is committed follows the
   * leader's commit index up to the end of the log, backwards too.
   */
  lemma AppendLog(n: Node, src: int, m: Message)
    requires m.AppendEntry? && 0 <= m.prevIndex && Contiguous(n.log)
    requires m.index == 0 || m.index == m.prevIndex + 1
    ensures var n' := Step(n, Receive(src, m)).node;
            && n'.log == (if !Follows(n, m) then n.log
                          else if !HoldsPrevious(n.log, m) then CutBack(n.log, m)
                          else n.log[..m.prevIndex] + (if m.index == 0 || m.entryTerm == 0 then []
                                                       else [Entry(m.index, m.entryTerm, m.content)]))
            && n'.commitIndex == (if Follows(n, m) && HoldsPrevious(n.log, m) && m.leaderCommit != 0 && n'.log != []
                                  then Min(m.leaderCommit, |n'.log|) else n.commitIndex)
  {
    if !TurnsAway(n, m) {
      assert Recognise(n, m).log == n.log;
      FollowedLog(n.log, m);
    }
  }

  // ---------------------------------------------------------------- a request and its answer

  /** A request and whoever may have sent it: its term is the sender's, who waits for votes or leads. */
  predicate MayHaveSent(a: Node, m: Message) {
    m.term == a.term && ((m.RequestVote? && a.role == Candidate) || (m.AppendEntry? && a.role == Leader))
  }

  predicate Sendable(m: Message) { m.AppendEntry? ==> 0 <= m.prevIndex && !NothingToCommit(m) }

  /**
   * One exchange brings both nodes to the higher of their terms, and the node that was behind ends
   * as a follower that has not voted, whether it asked or was asked, and whatever was answered.
   */
  lemma ExchangeLevels(a: Node, b: Node, m: Message)
    requires MayHaveSent(a, m) && Sendable(m) && Contiguous(b.log)
    ensures var r := Step(b, Receive(a.id, m));
            && |r.out| == 1 && r.out[0].dst == a.id
            && var a' := Step(a, Receive(b.id, r.out[0].msg)).node;
               && r.node.term == a'.term == Max(a.term, b.term)
               && (a.term < b.term ==> a'.role == Follower && a'.votedFor == -1)
               && (b.term < a.term ==> r.node.role == Follower)
  {
    if m.RequestVote? { VoteAnswer(b, a.id, m); } else { AppendAnswer(b, a.id, m); }
    var r := Step(b, Receive(a.id, m));
    TermRule(a, b.id, r.out[0].msg);
    RoleRule(a, b.id, r.out[0].msg);
    VoteRule(a, b.id, r.out[0].msg);
    RoleRule(b, a.id, m);
  }

  /** A voter ahead of a candidate denies the vote, keeps its own, and the candidate follows in the voter's term. */
  lemma DenialTeaches(c: Node, v: Node, m: Message)
    requires c.role == Candidate && m.RequestVote? && m.term == c.term < v.term
    ensures var r := Step(v, Receive(c.id, m));
            && r.node == v && r.out == [Send(c.id, VoteReply(v.term, false))]
            && var c' := Step(c, Receive(v.id, r.out[0].msg)).node;
               c'.role == Follower && c'.term == v.term && c'.votedFor == -1
  {
    VoteAnswer(v, c.id, m);
    RoleRule(c, v.id, VoteReply(v.term, false));
    VoteRule(c, v.id, VoteReply(v.term, false));
  }

  /** An append that is turned away changes nothing there, and its sender follows in the term of who did so. */
  lemma RejectionTeaches(l: Node, f: Node, m: Message)
    requires l.role == Leader && m.AppendEntry? && m.term == l.term < f.term && f.role != Follower
    ensures var r := Step(f, Receive(l.id, m));
            && r.node == f && r.out == [Send(l.id, AppendReply(f.term, false))]
            && var l' := Step(l, Receive(f.id, r.out[0].msg)).node;
               l'.role == Follower && l'.term == f.term && l'.votedFor == -1
  {
    LeaderHearsReply(l, f.id, AppendReply(f.term, false));
  }

  /** A follower ahead of a leader may follow its append all the same; its success ends the leadership. */
  lemma SuccessMayTeach(l: Node, f: Node, m: Message)
    requires l.role == Leader && m.AppendEntry? && m.term == l.term < f.term && f.role == Follower
    requires Sendable(m) && Contiguous(f.log) && HoldsPrevious(f.log, m)
    ensures var r := Step(f, Receive(l.id, m));
            && r.out == [Send(l.id, AppendReply(f.term, true))]
            && var l' := Step(l, Receive(f.id, r.out[0].msg)).node;
               l'.role == Follower && l'.term == f.term && l'.log == l.log && l'.commitIndex == l.commitIndex
  {
    AppendAnswer(f, l.id, m);
    ExchangeLevels(l, f, m);
  }
}
