/**
 * The cron of a node, by who is connected and whether the time is up: idle, standing for election,
 * or winning one. Stated on steps, with a majority as a set of nodes.
 */
module Candidacy {
  import opened EntryLog
  import opened ClusterNode
  import opened World
  import opened LogMatching
  import opened Bookkeeping
  import opened Majority
  import opened Terms
  import opened Leading

  // ---------------------------------------------------------------- a majority, as a set

  function Flagged(ids: seq<int>, m: map<int, bool>): set<int> { set s | s in ids && Flag(m, s) }

  lemma FlaggedSnoc(ids: seq<int>, s: int, m: map<int, bool>)
    ensures Flagged(ids + [s], m) == if Flag(m, s) then Flagged(ids, m) + {s} else Flagged(ids, m)
  {
  }

  lemma {:induction false} CountFlagIsSize(ids: seq<int>, m: map<int, bool>)
    requires Distinct(ids)
    ensures CountFlag(ids, m) == |Flagged(ids, m)|
  {
    if ids == [] {
      assert Flagged(ids, m) == {};
    } else {
      var front, s := ids[..|ids| - 1], ids[|ids| - 1];
      CountFlagIsSize(front, m);
      assert ids == front + [s] && s !in front;
      FlaggedSnoc(front, s, m);
    }
  }

  /** The node and its connected siblings are more than half of the configured nodes. */
  ghost predicate MajorityConnected(t: Table) {
    |Flagged(t.ids, t.connected)| + 1 >= (|t.ids| + 1) / 2 + 1
  }

  lemma BaselineIsMajority(t: Table)
    requires Distinct(t.ids)
    ensures SiblingsBaseline(t) <==> MajorityConnected(t)
  {
    CountFlagIsSize(t.ids, t.connected);
  }

  // ---------------------------------------------------------------- a cron

  /** Without a majority of siblings or all child servers: nobody leads or stands, and nothing is sent. */
  lemma IdleCron(n: Node, childrenReady: bool, timedOut: bool)
    requires Distinct(n.table.ids) && !(MajorityConnected(n.table) && childrenReady)
    ensures var r := Step(n, Cron(childrenReady, timedOut));
            && r.out == [] && r.node.role == Follower && r.node.term == n.term
            && r.node.votedFor == (if n.role == Follower then n.votedFor else -1)
            && r.node.table.leaderId == (if MajorityConnected(n.table) then n.table.leaderId else -1)
            && r.node == n.(role := Follower, votedFor := r.node.votedFor,
                            table := n.table.(leaderId := r.node.table.leaderId))
  {
    BaselineIsMajority(n.table);
  }

  /** Before the time is up, whoever does not lead does nothing. */
  lemma EarlyCron(n: Node)
    requires Distinct(n.table.ids) && MajorityConnected(n.table) && n.role != Leader
    ensures Step(n, Cron(true, false)) == Res(n, [])
  {
    BaselineIsMajority(n.table);
  }

  /** One message, to exactly the siblings that are connected and not waiting, and once to each. */
  ghost predicate SentToFree(t: Table, out: seq<Send>, m: Message) {
    && (forall j :: 0 <= j < |out| ==> out[j].msg == m)
    && (forall s :: s in t.ids && Flag(t.connected, s) && !Flag(t.already, s) <==>
          exists j :: 0 <= j < |out| && out[j].dst == s)
    && (forall j, k :: 0 <= j < k < |out| ==> out[j].dst != out[k].dst)
  }

  lemma {:induction false} NeedAppendDistinct(t: Table, ids: seq<int>)
    requires Distinct(ids)
    ensures Distinct(NeedAppend(t, ids))
  {
    if ids != [] {
      NeedAppendDistinct(t, ids[..|ids| - 1]);
      NeedAppendExactly(t, ids[..|ids| - 1]);
    }
  }

  lemma {:induction false} ToAllInOrder(ids: seq<int>, m: Message)
    ensures |ToAll(ids, m)| == |ids| && forall j :: 0 <= j < |ids| ==> ToAll(ids, m)[j] == Send(ids[j], m)
  {
    if ids != [] { ToAllInOrder(ids[..|ids| - 1], m); }
  }

  lemma AllFreeAsked(t: Table, m: Message)
    requires Distinct(t.ids)
    ensures SentToFree(t, ToAll(NeedAppend(t, t.ids), m), m)
  {
    var ids := NeedAppend(t, t.ids);
    var out := ToAll(ids, m);
    NeedAppendExactly(t, t.ids);
    NeedAppendDistinct(t, t.ids);
    ToAllInOrder(ids, m);
    forall s | s in ids ensures exists j :: 0 <= j < |out| && out[j].dst == s {
      var j :| 0 <= j < |ids| && ids[j] == s;
      assert out[j].dst == s;
    }
    forall j | 0 <= j < |out| ensures out[j].dst in ids { assert out[j].dst == ids[j]; }
  }

  /**
   * A follower whose time is up, or a candidate with too few votes, stands in the next term: it
   * votes for itself, has that one vote, and asks every sibling that may be sent to.
   */
  lemma StandsForElection(n: Node)
    requires Distinct(n.table.ids) && MajorityConnected(n.table)
    requires n.role == Follower || (n.role == Candidate && n.receiveVotes < n.winVoteBaseline)
    ensures var r := Step(n, Cron(true, true));
            && r.node == n.(role := Candidate, term := n.term + 1, votedFor := n.id, receiveVotes := 1)
            && SentToFree(n.table, r.out, RequestVote(n.term + 1, n.id, Last(n.log).index, Last(n.log).term))
  {
    BaselineIsMajority(n.table);
    AllFreeAsked(n.table, RequestVote(n.term + 1, n.id, Last(n.log).index, Last(n.log).term));
  }

  /** A candidate with enough votes leads at its next late cron. */
  lemma LateVictory(n: Node)
    requires Distinct(n.table.ids) && MajorityConnected(n.table)
    requires n.role == Candidate && n.receiveVotes >= n.winVoteBaseline
    ensures Elected(n, Step(n, Cron(true, true)).node)
  {
    BaselineIsMajority(n.table);
    ElectedExactly(n, Cron(true, true));
  }

  /** A candidate that takes a vote: one more if it is granted, and leader exactly if that is enough. */
  lemma VoteCounted(n: Node, src: int, m: Message)
    requires n.role == Candidate && m.VoteReply? && m.term <= n.term
    ensures var n' := Step(n, Receive(src, m)).node;
            if !m.granted then n' == n
            else n'.receiveVotes == n.receiveVotes + 1
                 && (n'.role == Leader <==> n.receiveVotes + 1 >= n.winVoteBaseline)
                 && (n'.role != Leader ==> n' == n.(receiveVotes := n.receiveVotes + 1))
  {
  }

  /**
   * An election from start to end: a node stands, the sibling it asks grants the vote if its own log is
   * not ahead and it has not voted in a term as high, and the vote counts for the candidate.
   */
  lemma AskedAndGranted(n: Node, v: Node)
    requires Distinct(n.table.ids) && MajorityConnected(n.table) && n.role == Follower
    requires v.id in n.table.ids && Flag(n.table.connected, v.id) && !Flag(n.table.already, v.id)
    requires v.term <= n.term && Last(v.log).term <= Last(n.log).term && Last(v.log).index <= Last(n.log).index
    ensures var r := Step(n, Cron(true, true));
            exists j :: 0 <= j < |r.out| && r.out[j].dst == v.id && Granted(r.node, v, r.out[j].msg)
  {
    StandsForElection(n);
    var r := Step(n, Cron(true, true));
    var j :| 0 <= j < |r.out| && r.out[j].dst == v.id;
    VoteAnswer(v, n.id, r.out[j].msg);
    VoteRule(v, n.id, r.out[j].msg);
    VoteCounted(r.node, v.id, VoteReply(n.term + 1, true));
  }

  /** The voter votes for the candidate in its term, and the candidate counts that. */
  ghost predicate Granted(c: Node, v: Node, m: Message) {
    var r := Step(v, Receive(c.id, m));
    && r.node.votedFor == c.id && r.node.term == c.term && |r.out| == 1
    && Step(c, Receive(v.id, r.out[0].msg)).node.receiveVotes == c.receiveVotes + 1
  }
}
