/**
 * The text form of the cluster messages: the arguments a sender prints, and what a handler makes
 * of the arguments it is given, malformed ones included.
 */
module Wire {
  import opened EntryLog
  import opened Decimal
  import opened ClusterNode
  import opened Protocol
  import opened RoundTrip
  import opened FrameSplits
  import opened Chunking

  function Truth(b: bool): string { if b then "true" else "false" }

  /** The parts of a message, in the order in which its command appends them. */
  function ToArgs(m: Message): (args: seq<string>)
    ensures args != []
  {
    match m
    case RequestVote(term, candidateId, lastIndex, lastTerm) =>
      ["requestvote", "term", ToString(term), "candidateId", ToString(candidateId),
       "lastLogIndex", ToString(lastIndex), "lastLogTerm", ToString(lastTerm)]
    case VoteReply(term, granted) =>
      ["replyrequestvote", "term", ToString(term), "voteGranted", Truth(granted)]
    case AppendEntry(term, leaderId, prevIndex, prevTerm, index, entryTerm, content, leaderCommit) =>
      ["appendentry", "term", ToString(term), "leaderId", ToString(leaderId),
       "prevLogIndex", ToString(prevIndex), "prevLogTerm", ToString(prevTerm),
       "index", ToString(index), "term", ToString(entryTerm),
       "entryCommand", content, "leaderCommit", ToString(leaderCommit)]
    case AppendReply(term, success) =>
      ["replyappendentry", "term", ToString(term), "success", Truth(success)]
  }

  // ---------------------------------------------------------------- reading

  /** The request in the arguments; None is the exit(1) on a wrong count or an unreadable number. */
  function ReadRequestVote(argv: seq<string>): Option<Message> {
    if |argv| != 9 then None
    else
      var term, id, lastIndex, lastTerm := Stol(argv[2]), Stoi(argv[4]), Stol(argv[6]), Stol(argv[8]);
      if term.None? || id.None? || lastIndex.None? || lastTerm.None? then None
      else Some(RequestVote(term.value, id.value, lastIndex.value, lastTerm.value))
  }

  function ReadAppendEntry(argv: seq<string>): Option<Message> {
    if |argv| != 17 then None
    else
      var term, id, prevIndex, prevTerm := Stol(argv[2]), Stoi(argv[4]), Stol(argv[6]), Stol(argv[8]);
      var index, entryTerm, commit := Stol(argv[10]), Stol(argv[12]), Stol(argv[16]);
      if term.None? || id.None? || prevIndex.None? || prevTerm.None? || index.None? || entryTerm.None? || commit.None?
      then None
      else Some(AppendEntry(term.value, id.value, prevIndex.value, prevTerm.value,
                            index.value, entryTerm.value, argv[14], commit.value))
  }

  // ---------------------------------------------------------------- handling

  function Exited(n: Node): Res { Res(n.(halted := true), []) }

  function HearRequestVote(n: Node, src: int, argv: seq<string>): Res {
    match ReadRequestVote(argv)
    case None => Exited(n)
    case Some(m) => HandleRequestVote(n, src, m)
  }

  function HearAppend(n: Node, src: int, argv: seq<string>): Res {
    match ReadAppendEntry(argv)
    case None => Exited(n)
    case Some(m) => HandleAppend(n, src, m)
  }

  /** An append reply that says neither true nor false: an error, but the sibling may be sent to again. */
  function HandleOddReply(n: Node, src: int, term: int): (bool, Res) {
    if n.term < term then (true, Res(ToFollow(n, term), []))
    else if src !in n.table.ids then (false, Res(n, []))
    else (false, Res(n.(table := n.table.(already := n.table.already[src := false])), []))
  }

  function HearVoteReply(n: Node, src: int, argv: seq<string>): Res {
    if n.role != Candidate then Res(n, [])
    else if |argv| < 5 then Exited(n)
    else
      var term := Stol(argv[2]);
      if term.None? then Exited(n)
      else Res(HandleVoteReply(n, VoteReply(term.value, argv[4] == "true")), [])
  }

  function HearAppendReply(n: Node, src: int, argv: seq<string>): (bool, Res) {
    if |argv| != 5 then (true, Exited(n))
    else if n.role != Leader then (true, Res(n, []))
    else
      var term := Stol(argv[2]);
      if term.None? then (true, Exited(n))
      else if argv[4] == "false" || argv[4] == "true" then
        (true, Res(HandleAppendReply(n, src, AppendReply(term.value, argv[4] == "true")), []))
      else HandleOddReply(n, src, term.value)
  }

  predicate IsMessageName(name: string) {
    name in {"requestvote", "replyrequestvote", "appendentry", "replyappendentry"}
  }

  /**
   * A node that is given the arguments of one of the four commands: the return code, the node and
   * what it sends. Reading past the arguments of a vote reply is taken for the end of the process.
   */
  function Hear(n: Node, src: int, argv: seq<string>): (bool, Res)
    requires argv != [] && IsMessageName(argv[0])
  {
    if argv[0] == "requestvote" then (true, HearRequestVote(n, src, argv))
    else if argv[0] == "replyrequestvote" then (true, HearVoteReply(n, src, argv))
    else if argv[0] == "appendentry" then (true, HearAppend(n, src, argv))
    else HearAppendReply(n, src, argv)
  }

  // ---------------------------------------------------------------- a message arrives as itself

  /** Numbers of the types that the program gives them. */
  predicate Sized(m: Message) {
    && IsLong(m.term)
    && match m
       case RequestVote(_, candidateId, lastIndex, lastTerm) =>
         IsInt(candidateId) && IsLong(lastIndex) && IsLong(lastTerm)
       case AppendEntry(_, leaderId, prevIndex, prevTerm, index, entryTerm, content, leaderCommit) =>
         && IsInt(leaderId) && IsLong(prevIndex) && IsLong(prevTerm) && IsLong(index) && IsLong(entryTerm)
         && IsLong(leaderCommit) && |content| <= INT_MAX
       case _ => true
  }

  lemma LongRead(text: string, n: int)
    requires text == ToString(n) && IsLong(n)
    ensures Stol(text) == Some(n)
  {
    ConvertToString(n);
  }

  lemma IntRead(text: string, n: int)
    requires text == ToString(n) && IsInt(n)
    ensures Stoi(text) == Some(n)
  {
    ConvertToString(n);
  }

  lemma RequestVoteRead(argv: seq<string>, m: Message)
    requires m.RequestVote? && Sized(m) && argv == ToArgs(m)
    ensures ReadRequestVote(argv) == Some(m)
  {
    LongRead(argv[2], m.term);
    IntRead(argv[4], m.candidateId);
    LongRead(argv[6], m.lastIndex);
    LongRead(argv[8], m.lastTerm);
  }

  /** The numbers of an append, read from their texts. */
  lemma AppendNumbersRead(argv: seq<string>, m: Message)
    requires m.AppendEntry? && Sized(m) && |argv| == 17
    requires argv[2] == ToString(m.term) && argv[4] == ToString(m.leaderId) && argv[6] == ToString(m.prevIndex)
    requires argv[8] == ToString(m.prevTerm) && argv[10] == ToString(m.index) && argv[12] == ToString(m.entryTerm)
    requires argv[14] == m.content && argv[16] == ToString(m.leaderCommit)
    ensures ReadAppendEntry(argv) == Some(m)
  {
    LongRead(argv[2], m.term);
    IntRead(argv[4], m.leaderId);
    LongRead(argv[6], m.prevIndex);
    LongRead(argv[8], m.prevTerm);
    LongRead(argv[10], m.index);
    LongRead(argv[12], m.entryTerm);
    LongRead(argv[16], m.leaderCommit);
  }

  lemma AppendEntryRead(m: Message)
    requires m.AppendEntry? && Sized(m)
    ensures ReadAppendEntry(ToArgs(m)) == Some(m)
  {
    AppendNumbersRead(ToArgs(m), m);
  }

  lemma VoteReplyHeard(n: Node, src: int, m: Message)
    requires Sized(m) && m.VoteReply?
    ensures HearVoteReply(n, src, ToArgs(m)) == Step(n, Receive(src, m))
  {
    ConvertToString(m.term);
  }

  lemma AppendReplyHeard(n: Node, src: int, m: Message)
    requires Sized(m) && m.AppendReply?
    ensures HearAppendReply(n, src, ToArgs(m)) == (true, Step(n, Receive(src, m)))
  {
    ConvertToString(m.term);
  }

  /** Hearing the arguments of a message is receiving it, for every node, sender and message. */
  lemma HearIsReceive(n: Node, src: int, m: Message)
    requires Sized(m)
    ensures IsMessageName(ToArgs(m)[0]) && Hear(n, src, ToArgs(m)) == (true, Step(n, Receive(src, m)))
  {
    match m
    case RequestVote(_, _, _, _) => RequestVoteRead(ToArgs(m), m);
    case AppendEntry(_, _, _, _, _, _, _, _) => AppendEntryRead(m);
    case VoteReply(_, _) => VoteReplyHeard(n, src, m);
    case AppendReply(_, _) => AppendReplyHeard(n, src, m);
  }

  /** All four commands are printed with this type. */
  const MESSAGE_TYPE := 'r'

  function Power(k: nat): nat { if k == 0 then 1 else 10 * Power(k - 1) }

  lemma {:induction false} DigitCount(n: nat, digits: nat)
    requires n < Power(digits) && digits > 0
    ensures |NatToString(n)| <= digits
  {
    if n >= 10 { DigitCount(n / 10, digits - 1); }
  }

  lemma NumberIsShort(n: int)
    requires IsLong(n)
    ensures |ToString(n)| <= 20
  {
    assert Power(1) == 10 && Power(3) == 1000 && Power(5) == 100000 && Power(7) == 10000000;
    assert Power(9) == 1000000000 && Power(11) == 100000000000 && Power(13) == 10000000000000;
    assert Power(15) == 1000000000000000 && Power(17) == 100000000000000000;
    assert Power(19) == 10000000000000000000;
    DigitCount(if n < 0 then 0 - n else n, 19);
  }

  lemma AppendPrintable(m: Message)
    requires m.AppendEntry? && Sized(m)
    ensures forall k :: 0 <= k < |ToArgs(m)| ==> |ToArgs(m)[k]| <= INT_MAX
  {
    NumberIsShort(m.term);
    NumberIsShort(m.leaderId);
    NumberIsShort(m.prevIndex);
    NumberIsShort(m.prevTerm);
    NumberIsShort(m.index);
    NumberIsShort(m.entryTerm);
    NumberIsShort(m.leaderCommit);
  }

  lemma ArgsPrintable(m: Message)
    requires Sized(m)
    ensures Printable(true, MESSAGE_TYPE, ToArgs(m)) && Telling(true, MESSAGE_TYPE)
  {
    match m
    case RequestVote(term, candidateId, lastIndex, lastTerm) =>
      NumberIsShort(term);
      NumberIsShort(candidateId);
      NumberIsShort(lastIndex);
      NumberIsShort(lastTerm);
    case AppendEntry(_, _, _, _, _, _, _, _) => AppendPrintable(m);
    case VoteReply(term, _) => NumberIsShort(term);
    case AppendReply(term, _) => NumberIsShort(term);
  }

  function MessageFrame(m: Message): string { Frame(true, MESSAGE_TYPE, ToArgs(m)) }

  /**
   * Printed, sent, parsed and heard, a message is received as what it was, for every node, and
   * whatever follows it stays in the buffer.
   */
  lemma MessageArrives(n: Node, src: int, m: Message, p: Parser, rest: string)
    requires Sized(m) && Boundary(p) && p.hasType && !p.wrap && p.input == MessageFrame(m) + rest
    ensures var (o, q) := Resolve(p);
            && o == Done && q.complete && q.input == rest && q.argv != [] && IsMessageName(q.argv[0])
            && Hear(n, src, q.argv) == (true, Step(n, Receive(src, m)))
  {
    ArgsPrintable(m);
    PrintThenParse(p, MESSAGE_TYPE, ToArgs(m), rest);
    HearIsReceive(n, src, m);
  }

  lemma AppendLines(m: Message)
    requires m.AppendEntry?
    ensures OneLiners(ToArgs(m)) <==> LF !in m.content
  {
    var args := ToArgs(m);
    NoLFInNumber(m.term);
    NoLFInNumber(m.leaderId);
    NoLFInNumber(m.prevIndex);
    NoLFInNumber(m.prevTerm);
    NoLFInNumber(m.index);
    NoLFInNumber(m.entryTerm);
    NoLFInNumber(m.leaderCommit);
    assert args[14] == m.content;
    forall i | 0 <= i < |args| && i != 14 ensures LF !in args[i] {}
  }

  /** Messages without a command in them are one-liners; the command of an append decides for it. */
  lemma MessageLines(m: Message)
    ensures OneLiners(ToArgs(m)) <==> (m.AppendEntry? ==> LF !in m.content)
  {
    NoLFInNumber(m.term);
    match m
    case RequestVote(_, candidateId, lastIndex, lastTerm) =>
      NoLFInNumber(candidateId);
      NoLFInNumber(lastIndex);
      NoLFInNumber(lastTerm);
    case AppendEntry(_, _, _, _, _, _, _, _) => AppendLines(m);
    case _ =>
  }

  /**
   * A message survives every split into reads exactly if it carries no LF. The entries of the
   * program are commands in wire format, so an append that carries one has a split that breaks it.
   */
  lemma MessageSplits(m: Message, p: Parser)
    requires Sized(m) && Boundary(p) && p.input == "" && p.hasType
    ensures SplitProof(p, MessageFrame(m)) <==> (m.AppendEntry? ==> LF !in m.content)
  {
    ArgsPrintable(m);
    MessageLines(m);
    SplitProofExactly(p, MESSAGE_TYPE, ToArgs(m));
  }

  lemma CommandHasLine(typed: bool, t: char, args: seq<string>)
    ensures LF in Frame(typed, t, args)
  {
    var h := Head(|args|);
    assert Frame(typed, t, args)[|h| - 1] == LF;
  }

  /** An append that carries a command in wire format is broken by some split. */
  lemma CommandsBreak(m: Message, p: Parser, typed: bool, t: char, args: seq<string>)
    requires m.AppendEntry? && m.content == Frame(typed, t, args)
    requires Sized(m) && Boundary(p) && p.input == "" && p.hasType
    ensures !SplitProof(p, MessageFrame(m))
  {
    CommandHasLine(typed, t, args);
    MessageSplits(m, p);
  }
}
