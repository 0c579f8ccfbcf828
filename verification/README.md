# Verification model of Cabinet

Cabinet is a replicated key-value store: cluster nodes that agree on a log in the manner of Raft
(Ongaro and Ousterhout, "In Search of an Understandable Consensus Algorithm", extended version), a
line-and-length wire format between all processes, a byte file that holds logs and command records,
and child servers on a consistent-hash ring that execute what the cluster has committed. This project
models these parts in Dafny, as the code is written, and proves what holds of them.

Verify everything with `dafny verify dfyconfig.toml`.

## The layers

**Cluster.** `ClusterNode` holds one node as a value and what each handler does to it. `World` is the
whole cluster: a run is any list of events, a packet once sent may be delivered any number of times,
late, out of order or never. Next to the nodes the world keeps history no node can see (led logs,
ballots, which append a reply answers). Reachable worlds are those of some run of some id range.
`Terms`, `Leading`, `Candidacy` and `Sending` say by terms, roles, guards and tables alone what each
message and each cron does, and what a request and its answer do to both nodes. `LogMatching`,
`Bookkeeping`, `Commit`, `Majority`, `Election`, `Repair`, `Pacing` and `Clients` prove invariants of
all runs; `Applied` adds the flush to the child servers with its exit and the exact guards that lead
to it. `TwoLeaders` and `FlushExit` give the runs that show why Election Safety and Log Matching need
their condition, and that the flush can end a node.

**The running node.** The classes `Siblings`, `Parents`, `Children` and `Cluster` run the handlers on
mutable fields and on the persistence file, from raw command arguments and from the clock, and are
proved to do exactly what the node model does. `Wire`, `DiskLogs` and `Deliveries` close the gap
between the model's messages and logs and their bytes on connections and on disk.

**Wire format.** `Decimal` and `Protocol` are stoi, stol, to_string, parser and printer as functions;
`ProtocolStream` is the class, proved against them. `RoundTrip`, `Grammar`, `Chunking`, `FrameSplits`,
`Reparse` and `NulTypes` are about what parsing means: inverse of printing, the language that is
accepted, independence of the split into reads (and exactly when), conservation of bytes, stability of
recorded commands (and exactly when). `ClientDrain` and `Pipelines` carry this to the event loop's
pass over clients, which `EventPoll` runs on a queue of objects.

**Storage and servers.** `Records` reads and writes entries on arbitrary bytes and proves that the
file behaves like a list of entries (and exactly for which entries); `PersistenceFile` is the class
with its stream and temporary file. `Recovery` and `Server` are the key-value server: record before
execution, replay after a restart. `Ring`, `ChildServers`, `Flush`, `Routing` and `Children` are the
child servers: ring, connections, the commands flushed to them, and that the ring does not show in
their answers. `Configuration` is what start-up reads.

Each mutable class has a `View()` (or `In()`, `State()`) that gives its fields as a value, and its
methods state the new view as a function of the old one. The theorems are about these functions.

## Hypotheses

All theorems are about runs without restarts from empty logs. Where more is assumed, it is a predicate
on the world or on the run:

- `OneLeaderPerTerm(w)`: no term has two leaders. `Election.ElectionSafetyHolds` says when that is so.
- `!w.stray`: every append reply that a leader takes answers the append it is waiting on. The reply
  carries no request identity (`src/ReplyAppendEntryCommand.cpp:43-60`), so the code cannot check this.
- `VoteRepliesOnce(w)`: no vote reply is delivered twice; the code does not look at who sent one.
- `CleanRun(es)`: no client sends a CR. Under it, and with fewer than INT_MAX events, the files show the
  logs that the cluster theorems speak of (`DiskLogs.FilesShowLogs`); without it they need not
  (`DiskLogs.DelimiterHidesEntries`). `SmallRun(c, es)`, int ids and int-sized commands, is what the
  wire needs besides.
- `Enabled`: a confirmation of a sibling comes on the connection that is registered for it. The
  handlers themselves are modelled without this.

Code and documentation disagree in one place that matters here: the schedule calls the format binary
safe (`schedule/README.md:77`), but an entry whose content holds a CR byte does not survive the
persistence file (`Records.DecodeEncode`), and an argument with an LF, or the type byte NUL, does not
survive every split into reads (`FrameSplits.SplitProofExactly`). The model follows the code.

## Model

| member | source | states |
|---|---|---|
| LogMatching.LogMatching | src/AppendEntryCommand.cpp:239-339 | Log Matching (section 5.3 of the Raft paper): in every run in which no term has two leaders, two logs holding an entry with the same index and term are identical up to it. This is about the entry lists; `DiskLogs.FilesShowLogs` carries it to the files. |
| LogMatching.LogShape | src/AppendEntryCommand.cpp:244-339 | In every run, two leaders of a term or not: log indexes are exactly 1..n, terms never fall along a log and never exceed the node's term, and a leader's lastEntryIndex is its log's length. This is about the entry lists; `DiskLogs.FilesShowLogs` carries it to the files. |
| LogMatching.TermsNeverFall | src/Cluster.cpp:322-352 | No event lowers a node's currentTerm. |
| LogMatching.CutsNeverMiss | src/AppendEntryCommand.cpp:265-312 | Whatever append is ever in the network, the position at which the handler cuts a log exists, so deleteEntryAfter does not fail in it. This is about the entry lists; `DiskLogs.FilesShowLogs` carries it to the files. |
| LogMatching.FollowGrafts | src/AppendEntryCommand.cpp:239-339 | An accepted append leaves the follower with its own log up to the previous entry, then the carried entry and nothing else; a rejected one leaves a prefix of its log. |
| LogMatching.RunTraced | src/AppendEntryCommand.cpp:239-339 | The invariant behind Log Matching: with one leader per term, every prefix of every log that ends in term t is a prefix of the log of t's leader. |
| EntryLog.ContiguousAccess | src/PersistenceFile.cpp:23-93 | In a log with indexes 1..n the scans of the file are array accesses, and deletion from an index keeps exactly what is before it. |
| DiskLogs.ShowsExactly | src/PersistenceFile.cpp:13-111 | The file a log is written to shows that log in every find, find-last, delete and scan, if and only if every entry is storable: int-sized numbers and no CR in the content. |
| DiskLogs.FilesShowLogs | src/ClusterDefaultCommand.cpp:21-26 | In every run of fewer than INT_MAX events in which no client sends a CR, every entry of every log is storable and every file shows its log. |
| DiskLogs.StepsFit | src/AppendEntryCommand.cpp:323-339 | In such a run every step appends only what can be stored: the condition under which the class `Cluster` keeps its file and its log together. |
| DiskLogs.DelimiterHidesEntries | src/Entry.cpp:23-54 | Without that condition: a reachable leader has taken a command with a CR and then another; its lastEntryIndex is 2, but the last entry it finds in its file has index 1 and entry 2 is not found. |
| NodeShape.StepShape | src/AppendEntryCommand.cpp:133-361 | Every handler keeps a node's log contiguous and its terms ordered and bounded, and sends only messages fit for that. |
| NodeShape.CheckPreviousOnContiguous | src/AppendEntryCommand.cpp:241-321 | On a contiguous log the previous-entry check accepts exactly if the previous entry is there with the sent term (or both sides start empty), and what it leaves of the log. |
| Terms.TermRule | src/AppendEntryCommand.cpp:172-227 | Whoever a message concerns, requests everybody and replies only who may have asked, has the higher of the two terms afterwards; no other term moves. |
| Terms.NeverBelow | src/ReplyAppendEntryCommand.cpp:43-50 | No reply to a leader or candidate and no request leaves its receiver below the message's term. |
| Terms.RoleRule | src/ReplyRequestVoteCommand.cpp:16-54 | Which role a node has after any message: a follower after a higher term or an append of its own term, a leader after the vote that completes the majority, otherwise what it was. |
| Terms.VoteRule | src/RequestVoteCommand.cpp:81-109 | The vote after any message: given exactly if the four guards fail, forgotten with a new term or role, otherwise kept. |
| Terms.LeaderHearsReply | src/ReplyAppendEntryCommand.cpp:43-54 | A leader and any append reply, successful or not: with a higher term it follows in that term without a vote, otherwise it leads on in its own. |
| Terms.LeaderHearsArgs | src/ReplyAppendEntryCommand.cpp:34-60 | The same from the arguments, whatever the result says; a reply that is not ahead frees the sibling for the next append. |
| Terms.SentTerm | src/RequestVoteCommand.cpp:88-117 | Every message of every step carries the sender's term after the step. |
| Terms.VoteAnswer | src/RequestVoteCommand.cpp:88-118 | Every vote request is answered with the voter's term after the step, and granted if and only if none of the four guards holds. |
| Terms.AppendAnswer | src/AppendEntryCommand.cpp:172-361 | Every append is answered with the receiver's term after the step, with success if and only if it is followed and its previous entry is there; only an append that commits something into an empty log ends the process. |
| Terms.AppendLog | src/AppendEntryCommand.cpp:241-350 | The log and the commit index after any append, by the same conditions. |
| Terms.ExchangeLevels | src/ReplyRequestVoteCommand.cpp:35-40 | A request and its answer bring both nodes to the higher of their terms, and the node that was behind ends as a follower, whatever was answered. |
| Terms.DenialTeaches | src/RequestVoteCommand.cpp:94-107 | A voter ahead of a candidate denies the vote and stays as it was, and the candidate ends as a follower in the voter's term. |
| Terms.RejectionTeaches | src/AppendEntryCommand.cpp:188-226 | A node that turns an append away stays as it was, and the sender ends as a follower in that node's term. |
| Terms.SuccessMayTeach | src/AppendEntryCommand.cpp:173-180 | A follower of a higher term may follow an append of a lower one, and its success ends the sender's leadership. |
| Leading.ElectedExactly | src/ReplyRequestVoteCommand.cpp:35-54 | A step makes a leader if and only if it is the vote that completes the majority, or a late cron of a candidate that has one. |
| Leading.LeaderStarts | src/Cluster.cpp:304-320 | At every election: term and log stay, all of the log counts as committed, the vote is forgotten, and every sibling is free, has matchIndex 0 and is sent to from behind the end of the log. |
| Leading.FirstAppends | src/Cluster.cpp:309-317 | The first cron of a new leader sends one heartbeat to every connected sibling, and any node with the same log that follows it keeps its log and answers with success. |
| Leading.HeartbeatKept | src/AppendEntryCommand.cpp:239-361 | A heartbeat from behind the end of a log leaves an equal log alone and commits all of it. |
| Candidacy.BaselineIsMajority | src/Siblings.cpp:151-162 | The loop's baseline holds if and only if the set of connected siblings and the node itself are more than half of the configured nodes. |
| Candidacy.IdleCron | src/Cluster.cpp:178-207 | Without such a majority or without all child servers, a cron makes a follower of the same term and sends nothing; the leader is forgotten only without a majority. |
| Candidacy.EarlyCron | src/Cluster.cpp:242-285 | Before the time is up, a follower's or candidate's cron does nothing. |
| Candidacy.StandsForElection | src/Cluster.cpp:333-352 | When it is up, a follower or a candidate with too few votes stands in the next term with its own vote alone, and asks exactly the siblings that are connected and not waiting, each once, with its log's end. |
| Candidacy.LateVictory | src/Cluster.cpp:257-270 | A candidate with enough votes leads at its next late cron. |
| Candidacy.VoteCounted | src/ReplyRequestVoteCommand.cpp:42-54 | A grant counts one and makes a leader if and only if that completes the majority; a denial of no higher term changes nothing. |
| Candidacy.AskedAndGranted | src/RequestVoteCommand.cpp:88-118 | A free connected sibling that is not ahead in term or log is asked, votes for the candidate in its term, and is counted. |
| Bookkeeping.LeaderBookkeeping | src/AppendEntryCommand.cpp:32-56 | If every reply a leader takes answers the append it waits for: no node has left through an exit of its message handlers or its send loop, commitIndex is inside a leader's log, 1 <= nextIndex <= lastEntryIndex + 1 and matchIndex <= lastEntryIndex for connected siblings. The exit in the flush is `Applied.FlushEndsExactly`. |
| Bookkeeping.CronServesAll | src/Cluster.cpp:224-241 | Under the same hypothesis a leader's cron never exits and never steps down half-way: exactly one append to each sibling that is connected and not waiting, in order. |
| Bookkeeping.NeedAppendExactly | src/Siblings.cpp:139-149 | The siblings that need an append are exactly those that are connected and not waiting. |
| Sending.LeaderCron | src/AppendEntryCommand.cpp:20-113 | Without any hypothesis on the tables: the siblings that need one are sent the entry at their nextIndex, in order, up to the first whose nextIndex is not inside the log; there the leader follows or the process ends, and which of the two. |
| Pacing.ReplyTaken | src/ReplyAppendEntryCommand.cpp:56-90 | A reply that is not ahead frees the sibling; a failure moves nextIndex back but not below 1, a success for an entry records it and moves on, a success for a heartbeat does neither; nobody else's entries change. |
| Pacing.OneAppendAtATime | src/Siblings.cpp:139-149 | In every run an append is sent only by a leader, and only to a connected sibling from which no reply is awaited. |
| Pacing.RunAwaits | src/Siblings.cpp:322-331 | The invariant: in every run a leader awaits a sibling's reply if and only if its flag for it is set, through elections, replies, losses and new connections. |
| Pacing.SiblingJoined | src/Siblings.cpp:76-109 | A new connection of a sibling that has none: free, not yet connected, nothing matched, sent to from behind the commit index; nobody else's entries change. |
| Pacing.SiblingLost | src/Siblings.cpp:111-137 | A lost connection: the sibling is no longer connected, and no longer the leader if it was; nobody else's entries change. |
| Pacing.SiblingConfirmed | src/Siblings.cpp:299-309 | A confirmation connects the sibling and changes nothing else. |
| Pacing.RejoinsFromCommit | src/Siblings.cpp:76-137 | A sibling that is lost and comes back is sent an append at the leader's next cron, with the last committed entry as the previous one. |
| Clients.CommandLogged | src/ClusterDefaultCommand.cpp:21-26 | A leader's log grows by exactly the command with the next index and the leader's term; no other node takes it. |
| Clients.CommandReplicated | src/AppendEntryCommand.cpp:323-339 | One round later a follower that had the leader's log has it again, the command included. |
| Clients.LeaderNamed | src/AppendEntryCommand.cpp:234-238 | Whom a node names as the leader after any step: the sender of the last append it followed, until it is lost or too few siblings are connected. |
| Clients.NamedHasLed | src/ClusterDefaultCommand.cpp:40-60 | In every run, whom a node names has led a term that is not above the node's own: no client is sent to a node that has never led. |
| Bookkeeping.RunBooked | src/ReplyAppendEntryCommand.cpp:43-90 | The bookkeeping invariant, with the append each leader waits for per sibling, holds through whole runs. |
| Applied.FlushEndsExactly | src/Children.cpp:143-155 | In every run with flushes: flushServer's exit on commitIndex < lastApplied ends a node if and only if at some event a guard of an undercut held, and the next of its events at which it flushes or a guard of a recovery holds is a flush. The guards are on the state and the input of the step; the two rows below say that they are exact. |
| Applied.UndercutExactly | src/AppendEntryCommand.cpp:341-350 | One step leaves commitIndex below a lastApplied it was not below, if and only if the node takes an append that commits less than lastApplied, or wins an election with a log that ends before it; and only a step that lowers commitIndex does so. |
| Applied.RecoversExactly | src/Siblings.cpp:360-383 | A step that does not flush lets a node that is behind catch up if and only if a child server is lost, or an append taken, a victory or a majority of successes commits as far as lastApplied. |
| Applied.BehindExactly | src/Cluster.cpp:175-288 | In every run: commitIndex is behind lastApplied exactly if a guard of an undercut held at some event and at no later one a guard of a recovery or of the exit. |
| Applied.NeverUndercut | src/Children.cpp:147-159 | A node that is never undercut never ends in the flush, and lastApplied never passes its commitIndex. |
| Applied.OnlyFlushesEnd | src/AppendEntryCommand.cpp:32-56 | If leaders take only the replies they wait for, no other exit is taken in a run with flushes. |
| Applied.ServedIsRun | src/Cluster.cpp:218-221 | The worlds of a run with flushes are those of a run without: every cluster theorem holds of them. |
| FlushExit.FlushEndsNode | src/Children.cpp:152-155 | That exit can be reached without any stray reply: in a run of three nodes, a node that has flushed one command ends as a leader with an empty log and nothing committed. |
| Commit.CommitIsBacked | src/Siblings.cpp:360-383 | When a leader raises commitIndex to i, i is inside its log, and at least clusterHalfNumber distinct nodes, itself counted, each sent it a success in this leadership with a log equal to the leader's on 1..i. |
| Commit.CommitNeverFalls | src/Siblings.cpp:360-383 | Within one leadership commitIndex never falls, whatever replies arrive. |
| Commit.CommitFallsExactly | src/AppendEntryCommand.cpp:341-350 | For any node and input: commitIndex falls if and only if an append is accepted whose non-zero leaderCommit, cut at the end of the log, is less, or the node becomes leader with a log that ends before it. |
| Commit.StepSuccess | src/AppendEntryCommand.cpp:323-361 | A success is only ever sent in answer to an append that has just been grafted onto the log, and only to its sender. |
| Commit.RunAcked | src/ReplyAppendEntryCommand.cpp:71-90 | The invariant: behind every non-zero matchIndex of a leader stands a delivered success whose sender's log agreed with the leader's up to it. |
| Election.ElectionSafety | src/ReplyRequestVoteCommand.cpp:35-54 | With each vote reply delivered at most once: if two nodes lead the same term, some node voted twice in it and forgot the first vote in between, or one of the two counted a grant of an older term. |
| Election.ElectionSafetyHolds | src/ReplyRequestVoteCommand.cpp:35-54 | Without such double votes and stale grants no term has two leaders (section 5.2 of the Raft paper). |
| Election.WinnerDominatesVoter | src/RequestVoteCommand.cpp:81-109 | For every vote counted in the term it was granted: the winner's last index and last term at toLead are each at least what the voter had, which implies the rule of section 5.4.1 of the Raft paper. |
| Election.RunElection | src/RequestVoteCommand.cpp:54-119 | The invariants of voting hold through whole runs: requests and grants carry honest logs, tallies hold only grants to that candidacy, and two votes of a node in a term have a reset of votedFor between them. |
| TwoLeaders.ElectionSafetyFails | src/Cluster.cpp:304-320 | Unconditional Election Safety is false of the code: a run of three nodes, no reply repeated, in which two nodes lead term 2 because toLead forgets the vote. |
| TwoLeaders.LogMatchingFails | src/ClusterDefaultCommand.cpp:21-26 | Log Matching without one leader per term is false of the code: a reachable world, no vote reply repeated, in which two logs hold different entries with index 1 and term 2. |
| Majority.SiblingIdsComplete | src/Siblings.cpp:36-54 | The sibling-building loop lists every other id of the range exactly once. |
| Majority.BaselineIsHalf | src/Cluster.cpp:42-44 | winVoteBaseline equals clusterHalfNumber if and only if the node's id lies in the range or the range has an even number of ids. |
| Majority.QuorumsMeet | src/Siblings.h:44-45 | Any two sets of that size inside the id range share a node. |
| Majority.CountReachedIsSize | src/Siblings.cpp:366-373 | The loop's count of siblings that reached an index is the size of a set of nodes. |
| Majority.RunConfigured | src/Siblings.cpp:24-62 | Sibling ids and baseline never change in a run. |
| Repair.RepairIsTotal | src/ReplyAppendEntryCommand.cpp:62-90 | From any nextIndex in 1..|L|+1 and any follower log, at most nextIndex + |L| rounds of append, handling and reply bring nextIndex past the leader's log L; one heartbeat later the follower's log is its own up to the meeting point and L behind it, hence L itself under Log Matching. |
| Repair.RepairConverges | src/ReplyAppendEntryCommand.cpp:62-90 | The same on logs, with the exact number of rounds, the delete-all round counted, and the end state a fixed point. |
| Repair.SuccessLasts | src/ReplyAppendEntryCommand.cpp:71-90 | All rounds after the first success succeed. |
| Repair.RoundIsNext | src/AppendEntryCommand.cpp:20-113 | A round run by the two nodes' handlers is a round of the log exchange, and leaves the two able to go on. |
| Repair.RepairedIsLeaders | src/AppendEntryCommand.cpp:241-339 | If the two logs satisfied Log Matching at the start, the repaired log is the leader's. |
| ClusterProgram.Cluster.constructor | src/Cluster.cpp:30-103 | Start-up from a configuration: an unreadable number, an id range below 1, an unreadable port or a frequency of 0 ends the process; otherwise the initial node of the cluster model on the file found, with timer and timeout set and the child servers registered. Divisions truncate as in C++, for reversed id ranges too. |
| ClusterProgram.Cluster.ToFollow | src/Cluster.cpp:322-331 | Role, term, votedFor and the election timer, as the node model's step does, and nothing else. |
| ClusterProgram.Cluster.ToLead | src/Cluster.cpp:304-320 | Reads the end of the log from the file, takes it for lastEntryIndex and commitIndex, resets the sibling tables, and forgets which clients wait. |
| ClusterProgram.Cluster.ToCandidate | src/Cluster.cpp:333-352 | Raises the term, votes for itself, restarts the timer and sends the vote request to each sibling that is connected and not waiting. |
| ClusterProgram.Cluster.AppendEntrySend | src/AppendEntryCommand.cpp:20-113 | Builds append or heartbeat from nextIndex and the file, with every exit and step-down, as the node model's step does; the timer restarts exactly on a step-down. |
| ClusterProgram.Cluster.AppendEntryReceive | src/AppendEntryCommand.cpp:165-361 | Term check, timer, previous-entry check, truncation, append on the file, commit update and reply, as the node model's step does, if the entry can be stored. |
| ClusterProgram.Cluster.FollowLog | src/AppendEntryCommand.cpp:239-339 | The log part of the append handler on the file: what it accepts and the log it leaves; the file holds that log if the entry can be stored. |
| ClusterProgram.Cluster.AppendReplyReceive | src/ReplyAppendEntryCommand.cpp:15-95 | From the raw arguments: wrong count and unreadable term end the process, a text other than true and false is an error that frees the sibling; otherwise back-off, match recording and commit trigger as the node model's step does. |
| ClusterProgram.Cluster.CheckIfEntryCouldCommit | src/Siblings.cpp:360-383 | Counts the siblings that reached the index and raises commitIndex on a majority. |
| ClusterProgram.Cluster.RequestVoteReceive | src/RequestVoteCommand.cpp:54-119 | From the raw arguments: wrong count or an unreadable number ends the process; otherwise term adoption and the grant rule as the node model's step does. |
| ClusterProgram.Cluster.VoteReplyReceive | src/ReplyRequestVoteCommand.cpp:10-57 | From the raw arguments: counting of grants and promotion as the node model's step does, and the exit on an unreadable term. |
| ClusterProgram.Cluster.ReceiveCommand | src/CommandKeeper.cpp:59-65 | Any of the four commands between nodes with any arguments: return code, node and messages as `Wire.Hear` says. |
| ClusterProgram.Cluster.ExecuteCommand | src/ClusterClient.cpp:11-23 | selectCommand and every command of the cluster by name, with any arguments; any other name is a client's command. Return code, node and messages, what is answered on the connection, which client a child server's reply goes to, the timer, and who waits afterwards. |
| ClusterProgram.CommandIsSteps | src/ClusterClient.cpp:11-23 | Whatever command reaches a node: if it succeeds and does not end the process at once, the node has taken at most two steps of the node model and sent what they send. |
| ClusterProgram.Cluster.ClusterDefault | src/ClusterDefaultCommand.cpp:15-67 | The leader appends the command with the next index and its term and records who waits for it, failing for an unknown client; a follower answers the leader's address or that there is none; a candidate asks to come again. |
| ClusterProgram.Cluster.FlushReplyReceive | src/FlushServerCommand.cpp:52-82 | A child server's reply goes to the client that waits for the lastApplied of that moment, once, and only from a leader. |
| ClusterProgram.Cluster.Cron | src/Cluster.cpp:175-288 | A whole cron: the registrations of the reconnect followed by one cron step of the node model with the timer compared, unless the flush ends the process, or a candidate with the id 0 divides by it for its sleep; lastApplied as the flush leaves it, or 0 without all child servers. Also the timer, the siblings on the way, who waits, and the send buffers of the child servers afterwards, so that crons can be chained. |
| ClusterProgram.IdleTick | src/Cluster.cpp:180-207 | Stepping down and then reconnecting, as the code does it, is reconnecting and then an idle cron step. |
| ClusterProgram.Cluster.AddSibling | src/Siblings.cpp:76-109 | Success exactly for a known, unconnected, unregistered sibling, whose indexes are set from commitIndex; nothing else of the node changes. |
| ClusterProgram.Cluster.DeleteSibling | src/Siblings.cpp:111-137 | Losing a connection clears the sibling's entries and, if it was the leader, the leader id. |
| ClusterProgram.Cluster.ConfirmSibling | src/Siblings.cpp:299-309 | Any known sibling is connected, registered or not. |
| ClusterProgram.Cluster.ClusterNodeReceive | src/ClusterNodeCommand.cpp:32-77 | A sibling's greeting: the connection leaves the clients, is registered and confirmed, and answered; every failing path included. |
| ClusterProgram.Cluster.ReplyClusterNodeReceive | src/ReplyClusterNodeCommand.cpp:12-40 | The answer to a greeting confirms the sibling of the connection. |
| ClusterProgram.HandshakeConnects | src/ClusterNodeCommand.cpp:10-77 | A greeting, its answer and the confirmation: both nodes have the other registered and connected, and send from behind their commit index. |
| ClusterProgram.RedirectNames | src/ClusterDefaultCommand.cpp:40-60 | The address a follower answers is the configured one of the leader it names, and its port reads back as the configured number. |
| SiblingsProgram.RegainedExactly | src/Siblings.cpp:179-234 | The siblings that a reconnect registers are exactly those with a smaller id that can be reached and have no connection, none on the way and none registered, each once. |
| SiblingsProgram.Siblings.RecognizeSiblings | src/Siblings.cpp:24-62 | From the configuration: the tables and addresses of all ids of the range but the node's own; an id below 1 ends the process, and an unreadable port is an error. |
| SiblingsProgram.Siblings.AddSiblings | src/Siblings.cpp:76-109 | Success exactly for a known, unconnected, unregistered sibling, with the whole new tables; it is no longer on the way. |
| SiblingsProgram.Siblings.DeleteSiblings | src/Siblings.cpp:111-137 | Success exactly for a registered sibling, with the whole new tables; it is no longer on the way. |
| SiblingsProgram.Siblings.ConnectLostSiblings | src/Siblings.cpp:179-234 | Registers and greets exactly the siblings with a smaller id that are neither connected, registered nor on the way and can be reached. |
| SiblingsProgram.Siblings.GetLeaderIPAndPort | src/Siblings.cpp:290-297 | The configured address of the leader, or an error without one; an unknown leader id reads as an empty address. |
| SiblingsProgram.Siblings.HaveConnectAllSiblings | src/Siblings.cpp:164-170 | Whether every configured sibling is connected. |
| SiblingsProgram.Siblings.GetSiblingsNeedAppendEntry | src/Siblings.cpp:139-149 | The connected siblings that are not waiting for a reply, in order. |
| SiblingsProgram.Siblings.SatisfyWorkingBaseline | src/Siblings.cpp:151-162 | Whether the connected siblings and the node itself are a majority. |
| SiblingsProgram.Siblings.SetNextIndexBatch | src/Siblings.cpp:269-274 | Every sibling gets the nextIndex, nobody else. |
| SiblingsProgram.Siblings.SetMatchIndexBatch | src/Siblings.cpp:276-280 | Every sibling gets the matchIndex, nobody else. |
| SiblingsProgram.Siblings.SetAlreadyAppendEntryBatch | src/Siblings.cpp:333-337 | Every sibling gets the flag, nobody else. |
| SiblingsProgram.Siblings.MatchTotal | src/Siblings.cpp:366-373 | One more than the number of siblings whose matchIndex reached the index. |
| ParentsProgram.Parents.AddParents | src/Parents.cpp:14-22 | A client is queued once. |
| ParentsProgram.Parents.DeleteParents | src/Parents.cpp:24-33 | The client, and nobody else, leaves the queue. |
| ParentsProgram.Parents.SetDealingIndex | src/Parents.cpp:47-56 | Records who waits for an index; an unknown client is an error. |
| ParentsProgram.Parents.GetParentsByDealingIndex | src/Parents.cpp:58-65 | Who waits for an index, which is thereby forgotten. |
| Wire.HearIsReceive | src/AppendEntryCommand.cpp:138-163 | For every node, sender and message with numbers of the program's types: hearing the arguments that a message is printed with is receiving the message. |
| Wire.MessageArrives | src/AppendEntryCommand.cpp:92-110 | Printed, sent, parsed and heard, a message is received as what it was, and what follows it stays in the buffer. |
| Wire.MessageSplits | src/AppendEntryCommand.cpp:106-108 | A message survives every split into reads if and only if the command in it holds no LF. |
| Wire.CommandsBreak | src/ClusterDefaultCommand.cpp:22-23 | Every append that carries a command in wire format has a split into reads that breaks it. |
| Deliveries.PacketsFit | src/Cluster.cpp:354-359 | In every run with int ids, int-sized commands without CR and fewer than INT_MAX events: every packet has the sizes of the wire, and what it carries can be stored. |
| Deliveries.DeliveryIsHearing | src/ClusterClient.cpp:11-23 | In such a run every delivery of the cluster model is what happens to the bytes: the packet, printed, parsed at a command boundary and heard, makes the step of the event. |
| Decimal.StoiToString | src/ProtocolStream.cpp:109-157 | stoi undoes to_string for every int, whatever follows the number, as long as it is not a digit. |
| ProtocolProgram.ProtocolStream.ResolveReceiveBuf | src/ProtocolStream.cpp:92-192 | One call of the parser, for any buffer and any state it may be in: outcome and every field as the parser function says; the output is untouched. |
| ProtocolProgram.ProtocolStream.ResolveHeader | src/ProtocolStream.cpp:97-120 | The search for the argument count. |
| ProtocolProgram.ProtocolStream.ResolveType | src/ProtocolStream.cpp:122-145 | The search for the command type. |
| ProtocolProgram.ProtocolStream.ResolveArguments | src/ProtocolStream.cpp:147-182 | The argument loop terminates and computes the loop function. |
| ProtocolProgram.ProtocolStream.GetReadyForNextCommand | src/ProtocolStream.cpp:49-57 | Everything of the current command is forgotten, the input is kept. |
| ProtocolProgram.ProtocolStream.InitReplyHead | src/ProtocolStream.cpp:194-201 | Appends the head line. |
| ProtocolProgram.ProtocolStream.AppendCommandType | src/ProtocolStream.cpp:203-210 | Appends the type line. |
| ProtocolProgram.ProtocolStream.AppendReplyBody | src/ProtocolStream.cpp:212-221 | Appends a length line and the argument. |
| RoundTrip.Print | src/ProtocolStream.cpp:194-221 | The three print calls together put out one frame. |
| RoundTrip.PrintThenParse | src/ProtocolStream.cpp:194-221 | For any non-empty list of arguments with int-sized lengths, any bytes in them, and any type byte but LF: parsing the frame yields these arguments and this type, the frame as curCommandBuf, and leaves what follows in inputBuf. |
| Grammar.CompletesExactly | src/ProtocolStream.cpp:97-182 | One call completes a command at a command boundary if and only if the input starts with a sentence of the format: a positive count, the type line where the mode has one, and as many arguments, each with its length line and line end. Numbers may be in any spelling that stoi takes, and lines with the length -1 are passed over. |
| Grammar.SentenceCompletes | src/ProtocolStream.cpp:97-182 | Such a sentence is read as its arguments and its type, consumed whole, and what follows stays. |
| RoundTrip.ResolveConserves | src/ProtocolStream.cpp:97-182 | No call loses, invents or reorders a byte, however it ends. |
| RoundTrip.BytesConserved | src/ProtocolStream.cpp:97-182 | Through any sequence of reads and calls, curCommandBuf followed by inputBuf is what was received since the command boundary. |
| Chunking.ResolveMore | src/ProtocolStream.cpp:92-192 | A call that ends well has decided nothing that later bytes could change, unless it read a type byte NUL and had to wait: calling again with more input is one call on both, in plain, typed and wrap mode. |
| Chunking.SplitsAgree | src/ProtocolStream.cpp:92-192 | For any bytes and any split in which every call ends well, and none reads a type byte NUL and has to wait: the parser is left as by one call on all of them. |
| FrameSplits.ChunkingDoesNotMatter | src/ProtocolStream.cpp:92-192 | A frame whose arguments hold no LF, and whatever follows it, may arrive in any pieces with a call after each: no call fails, and the state is that of one call. |
| FrameSplits.PiecesComplete | src/ProtocolStream.cpp:92-192 | Once all bytes are in, the command is complete with its arguments and the rest of the input, whatever the pieces were. |
| FrameSplits.SplitProofExactly | src/ProtocolStream.cpp:122-182 | All splits of a frame are harmless if and only if its type byte is not NUL and no argument holds an LF. |
| FrameSplits.BadSplit | src/ProtocolStream.cpp:163-169 | Any frame with an LF in an argument has a split that ends in an error although one call would have read it. |
| FrameSplits.NulSplit | src/ProtocolStream.cpp:122-145 | Any frame with the type byte NUL has a split that ends in an error although one call would have read it. |
| Reparse.CommandReparses | src/ProtocolStream.cpp:97-192 | The curCommandBuf of a completed command, given to a fresh parser of the same mode, completes with the same arguments and nothing left over. |
| Reparse.PiecesReparse | src/ProtocolStream.cpp:97-192 | The same for a command that arrived in pieces, if no call before the last read a type byte NUL and had to wait. |
| NulTypes.PiecesReparseExactly | src/ProtocolStream.cpp:97-192 | For every type byte that condition is necessary too: the bytes of a command that arrived in pieces parse again to the same state if and only if no such call happened. The mode with both types and a wrapped command, which the program never builds, is left out for the type byte NUL. |
| NulTypes.WrappedReparses | src/ClusterClient.h:11 | Why that mode is left out: in it a command whose type byte NUL was read twice parses again to the same state. |
| Reparse.NulTypeBreaks | src/ProtocolStream.cpp:122-145 | With the type byte NUL the split decides how a command is read, and its bytes do not parse again. |
| ClientDrain.PipelineDrained | src/EventPoll.cpp:202-222 | A pass over a client at a command boundary whose buffer holds any concatenation of whole frames executes exactly these commands in order and goes on with what follows them. |
| ClientDrain.DrainedUnderway | src/EventPoll.cpp:202-222 | A client that a pass leaves idle is fit for the next pass. |
| ClientDrain.IncompleteRunsDry | src/EventPoll.cpp:211-221 | Resolving without completing a command leaves no LF in the buffer. |
| ClientDrain.CompleteShrinks | src/EventPoll.cpp:202-222 | Completing a command consumes input: the measure of the loop. |
| Pipelines.DrainedMore | src/EventPoll.cpp:202-222 | A pass over what has come, then a pass over what comes next, is one pass over both. |
| Pipelines.ReadsDoNotMatter | src/EventPoll.cpp:202-222 | For frames with one-line arguments the client ends in the same state however the bytes are cut into reads. |
| Pipelines.StreamServed | src/EventPoll.cpp:202-222 | However a stream of such commands is cut into reads, with a pass after each, exactly these commands are executed, in order, each once. |
| EventPollProgram.EventPoll.ProcessReadEvents | src/EventPoll.cpp:202-222 | The loop over all clients terminates on any input; turns alternate, but each client ends where a pass over it alone would end; the process survives exactly if no client crashes it; and every client still open is fit for the next pass. |
| EventPollProgram.EventPoll.Turn | src/EventPoll.cpp:205-221 | One turn of a client, with the closing of failing clients. |
| EventPollProgram.ClusterClient.ExecuteCommand | src/ClusterClient.cpp:11-23 | For any command, whose success is a parameter: only one that succeeds makes the parser ready for the next. What the commands do is `ClusterProgram.Cluster.ExecuteCommand`. |
| Records.DecodeEncode | src/Entry.cpp:23-54 | Scanning the bytes of written entries gives these entries if and only if every index and term fits an int and no content holds the delimiter. |
| Records.FileRefinesList | src/PersistenceFile.cpp:13-111 | After any history of storable appends, deletions from an index and deletions of everything, the file is the encoding of the list that the same operations leave. |
| Records.FindAgrees | src/PersistenceFile.cpp:23-32 | Finding by index on the file finds the first such entry of the list, or nothing exactly if there is none. |
| Records.FindLastAgrees | src/PersistenceFile.cpp:34-48 | Finding the last entry agrees with the list, error on the empty file included. |
| Records.DeleteAgrees | src/PersistenceFile.cpp:56-93 | Deleting from an index on the file agrees with the list, and fails exactly when that does. |
| Records.ReadEncoded | src/Entry.cpp:23-46 | What reading gives back of any entry whatever: content up to its first delimiter, and the numbers stoi takes. |
| Records.EncodingIsInjective | src/Entry.cpp:48-54 | Different storable lists have different bytes. |
| PersistenceProgram.PersistenceFile.AppendToPF | src/PersistenceFile.cpp:13-21 | The file grows by the entry's encoding; an open reader sees it behind what it has not read. |
| PersistenceProgram.PersistenceFile.FindEntry | src/PersistenceFile.cpp:23-32 | The loop, on any bytes: outcome and caller's entry; on a file that holds a list, the list's first entry with the index. |
| PersistenceProgram.PersistenceFile.FindLastEntry | src/PersistenceFile.cpp:34-48 | The loop, on any bytes; on a file that holds a list, its last entry. |
| PersistenceProgram.PersistenceFile.DeleteEntryAfter | src/PersistenceFile.cpp:56-93 | The copy through the temporary file, on any bytes; an error leaves the file alone; on a file that holds a list, the list's deletion. |
| PersistenceProgram.PersistenceFile.DeleteAllEntry | src/PersistenceFile.cpp:95-102 | The file holds the empty list, and the reader starts at it. |
| PersistenceProgram.PersistenceFile.GetNextPFEntry | src/PersistenceFile.cpp:104-111 | One read, on any bytes: torn records, numbers stoi rejects and the fields set before an exception included. |
| PersistenceProgram.PersistenceFile.GetLine | src/Entry.cpp:27-36 | getline up to the delimiter, with the state of the stream at the end of the file. |
| PersistenceProgram.PersistenceFile.ResetFileStream | src/PersistenceFile.cpp:113-131 | The reader is back at the start of the file and good. |
| Recovery.RecoveryRebuilds | src/Server.cpp:92-120 | The replay reports success with the live database if and only if no set or del with a wrong number of arguments was ever executed; in particular after any commands with correct arguments and no CR byte. |
| Recovery.ReplayIsExact | src/Server.cpp:92-120 | What the replay brings back of any history: the database before the first recorded command with a wrong number of arguments. |
| Recovery.PoisonLosesData | src/ServerClient.cpp:23-36 | A set without a value is recorded before it fails; the next restart stops at it and loses a later set. |
| Recovery.FileHoldsEntries | src/ServerClient.cpp:23-29 | The file is the encoding of exactly the set and del commands executed, in order. |
| Recovery.CompleteHasName | src/Server.cpp:110-111 | A completed command has a name. |
| ServerProgram.Server.ImportPF | src/Server.cpp:92-120 | The replay loop terminates on any file and computes the replay function; the file is unchanged. |
| ServerProgram.Server.ImportOne | src/Server.cpp:101-116 | One entry of the replay, with the reset of the client behind it. |
| ServerProgram.ServerClient.ExecuteCommand | src/ServerClient.cpp:16-37 | Records a command that changes the database before running it, whether or not it will succeed; database, reply and result are those of the command. |
| ServerProgram.ServerClient.SetCommand | src/SetCommand.cpp:15-62 | Overwrites a value or inserts a key; a wrong number of arguments is an error with a reply and changes nothing. |
| ServerProgram.ServerClient.DelCommand | src/DelCommand.cpp:14-47 | Removes a key; a missing key is answered and no error; a wrong number of arguments is an error without reply. |
| ServerProgram.ServerClient.GetCommand | src/GetCommand.cpp:15-53 | Answers the value, changing nothing. |
| ServerProgram.ServerClient.Reply | src/Client.cpp:68-98 | A reply of one part without a type line, as all server commands send it; none for the replay's own client. |
| Recovery.GetAnswersLastWrite | src/GetCommand.cpp:15-53 | After any commands, get answers the value of the last set of the key that no later del removed, and changes nothing. |
| ServerProgram.DataBase.InsertKey | src/DataBase.cpp:38-45 | Inserts a new key; a key that is there is an error and keeps its value. |
| ServerProgram.DataBase.DeleteKey | src/DataBase.cpp:29-36 | Removes a key that is there; a missing key is an error. |
| Ring.RemovalMovesOnlyItsOwn | src/Children.cpp:207-217 | Taking a spot off the ring changes the owner only of hash values it owned, wrap-around included. |
| Ring.AdditionMovesOnlyOntoIt | src/Children.cpp:207-217 | Putting a spot on the ring moves hash values only onto it, wrap-around included. |
| Ring.OwnerIsNext | src/Children.cpp:207-217 | The loop's answer is the server at the least point at or behind the hash value, or at the least point of all. |
| ChildServers.RingIsConnectedExactly | src/Children.cpp:41-88 | Through all connections and losses the ring's servers are exactly the connected ones, each at its own point, if and only if there are at most 977 servers. |
| ChildServers.PointsDistinct | src/Children.cpp:53-55 | Ring points of different servers differ if and only if there are at most 977 servers. |
| ChildServers.DeleteMovesOnlyItsKeys | src/Children.cpp:61-88 | Losing a server moves only the keys it owned. |
| ChildServers.AddMovesKeysOnlyOntoIt | src/Children.cpp:41-59 | Connecting a server moves keys only onto it. |
| ChildServers.ReconnectExactly | src/Children.cpp:98-136 | A reconnect opens the missing connections in order up to the first server that cannot be reached, and leaves all others as they are. |
| ChildServers.ReconnectKeepsConsistent | src/Children.cpp:98-136 | It keeps ring and connected servers in agreement, for at most 977 servers. |
| Routing.KeyDecides | src/Children.cpp:182-227 | The connection that a printed command goes to is that of the server at the least ring point at or behind the hash of its first argument (of its name without arguments), or at the least point of all. |
| Routing.OneKeyOneServer | src/Children.cpp:190-200 | Commands with the same key go to the same server, whatever else they say. |
| Routing.FlushedToKey | src/Children.cpp:157-177 | A flush sends the next committed entry, and nothing else, to that connection. |
| Routing.RingIsTransparent | src/Children.cpp:190-217 | For any ring and hash: a command is answered by its server, which has executed only its share of the commands before, as by one database that has executed them all. |
| Flush.AppliedWithoutGaps | src/Children.cpp:138-180 | If at every call commitIndex lies between lastApplied and the end of a log of complete frames and the ring is not empty: the indexes sent are 1, 2, ..., lastApplied, each once and in order, with the contents the log holds there. |
| Flush.GapFreeExactly | src/Children.cpp:157-173 | While the process lives, the indexes sent are 1, 2, ..., lastApplied if and only if no call that had something to flush found its entry missing or no server for its key. |
| Flush.NeverTwice | src/Children.cpp:157-159 | Whatever the calls find, no index is sent twice or out of order. |
| Flush.FrameHasServer | src/Children.cpp:182-227 | For a complete frame and a ring of connected servers a server is found, and the process does not end. |
| ChildrenProgram.Children.RecognizeChildren | src/Children.cpp:8-39 | From the configuration: registers the servers 1 to total with their addresses, none of them connected; an unreadable number is an error. |
| ChildrenProgram.Children.SatisfyWorkingBaseline | src/Children.cpp:90-96 | Whether every configured server is connected. |
| ChildrenProgram.Children.ConnectLostChildren | src/Children.cpp:98-136 | Connects the missing servers in order, up to the first failure. |
| ChildrenProgram.Children.AddChildren | src/Children.cpp:41-59 | Success exactly for a known server without connection, with the whole new tables and ring. |
| ChildrenProgram.Children.DeleteChildren | src/Children.cpp:61-88 | Clears the first server with the connection and takes its spot off the ring. |
| ChildrenProgram.Children.GetChildrenId | src/Children.cpp:240-247 | The first server with the connection. |
| ChildrenProgram.Children.GetRespondServer | src/Children.cpp:182-227 | The server for a command's key, for any hash function; every failing path included. |
| ChildrenProgram.Children.FindServer | src/Children.cpp:207-217 | The loop over the ring finds the owner of the hash value. |
| ChildrenProgram.Children.FlushServer | src/Children.cpp:138-180 | One flush: result, lastApplied and the send buffer of the chosen server. |

## Left out

- Crash and restart of cluster nodes: term and vote are not persisted and start-up calls `toFollow(1)` (`src/Cluster.cpp:94`), so every cluster theorem is about runs without restarts.
- Leader Completeness and State Machine Safety are not claimed: a new leader sets commitIndex to its last index (`src/Cluster.cpp:312`), committing has no current-term test (`src/Siblings.cpp:360-383`), and a follower with a higher term follows an older leader's append (`src/AppendEntryCommand.cpp:173-180`). These steps are in the model; `FlushExit.FlushEndsNode` is a run in which they lose a flushed command.
- Unconditional Election Safety: false of the code, by `TwoLeaders.ElectionSafetyFails`; proved with attribution instead.
- Liveness of elections and of the cluster as a whole.
- Sockets, epoll, listening, logging, the length of a candidate's sleep, shell script and command-line client. The clock, which connections can be opened, and losses are inputs.
- The lines of the configuration file: a configuration is any function from keys to texts. `ipPortClusterIdMap`, whose only reader (`src/Siblings.cpp:64-74`) has no caller.
- Sessions: a packet may be delivered after its connection is gone, which allows more runs than the code has.
- Integer width in the runs of the cluster model: indexes and terms are unbounded there; `Deliveries.PacketsFit` says up to which length of a run that is no difference.
- Bytes are `char`s; nothing depends on an encoding.
- A read past the arguments of a vote reply, which C++ leaves undefined, is taken for the end of the process.
- `lastApplied` is a field of `Children` in the program, and of `Applied` in the runs; the exit of a flush for want of a usable server is in `Flush.Exits` and not in `Applied`.
- ClusterProgram.Cluster.AppendEntryReceive: promises the log and the reply only if the entry can be stored; `DiskLogs.StepsFit` says where that is so.
- The division by an own id of 0 before a candidate's sleep (`src/Cluster.cpp:274`) ends the process in `ClusterProgram.Cluster.Cron`; in the runs of the cluster model all ids of a range from 1 up are non-zero, and `ClusterNode.Tick` does not have it.
- ClusterProgram.Cluster.FlushReplyReceive: does not say that the client is the one whose command was flushed, because lastApplied may have moved on by then (`src/FlushServerCommand.cpp:70`).
- `sendReply`, which clears a partly parsed command (`src/Client.cpp:145`), the switch between read and write events, and pipelining on server clients, which do not reset per command (`src/ServerClient.cpp:31-36`).
- EventPollProgram.ClusterClient.ExecuteCommand: whether a command succeeds is a parameter of the drain loop; it sees the command, not the state of the node.
- Torn writes and I/O failures of the persistence file: opening, renaming and writing succeed. Reading is modelled on any bytes, torn ones included.
- Memory management: a deleted client is marked closed, not freed.
- `std::hash` is a parameter; only its remainder by 977 is used.
- Value types other than strings: the code has no command that creates one.
- LogMatching.LogMatching: supposes one leader per term; without it the property is false, by `TwoLeaders.LogMatchingFails`.
- Commit.CommitIsBacked: supposes one leader per term and no stray replies, for the reasons above.
- NulTypes.PiecesReparseExactly: for the type byte NUL it leaves out the mode with types and a wrapped command, where it is false by `NulTypes.WrappedReparses`; the program only wraps in the mode without types (`src/ClusterClient.h:11`).
- ServerProgram.ServerClient.Reply: the type line, which no command of the server sends (`src/Client.cpp:80-88`), and the switch to the write event (`src/Client.cpp:62-66`).
- ChildServers.AddMovesKeysOnlyOntoIt: supposes at most 977 servers, since with more the new server takes the place of another on the ring.
- Routing.RingIsTransparent: is about one ring; when a server is lost its keys move, and what they held comes back only by the flush of the whole log that the reset of lastApplied starts (`src/Cluster.cpp:194-201`).
