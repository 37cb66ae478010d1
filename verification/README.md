# simta in Dafny

A model of the mail transfer agent simta, and proofs about it. simta keeps its mail in a spool of E, D and t files,
expands recipients through groups, and delivers from one queue per host. The C code works by changing shared objects
step by step. The model does the same: heap nodes, linked lists, buffers and a file system that are updated in place.
Each of these operations is proved against a specification, and what the code is for is proved about the
specification.

## Parts

| part | modules |
|---|---|
| recipient expansion and members-only groups | `CachedSearch`, `MembersOnly`, `CyclicGroups`, `ExpAddrNode`, `GroupSearch`, `AddressWorklist`, `Expansion`, `ExpandOutput`, `LetterCase` |
| spool, commit of an expansion, crash recovery | `Spool`, `SpoolOps`, `ExpandCommit`, `DirStartup`, `ExpansionCleanup`, `MoveToSlow`, `StartUp` |
| delivery of a message, accounting of its recipients | `Dialogue`, `Recipients`, `Delivery`, `Accounting`, `HostSearch` |
| queues, runs over all queues, launch list | `HostQueues`, `SpoolCount`, `QueueRun`, `Backoff`, `LaunchQueue`, `Lists`, `Options` |
| lines, SMTP text, Efiles | `LineSplit`, `LineReader`, `Relay`, `Efile`, `EfileIO` |
| DNS | `DnsName`, `MxOrder` |

## Main results

* Group expansion. The worklist ends with the least set of addresses that holds the recipients and is closed under
  expansion. An address is released only along a chain of groups from a recipient in which no group still is
  members-only. On any graph the members-only loop completes, so that the assertion at expand.c:794 holds, if and only
  if no group is asked about while the cache is misleading for it: every walk down to a cached positive meets a cached
  negative, and one of these has a direct link to a cached positive. When it completes, a group stays members-only if
  and only if no parent is permitted and the sender is not below it. The output loop releases every plain address with
  such a chain under the same condition on its own cache, and only then. On acyclic graphs both conditions hold. With
  cycles neither need hold; `CyclicGroups` has the graphs. Every released address becomes a recipient of exactly one
  new message, the one for its host and sender, unless its host is empty and a dead message for its sender exists
  already.
* Spool. Whatever system call a crash interrupts while an expansion is committed, the next start leaves exactly the
  parent or exactly all children; starting again changes nothing. The two assertions of the sweep fail only for
  messages that share an inode without being one message and its children. The whole of `q_cleanup` leaves every
  message complete in the slow directory, once. A move between two directories that a crash cuts off changes nothing
  of that if and only if the spool in front of it is `Steady`: with unique ids, and after every move still one family
  for each inode, this means that the message has neither a parent nor a child in the fast directory. When one of two
  relatives leaves the other there, the next start keeps both; when one joins the other, it removes the child
  (`StartUp.ParentMatters`, `StartUp.ChildMatters`).
* Delivery. What was said to a host or a mailer is kept as a transcript, and what it means for a recipient is a function
  of the transcript. Whatever the replies are and whatever call fails, every recipient was accepted in an acknowledged
  transaction, is named in a bounce, or is still to be tried, with two exceptions, both exact. In a queue that punts:
  the Efile cannot be rewritten, and a refused recipient is named neither in a bounce nor in the list in memory; the
  punt host is then given a list from which that recipient is already gone (`Accounting.FailedRewriteLoses`). In the
  punt queue: the punt host refuses the only recipient for good; the statuses have been cleared when the counters call
  the message settled, so it is deleted, and the bounce does not name that recipient (`Accounting.PuntHostRefuses`).
  Commands keep the order that SMTP asks for. The status of a host moves as the queue runner expects, and the panics of
  the status switches cannot be reached. The attempts come to an end, except that with aggressive delivery a punt host
  is retried for as long as it moves mail and fails.
* A run over all queues leaves every queue empty, for the slow and for the local directory, and loses no message: each
  one that the process has found with its Efile, or has created and not taken back, ends settled, expanded, left alone
  because it cannot be read, or, if no system call failed, complete in the slow directory. It is settled only if the
  attempt for it came to that. A message waits in no queue but that of its own host, whatever the letter case, or that
  of the punt host. The counter of fast files always equals the number of Efiles in the fast directory, and it is zero
  at the end if no system call failed. Whatever call of a run a crash interrupts, the next start finds a spool that it
  can put in order (`StartUp.RestartAfterRun`).
* Launches. The doubly linked list stays sorted, the server launches an earliest queue, and the wait between two
  launches is `2^k * min_wait`, up to the maximum. A pending launch stays pending, and only comes forward, if and only
  if every push asks for a time after the last launch. A promotion in the second of the last launch does not: when the
  runner of that launch reports activity, the launch planned for 160 is put off to 209 (`Backoff.PromotedThenPutOff`).
* Lines. The line reader returns the lines of the byte stream, however reads split it. Text sent with dot-stuffing is
  received unchanged, and an Efile that is written is read back.
* DNS. Encoding and decoding a name are inverse exactly if no label is empty. A compressed name is read as its labels and
  those at the place that the two octets of its pointer spell. Decoding any response ends if and only if it does not come
  to a pointer again without a label in between; a circle with a label ends because the name gets too long. Every MX or A
  record in front of the cutoff that gives an address is tried. No address at or above the preference of this host is
  tried if every MX record in front of the cutoff is below it, as is the case with one owner; where one is not, it is
  tried too, and the sort lets this happen with two owners (`MxOrder.SeveralOwnersTried`).

## How the model is built

* System calls, SMTP replies, mailer exit codes, DNS answers and the clock are nondeterministic: each `*` or `:|` in a
  method stands for one of them.
* `Disk.faults` counts the calls that fail although their arguments are right. `Faulty(n, p)` says that `p` holds unless
  some call has failed since there were `n` failures. `Disk.trace` records the spool after every call that changed it, so
  a statement about all recorded states is a statement about every crash point.
* A directory lookup (LDAP, alias file, passwd) is one function from an address to its members and flags.
* Group expansion runs over a graph of nodes. `Search` is the cached depth-first search as a function on values; the heap
  methods of `GroupSearch` are proved equal to it, and plain reachability (`Reach`) is the independent definition.

Run `dafny verify dfyconfig.toml` to check everything.

## Model

| member | source | states |
|---|---|---|
| CachedSearch.SearchFacts | expand.c:815-880 | a search only adds bits, only to nodes it met, and never gives one node both bits |
| CachedSearch.FoundHasWalk | expand.c:815-880 | any graph and any cache: a positive answer comes from a walk to a positive bit that avoids all negative bits |
| CachedSearch.NotFoundIsClosed | expand.c:815-880 | after a negative answer the nodes met form a closed region without a usable positive bit |
| CachedSearch.QueryExact | expand.c:815-880 | one query with a fresh colour answers reachability in the graph without the negative nodes, in both directions |
| CachedSearch.NewPositiveReaches | expand.c:815-880 | a positive bit that a search adds has a walk to an earlier positive bit behind it |
| CachedSearch.PositiveBitsStaySound | expand.c:815-880 | any graph: every cached positive, and every positive answer, has a real path behind it |
| CachedSearch.BitsCover | expand.c:815-880 | any graph: after a query every link of a negative node leads to a node with a bit or to a blocked one |
| CachedSearch.NoAnswerOpensNothing | expand.c:815-880 | any graph: a query answered no adds no link from a negative node to a positive one |
| CachedSearch.RightIffNoOpenLink | expand.c:815-880 | any graph: the negative bits are right if and only if none has a direct link to a positive node |
| CachedSearch.AnswerRightIff | expand.c:815-880 | any graph: an answer is right if and only if the bits in front of it are not misleading for the list |
| CachedSearch.ExactIffNoOpenLink | expand.c:815-880 | any graph: all single queries from these bits are right if and only if there is no such link |
| CachedSearch.QueriesExactIffClear | expand.c:815-880 | any graph: all answers of a sequence of queries that share their bits are right if and only if no query is misled by the bits in front of it |
| CachedSearch.SoundCacheAnswers | expand.c:815-880 | with right bits a query equals plain reachability, on any graph |
| CachedSearch.FinishedAreRight | expand.c:815-880 | acyclic graphs: the nodes a search has finished, and all negative bits, are right while ancestors are still open |
| CachedSearch.AcyclicQueriesExact | expand.c:815-880 | acyclic graphs: every answer in a sequence of queries that share their bits equals plain reachability |
| CachedSearch.FirstQueryExact | expand.c:815-880 | any graph: the first query is plain reachability |
| CyclicGroups.CyclicSecondQueryWrong | expand.c:815-845 | two groups that contain each other: the second query denies a path that exists |
| CyclicGroups.CyclicModerateAborts | expand.c:788-812 | with such a cycle the assertion at line 794 fails |
| CyclicGroups.OpenLinkNotAsked | expand.c:218-250 | on the first graph with one group a yes opens such a link, and the loop is still exact: only a later no above it matters |
| CyclicGroups.ModerationRefuses1 | expand.c:218-250 | the members-only loop refuses group 1 of the second graph and suppresses what is below it |
| CyclicGroups.CyclicReleaseWithholds | expand.c:218-434 | from the marks that the members-only loop leaves on this graph, an address is withheld although it has a chain without a refused group |
| MembersOnly.SuppressTakesMembers | expand.c:788-812 | whatever becomes suppressed takes all its members with it and is no sender |
| MembersOnly.SuppressStaysBelow | expand.c:788-812 | whatever becomes suppressed, or makes the assertion fail, lies below the refused group |
| MembersOnly.SuppressExact | expand.c:788-812 | exactly the addresses below the group are added; the assertion fails exactly if a sender is among them |
| MembersOnly.RefusedGroupsAreSealed | expand.c:218-250 | any graph: a group keeps the members-only mark iff it becomes a suppressor, and then all its members are suppressed |
| MembersOnly.ModerateOneExact | expand.c:222-249 | any graph, one group: the process stops if and only if the group is not permitted and the bits are misleading for it; otherwise it keeps the mark iff no parent is permitted and no sender is below it |
| MembersOnly.ModerateExact | expand.c:218-250 | any graph: the loop completes if and only if it is clear, and if it completes it is exact |
| MembersOnly.AcyclicModerationIsClear | expand.c:218-250 | acyclic graphs: it is clear |
| MembersOnly.RefusalPolicy | expand.c:218-250 | the same from the initial marks of an expansion |
| MembersOnly.AcyclicUpwards | address.c:319-336 | the parent links of an acyclic member graph are acyclic |
| MembersOnly.UnsuppressedHasChain | expand.c:390-434 | an address that is not suppressed has a chain to a recipient without refused groups |
| MembersOnly.ReleasedHasChain | expand.c:256-434 | any graph: what is released has such a chain |
| MembersOnly.ReleaseExactIffClear | expand.c:256-434 | any graph: exactly the plain addresses with such a chain are released if and only if the output loop is clear |
| MembersOnly.AcyclicReleaseIsClear | expand.c:256-434 | acyclic graphs: it is clear |
| MembersOnly.ReleasePolicy | expand.c:218-434 | the release policy of one expansion: sound on any graph, exact if and only if the output loop is clear |
| ExpAddrNode.ExpAddr.constructor | address.c:211-300 | a new address carries no mark, link, colour or cached bit |
| GroupSearch.SenderIsChild | expand.c:815-845 | the search on heap nodes gives the answer and leaves the bits of `Search`; it ends on any graph |
| GroupSearch.UnblockedPathToRoot | expand.c:848-880 | the same for the search upwards past refused groups |
| GroupSearch.SupressAddrs | expand.c:788-812 | the suppression on heap nodes gives the marks of `Suppress`, and fails where it fails |
| GroupSearch.ParentPermitted | expand.c:932-952 | true iff some group that contains this one is on its list of permitted groups |
| GroupSearch.ModerateGroup | expand.c:222-249 | one group: the marks of `ModerateOne` |
| GroupSearch.ModerateGroups | expand.c:218-250 | the loop: the marks of `Moderate`, with fresh colours throughout |
| GroupSearch.ReleaseAddress | expand.c:257-434 | one address of the output loop: the answer and the bits of `ReleaseOne` |
| GroupSearch.ReleaseLoop | expand.c:256-499 | the output loop releases what `Release` releases, in order |
| GroupSearch.PoliciesHold | expand.c:218-499 | the refusal and release policies, read off the marks that the two loops leave, on any graph |
| GroupSearch.ReleaseAddresses | expand.c:218-499 | both loops on the heap: what is released, and which groups stay members-only, in terms of paths |
| LetterCase.FoldIgnoresCase | address.c:203-207 | two strings are the same for strcasecmp if and only if they differ in letter case only |
| AddressWorklist.Expand.Lookup | address.c:203-207 | finds an address up to letter case, or says that none is listed |
| AddressWorklist.Expand.Insert | address.c:301-316 | a new address goes to the tail, right behind the cursor, or to the head |
| AddressWorklist.Expand.FindOrInsert | address.c:203-317 | each address is listed once; nothing is inserted up to the cursor |
| AddressWorklist.Expand.AddAddress | address.c:191-345 | the links stay mutually inverse; only the address under the cursor gets a child; a recipient gets the root as parent |
| AddressWorklist.LinkBoth | address.c:319-336 | one new link in both directions keeps every other link, and every node anchored in an earlier one |
| AddressWorklist.ExpAddrLink | address.c:756-779 | a link is added once |
| AddressWorklist.Expand.SetFlags | simta_ldap.c:1143-1470 | the marks of an address are those the directory gives, a person whose mail attribute is the sender's gets the sender mark, and a members-only group is queued |
| AddressWorklist.Expand.ExpandCursor | expand.c:200-215 | the address under the cursor is settled, and all others keep their state |
| AddressWorklist.Expand.AddRecipient | expand.c:187-194 | an original recipient is listed below the root |
| AddressWorklist.Expand.ExpandNext | expand.c:196-216 | one round: the visited part of the list is settled, the rest is pending |
| AddressWorklist.Expand.ExpandLoop | expand.c:196-216 | the loop ends within a finite universe and visits every address exactly once, in list order |
| AddressWorklist.Expand.ExpandAll | expand.c:187-216 | recipients and loop together: all addresses are settled and the roots are the recipients |
| AddressWorklist.ListBounded | expand.c:196-216 | a list without repetitions is no longer than the universe: the loop's measure |
| Expansion.ListIsClosed | expand.c:196-216 | everything that a listed address expands to is listed |
| Expansion.ListIsLeast | expand.c:187-216 | any set that holds the recipients and is closed under expansion holds the list |
| Expansion.GraphsOfLinkage | address.c:319-336 | child and parent links are two inverse graphs |
| Expansion.AnchorsLeadToRoot | address.c:319-336 | every address has a chain to an original recipient |
| Expansion.BuildWorklist | expand.c:187-216 | the finished list meets what the members-only loop needs; the senders are the addresses and the persons that match |
| Expansion.ExpandEnvelope | expand.c:187-499 | from recipients to released addresses: the release and refusal policies for every directory |
| ExpandOutput.EoLookup | expand.c:53-68 | the newest message for this host and sender, up to letter case |
| ExpandOutput.FoundIsRight | expand.c:436-460 | the message that is found is that of the address's host and sender, unless the address is astray |
| ExpandOutput.NewMessage | expand.c:457-487 | a new message keeps the others apart, and the newest message for the dead one's key is the dead one |
| ExpandOutput.FindOrCreate | expand.c:436-487 | every address gets the message it belongs to; one that is astray gets the dead one |
| ExpandOutput.HostIsBehindTheSign | expand.c:441-446 | the host of an address is what follows its first at sign |
| ExpandOutput.Distribute | expand.c:436-495 | all addresses: each in one message, two messages with different keys, none without recipients; it fails only if a call does or an address has no at sign |
| ExpandOutput.InOneMessage | expand.c:436-495 | an address is a recipient of its message and of no other |
| ExpandOutput.EmptyHostGoesAstray | expand.c:71-92 | an address with an empty host joins the dead message of its sender, because eo_insert gives that one the empty host |
| Spool.NoChains | q_cleanup.c:381-421 | an unexpanded message is not itself the child of an interrupted expansion |
| Spool.InodeKeepsMessage | q_cleanup.c:345-460 | recovery keeps a message of every inode that had one, and this one if its expansion was not interrupted |
| Spool.RecoverTwice | q_cleanup.c:167-460 | recovering again changes nothing |
| Spool.RecoveryIsRestartable | q_cleanup.c:167-460 | wherever recovery is cut off, running it again gives the same spool |
| Spool.InFlightFamilies | expand.c:501-553 | before the commit point the sweep's assumption about inodes holds |
| Spool.InFlightRecovers | expand.c:501-553 | before the commit point recovery leaves exactly the parent |
| Spool.CommittedRecovers | expand.c:665-683 | after the commit point recovery leaves exactly the children |
| Spool.ReplacedIsClean | expand.c:665-683 | a finished expansion leaves nothing for recovery to do |
| SpoolOps.Disk.EnvTfile | envelope.c:510-642 | the tfile appears or nothing changes; every recorded state is one of the two |
| SpoolOps.Disk.EnvEfile | envelope.c:695-722 | the tfile becomes the Efile; the counter goes up for a fast one; a failure leaves neither |
| SpoolOps.Disk.EnvOutfile | envelope.c:454-468 | both steps; the Efile is never partly written |
| SpoolOps.Disk.WriteNew | expand.c:506-544 | a new message on a linked Dfile: written completely, or a single failure leaves nothing; every recorded state is one of the steps |
| SpoolOps.Disk.Rewrite | queue.c:1344-1362 | replacing an Efile leaves the counter of fast files right |
| SpoolOps.Disk.EnvUnlink | envelope.c:1218-1243 | the Efile goes before the Dfile; the counter follows |
| SpoolOps.Disk.LinkPair | envelope.c:1265-1284 | both files are linked, or at most a Dfile is left over |
| SpoolOps.Disk.UnlinkPair | envelope.c:1286-1300 | the links are taken back; the old files stay |
| SpoolOps.Disk.EnvMove | envelope.c:1246-1310 | a move succeeds or leaves the message where it was, and passes only through the states of `MoveState` |
| SpoolOps.MovingStaysComplete | envelope.c:1246-1310 | in each of these states the message is complete in one directory, and no Efile lacks its Dfile |
| ExpandCommit.WriteChild | expand.c:506-544 | a child is written completely, or a single failure leaves nothing of it |
| ExpandCommit.WriteChildren | expand.c:500-549 | all children up to the first failure, through states before the commit point only |
| ExpandCommit.Unwind | expand.c:697-714 | the children written so far are taken back |
| ExpandCommit.CommitPoint | expand.c:679-683 | removing the parent's Efile is the commit point |
| ExpandCommit.RemoveParent | expand.c:679-683 | the parent goes, Efile first; a failure leaves a spool that recovery completes |
| ExpandCommit.CommitExpansion | expand.c:501-553 | every recorded state is before or after the commit point; a single failure is undone completely; without one the parent is replaced by all children |
| ExpandCommit.CrashRecovery | expand.c:501-728 | recovery of any such state gives exactly the parent or exactly all children |
| DirStartup.StrCmpOrders | q_cleanup.c:226-243 | strcmp is zero for equal ids only, and antisymmetric |
| DirStartup.StrCmpTransitive | q_cleanup.c:226-243 | strcmp is transitive |
| DirStartup.FirstDifference | q_cleanup.c:226-243 | the first character that differs decides, and a prefix comes first |
| DirStartup.FindOrInsert | q_cleanup.c:226-243 | the list stays sorted and has one entry per id |
| DirStartup.NoteEntry | q_cleanup.c:226-249 | the flags of the list say which files have been seen |
| DirStartup.ReadEntries | q_cleanup.c:199-270 | in any order of entries: the list mirrors the directory, and the tfiles are collected |
| DirStartup.DropIncomplete | q_cleanup.c:285-323 | only complete messages stay; stray Dfiles are collected; an Efile without Dfile is an error |
| DirStartup.UnlinkAll | q_cleanup.c:325-339 | exactly these files are removed |
| DirStartup.ScanDir | q_cleanup.c:199-323 | the directory is refused iff it is bad; otherwise messages and strays are found exactly |
| DirStartup.QDirStartup | q_cleanup.c:167-342 | a directory that is not bad is tidied and its messages listed in order; a bad one is left alone |
| ExpansionCleanup.Classify | q_cleanup.c:381-421 | a message joins the record of its inode, and the assertions fail only if the inode's messages are not a family |
| ExpansionCleanup.Record | q_cleanup.c:374-440 | the table of inodes stays sorted and describes all messages read so far |
| ExpansionCleanup.ReadMessage | q_cleanup.c:358-372 | a Dfile with one link belongs to no interrupted expansion |
| ExpansionCleanup.SortedOut | q_cleanup.c:357-441 | if the sweep completes, the messages of every inode are a family |
| ExpansionCleanup.DoomedIsInterrupted | q_cleanup.c:381-421 | only children of an unexpanded message are marked |
| ExpansionCleanup.InterruptedIsDoomed | q_cleanup.c:381-421 | all of them are marked |
| ExpansionCleanup.MarkInterrupted | q_cleanup.c:357-441 | for any order of messages exactly the interrupted children are marked; unless a call fails, the run aborts iff some inode has no family |
| ExpansionCleanup.UnlinkMarked | q_cleanup.c:443-457 | exactly the marked messages are removed, the others stay listed |
| ExpansionCleanup.QExpansionCleanup | q_cleanup.c:345-460 | the sweep turns a tidy spool into the recovered one |
| ExpansionCleanup.RecoverFast | q_cleanup.c:80-87 | start-up and sweep together give `Recover`, and a crash at any call can be recovered again |
| ExpansionCleanup.RestartAfterCrash | q_cleanup.c:345-460 | a crash anywhere in an expansion's commit and a restart: exactly the parent or exactly all children, and the assertions hold |
| MoveToSlow.MovingIsSafe | q_cleanup.c:110-164 | moving one message keeps every message complete in one of the two directories |
| MoveToSlow.CollisionIsSafe | q_cleanup.c:110-164 | dropping a duplicate keeps the slow message |
| MoveToSlow.PlaceNext | q_cleanup.c:120-158 | the next message is placed in order, or found to collide |
| MoveToSlow.MovedIsInSlow | q_cleanup.c:110-164 | after a move the messages merged so far are in slow besides those that were there, and no third directory has changed |
| MoveToSlow.CollisionIsInSlow | q_cleanup.c:110-164 | the same in every state of dropping a duplicate |
| MoveToSlow.QMoveToSlow | q_cleanup.c:110-164 | the sorted union, on the list and on the disk, with each collision kept once; the duplicates are removed or counted; safe at every call |
| StartUp.EachMessageOnce | q_cleanup.c:66-106 | what `QCleanup` leaves: a message is complete in slow iff it was complete somewhere and its expansion was not interrupted, and nowhere else |
| StartUp.MergedCopies | q_cleanup.c:110-164 | of two copies of a message the slow one stays |
| StartUp.CleanUpIsDone | q_cleanup.c:66-106 | tidying, recovery and both merges together put every file where `CleanedUp` says |
| StartUp.QCleanup | q_cleanup.c:66-106 | unless a call fails, a name is unknown or messages are no families, the spool is cleaned up |
| StartUp.InterruptedThen | envelope.c:1246-1310 | in every state of a move to or from the fast directory: which expansions count as interrupted |
| StartUp.RestartAfterMove | envelope.c:1246-1310 | a crash anywhere in a move between any two of the directories that moves go between: with `Steady` the next start puts every file where it would be without the move; of a local message the Dfile can stay behind |
| StartUp.RestartAfterMoveIff | envelope.c:1246-1310 | the condition is exact, and what holds after the last call of the move holds after every call |
| StartUp.SteadyIsAlone | q_cleanup.c:381-421 | with families and unique ids the condition says that the message has no parent and no child in the fast directory |
| StartUp.ParentMatters | q_cleanup.c:381-421 | an input for either direction: a parent that leaves its child in the fast directory, or joins it there |
| StartUp.ChildMatters | q_cleanup.c:381-421 | an input for either direction: a child that leaves its parent there, or joins it |
| StartUp.RestartAfterRun | queue.c:289-548 | a crash after any call of a run over all queues, and the next start: every message that was complete and no child of an interrupted expansion is complete in slow, once, and no other |
| Recipients.CountReply | smtp.c:510-516 | one reply moves one recipient between the counts |
| Recipients.RemainingCount | queue.c:1311-1344 | the rewritten list has exactly the unsettled recipients, and its length is given by the counters |
| Delivery.Deliver.ConnectionReply | smtp.c:456-474 | only a refused greeting changes the status of a host, and only from DOWN to BOUNCE |
| Delivery.Deliver.MessageReply | smtp.c:503-525 | which replies bounce a message, and which make it wait |
| Dialogue.ConnectionsDoNotMatter | smtp.c:190-560 | greetings, RSET and the end of a connection change nothing for the recipients |
| Dialogue.MailBegins | smtp.c:745-779 | MAIL begins a transaction: no recipient has an answer, and what was acknowledged stays so |
| Dialogue.RcptAnswered | smtp.c:316-330 | a reply to RCPT is the last word on this recipient only: accepted iff 2xx, failed iff 5xx |
| Dialogue.TextAnswered | smtp.c:332-345 | a 2xx reply to the text acknowledges exactly the accepted recipients; a 5xx reply turns the message down |
| Dialogue.MailerExited | queue.c:1462-1524 | an exit code is the last word on its recipient: accepted iff EXIT_SUCCESS, failed iff EX_DATAERR or EX_NOUSER |
| Delivery.Deliver.RcptReply | smtp.c:510-516 | the recipient becomes accepted iff the reply is 2xx and failed iff it is 5xx; one counter follows, and nobody else changes |
| Delivery.Deliver.TextReply | smtp.c:527-536 | only a 2xx reply to the text delivers the message |
| Delivery.Deliver.BeginTransaction | smtp.c:765-779 | MAIL: it goes on iff the sender is accepted, and a 5xx reply bounces the message |
| Delivery.Deliver.OfferAll | smtp.c:780-822 | each recipient is offered once in order; DATA follows only if one was accepted, and for a punt host only if all were |
| Delivery.Deliver.SendText | smtp.c:825-922 | delivered iff the reply to the end of the text is 2xx, and then the accepted recipients are acknowledged |
| Delivery.Deliver.SmtpSend | smtp.c:745-925 | statuses are the last words in the transcript; a delivered message was acknowledged for exactly the accepted recipients; bounced iff MAIL, DATA or the text got 5xx; a punt host that delivers has taken it for everyone |
| Delivery.Deliver.DeliverLocal | queue.c:1462-1524 | accepted are exactly the recipients for whom the mailer succeeded |
| Delivery.Deliver.Attempt | queue.c:1593-1628 | mail has moved iff a recipient failed or an accepted one was delivered |
| Delivery.Deliver.Send | queue.c:1593-1677 | what one attempt means for the host: done, or the connection is closed and the next address is tried |
| Delivery.Deliver.Open | queue.c:1558-1587 | every connection that is opened uses up an address |
| Delivery.Deliver.DeliverRemote | queue.c:1527-1679 | MX ends in MX, DOWN or BOUNCE, with the message bounced iff it was turned down or the host is BOUNCE; a punt host that answered has taken a delivered message for everyone, or refused at most one recipient; the attempts end without a bound unless a punt host is retried; no panic can be reached |
| Delivery.Deliver.Dispatch | queue.c:1134-1203 | what each host status does to a message: BOUNCE bounces it, DOWN, SUPRESSED and a prisoner leave it alone, BITBUCKET takes it; what may then be done with it |
| Delivery.Deliver.RewriteList | queue.c:1311-1344 | the list and the number of recipients after a rewrite |
| Delivery.Deliver.SettlingIsDone | queue.c:1210-1226 | the counters equal the number of recipients iff every recipient is settled |
| Accounting.NamedIs | bounce.c:470-484 | a bounce names exactly the failed recipients, or all of them, each as often as it is one |
| Accounting.RewrittenIsSafe | queue.c:1307-1353 | a rewrite loses no recipient |
| Accounting.DeletedIsSafe | queue.c:1290-1305 | a deletion loses no recipient |
| Accounting.IntendedIsSafe | queue.c:1235-1353 | whatever the counters make the code do loses no recipient, and a rewritten list is not empty |
| Accounting.UnwrittenLosesIff | queue.c:1311-1420 | after a failed rewrite somebody is lost if and only if the queue punts and a refused recipient is on no other list |
| Accounting.FailedRewriteLoses | queue.c:1311-1420 | an input for which that happens: the punt host is given one of two recipients, and nothing names the other |
| Accounting.IntendedSettles | queue.c:1235-1353 | without a fault: deleted iff bounced or nobody is left; named are exactly those to be named; the rest is exactly who is neither failed nor delivered |
| Accounting.IntendedIsJudged | queue.c:1228-1362 | whether it is bounced, deleted or rewritten follows from the counters before |
| Accounting.Settle | queue.c:1235-1420 | bounce, deletion and rewrite can fail: without a failure the outcome is the settled one, with one everybody is still to be tried, and nobody is lost exactly unless `Loses` |
| Accounting.SettlePunted | queue.c:1235-1420 | the punt queue: no recipient is lost if and only if a call failed or the punt host did not refuse the only one; then the message is gone, and the bounce names nobody |
| Accounting.PuntHostRefuses | smtp.c:799-809 | a conversation with the punt host for which that happens |
| Accounting.PuntMessage | queue.c:1088-1425 | one message of the punt queue, with everything that can happen to it; if the host is down it is queued again with all its recipients |
| Accounting.ProcessMessage | queue.c:1088-1425 | one message of a queue: what is done with it is what its host allows; a host that bounces gets it deleted, a host that is down leaves it as it is |
| Accounting.QDeliver | queue.c:1045-1459 | for every message of a queue: the statuses are the last words in its transcript, and no recipient is lost if and only if no rewrite failed as `Loses` says; without a fault it is settled |
| HostSearch.CutoffRecord | queue.c:1738-1765 | the cutoff is the preference of the first record that names this host |
| HostSearch.NoCutoff | queue.c:1738-1765 | without a cutoff no record does |
| HostSearch.HostSearch.FindCutoff | queue.c:1738-1765 | the scan finds it |
| HostSearch.HostSearch.GetOutboundDns | queue.c:1711-1806 | MX records if the first answer has any, else the second answer without a cutoff; a host with neither bounces; which of these, from the two answers |
| HostSearch.HostSearch.Begin | queue.c:1815-1850 | the answer that is gone through, and whether there is one, from the two answers; a punt host gets one query and no cutoff |
| HostSearch.HostSearch.NextRetry | queue.c:1856-1895 | a retried host that moved no mail leaves the list; another stays |
| HostSearch.OrderedIsGuarded | queue.c:1738-1965 | in an ordered answer every record in front of the cutoff is below it |
| HostSearch.HostSearch.TryRecord | queue.c:1915-2002 | one record: used with its own address iff it gives one, skipped, resolved iff it is an MX record without one, or the end at the cutoff |
| HostSearch.HostSearch.NextIp | queue.c:2006-2039 | the first usable address behind the cursor, or there is none |
| HostSearch.HostSearch.NextFresh | queue.c:1906-2049 | each address found leaves less to try, and comes from a record, a lookup or the retry list |
| HostSearch.HostSearch.NextStarted | queue.c:1852-2049 | the same, where a host that has moved mail joins the retry list with aggressive delivery |
| HostSearch.HostSearch.Next | queue.c:1809-2049 | the same with the retry list; it fails only when that is empty |
| HostSearch.HostSearch.Lookup | queue.c:1682-1708 | an address with its source, or none is left; in a guarded answer it is below the cutoff; an MX or A record in front of the cutoff that gives an address is never passed over; every call without movement leaves less to try |
| HostSearch.RecordIsTried | queue.c:1682-2049 | from the answers of the resolver on: a record in front of the cutoff that gives an address is handed out with this address |
| HostSearch.RetriedForever | queue.c:1856-1900 | with aggressive delivery hosts that move mail are handed out any number of times |
| HostSearch.UnguardedIsTried | queue.c:1682-2049 | the converse, for every answer: a record in front of the cutoff that is not below it is handed out |
| MxOrder.SwapKeeps | denser/parse.c:255-271 | one swap keeps what the sort has reached |
| MxOrder.SortPosition | denser/parse.c:255-271 | one pass settles one position |
| MxOrder.SortAnswers | denser/parse.c:249-274 | a permutation that orders the MX records of each owner by preference |
| MxOrder.OneOwnerIsOrdered | denser/parse.c:249-274 | with one owner this is the order that the search for a host needs |
| MxOrder.SeveralOwnersUnordered | denser/parse.c:249-274 | with two owners the sort leaves a record above the cutoff in front of it |
| MxOrder.SeveralOwnersTried | queue.c:1682-2049 | a run on that answer: the address above the cutoff is handed out |
| HostQueues.PrisonersInserted | queue.c:218-223 | a new message changes the number of prisoners by its own |
| HostQueues.AllArePrisoners | queue.c:608-611 | the two counters agree if and only if every message is a prisoner |
| HostQueues.InsertedIsOrdered | queue.c:204-213 | the place for a message keeps a queue ordered by time |
| HostQueues.AmongIsOrdered | queue.c:723-767 | pruning keeps it ordered |
| HostQueues.HostQueue.Insert | queue.c:204-226 | the message is placed behind all that are not younger; both counters stay right |
| HostQueues.HostQueue.Remove | queue.c:230-251 | exactly this message leaves; both counters stay right |
| HostQueues.HostQueue.Prune | queue.c:722-768 | exactly the messages that the scan has seen stay, and both counters are right whatever they were |
| SpoolCount.OthersConserved | queue.c:289-548 | a message that loses its fast Efile leaves the others in order |
| SpoolCount.MoveOut | queue.c:1418-1419 | after a move to slow, from fast or from local, the message is not in fast, or a call has failed |
| SpoolCount.MoveIn | queue.c:417-420 | after a move from slow or local to fast the message is held there, or nothing is, and then something was in the way or a call has failed |
| SpoolCount.Discard | envelope.c:1218-1243 | the message is not held any more, no other one is touched, and if its Efile was there, it is gone or a call has failed |
| SpoolCount.WriteBounce | bounce.c:373-520 | the files of a bounce appear, or the spool is as before |
| QueueRun.Runner.HostQCreateOrLookup | queue.c:83-168 | the queue with the name of this host in whatever letter case, one for each host; messages without a host are unexpanded |
| QueueRun.Runner.QueueEnvelope | queue.c:181-227 | the message waits in exactly one queue, that of its host or of the punt host, and every other queue is unchanged |
| QueueRun.Runner.WaitsForTheRightHost | queue.c:181-227 | the same at any time of a run |
| QueueRun.Runner.BounceSnet | bounce.c:324-526 | a bounce is a new message with its own files and a new id, one level below, or there is none and a call has failed |
| QueueRun.Runner.Load | queue.c:1095-1105 | a message that cannot be read is dropped, and its files stay |
| QueueRun.Runner.TryHost | queue.c:1134-1310 | the host ends in a status that Delivery allows, with a judgement that its status allows |
| QueueRun.Runner.TruncateAndUnlink | envelope.c:1177-1193 | a deleted message is known no longer, and its fast Efile is gone or a call has failed |
| QueueRun.Runner.Settle | queue.c:1249-1377 | the message goes only if it is to be deleted, and then its bounce is in the spool; it does go if no call fails; a bounce that does not count is taken back |
| QueueRun.Runner.Requeue | queue.c:1404-1420 | what was not deleted waits for the punt host if there is one and the queue may punt, and else goes to the slow directory; nothing is lost |
| QueueRun.Runner.Deliver | queue.c:1117-1425 | only a message that is to be deleted meets its end, and it does if no call fails; what is to be done with it is what the status of its host allows |
| QueueRun.Runner.DeliverNext | queue.c:1088-1425 | each message leaves its queue and none is lost; only a punt host that is down can stop a delivery |
| QueueRun.Runner.QDeliver | queue.c:1045-1459 | the queue is empty afterwards unless the punt host is down; only the unexpanded and the punt queue can have grown; no message is lost |
| QueueRun.Runner.Schedule | queue.c:329-391 | a queue to be tried takes its turn, longest queues first; another one is dealt with at once; no other status than the expected ones occurs |
| QueueRun.Runner.RunHosts | queue.c:329-398 | all host queues are empty, and no message is lost |
| QueueRun.Runner.Unwind | expand.c:697-714 | the children of a failed expansion leave their queues and their files, and no other message does |
| QueueRun.Runner.Expand | expand.c:501-553 | one message for each domain waits for it, and the parent is gone; or nothing new waits, nothing is lost, and a call has failed |
| QueueRun.Runner.Fetch | queue.c:417-427 | an unexpanded message is moved to the fast directory and read, unless something is in the way or a call fails |
| QueueRun.Runner.Unexpandable | queue.c:435-490 | a message that cannot be expanded is kept, unless it is too old: then a bounce takes its place if no call fails |
| QueueRun.Runner.ExpandFirst | queue.c:409-490 | an unexpanded message is expanded, bounced or moved back to slow, and none is lost |
| QueueRun.Runner.TimeOrder | queue.c:254-286 | messages without an Efile are dropped; if no call fails, all that are safe are queued again |
| QueueRun.Runner.DrainPunt | queue.c:526-533 | mail that could not be punted goes to the slow directory, and none is lost |
| QueueRun.Runner.Admit | queue.c:949-972 | a message found in the slow or in the local directory is known once, and queued; with its Efile there it is safe |
| QueueRun.Runner.AllDone | queue.c:526-548 | with empty queues and no failed call, nothing is left in the fast directory, and what is safe is complete in slow |
| QueueRun.Runner.QRunner | queue.c:289-548 | a finished run leaves all queues empty with zero counters; each message that was safe has met its fate or is safe still, which without a failed call means complete in slow; the counter of fast files is exact, and zero if no call failed; every recorded state has files of the right kind, and a Dfile for every Efile |
| Backoff.PushKeepsPendingIff | queue.c:641-646 | a pending launch stays pending if and only if the push asks for a time after the last launch, and then the earlier time counts |
| Backoff.PendingMovesForward | queue.c:641-646 | for every sequence of pushes, promotions and leaks: the launch stays pending throughout if and only if each asks for such a time, and then it only comes forward; in a later second than the last launch each does |
| Backoff.PromotedThenPutOff | queue.c:641-646 | the input where it does not: a promotion in the second of the last launch, and a report of activity that puts the launch off |
| Backoff.PromotedIsDue | daemon.c:1684-1689 | a promoted queue is due at once |
| Backoff.DelayIsBounded | queue.c:595-607 | a push with a delay waits that long, but not longer than the maximum |
| Backoff.PrisonersWait | queue.c:608-620 | a queue of prisoners is due after the jail time, the first time within it |
| Backoff.FirstWait | queue.c:621-627 | a new or leaky queue is due within the minimum |
| Backoff.NextWait | queue.c:628-639 | any other queue waits twice as long as before, within the limits |
| Backoff.LeakStartsOver | daemon.c:1216-1226 | activity of the remote host starts the waits over |
| Backoff.WaitDoubles | queue.c:628-639 | the wait doubles up to the maximum and never shrinks |
| Backoff.BackoffClosedForm | queue.c:622-646 | the k-th wait in a row is `2^k * min_wait`, or the maximum |
| LaunchQueue.Bridged | queue.c:685-703 | after a removal the links spell out the remaining list |
| LaunchQueue.Joined | queue.c:648-673 | after an insertion the links spell out the new list |
| LaunchQueue.LaunchList.Pop | queue.c:683-706 | exactly this queue leaves the list; one that is not in it is left alone |
| LaunchQueue.LaunchList.FindPosition | queue.c:648-666 | the position keeps the list sorted: behind equal times, except that the head is put off by one |
| LaunchQueue.LaunchList.Push | queue.c:570-679 | the list stays well formed and sorted, with the new launch time |
| LaunchQueue.LaunchList.Repush | daemon.c:1216-1226 | a promotion or a leak puts the queue in its new place |
| LaunchQueue.LaunchList.HqLaunch | daemon.c:785-836 | the queue launched is one with the earliest time, and it goes back into the list |
| LaunchQueue.LaunchProgress | daemon.c:1001-1051 | a launched queue is due again at most once before its wait has grown |
| LaunchQueue.LaunchList.LaunchDue | daemon.c:1001-1051 | only due queues are launched, no more than either limit allows; the loop ends, with none due or a limit met |
| LineSplit.NextLineAt | libsnet/snet.c:976-1051 | what ends a line, by position |
| LineSplit.LineEndsHere | libsnet/snet.c:976-1051 | CR, LF and NUL each end a line, and nothing else does |
| LineSplit.LinesOfUnlines | libsnet/snet.c:976-1051 | lines written with CR LF or LF are read back |
| LineSplit.StuffIsPlain | smtp.c:893-908 | a stuffed line is never the final dot, and unstuffing gives the line |
| LineSplit.OnlyDotsAreStuffed | smtp.c:893-908 | only lines that begin with a dot are changed |
| LineSplit.ReceiveDot | receive.c:1551-1556 | the final dot stops the receiver at once |
| LineSplit.DotTransparency | smtp.c:893-918 | section 4.5.2 of RFC 2821: for all lines, what is received is what was sent, and the receiver stops at the final dot |
| LineSplit.RelayKeepsLines | receive.c:1551-1612 | a message keeps its lines from spool to spool |
| LineReader.Snet.Pullup | libsnet/snet.c:987-995 | moving the buffered bytes to the front keeps them |
| LineReader.Snet.Expand | libsnet/snet.c:998-1010 | growing the buffer keeps them; it fails only at the maximum |
| LineReader.Snet.Fetch | libsnet/snet.c:985-1028 | fetching never changes the unread stream |
| LineReader.Snet.FindEol | libsnet/snet.c:984-1045 | the search stops at the first terminator of the stream, at its end, or at the maximum length |
| LineReader.Snet.GetLine | libsnet/snet.c:976-1051 | the next line of the stream, or nothing is lost |
| LineReader.Snet.HasData | libsnet/snet.c:909-926 | looking for data does not change the lines to come |
| LineReader.CollectLines | libsnet/snet.c:976-1051 | all lines depend on the byte stream alone, not on how reads split it or where they fail |
| Relay.SendLines | smtp.c:860-910 | what is written are the stuffed lines of the Dfile, in order, until a read or a write fails |
| Relay.SendData | smtp.c:844-918 | the Seen-Before line if there is one, the stuffed lines of the Dfile, and the final dot |
| Relay.ReceiveData | receive.c:1504-1612 | what is stored is the unstuffed lines up to the final dot; if it fails, what was read so far and what is left make up the stream |
| Relay.Transfer | smtp.c:844-918 | sender and receiver together keep every line; without a failed read or write this succeeds unless a line is too long |
| Efile.ScanPrinted | envelope.c:546-580 | a printed number is read back |
| Efile.ScanSigned | envelope.c:925-985 | a sign may precede a number, and what follows its digits is ignored |
| Efile.QueueRoundTrip | envelope.c:789-1143 | the first reading restores id, inode, level, jail, host, attributes and sender; a known host stays, and a known sender is refused |
| Efile.OtherEnvelopeRefused | envelope.c:1035-1121 | the second reading is refused if and only if the id, the host up to letter case, or the sender differs |
| Efile.OldFilesAreRead | envelope.c:864-1022 | files of the versions 1 to 5 are read; what an old one does not have stays as it is |
| Efile.OtherVersionRefused | envelope.c:864-875 | any other version is refused |
| Efile.DeliverRoundTrip | envelope.c:789-1143 | the second reading adds the recipients in reversed order and changes nothing else |
| Efile.EfileIsLines | envelope.c:510-642 | fields without line breaks are one line each |
| EfileIO.WriteEfile | envelope.c:510-642 | the text of an envelope, refused without recipients |
| EfileIO.EnvRead | envelope.c:789-1143 | reading through the line reader is the parser on the lines of the file |
| EfileIO.StoreAndLoad | envelope.c:510-1143 | written, read in queue mode and read in deliver mode: each field, from the envelope; this fails only if a write or read does, there is no recipient, or a line is too long |
| DnsName.WireLength | denser/query.c:354-413 | an encoded name is two octets longer than the text |
| DnsName.EncodingIsWire | denser/query.c:377-406 | the encoder writes length and label for each label, and refuses labels of more than 63 octets |
| DnsName.DnToLabels | denser/query.c:354-413 | which names are refused; the result, its length, and the limit of 255 octets |
| DnsName.ParseWire | denser/parse.c:668-747 | section 3.1 of RFC 1035: decoding an encoded name gives its labels and stops behind it |
| DnsName.RoundTripIffSized | denser/parse.c:668-747 | the labels come back if and only if none is empty |
| DnsName.CompressionIsTransparent | denser/parse.c:684-706 | section 4.1.4 of RFC 1035: a compressed name equals the name written out |
| DnsName.CompressedName | denser/parse.c:679-684 | the same on the octets: labels, then two octets that spell a place in front of them, mean the labels and those written at that place |
| DnsName.DecodeCompressed | denser/parse.c:668-747 | such a name is decoded to all these labels joined by dots, or refused if that is too long |
| DnsName.EndlessIff | denser/parse.c:668-747 | any response: the decoder runs forever if and only if it comes to a pointer again without a label in between |
| DnsName.PointerToItself | denser/parse.c:684-706 | a response on which it runs forever |
| DnsName.BackwardEnds | denser/parse.c:668-747 | with backward pointers decoding ends, and its text is that of the labels |
| DnsName.LabelsToName | denser/parse.c:668-747 | any response on which it ends: the result, its end, and that the buffer of 256 octets is not left |
| DnsName.DecodeName | denser/parse.c:668-747 | any response on which it ends: a name is decoded iff its text exists, and to this text |
| DnsName.BackwardName | denser/parse.c:668-747 | with backward pointers the text is the labels joined by dots, if they are not too long |
| DnsName.EncodeAndDecode | denser/query.c:354-413 | every name with labels of 1 to 63 octets comes back |

## Left out

- Sockets, TLS, SASL, compression, `snet_read`, select loops, fork and exec, syslog, option and configuration parsing: calls into code outside the repository, or input to the model.
- LDAP, alias and passwd lookups are one function `Directory`; a lookup that fails stops the expansion. `exp_max_level` is a metric in the code and is not modelled.
- Error bounces, forwarding and moderation envelopes of an expansion are flags of an address: an address with one is not released. The child in the dead queue is not modelled; the unwind at expand.c:703 follows its null queue pointer.
- `cleanup_envelope_list` (expand.c:92-114): it follows a pointer inside an envelope that has been freed.
- The dynamic checks after the rename in `env_efile` (sender and message id lists) are assumed to succeed.
- ExpandCommit.CommitExpansion: the parent is in the fast directory, where queue.c:418 moves it, so the truncation for other directories does not occur. No other message shares its text: expanding a moderated message while its siblings remain is outside what the sweep assumes.
- GroupSearch.ParentPermitted: a parent that is no LDAP group has the DN "" in the model, which no list of permitted groups names. The code passes its null DN to strcmp (expand.c:945).
- StartUp.QCleanup: with `simta_filesystem_cleanup` on. With it off, the fast directory must be empty (q_cleanup.c:92-95).
- `env_jail_status` (envelope.c:79-126): it changes the counter of prisoners in the direction opposite to the queue functions, so no invariant of the counters includes it.
- Accounting.QDeliver: the text of a bounce is its list of recipients. Not for the punt queue, which is in `PuntMessage`, nor for the bit bucket, which discards mail. A message that becomes old bounces all recipients, accepted ones included, so each is settled at least once, not exactly once.
- Delivery.Deliver.DeliverRemote: `patience` stands for the end of the retries of a punt host that the code does not bound.
- Delivery.Deliver.SmtpSend: any end of the Dfile counts as the end of the message, as in the code; `Relay.SendData` returns why it ended. `struct deliver`, its envelope and the status of its queue are one class.
- ExpandOutput.Distribute: e-mail and dead addresses; for other types the code panics (expand.c:455-456). A message whose host is empty waits to be expanded again.
- QueueRun.Runner.Admit: the slow directory has no file with the id of a local message, because ids are unique.
- QueueRun.Runner.QRunner: the dialogue of an attempt is not played again inside a run: the status of the host and what is to be done with the message are any that Delivery allows for the status before (`Leaves`, `Allows`), and Accounting.ProcessMessage shows that its outcomes are among these. The recipients in an Efile are not part of the spool here, so that a rewrite does not show. `patience` bounds the number of expansions, because an old message that is bounced adds a new one. Touching an envelope (envelope.c:756-778) changes only its time and is not modelled; the early exits for a failing clock are not either.
- QueueRun.Runner.Create: a new message id is one that nothing uses yet. The code takes it from the clock and the process number.
- HostSearch.UnguardedIsTried: for a record that comes with its address. Whether a record without one is tried is up to the lookup of its name.
- LaunchQueue.LaunchList.LaunchDue: the clock does not go back, and the limits `0 < min_wait <= max_wait` and `jail_seconds > 0` hold. A queue whose first wait is drawn as zero can be launched twice in one round.
- LineReader.Snet.GetLine: a source that reports its end stays at its end.
- Relay.SendData: the timers of smtp.c:862-885 are failed writes. What the Seen-Before line says is not modelled.
- Relay.ReceiveData: the refusals of `f_data` for size, headers and content are not modelled.
- EfileIO.EnvRead: an envelope that cannot be read is an error without a value, where the code leaves a partly filled one; numbers that sscanf cannot read are errors, where the code uses what the variable held. Attributes are read as signed numbers. A null sender comes back as an empty one.
- DnsName.DnToLabels: the empty name is excluded, for which the code reads the octet in front of its buffer.
- DnsName.LabelsToName: responses on which the code does not end (`EndlessIff`). The test for a pointer accepts either high bit, though the comment there asks for both; the model follows the code. The buffer is longer than the response.
- Content filter, digests, RBL, throttling and tarpit branches of receive.c; daemon commands; simvacation; penaltybox; wildcard.c, dn.c, base64.c, ll.c, argcargv.c.
