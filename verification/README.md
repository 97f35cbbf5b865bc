# AgentMail, modelled and verified in Dafny

AgentMail is a small mail server for people and software agents. This project models its core and proves what
the rest of the system relies on:

- the mailbox store: messages, inbox, sent and unread indexes, the graph of subordinate accounts, uploaded files
  with quotas and access lists, each database transaction as one step;
- reading mailboxes: prefix scans over byte keys, pages, merged folders, topics derived by union-find, the panel's
  thread rendering, and the management overview built by one scan;
- the three state machines around the store: push delivery with its timers, the rate limiters, and the polling
  protocol of `wait_for_new_mail`;
- the identifiers whose string order all "newest first" claims rest on (ULID, sections "Sorting" and "Binary Layout
  and Byte Order" of github.com/ulid/spec).

Objects that change in place are classes (`Store.Store`, `UnionFind.Classes`, `PushDelivery.Delivery`,
`SlidingLimiter.RegLimiter`, `FixedWindow.RateLimits`, `QuietHours.Preferences`, `ThreadPage.Page`). Their methods are
proved against functions on values; the theorems are then about those functions and about runs made of them. The
modules whose names end in `Laws`, `Runs` or `Meaning`, and `OverviewPicture`, `ThreadOrder`, `TopicPanel`, `ReadStamps`,
`PushSends`, `ChainArrivals` and `ChainWitnesses`, hold the main results. Theorems whose names end in `Meaning` or
`Exactly` say what an operation or a function gives in terms of the stored data, the messages or the run itself.

How the model reads the system:

- A bucket is a map or a set, and a cursor its ascending listing. Index entries are pairs of uuid and message id;
  `IndexKeys` proves that scanning the concatenated byte keys finds exactly those pairs.
- A read transaction followed by another transaction is two steps. What runs in between may change the outcome, and the
  theorems on reading and marking mail (`StoreLaws.MarkReadLeaves`, `StoreLaws.OpenedAsStored`,
  `StoreLaws.MarkAllReadLeaves`) and on the sweep (`FileLaws.SweepInterleaved`) let anything run there. Reads that take
  several transactions take several snapshots; `StoreLaws.RunExtends` tells how a later one relates to an earlier one.
- A push job is two steps: what it decides under the mutex, and the sending after the mutex is released.
- New ids, uuids, access codes and drawn names are parameters; ids, uuids and codes are assumed fresh. Clocks, settings, random bytes and the
  answers of polls are parameters too. Addresses are ASCII and free of NUL; clocks do not run backwards where a lemma
  says so.
- ULID's 64-bit accumulator is a natural number with its wrap-around written out; its bytes are bit vectors.

Where the code and its comments disagree, the model follows the code:

- `Send` promises an error when nobody can be reached. It returns one, but the body and the sent entry are already
  committed (`StoreLaws.SendsCompared`). `SendWithAttachments` without attachments "behaves like Send" except there.
- `MarkAllRead` speaks of one transaction; there are two (`StoreLaws.MarkAllReadLeaves`).
- The summary of quiet hours is announced for the close of the window. After midnight in a window that wraps it comes
  a day later (`QuietHours.WaitMeaning`, `PushLaws.SummaryDueAtClose`).
- `RemoveSubordinate` speaks of the unique edge; with both directions declared one is left
  (`GraphLaws.RemoveEndsOneDirection`).
- The hourly limiters are called sliding windows but restart at a fixed time, so an hour can see up to twice the limit;
  the registration limiter is called a fixed window but slides.
- The quota counts exact spellings of an owner while the statistics ignore case. `FileLaws.StatisticsExact` gives the
  condition for the two to agree, and `FileLaws.TwoSpellingsTwoQuotas` a run in which they do not.
- Accounts are said to be stored under lowercase keys on every path (internal/store/account.go:459-460), but a team member's key keeps
  the capitals of a drawn name and of the domain. Then the member is not found under the address that was returned for
  it. `TeamLaws.KeysLowerExactly` and `TeamLaws.MemberFound` give the conditions, `TeamLaws.MixedCaseMember` a run.
- The display spelling of a local part is said to match the address. `RegisterTeam` trims the spelling but not the
  owner's address, so it holds exactly while owners with capitals are registered without spaces around the name, as the
  handler sees to (`DisplayLaws.DisplayExactly`).
- A burst is said to collapse into one push a minute. Decisions are a minute apart, but a job may send late: pushes are
  at least `gap` seconds apart in every run exactly if `gap` is at most 60 less the longest delay
  (`PushSends.SendsApartIff`).
- A chain of waits can pass over mail. `ChainLaws.DeliveredIff` says which messages it delivers. From a known start,
  what is lost is what comes late (`ChainLaws.LostIffLate`), for example under a smaller id
  (`ChainWitnesses.LateSmallerIdMissed`). From an empty start on an empty inbox, arrivals are lost exactly if a later
  call baselines on one (`ChainArrivals.EmptyStartIff`, `ChainWitnesses.EmptyStartMisses`).

## Model

| member | source | states |
|---|---|---|
| `UnionFind.Classes.Find` | internal/store/threads.go:107-117 | terminates on the distance to the root; halving the path moves no element to another class; an unknown element becomes its own class |
| `UnionFind.Classes.Union` | internal/store/threads.go:118-123 | exactly the two classes of the arguments become one, and the parent map stays an acyclic forest over its own keys |
| `UnionFind.HalvedRoot` | internal/store/threads.go:114-115 | shortcutting one parent link changes no element's root |
| `Components.Unite` | internal/store/threads.go:124-129 | in whatever order nodes and links are visited, two nodes share a representative iff undirected links connect them |
| `ThreadComponents.CollectLinks` | internal/store/threads.go:95-103 | links are exactly the replies to parents inside the visible set |
| `ThreadComponents.DeriveComponents` | internal/store/threads.go:94-155 | the result lists every connected component once, with members ascending by id, root first, latest time and participants by first appearance |
| `ThreadIndex.SameTopic` | internal/store/threads.go:92-155 | two visible messages share a topic iff reply links connect them, and a topic's members are exactly what is connected to it |
| `ThreadIndex.CountsAddUp` | internal/store/threads.go:130-155 | member counts over all topics sum to the size of the visible set |
| `ThreadIndex.ThreadByRoot` | internal/store/threads.go:206-226 | any member's id gives the view of its whole component, so members of one topic give the same view; an invisible id gives nothing |
| `TopicLaws.ViewMeaning` | internal/store/threads.go:216-222 | the view names the root and has a summary of each member in order, with the head fields as they are, the first hundred characters of the body and no unread mark |
| `ThreadIndex.Threads` | internal/store/threads.go:160-200 | a page of one index that depends on the visible set alone, and the length of that index before paging |
| `TopicLaws.PageMeaning` | internal/store/threads.go:181-199 | a page holds limit rows from the offset on, or what there is; limit 0 or less asks for all, an offset below 0 is 0 and one beyond the end gives nothing; each row repeats its topic |
| `TopicLaws.PagesJoin` | internal/store/threads.go:181-199 | consecutive pages join to the first rows of the index and, once they reach its end, to all of it |
| `TopicLaws.IndexMeaning` | internal/store/threads.go:165-180 | the index lists each topic with enough members once, the latest activity first and then the smaller root id |
| `TopicLaws.TopicMeaning` | internal/store/threads.go:92-155 | a topic has exactly the messages that chains of replies connect, in either direction, by ascending id; root and subject are the first one's, the time the latest |
| `TopicLaws.ParticipantsMeaning` | internal/store/threads.go:139-152 | its participants are the From, To and CC addresses of its messages, each once, in the order in which they are first named |
| `Visibility.VisibleMessages` | internal/store/threads.go:45-81 | exactly the messages in the inbox or sent index of the account or of an account declared under it, each mailbox as its own transactions see it, and the bodies as a later one does |
| `Visibility.VisibleMeaning` | internal/store/threads.go:45-66 | an id is visible iff the address itself, or a lowercase address declared under it, finds an account that has it in the inbox or the sent folder |
| `Visibility.VisibleBetween` | internal/store/threads.go:45-81 | whatever happens between the visits, nothing is missing that one transaction would have seen before the first, and nothing is there that one would not see after the last |
| `Visibility.VisibleIsKeyed` | internal/store/threads.go:67-79 | each visible entry resolves, under its own id, which is what the thread index requires |
| `OverviewScan.Scan` | internal/store/mgmt.go:136-221 | after one pass the five accumulators equal the declared counts, sums and maxima over the messages, in any order |
| `OverviewScan.ScanRecipients` | internal/store/mgmt.go:193-218 | the recipients may be visited in any order; an outside sender is attributed once, at the first recipient |
| `OverviewGraph.PairKeyIsUnordered` | internal/store/mgmt.go:75-80 | two pairs share a key iff they are the same pair in some order |
| `OverviewGraph.TopMeaning` | internal/store/mgmt.go:227-245 | the top list holds at most three contacts by count then address, and whatever is missing is beaten by three others |
| `OverviewGraph.Externals` | internal/store/mgmt.go:268-281 | an outside address becomes a node iff some core address lists it, weighted by all lists it is on |
| `OverviewGraph.Edges` | internal/store/mgmt.go:310-341 | one edge, in key order, per pair with window traffic whose ends are both rendered |
| `Overview.MgmtSubsOverviewWindow` | internal/store/mgmt.go:94-343 | the report satisfies its declarative meaning over what the scan reads of the messages |
| `OverviewMeaning.EventMeaning` | internal/store/mgmt.go:155-178 | what it reads: the lowercased sender, the lowercase addresses that To or CC name in some spelling, the first To address unless blank, the length of the body and the time |
| `OverviewMeaning.RowMeaning` | internal/store/mgmt.go:115-133 | a row counts the messages of the window that name its address in To or CC, and those it sent, with their mean lengths and the latest times of all; the window starts days times 86400 seconds ago, or at 0 |
| `OverviewPicture.RowContacts` | internal/store/mgmt.go:226-262 | its contacts are the three with most mail, by count and then address; who is missing had none or is beaten by three |
| `OverviewPicture.NodesMeaning` | internal/store/mgmt.go:266-305 | the nodes are the reader, each subordinate once, and each outsider on some list, in this order and by address, with the mail they had or the sum of what the lists say |
| `OverviewPicture.EdgesMeaning` | internal/store/mgmt.go:307-343 | one edge, in key order, for each two nodes with mail between them in the window, with the counts each way and the latest time of all |
| `OverviewLaws.ReportUnique` | internal/store/mgmt.go:94-343 | that meaning determines the report, so no map or message order can show in it |
| `OverviewLaws.SameEvents` | internal/store/mgmt.go:156-181 | reordering stored messages leaves what the scan reads unchanged |
| `OverviewLaws.EachMessageOnce` | internal/store/mgmt.go:183-218 | directional counts over all pairs sum to the window messages with a first recipient and a core end: each counts exactly once, others not at all |
| `OverviewLaws.ContactMeaning` | internal/store/mgmt.go:193-218 | core-to-core contacts count outgoing mail only, contacts with outsiders both directions |
| `Ulid.IsULID` | internal/store/ulid.go:31-41 | accepts exactly the 26-letter strings over the alphabet |
| `Ulid.LettersAre` | internal/store/ulid.go:16-25 | the alphabet has the digits and the capital letters but I, L, O and U |
| `Ulid.EncodeULID` | internal/store/ulid.go:72-106 | the text is over the alphabet and spells, in base 32, the number that the 16 bytes spell in base 256 |
| `Ulid.EncodeRandom` | internal/store/ulid.go:89-104 | the 64-bit shifts lose no bit that is needed, the ten letters of the time stay, and no bit is left for the trailing letter that the code provides for |
| `Ulid.NewULIDAt` | internal/store/ulid.go:50-69 | the low 48 bits of the stamp come first, then the ten random bytes |
| `UlidLaws.OrderPreserved` | internal/store/ulid.go:72-106 | string order is byte order, and encoding is injective |
| `UlidLaws.DecodeInverts` | internal/store/ulid.go:72-106 | a decoder undoes the encoder and succeeds on exactly its outputs |
| `UlidLaws.TimeOrdered` | internal/store/ulid.go:50-69 | identifiers sort by stamp modulo 2^48, then by random bytes |
| `IndexKeys.PrefixFree` | internal/store/store.go:107-112 | among uuids of one length, a key starts with a uuid iff it is that uuid's |
| `IndexKeys.IndexKeyInjective` | internal/store/store.go:107-112 | different entries have different keys |
| `IndexKeys.TailsAreIds` | internal/store/message.go:493-499 | scanning a uuid's prefix over byte keys finds exactly that account's entries |
| `Cursor.Scan` | internal/store/message.go:496-498 | seek, then next while the prefix lasts, visits all keys with the prefix in ascending order |
| `IndexReads.Reverse` | internal/store/message.go:507-509 | the in-place swap loop reverses the ids |
| `IndexReads.ReadIndex` | internal/store/message.go:487-551 | the rows are the requested page of the descending id list of one snapshot, with the messages and the viewer's unread marks of a later one |
| `IndexReads.NewestMeaning` | internal/store/message.go:493-509 | the ids are exactly those of the account's entries, each once, in descending order |
| `IndexReads.PageMeaning` | internal/store/message.go:510-520 | a page has limit entries from the offset on, or what there is; an offset below 0 is 0 |
| `IndexReads.ResolveMeaning` | internal/store/message.go:526-549 | the rows are those of the page's ids that are stored, in the same order |
| `IndexReads.RowMeaning` | internal/store/message.go:526-549 | a row has its message's fields, at most a hundred characters of its body, and is unread iff the viewer's mark is in the later snapshot |
| `IndexReads.ReadInboxPaged` | internal/store/message.go:321-330 | resolves the account in any case, defaults the size to 20, and pages its inbox |
| `IndexReads.CountEntries` | internal/store/message.go:849-869 | the count over a prefix is the number of the account's entries |
| `IndexReads.PagesCover` | internal/store/message.go:510-520 | consecutive pages concatenate to a prefix of the list, and to all of it once they cover it |
| `IndexReads.ResolvedRows` | internal/store/message.go:526-549 | where entries resolve, a page has one row per id, in order |
| `Folders.ReadSubordinateMessages` | internal/store/subs.go:275-314 | the newest of inbox, sent or both merged, without duplicates, although each side is cut first and read in transactions of its own; a message on both sides is shown as the inbox side saw it |
| `Cuts.FirstOfUnion` | internal/store/subs.go:295-313 | cutting two sets to k before merging loses none of the first k |
| `Text.LessAfterPrefix` | internal/store/store.go:104-106 | keys that share a prefix sort by what follows it |
| `Text.LessMeaning` | internal/store/store.go:104-106 | keys are ordered byte-wise: a proper prefix comes first, and otherwise the first difference decides |
| `Text.FoldMeaning` | internal/store/files.go:138-157 | two addresses fold together iff they differ in the case of letters only |
| `Mailbox.DeliverKeeps` | internal/store/message.go:109-162 | delivering a fresh message whose parent is stored keeps entries resolving, unread within inbox, and replies well-founded |
| `Store.Store.DeliverTo` | internal/store/message.go:127-152 | one inbox and one unread entry per distinct lowercased address with an account, and their number |
| `Store.Store.Send` | internal/store/message.go:90-170 | result and new store equal the specified send |
| `OperationLaws.SendMeaning` | internal/store/message.go:90-170 | a send fails without a trace iff its parent is missing or its id taken; otherwise the message comes in for exactly those it names and its sender, and only then an error tells that nobody was reached |
| `Store.Store.ResolveAttachments` | internal/store/files.go:213-230 | snapshots all files, or the first that is missing or foreign |
| `Store.Store.ValidRecipients` | internal/store/files.go:232-250 | the addresses with accounts, one spelling each |
| `Store.Store.GrantFiles` | internal/store/files.go:255-288 | each attached file's list gains exactly the recipients, repeated ids included |
| `Store.Store.SendWithAttachments` | internal/store/files.go:204-345 | result and new store equal the specified send with grants |
| `AccessLaws.SendWithAttachmentsMeaning` | internal/store/files.go:204-345 | the answer names the first check that fails; a refusal leaves the store alone; otherwise exactly those it names become readers of the attached files, and unless the id is taken the message comes in with a snapshot of each |
| `Sorting.InsertionSort` | internal/store/files.go:347-353 | the in-place insertion sort leaves an ordered permutation |
| `Granting.Listed` | internal/store/files.go:273-278 | the stored list is the ascending listing of the set |
| `Files.GrantPermits` | internal/store/files.go:256-284 | after a grant exactly the former readers and the recipients may read |
| `Files.GrantMeaning` | internal/store/files.go:255-288 | a grant that brings nobody new changes nothing; any other leaves the list in lower case and ascending, with the former addresses and the recipients but for the owner |
| `Files.GrantTwice` | internal/store/files.go:255-288 | attaching the same file twice grants nothing more |
| `Store.Store.MarkRead` | internal/store/message.go:604-633 | uninterrupted, it clears one mark and stamps the read, or does nothing |
| `StoreLaws.MarkReadLeaves` | internal/store/message.go:604-633 | whatever runs between its two transactions, the message is read afterwards unless it only came in between, and no other mark is touched |
| `Store.Store.GetMessage` | internal/store/message.go:555-597 | uninterrupted, it needs an inbox or sent entry, returns the stored message and clears the reader's mark |
| `StoreLaws.OpenedAsStored` | internal/store/message.go:555-597 | whatever runs between finding the entry and loading the message, the message is there as it was, and the account still has its entries |
| `ReadStamps.MarkReadMeaning` | internal/store/message.go:604-633 | reading takes one mark and stamps the account; a message already read leaves the store alone |
| `Store.Store.MarkAllReadView` | internal/store/message.go:876-901 | the snapshot holds the ids of all of the account's unread marks |
| `Store.Store.MarkAllReadUpdate` | internal/store/message.go:902-916 | clears exactly the snapshot's marks |
| `Store.Store.MarkAllRead` | internal/store/message.go:876-916 | uninterrupted, it clears all of the account's marks and returns their number |
| `ReadStamps.MarkAllReadMeaning` | internal/store/message.go:876-916 | exactly the account's marks go and are counted; with none there is no stamp either |
| `Store.Store.TouchLastReadPull` | internal/store/message.go:945-953 | a pull stamps the account's read event and nothing else |
| `ReadStamps.StampMeaning` | internal/store/message.go:945-953 | in every run an account's stamp is the time of its last clearing or pull, and nothing else moves it |
| `Store.Store.CreateAccount` | internal/store/account.go:75-118 | result and store equal the specified creation |
| `OperationLaws.CreateMeaning` | internal/store/account.go:75-118 | the trimmed name and the domain, lowercased, become the key unless it is taken; the record has the uuid and the time given, no signature, and the trimmed name for display if it has capitals |
| `Text.TrimMeaning` | internal/store/account.go:76-76 | trimming takes away all the spaces at both ends and nothing else |
| `Store.Store.RegisterTeam` | internal/store/account.go:544-666 | result and store equal the specified registration; an error restores accounts and edges |
| `Teams.AllocateMemberName` | internal/store/account.go:587-628 | the first free of the name asked for, its suffixes -2 to -21 and five drawn names, or of the drawn names alone |
| `TeamLaws.TeamMeaning` | internal/store/account.go:554-666 | all or nothing: the owner and size members under distinct addresses that nobody had, every other account as it was |
| `TeamLaws.RecordsMeaning` | internal/store/account.go:566-658 | owner and members get their uuids, addresses and the time of the registration; the display spelling is kept for the owner, and for a member that got the name it asked for |
| `TeamLaws.CandidatesMeaning` | internal/store/account.go:587-628 | the names tried are the one asked for, trimmed and lowercased, the same with -2 to -21, and five drawn names; without a name the drawn ones alone |
| `TeamLaws.DecimalMeaning` | internal/store/account.go:617-617 | the suffix is the decimal numeral of its number |
| `TeamLaws.TeamRefused` | internal/store/account.go:544-666 | each error has its exact condition; no name is left exactly if all candidates of some member are in use when its turn comes |
| `TeamLaws.TeamEdges` | internal/store/account.go:629-659 | the new edges are those from the owner to its members, in any case; all others stay |
| `TeamLaws.MemberIs` | internal/store/account.go:587-628 | each member has the first of its candidates that neither an account nor the owner nor an earlier member has |
| `TeamLaws.MemberLowerIff` | internal/store/account.go:587-628 | a member's address is lowercase iff the domain is and the name comes from what was asked for or was drawn without capitals |
| `TeamLaws.MemberFound` | internal/store/account.go:124-136 | a registered member is found under the address returned for it iff that is lowercase; the owner always is |
| `TeamLaws.KeysLowerExactly` | internal/store/account.go:554-666 | in every run all account keys are lowercase iff no team got a member address with capitals since the last repair |
| `TeamLaws.MixedCaseMember` | internal/store/account.go:593-603 | a run of one registration whose member no lookup finds |
| `DisplayLaws.DisplayExactly` | internal/store/account.go:46-51 | in every run every display spelling lowercases to the start of its own address iff no owner was registered with capitals and spaces around the name |
| `Store.Store.NormalizeAccountCase` | internal/store/account.go:236-285 | keys become the lowercased originals; lowercase records stay; otherwise the first spelling in byte order moves with its address corrected; the three counters sum to the original size |
| `AccountCase.NormalizeMeaning` | internal/store/account.go:236-285 | afterwards exactly the lowercase spellings are keys; a key that was there keeps its record, any other has that of its first spelling in byte order with the address corrected |
| `AccountCase.CountersMeaning` | internal/store/account.go:254-281 | the counters count the keys without capitals and the lowercase spellings that were no keys yet |
| `AccountCase.FirstPending` | internal/store/account.go:248-283 | the record that moves is the smallest spelling of its class |
| `AccountCase.SecondRunChangesNothing` | internal/store/account.go:232-235 | a second run changes nothing and finds only lowercase keys |
| `Subs.SplitInvertsJoin` | internal/store/subs.go:44-54 | splitting undoes joining when the superior is free of NUL |
| `Subs.SubordinatesOf` | internal/store/subs.go:186-208 | the scan lists exactly the addresses for which the point lookup says yes |
| `Subs.SuperiorsOf` | internal/store/subs.go:212-237 | the suffix scan lists, once each, exactly the addresses for which the point lookup says yes |
| `Store.Store.DeclareSubordinate` | internal/store/subs.go:59-82 | result and graph equal the specified declaration |
| `OperationLaws.DeclareMeaning` | internal/store/subs.go:59-82 | it succeeds between two different accounts, records its scope and time under the joined key, and leaves all other records; each error has its exact condition |
| `Store.Store.RemoveSubordinate` | internal/store/subs.go:110-171 | result and store equal the specified removal |
| `OperationLaws.RemovalMeaning` | internal/store/subs.go:110-171 | with a relationship either way exactly one message comes in, from the caller to the other side, with the given texts, no copy, no attachment and the time of the removal; otherwise nothing happens |
| `GraphLaws.DeclareAdds` | internal/store/subs.go:59-82 | adds exactly one edge, between two existing different accounts only |
| `GraphLaws.RevokeRemoves` | internal/store/subs.go:86-94 | removes exactly that edge, seen by the very next lookup |
| `GraphLaws.RemoveEndsOneDirection` | internal/store/subs.go:110-129 | succeeds iff an edge exists; the relationship is over iff only one direction existed |
| `OperationLaws.RemovalAnnounced` | internal/store/subs.go:131-164 | the other side's account and no other has it unread in its inbox, the caller's and no other in the sent folder |
| `Store.Store.SaveFile` | internal/store/files.go:56-105 | result and store equal the specified upload |
| `FileMeaning.SaveMeaning` | internal/store/files.go:56-105 | accepted iff the owner's bytes with it stay within the quota and all bytes within the cap; then record and contents are stored, and otherwise nothing |
| `FileMeaning.UsedMeaning` | internal/store/files.go:76-98 | the bytes in use are sums of sizes: for the quota over the owner's exact spelling, for the cap over all, for the statistics over all spellings |
| `Store.Store.AuthorizeFileDownload` | internal/store/files.go:138-157 | the loop over the list decides as specified |
| `AccessLaws.AuthorizeMeaning` | internal/store/files.go:138-157 | ok iff the file is stored, the code is its own, and the requester is its owner or on its list in some spelling; otherwise the same error whatever is wrong |
| `AccessLaws.DownloadsExactly` | internal/store/files.go:138-157 | in every run a download succeeds iff the file lives, the code is its own, and the requester was its owner or on its list at the upload or was named by a message that attached it since |
| `Store.Store.DeleteFile` | internal/store/files.go:400-416 | result and store equal the specified deletion |
| `FileMeaning.DeleteMeaning` | internal/store/files.go:400-416 | the owner in any case removes exactly that file and its contents; anyone else gets the error of a missing file and changes nothing |
| `Store.Store.ExtendFile` | internal/store/files.go:418-445 | result and store equal the specified renewal, and the file then expires exactly after the time returned |
| `FileMeaning.ExtendMeaning` | internal/store/files.go:418-445 | the owner in any case sets that file's time to now and nothing else; anyone else changes nothing |
| `Store.Store.CleanupUpdate` | internal/store/files.go:179-193 | removes both halves of whatever the first transaction saw |
| `Store.Store.CleanupExpiredFiles` | internal/store/files.go:161-195 | uninterrupted, it removes the expired set and returns its size |
| `Store.Store.AccountFileStats` | internal/store/files.go:457-475 | the loop's three figures are the bytes, the files, and the files that expire soon, of the owner |
| `FileMeaning.StatisticsMeaning` | internal/store/files.go:457-475 | counted are the files whose owner folds to the given one, and of these as expiring those whose thirty days end after now and within a week |
| `FileMeaning.SoonMeaning` | internal/store/files.go:165-195 | those are the files that a sweep leaves now and any sweep later than a week from now takes, but for one whose time ends this very second |
| `StoreRuns.RunSound` | internal/store/message.go:87-162 | in every run of the fourteen write transactions, team registration and the repair of account keys included: uuids are unique, every entry belongs to an account that lookups find, entries resolve, replies are well-founded, files and contents pair up, recipients have access |
| `StoreRuns.StepSound` | internal/store/files.go:204-345 | each of these transactions keeps that |
| `StoreLaws.RecipientsAuthorized` | internal/store/files.go:138-157 | in every reachable state, whoever holds a message in the inbox can download each live attachment with the embedded code |
| `StoreLaws.AccessGrows` | internal/store/files.go:255-288 | owner and code of a live file never change and nobody loses access |
| `StoreLaws.MailboxesConsistent` | internal/store/message.go:109-162 | in every reachable state unread is within inbox, every entry resolves under its own id, and the reply relation is well-founded |
| `StoreLaws.MarkersStep` | internal/store/message.go:604-633 | per account, a transaction's marks are the old ones, less its own clearing, plus its new mail |
| `StoreLaws.InboxOnlyGrows` | internal/store/message.go:127-152 | no run removes an inbox entry, which is what a chain of waits assumes of successive polls |
| `StoreLaws.RunExtends` | internal/store/message.go:109-162 | no run changes or removes a stored message, an entry of an inbox or a sent folder, or the uuid that an address finds |
| `StoreLaws.MarkAllReadLeaves` | internal/store/message.go:876-916 | whatever runs between the two transactions, exactly the unread mail that came since the snapshot remains, and others' marks are untouched |
| `StoreLaws.ReadStaysRead` | internal/store/message.go:604-633 | mail once read never becomes unread again |
| `StoreLaws.DeliveryMeaning` | internal/store/message.go:127-161 | inbox and unread entries go to exactly the accounts under lowercase keys that To or CC name in some spelling, the sent entry to the sender; nothing else moves |
| `StoreLaws.OneCopyEach` | internal/store/message.go:133-152 | as many new inbox entries as distinct lowercased valid addresses |
| `StoreLaws.SendsCompared` | internal/store/files.go:197-203 | the two ways to send agree iff somebody can be reached; otherwise both fail and only one leaves the store alone, with the exact exceptions |
| `FileLaws.QuotasKept` | internal/store/files.go:76-98 | in every run with fixed limits each owner stays within the quota and all files within the cap |
| `FileLaws.StatisticsExact` | internal/store/files.go:457-475 | the statistics never show less than the quota counts, and the same iff no file of non-zero size that folds to the owner is spelled differently from the account |
| `FileLaws.StatisticsWithinQuota` | internal/store/files.go:457-475 | in every run what the quota counts stays within it, and the statistics show that iff the owner's files are spelled as the account is, which lowercase owners guarantee |
| `FileLaws.TwoSpellingsTwoQuotas` | internal/store/files.go:86-90 | a run of two accepted uploads under two spellings of one owner, after which the statistics show twice the quota |
| `FileLaws.ContentsPaired` | internal/store/files.go:99-102 | metadata and contents are in bijection, with the recorded sizes |
| `FileMeaning.ContentsKept` | internal/store/files.go:99-102 | in every run, while a file lives its contents are the bytes uploaded, and of its record only the list and the time can have changed |
| `FileLaws.SweepExact` | internal/store/files.go:161-195 | an uninterrupted sweep removes exactly the files past the time to live, contents included, and changes no other |
| `FileLaws.SweepInterleaved` | internal/store/files.go:161-195 | whatever runs between the two transactions of the sweep, exactly the files that had expired at the first are gone with their contents, renewed or not |
| `ThreadPage.Page.RenderThreadDetail` | internal/server/static/threads.js:195-247 | the page gains the rendering of the messages in stable chronological order |
| `ThreadPage.Page.Walk` | internal/server/static/threads.js:215-245 | the recursive walk terminates on any reply relation and appends the specified lines, striking off placeholders |
| `ThreadPage.Buckets` | internal/server/static/threads.js:201-206 | each message is under its visible parent, or else under the root marker |
| `ThreadPage.ChronologicalMeaning` | internal/server/static/threads.js:202-202 | the same messages by arrival time |
| `ThreadPage.ChronologicalStable` | internal/server/static/threads.js:202-202 | messages that arrived together keep their order |
| `ThreadViewLaws.ShownOnce` | internal/server/static/threads.js:195-247 | a message is shown once if visible parents lead from it to a root, and otherwise not at all |
| `ThreadViewLaws.EverythingShown` | internal/server/static/threads.js:195-247 | on a mailbox the store can reach, every visible message is shown exactly once |
| `TopicPanel.OpenedTopicIsComplete` | internal/server/static/threads.js:250-260 | opening any visible message of a sound mailbox renders exactly the messages that reply links connect with it, each once |
| `ThreadOrder.PlaceMeaning` | internal/server/static/threads.js:215-243 | a row stands in the first column iff its message replies to nothing visible, and otherwise below the row of the message it replies to, a step further in iff that has two visible replies; a placeholder precedes exactly the replies to messages out of sight |
| `ThreadOrder.ShownAsTree` | internal/server/static/threads.js:215-245 | rows come as a tree is read: a message before its replies, and all that hangs on an older reply before what hangs on a younger one |
| `PushDelivery.Delivery.NotifyRecipient` | internal/server/pushsend.go:64-72 | silent arrivals are counted, others aggregated, as the first read of the window decides |
| `QuietHours.ActiveMeaning` | internal/store/pushsubs.go:137-147 | a stored window is active iff it is switched on and the minute is one of those from its start up to its end, over midnight if need be |
| `PushLaws.SilentArrivalCounted` | internal/server/pushsend.go:64-72 | an arrival in such a minute raises its account's count by one, with the summary timer armed, and moves no flush, sender or other count |
| `PushLaws.OtherArrivalAnnounced` | internal/server/pushsend.go:64-72 | any other arrival, as under a window switched off, leaves counts and summary timers alone; its sender is remembered with a flush under way, set for 60 seconds later if it is the first |
| `PushDelivery.Delivery.AggregateOrPush` | internal/server/pushsend.go:77-84 | arms one flush per account and remembers the sender |
| `PushDelivery.Delivery.FlushAggregated` | internal/server/pushsend.go:86-91 | under the mutex: forgets the flush and decides on a push with the remembered sender, still to be sent |
| `PushDelivery.Delivery.EnqueueDigest` | internal/server/pushsend.go:100-119 | counts, and arms or resets the one summary timer |
| `PushDelivery.Delivery.FlushDigest` | internal/server/pushsend.go:121-129 | under the mutex: empties the count and decides on a summary iff it was positive, still to be sent |
| `PushDelivery.Delivery.SendToSubs` | internal/server/pushsend.go:93-94 | a push decided on goes once, at whatever time its job gets to it |
| `PushDelivery.RunSound` | internal/server/pushsend.go:75-132 | under every interleaving of arrivals, timers, critical sections and sends, a sender is remembered iff exactly one flush is under way, and a count has a summary under way |
| `PushLaws.SilentConserved` | internal/server/pushsend.go:100-132 | silent arrivals equal those that the summaries gone have reported, plus those in summaries still to be sent, plus the current count |
| `PushLaws.SilentIsScheduled` | internal/server/pushsend.go:113-118 | a nonzero count always has an armed timer or a started flush |
| `PushLaws.SummaryDueAtClose` | internal/server/pushsend.go:104-118 | each silent arrival moves the summary to the end of its window, which is when the silence ends except after midnight in a wrapping window |
| `PushLaws.PushMeaning` | internal/server/pushsend.go:86-132 | under the mutex an aggregated push takes the latest sender that no other announces; a summary takes all and only the arrivals that no other reports, gone or about to go, and is never empty |
| `PushLaws.SenderIsScheduled` | internal/server/pushsend.go:77-95 | an unannounced sender always has exactly one flush coming |
| `PushLaws.BurstDeadline` | internal/server/pushsend.go:75-95 | in every run a flush is pending iff a burst is open, is set for a minute after the first arrival of that burst, and does not start earlier |
| `PushLaws.AggregatedApart` | internal/server/pushsend.go:75-91 | aggregated pushes to one account are decided on at least 60 seconds apart |
| `PushSends.EachSentOnce` | internal/server/pushsend.go:91-131 | the pushes decided on are those still to be sent and those gone: each goes at most once and as decided |
| `PushSends.SendsApartIff` | internal/server/pushsend.go:75-95 | if no job takes longer than late seconds to send, the one decided on later goes at least gap seconds after the other in every run iff gap is at most 60 - late; so a full minute needs sending to take no time |
| `PushSends.LateRun` | internal/server/pushsend.go:86-95 | for every delay a run reaches that bound, changing the order once the delay is over a minute |
| `QuietHours.WaitMeaning` | internal/server/pushsend.go:104-112 | in an active window the wait is positive, ends at the window's end, and is the remaining silence iff not in the after-midnight half; there it is 1440 minutes too long |
| `QuietHours.Preferences.GetPushDND` | internal/store/pushsubs.go:149-159 | what is read always has both minutes within the day, which the waiting time rests on; an account without a stored window is never silent |
| `QuietHours.Preferences.SetPushDND` | internal/store/pushsubs.go:162-174 | stores a window iff both minutes are within the day, so that every stored window is |
| `SlidingLimiter.RegLimiter.Allow` | internal/server/ratelimit.go:29-64 | decides as the limiter that keeps the whole history would |
| `SlidingLimiter.AcceptedExactly` | internal/server/ratelimit.go:29-46 | with a positive limit an attempt is accepted iff fewer than limit attempts of its address were accepted in the window before it |
| `SlidingLimiter.RegLimiter.Cleanup` | internal/server/ratelimit.go:47-62 | the sweep over all keys, in any order, cannot be observed |
| `SlidingLimiter.SlidingBound` | internal/server/ratelimit.go:29-46 | with a fixed positive limit every sliding window holds at most limit accepts |
| `FixedWindow.RateLimits.CheckSendRate` | internal/server/server.go:107-123 | charges one to the account's hourly window |
| `FixedWindow.RateLimits.CheckRecvRate` | internal/server/server.go:127-141 | charges the body's bytes |
| `FixedWindow.RateLimits.AllowFileOp` | internal/server/handlers_files.go:106-120 | charges one to the file-operation window |
| `FixedWindow.AcceptedExactly` | internal/server/server.go:107-141 | a call is accepted iff it fits into the limit with what was granted since the call that opened its window, which is the first one 3600 seconds or more after the one before |
| `FixedWindow.AtMostPerWindow` | internal/server/server.go:107-141 | what has been accepted since the window opened is what it records, and never more than the limit |
| `FixedWindow.TwiceTheLimit` | internal/server/server.go:127-141 | any half-open hour sees at most twice the limit |
| `FixedWindow.TwiceReached` | internal/server/server.go:127-141 | and the byte limiter reaches it, for every limit |
| `FixedWindow.OneLessThanTwice` | internal/server/server.go:107-123 | limiters that count calls see at most one less than twice the limit |
| `FixedWindow.OneLessReached` | internal/server/server.go:107-123 | and reach that, for every limit |
| `Watch.WaitForNewMail` | internal/gateway/tools.go:606-664 | the polling loop returns what the first poll with new mail determines, or the unchanged baseline, or nothing if the baseline read or a poll fails first |
| `Watch.WaitMeaning` | internal/gateway/tools.go:619-664 | the first poll with a newer message answers with all its newer messages in order, the first id it shows, and whether it shows fifty; without one the reply is empty and last_seen_id unchanged |
| `Watch.FreshIsNewest` | internal/gateway/tools.go:623-633 | a poll delivers the newest of the messages newer than the baseline, at most fifty |
| `WatchLaws.ServerAnswers` | internal/store/message.go:487-551 | the server's first page of fifty is what a poll is taken to answer: the newest ids of the inbox at the time of the index read, each with its row from a later transaction |
| `WatchLaws.NothingSkippedSilently` | internal/gateway/tools.go:634-647 | with at most fifty newer messages all are delivered, and if one is skipped the reply says so |
| `WatchLaws.LastSeenMonotone` | internal/gateway/tools.go:635-656 | over a chain of calls last_seen_id never decreases |
| `WatchLaws.NothingTwice` | internal/gateway/tools.go:626-647 | over a chain no message is delivered twice |
| `ChainLaws.DeliveredIff` | internal/gateway/tools.go:606-664 | a chain delivers a message iff the first call whose ending poll shows it finds it among the newest fifty of what is newer than that call's baseline |
| `ChainLaws.DeliveredIfNewer` | internal/gateway/tools.go:606-664 | if no reply said more: iff it is newer than that baseline |
| `ChainLaws.LostIffLate` | internal/gateway/tools.go:628-656 | if no reply said more, nothing newer than the start is lost iff nothing newer than the start first shows up at or below the baseline of its call |
| `ChainArrivals.NothingLost` | internal/gateway/tools.go:606-664 | from a known start, if ids grow with arrival and no reply said more, the chain has delivered exactly what is newer than its start |
| `ChainArrivals.EmptyStartIff` | internal/gateway/tools.go:606-616 | from an empty start, on inboxes where ids grow with arrival and if no reply said more, everything that arrives is delivered iff no call that is still without a last_seen_id baselines on an arrival |
| `ChainArrivals.StartOnMail` | internal/gateway/tools.go:606-616 | an empty start on an inbox with mail is the start from its newest message |
| `ChainWitnesses.LateNeverDelivered` | internal/gateway/tools.go:628-656 | a message that shows after a greater id has shown is never delivered, whatever comes before and after |
| `ChainWitnesses.LateSmallerIdMissed` | internal/gateway/tools.go:628-632 | two calls that lose such a message, with no reply saying that there may be more |
| `ChainWitnesses.EmptyStartMisses` | internal/gateway/tools.go:606-616 | two calls from an empty start that lose an arrival, the second having baselined on it |

## Left out

- HTTP routing, JSON, bbolt's own pages, bcrypt, SHA-256, web push sending, MCP transport and the command mains: I/O or
  libraries that are not part of this model. Stored records are taken to decode.
- Push payloads carry an unread count read after the mutex is released; the model leaves that count out, and an error of
  the second read of the quiet window appears as the disabled window.
- The texts of the removal notice are parameters, and so are the settings for quotas and limits.
- Account fields other than uuid, address, signature, display spelling and creation time; changing the display spelling
  later; and account deletion, which the store lacks.
- `EnsureAdmin` and `BootstrapSystem` create one account under a lowercased address, as creating an account does.
- `SubordinatesOf` and `SuperiorsOf` list addresses; scope, time and signature ride along in the code.
- Superseded listings (`ReadThread`, `ListContacts`, growth charts, the all-accounts view): they repeat the scans
  modelled here or make no claim that holds.
- Session tokens, gateway access codes, display and showcase settings, the remaining panel code and the Android client:
  small lifetimes or user interface.
- Overview.MgmtSubsOverviewWindow: takes the subordinate list, the messages and the read stamps as inputs, and asks that
  the reader's and the subordinates' addresses are not empty, as sessions and declarations guarantee.
- Watch.WaitForNewMail: time is the number of polls before the call ends; the two-second ticker itself is not modelled.
  A call that fails leaves the caller with its old `last_seen_id`, so chains are made of the calls that do not.
- PushDelivery.Delivery.SendToSubs: one send stands for the sends to all subscriptions of the account.
- Store.Store.RegisterTeam: passwords and their hashes, and the handler's checks on names, are left out.
- ThreadPage.Page.RenderThreadDetail: a line keeps the message's id and indentation; header, preview and escaping are
  left out, and ids are distinct and not empty.
- UlidLaws.TimeOrdered: identifiers of one millisecond are ordered by their random bytes only, as in the code.
- Case folding beyond ASCII and clocks that run backwards.
