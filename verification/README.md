# b1gMailServer: verified models of its protocols and queues

This project models the parts of b1gMailServer whose correctness spans many steps: the
synchronisation of an IMAP client with a mailbox that other processes change, the life of a
message in the delivery queue with its worker threads, the dispatcher of push notifications,
streaming MD5, Base64, the counter of failed logins, the folder tree and the parser of
parenthesised lists. Code that works step by step is a class or a method with loops, proved
against functions on values; what the code is for is proved about those functions.

Verify everything with `dafny verify dfyconfig.toml`.

| file | what it models |
|---|---|
| `Options.dfy`, `Sets.dfy` | a value that may be missing; sizes of sets |
| `ImapMessages.dfy` | messages, untagged lines, and the view a client builds from them |
| `ImapDelta.dfy` | `ReportDelta` |
| `ImapFetch.dfy` | the UID table and the reading of a message list |
| `ImapSession.dfy` | one session as a state machine over commands and database changes |
| `ImapFresh.dfy`, `ImapAppend.dfy` | whether a list that was read is still current; what APPEND does to the view |
| `ImapCommands.dfy` | the session object, EXPUNGE on list and database |
| `ImapReach.dfy` | what holds of the lists of all sessions that can be reached |
| `ImapOutcome.dfy`, `ImapEffects.dfy` | which commands look at the database, which messages they treat, and what they leave there |
| `ImapLists.dfy`, `ImapRecent.dfy` | what a list shows of a folder, when a refresh prints what, and the number of recent messages |
| `ImapSearch.dfy`, `ImapNumbers.dfy` | the one-pass evaluation of SEARCH, and the numbers it prints |
| `ImapFolders.dfy` | the walk over the folder table |
| `ImapParse.dfy` | `ParseList` |
| `ThreadPool.dfy`, `PoolRuns.dfy`, `JobPool.dfy` | the thread pool: interleavings, whole runs, and the object |
| `PoolOutcome.dfy` | when the pool grows, who is woken, and who takes which job |
| `MsgQueue.dfy`, `MsgHistory.dfy`, `MessageQueue.dfy` | the message queue: actions, whole histories, and the object |
| `MsgRetry.dfy` | the pace of the retries, and how many there can be |
| `QueueOutcome.dfy` | what becomes of a message, in terms of its dates, attempts and results |
| `Apns.dfy`, `ApnsOutcome.dfy` | the dispatcher of push notifications; its turns and its order |
| `Md5.dfy`, `Base64.dfy`, `Failban.dfy` | MD5 streaming, Base64, failed logins |

## What the code does and what it does not

Each of these is proved, as an exact condition where there is one.

- A client that replays the printed lines always ends with the server's list, however the
  database changed (`RunKeepsStep`). The messages expunged are exactly those that left if and
  only if no added UID lies below a UID that stays (`ExpungedExactly`, `ExpungedTooMuch`).
- Over the message limit, which the administrator or the user sets, one message too few is
  kept, and a message can come back from below the limit. Exactly then, unless no message
  stays, a message that never left is expunged (`ArrivalsExpungeExactly`,
  `LimitExpungesSurvivor`).
- Writers change rows first and raise the generation later, so for that while a list can be out
  of date unnoticed (`PendingWriteUnseen`). Otherwise the UIDs of a refreshed list and, but for
  the seen bit, its flags are current as long as the generation stays
  (`RefreshedListIsCurrent`). The seen bit is left out because reading a folder sets it without
  a new generation (`ReadingMarksSeen`). SELECT reads the list before the generation, and its
  list is current only if nothing changed between the two (`SelectedListIsCurrent`,
  `SelectMissesArrival`).
- After a SELECT that fails a mailbox is open exactly if one was open before
  (`FailedSelectKeepsOpen`), although section 6.3.1 of RFC 3501 wants none to be; the model
  follows the code.
- APPEND to the open mailbox replaces the list without a word, and every view of it is wrong as
  long as the message limit is not exceeded (`AppendBreaksView`). A later refresh repairs the view exactly if the appended messages
  follow the survivors unchanged and something else has gone or arrived (`RepairedIff`).
- CLOSE leaves the mails alone exactly if none of them is flagged deleted in the list, whether or
  not the mailbox was opened by EXAMINE (`CloseDeletesIff`). So EXAMINE, STORE and CLOSE delete
  (`ExamineCloseDeletes`), which section 6.4.2 of RFC 3501 forbids; the model follows the code.
- EXPUNGE prints no RECENT, so a client goes on knowing the number of recent messages exactly if
  none of those removed was recent (`ExpungeHeardIff`). Over runs without EXPUNGE, and without a
  STORE that sets or clears the recent flag, it always knows it (`RunKnows`).
- The space freed by EXPUNGE is cut to a C int, which goes wrong from two gigabytes on
  (`ChargeExact`, `ChargeGrows`).
- SEARCH decides about each message rightly exactly for keys of a certain shape; OR inside OR, NOT
  before OR and NOT NOT are outside (`SearchCorrectIffExact`). The numbers it prints do not come
  from the list but from the table, counted by mail id. They are those of the list exactly if the
  list holds the same mails in the order of their mail ids (`SearchNumbersIff`,
  `UnlimitedSearchIff`), so a mail moved in from another folder can make a number denote another
  message (`SearchNamesAnother`); over the message limit they never are (`LimitedSearchWrong`).
- A parsed list gives its elements back exactly if their brackets balance (`ListBackIff`); the
  empty list is read as one empty element (`EmptyList`).
- Folder names give their ancestors back unless the folder at the top has an empty name
  (`NamesBackIff`).
- A worker waits without looking at the queue, so the signal for a job can be given before
  anyone waits for it; the job then stays queued until the next signal or timeout
  (`SignalLost`). That a job is left with nobody attending to it happens in this way only
  (`UnattendedIff`). Stop wakes everyone, so stopping is not affected (`NeverStuck`).
- A thread that takes a job without having waited is not counted as busy, so the pool can have
  all its threads at work and room for another, and yet not grow for the next job
  (`FirstJobUncounted`); it grows exactly if as many workers are marked busy as there are threads,
  or as many jobs are waiting (`GrowsByMarks`).
- The pool's busy counter can stay too high for good when a dynamic thread ends
  (`BusyCounterLeaks`, `BusyExactIff`).
- A retry waits longer each time, by an amount that grows with the attempts, until the lifetime
  of the message is over; a flush by the administrator saves at most one of these waits
  (`RetryBoundAlways`).
- A bounce for which no temporary file can be made leaves an active row behind that nobody
  holds; that is the only way in which shutdown leaves one (`ShutdownLeavesNothing`).
- Push notification ids are cut to 16 bits on the wire, so from id 65536 on a rejected message
  is not recognised (`ReportedIdIff`), and the replay after it goes wrong unless it was the
  last one sent (`RejectionExactIff`). A rejection of an id that is not in the buffer drops
  the whole buffer (`NothingReplayedIff`).
- The modified Base64 alphabet loses every comma (`ModifiedRoundTripIff`).

## Model

| member | source | states |
|---|---|---|
| ImapDelta.DeltaReplay | src/imap/imaphelper.cpp:56-146 | any client in agreement with any old list can replay all lines and ends in agreement with any new list, still knowing all survivors if it knew all messages |
| ImapDelta.ExpungeReplay | src/imap/imaphelper.cpp:61-105 | the EXPUNGE lines alone turn the old view into that of the survivors under their final numbers and touch nothing before them |
| ImapDelta.FlagReplay | src/imap/imaphelper.cpp:107-130 | the FETCH lines make the flags of every survivor right |
| ImapDelta.SurvivorFlagsReported | src/imap/imaphelper.cpp:124-129 | every survivor whose flags changed gets a FETCH under its final number |
| ImapDelta.SurvivorsMatch | src/imap/imaphelper.cpp:107-122 | survivors have the UIDs of the front of the new list and consecutive numbers; one EXPUNGE for every message gone |
| ImapDelta.ExpungedExactly | src/imap/imaphelper.cpp:61-105 | for two lists ascending in UID, the messages expunged are those missing from the new list if and only if no added UID lies below one that stays |
| ImapDelta.ExpungedTooMuch | src/imap/imaphelper.cpp:61-89 | a concrete pair of lists for which a message that stays is expunged |
| ImapDelta.ReportDelta | src/imap/imaphelper.cpp:56-146 | for numbered lists the two internal-error branches are unreachable, the old list is cut down to the survivors, and the lines are those of the specification |
| ImapLists.DeltaSilentIff | src/imap/imaphelper.cpp:56-146 | nothing is printed if and only if the same messages are there with the same flags |
| ImapLists.DeltaPrintsIff | src/imap/imaphelper.cpp:107-130 | a survivor gets a FETCH if and only if its flags are other ones now |
| ImapLists.ExistsPrintedIff | src/imap/imaphelper.cpp:132-137 | EXISTS is printed, with the new size, if and only if the UIDs are not the same as before |
| ImapRecent.CountRecentIs | src/imap/imaphelper.cpp:1159-1175 | the messages counted as recent are those without flag 32 |
| ImapRecent.DeltaHeard | src/imap/imaphelper.cpp:139-145 | a refresh tells the number of recent messages exactly if it is another one |
| ImapRecent.SelectHeard | src/imap/auth.cpp:324-328 | after SELECT the client knows the number of recent messages of the list |
| ImapRecent.ExpungeHeardIff | src/imap/selected.cpp:1856-1860 | after EXPUNGE a client that knew the number still does if and only if no message removed was recent |
| ImapRecent.RunKnows | src/imap/imap.cpp:293-560 | over every run without EXPUNGE and without a STORE of the recent flag, the last RECENT is the number of recent messages of the list |
| ImapDelta.ExpungeUntil | src/imap/imaphelper.cpp:69-85 | the inner loop erases and renumbers up to the expected message; printed and still expected lines make up the whole |
| ImapDelta.CutTail | src/imap/imaphelper.cpp:90-105 | everything past the new size is erased, always under the same number |
| ImapFetch.UidTable.AddUID | src/imap/imaphelper.cpp:148-174 | a mail without a UID gets the next one, any other keeps its own |
| ImapFetch.UidsPermanentAndRising | src/imap/imaphelper.cpp:148-174 | over all runs UIDs never change, are never shared, and new ones are above all earlier ones (section 2.3.1.1 of RFC 3501) |
| ImapFetch.FetchedFacts | src/imap/imaphelper.cpp:683-736 | the list is ascending in UID and numbered from one, complete without a limit, and the newest limit - 1 messages when the limit is exceeded |
| ImapLists.ListedMail | src/imap/imaphelper.cpp:683-736 | every message of the list is a mail of the folder, with its flags and size, under its UID in the table |
| ImapLists.WholeFolder | src/imap/imaphelper.cpp:683-736 | without a limit every mail of the folder is in the list |
| ImapFetch.ArrivalsExpungeExactly | src/imap/imaphelper.cpp:658-737 | between two reads of a folder with any limit, new mails being new to the UID table, exactly the messages that left the list are expunged if and only if none comes back from below the limit or none stays; without a limit or within it none comes back |
| ImapFetch.LimitExpungesSurvivor | src/imap/imaphelper.cpp:725-727 | with a limit, a message that never left is expunged |
| ImapFetch.FetchMessages | src/imap/imaphelper.cpp:658-737 | the loops read, sort, cut and number exactly as specified, and mark what has not been seen unless the mailbox is read-only |
| ImapSession.RunKeepsStep | src/imap/imap.cpp:293-560 | over every run of commands without APPEND and with arbitrary database changes the client can replay all lines without a breach of sections 7.3.1 and 7.4.1 of RFC 3501, and its view agrees with the server's list |
| ImapSession.StepKeepsStep | src/imap/imap.cpp:314-340 | the same for one command: refresh, then the command |
| ImapSession.IdleKeepsStep | src/imap/auth.cpp:682-696 | the same for any number of polls in IDLE |
| ImapOutcome.PollingReads | src/imap/imap.cpp:314-332 | NOOP, SEARCH by UID and every other command that is neither by number, nor IDLE, nor LOGOUT takes over list and generation once the generation has changed, and prints the difference |
| ImapOutcome.WorkReads | src/imap/imap.cpp:314-332 | EXPUNGE, CLOSE, SELECT, and FETCH and STORE by UID do their work on the list as it is in the database by then |
| ImapOutcome.NumbersStay | src/imap/imap.cpp:314-317 | FETCH, STORE and SEARCH by number and LOGOUT leave list and generation as the client knows them |
| ImapOutcome.NothingOpen | src/imap/imap.cpp:318-322 | outside a mailbox nothing is read or printed; a login succeeds once, with a user id above zero |
| ImapOutcome.IdleReads | src/imap/auth.cpp:682-696 | after the polls of IDLE the list is that of the last poll at which the generation had changed |
| ImapOutcome.IdleSilent | src/imap/auth.cpp:682-696 | if it never changed nothing is printed |
| ImapOutcome.IdleLooksAtPolls | src/imap/imap.cpp:314-317 | IDLE looks at its polls only, not before |
| ImapOutcome.PollIsCurrent | src/imap/imap.cpp:314-332 | after a NOOP that found another generation the list is current at any later moment with that generation and nothing pending |
| ImapSession.SelectReplay | src/imap/auth.cpp:320-328 | the lines of SELECT build a view in agreement with the new list |
| ImapSession.WalkBoxReplay | src/imap/selected.cpp:982-1425 | the lines of FETCH and STORE are true of the list when they are printed and leave the view in agreement with the list they leave |
| ImapOutcome.StoreTreats | src/imap/selected.cpp:1716-1752 | STORE gives the new flags to exactly the messages whose number, or whose UID, lies in one of the ranges |
| ImapOutcome.StoreAnswers | src/imap/selected.cpp:1716-1778 | one line with the new flags for each of those, under its number, and no other; a silent STORE sends none |
| ImapOutcome.FetchTreats | src/imap/selected.cpp:982-1418 | FETCH clears the unread flag of exactly the messages of the set that can be opened, without PEEK and outside EXAMINE |
| ImapOutcome.FetchAnswers | src/imap/selected.cpp:982-1425 | what was asked for each of those, and the new flags of those that were unread and have been read |
| ImapOutcome.AsReadIs | src/imap/selected.cpp:1415 | reading takes flag 1 away and no other |
| ImapSession.StoreMeaning | src/imap/selected.cpp:1710-1768 | which flags are on after FLAGS, +FLAGS and -FLAGS, flag by flag, for every list of names in any order |
| ImapEffects.FlagBits | src/imap/imaphelper.cpp:952-985 | which bit each flag name stands for; seen and recent are on when their bit is off |
| ImapEffects.ShownIff | src/imap/imaphelper.cpp:952-985 | two flag values are shown alike if and only if they agree in the six flags that have names |
| ImapSession.ExpungeBoxReplay | src/imap/selected.cpp:1856-1860 | the EXPUNGE numbers printed one after the other give the client the list of undeleted messages |
| ImapSession.UndeletedFacts | src/imap/selected.cpp:1815-1864 | exactly the messages not flagged deleted remain, in order, numbered from one; one line for each of the others |
| ImapSession.NoExpungeDuringWalk | src/imap/imap.cpp:314-317 | no EXPUNGE is printed while FETCH, STORE or SEARCH by number is answered (section 7.4.1 of RFC 3501) |
| ImapAppend.AppendBreaksView | src/imap/auth.cpp:242-246 | after an APPEND to the open mailbox, whose list was current, every view is wrong unless the limit is exceeded, and that of a fully informed client always except with a limit of one |
| ImapAppend.RepairedIff | src/imap/imap.cpp:321-332 | a client that does not know of the appended messages can replay a later refresh into agreement if and only if they follow the survivors with unchanged flags and something else has gone or arrived |
| ImapAppend.AppendRepairedIff | src/imap/auth.cpp:242-246 | the same for the very list that APPEND leaves when there is no limit: the old list and one more message |
| ImapFresh.RefreshedListIsCurrent | src/imap/imap.cpp:318-332 | rows being changed before the generation is raised: whenever nothing is pending and the generation is the one read before the list, the list has the UIDs and, but for the seen bit, the flags that reading again would give |
| ImapFresh.SelectedListIsCurrent | src/imap/auth.cpp:320-322 | list read before the generation: whenever nothing is pending and the generation is unchanged, the list is current in UIDs and, but for the seen bit, flags if the folder had the same mails and flags at both readings, and without a limit only if |
| ImapFresh.SameViewSameShape | src/imap/imaphelper.cpp:658-737 | a folder with the same mails and flags gives the same list at any later read, seen bits aside |
| ImapFresh.SelectMissesArrival | src/imap/auth.cpp:320-322 | a mail that arrives between the two reads is not announced, although its writer has raised the generation |
| ImapFresh.PendingWriteUnseen | src/imap/auth.cpp:197-218 | between a change and the raising of the generation a list is out of date with the generation unchanged |
| ImapFresh.SameMailsSameUids | src/imap/imaphelper.cpp:658-737 | the same mails are listed with the same UIDs in the same order at any later read |
| ImapCommands.PurgeFacts | src/imap/selected.cpp:1829-1836 | EXPUNGE removes exactly the rows of flagged mails and, no mail being listed twice, adds up the sizes of those that were really there |
| ImapReach.FreedExactly | src/imap/selected.cpp:1829-1836 | the same in every session that can be reached, in which no mail is listed twice |
| ImapEffects.DeletesExactly | src/imap/selected.cpp:1803-1897 | EXPUNGE and CLOSE, and LOGOUT if that is configured, delete exactly the mails that the list shows with flag 8 |
| ImapEffects.SelectDeletes | src/imap/auth.cpp:306-312 | so does SELECT from an open mailbox if that is configured, before it reads |
| ImapEffects.ExpungeRaises | src/imap/selected.cpp:1865-1866 | the generation goes up by one exactly if a message was flagged |
| ImapEffects.SpaceFreed | src/imap/selected.cpp:1868-1872 | below two gigabytes the user is charged the sizes of the flagged messages less, never below zero |
| ImapReach.RunDistinct | src/imap/imaphelper.cpp:658-737 | no run of commands lists a mail twice if every database read has its keys |
| ImapCommands.ChargeExact | src/imap/selected.cpp:1868-1872 | the user is charged the freed space less, never below zero, if and only if it is under two gigabytes or even the cut value covers all that was used |
| ImapCommands.ChargeGrows | src/imap/selected.cpp:1868-1872 | freeing two gigabytes makes the charge grow |
| ImapCommands.Imap.DeleteFlagged | src/imap/selected.cpp:1815-1864 | the loop that starts over after each deletion ends, with the list, the lines, the rows and the freed space of the specification |
| ImapCommands.Imap.ExpungeMessages | src/imap/selected.cpp:1803-1879 | the whole command: list, output, rows, charge, and a new generation exactly if something was deleted |
| ImapCommands.Imap.WalkMessages | src/imap/selected.cpp:1716-1778 | the loop of FETCH and STORE changes the list, prints, and writes flags and generation to the database as specified, message by message |
| ImapCommands.WalkWritesThrough | src/imap/selected.cpp:1415-1418 | for every message whose flags were written the table of mails then holds the flags of the list; all other listed mails are as they were |
| ImapEffects.StoreWrites | src/imap/selected.cpp:1716-1778 | the table gets the new flags for exactly the messages in one of the ranges |
| ImapEffects.FetchWrites | src/imap/selected.cpp:1413-1418 | the table loses the unread flag for exactly the messages that had it and were read |
| ImapEffects.WalkLeaves | src/imap/selected.cpp:1415-1418 | mails that are not in the list, and everything but flags, stay; the generation goes up by one for each message written |
| ImapReach.WrittenExactly | src/imap/selected.cpp:1415-1418 | the same in every session that can be reached |
| ImapCommands.ReadingMarksSeen | src/imap/imaphelper.cpp:713-718 | reading a folder that is not read-only sets the seen bit of each of its mails and changes nothing else |
| ImapEffects.PollingWrites | src/imap/imap.cpp:318-332 | a NOOP that finds another generation leaves new UIDs and, outside EXAMINE, flag 32 on the mails of the folder; any other NOOP leaves nothing |
| ImapEffects.SelectMarks | src/imap/imaphelper.cpp:713-718 | SELECT sets flag 32 on the mails of the folder, EXAMINE does not |
| ImapEffects.ReadingOrder | src/imap/auth.cpp:320-322 | a refresh reads the generation before the list, SELECT the list before the generation |
| ImapCommands.Imap.RefreshList | src/imap/imap.cpp:318-332 | one refresh on the object is the refresh of the state machine, also when others write between its two reads, with its UIDs and seen marks in the database |
| ImapCommands.Imap.Select | src/imap/auth.cpp:265-360 | SELECT and EXAMINE on object and database, with the silent expunge of the mailbox left, with writes of others between its two reads, and with the failing case; list and generation are those of the database at the two reads |
| ImapReach.FailedSelectKeepsOpen | src/imap/auth.cpp:293-303 | after a SELECT or EXAMINE that fails a mailbox is open exactly if one was before, and it is the same one |
| ImapCommands.Imap.Close | src/imap/selected.cpp:1884-1897 | CLOSE prints nothing, deletes rows and charges as EXPUNGE does, and leaves an authenticated session without a list |
| ImapReach.CloseDeletesIff | src/imap/selected.cpp:1884-1897 | CLOSE leaves the mails alone if and only if none of them is flagged deleted in the list, read-only or not |
| ImapReach.ExamineCloseDeletes | src/imap/selected.cpp:1884-1897 | EXAMINE, STORE of the deleted flag and CLOSE delete the only mail of a folder |
| ImapCommands.Imap.Logout | src/imap/imap.cpp:270-288 | LOGOUT from any state; an open mailbox is expunged in list, rows and charge if that is configured |
| ImapCommands.Imap.WaitIdle | src/imap/auth.cpp:682-696 | the polling loop of IDLE, with any database at each reading of generation and list |
| ImapCommands.Imap.ProcessLine | src/imap/imap.cpp:293-560 | a command on the object is a step of the state machine on what it reads from the database, output and database included, with any writes of others between its reads |
| ImapSearch.SearchCorrectIffExact | src/imap/selected.cpp:409-621 | a message is judged by the conjunction of the keys for all outcomes of the atomic keys if and only if every key has a shape the two counters can read |
| ImapSearch.PlainSearchesAreExact | src/imap/selected.cpp:579-617 | the readable shapes include key, NOT key and OR of two possibly negated keys, and exclude NOT NOT, NOT before OR and OR inside OR |
| ImapSearch.PlainAnswers | src/imap/selected.cpp:579-617 | what a key, NOT key, OR of two keys and several keys together find |
| ImapSearch.ExactReads | src/imap/selected.cpp:579-617 | readable keys are read as their meaning, with or without a pending NOT |
| ImapSearch.Misread | src/imap/selected.cpp:579-617 | for every other key some outcome of the atomic keys is read wrongly |
| ImapSearch.Evaluate | src/imap/selected.cpp:411-618 | the loop over the search keys computes the machine's answer |
| ImapNumbers.SearchNumbers | src/imap/selected.cpp:340-636 | the loop over the rows, newest mail id first, and the output in reverse print the specified numbers |
| ImapNumbers.PrintedExactly | src/imap/selected.cpp:363-636 | a number is printed exactly if the row that has it matches, each once and in rising order |
| ImapNumbers.SearchNumbersIff | src/imap/selected.cpp:340-363 | the numbers are those of the client's list if and only if its first messages, as many as there are rows, are the mails of the rows in the order of their mail ids |
| ImapNumbers.UnlimitedSearchIff | src/imap/selected.cpp:352-363 | without a limit, and with the same mails in list and folder: if and only if mail ids rise along the list |
| ImapNumbers.LimitedSearchWrong | src/imap/selected.cpp:343-350 | when the limit is exceeded the numbers are never right, since one row more is read than the list has messages |
| ImapNumbers.SearchNamesAnother | src/imap/selected.cpp:340-363 | a mail of lower id moved in later: the number printed for a deleted mail is that of the other one |
| ImapFolders.FetchFolders | src/imap/imaphelper.cpp:1640-1745 | the list is INBOX, then exactly the folders whose chain of parents reaches the root, each once with its full name, then the four system folders; cycles included, it ends |
| ImapFolders.ListedRow | src/imap/imaphelper.cpp:1644-1708 | each listed folder is a row of the table, named by its title with hyphens for slashes, below a listed parent after that parent |
| ImapFolders.WalkFolders | src/imap/imaphelper.cpp:1677-1704 | the stack walk ends and lists every rooted folder once |
| ImapFolders.PathUnique | src/imap/imaphelper.cpp:1677-1704 | a folder has one chain of ancestors |
| ImapFolders.NamesBackIff | src/imap/imaphelper.cpp:1695-1697 | splitting the full name at slashes gives the ancestors' names if and only if the folder is at the top or its topmost ancestor has a name |
| ImapFolders.PathsClean | src/imap/imaphelper.cpp:1654-1656 | no name on a path has a slash in it |
| ImapParse.ListBackIff | src/imap/imaphelper.cpp:1417-1480 | the elements of a list come back if and only if each has balanced brackets, blanks only inside brackets and no carriage return |
| ImapParse.EmptyList | src/imap/imaphelper.cpp:1417-1480 | the empty list is read as one empty element |
| ImapParse.NestedList | src/imap/imaphelper.cpp:1417-1480 | brackets inside an element keep it together |
| ImapParse.ParseList | src/imap/imaphelper.cpp:1417-1480 | the loop reads what the specification reads |
| ThreadPool.JobsConserved | src/core/threadpool.cpp:132-328 | in every interleaving popped jobs are a prefix of the added ones, each is done or in one worker's hands, and the counters stay within their bounds |
| ThreadPool.StepKeeps | src/core/threadpool.cpp:76-328 | every step of every thread keeps conservation, order, counters and thread lists |
| ThreadPool.StoppedPool | src/core/threadpool.cpp:186-203 | when stop has joined all threads, all popped jobs are done and the others still queued in order |
| ThreadPool.StopProgress | src/core/threadpool.cpp:186-203 | once stop has begun, every step of a worker brings the threads nearer their end |
| ThreadPool.NeverStuck | src/core/threadpool.cpp:186-203 | once stop has begun, every worker that is not gone has a step of its own, relying on signals and broadcast only |
| ThreadPool.StuckIff | src/core/threadpool.cpp:227-265 | a worker has no step of its own exactly if it is gone, or static and waiting without a signal |
| PoolRuns.UnattendedStep | src/core/threadpool.cpp:132-149 | which single steps leave a job with nobody attending to it |
| PoolRuns.UnattendedIff | src/core/threadpool.cpp:220-285 | in every run a job is left with nobody attending to it if and only if the last attending worker went to sleep in popJob on a queue that was not empty, and nothing but threads on their way out has moved since |
| PoolRuns.SignalLost | src/core/threadpool.cpp:313-317 | a run after which the only worker sleeps unsignalled beside a queued job |
| PoolRuns.BusyCounterLeaks | src/core/threadpool.cpp:227-278 | a run after which the busy counter is too high for good |
| PoolRuns.BusyExactIff | src/core/threadpool.cpp:266-310 | in every run before stop the counter is the number of busy workers not on their way out if and only if no busy dynamic worker was ever sent to the queue without waiting and found it empty |
| JobPool.JobPool.AddToQueue | src/core/threadpool.cpp:132-149 | adding a job, growing by one thread when all are busy or the queue is longer than the threads are many, and signalling one waiting worker if there is one |
| PoolOutcome.AddGrowsIff | src/core/threadpool.cpp:132-149 | the pool grows by one ready dynamic thread if and only if it may and as many threads are counted busy, or as many jobs are waiting, as there are threads; one sleeper is woken if there is any |
| PoolOutcome.GrowsByMarks | src/core/threadpool.cpp:139-143 | with room for another thread: if and only if as many workers are marked busy, or as many jobs waiting, as there are threads listed |
| PoolOutcome.FirstJobUncounted | src/core/threadpool.cpp:266-277 | a run after which all threads are at work, and the next job waits although the pool may grow |
| PoolOutcome.WakeTakes | src/core/threadpool.cpp:266-280 | a woken thread takes the first job, counts as busy and wakes one more if jobs are left; without a job a dynamic one leaves |
| PoolOutcome.EnterTakes | src/core/threadpool.cpp:220-280 | a thread that need not wait takes the first job uncounted; any other one is no longer busy and sleeps |
| PoolOutcome.AfterJob | src/core/threadpool.cpp:288-328 | after a job the next one is taken without waiting exactly if there is one; once stopped the thread ends |
| PoolOutcome.StopWakes | src/core/threadpool.cpp:186-191 | stop wakes every sleeper, and a thread that comes to popJob afterwards takes no job |
| JobPool.JobPool.Shrink | src/core/threadpool.cpp:108-130 | all finished threads and no others are taken off the list |
| JobPool.JobPool.StartUp | src/core/threadpool.cpp:151-184 | as many threads as configured are created, listed and ready, none busy, and the queue is empty |
| JobPool.JobPool.PopJob | src/core/threadpool.cpp:220-285 | popJob up to the wait, or all of it |
| JobPool.JobPool.TakeJob | src/core/threadpool.cpp:266-280 | popJob after the wait, with the signal when there are more jobs |
| JobPool.JobPool.LookForMore | src/core/threadpool.cpp:313-317 | the look at queue and run flag after a job |
| JobPool.JobPool.Stop | src/core/threadpool.cpp:186-203 | under any scheduling stop returns with no thread left, all popped jobs done, what was popped or done before still so, and the rest queued in order |
| MsgQueue.BouncesAreNotBounced | src/msgqueue/bounce.cpp:24-164 | a saved result adds a row exactly if delivery has failed for good, the return path can be answered and the bounce can be enqueued; that row goes to the return path, has an empty one and can never be bounced (section 6.1 of RFC 5321) |
| QueueOutcome.KeptIff | src/msgqueue/msgqueue.cpp:611-706 | a message stays if and only if it failed, not for good, within its lifetime; it has one attempt more, was tried now and is inactive, and no other row changes |
| QueueOutcome.BouncedIff | src/msgqueue/bounce.cpp:24-45 | a bounce is made if and only if delivery failed for good or for too long, the return path has five characters and differs from the recipient not only in letter case, and it can be enqueued |
| QueueOutcome.SelectedIff | src/msgqueue/msgqueue.cpp:768-785 | only rows that have waited retry times their attempts are selected, fewest attempts first, and such a row is left out only if the pool queue is filled up to 1000 with rows before it |
| QueueOutcome.DeferredIsRetried | src/msgqueue/msgqueue.cpp:661-706 | a message put off is selected once that time is over, unless others with no more attempts fill the queue |
| QueueOutcome.FlushMakesDue | src/msgqueue/control.cpp:240-252 | a flush makes everything due that is not deleted |
| QueueOutcome.LostBecause | src/msgqueue/msgqueue.cpp:605-706 | if a message is gone and nobody deleted it, a worker has reported it delivered or failed for good, or failed and its lifetime is over |
| MsgQueue.TerminalWeightFalls | src/msgqueue/msgqueue.cpp:614-706 | with weight two for ordinary messages and one for others the total falls at each terminal result and stays at a deferral |
| MsgRetry.WaitIsQuadratic | src/msgqueue/msgqueue.cpp:768-770 | the least time from the first to the k-th failure is retry k (k - 1) / 2 + (k - 1) |
| MsgRetry.RetryBound | src/msgqueue/msgqueue.cpp:661-706 | an item deferred after its k-th failure, with f flushes so far, has retry j (j - 1) / 2 + (j - 1) within its lifetime for j = k - f |
| MsgRetry.ActionPaces | src/msgqueue/control.cpp:240-252 | every action keeps the pace of the retries, except that a flush takes away at most one wait of each item |
| MsgQueue.ActionKeeps | src/msgqueue/msgqueue.cpp:494-890 | every action of the main thread, a worker, the control thread or another process, flushes included, keeps single ownership, pool invariant and capacity |
| MsgQueue.ClearKeeps | src/msgqueue/msgqueue.cpp:494-517 | after ClearQueue nothing is held, and a row is active exactly if another process or a failed enqueue keeps it so |
| MsgHistory.SingleOwnership | src/msgqueue/msgqueue.cpp:728-890 | in every history, with any flushes, each item is in at most one of pool queue, worker and results, is a row of the table, and is active outside the locked section; every active row has an owner; the pool queue holds at most 1000 |
| MsgHistory.MailKept | src/msgqueue/msgqueue.cpp:605-706 | in every history a message leaves the table only by a result of its own, success, failure for good or failure after its lifetime, or because somebody deletes it |
| MsgRetry.RetryBoundAlways | src/msgqueue/msgqueue.cpp:661-706 | the quadratic bound for every row at every moment of every history, with one attempt more for each flush |
| MsgRetry.SavesBounded | src/msgqueue/msgqueue.cpp:605-706 | in a history with at most n flushes the results saved and the chances left at its end never exceed the chances at its start and those of new mail, so the work is finite |
| MsgRetry.WorkEnds | src/msgqueue/msgqueue.cpp:605-706 | without new mail, at most 2 (lifetime + f + 2) n results are ever saved for a table of n rows and a history with f flushes, bounces included |
| MsgHistory.BouncesBounded | src/msgqueue/bounce.cpp:24-164 | over a history there are no more bounces than messages with a return path |
| MsgHistory.OrphansExactly | src/msgqueue/enqueue.cpp:297-305 | rows are left active by this process exactly if some bounce failed for want of a temporary file |
| MsgHistory.ShutdownLeavesNothing | src/msgqueue/msgqueue.cpp:437-445 | after stop, ProcessResults and ClearQueue nothing is held; apart from rows of other processes none is active exactly if no bounce was lost |
| MessageQueue.MSGQueue.EnqueueMessage | src/msgqueue/enqueue.cpp:172-598 | a row is inserted active and then released, left active, or removed again |
| MessageQueue.MSGQueue.BounceMessage | src/msgqueue/bounce.cpp:24-164 | a bounce is made exactly if the return path has five characters or more and differs from the recipient, and it can be enqueued |
| MessageQueue.MSGQueue.ProcessResult | src/msgqueue/msgqueue.cpp:605-706 | the table after one result: deleted, bounced and deleted, or deferred |
| MessageQueue.MSGQueue.ProcessResults | src/msgqueue/msgqueue.cpp:522-545 | all waiting results are saved in order, each once, with the table that the single results give, and nothing else is done |
| MessageQueue.MSGQueue.ProcessQueue | src/msgqueue/msgqueue.cpp:728-822 | the new state is that in which the marked rows are gone and the first due rows, up to the capacity of the pool, are active and queued in order; moreQueueEntries says whether any is left to select |
| QueueOutcome.ProcessedRows | src/msgqueue/msgqueue.cpp:728-822 | rows marked for deletion and inactive are gone, those selected are active and at the end of the pool queue, all others as they were |
| QueueOutcome.MoreEntriesIs | src/msgqueue/msgqueue.cpp:771 | the flag says whether some row has waited long enough and is not selected |
| MessageQueue.SelectionPrefix | src/msgqueue/msgqueue.cpp:768-785 | reading one row more than is taken still takes the first rows in order |
| MessageQueue.MoreThanRead | src/msgqueue/msgqueue.cpp:771 | more rows than fit are read exactly if something is left to select after those taken have been marked active |
| MessageQueue.MSGQueue.WorkProcessor | src/msgqueue/msgqueue.cpp:827-890 | the result of a job is stored and the main loop is told |
| MessageQueue.MSGQueue.ClearQueue | src/msgqueue/msgqueue.cpp:494-517 | what the pool has not begun is inactive again |
| MessageQueue.MSGQueue.Shutdown | src/msgqueue/msgqueue.cpp:437-445 | whatever the scheduling, the shutdown ends, having done nothing but stop the pool, save results and clear the queue; it holds nothing and leaves no row active but those of other processes and of failed enqueues |
| QueueOutcome.ShutdownKeepsMail | src/msgqueue/msgqueue.cpp:437-445 | what is gone after shutdown had been reported delivered or failed for good, or failed after its lifetime |
| Apns.MessagesConserved | src/msgqueue/apnsdispatcher.cpp:346-511 | over every run each message is in one of queue, hand, buffer, evicted, dropped and, after quit only, lost; no id is given twice; the buffer holds at most 128 |
| Apns.StepKeeps | src/msgqueue/apnsdispatcher.cpp:416-511 | the same for one step of the dispatcher or of the control thread |
| Apns.RejectionOfBuffered | src/msgqueue/apnsdispatcher.cpp:354-378 | a rejection of a buffered message drops exactly the messages up to it and queues the others again in order |
| Apns.NothingReplayedIff | src/msgqueue/apnsdispatcher.cpp:354-378 | nothing is queued again, and the whole buffer dropped, exactly if the id is unknown or the last one |
| Apns.ReportedIdIff | src/msgqueue/apnsdispatcher.cpp:249-311 | an id that comes back from the service is its lower 16 bits: recognised exactly below 65536 |
| Apns.RejectionExactIff | src/msgqueue/apnsdispatcher.cpp:478-488 | acting on the id as reported, a rejection drops exactly the messages up to the rejected one and queues the others again if and only if its id is below 65536, or it is the last and the reported id is neither zero nor buffered |
| Apns.APNSDispatcher.ReenqueueAfterError | src/msgqueue/apnsdispatcher.cpp:354-378 | the two loops drop and queue again what the specification says |
| Apns.APNSDispatcher.Submit | src/msgqueue/apnsdispatcher.cpp:345-352 | a message from the control thread goes to the end of the queue |
| Apns.APNSDispatcher.SendJob | src/msgqueue/apnsdispatcher.cpp:493-517 | an unnumbered job gets the next id, whether or not it can be written; the oldest message leaves a full buffer |
| Apns.APNSDispatcher.Turn | src/msgqueue/apnsdispatcher.cpp:416-519 | one turn of the inner loop is the run of steps that the queue, the quit flag, the reported error and the outcome of sending call for |
| ApnsOutcome.TurnLeaves | src/msgqueue/apnsdispatcher.cpp:416-519 | queue, buffer, counter and connection after a turn, in each of its five endings |
| ApnsOutcome.SentInTheirOrder | src/msgqueue/apnsdispatcher.cpp:416-517 | as long as no write fails and nothing is rejected, messages are sent in the order they were queued and numbered from one on |
| Md5.Md5State.Append | src/core/md5.c:313-349 | after any append the state is that of the whole message so far: count, chaining value and buffer |
| Md5.Md5State.AppendAll | src/core/md5.c:313-349 | appending a message in pieces gives the state of the whole message |
| Md5.ChunkIndependent | src/core/md5.c:313-349 | that state is determined by the message alone, but for bytes of the buffer that do not count |
| Md5.CountStep | src/core/md5.c:321-328 | the two words with their carry hold eight times the length modulo 2^64 |
| Md5.OffsetFromCount | src/core/md5.c:318 | the offset read off the low word is the length modulo 64 |
| Md5.Md5State.Finish | src/core/md5.c:351-372 | the digest is that of the message padded as in sections 3.1 and 3.2 of RFC 1321, all of it consumed in whole blocks |
| Md5.PaddedLength | src/core/md5.c:366-369 | the padding is 1 to 64 bytes long, reaches 56 modulo 64, and with the length a whole number of blocks |
| Md5.PaddedBytes | src/core/md5.c:351-370 | the padding is the byte 80 and zeros, and the last eight bytes are the length in bits modulo 2^64 |
| Md5.DigestBytes | src/core/md5.c:370-372 | the words of the digest come in order, each with its low-order byte first |
| Md5.StartBytes | src/core/md5.c:303-311 | the chaining value starts as in section 3.3 of RFC 1321 |
| Md5.LittleEndianValue | src/core/md5.c:363-365 | the bytes of a length or a digest word determine it |
| Md5.Md5 | src/core/md5.c:303-372 | from start to digest, for a message in any pieces |
| Base64.RoundTrip | src/core/utils.cpp:1166-1276 | every byte string comes back, followed by as many zero bytes as its last group of three was short of |
| Base64.NoiseIgnored | src/core/utils.cpp:1237-1240 | characters outside the alphabet change nothing wherever they are |
| Base64.SameBits | src/core/utils.cpp:1185-1188 | four sextets hold the 24 bits of three bytes in order |
| Base64.EncodedShape | src/core/utils.cpp:1190-1219 | groups of four characters, letters first, then up to two equals signs (section 4 of RFC 4648) |
| Base64.AlphabetIs | src/core/utils.cpp:60-61 | which character stands for which six bits |
| Base64.EncodedGroup | src/core/utils.cpp:1185-1196 | each group of three bytes becomes the four characters for its bits, in order |
| Base64.BytesFaithful | src/core/utils.cpp:1249-1251 | no sextet is lost in decoding |
| Base64.ModifiedRoundTripIff | src/core/utils.cpp:1153-1276 | with the modified alphabet a string comes back if and only if none of its sextets is 63 |
| Base64.Base64Encode | src/core/utils.cpp:1166-1222 | the loop with its chunk arrays encodes as specified |
| Base64.Base64Decode | src/core/utils.cpp:1228-1276 | the loop with its chunk array decodes as specified |
| Base64.DecodeB64Char | src/core/utils.cpp:1153-1161 | the search through the table ends at the value of the character |
| Failban.RunIsLongest | src/core/utils.cpp:1083-1098 | the number of attempts counted is the length of the longest trailing run with small gaps |
| Failban.BansIff | src/core/utils.cpp:1083-1098 | a failure is punished exactly if it ends a run of at least two, and of at least as many as configured |
| Failban.BannedIff | src/core/utils.cpp:1071-1081 | a ban is on exactly if some failure started one that has not run out and that no later failure outlived |
| Failban.BanIsImmediate | src/core/utils.cpp:1074-1081 | a punished failure is followed by a ban at once if the ban time is not negative, and a failure during a ban does not change it |
| Failban.Table.LoginFailed | src/core/utils.cpp:1051-1128 | the row goes on describing the whole history; the failure is reported as banning exactly if its run has at least max(2, failban_attempts) failures |
| Failban.Table.IsBanned | src/core/utils.cpp:1017-1045 | banned exactly if the type counts and some matching history has a ban that is on |

## Left out

- MySQL, SQLite, OpenSSL, zlib, PCRE and the resolver: tables are maps and sequences; the answer of a SELECT is computed or given with its specification.
- Sockets, TLS, processes, files and the SMTP dialogue: a delivery attempt ends with an arbitrary status, a write succeeds or fails as a parameter says.
- The clock: times are parameters or a field; several reads of it inside one function are one read.
- Interleavings at the level of the objects: the methods of `MSGQueue` and `APNSDispatcher` run one after the other; what other threads do in between is in the state machines, of which each method is shown to perform steps.
- Internal dates, blobs, the refresh of the folder list, and the text of status lines in IMAP.
- APPEND in an open mailbox, except for what it does to the view; COPY; Idle's timeouts; a negative message limit, for which the code erases past the list.
- Atomic SEARCH keys: their outcomes are arbitrary.
- ImapCommands.Imap.ProcessLine: DELETE, RENAME and the UIDs that SEARCH hands out are not counted as changes of the database by the session; the next reading finds them among the writes of others.
- Modified UTF-7, the mail parser, the parser of whole command lines, and message sets beyond membership.
- The order of folders in the list beyond parents before children, and the query's filter for intelligent folders.
- The restart of active rows when the queue starts (src/msgqueue/msgqueue.cpp:214-220): histories begin after it, with no active row.
- MsgRetry.RetryBoundAlways: starts from rows that keep the pace; rows that were active when the process ended and have outlived their lifetime meanwhile need not.
- Random queue ids, greylisting, delivery status entries and abuse points.
- MessageQueue.MSGQueue.EnqueueMessage: new ids come from a counter; the headers and the text of a bounce are not built.
- Failure of pthread_create and of gettimeofday, and the SIGINT that stop sends to each thread beside the broadcast.
- Apns.StepKeeps: sending needs a counter below 2^31 - 1, above which incrementing it is undefined in C.
- The delay between connections of the dispatcher, and its packets beyond the id.
- Md5.Md5State.Append: requires the offset plus the count to stay below 2^31, where the C addition is defined; left shifts are taken to wrap around, as compilers make them. The compression of a block is a parameter.
- Base64.Base64Decode: with the modified alphabet requires a string without a slash, for which the code searches past its table.
- Base64.DecodeB64Char: with the modified alphabet requires a character other than the slash, for the same reason.
- The installer, the Windows service, the setup server, the HTTP web disk, POP3 and the manager's user interface.
