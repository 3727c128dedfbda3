# Proofs about athena-dropbox, File Roller and their session client

This project models five pieces of the repository and proves what they are for.

* **The X session client** of `eggsmclient-xsmp.c` (`Xsmp.dfy`, `XsmpRuns.dfy`, `XsmpSession.dfy`, `XsmpStray.dfy`). A class
  holds the client's fields, its todo list and the main loop's sources, with one method a callback. Runs pair it with a
  monitor of the client diagram in section 9.1 of the X Session Management Protocol 1.0, an application that answers
  each quit_requested once, counters for replies, and a session that says what is to be said without any of the
  client's fields; for the interaction property also with a session manager that sends anything.
* **The Dropbox client protocol** (`ClientUtil.dfy`, `Wire.dfy`, `Hooks.dfy`, `CommandClient.dfy`,
  `Session.dfy`): escaping and argument lines, the request writer, the blocking and the resumable reader of
  the same format, the worker thread with its shared queue, and the latches that make one session of two
  connections.
* **The Dropbox file index, paths and menus** of `athena-dropbox.c` (`FileIndex.dfy`, `Paths.dfy`, `Menu.dfy`):
  the two tables against the life of the file objects, the stack-based canonicaliser, the in-place percent
  decoder and the nested menu parser.
* **File Roller's list algorithms** of `fr-archive.c`, `file-utils.c` and `file-data.c` (`GLists.dfy`,
  `Chunks.dfy`, `PathLists.dfy`, `Archive.dfy`, `ArchiveEffects.dfy`): chunking and pruning on linked nodes, the
  deletion list, binary search, and deleting before adding.
* **Exec expansion** of `eggdesktopfile.c` (`ExecLine.dfy`) against a reader with the quoting rules of POSIX XCU
  section 2.2 and the field codes of the Desktop Entry Specification, "The Exec key".

`Text.dfy` holds what GLib and the C library contribute: C strings, g_strsplit, strcmp. Code that updates fields,
tables, buffers or lists is a class or a method; each such method equates the new state with a function of the
old one, and the lemmas are about those functions and about whole runs of them.

## What the proofs show about the code

Most promises hold as documented. These do not hold without a condition, and the condition is part of the result:

* A request survives the wire exactly when it has at most 19 keys, each with a value; the 20th argument line
  stops both readers, although a "done" may follow.
* A path with more ".." than names before some point comes out relative, because the root slot of the array is
  popped like any other; with two more, as in "/../../x", a name is written in front of the array.
* The percent decoder stops at the end of its string exactly when every percent sign that starts an escape has two
  characters behind it.
* The two file tables stop being inverse exactly when an update renames an object to a name already indexed
  (`athena-dropbox.c:230-237` does not look at the other object). The weaker safety that a touch relies on stays. An
  object whose name another one has taken over in this way is not led to again by an update or a change to that same
  name.
* A menu is rebuilt exactly when no leaf's tooltip contains a tilde, no submenu is empty, and no ungreyed leaf's
  name starts with an exclamation mark.
* An interruption in which the command side drops once, and the hook side any number of times, is announced by
  exactly one disconnect and one connect. But the latches are clear afterwards exactly when no hook drop falls between
  the delivery of the command side's drop and its return, and the return is not delivered while a hook side that has
  returned before is down again. A latch left behind, also by a hook side that flaps before the command side has first
  connected, can disturb what follows.
* A SaveYourself that was deferred and then cancelled is never answered, although the protocol's diagram asks for
  a SaveYourselfDone after a cancellation (`eggsmclient-xsmp.c:996-1007`).
* With any session manager, the application is asked a second time only after a message that made fix_broken_state run
  while a question was open (not answered yet, or answered after a cancellation the application has not been told of);
  and after every such message it can be. A session manager that follows the diagram never sends one.
* While the application interacts after a cancellation, a SaveYourself that comes in keeps the main loop busy: each idle
  turn defers it again and arms the next turn.
* A logout that follows a reply directly, as the diagram allows after a save without shutdown, is answered without
  asking the application.
* The scan that decides whether a desktop file takes documents knows nothing of backslashes. With an escaped
  document code it accepts documents that no pass of the launch loop takes. Where nothing fails, launching with
  documents ends exactly when the parser meets a document code, as it does for every accepted Exec line without a
  backslash.
* The archive index is sorted by full path and searched by original path. Every entry can be found exactly when
  no relative name is on the wrong side of an absolute one; otherwise some entry is missed, and adding that file
  again leaves two entries. Adding replaces, without touching other entries, exactly when the deletion takes along the
  added names and nothing else; a folder among them takes along what lies inside it.

In one place the code departs from the document it follows and says so: after a save without shutdown the client goes
to SAVE_YOURSELF_DONE and not back to idle as the diagram has it (`eggsmclient-xsmp.c:765-770`). The monitor lets the
session manager go either way.

## Model

| member | source | states |
|---|---|---|
| Paths.CanonicalizePath | athena-dropbox-1.4.0/src/athena-dropbox.c:73-99 | The component loop never leaves its strv_length + 1 slots and returns the file name built from the stack; when no prefix of the path has more ".." than names, that is the canonical path of the recursive reading |
| Paths.SlotsAreResolved | athena-dropbox-1.4.0/src/athena-dropbox.c:81-91 | The array stack holds the root slot and then exactly the names of the recursive reading of the components |
| Paths.RootSlotLost | athena-dropbox-1.4.0/src/athena-dropbox.c:83-91 | Once a path has climbed above the root, the first slot is gone for good: the stack is empty or starts with a component of the path |
| Paths.AbsoluteIffBelowRoot | athena-dropbox-1.4.0/src/athena-dropbox.c:73-99 | The result is an absolute path if and only if no prefix of the path has more ".." than names |
| Paths.CanonicalFixpoint | athena-dropbox-1.4.0/src/athena-dropbox.c:73-99 | A path without ".", ".." or empty component stays below the root and is returned unchanged |
| Paths.CanonicalIsIdempotent | athena-dropbox-1.4.0/src/athena-dropbox.c:73-99 | The canonical path has no ".", ".." or empty component, and canonicalising it again changes nothing |
| Paths.CanonicalStep | athena-dropbox-1.4.0/src/athena-dropbox.c:73-99 | What one more component does to a canonical path: an empty one and "." nothing, a name is put behind it until ".." takes it back, and ".." at the root nothing |
| Paths.WritesInsideIff | athena-dropbox-1.4.0/src/athena-dropbox.c:79-93 | Every slot the loop writes is one of the strv_length + 1 slots if and only if the slot index never becomes negative, the condition under which the canonicaliser is modelled |
| Paths.TwoLevelsTooFar | athena-dropbox-1.4.0/src/athena-dropbox.c:79-93 | "/../../x" fails that condition: the name is written in front of the array |
| ClientUtil.SanitizeRoundTrip | athena-dropbox-1.4.0/src/dropbox-client-util.c:45-54 | Unescaping an escaped text gives the text back, for every NUL-free text |
| ClientUtil.SanitizedIsClean | athena-dropbox-1.4.0/src/dropbox-client-util.c:45-50 | Escaped text contains neither a tab nor a newline |
| ClientUtil.SanitizedSame | athena-dropbox-1.4.0/src/dropbox-client-util.c:45-50 | A text without backslash, newline and tab is escaped as itself |
| ClientUtil.SanitizeThree | athena-dropbox-1.4.0/src/dropbox-client-util.c:45-50 | Each of the three is escaped by a backslash and its own letter; a text is escaped piece by piece (SanitizeBoth) |
| ClientUtil.CompressEscapes | athena-dropbox-1.4.0/src/dropbox-client-util.c:52-54 | What each letter behind a backslash stands for in what the server sends, and every other character for itself |
| ClientUtil.CompressOctal | athena-dropbox-1.4.0/src/dropbox-client-util.c:52-54 | Three octal digits behind a backslash stand for their number, cut to a byte |
| ClientUtil.CommandParseArg | athena-dropbox-1.4.0/src/dropbox-client-util.c:56-90 | A line with a tab enters the unescaped first field with the unescaped other fields, in order, and succeeds; a line without one fails and leaves the table alone |
| ClientUtil.ArgLineParses | athena-dropbox-1.4.0/src/dropbox-client-util.c:56-90 | The line written for a key with values is not "done" and enters exactly that key and those values; the line of a key without values is refused |
| Wire.WriteRequest | athena-dropbox-1.4.0/src/dropbox-command-client.c:217-246 | Whatever the key order, the channel receives the escaped name, one argument line a key and "done", each ended by a newline; a write that fails ends it with a part of that text written |
| Wire.WriteArgument | athena-dropbox-1.4.0/src/dropbox-command-client.c:229-240 | One round of the key loop writes the escaped key and values joined by tabs, and a newline, or part of it up to the first write that fails |
| Wire.ReceiveArgsUntilDone | athena-dropbox-1.4.0/src/dropbox-command-client.c:94-155 | The blocking reader accepts exactly the inputs with at most 19 parsing argument lines before "done", fills the table from them, and stops reading on the line where the format decides; it is left without a line to work on exactly when the lines run out on an open connection |
| Wire.ArgsRoundTrip | athena-dropbox-1.4.0/src/dropbox-command-client.c:94-155 | A NUL-free table written in any key order is read back, with what follows left unread, if and only if it has at most 19 keys and each has a value |
| Wire.ReadArgsMeans | athena-dropbox-1.4.0/src/dropbox-command-client.c:94-155 | For every run of lines with a tab and whatever follows them: the table they enter, later lines replacing earlier ones, is accepted before "done"; the twentieth line, or one without a tab, refuses it; and otherwise lines are missing |
| Wire.RequestTextLines | athena-dropbox-1.4.0/src/dropbox-command-client.c:217-246 | Cutting the written text at its newlines gives the request lines back: no name or value adds a line |
| Hooks.FeedConcat | athena-dropbox-1.4.0/src/async-io-coroutine.h:31-61 | Where the arriving lines are cut into wake-ups makes no difference to the resumable reader |
| Hooks.FeedArgs | athena-dropbox-1.4.0/src/athena-dropbox-hooks.c:76-120 | Inside a command the resumable reader follows the argument format of the blocking reader, from any saved table and count |
| Hooks.FeedIsSequential | athena-dropbox-1.4.0/src/athena-dropbox-hooks.c:48-123 | For all lines the resumable reader makes the calls of one uninterrupted sequential reader and halts on the same line |
| Hooks.CommandCalls | athena-dropbox-1.4.0/src/athena-dropbox-hooks.c:65-115 | A whole command calls the hook of its unescaped name, if one is registered, with the table its lines enter, and no other; the reading goes on behind it |
| Hooks.CommandEnds | athena-dropbox-1.4.0/src/athena-dropbox-hooks.c:65-103 | A command that is not whole calls nothing: the reader waits for more, or stops for good behind a line without a tab or behind the twentieth argument line |
| Hooks.HookServer.BeginCommand | athena-dropbox-1.4.0/src/athena-dropbox-hooks.c:57-63 | A command starts with a new empty table and no arguments counted; the old pointers owned nothing |
| Hooks.HookServer.TakeName | athena-dropbox-1.4.0/src/athena-dropbox-hooks.c:65-71 | The saved fields after the name is read are those of the machine's step on that line |
| Hooks.HookServer.TakeLine | athena-dropbox-1.4.0/src/athena-dropbox-hooks.c:84-120 | One argument line, or "done" with its dispatch and the two frees, is one step of the machine; a line that does not parse stops it |
| Hooks.HookServer.HandleInput | athena-dropbox-1.4.0/src/athena-dropbox-hooks.c:48-123 | One wake-up from any resume label: the calls made, the lines left unread, the fields saved and the value returned are those of feeding the arrived lines to the machine |
| Hooks.HookServer.WatchKiller | athena-dropbox-1.4.0/src/athena-dropbox-hooks.c:125-152 | Teardown frees what the reader still holds: afterwards no name and no table is allocated, and neither is freed twice |
| Hooks.HookServer.Connected | athena-dropbox-1.4.0/src/athena-dropbox-hooks.c:241-252 | The reset on connecting overwrites the two pointers without leaking and leaves the reader at its start |
| Hooks.HookServer.ServeConnection | athena-dropbox-1.4.0/src/athena-dropbox-hooks.c:48-152 | A whole connection, its lines in any batches: the calls and the unread lines are those of the sequential reader on all lines at once, and nothing stays allocated |
| Wire.WholeTableIff | athena-dropbox-1.4.0/src/dropbox-command-client.c:94-155 | However the reading goes on after the written lines, it gives the whole table if and only if the table has at most 19 keys, each with a value; a key "done" without values ends it early with a part |
| Hooks.RequestReachesHook | athena-dropbox-1.4.0/src/athena-dropbox-hooks.c:65-115 | The text of a request makes the hook reader call the named hook once, with the same table, and nothing else, if and only if the table has at most 19 keys, each with a value |
| CommandClient.DropboxCommandClient.Push | athena-dropbox-1.4.0/src/dropbox-command-client.c:769-773 | Pushing from any thread appends to the queue and keeps pushed = completed + in flight + queued |
| CommandClient.DropboxCommandClient.ForceReconnect | athena-dropbox-1.4.0/src/dropbox-command-client.c:761-767 | A reset token is queued exactly when connected; it is not a request (tokens pushed at any other time are among the pushes of the runs) |
| CommandClient.DropboxCommandClient.DoFileInfoCommand | athena-dropbox-1.4.0/src/dropbox-command-client.c:343-443 | An error is reported exactly if the file has a local name, its emblems were not answered, and the connection fails in the status command or, for a directory, in the folder tag command; the request is then still in flight, otherwise completed |
| CommandClient.DropboxCommandClient.DoGeneralCommand | athena-dropbox-1.4.0/src/dropbox-command-client.c:465-490 | An error is reported exactly if the connection fails in the command; the request is then still in flight, otherwise completed |
| CommandClient.DropboxCommandClient.EndRequest | athena-dropbox-1.4.0/src/dropbox-command-client.c:525-551 | A request is completed without a response; the reset token completes nothing |
| CommandClient.DropboxCommandClient.Process | athena-dropbox-1.4.0/src/dropbox-command-client.c:699-720 | Whatever the server does, a request taken from the queue is completed once; the error reported is that of its command |
| CommandClient.DropboxCommandClient.GiveUp | athena-dropbox-1.4.0/src/dropbox-command-client.c:725-739 | Giving a connection up, while other threads push: every request pushed before the queue is found empty is completed, in order, what is pushed between that and the change of the connected flag stays queued, and one disconnect is announced |
| CommandClient.DropboxCommandClient.ServeRound | athena-dropbox-1.4.0/src/dropbox-command-client.c:673-741 | One round serves the oldest item and gives the connection up exactly if there is none and the channel is dead, if it is the reset token, or if the exchange of the request fails; otherwise nothing is announced and the rest stays queued |
| CommandClient.DropboxCommandClient.ServeConnection | athena-dropbox-1.4.0/src/dropbox-command-client.c:673-741 | Over all interleavings of one connection's rounds with pushes: the accounting holds; the items are served oldest first; the connection lasts through all rounds exactly if none of them found a dead channel, the reset token or a request whose exchange fails, and otherwise the first such round ends it with one disconnect |
| CommandClient.DropboxCommandClient.Run | athena-dropbox-1.4.0/src/dropbox-command-client.c:568-744 | Over any run of the thread, the requests pushed are those completed, in queue order, and then those queued; connects and disconnects alternate, one of each for every connection served but the one that still lasts |
| CommandClient.CompletedExactlyOnce | athena-dropbox-1.4.0/src/dropbox-command-client.c:525-741 | With that accounting, a request pushed once is completed once or still queued, never both and never neither, and nothing else is completed |
| Session.DropboxClient.HookOnConnect | athena-dropbox-1.4.0/src/dropbox-client.c:31-41 | Sets its latch, or with the other latch set announces the connect and clears both |
| Session.DropboxClient.CommandOnConnect | athena-dropbox-1.4.0/src/dropbox-client.c:43-53 | Sets its latch, or with the other latch set announces the connect and clears both |
| Session.DropboxClient.CommandOnDisconnect | athena-dropbox-1.4.0/src/dropbox-client.c:55-68 | Announces the disconnect and clears both latches when the hook side is already latched, otherwise makes the hook side reconnect, with all that follows at once from it |
| Session.DropboxClient.HookOnDisconnect | athena-dropbox-1.4.0/src/dropbox-client.c:70-83 | Announces the disconnect and clears both latches when the command side is already latched, otherwise queues a reset token if the command side is connected |
| Session.DropboxClient.HooksForceReconnect | athena-dropbox-1.4.0/src/athena-dropbox-hooks.c:261-280 | Removing the event source of a connected hook side runs its disconnect handlers and reconnect; an unconnected one is left alone |
| Session.DropboxClient.WatchKiller | athena-dropbox-1.4.0/src/athena-dropbox-hooks.c:125-152 | The hook side drops, its handlers run, and it may be back before the call returns |
| Session.DropboxClient.Deliver | athena-dropbox-1.4.0/src/dropbox-command-client.c:66-77 | The main loop hands the oldest posted notification to its handler |
| Session.RunSound | athena-dropbox-1.4.0/src/dropbox-client.c:31-83 | Over any run, from any sound state, the latch and counting invariant holds |
| Session.NeverMoreAnnouncements | athena-dropbox-1.4.0/src/dropbox-client.c:31-83 | From set-up on, in every run, no latch pair is fully set at rest, and connects announced never exceed the connects of either side, nor disconnects announced the drops of either side |
| Session.FirstConnectAnnounced | athena-dropbox-1.4.0/src/dropbox-client.c:31-53 | From set-up on, while neither side drops and in whatever order they come, the session is announced once, exactly when both sides are up and the command side's connect has been delivered, and is settled from then on |
| Session.InterruptionAnnouncedOnce | athena-dropbox-1.4.0/src/dropbox-client.c:31-83 | From both sides up, nothing latched and nothing in flight, if the command side drops at most once and the hook side any number of times: by the time all is up and delivered again exactly one disconnect and then one connect has been announced, nothing else before; and all latches are clear again if and only if no hook drop falls between the delivery of the command side's drop and its return, and the return is not delivered while a hook side that has returned before is down again |
| Session.OneInterruptionOneAnnouncement | athena-dropbox-1.4.0/src/dropbox-client.c:31-83 | In particular, if neither side drops a second time before both are back: one disconnect and then one connect is announced, whichever side fails first, nothing else at any point, and the session is as at the start |
| Session.EarlyFlapLeavesLatch | athena-dropbox-1.4.0/src/dropbox-client.c:70-83 | Without the condition: a hook side that flaps before the command side first connects leaves a disconnect latch set |
| Session.StaleLatchLosesConnect | athena-dropbox-1.4.0/src/dropbox-client.c:43-68 | With that stale latch, a command side that comes, goes and comes back has its last return never announced |
| FileIndex.AthenaDropbox.UpdateFileInfo | athena-dropbox-1.4.0/src/athena-dropbox.c:205-267 | Both tables and the weak notifications become those of the specification, stay safe, and weak_unref is called only where a notification is registered |
| FileIndex.AthenaDropbox.ChangedCb | athena-dropbox-1.4.0/src/athena-dropbox.c:136-194 | The same for a rename or a move to a non-local place; the file is reset exactly when the tables change |
| FileIndex.AthenaDropbox.WhenFileDies | athena-dropbox-1.4.0/src/athena-dropbox.c:118-133 | The dead object and the name recorded for it leave the tables; an unknown object changes nothing |
| FileIndex.AthenaDropbox.Dispose | athena-dropbox-1.4.0/src/athena-dropbox.c:118-133 | When an object dies, however many notifications are registered, no table mentions it afterwards and the tables stay safe |
| FileIndex.AthenaDropbox.HandleShellTouch | athena-dropbox-1.4.0/src/athena-dropbox.c:293-318 | A touch resets exactly the object recorded under the canonical path, which is alive and carries that path; without one nothing is reset |
| FileIndex.UpdateCompleteIff | athena-dropbox-1.4.0/src/athena-dropbox.c:223-237 | An update keeps the two tables inverse to each other if and only if its rename branch does not meet a name in use |
| FileIndex.CollisionIsReached | athena-dropbox-1.4.0/src/athena-dropbox.c:205-267 | Five steps from empty tables reach such a collision, after which the tables are still safe but not inverse |
| FileIndex.StepSafe | athena-dropbox-1.4.0/src/athena-dropbox.c:118-267 | Every creation, update, change and death keeps the tables safe, and also inverse unless it is such a collision |
| FileIndex.NameAfter | athena-dropbox-1.4.0/src/athena-dropbox.c:118-267 | A name given by an update or a change leads to that object, which is recorded under it; a name taken away leads nowhere; every other name leads where it did |
| FileIndex.RecordAfter | athena-dropbox-1.4.0/src/athena-dropbox.c:118-267 | What each object is recorded under after each event: its new name, nothing after moving away, dying or losing its name to another object, and otherwise what it was |
| FileIndex.NotificationsAfter | athena-dropbox-1.4.0/src/athena-dropbox.c:136-238 | The weak notifications of a living object: one more when it is first recorded, one less when an update forgets it or it has moved away, otherwise unchanged |
| FileIndex.LeadsToItsObject | athena-dropbox-1.4.0/src/athena-dropbox.c:136-240 | After an update or a change the name leads to the object, unless the object was recorded under that same name while another object had taken it over |
| FileIndex.LastGiftDecides | athena-dropbox-1.4.0/src/athena-dropbox.c:118-267 | In every run a name leads to an object if and only if the last event that gave or took the name gave it to that object |
| FileIndex.TablesStayTrue | athena-dropbox-1.4.0/src/athena-dropbox.c:118-267 | In every run filename2obj[n] = o implies obj2filename[o] = n with o alive and notified; in runs without such a collision the tables are inverse |
| Menu.GhettoURLDecode | athena-dropbox-1.4.0/src/athena-dropbox.c:488-514 | In place, the write index never passes the read index; the buffer gets the first n characters of the decoded text, the length or -1 is returned, and with n = strlen the buffer always holds the decoded string |
| Menu.ReadEndIff | athena-dropbox-1.4.0/src/athena-dropbox.c:498-507 | The read position meets the string's terminator if and only if every percent sign that starts an escape has two characters behind it; otherwise it steps over the terminator |
| Menu.HexEscape | athena-dropbox-1.4.0/src/athena-dropbox.c:488-500 | An escape of two hex digits decodes to the byte they denote (section 2.1 of RFC 3986); any other two characters to what the same expression yields for them |
| Menu.DigitValues | athena-dropbox-1.4.0/src/athena-dropbox.c:488-490 | The value of each of the 22 hex digits, upper and lower case |
| Menu.DecodeField | athena-dropbox-1.4.0/src/athena-dropbox.c:540-542 | Decoding a field in place with its own length gives the field's decoded string, even where the decoder returns -1 |
| Menu.ParseMenu | athena-dropbox-1.4.0/src/athena-dropbox.c:516-613 | Options with three fields become items in order, others are skipped, submenus recursively; the number of leaves is returned, and the recursion ends because a decoded submenu is shorter than its option |
| Menu.ParseOption | athena-dropbox-1.4.0/src/athena-dropbox.c:536-609 | The item made from one option: a submenu below the extended action prefix, or a leaf, greyed when its name starts with an exclamation mark |
| Menu.OptionCounts | athena-dropbox-1.4.0/src/athena-dropbox.c:527-534 | An option counts if and only if it holds two tildes: the three fields are what is in front of, between and behind the first two |
| Menu.ParsePieces | athena-dropbox-1.4.0/src/athena-dropbox.c:516-613 | Options do not influence one another: the items of a list are those of its parts, one behind the other |
| Menu.MenuRoundTrip | athena-dropbox-1.4.0/src/athena-dropbox.c:516-613 | Encoding a NUL-free menu level by level and parsing it rebuilds the menu, actions included, if and only if no leaf's tooltip contains a tilde, no submenu is empty and no ungreyed leaf's name starts with an exclamation mark |
| Menu.ExpectedLeaves | athena-dropbox-1.4.0/src/athena-dropbox.c:516-613 | The count the parser returns is the number of leaves of the menu that was encoded |
| Xsmp.XsmpClient.Startup | file-roller-3.4.2/copy-n-paste/eggsmclient-xsmp.c:344-390 | A refused connection leaves the client closed; an accepted one makes it idle, with the initial properties on the todo list and one source armed |
| Xsmp.XsmpClient.UpdatePendingEvents | file-roller-3.4.2/copy-n-paste/eggsmclient-xsmp.c:573-592 | A source is armed when one is wanted and none is remembered; the remembered one is removed when none is wanted |
| Xsmp.XsmpClient.SetInitialProperties | file-roller-3.4.2/copy-n-paste/eggsmclient-xsmp.c:202-286 | The source slot is freed, the todo entry cleared, and what else is pending gets its own source |
| Xsmp.XsmpClient.Disconnect | file-roller-3.4.2/copy-n-paste/eggsmclient-xsmp.c:293-310 | Once closed a client forgets a deferred save; an already closed one is unchanged |
| Xsmp.XsmpClient.WillQuit | file-roller-3.4.2/copy-n-paste/eggsmclient-xsmp.c:411-447 | The new state, the messages and the signals for each state in which the application may answer |
| Xsmp.XsmpClient.IdleDoPendingEvents | file-roller-3.4.2/copy-n-paste/eggsmclient-xsmp.c:538-571 | A pending quit is emitted alone; otherwise quit_cancelled, and then the deferred save is processed |
| Xsmp.XsmpClient.FixBrokenState | file-roller-3.4.2/copy-n-paste/eggsmclient-xsmp.c:594-612 | A deferred save is forgotten, the asked-for replies are sent and the state follows them |
| Xsmp.XsmpClient.OnSaveYourself | file-roller-3.4.2/copy-n-paste/eggsmclient-xsmp.c:616-722 | Initial properties first, the pointless initial request skipped, every other one interpreted by the table and started or deferred |
| Xsmp.XsmpClient.DoSaveYourself | file-roller-3.4.2/copy-n-paste/eggsmclient-xsmp.c:724-771 | Deferred while the application does not know of the cancellation, interaction asked for, or saved and answered |
| Xsmp.XsmpClient.SaveStateNow | file-roller-3.4.2/copy-n-paste/eggsmclient-xsmp.c:773-787 | save_state is emitted in state SAVE_YOURSELF, during which the connection may be lost |
| Xsmp.XsmpClient.OnInteract | file-roller-3.4.2/copy-n-paste/eggsmclient-xsmp.c:935-953 | Only in INTERACT_REQUEST does the client start interacting |
| Xsmp.XsmpClient.QuitRequestedSignal | file-roller-3.4.2/copy-n-paste/eggsmclient.c:552-567 | When nobody listens to quit_requested it is answered with will_quit at once, otherwise emitted |
| Xsmp.XsmpClient.OnDie | file-roller-3.4.2/copy-n-paste/eggsmclient-xsmp.c:955-967 | The client disconnects and then emits quit |
| Xsmp.XsmpClient.OnSaveComplete | file-roller-3.4.2/copy-n-paste/eggsmclient-xsmp.c:969-982 | SAVE_YOURSELF_DONE becomes idle, every other state is repaired |
| Xsmp.XsmpClient.OnShutdownCancelled | file-roller-3.4.2/copy-n-paste/eggsmclient-xsmp.c:984-1036 | The three cases of a cancellation: announced, dropped together with the deferred save, or answered and, while interacting, remembered |
| Xsmp.XsmpClient.Fire | file-roller-3.4.2/copy-n-paste/eggsmclient-xsmp.c:538-571 | The main loop runs an armed source once and removes it |
| XsmpRuns.Perform | file-roller-3.4.2/copy-n-paste/eggsmclient-xsmp.c:616-1036 | Each callback of the client is the step of the runs below for its event |
| XsmpRuns.ApplyEarlier | file-roller-3.4.2/copy-n-paste/eggsmclient-xsmp.c:616-1036 | What a callback does, sends and emits does not depend on what was sent and emitted before |
| XsmpRuns.Replay | file-roller-3.4.2/copy-n-paste/eggsmclient-xsmp.c:312-1036 | Called for the events of a run, the callbacks take the started client through exactly the run's worlds, and it has sent and emitted all that the run's steps send and emit |
| XsmpRuns.StepKeeps | file-roller-3.4.2/copy-n-paste/eggsmclient-xsmp.c:411-1036 | Every step a section 9.1 session manager, the application or the main loop can take keeps the invariant of state, messages, todo list and sources, and sends only what the protocol's diagram allows |
| XsmpRuns.NeverAskedAgain | file-roller-3.4.2/copy-n-paste/eggsmclient-xsmp.c:935-953 | In every run quit_requested is not emitted while the application owes will_quit, no forbidden message is sent, and in SHUTDOWN_CANCELLED exactly one of interacting and a pending quit_cancelled holds |
| XsmpRuns.EveryReplyAccounted | file-roller-3.4.2/copy-n-paste/eggsmclient-xsmp.c:616-771 | In every run, while connected, SaveYourself received = SaveYourselfDone sent + deferred saves dropped + 1 exactly in INTERACT_REQUEST, INTERACT or with a deferred save; SAVE_YOURSELF is never a rest state |
| XsmpRuns.NothingForgotten | file-roller-3.4.2/copy-n-paste/eggsmclient-xsmp.c:573-592 | In every run at most one source is armed, a deferred save implies SHUTDOWN_CANCELLED, and everything on the todo list has the source that will see to it, the initial properties included while connected |
| XsmpRuns.WakeUpServes | file-roller-3.4.2/copy-n-paste/eggsmclient-xsmp.c:538-571 | Firing that source emits the pending quit or quit_cancelled, and a deferred save is taken up in the same turn |
| XsmpRuns.LogoutAsks | file-roller-3.4.2/copy-n-paste/eggsmclient-xsmp.c:616-771 | From every connected idle rest point a logout request leads to quit_requested in two steps the diagram allows |
| XsmpRuns.LogoutAfterReplyIsNotAsked | file-roller-3.4.2/copy-n-paste/eggsmclient-xsmp.c:636-641 | A SaveYourself that follows a reply without a SaveComplete between them, which the diagram allows after a save without shutdown, is answered at once, even a logout, and the application is not asked |
| XsmpRuns.DeferralIsReached | file-roller-3.4.2/copy-n-paste/eggsmclient-xsmp.c:724-736 | From every interaction the diagram allows a cancellation and then a SaveYourself, which is deferred |
| XsmpRuns.CancelledDeferralIsNeverAnswered | file-roller-3.4.2/copy-n-paste/eggsmclient-xsmp.c:996-1007 | A deferred save that is cancelled is counted as dropped and stays without the reply the diagram asks for |
| XsmpSession.StepSpeaks | file-roller-3.4.2/copy-n-paste/eggsmclient-xsmp.c:411-1036 | In every step the client sends and emits exactly what a session described without any of its fields says for that event, and serves the session after it |
| XsmpSession.RunSpeaks | file-roller-3.4.2/copy-n-paste/eggsmclient-xsmp.c:344-1036 | So in every run, the messages and signals of each step follow from the events alone |
| XsmpSession.RefusalCancels | file-roller-3.4.2/copy-n-paste/eggsmclient-xsmp.c:411-447 | A cancelled interaction is reported if and only if the application, asked, refuses to quit |
| XsmpSession.RefusedReply | file-roller-3.4.2/copy-n-paste/eggsmclient-xsmp.c:411-1036 | SaveYourselfDone says no if and only if the application, asked, refuses, or the shutdown is cancelled while the session manager waits for the interaction |
| XsmpSession.RefusalsInRuns | file-roller-3.4.2/copy-n-paste/eggsmclient-xsmp.c:411-1036 | In every step of every run: a cancelled interaction is reported exactly on a refusal, and the reply says no exactly on a refusal or such a cancellation |
| XsmpSession.EveryRefusalCancels | file-roller-3.4.2/copy-n-paste/eggsmclient-xsmp.c:411-447 | In every run the session manager is told to cancel exactly as often as the application has refused |
| XsmpSession.AsksFor | file-roller-3.4.2/copy-n-paste/eggsmclient-xsmp.c:616-771 | Interaction is asked for, with the right dialog type, if and only if a SaveYourself is taken up, at once or after a deferral, that ends the session, allows interaction and finds the application listening |
| XsmpSession.SavesFor | file-roller-3.4.2/copy-n-paste/eggsmclient-xsmp.c:411-787 | save_state is emitted if and only if local state is to be saved and the request is taken up without a question, or the application agrees, or does not listen |
| XsmpSession.QuitsFor | file-roller-3.4.2/copy-n-paste/eggsmclient-xsmp.c:538-1036 | When quit, quit_cancelled and quit_requested are emitted, each if and only if |
| XsmpSession.AnswersAreFollowedUp | file-roller-3.4.2/copy-n-paste/eggsmclient-xsmp.c:411-447 | Every answer is passed on at once, or kept on the todo list with a source that will tell the application |
| XsmpSession.InitialPropertiesOnce | file-roller-3.4.2/copy-n-paste/eggsmclient-xsmp.c:202-286 | In every run the initial properties are set at most once, and before the first SaveYourself is answered |
| XsmpSession.DeferralSpins | file-roller-3.4.2/copy-n-paste/eggsmclient-xsmp.c:538-571 | While the application interacts with a deferred save pending, each turn of the main loop changes nothing and arms the next |
| XsmpStray.StepTracks | file-roller-3.4.2/copy-n-paste/eggsmclient-xsmp.c:411-1036 | Any message at any time, any answer and any turn of the main loop keeps the invariant of open question, state, todo list and sources, unless it is harmful: unless it makes fix_broken_state run while the application has not answered or has still to be told of a cancellation |
| XsmpStray.RepairSends | file-roller-3.4.2/copy-n-paste/eggsmclient-xsmp.c:594-612 | In any state: what is sent for a message taken for an error, that nothing is emitted and no shutdown refused, and that only the deferred save is given up |
| XsmpStray.CancellationSends | file-roller-3.4.2/copy-n-paste/eggsmclient-xsmp.c:984-1036 | In any state: what a cancellation makes the client send, emit and remember |
| XsmpStray.KeepsTrackExactly | file-roller-3.4.2/copy-n-paste/eggsmclient-xsmp.c:594-982 | And a harmful message always breaks it |
| XsmpStray.NeverAskedTwice | file-roller-3.4.2/copy-n-paste/eggsmclient-xsmp.c:594-982 | In every run with any session manager, as long as no message has been harmful quit_requested is not emitted while the application owes will_quit |
| XsmpStray.HarmfulAsksAgain | file-roller-3.4.2/copy-n-paste/eggsmclient-xsmp.c:555-612 | After any harmful message a session manager that follows the diagram from then on can make the client ask a second time: with the next logout if the application is interacting, otherwise with a logout, the telling of the earlier cancellation in the middle of it, its cancellation and another logout |
| XsmpStray.DiagramIsHarmless | file-roller-3.4.2/copy-n-paste/eggsmclient-xsmp.c:594-982 | A session manager that follows the diagram sends nothing harmful |
| ExecLine.AppendQuotedWord | file-roller-3.4.2/copy-n-paste/eggdesktopfile.c:613-642 | The word is appended in the quotes its context needs, each single quote escaped |
| ExecLine.QuotedWordReads | file-roller-3.4.2/copy-n-paste/eggdesktopfile.c:613-642 | In all three quoting contexts a shell reader gets the inserted word back character for character, and the context is as it was |
| ExecLine.SingleMeans | file-roller-3.4.2/copy-n-paste/eggdesktopfile.c:744-772 | The reader is a shell's: everything up to the next single quote stands for itself (DoubleMeans and EscapeMeans say the same of double quotes and backslashes, section 2.2 of POSIX XCU) |
| ExecLine.DoPercentSubst | file-roller-3.4.2/copy-n-paste/eggdesktopfile.c:645-722 | Each field code adds what it stands for, written out literally, to what a shell reads, in the same quoting context, and takes off the documents it consumes |
| ExecLine.NextFlags | file-roller-3.4.2/copy-n-paste/eggdesktopfile.c:744-772 | The escape and quote flags stay in step with the shell's quoting states |
| ExecLine.BuildCommand | file-roller-3.4.2/copy-n-paste/eggdesktopfile.c:739-784 | A shell reading the produced command gets the meaning of the Exec line, whatever the documents, icon, name and source contain, and ends in the same quoting state |
| ExecLine.FirstCode | file-roller-3.4.2/copy-n-paste/eggdesktopfile.c:645-784 | Text without codes is read as it is; then comes what the first code adds: a blank and the document, the icon, the name or the source, each literally, or nothing; and the rest follows with the documents left |
| ExecLine.PercentIsText | file-roller-3.4.2/copy-n-paste/eggdesktopfile.c:744-781 | A percent sign behind an escaping backslash, or at the end, is text |
| ExecLine.GivenInPlace | file-roller-3.4.2/copy-n-paste/eggdesktopfile.c:645-784 | Every document a pass takes off the list is read back literally, in order, each behind a blank, and the text between them does not depend on the documents |
| ExecLine.ParseExec | file-roller-3.4.2/copy-n-paste/eggdesktopfile.c:724-819 | No command without an Exec key or with a malformed Terminal key; otherwise the command stands for the Exec line, as one word behind the terminal program if the file asks for it |
| ExecLine.PassTakes | file-roller-3.4.2/copy-n-paste/eggdesktopfile.c:645-784 | A pass takes documents off the front of the list, and takes one exactly when there is one and the parser meets a document code; its meaning depends on those alone |
| ExecLine.ProgressIff | file-roller-3.4.2/copy-n-paste/eggdesktopfile.c:1209-1276 | For every Exec line, a pass over documents leaves the list as it was exactly when the parser meets no document code |
| ExecLine.ScanAgrees | file-roller-3.4.2/copy-n-paste/eggdesktopfile.c:239-251 | Without backslashes the scan that sets document_code finds one exactly when the parser meets a document code |
| ExecLine.OnePass | file-roller-3.4.2/copy-n-paste/eggdesktopfile.c:1209-1213 | One call of the parser splits the list into the documents its command stands for and those left |
| ExecLine.LaunchLoop | file-roller-3.4.2/copy-n-paste/eggdesktopfile.c:1207-1276 | For any number of rounds: the documents are given out in order, each to one command that stands for the Exec line with them and in which they are read back literally, in order, each behind a blank; some are left at the end only after a failure; with a document code the parser meets, as many rounds as documents show the end, and without one no document is ever given out; success means the first launch ran |
| ExecLine.Launchv | file-roller-3.4.2/copy-n-paste/eggdesktopfile.c:1081-1276 | Documents for a file without a document code are refused and nothing is launched; otherwise the loop's promises hold, and where nothing fails it ends if and only if there are no documents or the parser meets a document code |
| ExecLine.AcceptsDocuments | file-roller-3.4.2/copy-n-paste/eggdesktopfile.c:239-251 | In an Exec line without backslashes whose scan found a document code, the parser meets one, so launching ends |
| ExecLine.EscapedCodeNeverTakes | file-roller-3.4.2/copy-n-paste/eggdesktopfile.c:239-251 | With an escaped document code the scan accepts documents that no pass ever takes |
| Chunks.ChunksCharacterised | file-roller-3.4.2/src/fr-archive.c:2572-2591 | There is exactly one way to cut a list into non-empty chunks below the length limit unless they are single names, each unable to take the next name; it is the one computed |
| Chunks.ChunksConcat | file-roller-3.4.2/src/fr-archive.c:2572-2591 | The chunks make up the list in order |
| Chunks.ChunkFits | file-roller-3.4.2/src/fr-archive.c:47-165 | A chunk below the limit is one whose names, with the overhead of each, take fewer than 87381 characters, two thirds of what the system passes on |
| Chunks.NextChunk | file-roller-3.4.2/src/fr-archive.c:2577-2586 | The inner loop stops behind the chunk with prev on its last node |
| Chunks.RunOneChunk | file-roller-3.4.2/src/fr-archive.c:2573-2590 | One round hands the command exactly the chunk's names and leaves every next and prev link as it was |
| Chunks.RunInChunks | file-roller-3.4.2/src/fr-archive.c:2572-2591 | The in-place loop hands over the chunks of the list, in order, and leaves every next and prev link as it was; also for the per-name overhead of move_files_in_chunks |
| Chunks.CutChunk | file-roller-3.4.2/src/fr-archive.c:1548-1565 | One round of split_in_chunks leaves two well-formed lists: the chunk and the rest |
| Chunks.SplitInChunks | file-roller-3.4.2/src/fr-archive.c:1539-1571 | New, well-formed lists that share no node hold the chunks of the argument, which is not touched |
| PathLists.InsideMeans | file-roller-3.4.2/src/file-utils.c:294-322 | path_in_path holds exactly when something follows the folder's name and its slash, other than one more slash |
| PathLists.InsideIsTransitive | file-roller-3.4.2/src/file-utils.c:294-322 | path_in_path is transitive |
| PathLists.RemoveFilesContainedInThisDir | file-roller-3.4.2/src/fr-archive.c:2927-2954 | On a linked list, in place: the entries behind the folder that share its name as prefix and lie inside it are unlinked, up to the first that does not share it |
| PathLists.RemoveContainedFiles | file-roller-3.4.2/src/fr-archive.c:3011-3016 | The removal loop leaves a well-formed list holding the pruned names |
| PathLists.RemoveIsFilter | file-roller-3.4.2/src/fr-archive.c:2935-2951 | On a strcmp-sorted list the early break loses nothing: what is removed are all entries inside the folder |
| PathLists.PruneIsExact | file-roller-3.4.2/src/fr-archive.c:2927-2954 | On a strcmp-sorted list of non-empty paths the loop keeps exactly the entries that lie inside no listed entry |
| PathLists.PruneCoversAll | file-roller-3.4.2/src/fr-archive.c:2927-2954 | Every listed path is kept or lies inside a kept one |
| PathLists.FileIsInSubfolderOf | file-roller-3.4.2/src/fr-archive.c:2464-2481 | True exactly when some folder of the list contains the path |
| PathLists.ListToDelete | file-roller-3.4.2/src/fr-archive.c:2512-2543 | The list handed to the command: the requested one, or for a command that cannot delete non-empty folders the uncovered paths, back to front |
| PathLists.HandedOverMembers | file-roller-3.4.2/src/fr-archive.c:2512-2543 | A path is handed over if and only if it is requested and, for such a command, lies in no requested folder |
| PathLists.DeleteCoversRequest | file-roller-3.4.2/src/fr-archive.c:2512-2543 | Every requested path is handed over or lies in a handed-over folder, and no handed-over path lies in one |
| Archive.FindPath | file-roller-3.4.2/src/file-data.c:145-168 | The bisection loop returns what the recursive search returns |
| Archive.FoundIffListed | file-roller-3.4.2/src/file-data.c:145-168 | In an index sorted by original path a path is found if and only if it is listed, repeated paths included |
| Archive.AllFoundIffSorted | file-roller-3.4.2/src/file-data.c:145-168 | For distinct original paths, every entry is found in its place if and only if they are in strcmp order |
| Archive.ListingIsSearchable | file-roller-3.4.2/src/fr-command.c:233-236 | For an index sorted by full path, every entry is found if and only if no relative name is on the wrong side of an absolute one: starting above '/' before it, or below '/' behind it |
| Archive.UniformListingIsSorted | file-roller-3.4.2/src/file-data.c:135-142 | With only relative or only absolute names, sorting by full path sorts by original path |
| Archive.NewerFilesOnly | file-roller-3.4.2/src/fr-archive.c:1431-1470 | The names not found or found with an older time, back to front |
| Archive.ToAddMembers | file-roller-3.4.2/src/fr-archive.c:1627-1636 | Where deletion must come first, the names added are the requested ones and, on update, exactly those of them that the archive lacks or holds in an older version |
| Archive.FrArchive.DeleteFromArchive | file-roller-3.4.2/src/fr-archive.c:2490-2595 | The deletion command lines are the chunks of the handed-over list; an empty request means every file of the archive |
| Archive.FrArchive.DeletionList | file-roller-3.4.2/src/fr-archive.c:1666-1673 | The names the search finds, back to front |
| Archive.FrArchive.AddInChunks | file-roller-3.4.2/src/fr-archive.c:1725-1746 | The adding command lines are the chunks of the list, in order |
| Archive.FrArchive.Add | file-roller-3.4.2/src/fr-archive.c:1574-1746 | Nothing for an empty list, a read-only archive or nothing newer; otherwise the command lines deleting what is present, when the command needs it and there is any, and then those adding the list |
| ArchiveEffects.ChunkedDelete | file-roller-3.4.2/src/fr-archive.c:2572-2591 | However a list is cut into deletion command lines, their effect is that of the whole list |
| ArchiveEffects.AddLines | file-roller-3.4.2/src/fr-archive.c:1656-1746 | Whatever the command can do by itself: the names in the adding lines are the list, all deleting lines come first, and there are any exactly if a name is found and the command cannot, as asked, replace or update |
| ArchiveEffects.RequestLines | file-roller-3.4.2/src/fr-archive.c:1574-1746 | For a whole request: the requested names are added, on update, where the command cannot do that by itself, exactly those missing or older |
| ArchiveEffects.DeleteAll | file-roller-3.4.2/src/fr-archive.c:2499-2595 | An empty deletion request hands over every name of the archive, but for those in folders that are handed over where that matters, and empties it |
| ArchiveEffects.HandedOverTakes | file-roller-3.4.2/src/fr-archive.c:2512-2543 | Leaving out what lies in a requested folder makes no difference to what a deletion takes along, where deleting a folder deletes what lies inside |
| ArchiveEffects.AddEffect | file-roller-3.4.2/src/fr-archive.c:1656-1746 | What adding does to an archive that only appends, for all names and every index: the entries of the names found, and of what lies in folders among them, go, all others stay in place and order, and the files are appended; the archive is never emptied |
| ArchiveEffects.AddReplacesIff | file-roller-3.4.2/src/fr-archive.c:1656-1746 | Adding replaces exactly the entries of the added names and leaves all others in place, if and only if the deletion takes along, of the names in the archive, exactly the added ones |
| ArchiveEffects.AddReplaces | file-roller-3.4.2/src/fr-archive.c:1656-1746 | Without folders among the added names: if and only if the search finds every added name that is in the archive |
| ArchiveEffects.InPlaceReplaces | file-roller-3.4.2/src/file-data.c:135-168 | So, in the index as listed, adding replaces for every list without folders if no relative name is on the wrong side of an absolute one |
| ArchiveEffects.OutOfPlaceLeavesStale | file-roller-3.4.2/src/file-data.c:135-168 | And if one is, some name in the archive, added again, keeps its stale entry beside the new one |
| ArchiveEffects.OneEntryEach | file-roller-3.4.2/src/fr-archive.c:1656-1746 | An added name ends with exactly one entry, the file's, and another name keeps its entries, if and only if the name is not in the archive or the deletion takes it along just when it is added |
| ArchiveEffects.RequestEffect | file-roller-3.4.2/src/fr-archive.c:1627-1746 | The same for a whole request, adding or updating, for every index and all names |
| ArchiveEffects.RequestReplaces | file-roller-3.4.2/src/fr-archive.c:1627-1746 | In particular, with the index in the order of the names and no folders: just the requested names, on update those of them the archive lacks or holds in an older version, end with one entry, and all others keep theirs |
| ArchiveEffects.MixedNamesLeaveStaleEntry | file-roller-3.4.2/src/file-data.c:145-168 | The smallest case: with one relative and one absolute name the index misses "a", and adding "a" again leaves the old entry beside the new one |

## Left out

Weaker than the source on purpose:

- Menu.GhettoURLDecode: does not model text that ends within an escape; the C code then reads past the terminator (Menu.ReadEndIff says exactly when).
- Menu.ParseMenu: does not model such text either, nor the list of items and the file lists attached to items for the submenu workaround.
- Menu.ParseOption: does not model such text either.
- Menu.DecodeField: does not model such text either.
- Paths.CanonicalizePath: does not model paths with so many ".." that the slot index becomes negative; the C code then writes outside its array (Paths.WritesInsideIff).
- FileIndex.AthenaDropbox.HandleShellTouch: does not model touches of such paths.
- FileIndex.AthenaDropbox.UpdateFileInfo: does not model the lifetime of the stored name, which lines 234-235 use after its table entry is gone; names are values here. The request queued afterwards (lines 242-267) is in CommandClient.
- FileIndex.AthenaDropbox.ChangedCb: does not model the "changed" signal handlers that are connected and disconnected beside the weak notifications.
- Wire.ReceiveArgsUntilDone: does not model what the C code does once a read has timed out (G_IO_STATUS_AGAIN), when it uses a line it was not given, nor a last line without newline; which error is set is not told apart.
- CommandClient.DropboxCommandClient.ForceReconnect: does not model a change of the connected flag between the test and the push; a token pushed late is one of the pushes at any time in CommandClient and is kept over a drop in Session.
- CommandClient.DropboxCommandClient.DoFileInfoCommand: does not model the contents of the responses handed on, only whether the request is completed.
- CommandClient.DropboxCommandClient.DoGeneralCommand: does not model the response either.
- Session.InterruptionAnnouncedOnce: does not model a second drop of the command side, which is an interruption of its own; runs with several are covered by NeverMoreAnnouncements only.
- Xsmp.XsmpClient.SetInitialProperties: does not model the properties themselves; that they are set is counted.
- Xsmp.XsmpClient.WillQuit: does not model losing the connection inside the save_state signal that will_quit emits; the code itself checks for it only in do_save_yourself.
- Xsmp.XsmpClient.SaveStateNow: does not model the state file and the properties set with it.
- ExecLine.Launchv: does not model the translation of documents between paths and URIs.
- ExecLine.ParseExec: does not model how g_shell_parse_argv splits the command into words; only quote removal is read.
- Chunks.NextChunk: does not model overflow of the int that adds up the lengths.
- Archive.FrArchive.Add: does not model the destination directory put in front of the names (lines 1607-1625), nor the branch that writes the list to a file (lines 1689-1722).
- Archive.FrArchive.DeleteFromArchive: does not model the branch that writes the list to a file (lines 2552-2570).
- ArchiveEffects.AddEffect: does not model commands whose deletion of a folder leaves what lies inside it; that is up to the external program.

Not modelled at all:

- Sockets, select, timeouts, reconnect timers and the inside of GIOChannel: lines, end of file and connects are events.
- GLib itself: hash tables are maps, g_list functions are methods on nodes, GSignal emission is a log.
- Re-entrant XSMP calls: end_session, and a disconnect inside other signals than save_state.
- XSMP properties, ICE and the desktop-file loader.
- Error replies of send_command_to_db and the handlers that receive completions.
- Sorting (g_list_sort, g_ptr_array_sort): its result is the precondition of the search and the pruning.
- The continuation for dropped items, compute_base_path, fr_archive_extract_to_local outside its pruning loop.
- The per-format command files, which depend on what external programs print.
- Dialogs, actions, drag and drop, the menu widgets, and the packages athena-python, open-terminal and gnome3-emblems.
