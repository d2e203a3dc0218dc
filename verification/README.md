# Verified model of the chat server's message path

A chat message goes from the gateway through the logic service, where its text is masked, to the
message service, which stores a body in MongoDB and an index row in MySQL; an offline user later pages
through the index rows. This project models that path and the machinery it leans on - the word
filter, the retry loop, the MySQL connection pool, the configuration loader that supplies the word
list, and the heartbeat timer - and proves what each part promises, for every input, every
interleaving and every pattern of failures.

`dafny verify dfyconfig.toml` checks everything.

## How it is organised

| file | source | content |
|---|---|---|
| `FilterSpec`, `WordFilter`, `LookupCost` | `logic/src/sensitive_filter.cpp` | what masking means, without a trie; the heap trie and its scanners; what they cost |
| `Retry` | `common/src/utils/retry.h` | the retry loop around a call whose effects survive its failure |
| `Decimal`, `SeqId` | `message/src/dao/msg_index_dao.cpp` | `std::to_string`, `stoi`, `stoull`; the printed sequence id and the cursor read from it |
| `MsgTables`, `MsgIndexDao`, `MsgBodyDao`, `MessageService` | `message/src/dao/*.cpp`, `message/src/service/message_service.cpp` | the two stores, the DAOs, saving and pulling |
| `MysqlPool`, `PoolCalls` | `common/src/db/mysql_pool.cpp` | the pool as interleaved steps of its threads; what whole calls do |
| `SaveProtocol`, `SaveAlone` | the pool and the DAOs together | many threads inside `SaveMessage` at once; one of them alone |
| `ChatLogic`, `SendPath`, `WorstSend` | `logic/src/*.cpp`, `gateway/src/tcp_server.cpp` | validate, mask, hand on; one client send end to end |
| `ConfigText`, `ConfigEvents`, `ConfigLists`, `ConfigScope`, `ConfigManager`, `ConfigPrint`, `ConfigTree`, `ConfigFlatten`, `ConfigDocuments` | `common/src/config/config_manager.cpp` | the loader line by line; its scope rule against YAML's; lists; printing and loading |
| `Heartbeat` | `gateway/src/tcp_server.cpp` | the timer, the last-active time and the stopped flag |

Code that changes things in place is modelled by classes and loops (the trie, the mask buffer, the
DAOs, the loader's stacks and counters, the connection object), each proved equal to a specification
function; the lemmas are about those functions. The pool and `SaveMessage` under concurrency are state
machines whose steps are the stretches of code between two points where another thread can interfere.

## What was found on the way

* **Sibling maps.** The loader pops its stacks only when a line is indented *less* than the innermost
  header (`common/src/config/config_manager.cpp:111`), so a header stays open when a line of its own
  indent follows. In a file that opens with `server:` everything is filed under `server`
  (`ConfigDocuments.ServerSwallowsTheFile`). That is how four of the five shipped files open. So
  `GetString("log.level", "")` is empty for `gateway/config/gateway_config.yaml`, contrary to
  `tests/config_manager_test.cpp:24`, and `GetStringList("sensitive_words")` is empty for
  `logic/config/logic_config.yaml`, so the logic service falls back on the three words in
  `logic/main.cpp:93-96` and never sees the fourth. `ConfigManager.FileMatchesYaml` says
  exactly which files are written entry for entry as YAML nests them, which gives them YAML's map as
  well; `ConfigFlatten.TameLoads` and `ConfigFlatten.LoadFlattens` say which printed trees load to their
  flattening.
* **Cost of the filter.** `docs/architecture/README.md:59` gives O(N). Both scanners do at most N times
  the longest word, and no constant factor replaces that length (`LookupCost.NotLinear`).
* **Words with a star.** Masking can create an occurrence of a word that itself contains `*`
  (`FilterSpec.StarWordsCanReappear`). `FilterSpec.MaskLeavesNothing` gives a condition on the words
  under which the output is always clean, met by all words without a star, and
  `FilterSpec.OneWordIsExact` shows it is the right one for a single word.
* **One message for each receiver.** `SaveMessage` leaves `seq_id` empty, and
  `deploy/docker-compose/config/init_db.sql:42` makes `(receiver_id, seq_id)` unique. On that schema a
  receiver's first index row is the last one, and no later message to them can be stored
  (`SaveProtocol.FirstRowIsLast`).
* **Retries multiply.** Where the table has no such key, one client send can store the message 64 times
  and still be answered with code 0 (`WorstSend.SixtyFourIsReached`); never more, with or without it
  (`SendPath.Amplification`).
* **List items and scalar keys.** A scalar key of digits under a list's header can replace an item or add
  one (`ConfigLists.ScalarOverwritesItem`). `ConfigLists.ListIsRecovered` says exactly for which files a
  list is read back as its items in file order.

## What is taken for granted

* `Initialize` has returned before the first `AcquireConnection`, because it pushes without the lock
  and without a notification (`common/src/db/mysql_pool.cpp:39`); `Shutdown` is called by a thread that
  holds no connection; each database call holds one guard. Spurious wakeups are allowed.
* MySQL's `message_index` is append-only with atomic inserts and strictly growing ids, gaps allowed,
  and keeps one `LAST_INSERT_ID` for each connection. MongoDB's collection is a multiset. Every
  operation may fail before or after taking effect; a violated unique key is one more failure.
* `SaveMessage` never sets `seq_id` (`message/src/service/message_service.cpp:63-67`), so rows are
  ordered by their id, and the stored column is the empty string.
* The `SaveMsg` handler is not part of the repository. It is taken to call `SaveMessage` and to answer
  code 0 exactly when the sequence id is not empty. The gRPC branches of the code are modelled.
* What the environment does - connections refused, queries failing, answers lost, clock readings - is a
  parameter of each call, and the theorems hold for all its values. An exception that leaves the
  gateway's retry loop is an outcome of the send, as it is in the code.
* The heartbeat timer is prompt, and the steady clock of the timer agrees with the wall clock.
* `char` is the filter's and the loader's unit; UTF-8 text is a sequence of such units, as in C++.
* A configuration file is shorter than 2^31 bytes, so the loader's `int` counts do not overflow.

## Model

| member | source | states |
|---|---|---|
| FilterSpec.ShortestAtMeans | logic/src/sensitive_filter.cpp:64-82 | The length the scan stops at is that of the shortest word starting there, and 0 exactly if none does. |
| FilterSpec.RangesAreMasking | logic/src/sensitive_filter.cpp:61-84 | The ranges the scan masks ascend without overlap, each is the shortest word at its start, and every occurrence starts inside one. |
| FilterSpec.MaskingIsUnique | logic/src/sensitive_filter.cpp:61-84 | Only one list of ranges has that property. |
| FilterSpec.MaskMeaning | logic/src/sensitive_filter.cpp:56-86 | The masked text is `*` over those ranges and the old letter everywhere else, for every word set and text. |
| FilterSpec.EveryOccurrenceIsMasked | logic/src/sensitive_filter.cpp:61-84 | The first letter of every occurrence in the input is masked, overlapping ones included. |
| FilterSpec.UnmaskedOccurrence | logic/src/sensitive_filter.cpp:61-84 | A star-free string found in the output was at the same place in the input, unmasked. |
| FilterSpec.ReappearanceIsMasked | logic/src/sensitive_filter.cpp:61-84 | A listed word found in the output overlaps a masked range: nothing unmasked is ever missed. |
| FilterSpec.MaskLeavesNothing | logic/src/sensitive_filter.cpp:56-86 | If no word begins or ends with `*` or has a run of `*` as long as some word, nothing is left to find in the output, for every text, and filtering again changes nothing. |
| FilterSpec.StarFreeIsSturdy | logic/src/sensitive_filter.cpp:56-86 | Words without `*` meet that condition. |
| FilterSpec.OneWordIsExact | logic/src/sensitive_filter.cpp:56-86 | With a single word the output is clean for every text exactly if the word does not begin or end with `*`. |
| FilterSpec.StarWordsCanReappear | logic/src/sensitive_filter.cpp:74-77 | With the word `*a` the claim fails: masking `*aa` gives `**a`, which contains the word. |
| FilterSpec.CleanIsUntouched | logic/src/sensitive_filter.cpp:56-86 | A text without a listed word comes back unchanged. |
| FilterSpec.OnlyMinimalWordsMatter | logic/src/sensitive_filter.cpp:15-86 | Both answers depend only on the words that no other word is a prefix of. |
| FilterSpec.SameFilterIffSameMinimal | logic/src/sensitive_filter.cpp:15-86 | Two star-free dictionaries filter all texts alike exactly when those words are the same. |
| WordFilter.SensitiveFilter.constructor | logic/src/sensitive_filter.cpp:6-8 | A new filter is a valid trie for the empty dictionary. |
| WordFilter.SensitiveFilter.Init | logic/src/sensitive_filter.cpp:15-20 | Any further list adds exactly its non-empty words to the dictionary; order, repetition and splitting over calls do not matter. |
| WordFilter.SensitiveFilter.AddWord | logic/src/sensitive_filter.cpp:22-33 | In-place insertion keeps the heap tree valid and adds the word; the empty word adds nothing. |
| WordFilter.SensitiveFilter.Representation | logic/src/sensitive_filter.cpp:15-33 | After any Init calls: nodes spell prefixes of loaded words, all of them; ends are exactly the words; a leaf other than the root is an end; the links form one tree, none leading to the root and exactly one to any other node; the root is bare exactly if nothing was loaded. |
| WordFilter.SensitiveFilter.MatchFrom | logic/src/sensitive_filter.cpp:62-82 | The inner loop finds the shortest word at a position or shows there is none, at an exactly counted cost of at most the longest word. |
| WordFilter.SensitiveFilter.HasSensitiveWord | logic/src/sensitive_filter.cpp:35-54 | True exactly when a loaded word is a substring; the exact number of child lookups, at most text length times longest word. |
| WordFilter.SensitiveFilter.Filter | logic/src/sensitive_filter.cpp:56-86 | The heap scanner computes the trie-free mask; the exact numbers of lookups, with the same bound, and of writes, at most one for each letter. |
| WordFilter.Overwrite | logic/src/sensitive_filter.cpp:74-77 | The inner write loop stars one range of the buffer and touches nothing else. |
| LookupCost.NotLinear | docs/architecture/README.md:59 | For every constant c some dictionary and text cost both scanners more than c lookups a letter, so the documented O(N) is not met. |
| Retry.ExecuteWithRetry | common/src/utils/retry.h:18-41 | The loop terminates and makes exactly the calls of the recursive specification, with the effects of failed calls kept. |
| Retry.RetryContract | common/src/utils/retry.h:18-68 | The body is called until its first success and at most max(n, 0) + 1 times; result and state are those of the last call; it throws exactly if every allowed call throws. |
| Decimal.ValueOfToString | message/src/dao/msg_index_dao.cpp:44 | Reading a printed number gives the number. |
| Decimal.StoullOfToString | message/src/dao/msg_index_dao.cpp:66 | `stoull` undoes `to_string` exactly below 2^64 and throws beyond. |
| Decimal.StoullMeaning | message/src/dao/msg_index_dao.cpp:66 | `stoull` on any text: white space and one sign skipped, the longest run of digits read, the rest ignored; a throw for none or for 2^64 and more; a minus sign negates modulo 2^64. |
| SeqId.LastUnderscoreIsAt | message/src/dao/msg_index_dao.cpp:64 | find_last_of gives the position that has no underscore behind it. |
| SeqId.FirstCursor | message/src/dao/msg_index_dao.cpp:63-65 | Any cursor without an underscore, the empty one included, stands for id 0. |
| MessageService.FirstCursorIsBefore | message/src/dao/msg_index_dao.cpp:63-65 | So it is before every row of every table, the empty one included: the save-and-pull theorems hold for a first pull. |
| SeqId.CursorReadsTail | message/src/dao/msg_index_dao.cpp:64-67 | Any other is read from behind its last underscore, whatever stands before. |
| SeqId.CursorOfPrint | message/src/dao/msg_index_dao.cpp:43-67 | The cursor read from a printed sequence id is its row id, for every clock value, negative ones included, and every uint64 id. |
| MsgTables.AfterMeaning | message/src/dao/msg_index_dao.cpp:69-71 | The query result is exactly the user's rows beyond the cursor, once each, in id order. |
| MsgTables.AfterAppended | message/src/dao/msg_index_dao.cpp:69-71 | Rows inserted later only lengthen a result at its end. |
| MsgTables.PagingIsExact | message/src/dao/msg_index_dao.cpp:63-79 | Pages read with the previous page's last sequence id as cursor concatenate, with the rows still to come, to exactly the user's rows after the first cursor, for every positive limit and with inserts between the visits; after an empty page nothing is missing. |
| MsgIndexDao.InsertContract | message/src/dao/msg_index_dao.cpp:16-52 | One Insert adds at most four rows, all its own; a non-empty result is the id of the last of them, and comes exactly if the first attempt that does not throw stored a row and read its id. |
| MsgIndexDao.InsertStepByStep | message/src/dao/msg_index_dao.cpp:16-52 | Attempt by attempt: it stops at the first of four that stores its row and does not fail after; one row for each attempt that got past the INSERT; a non-empty result is SEQ, that attempt's clock and its row's id. |
| MsgIndexDao.AttemptEnds | message/src/dao/msg_index_dao.cpp:16-52 | An attempt ends the retrying exactly if it got past the INSERT and did not fail after it; a missing id row counts as an end. |
| MsgIndexDao.MsgIndexDao.Insert | message/src/dao/msg_index_dao.cpp:16-52 | The DAO call through the retry loop meets that contract on the table it updates. |
| MsgIndexDao.FetchOnce | message/src/dao/msg_index_dao.cpp:59-79 | The statements of one attempt - parse, query, append row by row, maybe throw half-way - do what the attempt function says. |
| MsgIndexDao.DedupExtends | message/src/dao/msg_index_dao.cpp:77-79 | Appending to two lists with the same first occurrences keeps them the same. |
| MsgIndexDao.RetriedFetch | message/src/dao/msg_index_dao.cpp:54-85 | Although all attempts share one vector and rows may arrive between them: on success its first occurrences are those of the final page and the page ends it; on failure they are a prefix of what could have been read; it never exceeds four pages. |
| MsgIndexDao.FetchFinishes | message/src/dao/msg_index_dao.cpp:54-85 | The fetch finishes exactly if the cursor can be read, the limit is not negative and one of four attempts meets no failure; it stops at the first such, and otherwise makes all four. |
| MsgIndexDao.FirstPull | message/src/dao/msg_index_dao.cpp:54-85 | A client without a sequence id gets the message ids of all rows addressed to it, in id order and each once, when nothing fails and the limit covers them. |
| MsgIndexDao.MsgIndexDao.FetchOfflineMsgIds | message/src/dao/msg_index_dao.cpp:54-85 | The DAO call meets that, whether or not the retry loop gave up. |
| MsgBodyDao.InsertContract | message/src/dao/msg_body_dao.cpp:18-39 | At most four copies of the document are stored and nothing else; success means this call stored one. |
| MsgBodyDao.InsertStepByStep | message/src/dao/msg_body_dao.cpp:18-39 | Attempt by attempt: it stops at the first of four without an exception, succeeds exactly if that one got an object id back, and stores one copy for each attempt that left one. |
| MsgBodyDao.MsgBodyDao.Insert | message/src/dao/msg_body_dao.cpp:18-39 | The DAO call meets that contract on the collection it updates. |
| MsgBodyDao.ReadOnce | message/src/dao/msg_body_dao.cpp:60-68 | The cursor loop appends what the cursor delivers to what earlier attempts left. |
| MsgBodyDao.RetriedRead | message/src/dao/msg_body_dao.cpp:41-74 | Every returned document is stored and was asked for; once an attempt finishes, all that were asked for are returned. |
| MsgBodyDao.ReadFinishes | message/src/dao/msg_body_dao.cpp:41-74 | The read finishes exactly if one of four attempts does, and stops at the first. |
| MsgBodyDao.CleanRead | message/src/dao/msg_body_dao.cpp:60-68 | Without a failure, every document asked for is returned as often as it is stored. |
| MsgBodyDao.MsgBodyDao.BatchGet | message/src/dao/msg_body_dao.cpp:41-74 | The DAO call meets that, and asks nothing for an empty id list. |
| MessageService.SaveContract | message/src/service/message_service.cpp:47-77 | Whatever fails, every index row keeps a body; only this message is written, four times at most in each store; a non-empty result means both stores got it in this call. |
| MessageService.SavesMeans | message/src/service/message_service.cpp:50-67 | Field by field: every new row has the message's id, sender, receiver and session type and an empty seq_id, and every new document its id, content and two types. |
| MessageService.MessageService.SaveMessage | message/src/service/message_service.cpp:47-77 | The body-first dual write keeps the stores covered, yields that contract, and adds only rows and documents with the message's own fields. |
| MessageService.MessageService.PullOfflineMessages | message/src/service/message_service.cpp:79-109 | One message for each body read, with its id, content and types; each belongs to a row of that user; if both reads finish, the messages are exactly the bodies of the ids on the index page, and every id on it is answered. |
| MessageService.CleanPull | message/src/service/message_service.cpp:94-105 | Without a failure of the body read, the result as a multiset holds every document whose id was fetched as often as it is stored, and nothing else. |
| MessageService.SavedIsPulled | message/src/service/message_service.cpp:47-109 | Save and pull undo each other: a message that got a sequence id is in every finished pull of its receiver from an earlier cursor, with a limit that covers the receiver's rows from there on, with the id, text and types it was saved with, whatever else was stored before and since. |
| MessageService.SavedIsOnSomePage | message/src/service/message_service.cpp:47-109 | The same for every positive limit: reading page after page until nothing is left, with rows and bodies added between the visits, some page's pull contains the message. |
| MysqlPool.MysqlConnectionPool.Initialize | common/src/db/mysql_pool.cpp:16-55 | It succeeds exactly if every connection opens, then leaves pool_size >= 1 distinct idle connections, the start state of the machine; on failure it leaves none. |
| MysqlPool.StepKeeps | common/src/db/mysql_pool.cpp:57-106 | Every step of every thread keeps the mutex, queue, shutdown, ownership and wakeup invariants, also when the flag is set between a waiter's test and its sleep. |
| PoolCalls.AcquireTakesFront | common/src/db/mysql_pool.cpp:57-68 | With a connection in the queue and no shutdown, the own steps of a thread in AcquireConnection, new or woken, end with the front connection in its hands, the rest of the queue and of the pool as before. |
| PoolCalls.AcquireSleeps | common/src/db/mysql_pool.cpp:57-59 | With an empty queue they end in sleep, and nothing else changes. |
| PoolCalls.NullOnlyAfterShutdown | common/src/db/mysql_pool.cpp:61-67 | No step ends an AcquireConnection without a connection unless the shutdown flag is set; a step that ends it with one gives the front of the queue. |
| PoolCalls.AcquireAfterShutdown | common/src/db/mysql_pool.cpp:57-63 | Once the flag is set the call comes back without a connection, whatever the queue holds. |
| PoolCalls.ReleaseHandsBack | common/src/db/mysql_pool.cpp:70-79 | The own steps of ReleaseConnection put the connection at the back of the queue and wake one sleeper, if there is any. |
| PoolCalls.ReleaseAfterShutdown | common/src/db/mysql_pool.cpp:73-76 | Once the flag is set the connection is dropped. |
| PoolCalls.ShutdownEmptiesAndWakes | common/src/db/mysql_pool.cpp:81-92 | The first Shutdown drops the queue and wakes every sleeper; a second one changes nothing. |
| PoolCalls.SleeperIsServed | common/src/db/mysql_pool.cpp:57-79 | When the queue is empty and a thread sleeps, a release followed by the sleeper's own steps puts the released connection into its hands. |
| MysqlPool.NoLostWakeup | common/src/db/mysql_pool.cpp:57-79 | Before shutdown, if a thread sleeps, idle connections are no more than the threads that a notification woke and that are not yet done looking, but for one push about to be announced; with the mutex free, no more than the notified threads. Spurious wakers do not count. |
| MysqlPool.NoSleepAfterShutdown | common/src/db/mysql_pool.cpp:81-92 | Once Shutdown has finished its locked part, no thread sleeps or ever will, for every interleaving. |
| MysqlPool.Conservation | common/src/db/mysql_pool.cpp:28-106 | Each connection is in exactly one of the queue, one thread, or dropped; nothing is dropped before shutdown; connections are handed out in the order they came back; the queue is never popped empty. |
| MysqlPool.NoStuckWaiters | common/src/db/mysql_pool.cpp:57-79 | If a thread sleeps and no notification is under way, every connection is with a thread that does not wait, spurious wakers or not. |
| MysqlPool.NoDeadlock | common/src/db/mysql_pool.cpp:57-92 | While a thread is awake inside the pool, the pool's own code can take a step. |
| SaveProtocol.OthersKeepId | common/src/db/mysql_pool.cpp:57-106 | No other thread's step changes the LAST_INSERT_ID of a connection that a thread holds: the pool never gives one connection to two. |
| SaveProtocol.StepKeeps | message/src/service/message_service.cpp:47-77 | Every step of the concurrent system - pool steps, inserts into other tables, failures before or after an effect - keeps the invariant. |
| SaveProtocol.SeqIdIsOwn | message/src/dao/msg_index_dao.cpp:20-45 | In every interleaving a non-empty result of SaveMessage is printed from the clock and the id of a row that this very call inserted, with its message id, sender, receiver and session type, and decodes to that id. |
| SaveAlone.SaveRunsAlone | message/src/service/message_service.cpp:47-77 | The concurrent system refines the sequential call: a thread that can get a connection without waiting leaves in both stores, and returns, what the sequential SaveMessage does with the same failures. |
| SaveAlone.InsertAfterShutdown | message/src/dao/msg_index_dao.cpp:16-52 | After a shutdown the thread is refused four times and returns nothing, as the sequential insert without connections does. |
| SaveProtocol.EveryRowHasBody | message/src/service/message_service.cpp:57-73 | In every reachable state of the concurrent system every index row has a body, and ids ascend. |
| SaveProtocol.FirstRowIsLast | message/src/service/message_service.cpp:63-69 | In any history on a table whose receiver and sequence column are unique together, a receiver has at most one row, and the first is never followed by another. |
| SaveProtocol.PullSeesARun | message/src/service/message_service.cpp:87-105 | A pull whose reads fall at moments of one concurrent history, the bodies after the index, meets everything PullOfflineMessages asks of its environment: growing tables and collections, and bodies for all rows. |
| ChatLogic.LogicChatMsg.ProcessSend | logic/src/chat_handler.cpp:21-34 | Whether or not the check before the filter fires, the text of a text message ends up masked; other messages keep theirs. |
| ChatLogic.LogicChatMsg.CallMessageServiceToSave | logic/src/message_processor.cpp:62-96 | The retried call: anything but status OK with code 0 counts as a failure; the sequence id is stored only on success. |
| ChatLogic.FirstGoodAnswer | logic/src/message_processor.cpp:65-95 | It succeeds exactly if one of four answers is status OK with code 0, with the sequence id of the first such, and makes no later call. |
| ChatLogic.LogicChatMsg.ProcessIncomingMessage | logic/src/message_processor.cpp:21-51 | A message is accepted exactly if it is a single-chat message to somebody else or a group message to a group; then its text, if it is a text message, is masked and it is handed on; otherwise nothing happens. |
| ChatLogic.WhatIsSent | logic/src/chat_handler.cpp:10-62 | The same about the message that is handed on: nothing but the content of text messages is changed. |
| ChatLogic.HandedOnIsClean | logic/src/message_processor.cpp:30-43 | Requests leave exactly for the accepted messages, at most four, each of them the message with its text masked; with words that meet the filter's condition every such text is clean and as long as the original. |
| SendPath.OneCall | logic/src/message_processor.cpp:62-96 | One retried SaveMsg call stores at most 16 rows and bodies, and at least one of each if it succeeds. |
| SendPath.Amplification | gateway/src/tcp_server.cpp:112-144 | One client send stores at most 64 rows and 64 bodies, all for the masked message; if the client sees code 0, both stores got it in this send and the sequence id is that of a row of this send. |
| SendPath.SendFinishes | gateway/src/tcp_server.cpp:112-144 | The send is answered exactly if one of four requests is; the first such answer counts; if all four are lost, nothing is stored. |
| SendPath.FirstAnswerCounts | gateway/src/tcp_server.cpp:130-143 | An answer that arrives ends the send, whatever its code; business errors come as code 500 and are not retried. |
| SendPath.RefusedSend | logic/src/message_processor.cpp:24-33 | A refused message is answered with code 500 and leaves no trace. |
| SendPath.CleanSend | gateway/src/tcp_server.cpp:112-144 | A send that meets no failure, word for word: one body with the masked text, one row with the next id, and an answer of code 0 with that row's sequence id. |
| WorstSend.SixtyFourIsReached | gateway/src/tcp_server.cpp:112-144 | The bound is sharp on a table without a unique key: for every accepted message some failures leave 64 rows and 64 bodies behind an answer of code 0. |
| Heartbeat.TcpConnection.Start | gateway/src/tcp_server.cpp:30-35 | The start refreshes the last-active time and arms the first check, unless the connection is stopped. |
| Heartbeat.TcpConnection.Stop | gateway/src/tcp_server.cpp:37-48 | Stopping takes effect once and cancels the timer. |
| Heartbeat.TcpConnection.OnRead | gateway/src/tcp_server.cpp:57-73 | A read refreshes the last-active time; an error stops the connection. |
| Heartbeat.TcpConnection.CheckHeartbeat | gateway/src/tcp_server.cpp:163-168 | A stopped connection arms nothing; any other is checked 5 s later. |
| Heartbeat.TcpConnection.OnTimer | gateway/src/tcp_server.cpp:168-178 | The handler stops an expired connection, re-arms a live one, and leaves a stopped one alone. |
| Heartbeat.HeartbeatWindow | gateway/src/tcp_server.cpp:163-179 | Over every history: a check stops a connection only more than 30 s after its last read, and always from 31 s; a silent one is stopped in less than 36 s; an error stops it at once; the socket is closed once, and no check is armed afterwards. |
| Heartbeat.SharpWindow | gateway/src/tcp_server.cpp:163-179 | The 36 s cannot be lowered: a history with 35.999 s of silence and the connection still open. |
| ConfigText.TrimmedUnique | common/src/config/config_manager.cpp:19-26 | Whatever white space surrounds a trimmed text, trimming gives that text back. |
| ConfigText.Trim | common/src/config/config_manager.cpp:19-26 | The two index loops compute the trimmed text. |
| ConfigText.StripInlineComment | common/src/config/config_manager.cpp:52-64 | The scan cuts at the first `#` at the start or behind white space, and nowhere else. |
| ConfigText.CountLeadingSpaces | common/src/config/config_manager.cpp:43-50 | The loop counts the spaces in front, not tabs. |
| ConfigText.JoinKeys | common/src/config/config_manager.cpp:66-74 | The loop joins the non-empty keys with dots. |
| ConfigText.SplitOfUnlines | common/src/config/config_manager.cpp:99 | Splitting into lines undoes joining them, if no line holds a newline. |
| ConfigText.LastLineNeedsNoNewline | common/src/config/config_manager.cpp:99 | A last line without a newline behind it is read like any other. |
| ConfigScope.IndentsAscend | common/src/config/config_manager.cpp:111-114 | The indents on the stack never decrease. |
| ConfigScope.StackIsScope | common/src/config/config_manager.cpp:111-114 | After the pop loop the stack holds, in file order, exactly the earlier headers such that no line since was indented less: each of them, and nothing else. |
| ConfigScope.YamlPathIsSubsequence | common/src/config/config_manager.cpp:99-168 | The YAML path of a line is always the loader's scope with some headers left out. |
| ConfigScope.ScopeMatchesYaml | common/src/config/config_manager.cpp:99-168 | For each line, scope and YAML path agree, and so do their joined keys, exactly when no open header has met a later line of its own indent other than a list item. |
| ConfigScope.DocumentMatchesYaml | common/src/config/config_manager.cpp:99-168 | A whole document is written entry for entry as YAML nests it exactly when that holds at every line that writes. |
| ConfigManager.FileMatchesYaml | common/src/config/config_manager.cpp:82-171 | The same for every file, from its text; and in that case the loaded map is the one YAML's nesting gives. |
| ConfigManager.ConfigManager.Load | common/src/config/config_manager.cpp:82-171 | The loop over key stack, indent stack and counters leaves exactly the map of the declarative scope rule; a missing file leaves it empty and fails. |
| ConfigManager.SortByIndex | common/src/config/config_manager.cpp:226 | A permutation of the entries, ascending by index. |
| ConfigManager.ConfigManager.GetStringList | common/src/config/config_manager.cpp:202-231 | In whatever order the map is walked: the values of exactly the keys prefix.digits, each once, ascending by index. |
| ConfigEvents.LastDotSplits | common/src/config/config_manager.cpp:207-215 | A key splits at its last dot in one way only. |
| ConfigLists.StoreIsLast | common/src/config/config_manager.cpp:136-167 | The map holds for every key the value of the last line that wrote it, and no other key. |
| ConfigLists.IndexKeyWriter | common/src/config/config_manager.cpp:116-167 | A key prefix.digits in the map was written by a scalar or is the key of one of the list's items. |
| ConfigLists.ItemsInStore | common/src/config/config_manager.cpp:116-138 | If no scalar wrote such a key, those in the map are 0, 1, 2, ... without gap, holding the items. |
| ConfigLists.ListIsRecovered | common/src/config/config_manager.cpp:202-231 | Every list that may be read back, whatever order the hash map is walked in, is the items in file order if and only if scalars write under the list no index key but the items' own, and the last line to write each item's key writes the item's value. |
| ConfigLists.ScalarsStayAway | common/src/config/config_manager.cpp:202-231 | That holds in particular when no scalar line writes a key prefix.digits. |
| ConfigLists.ScalarOverwritesItem | common/src/config/config_manager.cpp:162-167 | A file for which it fails: a scalar key 0 replaces the first item. |
| ConfigManager.LoadedListIsRecovered | common/src/config/config_manager.cpp:82-231 | The same if and only if for Load followed by GetStringList, from the text of any file below 2^31 bytes and for any prefix, the empty one included. |
| ConfigPrint.ScalarRoundTrip | common/src/config/config_manager.cpp:140-167 | A scalar line is read back as it was exactly if the key is non-empty, trimmed, without a colon, a comment or a leading dash and space, and the value survives: between single or double quotes, if no white space stands before a `#`; bare, if it is non-empty and trimmed, opens no comment, and is not itself two or more letters between equal quotes. |
| ConfigPrint.HeaderRoundTrip | common/src/config/config_manager.cpp:155-160 | A printed header is read back exactly for those keys. |
| ConfigPrint.ItemRoundTrip | common/src/config/config_manager.cpp:116-119 | A list item, bare or quoted either way, is read back exactly for the values that survive. |
| ConfigPrint.BlankLines | common/src/config/config_manager.cpp:102-108 | A line is skipped exactly if only white space stands before its comment or its end. |
| ConfigPrint.BadLines | common/src/config/config_manager.cpp:140-153 | Text without comments only closes headers exactly if it is no item and has no key before a colon. |
| ConfigPrint.CommentIgnored | common/src/config/config_manager.cpp:52-64 | A comment behind white space changes nothing in what a line says. |
| ConfigTree.MachineIsScope | common/src/config/config_manager.cpp:93-168 | Following the stacks from any line on writes what the declarative rule says. |
| ConfigTree.TreeRuns | common/src/config/config_manager.cpp:99-168 | The lines of a printed tree, started anywhere, write its entries with every earlier sibling header still in the path. |
| ConfigTree.LoadOfPrint | common/src/config/config_manager.cpp:82-171 | What loading a printed tree gives, for every tree of keys and of bare, single-quoted or double-quoted values that survive. |
| ConfigFlatten.StoreOfTame | common/src/config/config_manager.cpp:116-167 | What a tame tree writes under a path, after any scalars, is its flattening under the joined path. |
| ConfigFlatten.TameLoads | common/src/config/config_manager.cpp:82-171 | Print and load undo each other: every printed tree in which no map writes anything after its first sub-map or list loads to its flattening, whatever dots or repeated keys it has. |
| ConfigFlatten.LevelLastLoads | common/src/config/config_manager.cpp:82-171 | In particular every document whose maps have at most one sub-map or list each, placed last. |
| ConfigFlatten.StickyIsLonger | common/src/config/config_manager.cpp:111-114 | The loader writes as many keys as the flattening has, with no fewer letters in all, and with more unless the tree is tame. |
| ConfigFlatten.UntamedLosesKey | common/src/config/config_manager.cpp:111-114 | A tree that does write after a sub-map or list of the same map has a flattened key that the loaded map lacks, if no two of its entries flatten to one key. |
| ConfigFlatten.LoadFlattens | common/src/config/config_manager.cpp:82-171 | Among the printed trees whose entries all flatten to different keys, exactly the tame ones load to their flattening. |
| ConfigFlatten.DistinctIsUnambiguous | common/src/config/config_manager.cpp:162-167 | Maps whose keys differ and hold no dot are among those trees. |
| ConfigFlatten.AmbiguousCanLoad | common/src/config/config_manager.cpp:162-167 | That condition is needed for the converse: an untame tree with a repeated key that loads to its flattening all the same. |
| ConfigDocuments.FirstHeaderOwnsTheFile | common/src/config/config_manager.cpp:111-114 | If the first line that is not blank is a header at the left margin, every key of the file is that header's key, a dot, and more. |
| ConfigDocuments.OtherListsAreEmpty | common/src/config/config_manager.cpp:202-231 | Then a list with anything in it is read back under that key or a key below it. |
| ConfigDocuments.ServerSwallowsTheFile | logic/config/logic_config.yaml:1-12 | Whatever follows `server:` on the first line, `log.level` is missing and the list `sensitive_words` is empty. |
| ConfigDocuments.PortIsRead | gateway/config/gateway_config.yaml:1-2 | The first two lines of the gateway's file load to exactly server.tcp_port with the value 9000. |

## Left out

- The bodies of the retried DAO calls enter the retry loop as function values, because the loop takes a function; `FetchOnce` and `ReadOnce` show the loops inside two of them.
- SendPath.Amplification: the gateway's forwarding and its answer are values; the JSON text, the write buffer and the exception handler of the I/O thread are not modelled.
- MessageService.MessageService.PullOfflineMessages: no order of the messages is claimed, since they follow MongoDB's cursor, and the fields the code does not fill are not modelled.
- SaveProtocol.SeqIdIsOwn: rows become visible in the order of their ids; a transaction that commits a smaller id later is not modelled.
- FilterSpec.MaskLeavesNothing: exact for one word only; with several, a starred word that could reappear may always be kept out by another word that masks part of it first.
- ConfigManager.SortByIndex: `std::sort` is stood in for by an insertion sort; the callers use only that the result is a sorted permutation.
- ConfigFlatten.LoadFlattens: the converse is about trees whose entries flatten to different keys; among the others an untame tree may load to its flattening too, as AmbiguousCanLoad shows.
- MysqlPool.NoDeadlock: progress of the pool's code is stated as an enabled step; fairness of the scheduler is not modelled.
- Initialize running at the same time as AcquireConnection, and a second Initialize after a failed one overtaking it.
- Sockets, accepting and writing, HTTP servers, JSON building, and the single write buffer shared by overlapping sends.
- Push service, RabbitMQ, Redis, APNs and FCM clients: foreign or mocked calls.
- User and friend services, tokens and passwords: single statements or foreign code.
- The Mongo pool, SQL schema details, timestamps as data, logging and sleeping.
- GetInt, GetBool and StringUtils: they would add easy members only.
