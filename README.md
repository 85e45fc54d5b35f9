# SeaGL 2020 IRC bot: a Dafny model of its control engine

The SeaGL 2020 bot is an IRC bot for a virtual conference. Users send it
`!` commands. With these they create conference rooms (an IRC channel plus a
video-conference link), page through the rooms, and join topic lists. They
can also send "toasts", ask questions of a speaker, and set timers.
Operators can announce to every room, to the admin channels or to a topic
list. They can shuffle a topic's subscribers into groups, each of which
gets its own room, and read or clear a channel's questions.

Periodic tasks keep the bot running:

- a broadcaster sends one queued message per tick;
- a round-robin asks the server for each room's member list (NAMES), and
  every reply is stored as an occupancy sample;
- a limit check alerts the admins when the bot nears the server's channel
  limit;
- an audit removes and leaves rooms that were nearly empty on two audits in
  a row.

The model has five modules:

- `Text` (`text.dfy`) holds the Python string behaviour the code relies
  on. That covers `strip`, `lower`, `partition`, `split(" ")`,
  `" ".join`, `re.sub(' +', ' ', ·)`, `isdigit`, `int` and `str`, the
  replace-loops, and `sorted(key=str.lower)`. It also has the lemmas
  relating these functions (split/join round trip, integer parse round trip,
  sorting as a sorted permutation).
- `Tables` (`tables.dfy`) holds the SQLite tables as sequences of rows in
  rowid order. These are rooms, the message queue, channel counts, the
  channel-user audit, one subscriber list per topic and one question log
  per channel. The module also defines, as functions, what each query of
  `database.py` reads from those rows, and proves lemmas about them: paging,
  FIFO keys, the metric window, two-strikes flagging, topic subscription,
  question numbering and balanced group sizes.
- `Store` (`database.dfy`) is the `Database` class. Its fields are the
  tables, and its methods are the operations of `database.py` that change
  them. Each method is proved against the functions of `Tables`.
- `Commands` (`commands.dfy`) covers the pure side of `bot.py`:
  - parsing `privmsg` and the table of handlers and aliases;
  - how `_sendMessage` addresses a reply;
  - the sanitising loops;
  - the fixed reply texts;
  - the arguments of `timer`;
  - the row arithmetic of the NAMES round-robin.
- `Bot` (`bot.dfy`) is the `IRCProtocol` class together with its factory.
  Its fields are the database, the NAMES cursor `last_chan_id`, the admin
  channel list (which `admin_announce` rewrites in place) and `sent`. `sent`
  is the trace of everything written to the IRC connection: messages,
  NAMES queries, joins, topics, leaves and scheduled alarms. There is one
  method per handler and per periodic task.

Where the model needs to pin down an outside effect, it does so as follows:

- The randomness is supplied as parameters:
  - the shuffle's `random.randint` draws are a list of choices, each reduced
    into range;
  - the toast pick is a number reduced modulo 6.
- Question timestamps are an opaque `now` string.
- An exception inside a handler becomes its message, as `maybeDeferred` and
  `_showError` make it. That message is then sent as the reply.
- The operator list `config.botops` is a list of nicks. The sample
  configuration writes it as a string, and there `in` would test for a
  substring.

Behaviours of the code that the model keeps as written, though they look
unintended:

- The exception text of `shuffle` reaches the chat as the reply.
- A `timer` replies with the empty message of the reactor's
  already-running error.
- Two rooms can end up with the same channel, because `add_room` strips
  after it checks.
- Deleting rooms for inactivity happens even for protected channels.
- No dedicated "not found" reply exists for an unknown question table; it
  reads as "No Questions Found".

## Model

| member | source | states |
|---|---|---|
| Text.StripSlice | src/seagl-bot/bot.py:97 | `strip()` removes exactly the leading and trailing whitespace: the result is a slice of the input with only whitespace outside it |
| Text.ParseIntRoundTrip | src/seagl-bot/bot.py:524-525 | `int()` reads back every integer written by `str()` |
| Text.NatToStringRoundTrip | src/seagl-bot/database.py:423-439 | a count written with `str()` is all digits and denotes that count |
| Text.JoinSplit | src/seagl-bot/bot.py:247-252 | joining the pieces of `split(sep)` with `sep` gives back the text, and no piece contains `sep` |
| Text.WithoutSpec | src/seagl-bot/bot.py:277-279 | the replace-loop keeps exactly the characters outside the removed set, in order, and never lengthens the text |
| Text.WithoutStep | src/seagl-bot/bot.py:177-178 | one more `replace(c, "")` after removing a set is removing the set plus `c` |
| Text.CollapseSpacesSpec | src/seagl-bot/bot.py:179 | `re.sub(' +', ' ', s)` leaves no two adjacent spaces, keeps every non-space character, the first character, the words split at spaces and whether the text ends in a space, so each run of spaces becomes exactly one space |
| Text.SortByLower | src/seagl-bot/database.py:519-520 | `sorted(lst, key=str.lower)` is ordered by the lower-cased names and is a permutation of its input |
| Text.Find | src/seagl-bot/bot.py:102 | `partition(" ")` splits at the first space: every character before the index is not a space |
| Tables.FindName | src/seagl-bot/database.py:476-479 | a table name resolves to the first stored table equal to it ignoring case, as SQLite identifiers do |
| Tables.PutSpec | src/seagl-bot/database.py:704-709 | a dict assignment keeps keys distinct, maps the key to the new value, leaves every other key as it was and grows the dict only for a new key |
| Tables.AddRoomOutcome | src/seagl-bot/database.py:194-237 | `add_room` appends exactly one row (the lower-cased, stripped channel and link) when neither the lower-cased channel nor the link is taken, and leaves the table as it was otherwise |
| Tables.AddRoomKeepsUnique | src/seagl-bot/database.py:202-227 | with values that stripping does not change, rooms keep pairwise distinct channels and links |
| Tables.AddRoomStoresDuplicate | src/seagl-bot/database.py:228-231 | the check runs on the unstripped value but the stripped one is stored, so "#a\t" is accepted next to "#a" and two rooms share a channel |
| Tables.WithoutChannelsSpec | src/seagl-bot/database.py:240-250 | after `remove_rooms` a room remains exactly when it was there and its channel was not listed |
| Tables.ListRoomsSpec | src/seagl-bot/database.py:273-310 | the listing is '' exactly when (p-1)*4 exceeds the room count; otherwise it is the header then the rooms `(p-1)*4 .. min(p*4, n)`, at most four |
| Tables.PageRoomsSpec | src/seagl-bot/database.py:292-299 | a page that starts inside the list holds the rooms from (p-1)*4 on, four of them or as many as remain |
| Tables.RoomOnItsPage | src/seagl-bot/database.py:289-308 | room i is shown on page i/4+1 at line i%4 |
| Tables.ListRoomsDefaultPage | src/seagl-bot/database.py:281-286 | a page argument that is not all digits, or is 0, lists page 1 |
| Tables.ListRoomsTenRooms | src/seagl-bot/database.py:290-303 | with ten rooms, page 3 shows rooms 9 and 10 and page 4 is '' |
| Tables.EnqueueKeepsOrder | src/seagl-bot/database.py:345-363 | a new queue row takes a key above every queued key, so keys stay increasing in insertion order |
| Tables.DequeueHead | src/seagl-bot/database.py:313-342 | the first row in rowid order has the lowest key, and deleting by that key removes exactly the first row |
| Tables.MetricWindow | src/seagl-bot/database.py:683-697 | the metric reads the newest min(#samples, #rooms) samples |
| Tables.PutNewestFirstSpec | src/seagl-bot/database.py:699-709 | walking newest first, each channel ends with the value of its oldest sample in the window, because later assignments overwrite earlier ones |
| Tables.MetricSpec | src/seagl-bot/database.py:679-711 | the metric has distinct keys, at most one per window sample and per room, and maps each channel to its oldest sample in the window |
| Tables.MetricWindowOneRoom | src/seagl-bot/database.py:686-709 | with one room only the newest sample is read |
| Tables.AuditDictDistinct | src/seagl-bot/database.py:714-737 | the audit table read as a dict has distinct keys |
| Tables.FlaggedSpec | src/seagl-bot/database.py:752-756 | a channel is flagged exactly when its previous audit count and its current metric count are both below 3 |
| Tables.AuditDictOfLowRows | src/seagl-bot/database.py:758-771 | the rewritten audit table maps exactly the metric channels with a count below 3 to that count |
| Tables.TwoStrikes | src/seagl-bot/database.py:740-774 | across two audits, a channel is flagged exactly when it was below 3 in the first metric and is below 3 in the second |
| Tables.ExistingTopicFound | src/seagl-bot/database.py:616-632 | a topic that `topic_exists` finds under its exact name is the table its queries resolve to |
| Tables.SubscribedSpec | src/seagl-bot/database.py:443-507 | after `join_topic` the nick is on the list, no nick appears twice, table names stay distinct, other lists are untouched, and a nick already listed changes nothing |
| Tables.ListTopicsSpec | src/seagl-bot/database.py:510-527 | the listing is the ", "-join of a list ordered by lower case that is a permutation of the matched table names with "_list" removed: every topic table and every question table that `LIKE '%_list'` matches is listed, and nothing else |
| Tables.ListTableNameBack | src/seagl-bot/database.py:520 | a topic created under a name without "_list" is listed under that same name |
| Tables.QuestionTableListed | src/seagl-bot/database.py:517 | the query's `_` wildcard and case-blind LIKE also match a question table such as "questions_playlist", which is then listed as a topic |
| Tables.SubscribersRoundTrip | src/seagl-bot/database.py:530-551 | splitting the text `topic_subs` returns and dropping empty pieces gives back the subscribers, when none is empty or holds a space |
| Tables.ReadQuestionSpec | src/seagl-bot/database.py:130-159 | "No Questions Found" exactly when the log is empty or qnum exceeds its length; otherwise "[qnum/qcount] " followed by the qnum-th question's time, asker and text |
| Tables.FormatQuestionPrefix | src/seagl-bot/database.py:153-158 | a formatted question opens with "[qnum/qcount] ", followed by time, asker and text, so it is never "No Questions Found" |
| Tables.AddThenRead | src/seagl-bot/database.py:162-191 | a question added to a log of n becomes question n+1 of n+1, and the earlier questions read the same under the new total |
| Tables.ClearThenRead | src/seagl-bot/database.py:110-127 | after clearing, every number reads "No Questions Found", the next question is number 1, and other channels' logs are untouched |
| Tables.WithRoomsSpec | src/seagl-bot/database.py:62-73 | seeding only appends rooms, at most one per request, and keeps channels and links unique |
| Tables.PlanShuffleSpec | src/seagl-bot/database.py:554-590 | a shuffle that deals has two words, a positive all-digit group size and an exactly named topic; it deals that topic's subscribers into floor(users / size) groups |
| Tables.GroupRoomsDistinct | src/seagl-bot/database.py:606-612 | for two different groups j and k, the channel and the link that `add_room` checks for group k differ from the stripped ones stored for group j, so no group's room is refused because of another group's room |
| Tables.DealtSizesBalanced | src/seagl-bot/database.py:596-603 | dealing round-robin, any two group sizes differ by at most one |
| Tables.DealtSizesStep | src/seagl-bot/database.py:597-603 | appending user i to group i % n grows exactly that group's dealt size |
| Store.Draw | src/seagl-bot/database.py:599-600 | each draw is a valid index into the remaining users |
| Store.DealUsers | src/seagl-bot/database.py:590-604 | every subscriber lands in exactly one of the groups (multiset equality), group g gets its round-robin share, and sizes differ by at most one |
| Store.Database.constructor | src/seagl-bot/database.py:51-73 | a new database holds the rooms of the initial channels, then of the admin channels, added as `add_room` by "seagl-bot"; the other tables are empty |
| Store.SeedRooms | src/seagl-bot/database.py:63-73 | one seeding loop adds, in order, the room prefix + name on channel "#" + name for each configured name, through `add_room`'s checks |
| Store.Database.AddRoom | src/seagl-bot/database.py:194-237 | returns whether the lower-cased channel and link were free and appends the stripped room exactly then |
| Store.Database.RemoveRooms | src/seagl-bot/database.py:240-250 | deletes every room whose channel is listed and returns True |
| Store.Database.EnqueueMsg | src/seagl-bot/database.py:345-363 | appends one row under the next key and keeps keys increasing |
| Store.Database.DequeueMsg | src/seagl-bot/database.py:313-342 | on an empty queue returns () and changes nothing; otherwise returns the first row (key as text) and removes exactly it |
| Store.Database.MsgQueueSize | src/seagl-bot/database.py:423-439 | the queue length as a decimal string |
| Store.Database.AddChannelCount | src/seagl-bot/database.py:655-676 | appends one sample: the channel, the number of nicks and the nicks joined by "," |
| Store.Database.JoinTopic | src/seagl-bot/database.py:443-507 | refused, with no change, exactly when the table does not exist under its exact name and the nick is not an operator; otherwise the nick is subscribed, reporting whether it already was |
| Store.Database.ShuffleUsers | src/seagl-bot/database.py:554-613 | refusals and division errors change nothing; otherwise the subscribers are dealt into balanced groups and one room is added per group |
| Store.Database.AddGroupRooms | src/seagl-bot/database.py:606-612 | one `add_room` per group k in order, on channel "#seagl-<topic>_<k>" with link prefix + "<topic>_<k>" |
| Store.Database.AddQuestion | src/seagl-bot/database.py:162-191 | appends the question to the channel's log, creating the log when missing |
| Store.Database.ClearQuestionList | src/seagl-bot/database.py:110-127 | False with no change when the channel has no log; otherwise empties exactly that log |
| Store.Database.AuditChannels | src/seagl-bot/database.py:740-774 | returns the channels flagged by the previous audit and the current metric, and rewrites the audit table to the metric's channels below 3 |
| Commands.ParseCommandSpec | src/seagl-bot/bot.py:96-102 | a message is a command exactly when its stripped form starts with "!"; a command name holds no space and does not start with "!" |
| Commands.ParseCommandRoundTrip | src/seagl-bot/bot.py:97-102 | "!name rest" parses back into that name and rest |
| Commands.HandlerTable | src/seagl-bot/bot.py:104-106 | a name finds a handler exactly when it is that handler's name or one of its aliases |
| Commands.HandlerNamesCaseSensitive | src/seagl-bot/bot.py:104 | names differing in case are different commands ("cr" is createroom, "CR" is nothing) |
| Commands.ReplyLines | src/seagl-bot/bot.py:115-118 | a reply is at most one message |
| Commands.ReplyAddressing | src/seagl-bot/bot.py:109-118 | in a private chat the reply goes to the sender unprefixed and a None reply sends nothing; in a channel the reply goes to the channel as "nick, " followed by the text or "None" |
| Commands.RemoveEach | src/seagl-bot/bot.py:277-279 | the sanitising loop removes exactly the listed characters |
| Commands.WithHash | src/seagl-bot/bot.py:184-185 | a channel gets a leading "#" exactly when it lacks one |
| Commands.PrefixHashes | src/seagl-bot/bot.py:183-185 | the in-place loop gives every channel its "#" |
| Commands.WithHashIdempotent | src/seagl-bot/bot.py:213-216 | rewriting the admin channels a second time changes nothing |
| Commands.Toast | src/seagl-bot/bot.py:343 | the toast is one of the six fixed quotes |
| Commands.QuestionNumber | src/seagl-bot/bot.py:364-373 | the page is the sanitised argument when it is all digits and at least 1, else 1 |
| Commands.TimerParses | src/seagl-bot/bot.py:513-525 | "!timer m name" with whole minutes m and a one-word name reads m and the name back |
| Commands.ChannelRowIndex | src/seagl-bot/database.py:366-381 | row r of `get_channel_row`, for 0 <= r <= n, is the room at index (r-1) mod n, so row 0 is the last room |
| Commands.NextRowMod | src/seagl-bot/bot.py:555-561 | the next row lies in 0..n and is congruent to the cursor plus one |
| Commands.RoundRobin | src/seagl-bot/bot.py:555-565 | from cursor c the room asked for is room c mod n, and the new cursor is congruent to c + 1 |
| Commands.RoundRobinCycle | src/seagl-bot/bot.py:551-569 | over an unchanged room list, tick j asks for room (c + j) mod n, so n ticks visit every room |
| Bot.LeavesSpec | src/seagl-bot/bot.py:647-649 | a channel is left exactly when flagged and not both an admin and an initial channel, always with the reason "Too Few Participants..." |
| Bot.ProtectionNeverApplies | src/seagl-bot/bot.py:648 | with bare initial channel names and flagged channels that carry "#", every flagged channel is left |
| Bot.ListAnnounceReachesSubscribers | src/seagl-bot/bot.py:250-258 | for a topic that exists, the destinations read back from `topic_subs` are exactly its subscribers |
| Bot.MetricWithinLimit | src/seagl-bot/bot.py:627-628 | with at most 105 rooms the limit alert cannot fire |
| Bot.Bot.constructor | src/seagl-bot/bot.py:653-665 | the factory seeds the database and joins the stored rooms, then the initial and the admin channels; the cursor starts at 1 |
| Bot.Bot.SignedOn | src/seagl-bot/bot.py:66-69 | one join per channel of the factory's list, in order |
| Bot.Bot.EnqueueToAll | src/seagl-bot/bot.py:187-188 | one queued message per destination, in order |
| Bot.Bot.Privmsg | src/seagl-bot/bot.py:95-112 | a stripped message starting with "!" whose name has a handler runs it and then sends its addressed reply; anything else changes nothing |
| Bot.Bot.Dispatch | src/seagl-bot/bot.py:125-159 | ping, help and schedule return their fixed texts, listtopics and listrooms return the listings, and names sends a NAMES line, none of them changing the store |
| Bot.Bot.RunCommand | src/seagl-bot/bot.py:104-112 | the handlers that use the store keep its invariants and only append to the lines sent |
| Bot.Bot.ConfAnnounceCommand | src/seagl-bot/bot.py:162-189 | a non-operator gets "Operation not permitted user." and nothing is queued; otherwise the sanitised text is queued for every room's channel with its "#" |
| Bot.Bot.AdminAnnounceCommand | src/seagl-bot/bot.py:194-221 | as conf_announce for the admin channels, which keep the "#" added to them |
| Bot.Bot.ListAnnounceCommand | src/seagl-bot/bot.py:226-262 | operators only; an empty argument or an unknown topic is refused without queueing; otherwise the words after the topic are queued for each subscriber |
| Bot.Bot.JoinTopicCommand | src/seagl-bot/bot.py:267-289 | an argument that sanitises to "" is refused; otherwise `join_topic` runs and the reply says "Adding nick to list: topic" even when the join was refused |
| Bot.Bot.TopicSubsCommand | src/seagl-bot/bot.py:294-313 | an argument that sanitises to "" is refused; otherwise the reply is the topic's subscriber text |
| Bot.Bot.TeaglCommand | src/seagl-bot/bot.py:333-345 | the unsanitised argument names the recipient; an empty one is refused, otherwise one toast is queued for the channel |
| Bot.Bot.QuestionsCommand | src/seagl-bot/bot.py:349-376 | a non-operator gets "Not permitted"; otherwise the requested question of this channel's log |
| Bot.Bot.AskCommand | src/seagl-bot/bot.py:380-409 | a question that sanitises to "" is refused; otherwise it is stored in the channel's log |
| Bot.Bot.ClearQuestionListCommand | src/seagl-bot/bot.py:413-425 | a non-operator gets "Not permitted" with no change; otherwise the log is cleared or "Failed to clear list" |
| Bot.Bot.CreateRoomCommand | src/seagl-bot/bot.py:428-459 | an argument that sanitises to "" is refused; otherwise room "#seagl-id" with link prefix+id is added when free, and the bot joins it and sets its topic |
| Bot.Bot.ShuffleCommand | src/seagl-bot/bot.py:480-495 | a non-operator is refused with no change; otherwise the reply is "done" unless the shuffle raised, whose message becomes the reply |
| Bot.Bot.TimerCommand | src/seagl-bot/bot.py:504-540 | a bad minute count is refused; otherwise the confirmation is sent, an alarm of minutes*60 seconds is scheduled and the reply is the empty error message |
| Bot.Bot.Broadcaster | src/seagl-bot/bot.py:135-153 | at most one message per tick: the oldest queued one, sent to its destination and removed |
| Bot.Bot.QueryNames | src/seagl-bot/bot.py:551-569 | with no rooms the tick fails and changes nothing; otherwise it asks for room cursor mod n and moves the cursor to that row, or resets the cursor to 1 when the row has no channel |
| Bot.Bot.IrcRplNamreply | src/seagl-bot/bot.py:572-599 | a reply for an existing (lower-cased) room records one sample; a short reply or an unknown channel records nothing |
| Bot.Bot.CheckChannelLimit | src/seagl-bot/bot.py:622-633 | the alert is queued for every admin channel, with its "#", exactly when the metric has more than 105 channels |
| Bot.Bot.ChanUserAudit | src/seagl-bot/bot.py:636-650 | every flagged room is deleted, protected or not, and the unprotected flagged channels are left |
| Bot.Bot.LeaveChannels | src/seagl-bot/bot.py:647-649 | one leave per unprotected flagged channel, in order |

## Left out

- SQLite plumbing is not modelled. That covers connections, cursors,
  commits, the try/except-and-log branches and directory creation. The
  tables are modelled as sequences that always exist.
  - The CREATE TABLE text of `channel_counts` and `channel_user_audit`
    (src/seagl-bot/database.py:29-46) has no comma after the Timestamp
    default. The model assumes both tables exist as evidently intended.
- The model does not check whether a table name is a valid SQL identifier.
  Names are spliced into queries unescaped, so quotes in a name would make
  the query fail, and SQL injection is out of scope.
  - This matters for `topic_exists`/`channel_exists` and for the names of
    topic and question tables.
- Topic tables and question tables live in SQLite's single namespace. The
  model keeps them in two lists. Only `list_topics` reads both kinds.
- Tables.ListedTables: it puts the topic tables before the question
  tables, where SQLite returns them in creation order. After sorting, the
  order differs only between names that are equal ignoring case.
- The seeding runs only when the database file is new. The model always
  starts from a new database.
- The Twisted reactor is not modelled: no `LoopingCall` scheduling, no TLS
  connection, no `IRCFactory`'s exit on an empty channel list, no `run` or
  `main`.
  - A `LoopingCall` stops for good after its task raises. For example,
    `query_names` with no rooms does so; the model only reports the
    failure.
- IRC framing is not modelled: `msg` splitting long or multi-line text into
  several lines.
- Logging is not modelled: channel_logger, the `userJoined`/`userLeft`
  logging, `publish_metrics`' JSON file and all `logging` calls.
- Bot.Bot.TimerCommand: a negative time makes Twisted's `callLater` fail an
  assertion before scheduling. The model still records the alarm, because
  the assertion text depends on the Twisted version.
- Store.Database.ShuffleUsers: the message of the "integer division or
  modulo by zero" error differs between Python versions. The model uses
  this text.
- Store.Database.ShuffleUsers: the model computes the group count with
  exact integer division instead of `int(len / size)` on floats. The two
  agree for table sizes that fit in a float's mantissa.
- Text.Lower: lower-casing and `isdigit` are ASCII only. Unicode case
  mapping and Unicode digits are not modelled, nor are underscores inside
  `int()` literals.
- Store.Draw: the distribution of `random.randint` and of the toast pick is
  not modelled. Any supplied choice is taken as valid.
- Bot.Bot.Privmsg: its contract states only the dispatch and where the
  reply goes. Each handler's effect is stated on that handler's own method,
  which `Dispatch` calls.
- Bot.Bot.Dispatch: its contract states the effect only of the handlers
  without a method of their own. The other handlers' effects are on their
  methods.
- Bot.Bot.RunCommand: its contract states only that the store's invariants
  hold and that lines are only appended. Each handler's effect is on its own
  method.
- The `channel_logger` object that each handler writes to is not modelled.
