/** The IRC side of the bot (src/seagl-bot/bot.py): the `IRCProtocol`
    object, its command handlers and its periodic tasks, over the store of
    `Store.Database`. What the bot writes to its IRC connection is kept, in
    order, in `sent`. */
module Bot {
  import opened Text
  import opened Tables
  import opened Store
  import opened Commands

  /** The settings read from the `config` module. */
  datatype Config = Config(
    nickname: string,
    botops: seq<string>,
    initialChannels: seq<string>,
    channelsAdmin: seq<string>,
    jitsiPrefix: string)

  /** One `join` per channel, in order. */
  function Joins(channels: seq<string>): (lines: seq<Line>)
    ensures |lines| == |channels|
    ensures forall i :: 0 <= i < |channels| ==> lines[i] == JoinChannel(channels[i])
  {
    seq(|channels|, i requires 0 <= i < |channels| => JoinChannel(channels[i]))
  }

  /** The channels `chan_user_audit` leaves: every flagged channel except
      those listed both as an admin channel and as an initial channel. */
  function Leaves(flagged: seq<string>, admin: seq<string>, initial: seq<string>): seq<Line>
    decreases |flagged|
  {
    if flagged == [] then []
    else
      var c := flagged[|flagged| - 1];
      Leaves(flagged[..|flagged| - 1], admin, initial)
        + (if c in admin && c in initial then [] else [Leave(c, LEAVE_REASON)])
  }

  /** A channel is left exactly when it is flagged and not protected, and
      every leave carries the fixed reason. */
  lemma {:induction false} LeavesSpec(flagged: seq<string>, admin: seq<string>, initial: seq<string>)
    ensures forall c :: Leave(c, LEAVE_REASON) in Leaves(flagged, admin, initial) <==> c in flagged && !(c in admin && c in initial)
    ensures forall l :: l in Leaves(flagged, admin, initial) ==> l.Leave? && l.reason == LEAVE_REASON
    decreases |flagged|
  {
    if flagged != [] {
      var front := flagged[..|flagged| - 1];
      LeavesSpec(front, admin, initial);
      assert flagged == front + [flagged[|flagged| - 1]];
    }
  }

  /** The initial channels are configured without "#" while the rooms the
      audit flags carry one, so the protection never applies: every flagged
      channel is left. */
  lemma {:induction false} ProtectionNeverApplies(flagged: seq<string>, admin: seq<string>, initial: seq<string>)
    requires forall c :: c in initial ==> !StartsWith(c, "#")
    requires forall c :: c in flagged ==> StartsWith(c, "#")
    ensures |Leaves(flagged, admin, initial)| == |flagged|
    ensures forall i :: 0 <= i < |flagged| ==> Leaves(flagged, admin, initial)[i] == Leave(flagged[i], LEAVE_REASON)
    decreases |flagged|
  {
    if flagged != [] {
      var front := flagged[..|flagged| - 1];
      assert forall c :: c in front ==> c in flagged;
      ProtectionNeverApplies(front, admin, initial);
      assert flagged[|flagged| - 1] in flagged;
    }
  }

  /** The subscribers `list_announce` reads back through `topic_subs` are
      the topic's own list, provided no nick is empty or holds a space. */
  lemma ListAnnounceReachesSubscribers(topics: seq<TopicList>, topic: string)
    requires DistinctNames(TopicTables(topics)) && TopicExists(topics, ListTable(topic))
    requires var subs := topics[FindTopic(topics, ListTable(topic))].subscribers;
      forall i :: 0 <= i < |subs| ==> subs[i] != "" && ' ' !in subs[i]
    ensures FindTopic(topics, ListTable(topic)) < |topics|
    ensures NonEmpty(Split(Tables.TopicSubs(topics, topic), ' ')) == topics[FindTopic(topics, ListTable(topic))].subscribers
  {
    ExistingTopicFound(topics, ListTable(topic));
    SubscribersRoundTrip(topics[FindTopic(topics, ListTable(topic))].subscribers);
  }

  /** With no more rooms than the limit the metric cannot exceed it. */
  lemma MetricWithinLimit(samples: seq<Sample>, numRooms: nat)
    requires numRooms <= CHANNEL_LIMIT
    ensures |ChannelCountMetric(samples, numRooms)| <= CHANNEL_LIMIT
  {
    MetricSpec(samples, numRooms);
  }

  /** `IRCProtocol` together with the `IRCFactory` that built it. */
  class Bot {
    const cfg: Config
    /** The database the factory and the handlers open. */
    const db: Database
    /** The factory's join list: the stored rooms, then the initial and the
        admin channels. */
    const channels: seq<string>
    /** `config.channels_admin`, which `admin_announce` rewrites in place. */
    var channelsAdmin: seq<string>
    /** `last_chan_id`, the cursor of the NAMES round-robin. */
    var lastChanId: int
    var sent: seq<Line>

    ghost predicate Valid()
      reads this, db
    {
      db.Valid() && lastChanId >= 0
    }

    /** `IRCFactory(passwd)` over a new database, then `IRCProtocol()`. */
    constructor (cfg: Config)
      ensures Valid() && fresh(db)
      ensures this.cfg == cfg
      ensures db.rooms == WithRooms([], SeedRequests(cfg.jitsiPrefix, cfg.initialChannels + cfg.channelsAdmin))
      ensures db.queue == [] && db.samples == [] && db.audit == [] && db.topics == [] && db.logs == []
      ensures channels == RoomChannels(db.rooms) + cfg.initialChannels + cfg.channelsAdmin
      ensures channelsAdmin == cfg.channelsAdmin && lastChanId == 1 && sent == []
    {
      this.cfg := cfg;
      var store := new Database(cfg.jitsiPrefix, cfg.initialChannels, cfg.channelsAdmin);
      db := store;
      channels := RoomChannels(store.rooms) + cfg.initialChannels + cfg.channelsAdmin;
      channelsAdmin := cfg.channelsAdmin;
      lastChanId := 1;
      sent := [];
    }

    /** `signedOn`: join every channel of the factory's list. */
    method SignedOn()
      modifies this`sent
      ensures sent == old(sent) + Joins(channels)
    {
      for i := 0 to |channels|
        invariant sent == old(sent) + Joins(channels[..i])
      {
        assert Joins(channels[..i + 1]) == Joins(channels[..i]) + [JoinChannel(channels[i])];
        sent := sent + [JoinChannel(channels[i])];
      }
      assert channels[..|channels|] == channels;
    }

    /** One `enqueue_msg(dest, msg)` per destination, in order. */
    method EnqueueToAll(dests: seq<string>, msg: string)
      requires Valid()
      modifies db`queue
      ensures Valid()
      ensures Pending(db.queue) == Pending(old(db.queue)) + Addressed(dests, msg)
    {
      for i := 0 to |dests|
        invariant Valid()
        invariant Pending(db.queue) == Pending(old(db.queue)) + Addressed(dests[..i], msg)
      {
        var before := db.queue;
        var ok := db.EnqueueMsg(dests[i], msg);
        assert Pending(db.queue) == Pending(before) + [(dests[i], msg)];
        assert Addressed(dests[..i + 1], msg) == Addressed(dests[..i], msg) + [(dests[i], msg)];
      }
      assert dests[..|dests|] == dests;
    }

    /** `privmsg`: a stripped message starting with "!" whose name has a
        handler runs it; the reply (or the exception's message) is then sent
        as `_sendMessage` addresses it. Anything else changes nothing. */
    method Privmsg(user: string, channel: string, message: string, now: string, choices: seq<nat>, toastPick: nat)
      returns (r: Option<Outcome>)
      requires Valid()
      modifies this`sent, this`channelsAdmin, db`queue, db`rooms, db`topics, db`logs
      ensures Valid()
      ensures r.Some? <==> ParseCommand(message).Some? && HandlerFor(ParseCommand(message).value.name).Some?
      ensures r.None? ==> unchanged(this) && unchanged(db)
      ensures r.Some? ==>
        var reply := ReplyLines(cfg.nickname, channel, Nick(user), r.value);
        && |sent| >= |old(sent)| + |reply|
        && sent[..|old(sent)|] == old(sent)
        && sent[|sent| - |reply|..] == reply
    {
      var command := ParseCommand(message);
      if command.None? {
        return None;
      }
      var handler := HandlerFor(command.value.name);
      if handler.None? {
        return None;
      }
      var nick := Nick(user);
      var outcome := Dispatch(handler.value, nick, channel, command.value.rest, now, choices, toastPick);
      var reply := ReplyLines(cfg.nickname, channel, nick, outcome);
      sent := sent + reply;
      return Some(outcome);
    }

    /** The handler call of `privmsg`, inside `maybeDeferred`: a handler's
        own traffic comes before the reply. */
    method Dispatch(h: Handler, nick: string, channel: string, rest: string, now: string, choices: seq<nat>, toastPick: nat)
      returns (outcome: Outcome)
      requires Valid()
      modifies this`sent, this`channelsAdmin, db`queue, db`rooms, db`topics, db`logs
      ensures Valid()
      ensures |sent| >= |old(sent)| && sent[..|old(sent)|] == old(sent)
      ensures h == Ping ==> outcome == Returned("pong") && unchanged(this) && unchanged(db)
      ensures h == Help ==> outcome == Returned(HELP) && unchanged(this) && unchanged(db)
      ensures h == Schedule ==> outcome == Returned(SCHEDULE_URL) && unchanged(this) && unchanged(db)
      ensures h == ListTopics ==> outcome == Returned(Tables.ListTopics(db.topics, db.logs)) && unchanged(this) && unchanged(db)
      ensures h == ListRooms ==> outcome == Returned(Tables.ListRooms(db.rooms, rest)) && unchanged(this) && unchanged(db)
      ensures h == Names ==> outcome == ReturnedNothing && sent == old(sent) + [NamesQuery(channel)] && unchanged(db)
    {
      match h
      case Ping => outcome := Returned("pong");
      case Help => outcome := Returned(HELP);
      case Schedule => outcome := Returned(SCHEDULE_URL);
      case ListTopics => outcome := Returned(Tables.ListTopics(db.topics, db.logs));
      case ListRooms => outcome := Returned(Tables.ListRooms(db.rooms, rest));
      case Names =>
        sent := sent + [NamesQuery(channel)];
        outcome := ReturnedNothing;
      case _ => outcome := RunCommand(h, nick, channel, rest, now, choices, toastPick);
    }

    /** The handlers that consult or change the store. */
    method RunCommand(h: Handler, nick: string, channel: string, rest: string, now: string, choices: seq<nat>, toastPick: nat)
      returns (outcome: Outcome)
      requires Valid()
      requires h !in {Ping, Help, Schedule, ListTopics, ListRooms, Names}
      modifies this`sent, this`channelsAdmin, db`queue, db`rooms, db`topics, db`logs
      ensures Valid()
      ensures |sent| >= |old(sent)| && sent[..|old(sent)|] == old(sent)
    {
      match h
      case ConfAnnounce => outcome := ConfAnnounceCommand(nick, rest);
      case AdminAnnounce => outcome := AdminAnnounceCommand(nick, rest);
      case ListAnnounce => outcome := ListAnnounceCommand(nick, rest);
      case JoinTopic => outcome := JoinTopicCommand(nick, rest);
      case TopicSubs => outcome := TopicSubsCommand(rest);
      case Teagl => outcome := TeaglCommand(nick, channel, rest, toastPick);
      case Questions => outcome := QuestionsCommand(nick, channel, rest);
      case Ask => outcome := AskCommand(nick, channel, rest, now);
      case ClearQuestionList => outcome := ClearQuestionListCommand(nick, channel);
      case CreateRoom => outcome := CreateRoomCommand(nick, rest);
      case Shuffle => outcome := ShuffleCommand(nick, rest, choices);
      case Timer => outcome := TimerCommand(channel, rest);
    }

    /** `conf_announce` (alias CA): operators only; the sanitised text,
        prefixed "Announcement: ", is queued for every room's channel with
        its "#". */
    method ConfAnnounceCommand(nick: string, rest: string) returns (outcome: Outcome)
      requires Valid()
      modifies db`queue
      ensures Valid()
      ensures nick !in cfg.botops ==> outcome == Returned(OPERATION_NOT_PERMITTED) && db.queue == old(db.queue)
      ensures nick in cfg.botops ==>
        && outcome == Returned(ANNOUNCEMENT_QUEUED)
        && Pending(db.queue) == Pending(old(db.queue)) + Addressed(Hashed(RoomChannels(db.rooms)), "Announcement: " + CleanText(rest))
    {
      if nick !in cfg.botops {
        return Returned(OPERATION_NOT_PERMITTED);
      }
      var sanitised := RemoveEach(rest, TEXT_CHARS);
      var msg := CollapseSpaces(sanitised);
      var confChannels := PrefixHashes(RoomChannels(db.rooms));
      EnqueueToAll(confChannels, "Announcement: " + msg);
      return Returned(ANNOUNCEMENT_QUEUED);
    }

    /** `admin_announce` (alias AA): as `conf_announce`, to the admin
        channels, which keep the "#" it adds. */
    method AdminAnnounceCommand(nick: string, rest: string) returns (outcome: Outcome)
      requires Valid()
      modifies db`queue, this`channelsAdmin
      ensures Valid()
      ensures nick !in cfg.botops ==>
        outcome == Returned(OPERATION_NOT_PERMITTED) && db.queue == old(db.queue) && channelsAdmin == old(channelsAdmin)
      ensures nick in cfg.botops ==>
        && outcome == Returned(ANNOUNCEMENT_QUEUED)
        && channelsAdmin == Hashed(old(channelsAdmin))
        && Pending(db.queue) == Pending(old(db.queue)) + Addressed(channelsAdmin, "Announcement: " + CleanText(rest))
    {
      if nick !in cfg.botops {
        return Returned(OPERATION_NOT_PERMITTED);
      }
      var sanitised := RemoveEach(rest, TEXT_CHARS);
      var msg := CollapseSpaces(sanitised);
      channelsAdmin := PrefixHashes(channelsAdmin);
      EnqueueToAll(channelsAdmin, "Announcement: " + msg);
      return Returned(ANNOUNCEMENT_QUEUED);
    }

    /** `list_announce` (alias LA): operators only; the first word names a
        topic whose table must exist under its exact name; the remaining
        words are queued for each subscriber read back from `topic_subs`. */
    method ListAnnounceCommand(nick: string, rest: string) returns (outcome: Outcome)
      requires Valid()
      modifies db`queue
      ensures Valid()
      ensures nick !in cfg.botops ==> outcome == Returned(OPERATION_NOT_PERMITTED) && db.queue == old(db.queue)
      ensures nick in cfg.botops && rest == "" ==> outcome == Returned(MISSING_LIST_ARGS) && db.queue == old(db.queue)
      ensures nick in cfg.botops && rest != "" ==>
        var words := Split(CleanText(rest), ' ');
        && (!TopicExists(db.topics, ListTable(words[0])) ==> outcome == Returned(NO_SUCH_TOPIC) && db.queue == old(db.queue))
        && (TopicExists(db.topics, ListTable(words[0])) ==>
              && outcome == Returned(ANNOUNCEMENT_QUEUED)
              && Pending(db.queue) == Pending(old(db.queue))
                   + Addressed(NonEmpty(Split(Tables.TopicSubs(db.topics, words[0]), ' ')), "Announcement: " + Join(words[1..], " ")))
    {
      if nick !in cfg.botops {
        return Returned(OPERATION_NOT_PERMITTED);
      }
      if rest == "" {
        return Returned(MISSING_LIST_ARGS);
      }
      var sanitised := RemoveEach(rest, TEXT_CHARS);
      var words := Split(CollapseSpaces(sanitised), ' ');
      var topic := words[0];
      if !TopicExists(db.topics, ListTable(topic)) {
        return Returned(NO_SUCH_TOPIC);
      }
      var msg := Join(words[1..], " ");
      var subscribers := NonEmpty(Split(Tables.TopicSubs(db.topics, topic), ' '));
      EnqueueToAll(subscribers, "Announcement: " + msg);
      return Returned(ANNOUNCEMENT_QUEUED);
    }

    /** `jointopic` (aliases jt, joingame): the topic is the argument with
        spaces and quote characters removed; `join_topic` then runs and its
        result is not looked at. */
    method JoinTopicCommand(nick: string, rest: string) returns (outcome: Outcome)
      requires Valid()
      modifies db`topics
      ensures Valid()
      ensures var topic := Without(rest, ID_CHARS);
        && (topic == "" ==> outcome == Returned(NO_ARGUMENT) && db.topics == old(db.topics))
        && (topic != "" ==>
              && outcome == Returned("Adding " + nick + " to list: " + topic)
              && (!TopicExists(old(db.topics), ListTable(topic)) && nick !in cfg.botops ==> db.topics == old(db.topics))
              && (TopicExists(old(db.topics), ListTable(topic)) || nick in cfg.botops ==>
                    db.topics == Subscribed(old(db.topics), ListTable(topic), nick)))
    {
      var topic := RemoveEach(rest, ID_CHARS);
      if topic == "" {
        return Returned(NO_ARGUMENT);
      }
      var joined := db.JoinTopic(cfg.botops, nick, topic);
      return Returned("Adding " + nick + " to list: " + topic);
    }

    /** `topicsubs` (alias ts): the subscriber text of the sanitised topic. */
    method TopicSubsCommand(rest: string) returns (outcome: Outcome)
      ensures var topic := Without(rest, ID_CHARS);
        && (topic == "" ==> outcome == Returned(NO_ARGUMENT))
        && (topic != "" ==> outcome == Returned(Tables.TopicSubs(db.topics, topic)))
    {
      var topic := RemoveEach(rest, ID_CHARS);
      if topic == "" {
        return Returned(NO_ARGUMENT);
      }
      return Returned(Tables.TopicSubs(db.topics, topic));
    }

    /** `teagl` (alias tea): the sanitising loop's result is never used, so
        the recipient is the raw argument; one toast is queued for the
        channel. */
    method TeaglCommand(nick: string, channel: string, rest: string, toastPick: nat) returns (outcome: Outcome)
      requires Valid()
      modifies db`queue
      ensures Valid()
      ensures rest == "" ==> outcome == Returned(NO_ARGUMENT) && db.queue == old(db.queue)
      ensures rest != "" ==>
        && outcome == Returned(MESSAGE_QUEUED)
        && db.queue == old(db.queue) + [QueuedMsg(NextId(old(db.queue)), channel, ToastMessage(rest, nick, Toast(toastPick)))]
    {
      var userId := rest;
      var roomId := userId;
      for i := 0 to |ID_CHARS| {
        roomId := ReplaceAll(userId, [ID_CHARS[i]], "");
      }
      if userId == "" {
        return Returned(NO_ARGUMENT);
      }
      var ok := db.EnqueueMsg(channel, ToastMessage(userId, nick, Toast(toastPick)));
      return Returned(MESSAGE_QUEUED);
    }

    /** `questions` (alias q): operators only; the page number is the
        sanitised argument when it is all digits and at least 1, else 1. */
    method QuestionsCommand(nick: string, channel: string, rest: string) returns (outcome: Outcome)
      ensures nick !in cfg.botops ==> outcome == Returned(NOT_PERMITTED)
      ensures nick in cfg.botops ==>
        outcome == Returned(ReadQuestion(db.logs, QuestionNumber(Without(rest, ID_CHARS)), channel))
    {
      if nick !in cfg.botops {
        return Returned(NOT_PERMITTED);
      }
      var input := RemoveEach(rest, ID_CHARS);
      return Returned(ReadQuestion(db.logs, QuestionNumber(input), channel));
    }

    /** `ask`: the question with quote characters removed is stored under
        the channel's question table at time `now`. */
    method AskCommand(nick: string, channel: string, rest: string, now: string) returns (outcome: Outcome)
      requires Valid()
      modifies db`logs
      ensures Valid()
      ensures var question := Without(rest, TEXT_CHARS);
        && (question == "" ==> outcome == Returned(NO_ARGUMENT) && db.logs == old(db.logs))
        && (question != "" ==>
              && outcome == Returned(QUESTION_SUBMITTED)
              && db.logs == WithQuestion(old(db.logs), channel, Question(nick, channel, question, now)))
    {
      var question := RemoveEach(rest, TEXT_CHARS);
      question := RemoveEach(rest, TEXT_CHARS);
      if question == "" {
        return Returned(NO_ARGUMENT);
      }
      var ok := db.AddQuestion(nick, question, channel, now);
      return Returned(QUESTION_SUBMITTED);
    }

    /** `clear_question_list`: operators only; fails when the channel has
        no question table. */
    method ClearQuestionListCommand(nick: string, channel: string) returns (outcome: Outcome)
      requires Valid()
      modifies db`logs
      ensures Valid()
      ensures nick !in cfg.botops ==> outcome == Returned(NOT_PERMITTED) && db.logs == old(db.logs)
      ensures nick in cfg.botops && Cleared(old(db.logs), channel).None? ==>
        outcome == Returned(CLEAR_FAILED) && db.logs == old(db.logs)
      ensures nick in cfg.botops && Cleared(old(db.logs), channel).Some? ==>
        outcome == Returned(CLEARED) && db.logs == Cleared(old(db.logs), channel).value
    {
      if nick !in cfg.botops {
        return Returned(NOT_PERMITTED);
      }
      var ok := db.ClearQuestionList(channel);
      if !ok {
        return Returned(CLEAR_FAILED);
      }
      return Returned(CLEARED);
    }

    /** `createroom` (alias cr): the sanitised name gives channel
        "#seagl-<name>" and link prefix + name; the room is added when free,
        and the bot joins the channel and sets its topic to the link either
        way. */
    method CreateRoomCommand(nick: string, rest: string) returns (outcome: Outcome)
      requires Valid()
      modifies db`rooms, this`sent
      ensures Valid()
      ensures var id := Without(rest, ID_CHARS);
        && (id == "" ==> outcome == Returned(NO_ARGUMENT) && db.rooms == old(db.rooms) && sent == old(sent))
        && (id != "" ==>
              var channel := "#seagl-" + id;
              var link := cfg.jitsiPrefix + id;
              && outcome == Returned(CreatedReply(channel, link))
              && db.rooms == WithRoom(old(db.rooms), RoomRequest(nick, link, channel))
              && sent == old(sent) + [JoinChannel(channel), SetTopic(channel, link)])
    {
      var id := RemoveEach(rest, ID_CHARS);
      if id == "" {
        return Returned(NO_ARGUMENT);
      }
      var channel := "#seagl-" + id;
      var link := cfg.jitsiPrefix + id;
      var added := db.AddRoom(nick, link, channel);
      sent := sent + [JoinChannel(channel), SetTopic(channel, link)];
      return Returned(CreatedReply(channel, link));
    }

    /** `shuffle` (alias st): operators only; whatever `shuffle_users`
        returns the reply is "done", and its exceptions become the reply. */
    method ShuffleCommand(nick: string, rest: string, choices: seq<nat>) returns (outcome: Outcome)
      requires Valid()
      modifies db`rooms
      ensures Valid()
      ensures nick !in cfg.botops ==> outcome == Returned(OPERATION_NOT_PERMITTED) && db.rooms == old(db.rooms)
      ensures nick in cfg.botops ==>
        var plan := PlanShuffle(db.topics, rest);
        && (plan.Fails? ==> outcome == Raised(plan.error) && db.rooms == old(db.rooms))
        && (plan.Refused? ==> outcome == Returned("done") && db.rooms == old(db.rooms))
        && (plan.Deal? ==>
              outcome == Returned("done")
              && db.rooms == WithRooms(old(db.rooms), GroupRequests(cfg.jitsiPrefix, plan.table, plan.groupCount)))
    {
      if nick !in cfg.botops {
        return Returned(OPERATION_NOT_PERMITTED);
      }
      var result, groups := db.ShuffleUsers(cfg.jitsiPrefix, rest, choices);
      if result.Raised? {
        return result;
      }
      return Returned("done");
    }

    /** `timer`: the first word is minutes and the second an optional name;
        a bad number is refused; otherwise the confirmation goes to the
        channel and the alarm is scheduled, after which `reactor.run()`
        fails (the reactor is already running) with an empty message. */
    method TimerCommand(channel: string, rest: string) returns (outcome: Outcome)
      modifies this`sent
      ensures var words := TimerWords(rest);
        && (ParseInt(words.0).None? ==> outcome == Returned(BAD_TIME) && sent == old(sent))
        && (ParseInt(words.0).Some? ==>
              var seconds := ParseInt(words.0).value * 60;
              && outcome == Raised("")
              && sent == old(sent) + [Msg(channel, SetMessage(seconds)), AlarmAt(seconds, channel, AlarmMessage(words.1, seconds))])
    {
      var words := TimerWords(rest);
      var minutes := ParseInt(words.0);
      if minutes.None? {
        return Returned(BAD_TIME);
      }
      var seconds := minutes.value * 60;
      sent := sent + [Msg(channel, SetMessage(seconds))];
      sent := sent + [AlarmAt(seconds, channel, AlarmMessage(words.1, seconds))];
      return Raised("");
    }

    /** `broadcaster`: send the oldest queued message, if any. */
    method Broadcaster() returns (delivered: bool)
      requires Valid()
      modifies db`queue, this`sent
      ensures Valid()
      ensures delivered <==> old(db.queue) != []
      ensures !delivered ==> db.queue == [] && sent == old(sent)
      ensures delivered ==>
        && db.queue == old(db.queue)[1..]
        && sent == old(sent) + [Msg(old(db.queue)[0].destination, old(db.queue)[0].message)]
        && Pending(db.queue) == Pending(old(db.queue))[1..]
    {
      var row := db.DequeueMsg();
      if row.None? {
        return false;
      }
      sent := sent + [Msg(row.value.destination, row.value.message)];
      return true;
    }

    /** `query_names`: ask for the names of the room after the cursor. With
        no rooms the modulo raises and nothing changes; a row without a
        channel resets the cursor to 1. */
    method QueryNames() returns (failed: bool)
      requires Valid()
      modifies this`lastChanId, this`sent
      ensures Valid()
      ensures failed <==> |db.rooms| == 0
      ensures failed ==> lastChanId == old(lastChanId) && sent == old(sent)
      ensures !failed ==>
        var row := NextRow(old(lastChanId), |db.rooms|);
        var channel := ChannelRow(db.rooms, row);
        && channel == db.rooms[old(lastChanId) % |db.rooms|].channel
        && (channel != "" ==> lastChanId == row && sent == old(sent) + [NamesQuery(channel)])
        && (channel == "" ==> lastChanId == 1 && sent == old(sent))
    {
      var numChannels := |db.rooms|;
      if numChannels == 0 {
        return true;
      }
      RoundRobin(db.rooms, lastChanId);
      var row := NextRow(lastChanId, numChannels);
      var channel := ChannelRow(db.rooms, row);
      if channel != "" {
        lastChanId := row;
        sent := sent + [NamesQuery(channel)];
      } else {
        lastChanId := 1;
      }
      return false;
    }

    /** `irc_RPL_NAMREPLY`: a reply for a known room records a sample of
        its space-separated nick list; a short parameter list raises and
        records nothing. */
    method IrcRplNamreply(params: seq<string>)
      modifies db`samples
      ensures |params| < 4 || !ChannelExists(db.rooms, Lower(params[2])) ==> db.samples == old(db.samples)
      ensures |params| >= 4 && ChannelExists(db.rooms, Lower(params[2])) ==>
        var nicks := Split(params[3], ' ');
        db.samples == old(db.samples) + [Sample(Lower(params[2]), |nicks|, Join(nicks, ","))]
    {
      if |params| < 4 {
        return;
      }
      var channel := Lower(params[2]);
      var nicks := Split(params[3], ' ');
      if !ChannelExists(db.rooms, channel) {
        return;
      }
      var ok := db.AddChannelCount(channel, nicks);
    }

    /** `check_channel_limit`: more than 105 channels in the metric queues
        an alert for every admin channel, with its "#". */
    method CheckChannelLimit()
      requires Valid()
      modifies db`queue
      ensures Valid()
      ensures var metric := ChannelCountMetric(db.samples, |db.rooms|);
        && (|metric| > CHANNEL_LIMIT ==>
              Pending(db.queue) == Pending(old(db.queue)) + Addressed(Hashed(channelsAdmin), CHANNEL_LIMIT_ALERT))
        && (|metric| <= CHANNEL_LIMIT ==> db.queue == old(db.queue))
      ensures |db.rooms| <= CHANNEL_LIMIT ==> db.queue == old(db.queue)
    {
      var metric := ChannelCountMetric(db.samples, |db.rooms|);
      MetricSpec(db.samples, |db.rooms|);
      if |metric| > CHANNEL_LIMIT {
        var dests := PrefixHashes(channelsAdmin);
        EnqueueToAll(dests, CHANNEL_LIMIT_ALERT);
      }
    }

    /** `chan_user_audit`: the flagged channels lose their rooms and are
        left, except those that are both admin and initial channels. */
    method ChanUserAudit() returns (flagged: seq<string>)
      modifies db`audit, db`rooms, this`sent
      ensures var metric := ChannelCountMetric(old(db.samples), |old(db.rooms)|);
        && flagged == Flagged(AuditDict(old(db.audit)), metric)
        && db.audit == LowRows(metric)
        && db.rooms == WithoutChannels(old(db.rooms), flagged)
        && sent == old(sent) + Leaves(flagged, channelsAdmin, cfg.initialChannels)
    {
      flagged := db.AuditChannels();
      var ok := db.RemoveRooms(flagged);
      LeaveChannels(flagged);
    }

    /** The leaving loop of `chan_user_audit`. */
    method LeaveChannels(flagged: seq<string>)
      modifies this`sent
      ensures sent == old(sent) + Leaves(flagged, channelsAdmin, cfg.initialChannels)
    {
      for i := 0 to |flagged|
        invariant sent == old(sent) + Leaves(flagged[..i], channelsAdmin, cfg.initialChannels)
      {
        assert flagged[..i + 1][..i] == flagged[..i];
        if !(flagged[i] in channelsAdmin && flagged[i] in cfg.initialChannels) {
          sent := sent + [Leave(flagged[i], LEAVE_REASON)];
        }
      }
      assert flagged[..|flagged|] == flagged;
    }
  }
}
