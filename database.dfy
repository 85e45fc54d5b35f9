/** The bot's store (src/seagl-bot/database.py): the SQLite tables held as
    sequences in rowid order, and the operations that change them. */
module Store {
  import opened Text
  import opened Tables

  /** The index `random.randint(0, size - 1)` picks for draw number `i`:
      the i-th supplied choice reduced into range, or 0 when the choices run
      out. */
  function Draw(choices: seq<nat>, i: nat, size: nat): (r: nat)
    requires size >= 1
    ensures r < size
  {
    if i < |choices| then choices[i] % size else 0
  }

  /** The dealing loop of `shuffle_users`: user number i is popped from a
      chosen position of the remaining users and appended to group
      i % groupCount. Every user lands in exactly one group, and group
      sizes follow the round-robin. */
  method DealUsers(users: seq<string>, groupCount: nat, choices: seq<nat>) returns (groups: seq<seq<string>>)
    requires groupCount >= 1 || users == []
    ensures |groups| == groupCount
    ensures Pooled(groups) == multiset(users)
    ensures groupCount >= 1 ==> forall g :: 0 <= g < groupCount ==> |groups[g]| == DealtSize(|users|, groupCount, g)
    ensures forall g, h :: 0 <= g < groupCount && 0 <= h < groupCount ==> |groups[g]| <= |groups[h]| + 1
  {
    var remaining := users;
    groups := seq(groupCount, _ => []);
    PooledEmpty(groups);
    var i := 0;
    while i < |users|
      invariant 0 <= i <= |users|
      invariant |remaining| == |users| - i
      invariant |groups| == groupCount
      invariant multiset(remaining) + Pooled(groups) == multiset(users)
      invariant groupCount >= 1 ==> forall g :: 0 <= g < groupCount ==> |groups[g]| == DealtSize(i, groupCount, g)
    {
      var g := i % groupCount;
      var r := Draw(choices, i, |remaining|);
      var u := remaining[r];
      PopInto(remaining, r, groups, g);
      DealtSizesStep(groups, i, groupCount, u, groups[g := groups[g] + [u]]);
      remaining := remaining[..r] + remaining[r + 1..];
      groups := groups[g := groups[g] + [u]];
      i := i + 1;
    }
    if groupCount >= 1 {
      forall g, h | 0 <= g < groupCount && 0 <= h < groupCount ensures |groups[g]| <= |groups[h]| + 1 {
        DealtSizesBalanced(|users|, groupCount, g, h);
      }
    }
  }

  /** One seeding loop of `Database.__init__`: `add_room("seagl-bot",
      prefix + name, "#" + name)` for each name, in order. */
  method SeedRooms(rooms: seq<Room>, jitsiPrefix: string, names: seq<string>) returns (seeded: seq<Room>)
    ensures seeded == WithRooms(rooms, SeedRequests(jitsiPrefix, names))
  {
    seeded := rooms;
    for i := 0 to |names|
      invariant seeded == WithRooms(rooms, SeedRequests(jitsiPrefix, names[..i]))
    {
      var req := RoomRequest("seagl-bot", jitsiPrefix + names[i], "#" + names[i]);
      WithRoomsAppend(rooms, SeedRequests(jitsiPrefix, names[..i]), req);
      assert SeedRequests(jitsiPrefix, names[..i + 1]) == SeedRequests(jitsiPrefix, names[..i]) + [req];
      seeded := WithRoom(seeded, req);
    }
    assert names[..|names|] == names;
  }

  class Database {
    var rooms: seq<Room>
    var queue: seq<QueuedMsg>
    var samples: seq<Sample>
    var audit: seq<AuditRow>
    var topics: seq<TopicList>
    var logs: seq<QuestionLog>

    /** Queue keys increase; topic and question tables are distinct under
        SQLite's case folding; no nick is on a topic list twice. */
    ghost predicate Valid()
      reads this
    {
      && IdsIncreasing(queue)
      && DistinctNames(TopicTables(topics))
      && SubscribersDistinct(topics)
      && DistinctNames(LogTables(logs))
    }

    /** A new database: the rooms of the initial channels, then those of
        the admin channels, added through `add_room` by "seagl-bot". */
    constructor (jitsiPrefix: string, initialChannels: seq<string>, channelsAdmin: seq<string>)
      ensures Valid()
      ensures rooms == WithRooms([], SeedRequests(jitsiPrefix, initialChannels + channelsAdmin))
      ensures queue == [] && samples == [] && audit == [] && topics == [] && logs == []
    {
      var seeded := SeedRooms([], jitsiPrefix, initialChannels);
      seeded := SeedRooms(seeded, jitsiPrefix, channelsAdmin);
      WithRoomsConcat([], SeedRequests(jitsiPrefix, initialChannels), SeedRequests(jitsiPrefix, channelsAdmin));
      assert SeedRequests(jitsiPrefix, initialChannels + channelsAdmin)
        == SeedRequests(jitsiPrefix, initialChannels) + SeedRequests(jitsiPrefix, channelsAdmin);
      rooms := seeded;
      queue := [];
      samples := [];
      audit := [];
      topics := [];
      logs := [];
    }

    /** `add_room(nick, link, channel)`: both uniqueness queries run on the
        lower-cased values; the stripped values are stored. */
    method AddRoom(nick: string, link: string, channel: string) returns (added: bool)
      modifies this`rooms
      ensures added == RoomAvailable(old(rooms), link, channel)
      ensures rooms == WithRoom(old(rooms), RoomRequest(nick, link, channel))
    {
      var c := Lower(channel);
      var l := Lower(link);
      if HasChannel(rooms, c) {
        return false;
      }
      if HasLink(rooms, l) {
        return false;
      }
      rooms := rooms + [Room(nick, Strip(c), Strip(l))];
      return true;
    }

    /** `remove_rooms(channels)`: one DELETE per listed channel. */
    method RemoveRooms(channels: seq<string>) returns (ok: bool)
      modifies this`rooms
      ensures ok
      ensures rooms == WithoutChannels(old(rooms), channels)
    {
      WithoutNoChannels(rooms);
      for i := 0 to |channels|
        invariant rooms == WithoutChannels(old(rooms), channels[..i])
      {
        WithoutChannelsStep(old(rooms), channels[..i], channels[i]);
        assert channels[..i + 1] == channels[..i] + [channels[i]];
        rooms := WithoutChannels(rooms, [channels[i]]);
      }
      assert channels[..|channels|] == channels;
      return true;
    }

    /** `enqueue_msg(dest, msg)`: one row appended under the next key. */
    method EnqueueMsg(dest: string, msg: string) returns (ok: bool)
      requires Valid()
      modifies this`queue
      ensures Valid() && ok
      ensures queue == old(queue) + [QueuedMsg(NextId(old(queue)), dest, msg)]
    {
      EnqueueKeepsOrder(queue, dest, msg);
      queue := queue + [QueuedMsg(NextId(queue), dest, msg)];
      return true;
    }

    /** `dequeue_msg()`: the row with the lowest key, which is then deleted
        by key; () and no change on an empty queue. */
    method DequeueMsg() returns (row: Option<DequeuedRow>)
      requires Valid()
      modifies this`queue
      ensures Valid()
      ensures old(queue) == [] ==> row == None && queue == []
      ensures old(queue) != [] ==>
        && row == Some(DequeuedRow(NatToString(old(queue)[0].id), old(queue)[0].destination, old(queue)[0].message))
        && queue == old(queue)[1..]
    {
      if queue == [] {
        return None;
      }
      var head := queue[0];
      DequeueHead(queue);
      queue := DeleteId(queue, head.id);
      return Some(DequeuedRow(NatToString(head.id), head.destination, head.message));
    }

    /** `msg_queue_size()`: the row count as a decimal string. */
    function MsgQueueSize(): (size: string)
      reads this
      ensures IsDigits(size) && DigitsValue(size) == |queue|
    {
      NatToStringRoundTrip(|queue|);
      NatToString(|queue|)
    }

    /** `add_channel_count(channel, nicklist)`. */
    method AddChannelCount(channel: string, nicks: seq<string>) returns (ok: bool)
      modifies this`samples
      ensures ok
      ensures samples == old(samples) + [Sample(channel, |nicks|, Join(nicks, ","))]
    {
      samples := samples + [Sample(channel, |nicks|, Join(nicks, ","))];
      return true;
    }

    /** `join_topic(nick, topic)`: a table that does not exist under its
        exact name may only be created by an operator; the nick is then
        added to the table the name resolves to unless already there. */
    method JoinTopic(botops: seq<string>, nick: string, topic: string) returns (r: JoinOutcome)
      requires Valid()
      modifies this`topics
      ensures Valid()
      ensures r == NotPermitted <==> !TopicExists(old(topics), ListTable(topic)) && nick !in botops
      ensures r == NotPermitted ==> topics == old(topics)
      ensures r != NotPermitted ==> topics == Subscribed(old(topics), ListTable(topic), nick)
      ensures r == AlreadySubscribed <==>
        r != NotPermitted
        && FindTopic(old(topics), ListTable(topic)) < |old(topics)|
        && nick in old(topics)[FindTopic(old(topics), ListTable(topic))].subscribers
    {
      var table := ListTable(topic);
      var tableExists := TopicExists(topics, table);
      if !tableExists && nick !in botops {
        return NotPermitted;
      }
      SubscribedSpec(topics, table, nick);
      var i := FindTopic(topics, table);
      if i == |topics| {
        topics := topics + [TopicList(table, [])];
      }
      if nick in topics[i].subscribers {
        return AlreadySubscribed;
      }
      var subscribers := topics[i].subscribers + [nick];
      assert i == |old(topics)| ==> subscribers == [nick];
      topics := topics[i := TopicList(topics[i].table, subscribers)];
      return Joined;
    }

    /** `shuffle_users(args)`: the refusals, the two division errors, or the
        subscribers dealt into groups and one room added per group. */
    method ShuffleUsers(jitsiPrefix: string, args: string, choices: seq<nat>)
      returns (outcome: Outcome, groups: seq<seq<string>>)
      requires Valid()
      modifies this`rooms
      ensures var plan := PlanShuffle(topics, args);
        && (plan.Refused? ==> outcome == Returned(plan.reply) && rooms == old(rooms) && groups == [])
        && (plan.Fails? ==> outcome == Raised(plan.error) && rooms == old(rooms) && groups == [])
        && (plan.Deal? ==>
              && outcome == ReturnedNothing
              && rooms == WithRooms(old(rooms), GroupRequests(jitsiPrefix, plan.table, plan.groupCount))
              && |groups| == plan.groupCount
              && Pooled(groups) == multiset(plan.users)
              && forall g, h :: 0 <= g < plan.groupCount && 0 <= h < plan.groupCount ==> |groups[g]| <= |groups[h]| + 1)
    {
      ghost var plan := PlanShuffle(topics, args);
      if args == "" {
        return Returned(MISSING_SHUFFLE_ARGS), [];
      }
      var words := NonEmpty(Split(CollapseSpaces(args), ' '));
      assert plan == PlanShuffleWords(topics, words);
      if |words| < 2 {
        return Returned(MISSING_SHUFFLE_ARGS), [];
      }
      var table := ListTable(words[0]);
      var groupSize := words[1];
      if !IsDigits(groupSize) {
        return Returned("Error: group-size is not an integer"), [];
      }
      if !TopicExists(topics, table) {
        return Returned("Error: Topic not found."), [];
      }
      var users := topics[FindTopic(topics, table)].subscribers;
      var size := DigitsValue(groupSize);
      assert plan == PlanDeal(table, users, size);
      if size == 0 {
        return Raised("division by zero"), [];
      }
      var count := |users| / size;
      if count == 0 && |users| > 0 {
        return Raised("integer division or modulo by zero"), [];
      }
      groups := DealUsers(users, count, choices);
      AddGroupRooms(jitsiPrefix, table, count);
      return ReturnedNothing, groups;
    }

    /** The room-creating loop of `shuffle_users`: one `add_room` per group,
        channel "#seagl-<table>_<k>" and link prefix + "<table>_<k>". */
    method AddGroupRooms(jitsiPrefix: string, table: string, count: nat)
      modifies this`rooms
      ensures rooms == WithRooms(old(rooms), GroupRequests(jitsiPrefix, table, count))
    {
      for k := 0 to count
        invariant rooms == WithRooms(old(rooms), GroupRequests(jitsiPrefix, table, k))
      {
        var req := RoomRequest("seagl-bot", jitsiPrefix + table + "_" + NatToString(k), "#seagl-" + table + "_" + NatToString(k));
        WithRoomsAppend(old(rooms), GroupRequests(jitsiPrefix, table, k), req);
        assert GroupRequests(jitsiPrefix, table, k + 1) == GroupRequests(jitsiPrefix, table, k) + [req];
        var added := AddRoom(req.nick, req.link, req.channel);
      }
    }

    /** `add_question(nick, question, channel)`, asked at time `now`. */
    method AddQuestion(nick: string, question: string, channel: string, now: string) returns (ok: bool)
      requires Valid()
      modifies this`logs
      ensures Valid() && ok
      ensures logs == WithQuestion(old(logs), channel, Question(nick, channel, question, now))
    {
      var q := Question(nick, channel, question, now);
      AddThenRead(logs, channel, q);
      var table := QuestionTable(channel);
      var i := FindLog(logs, table);
      if i == |logs| {
        logs := logs + [QuestionLog(table, [])];
      }
      var entries := logs[i].entries + [q];
      assert i == |old(logs)| ==> entries == [q];
      logs := logs[i := QuestionLog(logs[i].table, entries)];
      return true;
    }

    /** `clear_question_list(channel)`: False when the channel has no
        question table; otherwise its rows are deleted. */
    method ClearQuestionList(channel: string) returns (ok: bool)
      requires Valid()
      modifies this`logs
      ensures Valid()
      ensures ok == Cleared(old(logs), channel).Some?
      ensures logs == if ok then Cleared(old(logs), channel).value else old(logs)
    {
      var i := FindLog(logs, QuestionTable(channel));
      if i == |logs| {
        return false;
      }
      assert LogTables(logs[i := QuestionLog(logs[i].table, [])]) == LogTables(logs);
      logs := logs[i := QuestionLog(logs[i].table, [])];
      return true;
    }

    /** `audit_channels()`: compare the previous audit with the current
        metric, then rewrite the audit table from the metric. */
    method AuditChannels() returns (flagged: seq<string>)
      modifies this`audit
      ensures var metric := ChannelCountMetric(samples, |rooms|);
        flagged == Flagged(AuditDict(old(audit)), metric) && audit == LowRows(metric)
    {
      var metric := ChannelCountMetric(samples, |rooms|);
      var previous := AuditDict(audit);
      flagged := [];
      for i := 0 to |previous|
        invariant flagged == Flagged(previous[..i], metric)
      {
        FlaggedPrefix(previous, metric, i);
        var chan := previous[i].key;
        match Get(metric, chan)
        case Some(usage) =>
          if previous[i].value < 3 && usage.count < 3 {
            flagged := flagged + [chan];
          }
        case None =>
      }
      assert previous[..|previous|] == previous;
      audit := [];
      for j := 0 to |metric|
        invariant audit == LowRows(metric[..j])
      {
        LowRowsPrefix(metric, j);
        if metric[j].value.count < 3 {
          audit := audit + [AuditRow(metric[j].key, metric[j].value.count)];
        }
      }
      assert metric[..|metric|] == metric;
    }
  }
}
