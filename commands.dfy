/** The pure side of the bot's control logic (src/seagl-bot/bot.py):
    command parsing and the handler table, reply addressing, input
    sanitising, the fixed reply texts, and the row arithmetic of the
    NAMES round-robin. */
module Commands {
  import opened Text
  import opened Tables

  // ---------------------------------------------------------------------
  // Outbound traffic

  /** One call the bot makes on its IRC connection. */
  datatype Line =
    | Msg(target: string, text: string)                    // msg(target, text)
    | NamesQuery(channel: string)                          // sendLine("NAMES " + channel)
    | JoinChannel(channel: string)                         // join(channel)
    | SetTopic(channel: string, topic: string)             // topic(channel, topic)
    | Leave(channel: string, reason: string)               // leave(channel, reason)
    | AlarmAt(seconds: int, channel: string, text: string) // callLater(seconds, alarm, channel, text)

  // ---------------------------------------------------------------------
  // Parsing

  /** `user.partition("!")[0]`: the nick of a `nick!ident@host` prefix. */
  function Nick(user: string): string
  {
    Partition(user, '!').0
  }

  datatype Command = Command(name: string, rest: string)

  /** The parse in `privmsg`: the stripped message must start with "!"; the
      name is the text before the first space once every leading "!" is
      removed, and the rest is the text after that space. */
  function ParseCommand(message: string): Option<Command>
  {
    var m := Strip(message);
    if !StartsWith(m, "!") then None
    else
      var parts := Partition(StripLeading(m, '!'), ' ');
      Some(Command(parts.0, parts.1))
  }

  lemma {:induction false} StripLeadingSpec(s: string, c: char)
    ensures var r := StripLeading(s, c);
      |r| <= |s| && r == s[|s| - |r|..] && (r == [] || r[0] != c)
    decreases |s|
  {
    if |s| > 0 && s[0] == c {
      StripLeadingSpec(s[1..], c);
    }
  }

  /** A message is a command exactly when its stripped form starts with "!";
      a command name never contains a space and never starts with "!". */
  lemma ParseCommandSpec(message: string)
    ensures ParseCommand(message).Some? <==> StartsWith(Strip(message), "!")
    ensures ParseCommand(message).Some? ==>
      var name := ParseCommand(message).value.name;
      ' ' !in name && (name == [] || name[0] != '!')
  {
    var m := Strip(message);
    if StartsWith(m, "!") {
      var t := StripLeading(m, '!');
      StripLeadingSpec(m, '!');
      var i := Find(t, ' ');
      var name := t[..i];
      assert name == ParseCommand(message).value.name;
      if name != [] {
        assert name[0] == t[0];
      }
      assert forall j :: 0 <= j < |name| ==> name[j] == t[j];
    }
  }

  /** "!" + name + " " + rest parses back into name and rest. */
  lemma ParseCommandRoundTrip(name: string, rest: string)
    requires name != [] && ' ' !in name && name[0] != '!'
    requires rest != [] && !IsSpace(rest[|rest| - 1])
    ensures ParseCommand("!" + name + " " + rest) == Some(Command(name, rest))
  {
    var m := "!" + name + " " + rest;
    StripTrimmed(m);
    assert StartsWith(m, "!");
    assert m[1..] == name + " " + rest;
    assert StripLeading(m, '!') == name + " " + rest;
    var t := name + " " + rest;
    var i := Find(t, ' ');
    assert t[|name|] == ' ';
    assert forall j :: 0 <= j < |name| ==> t[j] == name[j];
    assert i == |name|;
    assert t[..i] == name && t[i + 1..] == rest;
  }

  /** The handlers of `IRCProtocol`, one per `command_*` method. */
  datatype Handler =
    | Ping | Help | Schedule | ConfAnnounce | AdminAnnounce | ListAnnounce
    | JoinTopic | TopicSubs | ListTopics | Teagl | Questions | Ask
    | ClearQuestionList | CreateRoom | ListRooms | Shuffle | Timer | Names

  /** `getattr(self, "command_" + name, None)`: the handler bound to a name,
      aliases included; names are case-sensitive. */
  function HandlerFor(name: string): Option<Handler>
  {
    match name
    case "ping" => Some(Ping)
    case "help" => Some(Help)
    case "schedule" => Some(Schedule)
    case "sched" => Some(Schedule)
    case "conf_announce" => Some(ConfAnnounce)
    case "CA" => Some(ConfAnnounce)
    case "admin_announce" => Some(AdminAnnounce)
    case "AA" => Some(AdminAnnounce)
    case "list_announce" => Some(ListAnnounce)
    case "LA" => Some(ListAnnounce)
    case "jointopic" => Some(JoinTopic)
    case "jt" => Some(JoinTopic)
    case "joingame" => Some(JoinTopic)
    case "topicsubs" => Some(TopicSubs)
    case "ts" => Some(TopicSubs)
    case "listtopics" => Some(ListTopics)
    case "lt" => Some(ListTopics)
    case "teagl" => Some(Teagl)
    case "tea" => Some(Teagl)
    case "questions" => Some(Questions)
    case "q" => Some(Questions)
    case "ask" => Some(Ask)
    case "clear_question_list" => Some(ClearQuestionList)
    case "createroom" => Some(CreateRoom)
    case "cr" => Some(CreateRoom)
    case "listrooms" => Some(ListRooms)
    case "lr" => Some(ListRooms)
    case "shuffle" => Some(Shuffle)
    case "st" => Some(Shuffle)
    case "timer" => Some(Timer)
    case "names" => Some(Names)
    case _ => None
  }

  /** The names each handler is bound to: its own and its aliases. */
  function NamesOf(h: Handler): seq<string>
  {
    match h
    case Ping => ["ping"]
    case Help => ["help"]
    case Schedule => ["schedule", "sched"]
    case ConfAnnounce => ["conf_announce", "CA"]
    case AdminAnnounce => ["admin_announce", "AA"]
    case ListAnnounce => ["list_announce", "LA"]
    case JoinTopic => ["jointopic", "jt", "joingame"]
    case TopicSubs => ["topicsubs", "ts"]
    case ListTopics => ["listtopics", "lt"]
    case Teagl => ["teagl", "tea"]
    case Questions => ["questions", "q"]
    case Ask => ["ask"]
    case ClearQuestionList => ["clear_question_list"]
    case CreateRoom => ["createroom", "cr"]
    case ListRooms => ["listrooms", "lr"]
    case Shuffle => ["shuffle", "st"]
    case Timer => ["timer"]
    case Names => ["names"]
  }

  /** The table and the alias lists agree in both directions: a name finds a
      handler exactly when it is one of that handler's names. */
  lemma HandlerTable(name: string, h: Handler)
    ensures HandlerFor(name) == Some(h) <==> name in NamesOf(h)
  {
  }

  /** Names differing only in case are different commands. */
  lemma HandlerNamesCaseSensitive()
    ensures HandlerFor("cr") == Some(CreateRoom) && HandlerFor("CR") == None
    ensures HandlerFor("CA") == Some(ConfAnnounce) && HandlerFor("ca") == None
  {
  }

  // ---------------------------------------------------------------------
  // Reply addressing

  /** The value `_sendMessage` receives: the handler's return value, or the
      exception's message after `_showError`; None when the handler
      returned None. */
  function ResultText(outcome: Outcome): Option<string>
  {
    match outcome
    case Returned(t) => Some(t)
    case Raised(m) => Some(m)
    case ReturnedNothing => None
  }

  /** What `_sendMessage` sends. In a private chat (the channel is the
      bot's nick) the reply goes to the sender unprefixed; elsewhere it goes
      to the channel prefixed "nick, " when the nick is not empty. A None
      reply is written "None" after a prefix and otherwise makes `msg` fail,
      sending nothing. */
  function ReplyLines(botNick: string, channel: string, nick: string, outcome: Outcome): (lines: seq<Line>)
    ensures |lines| <= 1
  {
    var result := ResultText(outcome);
    if channel == botNick then
      (if result.Some? then [Msg(nick, result.value)] else [])
    else if nick != "" then
      [Msg(channel, nick + ", " + (if result.Some? then result.value else "None"))]
    else if result.Some? then [Msg(channel, result.value)]
    else []
  }

  /** Addressing: a private reply goes to the sender with the handler's text
      as is; a channel reply to a non-empty nick is exactly one line to the
      channel, the nick and ", " followed by the text (or "None"). */
  lemma ReplyAddressing(botNick: string, channel: string, nick: string, outcome: Outcome)
    ensures var lines := ReplyLines(botNick, channel, nick, outcome);
      && (channel == botNick ==>
            (lines == [] <==> outcome.ReturnedNothing?)
            && forall l :: l in lines ==> l.Msg? && l.target == nick && Some(l.text) == ResultText(outcome))
      && (channel != botNick && nick != "" ==>
            |lines| == 1 && lines[0].Msg? && lines[0].target == channel
            && StartsWith(lines[0].text, nick + ", ")
            && lines[0].text[|nick| + 2..] == (if outcome.ReturnedNothing? then "None" else ResultText(outcome).value))
  {
    var lines := ReplyLines(botNick, channel, nick, outcome);
    if channel != botNick && nick != "" {
      var body := if outcome.ReturnedNothing? then "None" else ResultText(outcome).value;
      assert lines[0].text == (nick + ", ") + body;
    }
  }

  // ---------------------------------------------------------------------
  // Sanitising

  /** Removed from identifiers (topics, rooms, nicks, question numbers). */
  const ID_CHARS: seq<char> := [' ', '\'', '"', ';', '*']

  /** Removed from free text (announcements, questions). */
  const TEXT_CHARS: seq<char> := ['\'', '"', ';', '*']

  /** The loop `for c in chars: s = s.replace(c, "")`. */
  method RemoveEach(s: string, chars: seq<char>) returns (r: string)
    ensures r == Without(s, chars)
    ensures forall c :: c in r <==> c in s && c !in chars
  {
    r := s;
    WithoutSpec(s, []);
    for i := 0 to |chars|
      invariant r == Without(s, chars[..i])
    {
      WithoutStep(s, chars[..i], chars[i]);
      assert chars[..i + 1] == chars[..i] + [chars[i]];
      r := Without(r, [chars[i]]);
    }
    assert chars[..|chars|] == chars;
    WithoutSpec(s, chars);
  }

  /** `c` with a leading "#" added unless it has one. */
  function WithHash(c: string): (r: string)
    ensures StartsWith(r, "#")
    ensures StartsWith(c, "#") ==> r == c
    ensures !StartsWith(c, "#") ==> r == "#" + c
  {
    if StartsWith(c, "#") then c else "#" + c
  }

  /** Every channel of `channels` with its "#". */
  function Hashed(channels: seq<string>): (r: seq<string>)
    ensures |r| == |channels|
    ensures forall i :: 0 <= i < |r| ==> r[i] == WithHash(channels[i]) && StartsWith(r[i], "#")
  {
    seq(|channels|, i requires 0 <= i < |channels| => WithHash(channels[i]))
  }

  /** The loop that prefixes "#" on each channel lacking one, in place. */
  method PrefixHashes(channels: seq<string>) returns (r: seq<string>)
    ensures r == Hashed(channels)
    ensures forall i :: 0 <= i < |r| ==> StartsWith(r[i], "#")
  {
    r := channels;
    for i := 0 to |r|
      invariant |r| == |channels|
      invariant forall j :: 0 <= j < i ==> r[j] == WithHash(channels[j])
      invariant forall j :: i <= j < |r| ==> r[j] == channels[j]
    {
      if !StartsWith(r[i], "#") {
        r := r[i := "#" + r[i]];
      }
    }
  }

  /** Free text after sanitising: the quote, semicolon and star characters
      removed, then every run of spaces collapsed to one. */
  function CleanText(rest: string): string
  {
    CollapseSpaces(Without(rest, TEXT_CHARS))
  }

  /** Prefixing twice is prefixing once. */
  lemma WithHashIdempotent(c: string)
    ensures WithHash(WithHash(c)) == WithHash(c)
  {
  }

  // ---------------------------------------------------------------------
  // Reply texts

  const HELP := "\n\n!schedule                       - Schedule for SeaGL 2020\n\n!createroom (!cr): <room-name>  - Create channel and conference chat room\n\n!listrooms (!lr): <page-number> - List Conference chat rooms\n\n!jointopic (!jt): <topic-name>  - Join topic list, receive invites and information\n\n!listtopics (!lt):              - List topics to join\n\n!teagl (!tea): <nick>           - Send a Teagl toast to a friend\n\n!ask:                           - Send Conference Speaker a question\n\n"
  const SCHEDULE_URL := "https://osem.seagl.org/conferences/seagl2020/schedule#2020-11-13"
  const OPERATION_NOT_PERMITTED := "Operation not permitted user."
  const NOT_PERMITTED := "Not permitted"
  const NO_ARGUMENT := "Error: No argument provided"
  const ANNOUNCEMENT_QUEUED := "Announcement Queued."
  const MISSING_LIST_ARGS := "Error: Missing arguments, <topic-group> <message>"
  const NO_SUCH_TOPIC := "Error: Topic does not exist."
  const MESSAGE_QUEUED := "Message Queued."
  const QUESTION_SUBMITTED := "Question Submitted."
  const CLEAR_FAILED := "Failed to clear list"
  const CLEARED := "Question list cleared"
  const BAD_TIME := "Incorrect time value: !timer <integer> <name>"
  const CHANNEL_LIMIT_ALERT := "ALERT! Channel Limit Approaching"
  const LEAVE_REASON := "Too Few Participants..."
  const CHANNEL_LIMIT: nat := 105

  const TOASTS: seq<string> := [
    "'A cup of tea is a cup of peace.' - Soshitsu Sen XV, Tea Life, Tea Mind",
    "'Many kinds of monkeys have a strong taste for tea, coffee and spirituous liqueurs.' - Charles Darwin",
    "'A cup of tea would restore my normality.' - Douglas Adams",
    "'Rainy days should be spent at home with a cup of tea and a good book.' - Bill Watterson",
    "'Honestly, if you're given the choice between Armageddon or tea, you don't say 'what kind of tea?'' - Neil Gaiman",
    "Tea ... is a religion of the art of life. - Kakuz\U{14D} Okakura"
  ]

  /** The toast `RANDOM_TOAST[str(random.randint(0, 5))]` for a supplied
      choice. */
  function Toast(pick: nat): (t: string)
    ensures t in TOASTS
  {
    TOASTS[pick % |TOASTS|]
  }

  /** The message `teagl` queues. */
  function ToastMessage(userId: string, nick: string, toast: string): string
  {
    userId + ", " + nick + " sent you a toast: " + toast
  }

  /** `" ".join(["Created Channel:", channel, " Video-conf:", link])`. */
  function CreatedReply(channel: string, link: string): string
  {
    "Created Channel:" + " " + channel + " " + " Video-conf:" + " " + link
  }

  /** The page shown by `questions`: the sanitised argument when it is all
      digits and at least 1, else 1. */
  function QuestionNumber(input: string): (q: nat)
    ensures q >= 1
    ensures IsDigits(input) && DigitsValue(input) >= 1 ==> q == DigitsValue(input)
    ensures !(IsDigits(input) && DigitsValue(input) >= 1) ==> q == 1
  {
    if IsDigits(input) && DigitsValue(input) >= 1 then DigitsValue(input) else 1
  }

  // ---------------------------------------------------------------------
  // timer

  /** The first two words of the argument after collapsing runs of spaces:
      the time value and the alarm name ("" when absent). */
  function TimerWords(rest: string): (string, string)
  {
    var words := Split(CollapseSpaces(rest), ' ');
    (words[0], if |words| > 1 then words[1] else "")
  }

  function SetMessage(seconds: int): string
  {
    "Set " + " " + IntToString(seconds) + " " + " sec Alarm."
  }

  function AlarmMessage(name: string, seconds: int): string
  {
    if name != "" then "!!!!!! " + " " + name + " " + ":" + " " + IntToString(seconds) + " " + "sec ALARM !!!!!!!"
    else "!!!!!!" + " " + IntToString(seconds) + " " + "sec ALARM !!!!!!!"
  }

  /** `!timer <m> <name>` with a whole number of minutes and a name without
      spaces sets an alarm of m * 60 seconds named `name`. */
  lemma TimerParses(minutes: int, name: string)
    requires ' ' !in name
    ensures var words := TimerWords(IntToString(minutes) + " " + name);
      words.0 == IntToString(minutes) && ParseInt(words.0) == Some(minutes) && words.1 == name
  {
    var s := IntToString(minutes) + " " + name;
    ParseIntRoundTrip(minutes);
    IntToStringNoSpace(minutes);
    CollapseSingle(IntToString(minutes), name);
    assert ' ' !in IntToString(minutes);
    SplitTwo(IntToString(minutes), name);
  }

  lemma IntToStringNoSpace(i: int)
    ensures ' ' !in IntToString(i) && IntToString(i) != []
  {
    if i < 0 {
      NatToStringRoundTrip(-i);
      assert IntToString(i) == "-" + NatToString(-i);
    } else {
      NatToStringRoundTrip(i);
    }
  }

  /** Collapsing leaves a string with single spaces only as it is. */
  lemma {:induction false} CollapseSingle(a: string, b: string)
    requires ' ' !in a && ' ' !in b && a != []
    ensures CollapseSpaces(a + " " + b) == a + " " + b
  {
    NoDoubleSpaceCollapse(a + " " + b);
  }

  lemma {:induction false} NoDoubleSpaceCollapse(s: string)
    requires forall i :: 0 <= i < |s| - 1 ==> !(s[i] == ' ' && s[i + 1] == ' ')
    ensures CollapseSpaces(s) == s
    decreases |s|
  {
    if |s| >= 2 {
      NoDoubleSpaceCollapse(s[1..]);
      assert s == [s[0]] + s[1..];
    }
  }

  lemma SplitTwo(a: string, b: string)
    requires ' ' !in a && ' ' !in b
    ensures Split(a + " " + b, ' ') == [a, b]
  {
    SplitJoin([a, b], ' ');
    assert Join([a, b], [' ']) == a + " " + b by {
      assert Join([b], [' ']) == b;
    }
  }

  // ---------------------------------------------------------------------
  // NAMES round-robin

  /** The row `query_names` asks for: the cursor plus one, reduced modulo
      the room count when it exceeds it. */
  function NextRow(last: int, numRooms: nat): int
    requires numRooms >= 1
  {
    var row := last + 1;
    if row > numRooms then row % numRooms else row
  }

  /** Row `row` of `get_channel_row`, for 0 <= row <= n, is the room at
      position (row - 1) mod n: row 0 gives index -1, the last room. */
  lemma ChannelRowIndex(rooms: seq<Room>, row: int)
    requires |rooms| >= 1 && 0 <= row <= |rooms|
    ensures ChannelRow(rooms, row) == rooms[(row + |rooms| - 1) % |rooms|].channel
  {
    var n := |rooms|;
    if row >= 1 {
      DivModUnique(row + n - 1, n, 1, row - 1);
    } else {
      DivModUnique(n - 1, n, 0, n - 1);
    }
  }

  /** The row after cursor c >= 0 is congruent to c + 1, and the index it
      names is congruent to c. */
  lemma NextRowMod(last: int, n: nat)
    requires n >= 1 && last >= 0
    ensures var row := NextRow(last, n);
      && 0 <= row <= n
      && row % n == (last + 1) % n
      && (row + n - 1) % n == last % n
  {
    var row := NextRow(last, n);
    if last + 1 > n {
      ModOfSum(last + 1, 0, n);
      ModOfSum(last + 1, n - 1, n);
    }
    ModAddN(last, n);
  }

  /** From a cursor c >= 0 the row asked for names the room at position
      c mod n (row 0 reaching the last room through index -1), and the new
      cursor is c + 1 modulo n. */
  lemma RoundRobin(rooms: seq<Room>, last: int)
    requires |rooms| >= 1 && last >= 0
    ensures var row := NextRow(last, |rooms|);
      && 0 <= row <= |rooms|
      && ChannelRow(rooms, row) == rooms[last % |rooms|].channel
      && row % |rooms| == (last + 1) % |rooms|
  {
    NextRowMod(last, |rooms|);
    ChannelRowIndex(rooms, NextRow(last, |rooms|));
  }

  /** The cursor after `k` uninterrupted ticks. */
  function CursorAfter(last: int, numRooms: nat, k: nat): int
    requires numRooms >= 1
  {
    if k == 0 then last else NextRow(CursorAfter(last, numRooms, k - 1), numRooms)
  }

  /** While the room set stays the same and every tick finds its channel,
      tick number j visits the room at position (c + j) mod n, so n
      consecutive ticks visit every room once. */
  lemma {:induction false} RoundRobinCycle(rooms: seq<Room>, last: int, j: nat)
    requires |rooms| >= 1 && last >= 0
    ensures CursorAfter(last, |rooms|, j) >= 0
    ensures CursorAfter(last, |rooms|, j) % |rooms| == (last + j) % |rooms|
    ensures ChannelRow(rooms, NextRow(CursorAfter(last, |rooms|, j), |rooms|)) == rooms[(last + j) % |rooms|].channel
  {
    var n := |rooms|;
    if j > 0 {
      RoundRobinCycle(rooms, last, j - 1);
      var c := CursorAfter(last, n, j - 1);
      RoundRobin(rooms, c);
      ModAddOne(c, last + j - 1, n);
    }
    var c := CursorAfter(last, n, j);
    RoundRobin(rooms, c);
  }

  /** Congruent numbers stay congruent after adding one. */
  lemma ModAddOne(a: int, b: int, n: nat)
    requires n >= 1 && a >= 0 && b >= 0 && a % n == b % n
    ensures (a + 1) % n == (b + 1) % n
  {
    ModOfSum(a, 1, n);
    ModOfSum(b, 1, n);
  }
}
