/** The rows of the bot's SQLite tables and the read-only queries over them
    (src/seagl-bot/database.py). Each table is a sequence in rowid order;
    each query is a function of a table snapshot. */
module Tables {
  import opened Text

  // ---------------------------------------------------------------------
  // Rows

  /** A row of `rooms` (the creation timestamp is never read). */
  datatype Room = Room(creator: string, channel: string, link: string)

  /** A row of `msg_queue`: its integer primary key, destination and body. */
  datatype QueuedMsg = QueuedMsg(id: nat, destination: string, message: string)

  /** The tuple `dequeue_msg` returns: `(str(id), destination, message)`. */
  datatype DequeuedRow = DequeuedRow(id: string, destination: string, message: string)

  /** A row of `channel_counts`: one NAMES reply. */
  datatype Sample = Sample(channel: string, count: nat, nicks: string)

  /** A row of `channel_user_audit`. */
  datatype AuditRow = AuditRow(channel: string, count: nat)

  /** A `<topic>_list` table: its name as created and its `user_id` column. */
  datatype TopicList = TopicList(table: string, subscribers: seq<string>)

  /** A row of a `questions_<channel>` table; its id is its position + 1. */
  datatype Question = Question(creator: string, channel: string, text: string, askedAt: string)

  /** A `questions_<channel>` table: its name as created and its rows. */
  datatype QuestionLog = QuestionLog(table: string, entries: seq<Question>)

  /** One key of a Python dict; a dict is a sequence of entries in
      insertion order with distinct keys. */
  datatype Entry<V> = Entry(key: string, value: V)

  /** The value `[count, nicklist]` of `get_channel_count_metric`. */
  datatype Usage = Usage(count: nat, nicks: string)

  /** An `add_room(nick, room, channel)` call. */
  datatype RoomRequest = RoomRequest(nick: string, link: string, channel: string)

  // ---------------------------------------------------------------------
  // Python dicts

  predicate DistinctKeys<V>(d: seq<Entry<V>>)
  {
    forall i, j :: 0 <= i < j < |d| ==> d[i].key != d[j].key
  }

  function Get<V>(d: seq<Entry<V>>, k: string): Option<V>
    decreases |d|
  {
    if d == [] then None else if d[0].key == k then Some(d[0].value) else Get(d[1..], k)
  }

  function Keys<V>(d: seq<Entry<V>>): seq<string>
  {
    seq(|d|, i requires 0 <= i < |d| => d[i].key)
  }

  /** `d[k] = v`: a new key goes last, an existing key keeps its place. */
  function Put<V>(d: seq<Entry<V>>, k: string, v: V): seq<Entry<V>>
    decreases |d|
  {
    if d == [] then [Entry(k, v)]
    else if d[0].key == k then [Entry(k, v)] + d[1..]
    else [d[0]] + Put(d[1..], k, v)
  }

  /** After `d[k] = v`, `k` maps to `v`, every other key is unchanged, keys
      stay distinct and at most one entry is added. */
  lemma {:induction false} PutSpec<V>(d: seq<Entry<V>>, k: string, v: V)
    requires DistinctKeys(d)
    ensures DistinctKeys(Put(d, k, v))
    ensures Get(Put(d, k, v), k) == Some(v)
    ensures forall k' :: k' != k ==> Get(Put(d, k, v), k') == Get(d, k')
    ensures |Put(d, k, v)| == if Get(d, k).Some? then |d| else |d| + 1
    decreases |d|
  {
    if d != [] && d[0].key != k {
      PutSpec(d[1..], k, v);
      var r := Put(d, k, v);
      var t := Put(d[1..], k, v);
      assert r == [d[0]] + t;
      forall i | 0 < i < |r| ensures r[i].key != d[0].key {
        assert r[i] == t[i - 1];
        GetSomeIn(t, r[i].key, i - 1);
        if r[i].key == d[0].key {
          GetNotAfterHead(d, d[0].key);
        }
      }
    } else if d != [] {
      var r := Put(d, k, v);
      assert r == [Entry(k, v)] + d[1..];
      forall i, j | 0 <= i < j < |r| ensures r[i].key != r[j].key {
        assert r[j] == d[j];
        assert i == 0 || r[i] == d[i];
      }
    }
  }

  /** A key present at position `i` is found. */
  lemma {:induction false} GetSomeIn<V>(d: seq<Entry<V>>, k: string, i: nat)
    requires i < |d| && d[i].key == k
    ensures Get(d, k).Some?
    decreases i
  {
    if i > 0 && d[0].key != k {
      GetSomeIn(d[1..], k, i - 1);
    }
  }

  lemma {:induction false} GetNotAfterHead<V>(d: seq<Entry<V>>, k: string)
    requires DistinctKeys(d) && d != [] && d[0].key == k
    ensures Get(d[1..], k).None?
  {
    GetNone(d[1..], k);
  }

  /** A key that occurs nowhere is not found, and conversely. */
  lemma {:induction false} GetNone<V>(d: seq<Entry<V>>, k: string)
    ensures Get(d, k).None? <==> forall i :: 0 <= i < |d| ==> d[i].key != k
    decreases |d|
  {
    if d != [] {
      GetNone(d[1..], k);
      assert forall i :: 0 < i < |d| ==> d[i] == d[1..][i - 1];
    }
  }

  // ---------------------------------------------------------------------
  // Table names

  /** The first of `names` equal to `name` up to the case of ASCII letters
      (SQLite's rule for identifiers), or |names| when there is none. */
  function FindName(names: seq<string>, name: string): (i: nat)
    ensures i <= |names|
    ensures i < |names| ==> Lower(names[i]) == Lower(name)
    ensures forall j :: 0 <= j < i ==> Lower(names[j]) != Lower(name)
    decreases |names|
  {
    if names == [] then 0
    else if Lower(names[0]) == Lower(name) then 0
    else 1 + FindName(names[1..], name)
  }

  /** No two names that differ only in case. */
  predicate DistinctNames(names: seq<string>)
  {
    forall i, j :: 0 <= i < j < |names| ==> Lower(names[i]) != Lower(names[j])
  }

  /** Appending a name moves no lookup that already succeeded, and a lookup
      that failed before now finds the appended name when it matches. */
  lemma FindNameAppend(names: seq<string>, extra: string, name: string)
    ensures FindName(names, name) < |names| ==> FindName(names + [extra], name) == FindName(names, name)
    ensures FindName(names, name) == |names| ==>
      FindName(names + [extra], name) == if Lower(extra) == Lower(name) then |names| else |names| + 1
  {
    var f := FindName(names, name);
    var g := FindName(names + [extra], name);
    var all := names + [extra];
    if f < |names| {
      assert all[f] == names[f];
    } else {
      assert all[|names|] == extra;
    }
  }

  /** A name that no existing name matches keeps the names distinct. */
  lemma DistinctNamesAppend(names: seq<string>, extra: string)
    requires DistinctNames(names) && FindName(names, extra) == |names|
    ensures DistinctNames(names + [extra])
  {
    var all := names + [extra];
    forall i, j | 0 <= i < j < |all| ensures Lower(all[i]) != Lower(all[j]) {
      if j == |names| {
        assert all[i] == names[i];
      } else {
        assert all[i] == names[i] && all[j] == names[j];
      }
    }
  }

  // ---------------------------------------------------------------------
  // rooms

  predicate HasChannel(rooms: seq<Room>, channel: string)
  {
    exists i :: 0 <= i < |rooms| && rooms[i].channel == channel
  }

  predicate HasLink(rooms: seq<Room>, link: string)
  {
    exists i :: 0 <= i < |rooms| && rooms[i].link == link
  }

  /** `add_room`'s two uniqueness queries, on the lower-cased but
      unstripped arguments. */
  predicate RoomAvailable(rooms: seq<Room>, link: string, channel: string)
  {
    !HasChannel(rooms, Lower(channel)) && !HasLink(rooms, Lower(link))
  }

  /** The `rooms` table after `add_room(nick, link, channel)`: the stripped
      lower-cased row is appended when both uniqueness queries find nothing. */
  function WithRoom(rooms: seq<Room>, req: RoomRequest): seq<Room>
  {
    if RoomAvailable(rooms, req.link, req.channel)
    then rooms + [Room(req.nick, Strip(Lower(req.channel)), Strip(Lower(req.link)))]
    else rooms
  }

  /** The `rooms` table after a sequence of `add_room` calls. */
  function WithRooms(rooms: seq<Room>, reqs: seq<RoomRequest>): seq<Room>
    decreases |reqs|
  {
    if reqs == [] then rooms else WithRooms(WithRoom(rooms, reqs[0]), reqs[1..])
  }

  /** No two rooms share a channel or a link. */
  predicate UniqueRooms(rooms: seq<Room>)
  {
    forall i, j :: 0 <= i < j < |rooms| ==>
      rooms[i].channel != rooms[j].channel && rooms[i].link != rooms[j].link
  }

  /** `add_room` returns True exactly when both queries find nothing, and
      then appends exactly one row; otherwise the table is unchanged. */
  lemma AddRoomOutcome(rooms: seq<Room>, req: RoomRequest)
    ensures |WithRoom(rooms, req)| == |rooms| + (if RoomAvailable(rooms, req.link, req.channel) then 1 else 0)
    ensures WithRoom(rooms, req)[..|rooms|] == rooms
    ensures RoomAvailable(rooms, req.link, req.channel) ==>
      WithRoom(rooms, req)[|rooms|] == Room(req.nick, Strip(Lower(req.channel)), Strip(Lower(req.link)))
  {
  }

  /** Channel and link uniqueness survive `add_room` when the lower-cased
      arguments have no surrounding whitespace (so the checked and the
      stored values coincide). */
  lemma AddRoomKeepsUnique(rooms: seq<Room>, req: RoomRequest)
    requires UniqueRooms(rooms)
    requires Strip(Lower(req.channel)) == Lower(req.channel)
    requires Strip(Lower(req.link)) == Lower(req.link)
    ensures UniqueRooms(WithRoom(rooms, req))
  {
    var r := WithRoom(rooms, req);
    if RoomAvailable(rooms, req.link, req.channel) {
      forall i, j | 0 <= i < j < |r|
        ensures r[i].channel != r[j].channel && r[i].link != r[j].link
      {
        if j == |rooms| {
          assert r[i] == rooms[i];
        }
      }
    }
  }

  /** Uniqueness is checked on the unstripped value but the stripped value
      is stored: a channel written with a trailing tab passes the check and
      stores a second "#seagl-a". */
  lemma AddRoomStoresDuplicate()
    ensures var rooms := [Room("alice", "#a", "x")];
      var after := WithRoom(rooms, RoomRequest("bob", "x\t", "#a\t"));
      |after| == 2 && after[0].channel == after[1].channel && !UniqueRooms(after)
  {
    var rooms := [Room("alice", "#a", "x")];
    var req := RoomRequest("bob", "x\t", "#a\t");
    assert Lower(req.channel) == "#a\t" by {
      assert Lower("\t") == "\t";
      assert Lower("a\t") == "a\t";
    }
    assert Lower(req.link) == "x\t" by {
      assert Lower("\t") == "\t";
    }
    assert StripRight("#a\t") == "#a";
    assert StripRight("x\t") == "x";
  }

  /** `get_room_list`: the channel column in rowid order. */
  function RoomChannels(rooms: seq<Room>): (r: seq<string>)
    ensures |r| == |rooms| && forall i :: 0 <= i < |rooms| ==> r[i] == rooms[i].channel
  {
    seq(|rooms|, i requires 0 <= i < |rooms| => rooms[i].channel)
  }

  /** The `rooms` table after `DELETE FROM rooms WHERE irc_channel=c` for
      every `c` of `channels`. */
  function WithoutChannels(rooms: seq<Room>, channels: seq<string>): seq<Room>
    decreases |rooms|
  {
    if rooms == [] then []
    else (if rooms[0].channel in channels then [] else [rooms[0]]) + WithoutChannels(rooms[1..], channels)
  }

  /** Deleting one more channel after deleting `cs` is deleting `cs + [c]`. */
  lemma {:induction false} WithoutChannelsStep(rooms: seq<Room>, cs: seq<string>, c: string)
    ensures WithoutChannels(WithoutChannels(rooms, cs), [c]) == WithoutChannels(rooms, cs + [c])
    decreases |rooms|
  {
    if rooms != [] {
      WithoutChannelsStep(rooms[1..], cs, c);
      var head: seq<Room> := if rooms[0].channel in cs then [] else [rooms[0]];
      var rest := WithoutChannels(rooms[1..], cs);
      assert WithoutChannels(rooms, cs) == head + rest;
      if head != [] {
        assert (head + rest)[0] == rooms[0] && (head + rest)[1..] == rest;
      } else {
        assert head + rest == rest;
      }
    }
  }

  /** Deleting no channel keeps every room. */
  lemma {:induction false} WithoutNoChannels(rooms: seq<Room>)
    ensures WithoutChannels(rooms, []) == rooms
    decreases |rooms|
  {
    if rooms != [] {
      WithoutNoChannels(rooms[1..]);
      assert rooms == [rooms[0]] + rooms[1..];
    }
  }

  /** A room survives the deletion exactly when its channel is not listed. */
  lemma {:induction false} WithoutChannelsSpec(rooms: seq<Room>, cs: seq<string>)
    ensures forall r :: r in WithoutChannels(rooms, cs) <==> r in rooms && r.channel !in cs
    decreases |rooms|
  {
    if rooms != [] {
      WithoutChannelsSpec(rooms[1..], cs);
      assert rooms == [rooms[0]] + rooms[1..];
    }
  }

  /** `get_channel_row(row)`: the channel at Python index `row - 1` of the
      channel column (negative indices count from the end), or "" when that
      index is out of range. */
  function ChannelRow(rooms: seq<Room>, row: int): string
  {
    var rid := row - 1;
    if 0 <= rid < |rooms| then rooms[rid].channel
    else if -|rooms| <= rid < 0 then rooms[|rooms| + rid].channel
    else ""
  }

  /** `channel_exists(chan)`. */
  predicate ChannelExists(rooms: seq<Room>, chan: string)
  {
    HasChannel(rooms, chan)
  }

  // ---------------------------------------------------------------------
  // list_rooms

  const LINES_PER_PAGE: nat := 4

  /** The page `list_rooms` shows for its argument: 1 unless the argument is
      all digits with a positive value. */
  function PageNumber(arg: string): (p: nat)
    ensures p >= 1
  {
    if !IsDigits(arg) then 1
    else if DigitsValue(arg) <= 0 then 1
    else DigitsValue(arg)
  }

  function ListingHeader(page: nat, numRooms: nat): string
  {
    "Listing Page: " + NatToString(page) + "/" + NatToString((numRooms + LINES_PER_PAGE - 1) / LINES_PER_PAGE)
      + " of room list" + " - IRC command: !lr " + NatToString(page)
  }

  function RoomLines(rooms: seq<Room>): string
    decreases |rooms|
  {
    if rooms == [] then ""
    else "\n" + PadRight(rooms[0].channel, 13) + " " + PadRight(rooms[0].link, 13) + RoomLines(rooms[1..])
  }

  /** The slice `rooms[start:stop]` shown on `page`. */
  function PageRooms(rooms: seq<Room>, page: nat): seq<Room>
    requires page >= 1
  {
    var stop := page * LINES_PER_PAGE;
    var start := stop - LINES_PER_PAGE;
    if |rooms| < start then []
    else rooms[start..if |rooms| < stop then |rooms| else stop]
  }

  /** `list_rooms(page_num)`. */
  function ListRooms(rooms: seq<Room>, arg: string): string
  {
    var page := PageNumber(arg);
    if |rooms| < (page - 1) * LINES_PER_PAGE then ""
    else ListingHeader(page, |rooms|) + RoomLines(PageRooms(rooms, page))
  }

  /** The listing is empty exactly when the page starts past the last room;
      otherwise it is the header followed by the page's rooms, which are at
      most four consecutive rooms starting at (page - 1) * 4. */
  lemma ListRoomsSpec(rooms: seq<Room>, arg: string)
    ensures var p := PageNumber(arg); var listing := ListRooms(rooms, arg);
      && (listing == "" <==> (p - 1) * 4 > |rooms|)
      && ((p - 1) * 4 <= |rooms| ==>
            && listing == ListingHeader(p, |rooms|) + RoomLines(PageRooms(rooms, p))
            && |PageRooms(rooms, p)| == (if p * 4 <= |rooms| then 4 else |rooms| - (p - 1) * 4)
            && forall k :: 0 <= k < |PageRooms(rooms, p)| ==> PageRooms(rooms, p)[k] == rooms[(p - 1) * 4 + k])
  {
    var p := PageNumber(arg);
    var h := ListingHeader(p, |rooms|);
    assert h[0] == 'L';
    if (p - 1) * 4 <= |rooms| {
      PageRoomsSpec(rooms, p);
    }
  }

  /** The rooms of a page that starts within the list. */
  lemma PageRoomsSpec(rooms: seq<Room>, p: nat)
    requires p >= 1 && (p - 1) * 4 <= |rooms|
    ensures |PageRooms(rooms, p)| == (if p * 4 <= |rooms| then 4 else |rooms| - (p - 1) * 4)
    ensures forall k :: 0 <= k < |PageRooms(rooms, p)| ==> PageRooms(rooms, p)[k] == rooms[(p - 1) * 4 + k]
  {
    assert p * LINES_PER_PAGE - LINES_PER_PAGE == (p - 1) * 4;
  }

  /** Every room is listed on page i / 4 + 1, at line i % 4. */
  lemma RoomOnItsPage(rooms: seq<Room>, i: nat)
    requires i < |rooms|
    ensures var p := i / 4 + 1;
      PageNumber(NatToString(p)) == p && i % 4 < |PageRooms(rooms, p)| && PageRooms(rooms, p)[i % 4] == rooms[i]
  {
    var p := i / 4 + 1;
    NatToStringRoundTrip(p);
  }

  /** A page argument that is not all digits, or is 0, lists page 1. */
  lemma ListRoomsDefaultPage(rooms: seq<Room>, arg: string)
    requires !IsDigits(arg) || DigitsValue(arg) == 0
    ensures ListRooms(rooms, arg) == ListRooms(rooms, "1")
  {
    assert DigitsValue("1") == 1 by {
      assert "1"[..0] == "";
    }
  }

  /** With ten rooms, page 3 lists the ninth and tenth and page 4 is empty. */
  lemma ListRoomsTenRooms(rooms: seq<Room>)
    requires |rooms| == 10
    ensures PageRooms(rooms, 3) == rooms[8..10]
    ensures ListRooms(rooms, "3") == ListingHeader(3, 10) + RoomLines(rooms[8..10])
    ensures ListRooms(rooms, "4") == ""
  {
    assert DigitsValue("3") == 3 by {
      assert "3"[..0] == "";
    }
    assert DigitsValue("4") == 4 by {
      assert "4"[..0] == "";
    }
  }

  // ---------------------------------------------------------------------
  // msg_queue

  /** Primary keys are positive and strictly increase in rowid order. */
  predicate IdsIncreasing(q: seq<QueuedMsg>)
  {
    && (forall i :: 0 <= i < |q| ==> q[i].id >= 1)
    && (forall i, j :: 0 <= i < j < |q| ==> q[i].id < q[j].id)
  }

  /** The key SQLite gives a new row: one more than the largest in use, or 1. */
  function NextId(q: seq<QueuedMsg>): nat
  {
    if q == [] then 1 else q[|q| - 1].id + 1
  }

  /** The `(destination, message)` pairs waiting, oldest first. */
  function Pending(q: seq<QueuedMsg>): (r: seq<(string, string)>)
    ensures |r| == |q|
    ensures forall i :: 0 <= i < |q| ==> r[i] == (q[i].destination, q[i].message)
  {
    seq(|q|, i requires 0 <= i < |q| => (q[i].destination, q[i].message))
  }

  /** The table after `DELETE FROM msg_queue WHERE ID=id`. */
  function DeleteId(q: seq<QueuedMsg>, id: nat): seq<QueuedMsg>
    decreases |q|
  {
    if q == [] then [] else (if q[0].id == id then [] else [q[0]]) + DeleteId(q[1..], id)
  }

  /** A new row gets a key above every key in use, so the order is kept. */
  /** The (destination, message) pairs of one message sent to each of
      `dests`, in order. */
  function Addressed(dests: seq<string>, msg: string): (r: seq<(string, string)>)
    ensures |r| == |dests|
    ensures forall i :: 0 <= i < |dests| ==> r[i] == (dests[i], msg)
  {
    seq(|dests|, i requires 0 <= i < |dests| => (dests[i], msg))
  }

  lemma EnqueueKeepsOrder(q: seq<QueuedMsg>, dest: string, msg: string)
    requires IdsIncreasing(q)
    ensures IdsIncreasing(q + [QueuedMsg(NextId(q), dest, msg)])
    ensures forall i :: 0 <= i < |q| ==> q[i].id < NextId(q)
  {
  }

  /** In a queue ordered by key, the first row has the lowest key, and
      deleting that key removes the first row and nothing else. */
  lemma {:induction false} DequeueHead(q: seq<QueuedMsg>)
    requires IdsIncreasing(q) && q != []
    ensures forall i :: 0 <= i < |q| ==> q[0].id <= q[i].id
    ensures DeleteId(q, q[0].id) == q[1..]
    ensures IdsIncreasing(q[1..])
  {
    var t := q[1..];
    forall i | 0 <= i < |t|
      ensures t[i] == q[i + 1] && t[i].id > q[0].id
    {
    }
    forall i, j | 0 <= i < j < |t|
      ensures t[i].id < t[j].id
    {
      assert t[i] == q[i + 1] && t[j] == q[j + 1];
    }
    KeyAbsent(t, q[0].id);
    assert DeleteId(q, q[0].id) == [] + DeleteId(t, q[0].id);
  }

  lemma {:induction false} KeyAbsent(q: seq<QueuedMsg>, id: nat)
    requires forall i :: 0 <= i < |q| ==> q[i].id != id
    ensures DeleteId(q, id) == q
    decreases |q|
  {
    if q != [] {
      KeyAbsent(q[1..], id);
    }
  }

  // ---------------------------------------------------------------------
  // channel_counts and get_channel_count_metric

  /** The rows `ORDER BY id DESC LIMIT min(#samples, #rooms)` reads, in table
      order: the newest min(#samples, #rooms) samples. */
  function MetricWindow(samples: seq<Sample>, numRooms: nat): (w: seq<Sample>)
    ensures |w| == if |samples| < numRooms then |samples| else numRooms
    ensures w == samples[|samples| - |w|..]
  {
    var limit := if |samples| < numRooms then |samples| else numRooms;
    samples[|samples| - limit..]
  }

  /** The accumulator loop of `get_channel_count_metric`: rows are visited
      newest first, and each assignment `rtn_dict[channel] = [count, nicks]`
      overwrites the value of a channel already seen. */
  function PutNewestFirst(d: seq<Entry<Usage>>, w: seq<Sample>): seq<Entry<Usage>>
    decreases |w|
  {
    if w == [] then d
    else
      var x := w[|w| - 1];
      PutNewestFirst(Put(d, x.channel, Usage(x.count, x.nicks)), w[..|w| - 1])
  }

  /** `get_channel_count_metric()`. */
  function ChannelCountMetric(samples: seq<Sample>, numRooms: nat): seq<Entry<Usage>>
  {
    PutNewestFirst([], MetricWindow(samples, numRooms))
  }

  /** The index of the oldest sample of `channel` in `w`, or |w|. */
  function OldestOf(w: seq<Sample>, channel: string): (i: nat)
    ensures i <= |w|
    ensures i < |w| ==> w[i].channel == channel
    ensures forall j :: 0 <= j < i ==> w[j].channel != channel
    decreases |w|
  {
    if w == [] then 0 else if w[0].channel == channel then 0 else 1 + OldestOf(w[1..], channel)
  }

  /** The usage recorded by the oldest sample of `channel` in `w`. */
  function OldestUsage(w: seq<Sample>, channel: string): Option<Usage>
  {
    var i := OldestOf(w, channel);
    if i < |w| then Some(Usage(w[i].count, w[i].nicks)) else None
  }

  function Either<T>(first: Option<T>, otherwise: Option<T>): Option<T>
  {
    if first.Some? then first else otherwise
  }

  lemma {:induction false} OldestOfAppend(w: seq<Sample>, x: Sample, c: string)
    ensures OldestOf(w + [x], c) ==
      if OldestOf(w, c) < |w| then OldestOf(w, c) else if x.channel == c then |w| else |w| + 1
  {
    var i := OldestOf(w + [x], c);
    var i' := OldestOf(w, c);
    var wx := w + [x];
    if i' < |w| {
      assert wx[i'] == w[i'];
    } else {
      assert wx[|w|] == x;
    }
  }

  /** Folding newest first, the value of a channel is that of its oldest
      sample in the window; channels absent from the window keep `d`'s
      value; the keys stay distinct and grow by at most |w|. */
  lemma {:induction false} PutNewestFirstSpec(d: seq<Entry<Usage>>, w: seq<Sample>)
    requires DistinctKeys(d)
    ensures DistinctKeys(PutNewestFirst(d, w))
    ensures |PutNewestFirst(d, w)| <= |d| + |w|
    ensures forall c :: Get(PutNewestFirst(d, w), c) == Either(OldestUsage(w, c), Get(d, c))
    decreases |w|
  {
    if w != [] {
      var x := w[|w| - 1];
      var init := w[..|w| - 1];
      var d' := Put(d, x.channel, Usage(x.count, x.nicks));
      PutSpec(d, x.channel, Usage(x.count, x.nicks));
      PutNewestFirstSpec(d', init);
      assert w == init + [x];
      forall c
        ensures Get(PutNewestFirst(d, w), c) == Either(OldestUsage(w, c), Get(d, c))
      {
        OldestOfAppend(init, x, c);
        if OldestOf(init, c) < |init| {
          assert w[OldestOf(init, c)] == init[OldestOf(init, c)];
        }
      }
    }
  }

  /** The metric holds exactly the channels sampled in the window; each
      value is that of the channel's oldest sample in the window; there are
      at most min(#samples, #rooms) keys. */
  lemma MetricSpec(samples: seq<Sample>, numRooms: nat)
    ensures var m := ChannelCountMetric(samples, numRooms); var w := MetricWindow(samples, numRooms);
      && DistinctKeys(m)
      && |m| <= |w| && |m| <= numRooms
      && forall c :: Get(m, c) == OldestUsage(w, c)
  {
    PutNewestFirstSpec([], MetricWindow(samples, numRooms));
  }

  /** With one room and two samples, the metric reads only the newest. */
  lemma MetricWindowOneRoom(a: Sample, b: Sample)
    requires a.channel == b.channel
    ensures ChannelCountMetric([a, b], 1) == [Entry(b.channel, Usage(b.count, b.nicks))]
  {
    assert MetricWindow([a, b], 1) == [b];
    assert [b][..0] == [];
    var e := Entry(b.channel, Usage(b.count, b.nicks));
    assert Put([], b.channel, Usage(b.count, b.nicks)) == [e];
    assert PutNewestFirst([], [b]) == PutNewestFirst([e], []);
  }

  // ---------------------------------------------------------------------
  // channel_user_audit and audit_channels

  /** `channel_user_audit_table_dict()`: rows in table order, a later row
      overwriting an earlier row of the same channel. */
  function AuditDict(rows: seq<AuditRow>): seq<Entry<nat>>
    decreases |rows|
  {
    if rows == [] then []
    else
      var x := rows[|rows| - 1];
      Put(AuditDict(rows[..|rows| - 1]), x.channel, x.count)
  }

  /** The rows `audit_channels` writes back: the metric channels whose count
      is below 3, in the metric's key order. */
  function LowRows(metric: seq<Entry<Usage>>): seq<AuditRow>
    decreases |metric|
  {
    if metric == [] then []
    else
      var e := metric[|metric| - 1];
      LowRows(metric[..|metric| - 1]) + (if e.value.count < 3 then [AuditRow(e.key, e.value.count)] else [])
  }

  /** The channels `audit_channels` returns: the keys of the previous audit,
      in order, whose previous count and current metric count are both
      below 3. */
  function Flagged(audit: seq<Entry<nat>>, metric: seq<Entry<Usage>>): seq<string>
    decreases |audit|
  {
    if audit == [] then []
    else
      var chan := audit[|audit| - 1].key;
      var prev := audit[|audit| - 1].value;
      Flagged(audit[..|audit| - 1], metric)
        + (match Get(metric, chan)
           case Some(u) => if prev < 3 && u.count < 3 then [chan] else []
           case None => [])
  }

  /** The contribution of one previous-audit entry to `Flagged`. */
  function FlagOne(e: Entry<nat>, metric: seq<Entry<Usage>>): seq<string>
  {
    match Get(metric, e.key)
    case Some(u) => if e.value < 3 && u.count < 3 then [e.key] else []
    case None => []
  }

  /** `Flagged` over one more entry of the previous audit. */
  lemma FlaggedPrefix(audit: seq<Entry<nat>>, metric: seq<Entry<Usage>>, i: nat)
    requires i < |audit|
    ensures Flagged(audit[..i + 1], metric) == Flagged(audit[..i], metric) + FlagOne(audit[i], metric)
  {
    assert audit[..i + 1][..i] == audit[..i];
  }

  /** `LowRows` over one more metric entry. */
  lemma LowRowsPrefix(metric: seq<Entry<Usage>>, j: nat)
    requires j < |metric|
    ensures LowRows(metric[..j + 1]) ==
      LowRows(metric[..j]) + (if metric[j].value.count < 3 then [AuditRow(metric[j].key, metric[j].value.count)] else [])
  {
    assert metric[..j + 1][..j] == metric[..j];
  }

  lemma {:induction false} AuditDictDistinct(rows: seq<AuditRow>)
    ensures DistinctKeys(AuditDict(rows))
    decreases |rows|
  {
    if rows != [] {
      var x := rows[|rows| - 1];
      AuditDictDistinct(rows[..|rows| - 1]);
      PutSpec(AuditDict(rows[..|rows| - 1]), x.channel, x.count);
    }
  }

  /** A channel is flagged exactly when the previous audit holds it with a
      count below 3 and the current metric holds it with a count below 3. */
  lemma {:induction false} FlaggedSpec(audit: seq<Entry<nat>>, metric: seq<Entry<Usage>>, c: string)
    requires DistinctKeys(audit)
    ensures c in Flagged(audit, metric) <==>
      Get(audit, c).Some? && Get(audit, c).value < 3 && Get(metric, c).Some? && Get(metric, c).value.count < 3
    decreases |audit|
  {
    if audit != [] {
      var init := audit[..|audit| - 1];
      var last := audit[|audit| - 1];
      FlaggedSpec(init, metric, c);
      GetLast(audit);
    }
  }

  /** Looking up in a dict with distinct keys: the last entry's key finds the
      last value; any other key is found as in the dict without it. */
  lemma {:induction false} GetLast<V>(d: seq<Entry<V>>)
    requires DistinctKeys(d) && d != []
    ensures Get(d, d[|d| - 1].key) == Some(d[|d| - 1].value)
    ensures forall k :: k != d[|d| - 1].key ==> Get(d, k) == Get(d[..|d| - 1], k)
    ensures Get(d[..|d| - 1], d[|d| - 1].key).None?
    decreases |d|
  {
    var init := d[..|d| - 1];
    GetNone(init, d[|d| - 1].key);
    if |d| > 1 {
      assert d[1..][..|d[1..]| - 1] == init[1..];
      GetLast(d[1..]);
      if d[0].key == d[|d| - 1].key {
        assert false;
      }
    }
  }

  /** The count of `c` in the metric when it is below 3. */
  function LowCount(metric: seq<Entry<Usage>>, c: string): Option<nat>
  {
    match Get(metric, c)
    case Some(u) => if u.count < 3 then Some(u.count) else None
    case None => None
  }

  /** After `audit_channels`, the audit table reads back as exactly the
      metric channels with a count below 3, with those counts. */
  lemma {:induction false} AuditDictOfLowRows(metric: seq<Entry<Usage>>)
    requires DistinctKeys(metric)
    ensures DistinctKeys(AuditDict(LowRows(metric)))
    ensures forall c :: Get(AuditDict(LowRows(metric)), c) == LowCount(metric, c)
    decreases |metric|
  {
    AuditDictDistinct(LowRows(metric));
    if metric != [] {
      var init := metric[..|metric| - 1];
      var e := metric[|metric| - 1];
      assert DistinctKeys(init);
      AuditDictOfLowRows(init);
      GetLast(metric);
      var rows := LowRows(init);
      if e.value.count < 3 {
        var rows' := rows + [AuditRow(e.key, e.value.count)];
        assert LowRows(metric) == rows';
        assert rows'[..|rows'| - 1] == rows;
        PutSpec(AuditDict(rows), e.key, e.value.count);
      } else {
        assert LowRows(metric) == rows + [];
        assert rows + [] == rows;
      }
    }
  }

  /** The two-strike rule: when the audit table was written from metric
      `m1` and the next audit reads metric `m2`, a channel is flagged exactly
      when its count is below 3 in both. */
  lemma TwoStrikes(m1: seq<Entry<Usage>>, m2: seq<Entry<Usage>>, c: string)
    requires DistinctKeys(m1)
    ensures c in Flagged(AuditDict(LowRows(m1)), m2) <==>
      && Get(m1, c).Some? && Get(m1, c).value.count < 3
      && Get(m2, c).Some? && Get(m2, c).value.count < 3
  {
    AuditDictOfLowRows(m1);
    FlaggedSpec(AuditDict(LowRows(m1)), m2, c);
  }

  // ---------------------------------------------------------------------
  // Topic lists

  /** The table name of a topic: `topic + '_list'`. */
  function ListTable(topic: string): string
  {
    topic + "_list"
  }

  /** `topic_exists(name)`: `sqlite_master.name = name`, case-sensitive. */
  predicate TopicExists(topics: seq<TopicList>, table: string)
  {
    exists i :: 0 <= i < |topics| && topics[i].table == table
  }

  /** The table names, in creation order. */
  function TopicTables(topics: seq<TopicList>): (r: seq<string>)
    ensures |r| == |topics| && forall i :: 0 <= i < |topics| ==> r[i] == topics[i].table
  {
    seq(|topics|, i requires 0 <= i < |topics| => topics[i].table)
  }

  /** The table a statement naming `table` resolves to, or |topics|. */
  function FindTopic(topics: seq<TopicList>, table: string): (i: nat)
    ensures i <= |topics|
    ensures TopicExists(topics, table) ==> i < |topics|
  {
    FindName(TopicTables(topics), table)
  }

  /** A table found by its exact name is the one statements resolve to. */
  lemma ExistingTopicFound(topics: seq<TopicList>, table: string)
    requires DistinctNames(TopicTables(topics)) && TopicExists(topics, table)
    ensures FindTopic(topics, table) < |topics| && topics[FindTopic(topics, table)].table == table
  {
    var names := TopicTables(topics);
    var i :| 0 <= i < |topics| && topics[i].table == table;
    assert names[i] == table;
    assert forall j :: 0 <= j < i ==> Lower(names[j]) != Lower(names[i]);
  }

  /** The outcome of `join_topic`: a refusal string, False, or None. */
  datatype JoinOutcome = NotPermitted | AlreadySubscribed | Joined

  /** The topic tables after `join_topic` has created (if need be) the table
      a statement naming `table` resolves to and added `nick` unless present. */
  function Subscribed(topics: seq<TopicList>, table: string, nick: string): seq<TopicList>
  {
    var i := FindTopic(topics, table);
    if i == |topics| then topics + [TopicList(table, [nick])]
    else if nick in topics[i].subscribers then topics
    else topics[i := TopicList(topics[i].table, topics[i].subscribers + [nick])]
  }

  predicate NoDuplicates(s: seq<string>)
  {
    forall i, j :: 0 <= i < j < |s| ==> s[i] != s[j]
  }

  /** Every subscriber list is duplicate-free. */
  predicate SubscribersDistinct(topics: seq<TopicList>)
  {
    forall i :: 0 <= i < |topics| ==> NoDuplicates(topics[i].subscribers)
  }

  /** Subscribing keeps table names distinct (under case folding) and lists
      duplicate-free; afterwards the nick is on the list `table` resolves to,
      every other table is unchanged, and a nick already present changes
      nothing. */
  lemma SubscribedSpec(topics: seq<TopicList>, table: string, nick: string)
    requires DistinctNames(TopicTables(topics)) && SubscribersDistinct(topics)
    ensures var t := Subscribed(topics, table, nick); var i := FindTopic(t, table);
      && DistinctNames(TopicTables(t)) && SubscribersDistinct(t)
      && i < |t| && nick in t[i].subscribers
      && |t| >= |topics|
      && (forall j :: 0 <= j < |topics| && j != i ==> t[j] == topics[j])
      && (i < |topics| ==> t[i].table == topics[i].table)
      && (i < |topics| && nick in topics[i].subscribers ==> t == topics)
  {
    var names := TopicTables(topics);
    var i := FindTopic(topics, table);
    var t := Subscribed(topics, table, nick);
    if i == |topics| {
      assert TopicTables(t) == names + [table];
      FindNameAppend(names, table, table);
      DistinctNamesAppend(names, table);
    } else {
      assert TopicTables(t) == names;
      var subs := topics[i].subscribers;
      if nick !in subs {
        assert NoDuplicates(subs + [nick]) by {
          forall a, b | 0 <= a < b < |subs + [nick]| ensures (subs + [nick])[a] != (subs + [nick])[b] {
            if b == |subs| {
              assert (subs + [nick])[a] == subs[a];
            }
          }
        }
        assert t[i].subscribers == subs + [nick];
      }
    }
  }

  /** `" ".join` with a leading space: the string `topic_subs` builds. */
  function SubscriberText(subs: seq<string>): string
    decreases |subs|
  {
    if subs == [] then "" else " " + subs[0] + SubscriberText(subs[1..])
  }

  /** `topic_subs(nick, topic)`. */
  function TopicSubs(topics: seq<TopicList>, topic: string): string
  {
    var i := FindTopic(topics, ListTable(topic));
    if i == |topics| then "Could not find topic list" else SubscriberText(topics[i].subscribers)
  }

  lemma {:induction false} SubscriberTextIsJoin(subs: seq<string>)
    ensures SubscriberText(subs) == Join([""] + subs, " ")
    decreases |subs|
  {
    if subs != [] {
      SubscriberTextIsJoin(subs[1..]);
      assert ([""] + subs)[1..] == subs;
      assert ([""] + subs[1..])[1..] == subs[1..];
      if |subs| > 1 {
        assert subs == [subs[0]] + subs[1..];
        assert Join(subs, " ") == subs[0] + " " + Join(subs[1..], " ");
      }
    }
  }

  lemma {:induction false} SplitWithout(s: string, sep: char)
    requires sep !in s
    ensures Split(s, sep) == [s]
    decreases |s|
  {
    if s != [] {
      SplitWithout(s[1..], sep);
      assert s == [s[0]] + s[1..];
    }
  }

  lemma {:induction false} SplitAtSep(a: string, b: string, sep: char)
    requires sep !in a
    ensures Split(a + [sep] + b, sep) == [a] + Split(b, sep)
    decreases |a|
  {
    if a == [] {
      assert a + [sep] + b == [sep] + b;
      assert ([sep] + b)[1..] == b;
    } else {
      var s := a + [sep] + b;
      assert s[0] == a[0] && s[1..] == a[1..] + [sep] + b;
      SplitAtSep(a[1..], b, sep);
      assert [a[0]] + a[1..] == a;
    }
  }

  /** Joining pieces that do not contain the separator and splitting again
      gives the pieces back. */
  lemma {:induction false} SplitJoin(parts: seq<string>, sep: char)
    requires |parts| >= 1
    requires forall i :: 0 <= i < |parts| ==> sep !in parts[i]
    ensures Split(Join(parts, [sep]), sep) == parts
    decreases |parts|
  {
    if |parts| == 1 {
      SplitWithout(parts[0], sep);
    } else {
      SplitJoin(parts[1..], sep);
      SplitAtSep(parts[0], Join(parts[1..], [sep]), sep);
      assert parts == [parts[0]] + parts[1..];
    }
  }

  /** What `list_announce` gets back from `topic_subs(...).split(" ")` after
      dropping empty strings: exactly the subscriber list, when no nick is
      empty or contains a space. */
  lemma SubscribersRoundTrip(subs: seq<string>)
    requires forall i :: 0 <= i < |subs| ==> subs[i] != "" && ' ' !in subs[i]
    ensures NonEmpty(Split(SubscriberText(subs), ' ')) == subs
  {
    SubscriberTextIsJoin(subs);
    var parts := [""] + subs;
    assert forall i :: 0 <= i < |parts| ==> ' ' !in parts[i] by {
      forall i | 0 <= i < |parts| ensures ' ' !in parts[i] {
        if i > 0 {
          assert parts[i] == subs[i - 1];
        }
      }
    }
    SplitJoin(parts, ' ');
    assert parts[1..] == subs;
    NonEmptyAll(subs);
  }

  lemma {:induction false} NonEmptyAll(subs: seq<string>)
    requires forall i :: 0 <= i < |subs| ==> subs[i] != ""
    ensures NonEmpty(subs) == subs
    decreases |subs|
  {
    if subs != [] {
      NonEmptyAll(subs[1..]);
    }
  }

  /** `name LIKE '%_list'`: at least one character before "list", which
      may be in any case (`_` is LIKE's one-character wildcard and LIKE
      ignores ASCII case). */
  predicate LikeList(name: string)
  {
    |name| >= 5 && Lower(name[|name| - 4..]) == "list"
  }

  /** The question tables that `list_topics`' query matches as well. */
  function LikeListLogs(logs: seq<QuestionLog>): (r: seq<string>)
    ensures forall i :: 0 <= i < |r| ==> LikeList(r[i])
    ensures forall i :: 0 <= i < |logs| && LikeList(logs[i].table) ==> logs[i].table in r
    decreases |logs|
  {
    if logs == [] then []
    else (if LikeList(logs[0].table) then [logs[0].table] else []) + LikeListLogs(logs[1..])
  }

  /** The tables `SELECT name FROM sqlite_master ... LIKE '%_list'` returns:
      every topic table, then the question tables that match. */
  function ListedTables(topics: seq<TopicList>, logs: seq<QuestionLog>): seq<string>
  {
    TopicTables(topics) + LikeListLogs(logs)
  }

  /** The names `list_topics` shows: each table name with every "_list"
      removed. */
  function TopicNames(tables: seq<string>): (r: seq<string>)
    ensures |r| == |tables|
    ensures forall i :: 0 <= i < |tables| ==> r[i] == ReplaceAll(tables[i], "_list", "")
  {
    seq(|tables|, i requires 0 <= i < |tables| => ReplaceAll(tables[i], "_list", ""))
  }

  /** `list_topics()`: the names sorted by their lower-case form, joined
      with ", ". */
  function ListTopics(topics: seq<TopicList>, logs: seq<QuestionLog>): string
  {
    Join(SortByLower(TopicNames(ListedTables(topics, logs))), ", ")
  }

  /** The listing is the ", "-join of a list ordered by lower case that
      holds the name of every topic table, "_list" removed, and of every
      question table the query matches, each as often as its table. */
  lemma ListTopicsSpec(topics: seq<TopicList>, logs: seq<QuestionLog>)
    ensures var tables := ListedTables(topics, logs);
      exists listed: seq<string> ::
        && ListTopics(topics, logs) == Join(listed, ", ")
        && SortedByLower(listed)
        && multiset(listed) == multiset(TopicNames(tables))
        && (forall i :: 0 <= i < |topics| ==> ReplaceAll(topics[i].table, "_list", "") in listed)
        && (forall i :: 0 <= i < |logs| && LikeList(logs[i].table) ==> ReplaceAll(logs[i].table, "_list", "") in listed)
        && (forall n :: n in listed ==> exists t :: t in tables && n == ReplaceAll(t, "_list", ""))
  {
    var tables := ListedTables(topics, logs);
    var names := TopicNames(tables);
    var listed := SortByLower(names);
    forall i | 0 <= i < |topics|
      ensures ReplaceAll(topics[i].table, "_list", "") in listed
    {
      assert tables[i] == topics[i].table;
      assert names[i] in multiset(listed);
    }
    forall i | 0 <= i < |logs| && LikeList(logs[i].table)
      ensures ReplaceAll(logs[i].table, "_list", "") in listed
    {
      var k :| 0 <= k < |LikeListLogs(logs)| && LikeListLogs(logs)[k] == logs[i].table;
      assert tables[|topics| + k] == logs[i].table;
      assert names[|topics| + k] in multiset(listed);
    }
    forall n | n in listed
      ensures exists t :: t in tables && n == ReplaceAll(t, "_list", "")
    {
      assert n in multiset(names);
      var k :| 0 <= k < |names| && names[k] == n;
      assert tables[k] in tables;
    }
  }

  /** "_list" occurs in `s` at position `i`. */
  predicate ListAt(s: string, i: int)
  {
    0 <= i && i + 5 <= |s| && s[i..i + 5] == "_list"
  }

  /** A topic made by `join_topic(name)` is listed under `name` again,
      provided `name` itself holds no "_list". */
  lemma {:induction false} ListTableNameBack(name: string)
    requires forall i :: !ListAt(name, i)
    ensures ReplaceAll(ListTable(name), "_list", "") == name
    decreases |name|
  {
    var s := ListTable(name);
    if name == [] {
      assert s[..5] == "_list" && s[5..] == [];
    } else {
      if |name| >= 5 {
        assert s[..5] == name[0..5] && !ListAt(name, 0);
      } else {
        assert s[..5][|name|] == '_' != "_list"[|name|];
      }
      forall i
        ensures !ListAt(name[1..], i)
      {
        if 0 <= i && i + 5 <= |name| - 1 {
          assert name[1..][i..i + 5] == name[i + 1..i + 6] && !ListAt(name, i + 1);
        }
      }
      assert s[1..] == ListTable(name[1..]);
      ListTableNameBack(name[1..]);
    }
  }

  /** The query also matches a question table whose channel name ends in
      "list", such as "questions_playlist" of `#playlist`. */
  lemma QuestionTableListed()
    ensures ListedTables([], [QuestionLog("questions_playlist", [])]) == ["questions_playlist"]
  {
    var t := "questions_playlist";
    assert t[|t| - 4..] == "list";
    assert LikeList(t);
    assert LikeListLogs([QuestionLog(t, [])]) == [t] + LikeListLogs([]);
  }

  // ---------------------------------------------------------------------
  // Question logs

  /** `s.replace(a, b)` for single characters. */
  function ReplaceChar(s: string, a: char, b: char): string
  {
    seq(|s|, i requires 0 <= i < |s| => if s[i] == a then b else s[i])
  }

  /** `'questions_' + channel.replace('#','').replace('-','_')`. */
  function QuestionTable(channel: string): string
  {
    "questions_" + ReplaceChar(Without(channel, ['#']), '-', '_')
  }

  function LogTables(logs: seq<QuestionLog>): (r: seq<string>)
    ensures |r| == |logs| && forall i :: 0 <= i < |logs| ==> r[i] == logs[i].table
  {
    seq(|logs|, i requires 0 <= i < |logs| => logs[i].table)
  }

  function FindLog(logs: seq<QuestionLog>, table: string): (i: nat)
    ensures i <= |logs|
  {
    FindName(LogTables(logs), table)
  }

  /** `question_table_count`: 0 when the table does not exist. */
  function QuestionCount(logs: seq<QuestionLog>, channel: string): nat
  {
    var i := FindLog(logs, QuestionTable(channel));
    if i == |logs| then 0 else |logs[i].entries|
  }

  const NO_QUESTIONS := "No Questions Found"

  function FormatQuestion(qnum: nat, qcount: nat, q: Question): string
  {
    "[" + NatToString(qnum) + "/" + NatToString(qcount) + "] " + q.askedAt + " : " + q.creator + ": " + q.text
  }

  /** A formatted question opens with its "[n/count] " position. */
  lemma FormatQuestionPrefix(qnum: nat, qcount: nat, q: Question)
    ensures var prefix := "[" + NatToString(qnum) + "/" + NatToString(qcount) + "] ";
      var r := FormatQuestion(qnum, qcount, q);
      && r == prefix + (q.askedAt + " : " + q.creator + ": " + q.text)
      && StartsWith(r, prefix) && r != NO_QUESTIONS
  {
    var prefix := "[" + NatToString(qnum) + "/" + NatToString(qcount) + "] ";
    var rest := q.askedAt + " : " + q.creator + ": " + q.text;
    var r := FormatQuestion(qnum, qcount, q);
    assert r == prefix + rest;
    assert r[..|prefix|] == prefix;
    assert r[0] == '[';
  }

  /** `read_question(qnum, channel)`; its caller passes qnum >= 1. */
  function ReadQuestion(logs: seq<QuestionLog>, qnum: nat, channel: string): string
    requires qnum >= 1
  {
    var i := FindLog(logs, QuestionTable(channel));
    var qcount := QuestionCount(logs, channel);
    if qcount == 0 || qnum > qcount then NO_QUESTIONS
    else FormatQuestion(qnum, qcount, logs[i].entries[qnum - 1])
  }

  /** "No Questions Found" exactly when the log is empty or shorter than
      `qnum`; otherwise the entry numbered `qnum` (id qnum), tagged
      "[qnum/qcount] ". */
  lemma ReadQuestionSpec(logs: seq<QuestionLog>, qnum: nat, channel: string)
    requires qnum >= 1
    ensures var r := ReadQuestion(logs, qnum, channel); var n := QuestionCount(logs, channel);
      && (r == NO_QUESTIONS <==> n == 0 || qnum > n)
      && (1 <= qnum <= n ==>
            var i := FindLog(logs, QuestionTable(channel));
            && StartsWith(r, "[" + NatToString(qnum) + "/" + NatToString(n) + "] ")
            && r == FormatQuestion(qnum, n, logs[i].entries[qnum - 1]))
  {
    var n := QuestionCount(logs, channel);
    if 1 <= qnum <= n {
      var i := FindLog(logs, QuestionTable(channel));
      FormatQuestionPrefix(qnum, n, logs[i].entries[qnum - 1]);
    }
  }

  /** The logs after `add_question`: the table is created if no table
      resolves to its name, then the question is appended. */
  function WithQuestion(logs: seq<QuestionLog>, channel: string, q: Question): seq<QuestionLog>
  {
    var table := QuestionTable(channel);
    var i := FindLog(logs, table);
    if i == |logs| then logs + [QuestionLog(table, [q])]
    else logs[i := QuestionLog(logs[i].table, logs[i].entries + [q])]
  }

  /** After `add_question`, the channel's log is one longer; the new
      question reads back under the new count and every earlier question
      still reads back as the same entry; table names stay distinct. */
  lemma AddThenRead(logs: seq<QuestionLog>, channel: string, q: Question)
    requires DistinctNames(LogTables(logs))
    ensures var after := WithQuestion(logs, channel, q); var n := QuestionCount(logs, channel);
      && DistinctNames(LogTables(after))
      && QuestionCount(after, channel) == n + 1
      && ReadQuestion(after, n + 1, channel) == FormatQuestion(n + 1, n + 1, q)
      && forall k :: 1 <= k <= n ==>
           ReadQuestion(after, k, channel) ==
             FormatQuestion(k, n + 1, logs[FindLog(logs, QuestionTable(channel))].entries[k - 1])
  {
    var table := QuestionTable(channel);
    var names := LogTables(logs);
    var i := FindLog(logs, table);
    var after := WithQuestion(logs, channel, q);
    if i == |logs| {
      assert LogTables(after) == names + [table];
      FindNameAppend(names, table, table);
      DistinctNamesAppend(names, table);
    } else {
      assert LogTables(after) == names;
    }
  }

  /** The logs after `clear_question_list`: None when no table resolves to
      the channel's table name (the DELETE fails), otherwise that table
      emptied. */
  function Cleared(logs: seq<QuestionLog>, channel: string): Option<seq<QuestionLog>>
  {
    var i := FindLog(logs, QuestionTable(channel));
    if i == |logs| then None else Some(logs[i := QuestionLog(logs[i].table, [])])
  }

  /** After clearing, every read finds nothing and the next question is
      number 1 again; other channels' logs are untouched. */
  lemma ClearThenRead(logs: seq<QuestionLog>, channel: string, q: Question)
    requires DistinctNames(LogTables(logs))
    requires Cleared(logs, channel).Some?
    ensures var after := Cleared(logs, channel).value;
      && DistinctNames(LogTables(after))
      && QuestionCount(after, channel) == 0
      && (forall k :: k >= 1 ==> ReadQuestion(after, k, channel) == NO_QUESTIONS)
      && ReadQuestion(WithQuestion(after, channel, q), 1, channel) == FormatQuestion(1, 1, q)
      && forall j :: 0 <= j < |logs| && j != FindLog(logs, QuestionTable(channel)) ==> after[j] == logs[j]
  {
    var after := Cleared(logs, channel).value;
    assert LogTables(after) == LogTables(logs);
    AddThenRead(after, channel, q);
  }

  // ---------------------------------------------------------------------
  // Seeding and shuffle_users

  /** What a Python call produced: a returned string, None, or an uncaught
      exception with its message. */
  datatype Outcome = Returned(text: string) | ReturnedNothing | Raised(message: string)

  /** The `add_room` calls of `Database.__init__`: "#" + name and
      prefix + name, for each initial channel and then each admin channel. */
  function SeedRequests(jitsiPrefix: string, names: seq<string>): (r: seq<RoomRequest>)
    ensures |r| == |names|
    ensures forall i :: 0 <= i < |names| ==> r[i] == RoomRequest("seagl-bot", jitsiPrefix + names[i], "#" + names[i])
  {
    seq(|names|, i requires 0 <= i < |names| => RoomRequest("seagl-bot", jitsiPrefix + names[i], "#" + names[i]))
  }

  /** One more request is one more `add_room` on the result. */
  lemma {:induction false} WithRoomsAppend(rooms: seq<Room>, reqs: seq<RoomRequest>, req: RoomRequest)
    ensures WithRooms(rooms, reqs + [req]) == WithRoom(WithRooms(rooms, reqs), req)
    decreases |reqs|
  {
    if reqs == [] {
      assert [] + [req] == [req];
    } else {
      assert (reqs + [req])[1..] == reqs[1..] + [req];
      WithRoomsAppend(WithRoom(rooms, reqs[0]), reqs[1..], req);
    }
  }

  /** Two runs of `add_room` calls are one run over both. */
  lemma {:induction false} WithRoomsConcat(rooms: seq<Room>, a: seq<RoomRequest>, b: seq<RoomRequest>)
    ensures WithRooms(rooms, a + b) == WithRooms(WithRooms(rooms, a), b)
    decreases |a|
  {
    if a == [] {
      assert a + b == b;
    } else {
      assert (a + b)[0] == a[0] && (a + b)[1..] == a[1..] + b;
      WithRoomsConcat(WithRoom(rooms, a[0]), a[1..], b);
    }
  }

  /** A run of `add_room` calls only appends rows, and keeps channels and
      links unique when every lower-cased argument is free of surrounding
      whitespace. */
  lemma {:induction false} WithRoomsSpec(rooms: seq<Room>, reqs: seq<RoomRequest>)
    requires UniqueRooms(rooms)
    requires forall i :: 0 <= i < |reqs| ==>
      Strip(Lower(reqs[i].channel)) == Lower(reqs[i].channel) && Strip(Lower(reqs[i].link)) == Lower(reqs[i].link)
    ensures UniqueRooms(WithRooms(rooms, reqs))
    ensures |rooms| <= |WithRooms(rooms, reqs)| <= |rooms| + |reqs|
    ensures WithRooms(rooms, reqs)[..|rooms|] == rooms
    decreases |reqs|
  {
    if reqs != [] {
      AddRoomKeepsUnique(rooms, reqs[0]);
      AddRoomOutcome(rooms, reqs[0]);
      var next := WithRoom(rooms, reqs[0]);
      WithRoomsSpec(next, reqs[1..]);
      assert WithRooms(rooms, reqs)[..|rooms|] == WithRooms(next, reqs[1..])[..|next|][..|rooms|];
    }
  }

  const MISSING_SHUFFLE_ARGS := "Error: Missing required args <topic-name> and <group-size>"

  /** What `shuffle_users(args)` decides before dealing: a refusal string,
      an exception, or the topic table, its subscribers and the group count
      `int(len(users) / group_size)`. */
  datatype ShufflePlan =
    | Refused(reply: string)
    | Fails(error: string)
    | Deal(table: string, users: seq<string>, groupCount: nat)

  function PlanShuffle(topics: seq<TopicList>, args: string): ShufflePlan
  {
    if args == "" then Refused(MISSING_SHUFFLE_ARGS)
    else PlanShuffleWords(topics, NonEmpty(Split(CollapseSpaces(args), ' ')))
  }

  /** `shuffle_users` once the arguments are split into words. */
  function PlanShuffleWords(topics: seq<TopicList>, words: seq<string>): ShufflePlan
  {
    if |words| < 2 then Refused(MISSING_SHUFFLE_ARGS)
    else if !IsDigits(words[1]) then Refused("Error: group-size is not an integer")
    else if !TopicExists(topics, ListTable(words[0])) then Refused("Error: Topic not found.")
    else PlanDeal(ListTable(words[0]), topics[FindTopic(topics, ListTable(words[0]))].subscribers, DigitsValue(words[1]))
  }

  /** `len(users) // size` groups, and the errors that division and the
      dealing loop's `i % groups` raise. */
  function PlanDeal(table: string, users: seq<string>, size: nat): ShufflePlan
  {
    if size == 0 then Fails("division by zero")
    else if |users| / size == 0 && |users| > 0 then Fails("integer division or modulo by zero")
    else Deal(table, users, |users| / size)
  }

  /** When dealing goes ahead, the subscribers are those of the named
      topic, and the groups of `size` fit: count * size <= #users and, with
      at least one user, count >= 1. */
  lemma PlanShuffleSpec(topics: seq<TopicList>, args: string)
    requires DistinctNames(TopicTables(topics))
    ensures var plan := PlanShuffle(topics, args);
      plan.Deal? ==>
        var words := NonEmpty(Split(CollapseSpaces(args), ' '));
        && |words| >= 2 && IsDigits(words[1]) && DigitsValue(words[1]) >= 1
        && plan.table == ListTable(words[0]) && TopicExists(topics, plan.table)
        && (exists i :: 0 <= i < |topics| && topics[i].table == plan.table && topics[i].subscribers == plan.users)
        && plan.groupCount * DigitsValue(words[1]) <= |plan.users|
        && |plan.users| < (plan.groupCount + 1) * DigitsValue(words[1])
        && (|plan.users| > 0 ==> plan.groupCount >= 1)
  {
    var plan := PlanShuffle(topics, args);
    if plan.Deal? {
      var words := NonEmpty(Split(CollapseSpaces(args), ' '));
      assert plan == PlanShuffleWords(topics, words);
      assert |words| >= 2 && IsDigits(words[1]);
      var table := ListTable(words[0]);
      assert TopicExists(topics, table);
      ExistingTopicFound(topics, table);
      var f := FindTopic(topics, table);
      var users := topics[f].subscribers;
      var size := DigitsValue(words[1]);
      assert plan == PlanDeal(table, users, size);
      assert plan.table == topics[f].table && plan.users == topics[f].subscribers;
      DivBounds(|users|, size);
    }
  }

  lemma DivBounds(n: nat, size: nat)
    requires size >= 1
    ensures (n / size) * size <= n < (n / size + 1) * size
    ensures n > 0 && n / size == 0 ==> n < size
  {
  }

  /** The `add_room` calls after dealing: group `k` gets channel
      "#seagl-" + table + "_" + k and link prefix + table + "_" + k. */
  function GroupRequests(jitsiPrefix: string, table: string, groupCount: nat): (r: seq<RoomRequest>)
    ensures |r| == groupCount
    ensures forall k :: 0 <= k < groupCount ==>
      r[k] == RoomRequest("seagl-bot", jitsiPrefix + table + "_" + NatToString(k), "#seagl-" + table + "_" + NatToString(k))
  {
    seq(groupCount, k requires 0 <= k < groupCount =>
      RoomRequest("seagl-bot", jitsiPrefix + table + "_" + NatToString(k), "#seagl-" + table + "_" + NatToString(k)))
  }

  /** Group rooms never collide with each other: the channel and the link
      that `add_room` checks for group k differ from those stored for any
      other group j. So a group's `add_room` can only be refused by a room
      that existed before the shuffle. */
  lemma GroupRoomsDistinct(jitsiPrefix: string, table: string, groupCount: nat, j: nat, k: nat)
    requires j < groupCount && k < groupCount && j != k
    ensures var r := GroupRequests(jitsiPrefix, table, groupCount);
      && Strip(Lower(r[j].channel)) != Lower(r[k].channel)
      && Strip(Lower(r[j].link)) != Lower(r[k].link)
  {
    var r := GroupRequests(jitsiPrefix, table, groupCount);
    var dj := NatToString(j);
    var dk := NatToString(k);
    NatToStringRoundTrip(j);
    NatToStringRoundTrip(k);
    var c := "#seagl-" + table + "_";
    assert r[j].channel == c + dj && r[k].channel == c + dk;
    LowerDigitSuffix(c, dj);
    LowerDigitSuffix(c, dk);
    StoredKeyDiffers(Lower(c), dj, dk);
    var l := jitsiPrefix + table + "_";
    assert r[j].link == l + dj && r[k].link == l + dk;
    LowerDigitSuffix(l, dj);
    LowerDigitSuffix(l, dk);
    StoredKeyDiffers(Lower(l), dj, dk);
  }

  /** A stored key `strip(a + dj)` is never the unstripped key `a + dk` of
      another number: stripping either leaves the text alone or removes
      leading whitespace that `a + dk` still starts with. */
  lemma StoredKeyDiffers(a: string, dj: string, dk: string)
    requires IsDigits(dj) && IsDigits(dk) && DigitsValue(dj) != DigitsValue(dk)
    ensures Strip(a + dj) != a + dk
  {
    var s := a + dj;
    var r := Strip(s);
    StripSlice(s);
    var start := |s| - |StripLeft(s)|;
    assert !IsSpace(s[|s| - 1]) by {
      assert s[|s| - 1] == dj[|dj| - 1];
    }
    assert start + |r| == |s|;
    assert !IsSpace(s[|a|]) by {
      assert s[|a|] == dj[0];
    }
    assert start <= |a|;
    if start == 0 {
      assert r == s;
      assert s[|a|..] == dj && (a + dk)[|a|..] == dk && dj != dk;
    } else {
      assert IsSpace(s[0]) && s[0] == (a + dk)[0];
    }
  }

  /** The members of all groups together. */
  function Pooled(groups: seq<seq<string>>): multiset<string>
    decreases |groups|
  {
    if groups == [] then multiset{} else multiset(groups[0]) + Pooled(groups[1..])
  }

  lemma {:induction false} PooledUpdate(groups: seq<seq<string>>, g: nat, u: string)
    requires g < |groups|
    ensures Pooled(groups[g := groups[g] + [u]]) == Pooled(groups) + multiset{u}
    decreases g
  {
    if g > 0 {
      PooledUpdate(groups[1..], g - 1, u);
      assert groups[g := groups[g] + [u]][1..] == groups[1..][g - 1 := groups[1..][g - 1] + [u]];
    }
  }

  lemma {:induction false} PooledEmpty(groups: seq<seq<string>>)
    requires forall g :: 0 <= g < |groups| ==> groups[g] == []
    ensures Pooled(groups) == multiset{}
    decreases |groups|
  {
    if groups != [] {
      PooledEmpty(groups[1..]);
    }
  }

  /** The size of group `g` after `i` users were dealt round-robin. */
  function DealtSize(i: nat, groupCount: nat, g: nat): nat
    requires groupCount >= 1
  {
    i / groupCount + (if g < i % groupCount then 1 else 0)
  }

  /** Dealing user `i` to group i % n adds one to that group's size. */
  lemma DealtSizeStep(i: nat, n: nat, g: nat)
    requires n >= 1 && g < n
    ensures DealtSize(i + 1, n, g) == DealtSize(i, n, g) + (if g == i % n then 1 else 0)
  {
    var q := i / n;
    var r := i % n;
    assert i == q * n + r;
    if r + 1 < n {
      assert i + 1 == q * n + (r + 1);
      assert (i + 1) / n == q && (i + 1) % n == r + 1 by {
        DivModUnique(i + 1, n, q, r + 1);
      }
    } else {
      assert i + 1 == (q + 1) * n + 0;
      assert (i + 1) / n == q + 1 && (i + 1) % n == 0 by {
        DivModUnique(i + 1, n, q + 1, 0);
      }
    }
  }

  lemma DivModUnique(a: nat, n: nat, q: nat, r: nat)
    requires n >= 1 && r < n && a == q * n + r
    ensures a / n == q && a % n == r
  {
    var q' := a / n;
    var r' := a % n;
    assert q' * n + r' == q * n + r;
    if q' > q {
      MulAtLeast(q' - q, n);
    } else if q' < q {
      MulAtLeast(q - q', n);
    }
  }

  /** Reducing the first summand first does not change the remainder. */
  lemma ModOfSum(a: nat, b: nat, n: nat)
    requires n >= 1
    ensures (a + b) % n == (a % n + b) % n
  {
    var qa := a / n;
    var ra := a % n;
    var s := ra + b;
    var qs := s / n;
    var rs := s % n;
    assert a == qa * n + ra;
    assert s == qs * n + rs;
    assert a + b == (qa + qs) * n + rs;
    DivModUnique(a + b, n, qa + qs, rs);
  }

  lemma ModAddN(a: nat, n: nat)
    requires n >= 1
    ensures (a + n) % n == a % n
  {
    DivModUnique(a, n, a / n, a % n);
    DivModUnique(a + n, n, a / n + 1, a % n);
  }

  lemma MulAtLeast(k: nat, n: nat)
    requires k >= 1
    ensures k * n >= n
  {
  }

  /** Popping position r of the remaining users into group g moves one
      user and loses none. */
  lemma PopInto(remaining: seq<string>, r: nat, groups: seq<seq<string>>, g: nat)
    requires r < |remaining| && g < |groups|
    ensures multiset(remaining[..r] + remaining[r + 1..]) + Pooled(groups[g := groups[g] + [remaining[r]]])
      == multiset(remaining) + Pooled(groups)
  {
    assert remaining == remaining[..r] + [remaining[r]] + remaining[r + 1..];
    PooledUpdate(groups, g, remaining[r]);
  }

  /** Appending to group i % n turns the sizes after i users into the
      sizes after i + 1. */
  lemma DealtSizesStep(groups: seq<seq<string>>, i: nat, n: nat, u: string, after: seq<seq<string>>)
    requires n >= 1 && |groups| == n
    requires forall h :: 0 <= h < n ==> |groups[h]| == DealtSize(i, n, h)
    requires after == groups[i % n := groups[i % n] + [u]]
    ensures forall h :: 0 <= h < n ==> |after[h]| == DealtSize(i + 1, n, h)
  {
    forall h | 0 <= h < n ensures |after[h]| == DealtSize(i + 1, n, h) {
      DealtSizeStep(i, n, h);
    }
  }

  /** Round-robin sizes differ by at most one. */
  lemma DealtSizesBalanced(i: nat, n: nat, g: nat, h: nat)
    requires n >= 1 && g < n && h < n
    ensures DealtSize(i, n, g) <= DealtSize(i, n, h) + 1
  {
  }
}
