/**
 * The payloads of replication and catch-up as json-c writes them without blanks
 * (json.cpp), and which of them stay within the request limits.
 */
module Payloads {
  import opened Messages
  import opened Utf8
  import opened StoreModel
  import opened ServiceModel
  import opened SyncModel
  import opened MessageCodec
  import opened SyncServices

  function Hex(d: nat): char
    requires d < 16
  {
    if d < 10 then ('0' as int + d) as char else ('a' as int + d - 10) as char
  }

  /** json-c escapes the quotation mark, both slashes and the control characters. */
  function Escaped(c: char): (r: string)
    ensures 1 <= |r| <= 6
    ensures |r| == 1 <==> c >= ' ' && c != '"' && c != '\\' && c != '/'
    ensures |r| == 1 ==> r[0] == c
    ensures |r| == 2 <==> c in ['"', '\\', '/', 8 as char, '\t', '\n', 12 as char, '\r']
    ensures |r| == 2 || |r| == 6 ==> r[0] == '\\'
    ensures |r| != 1 && |r| != 2 ==> |r| == 6
  {
    if c == '"' || c == '\\' || c == '/' then ['\\', c]
    else if c == 8 as char then "\\b"
    else if c == '\t' then "\\t"
    else if c == '\n' then "\\n"
    else if c == 12 as char then "\\f"
    else if c == '\r' then "\\r"
    else if c < ' ' then "\\u00" + [Hex(c as int / 16), Hex(c as int % 16)]
    else [c]
  }

  function EscapedAll(s: string): string {
    if s == "" then "" else EscapedAll(s[..|s| - 1]) + Escaped(s[|s| - 1])
  }

  function JsonText(s: string): string {
    "\"" + EscapedAll(s) + "\""
  }

  function IntText(n: int): string {
    if n < 0 then "-" + Decimal(-n) else Decimal(n)
  }

  /** The members of a message's object in the order `message_to_json` adds them. */
  function ObjectText(sequence: string, id: string, callsign: string, channel: string,
                      createdAtMs: string, body: string, origin: string): (text: string)
    ensures |text| == 77 + |sequence| + |id| + |callsign| + |channel| + |createdAtMs| + |body| + |origin|
  {
    "{\"sequence\":" + sequence + ",\"id\":" + id + ",\"callsign\":" + callsign + ",\"channel\":" + channel
    + ",\"created_at_ms\":" + createdAtMs + ",\"body\":" + body + ",\"origin\":" + origin + "}"
  }

  /** The text of `message_to_json`. */
  function MessageText(m: ChatMessage): string {
    ObjectText(IntText(AsInt64(m.sequence)), JsonText(CString(m.id)), JsonText(CString(m.callsign)),
               JsonText(CString(m.channel)), IntText(m.createdAtMs), JsonText(m.body), JsonText(CString(m.origin)))
  }

  function Joined(messages: seq<ChatMessage>): string {
    if messages == [] then ""
    else
      Joined(messages[..|messages| - 1]) + (if |messages| == 1 then "" else ",") + MessageText(messages[|messages| - 1])
  }

  function BatchText(messages: seq<ChatMessage>): string {
    "{\"protocol\":1,\"type\":\"sync_messages\",\"messages\":[" + Joined(messages) + "]}"
  }

  /** One member of a summary's `origins` and the comma after it. */
  function EntryText(name: string, value: Json): string
    requires value.JInt?
  {
    JsonText(name) + ":" + IntText(value.number) + ","
  }

  ghost function EntriesBytes(origins: map<string, Json>): nat
    requires forall name :: name in origins ==> origins[name].JInt?
  {
    if origins == map[] then 0
    else
      var name :| name in origins;
      |EntryText(name, origins[name])| + EntriesBytes(origins - {name})
  }

  lemma {:induction false} SomeOrigins(marks: Marks)
    ensures exists origins :: ShowsMarks(origins, marks)
  {
    if marks == map[] {
      assert ShowsMarks(map[], marks);
    } else {
      var origin :| origin in marks;
      SomeOrigins(marks - {origin});
      var rest :| ShowsMarks(rest, marks - {origin});
      OneMoreOrigin(rest, marks, origin);
    }
  }

  lemma OneMoreOrigin(rest: map<string, Json>, marks: Marks, origin: string)
    requires origin in marks && ShowsMarks(rest, marks - {origin})
    ensures ShowsMarks(rest[CString(origin) := JInt(AsInt64(marks[origin]))], marks)
  {
    var all := rest[CString(origin) := JInt(AsInt64(marks[origin]))];
    forall name | name in all
      ensures exists o :: o in marks && CString(o) == name && all[name] == JInt(AsInt64(marks[o]))
    {
      if name != CString(origin) {
        var o :| o in marks - {origin} && CString(o) == name && rest[name] == JInt(AsInt64((marks - {origin})[o]));
      }
    }
  }

  /** The object for marks whose names hold no NUL: it is the only one then. */
  function PlainOrigins(marks: Marks): map<string, Json> {
    map origin | origin in marks :: JInt(AsInt64(marks[origin]))
  }

  predicate PlainNames(marks: Marks) {
    forall origin :: origin in marks ==> NulFree(origin)
  }

  /** The object for these marks; of names that are equal up to a NUL the hash table's order keeps one. */
  ghost function OriginsOf(marks: Marks): map<string, Json> {
    if PlainNames(marks) then PlainOrigins(marks)
    else
      SomeOrigins(marks);
      var origins :| ShowsMarks(origins, marks);
      origins
  }

  lemma OriginsShow(marks: Marks)
    ensures ShowsMarks(OriginsOf(marks), marks)
  {
    if PlainNames(marks) {
      forall origin | origin in marks ensures CString(origin) in PlainOrigins(marks) {
        assert CString(origin) == origin;
      }
      forall name | name in PlainOrigins(marks)
        ensures exists origin :: origin in marks && CString(origin) == name
                                 && PlainOrigins(marks)[name] == JInt(AsInt64(marks[origin]))
      {
        assert name in marks && CString(name) == name;
      }
    }
  }

  lemma OriginsAreInts(marks: Marks)
    ensures forall name :: name in OriginsOf(marks) ==> OriginsOf(marks)[name].JInt?
  {
    OriginsShow(marks);
  }

  /** The members of `origins` come in any order; the last one has no comma. */
  ghost function SummaryBytes(marks: Marks): nat {
    OriginsAreInts(marks);
    var entries := EntriesBytes(OriginsOf(marks));
    |"{\"protocol\":1,\"type\":\"sync_summary\",\"origins\":{}}"| + if entries == 0 then 0 else entries - 1
  }

  /** The sizes on the daemon's own wire. */
  ghost const DAEMON: Wire := Wire(marks => SummaryBytes(marks), batch => |BatchText(batch)|, m => |MessageText(m)|)

  // ---- Sizes of texts ----

  lemma {:induction false} EscapedBounds(s: string)
    ensures |s| <= |EscapedAll(s)| <= 6 * |s|
  {
    if s != "" {
      EscapedBounds(s[..|s| - 1]);
    }
  }

  /** Text in which every octet takes `k` octets once escaped. */
  lemma {:induction false} EscapedUniformly(s: string, k: nat)
    requires forall i :: 0 <= i < |s| ==> |Escaped(s[i])| == k
    ensures |EscapedAll(s)| == k * |s|
  {
    if s != "" {
      EscapedUniformly(s[..|s| - 1], k);
      Times(k, |s|);
    }
  }

  lemma IntTextBounds(n: int)
    requires IsInt64(n)
    ensures 1 <= |IntText(n)| <= 20
    ensures n >= 0 ==> |IntText(n)| <= 19
  {
    PowersOfTen();
    DecimalLength(if n < 0 then -n else n, 19);
  }

  /** The parts of a message's text that a sender cannot influence by its words. */
  const MAX_FRAME_BYTES: nat := 283

  /** How many octets a message's callsign and body take on the wire. */
  function WordBytes(m: ChatMessage): nat {
    |EscapedAll(m.callsign)| + |EscapedAll(m.body)|
  }

  lemma MessageSize(m: ChatMessage)
    requires OwnMessage(m)
    ensures WordBytes(m) < |MessageText(m)| <= WordBytes(m) + MAX_FRAME_BYTES
  {
    TextLength(m);
    IdSize(m);
    OriginSize(m);
    ChannelSize(m);
    SequenceText(m.sequence);
    IntTextBounds(m.createdAtMs);
    assert CString(m.callsign) == m.callsign;
  }

  lemma IdSize(m: ChatMessage)
    requires OwnMessage(m)
    ensures |EscapedAll(CString(m.id))| <= 84
  {
    OwnIdIsShort(m.origin, m.sequence);
    IdIsPlain(m.origin, m.sequence);
    EscapedUniformly(m.id, 1);
  }

  lemma OriginSize(m: ChatMessage)
    requires OwnMessage(m)
    ensures |EscapedAll(CString(m.origin))| <= 64
  {
    assert NulFree(m.origin);
    EscapedUniformly(m.origin, 1);
  }

  lemma ChannelSize(m: ChatMessage)
    requires OwnMessage(m)
    ensures |EscapedAll(CString(m.channel))| == 9
  {
    ChannelSurvives(m.channel);
    ChannelIsPlain(m.channel);
    EscapedUniformly(m.channel, 1);
  }

  lemma ChannelIsPlain(channel: string)
    requires channel == DEFAULT_CHANNEL
    ensures |channel| == 9 && forall i :: 0 <= i < |channel| ==> |Escaped(channel[i])| == 1
  {
    forall i | 0 <= i < |channel| ensures |Escaped(channel[i])| == 1 {
      assert channel[i] == '-' || 'a' <= channel[i] <= 'z';
    }
  }

  lemma SequenceText(n: Sequence)
    requires n <= MAX_SEQUENCE
    ensures 1 <= |IntText(AsInt64(n))| <= 19
  {
    assert n % TWO_TO_64 == n;
    IntTextBounds(n);
  }

  lemma TextLength(m: ChatMessage)
    ensures |MessageText(m)| == 87
            + |IntText(AsInt64(m.sequence))| + |IntText(m.createdAtMs)|
            + |EscapedAll(CString(m.id))| + |EscapedAll(CString(m.callsign))| + |EscapedAll(CString(m.channel))|
            + |EscapedAll(m.body)| + |EscapedAll(CString(m.origin))|
  {
    JsonLength(CString(m.id));
    JsonLength(CString(m.callsign));
    JsonLength(CString(m.channel));
    JsonLength(m.body);
    JsonLength(CString(m.origin));
  }

  lemma JsonLength(s: string)
    ensures |JsonText(s)| == |EscapedAll(s)| + 2
  {
  }

  lemma IdIsPlain(origin: string, sequence: Sequence)
    requires ValidNodeId(origin)
    ensures var id := MessageId(origin, sequence); forall i :: 0 <= i < |id| ==> |Escaped(id[i])| == 1
  {
    var id := MessageId(origin, sequence);
    assert forall i :: 0 <= i < |id| ==>
        id[i] == if i < |origin| then origin[i] else if i == |origin| then ':' else Decimal(sequence)[i - |origin| - 1];
  }

  /** A batch's text is its messages' texts, a comma between each two, and 51 octets around them. */
  lemma BatchTextExactly(messages: seq<ChatMessage>, m: ChatMessage)
    ensures |BatchText([])| == 51
    ensures |BatchText(messages + [m])| ==
            |BatchText(messages)| + |MessageText(m)| + (if messages == [] then 0 else 1)
  {
    assert (messages + [m])[..|messages|] == messages;
  }

  lemma JoinedLength(messages: seq<ChatMessage>)
    requires messages != []
    ensures var front, last := |Joined(messages[..|messages| - 1])|, |MessageText(messages[|messages| - 1])|;
            front + last <= |Joined(messages)| <= front + 1 + last
  {
  }

  lemma {:induction false} JoinedBounds(messages: seq<ChatMessage>, low: nat, high: nat)
    requires forall i :: 0 <= i < |messages| ==> low <= |MessageText(messages[i])| <= high
    ensures low * |messages| <= |Joined(messages)| <= (high + 1) * |messages|
  {
    if messages != [] {
      var front, last := |Joined(messages[..|messages| - 1])|, |MessageText(messages[|messages| - 1])|;
      JoinedBounds(messages[..|messages| - 1], low, high);
      JoinedLength(messages);
      OneMoreText(low, high, |messages|, front, last, |Joined(messages)|);
    }
  }

  lemma OneMoreText(low: nat, high: nat, n: nat, front: nat, last: nat, all: nat)
    requires n > 0 && low * (n - 1) <= front <= (high + 1) * (n - 1) && low <= last <= high
    requires front + last <= all <= front + 1 + last
    ensures low * n <= all <= (high + 1) * n
  {
    Times(low, n);
    Times(high + 1, n);
  }

  lemma BatchSize(messages: seq<ChatMessage>, low: nat, high: nat)
    requires forall i :: 0 <= i < |messages| ==> OwnMessage(messages[i]) && low <= WordBytes(messages[i]) <= high
    ensures low * |messages| <= |BatchText(messages)| <= 51 + (high + MAX_FRAME_BYTES + 1) * |messages|
  {
    forall i | 0 <= i < |messages| ensures low <= |MessageText(messages[i])| <= high + MAX_FRAME_BYTES {
      MessageSize(messages[i]);
    }
    JoinedBounds(messages, low, high + MAX_FRAME_BYTES);
  }

  /** Marks that valid nodes can have reached. */
  predicate NamedMarks(marks: Marks) {
    forall origin :: origin in marks ==> ValidNodeId(origin) && marks[origin] <= MAX_SEQUENCE
  }

  predicate NamesAtLeast(marks: Marks, shortest: nat) {
    forall origin :: origin in marks ==> shortest <= |origin|
  }

  lemma EntrySize(name: string, mark: nat)
    requires ValidNodeId(name) && mark <= MAX_SEQUENCE
    ensures |name| + 5 <= |EntryText(name, JInt(AsInt64(mark)))| <= |name| + 23
  {
    EscapedUniformly(name, 1);
    JsonLength(name);
    assert mark % TWO_TO_64 == mark;
    IntTextBounds(mark);
  }

  lemma EntryTextExactly(name: string, value: Json)
    requires value.JInt?
    ensures |EntryText(name, value)| == |EscapedAll(name)| + |IntText(value.number)| + 4
  {
    JsonLength(name);
  }

  /** The members of a summary take the same room in whatever order they come. */
  lemma {:induction false} EntriesInAnyOrder(origins: map<string, Json>, name: string)
    requires name in origins && forall n :: n in origins ==> origins[n].JInt?
    ensures EntriesBytes(origins) == |EntryText(name, origins[name])| + EntriesBytes(origins - {name})
  {
    var first := FirstEntry(origins);
    if first != name {
      EntriesInAnyOrder(origins - {first}, name);
      EntriesInAnyOrder(origins - {name}, first);
      WithoutBoth(origins, first, name);
    }
  }

  lemma WithoutBoth(origins: map<string, Json>, a: string, b: string)
    ensures origins - {a} - {b} == origins - {b} - {a}
  {
  }

  lemma {:induction false} EntriesBounds(origins: map<string, Json>, low: nat, high: nat)
    requires forall name :: name in origins ==> origins[name].JInt? && low <= |EntryText(name, origins[name])| <= high
    ensures low * |origins| <= EntriesBytes(origins) <= high * |origins|
  {
    if origins != map[] {
      var name := FirstEntry(origins);
      EntriesBounds(origins - {name}, low, high);
      Times(low, |origins|);
      Times(high, |origins|);
    }
  }

  lemma FirstEntry(origins: map<string, Json>) returns (name: string)
    requires origins != map[] && forall n :: n in origins ==> origins[n].JInt?
    ensures name in origins && |origins - {name}| == |origins| - 1
    ensures EntriesBytes(origins) == |EntryText(name, origins[name])| + EntriesBytes(origins - {name})
  {
    name :| name in origins
            && EntriesBytes(origins) == |EntryText(name, origins[name])| + EntriesBytes(origins - {name});
    assert (origins - {name}).Keys == origins.Keys - {name};
  }

  lemma Times(k: nat, n: nat)
    requires n > 0
    ensures k * (n - 1) + k == k * n
  {
  }

  lemma PlainEntries(marks: Marks, shortest: nat)
    requires NamedMarks(marks) && NamesAtLeast(marks, shortest)
    ensures var origins := PlainOrigins(marks);
            && |origins| == |marks|
            && (forall name :: name in origins ==>
                  origins[name].JInt? && shortest + 5 <= |EntryText(name, origins[name])| <= 87)
  {
    assert |PlainOrigins(marks).Keys| == |PlainOrigins(marks)| && PlainOrigins(marks).Keys == marks.Keys;
    forall name | name in marks ensures shortest + 5 <= |EntryText(name, JInt(AsInt64(marks[name])))| <= 87 {
      EntrySize(name, marks[name]);
    }
  }

  lemma SummarySize(marks: Marks, shortest: nat)
    requires NamedMarks(marks) && NamesAtLeast(marks, shortest)
    ensures 48 + (shortest + 5) * |marks| <= SummaryBytes(marks) <= 49 + 87 * |marks|
  {
    assert PlainNames(marks);
    EntriesSize(PlainOrigins(marks), marks, shortest);
    FrameSize(EntriesBytes(PlainOrigins(marks)));
  }

  lemma EntriesSize(origins: map<string, Json>, marks: Marks, shortest: nat)
    requires NamedMarks(marks) && NamesAtLeast(marks, shortest) && origins == PlainOrigins(marks)
    ensures (shortest + 5) * |marks| <= EntriesBytes(origins) <= 87 * |marks|
  {
    PlainEntries(marks, shortest);
    EntriesBounds(origins, shortest + 5, 87);
  }

  lemma FrameSize(entries: nat)
    ensures |"{\"protocol\":1,\"type\":\"sync_summary\",\"origins\":{}}"| == 49
  {
  }

  // ---- Payloads that never fit, and payloads that always do ----

  lemma ManyNamesAreLong(marks: Marks)
    requires NamedMarks(marks) && |marks| >= 59 && NamesAtLeast(marks, 64)
    ensures DAEMON.summaryBytes(marks) > MAX_REQUEST_BYTES
  {
    ManyEntriesAreLong(marks);
  }

  lemma ManyEntriesAreLong(marks: Marks)
    requires NamedMarks(marks) && |marks| >= 59 && NamesAtLeast(marks, 64)
    ensures SummaryBytes(marks) > MAX_REQUEST_BYTES
  {
    LongNamesSize(marks);
    Above(|marks|, SummaryBytes(marks));
  }

  lemma LongNamesSize(marks: Marks)
    requires NamedMarks(marks) && NamesAtLeast(marks, 64)
    ensures 48 + 69 * |marks| <= SummaryBytes(marks)
  {
    SummarySize(marks, 64);
  }

  lemma Above(n: nat, bytes: nat)
    requires n >= 59 && 48 + 69 * n <= bytes
    ensures bytes > MAX_REQUEST_BYTES
  {
  }

  const MODEST_WORDS: nat := 2336
  const MODEST_ORIGINS: nat := 46
  const MODEST_PEER_ORIGINS: nat := 1506

  /** A message whose callsign and body take at most 2336 octets on the wire. */
  ghost predicate Modest(m: ChatMessage) {
    OwnMessage(m) && WordBytes(m) <= MODEST_WORDS
  }

  /** Text without quotation marks, slashes and control characters is always modest. */
  lemma PlainWordsAreModest(m: ChatMessage)
    requires OwnMessage(m)
    requires forall i :: 0 <= i < |m.body| ==> |Escaped(m.body[i])| == 1
    requires forall i :: 0 <= i < |m.callsign| ==> |Escaped(m.callsign[i])| == 1
    ensures Modest(m)
  {
    EscapedUniformly(m.body, 1);
    EscapedUniformly(m.callsign, 1);
  }

  lemma FewNamesAreShort(marks: Marks)
    requires NamedMarks(marks)
    ensures |marks| <= MODEST_ORIGINS ==> DAEMON.summaryBytes(marks) <= MAX_REQUEST_BYTES
    ensures |marks| <= MODEST_PEER_ORIGINS ==> DAEMON.summaryBytes(marks) <= MAX_SYNC_REQUEST_BYTES
  {
    SummarySize(marks, 0);
  }

  lemma ModestBatchIsShort(batch: seq<ChatMessage>)
    requires |batch| <= MAX_SYNC_BATCH_MESSAGES && forall i :: 0 <= i < |batch| ==> Modest(batch[i])
    ensures DAEMON.batchBytes(batch) <= MAX_SYNC_REQUEST_BYTES
  {
    BatchSize(batch, 0, MODEST_WORDS);
  }
}
