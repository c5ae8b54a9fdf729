/** `message_to_json` and `parse_message` (message_codec.cpp) on JSON trees. */
module MessageCodec {
  import opened Messages
  import opened Utf8

  /** A json-c integer lies between -2^63 and 2^64 - 1. */
  datatype Json =
    | JNull
    | JBool(flag: bool)
    | JInt(number: int)
    | JString(text: string)
    | JArray(items: seq<Json>)
    | JObject(members: map<string, Json>)

  /** What the parser makes of a payload; `complete` says that it read to the end of it (json.cpp). */
  datatype Text = Malformed | Readable(tree: Json, complete: bool)

  datatype Option<+T> = None | Some(value: T)

  const TWO_TO_64: int := 0x1_0000_0000_0000_0000

  /** `static_cast<int64_t>` of an unsigned 64-bit number. */
  function AsInt64(n: nat): int {
    var low := n % TWO_TO_64;
    if low <= MAX_SEQUENCE then low else low - TWO_TO_64
  }

  /** `json_object_get_int64` saturates. */
  function GetInt64(number: int): int {
    if number > MAX_SEQUENCE then MAX_SEQUENCE else number
  }

  /** The 64-bit number that is congruent; and the nearest one. */
  lemma Int64Exactly(n: nat, number: int)
    ensures IsInt64(AsInt64(n)) && (AsInt64(n) - n) % TWO_TO_64 == 0
    ensures GetInt64(number) == if number > 0x7FFF_FFFF_FFFF_FFFF then 0x7FFF_FFFF_FFFF_FFFF else number
  {
  }

  /** What `c_str()` shows of a string: everything before the first NUL. */
  function CString(s: string): (r: string)
    ensures r <= s
    ensures r == s <==> NulFree(s)
  {
    if s == "" || s[0] == '\0' then ""
    else
      assert NulFree(s) <==> NulFree(s[1..]) by {
        assert forall i :: 1 <= i < |s| ==> s[i] == s[1..][i - 1];
      }
      [s[0]] + CString(s[1..])
  }

  predicate NulFree(s: string) {
    forall i :: 0 <= i < |s| ==> s[i] != '\0'
  }

  /** It holds no NUL, and ends at the end or at one. */
  lemma {:induction false} CStringExactly(s: string)
    ensures CString(s) <= s && NulFree(CString(s))
    ensures CString(s) != s ==> |CString(s)| < |s| && s[|CString(s)|] == '\0'
  {
    if s != "" && s[0] != '\0' {
      CStringExactly(s[1..]);
      assert s == [s[0]] + s[1..];
    }
  }

  /** The tree for a message, as the statements of `message_to_json` leave it. */
  function Tree(m: ChatMessage): Json {
    JObject(map[
      "sequence" := JInt(AsInt64(m.sequence)),
      "id" := JString(CString(m.id)),
      "callsign" := JString(CString(m.callsign)),
      "channel" := JString(CString(m.channel)),
      "created_at_ms" := JInt(m.createdAtMs),
      "body" := JString(m.body),
      "origin" := JString(CString(m.origin))])
  }

  /** The object's members: seven, each under its own name, texts cut at a NUL except for the body. */
  lemma TreeExactly(m: ChatMessage)
    ensures var tree := Tree(m);
            && tree.JObject?
            && tree.members.Keys == {"sequence", "id", "callsign", "channel", "created_at_ms", "body", "origin"}
            && tree.members["sequence"] == JInt(AsInt64(m.sequence))
            && tree.members["created_at_ms"] == JInt(m.createdAtMs)
            && tree.members["id"] == JString(CString(m.id)) && tree.members["origin"] == JString(CString(m.origin))
            && tree.members["callsign"] == JString(CString(m.callsign))
            && tree.members["channel"] == JString(CString(m.channel)) && tree.members["body"] == JString(m.body)
  {
    TreeMembers(m);
  }

  method MessageToJson(m: ChatMessage) returns (tree: Json)
    ensures tree == Tree(m)
  {
    var members: map<string, Json> := map[];
    members := members["sequence" := JInt(AsInt64(m.sequence))];
    members := members["id" := JString(CString(m.id))];
    members := members["callsign" := JString(CString(m.callsign))];
    members := members["channel" := JString(CString(m.channel))];
    members := members["created_at_ms" := JInt(m.createdAtMs)];
    members := members["body" := JString(m.body)];
    members := members["origin" := JString(CString(m.origin))];
    tree := JObject(members);
  }

  /** The bounds every accepted message meets. */
  ghost predicate Acceptable(m: ChatMessage) {
    && m.sequence <= MAX_SEQUENCE
    && 1 <= |m.id| <= 160
    && 1 <= |m.origin| <= 64
    && 1 <= |m.callsign| <= 64
    && m.channel == DEFAULT_CHANNEL
    && 1 <= |m.body| <= MAX_MESSAGE_BYTES
    && ValidUtf8(m.body)
  }

  predicate HasString(members: map<string, Json>, name: string) {
    name in members && members[name].JString?
  }

  predicate HasInt(members: map<string, Json>, name: string) {
    name in members && members[name].JInt?
  }

  predicate HasAllMembers(tree: Json) {
    && tree.JObject?
    && HasString(tree.members, "id") && HasString(tree.members, "origin")
    && HasString(tree.members, "callsign") && HasString(tree.members, "channel")
    && HasString(tree.members, "body")
    && HasInt(tree.members, "sequence") && HasInt(tree.members, "created_at_ms")
    && GetInt64(tree.members["sequence"].number) >= 1
  }

  function FieldsOf(tree: Json): ChatMessage
    requires HasAllMembers(tree)
  {
    ChatMessage(
      GetInt64(tree.members["sequence"].number),
      tree.members["id"].text,
      tree.members["origin"].text,
      tree.members["callsign"].text,
      tree.members["channel"].text,
      GetInt64(tree.members["created_at_ms"].number),
      tree.members["body"].text)
  }

  /** The message a tree stands for, if `parse_message` accepts it. */
  ghost function Parsed(tree: Json): Option<ChatMessage> {
    if HasAllMembers(tree) && Acceptable(FieldsOf(tree)) then Some(FieldsOf(tree)) else None
  }

  /** What each member must be, and which field it becomes. */
  ghost predicate Accepts(tree: Json) {
    && tree.JObject?
    && (var members := tree.members;
        && TextOf(members, "id", 160) && TextOf(members, "origin", 64) && TextOf(members, "callsign", 64)
        && "channel" in members && members["channel"] == JString("les-manet")
        && TextOf(members, "body", 2048) && ValidUtf8(members["body"].text)
        && "sequence" in members && members["sequence"].JInt? && members["sequence"].number >= 1
        && "created_at_ms" in members && members["created_at_ms"].JInt?)
  }

  /** A string member of 1 to `most` octets. */
  predicate TextOf(members: map<string, Json>, name: string, most: nat) {
    name in members && members[name].JString? && 1 <= |members[name].text| <= most
  }

  method ParseMessage(tree: Json) returns (message: Option<ChatMessage>)
    ensures message == Parsed(tree)
    ensures message.Some? <==> Accepts(tree)
    ensures message.Some? ==>
              && tree.members["id"] == JString(message.value.id)
              && tree.members["origin"] == JString(message.value.origin)
              && tree.members["callsign"] == JString(message.value.callsign)
              && tree.members["channel"] == JString(message.value.channel)
              && tree.members["body"] == JString(message.value.body)
              && message.value.sequence == GetInt64(tree.members["sequence"].number)
              && message.value.createdAtMs == GetInt64(tree.members["created_at_ms"].number)
  {
    if !tree.JObject? { return None; }
    var members := tree.members;
    if !HasString(members, "id") || !HasString(members, "origin") || !HasString(members, "callsign") { return None; }
    if !HasString(members, "channel") || !HasString(members, "body") { return None; }
    if !HasInt(members, "sequence") || !HasInt(members, "created_at_ms") { return None; }
    var id, origin, callsign := members["id"].text, members["origin"].text, members["callsign"].text;
    var channel, body := members["channel"].text, members["body"].text;
    var sequence := GetInt64(members["sequence"].number);
    if || sequence < 1 || id == "" || |id| > 160 || origin == "" || |origin| > 64
       || callsign == "" || |callsign| > 64 || channel != DEFAULT_CHANNEL
       || body == "" || |body| > MAX_MESSAGE_BYTES
    {
      return None;
    }
    var valid := IsValidUtf8(body);
    if !valid { return None; }
    return Some(ChatMessage(sequence, id, origin, callsign, channel, GetInt64(members["created_at_ms"].number), body));
  }

  /**
   * A message survives the trip through its JSON tree exactly when it is
   * acceptable and no NUL cuts its id, origin or callsign short; a NUL in the
   * body does no harm.
   */
  lemma {:induction false} RoundTrip(m: ChatMessage)
    requires m.sequence < TWO_TO_64 && m.createdAtMs <= MAX_SEQUENCE
    ensures Parsed(Tree(m)) == Some(m) <==>
              Acceptable(m) && NulFree(m.id) && NulFree(m.origin) && NulFree(m.callsign)
  {
    ParsedTree(m);
    TripIsIdentity(m);
  }

  /** The message that arrives. */
  ghost function Arrived(m: ChatMessage): Option<ChatMessage> {
    var sequence := GetInt64(AsInt64(m.sequence));
    if sequence < 1 then None
    else
      var fields := ChatMessage(sequence, CString(m.id), CString(m.origin), CString(m.callsign),
                                CString(m.channel), GetInt64(m.createdAtMs), m.body);
      if Acceptable(fields) then Some(fields) else None
  }

  lemma TripIsIdentity(m: ChatMessage)
    requires m.sequence < TWO_TO_64 && m.createdAtMs <= MAX_SEQUENCE
    ensures Arrived(m) == Some(m) <==>
              Acceptable(m) && NulFree(m.id) && NulFree(m.origin) && NulFree(m.callsign)
  {
    Int64Trip(m.sequence);
    if m.channel == DEFAULT_CHANNEL {
      ChannelSurvives(m.channel);
    }
  }

  lemma Int64Trip(n: nat)
    requires 1 <= n < TWO_TO_64
    ensures if n <= MAX_SEQUENCE then GetInt64(AsInt64(n)) == n else GetInt64(AsInt64(n)) < 1
  {
    assert n % TWO_TO_64 == n;
  }

  lemma ChannelSurvives(channel: string)
    requires channel == DEFAULT_CHANNEL
    ensures CString(channel) == channel
  {
    assert NulFree(channel);
  }

  lemma ParsedTree(m: ChatMessage)
    ensures Parsed(Tree(m)) == Arrived(m)
  {
    TreeFields(m);
  }

  lemma TreeFields(m: ChatMessage)
    ensures FieldsAre(Tree(m).members, m)
    ensures HasAllMembers(Tree(m)) <==> GetInt64(AsInt64(m.sequence)) >= 1
    ensures HasAllMembers(Tree(m)) ==>
              FieldsOf(Tree(m)) == ChatMessage(GetInt64(AsInt64(m.sequence)), CString(m.id), CString(m.origin),
                CString(m.callsign), CString(m.channel), GetInt64(m.createdAtMs), m.body)
  {
    TreeMembers(m);
    MembersGiveFields(Tree(m).members, m);
  }

  /** Each member of a tree, looked up by name. */
  predicate FieldsAre(members: map<string, Json>, m: ChatMessage) {
    && "sequence" in members && members["sequence"] == JInt(AsInt64(m.sequence))
    && "id" in members && members["id"] == JString(CString(m.id))
    && "origin" in members && members["origin"] == JString(CString(m.origin))
    && "callsign" in members && members["callsign"] == JString(CString(m.callsign))
    && "channel" in members && members["channel"] == JString(CString(m.channel))
    && "created_at_ms" in members && members["created_at_ms"] == JInt(m.createdAtMs)
    && "body" in members && members["body"] == JString(m.body)
  }

  lemma TreeMembers(m: ChatMessage)
    ensures FieldsAre(Tree(m).members, m)
  {
    assert "sequence"[0] != "callsign"[0];
  }

  lemma MembersGiveFields(members: map<string, Json>, m: ChatMessage)
    requires FieldsAre(members, m)
    ensures HasAllMembers(JObject(members)) <==> GetInt64(AsInt64(m.sequence)) >= 1
    ensures HasAllMembers(JObject(members)) ==>
              FieldsOf(JObject(members)) == ChatMessage(GetInt64(AsInt64(m.sequence)), CString(m.id), CString(m.origin),
                CString(m.callsign), CString(m.channel), GetInt64(m.createdAtMs), m.body)
  {
  }

  /** What travels has an origin without NUL. */
  lemma TravellersOrigin(m: ChatMessage)
    requires Parsed(Tree(m)) == Some(m)
    ensures NulFree(m.origin)
  {
    TreeFields(m);
  }

  // ---- What the daemon itself puts on the wire ----

  /** `is_valid_node_id` (main.cpp). */
  predicate ValidNodeId(value: string) {
    && 1 <= |value| <= 64
    && forall i :: 0 <= i < |value| ==>
         || 'a' <= value[i] <= 'z' || 'A' <= value[i] <= 'Z' || '0' <= value[i] <= '9'
         || value[i] == '-' || value[i] == '_' || value[i] == '.'
  }

  /** `validate_callsign` (main.cpp); a command-line argument holds no NUL. */
  predicate ValidCallsign(callsign: string) {
    1 <= |callsign| <= 64 && NulFree(callsign)
  }

  lemma {:induction false} DecimalLength(n: nat, digits: nat)
    requires digits >= 1 && n < Power10(digits)
    ensures |Decimal(n)| <= digits
  {
    if n >= 10 {
      DecimalLength(n / 10, digits - 1);
    }
  }

  function Power10(e: nat): (p: nat)
    ensures p >= 1
  {
    if e == 0 then 1 else 10 * Power10(e - 1)
  }

  /** `create_message` (http_api.cpp): the bodies that reach `create_local`. */
  ghost predicate ValidBody(body: string) {
    1 <= |body| <= MAX_MESSAGE_BYTES && ValidUtf8(body)
  }

  /** The messages that correctly configured daemons make. */
  ghost predicate OwnMessage(m: ChatMessage) {
    && ValidNodeId(m.origin) && ValidCallsign(m.callsign) && ValidBody(m.body)
    && Wellformed(m) && m.channel == DEFAULT_CHANNEL && IsInt64(m.createdAtMs)
  }

  predicate IsInt64(n: int) {
    -MAX_SEQUENCE - 1 <= n <= MAX_SEQUENCE
  }

  /** Every message that a correctly configured daemon makes reaches its peers unchanged. */
  lemma {:induction false} OwnMessagesTravel(m: ChatMessage)
    requires OwnMessage(m)
    ensures Parsed(Tree(m)) == Some(m)
  {
    OwnIdIsShort(m.origin, m.sequence);
    RoundTrip(m);
  }

  lemma OwnIdIsShort(origin: string, sequence: Sequence)
    requires ValidNodeId(origin) && sequence <= MAX_SEQUENCE
    ensures 1 <= |MessageId(origin, sequence)| <= |origin| + 20
    ensures NulFree(MessageId(origin, sequence)) && NulFree(origin)
  {
    PowersOfTen();
    DecimalLength(sequence, 19);
    var id := MessageId(origin, sequence);
    assert forall i :: 0 <= i < |origin| ==> id[i] == origin[i];
    assert forall i :: |origin| < i < |id| ==> id[i] == Decimal(sequence)[i - |origin| - 1];
  }

  lemma PowersOfTen()
    ensures Power10(19) == 10000000000000000000
  {
    assert Power10(4) == 10000;
    assert Power10(8) == 100000000;
    assert Power10(12) == 1000000000000;
    assert Power10(16) == 10000000000000000;
  }
}
