/** The sending side of catch-up (sync_service.cpp): the summary tree and `send_missing`. */
module SyncServices {
  import opened Messages
  import opened StoreModel
  import opened MessageCodec
  import opened ServiceModel
  import opened MessageStores
  import opened SyncModel

  const PROTOCOL_VERSION: int := 1

  /** The object that carries a summary, in either direction. */
  function SummaryTree(origins: map<string, Json>): Json {
    JObject(map["protocol" := JInt(PROTOCOL_VERSION), "type" := JString("sync_summary"), "origins" := JObject(origins)])
  }

  function BatchTree(items: seq<Json>): Json {
    JObject(map["protocol" := JInt(PROTOCOL_VERSION), "type" := JString("sync_messages"), "messages" := JArray(items)])
  }

  // ---- Marks as the `origins` object shows them ----

  /**
   * An `origins` object for these marks. Names are C strings, so origins that are
   * equal up to a NUL share a member, and any one of them may have set it.
   */
  ghost predicate ShowsMarks(origins: map<string, Json>, marks: Marks) {
    && (forall origin :: origin in marks ==> CString(origin) in origins)
    && (forall name {:trigger origins[name]} :: name in origins ==>
          exists origin :: origin in marks && CString(origin) == name && origins[name] == JInt(AsInt64(marks[origin])))
  }

  /** The members are added in whatever order the hash table yields the origins. */
  method OriginsObject(marks: Marks) returns (origins: map<string, Json>)
    ensures ShowsMarks(origins, marks)
  {
    origins := map[];
    var left, done := marks.Keys, {};
    while left != {}
      invariant left + done == marks.Keys
      invariant forall origin :: origin in done ==> CString(origin) in origins
      invariant forall name :: name in origins ==>
        exists origin :: origin in done && CString(origin) == name && origins[name] == JInt(AsInt64(marks[origin]))
      decreases left
    {
      var origin :| origin in left;
      origins := origins[CString(origin) := JInt(AsInt64(marks[origin]))];
      left, done := left - {origin}, done + {origin};
    }
  }

  /** The mark an `origins` object shows for an origin; anything odd counts as 0. */
  function LastOf(origins: map<string, Json>, origin: string): nat {
    var name := CString(origin);
    if name in origins && origins[name].JInt? && GetInt64(origins[name].number) > 0
    then GetInt64(origins[name].number)
    else 0
  }

  /** A positive integer under the origin's C string is its mark, at most 2^63 - 1; all else counts as 0. */
  lemma LastOfExactly(origins: map<string, Json>, origin: string)
    ensures var name := CString(origin);
            if name in origins && origins[name].JInt? && origins[name].number > 0
            then LastOf(origins, origin) == if origins[name].number > 0x7FFF_FFFF_FFFF_FFFF then 0x7FFF_FFFF_FFFF_FFFF
                                            else origins[name].number
            else LastOf(origins, origin) == 0
  {
  }

  /** These marks are what the object shows for the origins of the table. */
  ghost predicate Shown(origins: map<string, Json>, table: seq<ChatMessage>, marks: Marks) {
    forall i :: 0 <= i < |table| ==> Mark(marks, table[i].origin) == LastOf(origins, table[i].origin)
  }

  /** Whatever a peer answers, it shows some marks. */
  lemma SomeMarksShown(origins: map<string, Json>, table: seq<ChatMessage>)
    ensures exists marks :: Shown(origins, table, marks)
  {
    var names := set m | m in table :: m.origin;
    var marks: Marks := map origin | origin in names :: LastOf(origins, origin);
    forall i | 0 <= i < |table| ensures Mark(marks, table[i].origin) == LastOf(origins, table[i].origin) {
      assert table[i] in table;
    }
    assert Shown(origins, table, marks);
  }

  /** Marks that an `origins` object can show in full. */
  predicate Showable(marks: Marks) {
    forall origin :: origin in marks ==> NulFree(origin) && marks[origin] <= MAX_SEQUENCE
  }

  /** A store's marks survive the trip through the summary. */
  lemma SummaryTravels(origins: map<string, Json>, marks: Marks, origin: string)
    requires ShowsMarks(origins, marks) && Showable(marks) && NulFree(origin)
    ensures LastOf(origins, origin) == Mark(marks, origin)
  {
    assert CString(origin) == origin;
    if origin in origins {
      var source :| source in marks && CString(source) == origin && origins[origin] == JInt(AsInt64(marks[source]));
      assert source == origin;
      MarkFits(marks[origin]);
    }
  }

  lemma MarkFits(mark: nat)
    requires mark <= MAX_SEQUENCE
    ensures GetInt64(AsInt64(mark)) == mark
  {
    assert mark % TWO_TO_64 == mark;
  }

  // ---- send_missing ----

  function Trees(messages: seq<ChatMessage>): seq<Json> {
    seq(|messages|, i requires 0 <= i < |messages| => Tree(messages[i]))
  }

  /** The batch for a peer that answered with `origins`, which show `marks`; empty means nothing is sent. */
  method SendMissing(store: MessageStore, origins: map<string, Json>, ghost marks: Marks) returns (batch: seq<Json>)
    requires store.Valid() && Shown(origins, store.State().table, marks)
    ensures batch == Trees(NextBatch(store.State().table, marks))
    ensures |batch| <= MAX_SYNC_BATCH_MESSAGES
  {
    batch := SelectMissing(store.messages, origins, marks);
  }

  /** The loop over the store's messages. */
  method SelectMissing(messages: seq<ChatMessage>, origins: map<string, Json>, ghost marks: Marks)
    returns (batch: seq<Json>)
    requires Shown(origins, messages, marks)
    ensures batch == Trees(NextBatch(messages, marks))
    ensures |batch| <= MAX_SYNC_BATCH_MESSAGES
  {
    batch := [];
    var count := 0;
    var index := 0;
    while index < |messages|
      invariant index <= |messages|
      invariant batch == Trees(NextBatch(messages[..index], marks))
      invariant count == |batch|
    {
      var m := messages[index];
      var last := LastOf(origins, m.origin);
      assert Mark(marks, messages[index].origin) == last;
      BatchGrows(messages, marks, index);
      if m.sequence > last && count < MAX_SYNC_BATCH_MESSAGES {
        var item := MessageToJson(m);
        batch := batch + [item];
        count := count + 1;
      }
      index := index + 1;
    }
    assert messages[..index] == messages;
  }

  lemma BatchGrows(table: seq<ChatMessage>, marks: Marks, i: nat)
    requires i < |table|
    ensures var m, before := table[i], NextBatch(table[..i], marks);
            Trees(NextBatch(table[..i + 1], marks)) ==
            if m.sequence > Mark(marks, m.origin) && |before| < MAX_SYNC_BATCH_MESSAGES
            then Trees(before) + [Tree(m)] else Trees(before)
  {
    assert table[..i + 1][..i] == table[..i] && table[..i + 1][i] == table[i];
    FirstBatchGrows(Missing(table[..i], marks), table[i]);
  }

  lemma FirstBatchGrows(missing: seq<ChatMessage>, m: ChatMessage)
    ensures FirstBatch(missing + [m]) ==
              if |FirstBatch(missing)| < MAX_SYNC_BATCH_MESSAGES then FirstBatch(missing) + [m] else FirstBatch(missing)
  {
  }

  predicate HasOrigins(text: Text) {
    && text.Readable? && text.tree.JObject?
    && "origins" in text.tree.members && text.tree.members["origins"].JObject?
  }

  /** `handle_summary_response`: a response that is too large, unreadable or without origins sends nothing. */
  method HandleSummaryResponse(store: MessageStore, bytes: nat, text: Text, ghost marks: Marks)
    returns (batch: seq<Json>)
    requires store.Valid()
    requires HasOrigins(text) ==> Shown(text.tree.members["origins"].members, store.State().table, marks)
    ensures |batch| <= MAX_SYNC_BATCH_MESSAGES
    ensures batch == if bytes <= MAX_SYNC_REQUEST_BYTES && HasOrigins(text)
                     then Trees(NextBatch(store.State().table, marks)) else []
  {
    if bytes > MAX_SYNC_REQUEST_BYTES || !HasOrigins(text) {
      return [];
    }
    batch := SendMissing(store, text.tree.members["origins"].members, marks);
  }
}
