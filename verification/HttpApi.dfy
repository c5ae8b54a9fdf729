/** The request handlers of http_api.cpp that read or write messages, over JSON trees. */
module HttpApi {
  import opened Messages
  import opened Utf8
  import opened StoreModel
  import opened MessageCodec
  import opened ServiceModel
  import opened MessageStores
  import opened MessageServices
  import opened SyncModel
  import opened SyncServices

  // ---- Requests ----

  datatype Request = Request(jsonContent: bool, bytes: nat, text: Text)

  datatype Read = UnsupportedMediaType | RequestTooLarge | InvalidJson | Object(members: map<string, Json>)

  /** `read_json_object`: content type, then size, then text; only the first of these that is wrong shows. */
  function ReadJsonObject(request: Request, limit: nat, requireComplete: bool): (read: Read)
    ensures read.Object? <==>
              && request.jsonContent && request.bytes <= limit && request.text.Readable? && request.text.tree.JObject?
              && (requireComplete ==> request.text.complete)
    ensures read.Object? ==> request.text.tree == JObject(read.members)
    ensures read.UnsupportedMediaType? <==> !request.jsonContent
    ensures read.RequestTooLarge? <==> request.jsonContent && request.bytes > limit
  {
    if !request.jsonContent then UnsupportedMediaType
    else if request.bytes > limit then RequestTooLarge
    else
      match request.text
      case Malformed => InvalidJson
      case Readable(tree, complete) =>
        if tree.JObject? && (requireComplete ==> complete) then Object(tree.members) else InvalidJson
  }

  /** A payload within the limit that reads to its end as one object. */
  predicate WholeObject(request: Request, limit: nat) {
    && request.jsonContent && request.bytes <= limit
    && request.text.Readable? && request.text.complete && request.text.tree.JObject?
  }

  /** What a daemon posts to another. */
  function Post(tree: Json, bytes: nat): Request {
    Request(true, bytes, Readable(tree, true))
  }

  // ---- POST /api/v1/messages ----

  datatype CreateResponse =
    | CreateNotRead(problem: Read)
    | BodyMustBeString
    | MessageEmpty
    | MessageTooLarge
    | MustBeValidUtf8
    | StoreFailed
    | Created(message: ChatMessage)

  /** What is wrong with a request for a new message, if anything. */
  ghost function Complaint(request: Request): Option<CreateResponse> {
    var read := ReadJsonObject(request, MAX_REQUEST_BYTES, false);
    if !read.Object? then Some(CreateNotRead(read))
    else if !HasString(read.members, "body") then Some(BodyMustBeString)
    else
      var body := read.members["body"].text;
      if body == "" then Some(MessageEmpty)
      else if |body| > MAX_MESSAGE_BYTES then Some(MessageTooLarge)
      else if !ValidUtf8(body) then Some(MustBeValidUtf8)
      else None
  }

  /**
   * The refusals of a new message, in the source's order, and the requests that
   * meet none of them: those of at most 4096 octets that read as an object with
   * a body of 1 to 2048 octets of valid UTF-8.
   */
  lemma ComplaintExactly(request: Request)
    ensures var readable := && request.jsonContent && request.bytes <= 4096
                            && request.text.Readable? && request.text.tree.JObject?;
            var members := if readable then request.text.tree.members else map[];
            var hasBody := "body" in members && members["body"].JString?;
            var body := if hasBody then members["body"].text else "";
            && (Complaint(request).None? <==> hasBody && 1 <= |body| <= 2048 && ValidUtf8(body))
            && (Complaint(request) == Some(CreateNotRead(UnsupportedMediaType)) <==> !request.jsonContent)
            && (Complaint(request) == Some(CreateNotRead(RequestTooLarge)) <==>
                request.jsonContent && request.bytes > 4096)
            && (Complaint(request) == Some(CreateNotRead(InvalidJson)) <==>
                request.jsonContent && request.bytes <= 4096 && !readable)
            && (Complaint(request) == Some(BodyMustBeString) <==> readable && !hasBody)
            && (Complaint(request) == Some(MessageEmpty) <==> hasBody && body == "")
            && (Complaint(request) == Some(MessageTooLarge) <==> hasBody && |body| > 2048)
            && (Complaint(request) == Some(MustBeValidUtf8) <==> hasBody && 1 <= |body| <= 2048 && !ValidUtf8(body))
  {
  }

  ghost function BodyOf(request: Request): string
    requires Complaint(request).None?
  {
    request.text.tree.members["body"].text
  }

  method CreateMessage(service: MessageService, request: Request, now: int) returns (response: CreateResponse)
    requires service.Valid()
    modifies service, service.store
    ensures service.Valid()
    ensures Complaint(request).Some? ==> response == Complaint(request).value && service.State() == old(service.State())
    ensures Complaint(request).None? ==>
              && ValidBody(BodyOf(request))
              && var (node, reply) := CreateLocal(service.store.limits, old(service.State()), BodyOf(request), now);
                 var draft := Draft(old(service.State()), BodyOf(request), now);
                 && service.State() == node
                 && response == if reply == Accepted then Created(draft) else StoreFailed
    ensures response.Created? ==>
              var m := response.message;
              && Complaint(request).None? && m.body == BodyOf(request) && m.createdAtMs == now
              && m.sequence == old(service.nextSequence) && m.origin == service.identity.nodeId
              && m.id == m.origin + ":" + Decimal(m.sequence)
              && m.callsign == service.identity.callsign && m.channel == "les-manet"
    ensures (response.Created? && IsInt64(now)
             && ValidNodeId(service.identity.nodeId) && ValidCallsign(service.identity.callsign)) ==>
              OwnMessage(response.message) && Travels(response.message)
  {
    var read := ReadJsonObject(request, MAX_REQUEST_BYTES, false);
    if !read.Object? {
      return CreateNotRead(read);
    }
    if !HasString(read.members, "body") {
      return BodyMustBeString;
    }
    var body := read.members["body"].text;
    if |body| <= 0 {
      return MessageEmpty;
    }
    if |body| > MAX_MESSAGE_BYTES {
      return MessageTooLarge;
    }
    var valid := IsValidUtf8(body);
    if !valid {
      return MustBeValidUtf8;
    }
    var message, reply := service.CreateLocal(body, now);
    response := if reply == Accepted then Created(message) else StoreFailed;
    if reply == Accepted && ValidNodeId(message.origin) && ValidCallsign(message.callsign) && IsInt64(now) {
      OwnMessagesTravel(message);
    }
  }

  // ---- POST /api/v1/replicate ----

  datatype ReplicateResponse = ReplicateNotRead(problem: Read) | InvalidMessage | Replied(reply: Reply)

  method ReplicateMessage(service: MessageService, request: Request) returns (response: ReplicateResponse)
    requires service.Valid()
    modifies service, service.store
    ensures service.Valid() && service.broadcasts == old(service.broadcasts)
    ensures var read := ReadJsonObject(request, MAX_REQUEST_BYTES, true);
            if !read.Object? then response == ReplicateNotRead(read) && service.State() == old(service.State())
            else if Parsed(request.text.tree).None?
            then response == InvalidMessage && service.State() == old(service.State())
            else response.Replied? && (service.State(), response.reply) ==
                   IngestReplica(service.store.limits, old(service.State()), Parsed(request.text.tree).value)
    ensures response.Replied? <==> WholeObject(request, 4096) && Accepts(request.text.tree)
    ensures response.InvalidMessage? <==> WholeObject(request, 4096) && !Accepts(request.text.tree)
  {
    var read := ReadJsonObject(request, MAX_REQUEST_BYTES, true);
    if !read.Object? {
      return ReplicateNotRead(read);
    }
    var message := ParseMessage(JObject(read.members));
    if message.None? {
      return InvalidMessage;
    }
    var reply := service.IngestReplica(message.value);
    return Replied(reply);
  }

  /** A push of a message that travels is taken up exactly if it is within the request limit. */
  lemma PushIsReadIfSmall(m: ChatMessage, bytes: nat)
    requires Travels(m)
    ensures ReadJsonObject(Post(Tree(m), bytes), MAX_REQUEST_BYTES, true).Object? <==> bytes <= MAX_REQUEST_BYTES
    ensures Parsed(Post(Tree(m), bytes).text.tree) == Some(m)
  {
  }

  // ---- POST /api/v1/sync/summary ----

  datatype SummaryResponse = SummaryNotRead(problem: Read) | InvalidSummary | SummaryFailed | SummaryIs(tree: Json)

  /** The `protocol` and `type` members; a type is compared as a C string. */
  predicate IsOfType(members: map<string, Json>, name: string) {
    && HasInt(members, "protocol") && members["protocol"].number == PROTOCOL_VERSION
    && HasString(members, "type") && CString(members["type"].text) == name
  }

  predicate SummaryRequest(members: map<string, Json>) {
    && IsOfType(members, "sync_summary")
    && "origins" in members && members["origins"].JObject?
  }

  /** The summary requests that are answered. */
  lemma SummaryRequestExactly(members: map<string, Json>)
    ensures SummaryRequest(members) <==>
              && "protocol" in members && members["protocol"] == JInt(1)
              && "type" in members && members["type"].JString? && CString(members["type"].text) == "sync_summary"
              && "origins" in members && members["origins"].JObject?
  {
  }

  /** The batch requests whose items are looked at. */
  lemma BatchRequestExactly(members: map<string, Json>)
    ensures BatchRequest(members) <==>
              && "protocol" in members && members["protocol"] == JInt(1)
              && "type" in members && members["type"].JString? && CString(members["type"].text) == "sync_messages"
              && "messages" in members && members["messages"].JArray? && |members["messages"].items| <= 50
  {
  }

  ghost predicate Answers(request: Request, readable: bool, marks: Marks, response: SummaryResponse) {
    var read := ReadJsonObject(request, MAX_REQUEST_BYTES, true);
    if !read.Object? then response == SummaryNotRead(read)
    else if !SummaryRequest(read.members) then response == InvalidSummary
    else if !readable then response == SummaryFailed
    else exists origins :: response == SummaryIs(SummaryTree(origins)) && ShowsMarks(origins, marks)
  }

  /** Refused unread, refused as malformed, failed on a negative mark, or answered: each exactly on its condition. */
  lemma AnswersExactly(request: Request, readable: bool, marks: Marks, response: SummaryResponse)
    requires Answers(request, readable, marks, response)
    ensures var whole := WholeObject(request, 4096);
            var wellFormed := whole && SummaryRequest(request.text.tree.members);
            && (response.SummaryNotRead? <==> !whole)
            && (response.InvalidSummary? <==> whole && !wellFormed)
            && (response.SummaryFailed? <==> wellFormed && !readable)
            && (response.SummaryIs? <==> wellFormed && readable)
            && (response.SummaryIs? ==>
                  && SummaryRequest(response.tree.members) && "origins" in response.tree.members
                  && ShowsMarks(response.tree.members["origins"].members, marks))
  {
    if response.SummaryIs? {
      var origins :| response == SummaryIs(SummaryTree(origins)) && ShowsMarks(origins, marks);
      SummaryTreeIsRequest(origins);
    }
  }

  method SyncSummary(service: MessageService, request: Request) returns (response: SummaryResponse)
    requires service.Valid()
    ensures Answers(request, service.store.MarksReadable(), service.State().store.marks, response)
  {
    var read := ReadJsonObject(request, MAX_REQUEST_BYTES, true);
    if !read.Object? {
      return SummaryNotRead(read);
    }
    if !SummaryRequest(read.members) {
      return InvalidSummary;
    }
    var summary := service.store.SequenceSummary();
    if summary.InvalidMarks? {
      return SummaryFailed;
    }
    var origins := OriginsObject(summary.marks);
    return SummaryIs(SummaryTree(origins));
  }

  // ---- POST /api/v1/sync/messages ----

  datatype Response = NotRead(problem: Read) | InvalidRequest | InvalidItem | InternalError | Ok(accepted: nat)

  ghost function ParsedAll(items: seq<Json>): (r: seq<Option<ChatMessage>>)
    ensures |r| == |items| && forall i :: 0 <= i < |items| ==> r[i] == Parsed(items[i])
  {
    if items == [] then [] else ParsedAll(items[..|items| - 1]) + [Parsed(items[|items| - 1])]
  }

  /** One more item of a batch; nothing is looked at after a bad item or a full disk. */
  function TakeOne(limits: Limits, before: Node, response: Response, item: Option<ChatMessage>): (Node, Response) {
    if !response.Ok? then (before, response)
    else
      match item
      case None => (before, InvalidItem)
      case Some(m) =>
        var (after, reply) := IngestSync(limits, before, m);
        if reply == Failed then (after, InternalError)
        else (after, Ok(response.accepted + (if reply == Accepted then 1 else 0)))
  }

  /** What the sync endpoint does with the items of a batch, as each one parses, one after the other. */
  function Taken(limits: Limits, node: Node, items: seq<Option<ChatMessage>>): (Node, Response) {
    if items == [] then (node, Ok(0))
    else
      var (before, response) := Taken(limits, node, items[..|items| - 1]);
      TakeOne(limits, before, response, items[|items| - 1])
  }

  ghost function Ingested(limits: Limits, node: Node, items: seq<Json>): (Node, Response) {
    Taken(limits, node, ParsedAll(items))
  }

  predicate BatchRequest(members: map<string, Json>) {
    && IsOfType(members, "sync_messages")
    && "messages" in members && members["messages"].JArray?
    && |members["messages"].items| <= MAX_SYNC_BATCH_MESSAGES
  }

  /** A request that is refused changes nothing; else its items are ingested. */
  ghost function Posted(limits: Limits, node: Node, request: Request): (Node, Response) {
    var read := ReadJsonObject(request, MAX_SYNC_REQUEST_BYTES, true);
    if !read.Object? then (node, NotRead(read))
    else if !BatchRequest(read.members) then (node, InvalidRequest)
    else Ingested(limits, node, read.members["messages"].items)
  }

  /** Refused unread or as malformed without effect, or the items are taken: each exactly on its condition. */
  lemma PostedExactly(limits: Limits, node: Node, request: Request)
    ensures var (after, response) := Posted(limits, node, request);
            var whole := WholeObject(request, 128 * 1024);
            if whole && BatchRequest(request.text.tree.members)
            then (after, response) == Ingested(limits, node, request.text.tree.members["messages"].items)
            else after == node && (if whole then response == InvalidRequest else response.NotRead?)
  {
  }

  method SyncMessages(service: MessageService, request: Request) returns (response: Response)
    requires service.Valid()
    modifies service, service.store
    ensures service.Valid() && service.broadcasts == old(service.broadcasts)
    ensures (service.State(), response) == Posted(service.store.limits, old(service.State()), request)
  {
    var read := ReadJsonObject(request, MAX_SYNC_REQUEST_BYTES, true);
    if !read.Object? {
      return NotRead(read);
    }
    if !BatchRequest(read.members) {
      return InvalidRequest;
    }
    response := IngestItems(service, read.members["messages"].items);
  }

  /** The handler's loop: one item after the other, up to the first that cannot be taken. */
  method IngestItems(service: MessageService, items: seq<Json>) returns (response: Response)
    requires service.Valid()
    modifies service, service.store
    ensures service.Valid() && service.broadcasts == old(service.broadcasts)
    ensures (service.State(), response) == Ingested(service.store.limits, old(service.State()), items)
  {
    var accepted, index := 0, 0;
    ghost var parsed := ParsedAll(items);
    while index < |items|
      invariant index <= |items| && service.Valid()
      invariant service.broadcasts == old(service.broadcasts)
      invariant (service.State(), Ok(accepted)) == Taken(service.store.limits, old(service.State()), parsed[..index])
    {
      NextItem(service.store.limits, old(service.State()), parsed, index, service.State(), accepted);
      var message := ParseMessage(items[index]);
      if message.None? {
        return InvalidItem;
      }
      var reply := service.IngestSync(message.value);
      if reply == Failed {
        return InternalError;
      }
      if reply == Accepted {
        accepted := accepted + 1;
      }
      index := index + 1;
    }
    assert parsed[..index] == parsed;
    return Ok(accepted);
  }

  lemma NextItem(limits: Limits, node: Node, items: seq<Option<ChatMessage>>, i: nat, before: Node, accepted: nat)
    requires i < |items| && Taken(limits, node, items[..i]) == (before, Ok(accepted))
    ensures match items[i]
            case None => Taken(limits, node, items) == (before, InvalidItem)
            case Some(m) =>
              var (after, reply) := IngestSync(limits, before, m);
              if reply == Failed then Taken(limits, node, items) == (after, InternalError)
              else Taken(limits, node, items[..i + 1]) == (after, Ok(accepted + (if reply == Accepted then 1 else 0)))
  {
    assert items[..i + 1][..i] == items[..i] && items[..i + 1][i] == items[i];
    TakingStops(limits, node, items, i + 1);
  }

  /** After a bad item or a full disk the rest of the batch is not looked at. */
  lemma {:induction false} TakingStops(limits: Limits, node: Node, items: seq<Option<ChatMessage>>, k: nat)
    requires k <= |items|
    ensures !Taken(limits, node, items[..k]).1.Ok? ==> Taken(limits, node, items) == Taken(limits, node, items[..k])
    decreases |items|
  {
    if k == |items| {
      assert items[..k] == items;
    } else {
      TakingStops(limits, node, items[..|items| - 1], k);
      assert items[..|items| - 1][..k] == items[..k];
    }
  }

  /** A message that its receiver will read back unchanged. */
  ghost predicate Travels(m: ChatMessage) {
    Parsed(Tree(m)) == Some(m)
  }

  function AsResponse(r: BatchResult): (Node, Response) {
    (r.node, if r.failed then InternalError else Ok(r.accepted))
  }

  lemma OneItemLikeMessage(limits: Limits, before: BatchResult, m: ChatMessage)
    ensures TakeOne(limits, AsResponse(before).0, AsResponse(before).1, Some(m)) ==
            AsResponse(IngestOne(limits, before, m))
  {
  }

  /** Items that all parse are ingested like the batch of their messages. */
  lemma {:induction false} ItemsLikeBatch(limits: Limits, node: Node, items: seq<Option<ChatMessage>>,
                                          batch: seq<ChatMessage>)
    requires |items| == |batch| && forall i :: 0 <= i < |batch| ==> items[i] == Some(batch[i])
    ensures Taken(limits, node, items) == AsResponse(IngestBatch(limits, node, batch))
  {
    if batch != [] {
      var n := |batch| - 1;
      ItemsLikeBatch(limits, node, items[..n], batch[..n]);
      assert items[n] == Some(batch[n]);
      OneItemLikeMessage(limits, IngestBatch(limits, node, batch[..n]), batch[n]);
    }
  }

  /** Batches of messages that travel arrive as they were sent: the wire adds nothing to SyncModel. */
  lemma {:induction false} BatchTravels(limits: Limits, node: Node, batch: seq<ChatMessage>)
    requires forall i :: 0 <= i < |batch| ==> Travels(batch[i])
    ensures Ingested(limits, node, Trees(batch)) == AsResponse(IngestBatch(limits, node, batch))
  {
    var items := ParsedAll(Trees(batch));
    forall i | 0 <= i < |batch| ensures items[i] == Some(batch[i]) {
      assert Travels(batch[i]);
    }
    ItemsLikeBatch(limits, node, items, batch);
  }

  // ---- A whole round ----

  /** The payloads of a round as the size limits see them. */
  ghost predicate SizesAre(wire: Wire, requestBytes: nat, responseBytes: nat, batchBytes: nat,
                           sender: Store, marks: Marks) {
    && requestBytes == wire.summaryBytes(sender.marks)
    && responseBytes == wire.summaryBytes(marks)
    && batchBytes == wire.batchBytes(NextBatch(sender.table, marks))
  }

  lemma SummaryTreeIsRequest(origins: map<string, Json>)
    ensures var tree := SummaryTree(origins);
            && SummaryRequest(tree.members) && tree.members["origins"] == JObject(origins)
  {
    var members := SummaryTree(origins).members;
    assert members["protocol"] == JInt(PROTOCOL_VERSION);
    assert members["type"] == JString("sync_summary");
    assert members["origins"] == JObject(origins);
    TypesAreC("sync_summary");
  }

  lemma BatchTreeIsRequest(items: seq<Json>)
    requires |items| <= MAX_SYNC_BATCH_MESSAGES
    ensures var tree := BatchTree(items);
            && BatchRequest(tree.members) && tree.members["messages"] == JArray(items)
  {
    var members := BatchTree(items).members;
    assert members["protocol"] == JInt(PROTOCOL_VERSION);
    assert members["type"] == JString("sync_messages");
    assert members["messages"] == JArray(items);
    TypesAreC("sync_messages");
  }

  /** A batch is refused exactly if it is over the limit. */
  lemma PostedBatch(limits: Limits, node: Node, items: seq<Json>, bytes: nat)
    requires |items| <= MAX_SYNC_BATCH_MESSAGES
    ensures Posted(limits, node, Post(BatchTree(items), bytes)) ==
            if bytes > MAX_SYNC_REQUEST_BYTES then (node, NotRead(RequestTooLarge)) else Ingested(limits, node, items)
  {
    BatchTreeIsRequest(items);
  }

  lemma TypesAreC(name: string)
    requires name == "sync_summary" || name == "sync_messages"
    ensures CString(name) == name
  {
    assert NulFree(name);
  }

  ghost predicate AllTravel(messages: seq<ChatMessage>) {
    forall i :: 0 <= i < |messages| ==> Travels(messages[i])
  }

  /**
   * The code of a round on both sides, in the order the requests run: it is the
   * Round of SyncModel. ValidRuns shows that what it asks of the two stores
   * holds in every state that valid nodes reach.
   */
  method SyncRound(sender: MessageStore, receiver: MessageService, ghost wire: Wire,
                   requestBytes: nat, responseBytes: nat, batchBytes: nat)
    returns (accepted: nat)
    requires sender.Valid() && receiver.Valid() && sender != receiver.store
    requires AllTravel(sender.State().table) && Showable(receiver.State().store.marks)
    requires SizesAre(wire, requestBytes, responseBytes, batchBytes, sender.State(), receiver.State().store.marks)
    modifies receiver, receiver.store
    ensures receiver.Valid() && sender.State() == old(sender.State())
    ensures var r := Round(receiver.store.limits, wire, sender.State(), old(receiver.State()));
            if sender.MarksReadable() && old(receiver.store.MarksReadable())
            then receiver.State() == r.node && (!r.failed ==> accepted == r.accepted)
            else receiver.State() == old(receiver.State()) && accepted == 0
  {
    RoundIsHandled(receiver.store.limits, wire, sender.State(), receiver.State(),
                   requestBytes, responseBytes, batchBytes);
    accepted := Exchange(sender, receiver, requestBytes, responseBytes, batchBytes);
  }

  /** The requests of a round, one after the other. */
  method Exchange(sender: MessageStore, receiver: MessageService,
                  requestBytes: nat, responseBytes: nat, batchBytes: nat)
    returns (accepted: nat)
    requires sender.Valid() && receiver.Valid() && sender != receiver.store
    requires AllTravel(sender.State().table) && Showable(receiver.State().store.marks)
    modifies receiver, receiver.store
    ensures receiver.Valid() && sender.State() == old(sender.State())
    ensures var batch := NextBatch(sender.State().table, old(receiver.State()).store.marks);
            if !sender.MarksReadable() || !old(receiver.store.MarksReadable())
               || requestBytes > MAX_REQUEST_BYTES || responseBytes > MAX_SYNC_REQUEST_BYTES || batch == []
               || batchBytes > MAX_SYNC_REQUEST_BYTES
            then receiver.State() == old(receiver.State()) && accepted == 0
            else var (node, response) := Ingested(receiver.store.limits, old(receiver.State()), Trees(batch));
                 receiver.State() == node && accepted == if response.Ok? then response.accepted else 0
  {
    accepted := 0;
    var batch := AskWhatIsMissing(sender, receiver, requestBytes, responseBytes);
    if |batch| == 0 {
      return;
    }
    PostedBatch(receiver.store.limits, receiver.State(), batch, batchBytes);
    var response := SyncMessages(receiver, Post(BatchTree(batch), batchBytes));
    if response.Ok? {
      accepted := response.accepted;
    }
  }

  /** What is posted in a round, and what the handler makes of it. */
  lemma RoundIsHandled(limits: Limits, wire: Wire, sender: Store, node: Node,
                       requestBytes: nat, responseBytes: nat, batchBytes: nat)
    requires AllTravel(sender.table)
    requires SizesAre(wire, requestBytes, responseBytes, batchBytes, sender, node.store.marks)
    ensures var r, batch := Round(limits, wire, sender, node), NextBatch(sender.table, node.store.marks);
            if requestBytes > MAX_REQUEST_BYTES || responseBytes > MAX_SYNC_REQUEST_BYTES || batch == []
               || batchBytes > MAX_SYNC_REQUEST_BYTES
            then r == BatchResult(node, 0, false)
            else Ingested(limits, node, Trees(batch)) == AsResponse(r)
  {
    BatchOfTravellers(limits, node, sender.table, node.store.marks);
  }

  /** The first half of a round: the sender's summary is answered by the receiver's, which selects the batch. */
  method AskWhatIsMissing(sender: MessageStore, receiver: MessageService, requestBytes: nat, responseBytes: nat)
    returns (batch: seq<Json>)
    requires sender.Valid() && receiver.Valid()
    requires AllTravel(sender.State().table) && Showable(receiver.State().store.marks)
    ensures |batch| <= MAX_SYNC_BATCH_MESSAGES
    ensures batch == if && sender.MarksReadable() && receiver.store.MarksReadable()
                        && requestBytes <= MAX_REQUEST_BYTES && responseBytes <= MAX_SYNC_REQUEST_BYTES
                     then Trees(NextBatch(sender.State().table, receiver.State().store.marks)) else []
  {
    ghost var table, marks := sender.State().table, receiver.State().store.marks;
    var summary := sender.SequenceSummary();
    if summary.InvalidMarks? {
      return [];
    }
    var known := OriginsObject(summary.marks);
    var answer := SyncSummary(receiver, Post(SummaryTree(known), requestBytes));
    AnswerShows(known, requestBytes, receiver.store.MarksReadable(), answer, table, marks);
    if !answer.SummaryIs? {
      return [];
    }
    batch := HandleSummaryResponse(sender, responseBytes, Readable(answer.tree, true), marks);
  }

  /** A daemon's summary is answered exactly if it is within the limit, and the answer shows the receiver's marks. */
  lemma AnswerShows(known: map<string, Json>, bytes: nat, readable: bool, answer: SummaryResponse,
                    table: seq<ChatMessage>, marks: Marks)
    requires AllTravel(table) && Showable(marks) && Answers(Post(SummaryTree(known), bytes), readable, marks, answer)
    ensures answer.SummaryIs? <==> bytes <= MAX_REQUEST_BYTES && readable
    ensures answer.SummaryIs? ==>
              && HasOrigins(Readable(answer.tree, true))
              && Shown(answer.tree.members["origins"].members, table, marks)
  {
    SummaryPostIsRead(known, bytes);
    if answer.SummaryIs? {
      var origins :| answer == SummaryIs(SummaryTree(origins)) && ShowsMarks(origins, marks);
      SummaryTreeIsRequest(origins);
      TravellersShown(table, origins, marks);
    }
  }

  lemma SummaryPostIsRead(known: map<string, Json>, bytes: nat)
    ensures var read := ReadJsonObject(Post(SummaryTree(known), bytes), MAX_REQUEST_BYTES, true);
            && (read.Object? <==> bytes <= MAX_REQUEST_BYTES)
            && (read.Object? ==> SummaryRequest(read.members))
  {
    SummaryTreeIsRequest(known);
  }

  /** The summary as it arrives shows the receiver's own marks. */
  lemma TravellersShown(table: seq<ChatMessage>, origins: map<string, Json>, marks: Marks)
    requires AllTravel(table) && ShowsMarks(origins, marks) && Showable(marks)
    ensures Shown(origins, table, marks)
  {
    forall i | 0 <= i < |table| ensures Mark(marks, table[i].origin) == LastOf(origins, table[i].origin) {
      TravellersOrigin(table[i]);
      SummaryTravels(origins, marks, table[i].origin);
    }
  }

  lemma BatchOfTravellers(limits: Limits, node: Node, table: seq<ChatMessage>, marks: Marks)
    requires AllTravel(table)
    ensures var batch := NextBatch(table, marks);
            Ingested(limits, node, Trees(batch)) == AsResponse(IngestBatch(limits, node, batch))
  {
    var miss := Missing(table, marks);
    forall i | 0 <= i < |miss| ensures Travels(miss[i]) {
      MissingMember(table, marks, miss[i]);
      var k :| 0 <= k < |table| && table[k] == miss[i];
    }
    BatchTravels(limits, node, NextBatch(table, marks));
  }
}
