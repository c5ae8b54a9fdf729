/** The message list of the LuCI chat page (chat.js): sorting, filling and incremental insertion. */
module ChatView {
  import opened Messages
  import opened StoreModel
  import opened ServiceModel
  import opened MessageOrder

  /** A message object as the page receives it; "" stands for an absent or empty string member. */
  datatype JsMessage = JsMessage(
    id: string, messageId: string, origin: string, callsign: string, sequence: int, createdAtMs: int, body: string)

  /** An article element: its data attributes, its heading and its text. */
  datatype Article = Article(id: string, origin: string, sequence: int, time: int, callsign: string, body: string)

  /** The JavaScript `a || b` on strings. */
  function Or(a: string, b: string): string {
    if a != "" then a else b
  }

  /** The three octets of an em dash, which stands in for a missing callsign. */
  const DASH: string := [0xE2 as char, 0x80 as char, 0x94 as char]

  function MessageNode(m: JsMessage): Article {
    Article(m.id, Or(m.origin, m.callsign), m.sequence, m.createdAtMs, Or(m.callsign, DASH), m.body)
  }

  /** What an element shows and remembers of its message. */
  lemma ArticleShows(m: JsMessage)
    ensures var node := MessageNode(m);
            && node.id == m.id && node.sequence == m.sequence && node.time == m.createdAtMs && node.body == m.body
            && node.origin == (if m.origin == "" then m.callsign else m.origin)
            && (m.callsign != "" ==> node.callsign == m.callsign)
            && (m.callsign == "" ==> |node.callsign| == 3)
  {
  }

  /** The object `appendMessage` reads back from an element's attributes. */
  function ReadBack(node: Article): JsMessage {
    JsMessage(node.id, "", node.origin, "", node.sequence, node.time, "")
  }

  function CompareMessages(left: JsMessage, right: JsMessage): int {
    var leftOrigin, rightOrigin := Or(left.origin, left.callsign), Or(right.origin, right.callsign);
    var leftId, rightId := Or(left.id, left.messageId), Or(right.id, right.messageId);
    if left.createdAtMs != right.createdAtMs then (if left.createdAtMs < right.createdAtMs then -1 else 1)
    else if leftOrigin != rightOrigin then (if TextLess(leftOrigin, rightOrigin) then -1 else 1)
    else if left.sequence != right.sequence then (if left.sequence < right.sequence then -1 else 1)
    else if leftId == rightId then 0
    else if TextLess(leftId, rightId) then -1
    else 1
  }

  /** Time decides first, then the origin or else the callsign, then the sequence, then one of the two ids. */
  lemma CompareExactly(a: JsMessage, b: JsMessage)
    ensures var originA, originB := if a.origin == "" then a.callsign else a.origin,
                                    if b.origin == "" then b.callsign else b.origin;
            var idA, idB := if a.id == "" then a.messageId else a.id, if b.id == "" then b.messageId else b.id;
            && (a.createdAtMs < b.createdAtMs ==> CompareMessages(a, b) < 0 < CompareMessages(b, a))
            && (a.createdAtMs == b.createdAtMs ==>
                  && (TextLess(originA, originB) ==> CompareMessages(a, b) < 0 < CompareMessages(b, a))
                  && (originA == originB && a.sequence < b.sequence ==>
                        CompareMessages(a, b) < 0 < CompareMessages(b, a))
                  && (originA == originB && a.sequence == b.sequence ==>
                        && (TextLess(idA, idB) ==> CompareMessages(a, b) < 0 < CompareMessages(b, a))
                        && (idA == idB ==> CompareMessages(a, b) == 0)))
  {
    TextLessIsStrict(if a.origin == "" then a.callsign else a.origin, if b.origin == "" then b.callsign else b.origin);
    TextLessIsStrict(if a.id == "" then a.messageId else a.id, if b.id == "" then b.messageId else b.id);
  }

  /** A stable sort takes each message behind all that it does not compare below. */
  function InsertMessage(sorted: seq<JsMessage>, m: JsMessage): seq<JsMessage> {
    if sorted == [] then [m]
    else if CompareMessages(m, sorted[0]) < 0 then [m] + sorted
    else [sorted[0]] + InsertMessage(sorted[1..], m)
  }

  function SortMessages(messages: seq<JsMessage>): seq<JsMessage> {
    if messages == [] then []
    else InsertMessage(SortMessages(messages[..|messages| - 1]), messages[|messages| - 1])
  }

  function Articles(messages: seq<JsMessage>): seq<Article> {
    seq(|messages|, i requires 0 <= i < |messages| => MessageNode(messages[i]))
  }

  /** Where `appendMessage` puts a new element. */
  function Insertion(list: seq<Article>, m: JsMessage): seq<Article> {
    if list == [] then [MessageNode(m)]
    else if CompareMessages(m, ReadBack(list[0])) < 0 then [MessageNode(m)] + list
    else [list[0]] + Insertion(list[1..], m)
  }

  /** Before the first element that the message compares below, or at the end. */
  predicate BelongsAt(list: seq<Article>, m: JsMessage, k: nat) {
    && k <= |list|
    && (forall i :: 0 <= i < k ==> CompareMessages(m, ReadBack(list[i])) >= 0)
    && (k < |list| ==> CompareMessages(m, ReadBack(list[k])) < 0)
  }

  lemma {:induction false} InsertKeepsMembers(sorted: seq<JsMessage>, m: JsMessage)
    ensures multiset(InsertMessage(sorted, m)) == multiset(sorted) + multiset{m}
  {
    if sorted != [] {
      InsertKeepsMembers(sorted[1..], m);
      assert sorted == [sorted[0]] + sorted[1..];
    }
  }

  /** Sorting loses nothing and adds nothing. */
  lemma {:induction false} SortKeepsMembers(messages: seq<JsMessage>)
    ensures multiset(SortMessages(messages)) == multiset(messages)
  {
    if messages != [] {
      var prefix, m := messages[..|messages| - 1], messages[|messages| - 1];
      SortKeepsMembers(prefix);
      InsertKeepsMembers(SortMessages(prefix), m);
      assert messages == prefix + [m];
    }
  }

  lemma SortedIds(messages: seq<JsMessage>)
    ensures forall id :: id in IdsOf(SortMessages(messages)) <==> id != "" && exists m :: m in messages && m.id == id
  {
    var sorted := SortMessages(messages);
    SortKeepsMembers(messages);
    forall m ensures m in sorted <==> m in messages {
      assert m in sorted <==> m in multiset(sorted);
      assert m in messages <==> m in multiset(messages);
    }
    forall id ensures id in IdsOf(sorted) <==> id != "" && exists m :: m in messages && m.id == id {
      if id in IdsOf(sorted) {
        var i :| 0 <= i < |sorted| && sorted[i].id == id;
        assert sorted[i] in messages;
      }
      if id != "" && exists m :: m in messages && m.id == id {
        var m :| m in messages && m.id == id;
        var i :| 0 <= i < |sorted| && sorted[i] == m;
      }
    }
  }

  function IdsOf(messages: seq<JsMessage>): set<string> {
    set i | 0 <= i < |messages| && messages[i].id != "" :: messages[i].id
  }

  class View {
    var knownIds: set<string>
    var list: seq<Article>
    var placeholder: bool

    constructor ()
      ensures knownIds == {} && list == [] && !placeholder
    {
      knownIds, list, placeholder := {}, [], false;
    }

    method FillMessages(messages: seq<JsMessage>)
      modifies this
      ensures list == Articles(SortMessages(messages))
      ensures knownIds == IdsOf(SortMessages(messages))
      ensures forall id :: id in knownIds <==> id != "" && exists m :: m in messages && m.id == id
      ensures placeholder <==> messages == []
    {
      var items := SortMessages(messages);
      knownIds := {};
      SortKeepsLength(messages);
      if |items| == 0 {
        list, placeholder := [], true;
        assert messages == [];
        return;
      }
      var fragment: seq<Article> := [];
      var index := 0;
      while index < |items|
        invariant 0 <= index <= |items|
        invariant fragment == Articles(items[..index])
        invariant knownIds == IdsOf(items[..index])
      {
        if items[index].id != "" {
          knownIds := knownIds + {items[index].id};
        }
        fragment := fragment + [MessageNode(items[index])];
        assert items[..index + 1] == items[..index] + [items[index]];
        index := index + 1;
      }
      assert items[..index] == items;
      list, placeholder := fragment, false;
      SortedIds(messages);
    }

    method AppendMessage(m: JsMessage) returns (added: bool)
      modifies this
      ensures added <==> m.id != "" && m.id !in old(knownIds)
      ensures added ==> list == Insertion(old(list), m) && knownIds == old(knownIds) + {m.id} && !placeholder
      ensures !added ==> list == old(list) && knownIds == old(knownIds) && placeholder == old(placeholder)
      ensures added ==>
                exists k :: 0 <= k <= |old(list)| && list == old(list)[..k] + [MessageNode(m)] + old(list)[k..]
                            && BelongsAt(old(list), m, k)
    {
      if m.id == "" || m.id in knownIds {
        return false;
      }
      knownIds := knownIds + {m.id};
      placeholder := false;
      var index := 0;
      while index < |list|
        invariant 0 <= index <= |list| && list == old(list)
        invariant forall i :: 0 <= i < index ==> CompareMessages(m, ReadBack(list[i])) >= 0
      {
        if CompareMessages(m, ReadBack(list[index])) < 0 {
          InsertionBelongs(list, m, index);
          list := list[..index] + [MessageNode(m)] + list[index..];
          return true;
        }
        index := index + 1;
      }
      InsertionBelongs(list, m, |list|);
      assert list[..|list|] == list && list[|list|..] == [];
      list := list + [MessageNode(m)];
      return true;
    }
  }

  lemma {:induction false} InsertionBelongs(list: seq<Article>, m: JsMessage, k: nat)
    requires BelongsAt(list, m, k)
    ensures Insertion(list, m) == list[..k] + [MessageNode(m)] + list[k..]
  {
    if k > 0 {
      InsertionBelongs(list[1..], m, k - 1);
      assert list[..k] == [list[0]] + list[1..][..k - 1] && list[k..] == list[1..][k - 1..];
    } else if list != [] {
      assert list[..0] == [] && list[0..] == list;
    }
  }

  lemma {:induction false} InsertKeepsLength(sorted: seq<JsMessage>, m: JsMessage)
    ensures |InsertMessage(sorted, m)| == |sorted| + 1
  {
    if sorted != [] {
      InsertKeepsLength(sorted[1..], m);
    }
  }

  lemma {:induction false} SortKeepsLength(messages: seq<JsMessage>)
    ensures |SortMessages(messages)| == |messages|
  {
    if messages != [] {
      SortKeepsLength(messages[..|messages| - 1]);
      InsertKeepsLength(SortMessages(messages[..|messages| - 1]), messages[|messages| - 1]);
    }
  }

  // ---- The page shows the daemon's order ----

  /** The page's object for one of the daemon's messages. */
  function FromDaemon(m: ChatMessage): JsMessage {
    JsMessage(m.id, "", m.origin, m.callsign, m.sequence, m.createdAtMs, m.body)
  }

  function FromDaemonAll(messages: seq<ChatMessage>): seq<JsMessage> {
    seq(|messages|, i requires 0 <= i < |messages| => FromDaemon(messages[i]))
  }

  function Shown(messages: seq<ChatMessage>): seq<Article> {
    seq(|messages|, i requires 0 <= i < |messages| => MessageNode(FromDaemon(messages[i])))
  }

  /** `compareMessages` is the daemon's comparator, on objects and on what the elements remember of them. */
  lemma ComparatorsAgree(a: ChatMessage, b: ChatMessage)
    requires a.origin != "" && b.origin != "" && a.id != "" && b.id != ""
    ensures CompareMessages(FromDaemon(a), FromDaemon(b)) < 0 <==> Before(a, b)
    ensures CompareMessages(FromDaemon(a), ReadBack(MessageNode(FromDaemon(b)))) < 0 <==> Before(a, b)
  {
    TextLessIsStrict(a.id, b.id);
  }

  predicate Named(messages: seq<ChatMessage>) {
    forall i :: 0 <= i < |messages| ==> messages[i].id != "" && messages[i].origin != ""
  }

  lemma FrontMapped(m: ChatMessage, rest: seq<ChatMessage>)
    ensures FromDaemonAll([m] + rest) == [FromDaemon(m)] + FromDaemonAll(rest)
    ensures Shown([m] + rest) == [MessageNode(FromDaemon(m))] + Shown(rest)
  {
  }

  lemma {:induction false} SortedInsertionAgrees(sorted: seq<ChatMessage>, m: ChatMessage)
    requires Named(sorted) && Named([m])
    ensures InsertMessage(FromDaemonAll(sorted), FromDaemon(m)) == FromDaemonAll(InsertSorted(sorted, m))
  {
    assert [m][0] == m;
    if sorted != [] {
      ComparatorsAgree(m, sorted[0]);
      assert sorted == [sorted[0]] + sorted[1..];
      FrontMapped(sorted[0], sorted[1..]);
      if Before(m, sorted[0]) {
        FrontMapped(m, sorted);
      } else {
        SortedInsertionAgrees(sorted[1..], m);
        FrontMapped(sorted[0], InsertSorted(sorted[1..], m));
      }
    }
  }

  /** Inserting into the page is inserting into the daemon's sorted list. */
  lemma {:induction false} PageInsertionAgrees(sorted: seq<ChatMessage>, m: ChatMessage)
    requires Named(sorted) && Named([m])
    ensures Insertion(Shown(sorted), FromDaemon(m)) == Shown(InsertSorted(sorted, m))
  {
    assert [m][0] == m;
    if sorted != [] {
      ComparatorsAgree(m, sorted[0]);
      assert sorted == [sorted[0]] + sorted[1..];
      FrontMapped(sorted[0], sorted[1..]);
      if Before(m, sorted[0]) {
        FrontMapped(m, sorted);
      } else {
        PageInsertionAgrees(sorted[1..], m);
        FrontMapped(sorted[0], InsertSorted(sorted[1..], m));
      }
    }
  }

  lemma {:induction false} SortsAgree(messages: seq<ChatMessage>)
    requires Named(messages)
    ensures SortMessages(FromDaemonAll(messages)) == FromDaemonAll(StableSort(messages))
    ensures Named(StableSort(messages))
  {
    NamedWhenSorted(messages);
    if messages != [] {
      var prefix, m := messages[..|messages| - 1], messages[|messages| - 1];
      SortsAgree(prefix);
      assert FromDaemonAll(messages)[..|messages| - 1] == FromDaemonAll(prefix);
      SortedInsertionAgrees(StableSort(prefix), m);
    }
  }

  lemma NamedWhenSorted(messages: seq<ChatMessage>)
    requires Named(messages)
    ensures Named(StableSort(messages))
  {
    forall i | 0 <= i < |StableSort(messages)|
      ensures StableSort(messages)[i].id != "" && StableSort(messages)[i].origin != ""
    {
      SameMultisetSameElements(StableSort(messages), messages, StableSort(messages)[i]);
      var k :| 0 <= k < |messages| && messages[k] == StableSort(messages)[i];
    }
  }

  /** The distinct messages among those of the first fill and those appended since. */
  function Seen(filled: seq<ChatMessage>, appended: seq<ChatMessage>): seq<ChatMessage> {
    if appended == [] then filled
    else
      var before := Seen(filled, appended[..|appended| - 1]);
      var m := appended[|appended| - 1];
      if HasId(before, m.id) then before else before + [m]
  }

  datatype Page = Page(list: seq<Article>, knownIds: set<string>)

  /** The page after `fillMessages` and any series of `appendMessage`, as the methods of View leave it. */
  function PageAfter(filled: seq<ChatMessage>, appended: seq<ChatMessage>): Page {
    if appended == [] then
      var items := SortMessages(FromDaemonAll(filled));
      Page(Articles(items), IdsOf(items))
    else
      var before := PageAfter(filled, appended[..|appended| - 1]);
      var m := FromDaemon(appended[|appended| - 1]);
      if m.id == "" || m.id in before.knownIds then before
      else Page(Insertion(before.list, m), before.knownIds + {m.id})
  }

  /**
   * The list on the page is always the daemon's order of the distinct messages
   * seen so far, however often and in whatever order they are appended.
   */
  lemma {:induction false} PageShowsDaemonOrder(filled: seq<ChatMessage>, appended: seq<ChatMessage>)
    requires Named(filled) && Named(appended)
    ensures var page := PageAfter(filled, appended);
            var seen := Seen(filled, appended);
            && Named(seen) && page.list == Shown(GetMessages(seen))
            && forall id :: id in page.knownIds <==> HasId(seen, id)
  {
    var seen := Seen(filled, appended);
    if appended == [] {
      SortsAgree(filled);
      assert Articles(FromDaemonAll(StableSort(filled))) == Shown(StableSort(filled));
      FilledIds(filled);
    } else {
      var prefix, m := appended[..|appended| - 1], appended[|appended| - 1];
      PageShowsDaemonOrder(filled, prefix);
      if !HasId(Seen(filled, prefix), m.id) {
        AppendedToOrder(Seen(filled, prefix), m);
      }
    }
  }

  lemma AppendedToOrder(before: seq<ChatMessage>, m: ChatMessage)
    requires Named(before) && m.id != "" && m.origin != ""
    ensures Named(before + [m])
    ensures Insertion(Shown(GetMessages(before)), FromDaemon(m)) == Shown(GetMessages(before + [m]))
    ensures forall id :: HasId(before + [m], id) <==> HasId(before, id) || id == m.id
  {
    SortsAgree(before);
    PageInsertionAgrees(StableSort(before), m);
    assert (before + [m])[..|before|] == before;
    AppendedIds(before, m);
  }

  /** The page at work: `render` fills the list once, each poll appends what the daemon lists. */
  method RenderAndPoll(filled: seq<ChatMessage>, polled: seq<ChatMessage>) returns (view: View)
    requires Named(filled) && Named(polled)
    ensures fresh(view)
    ensures view.list == Shown(GetMessages(Seen(filled, polled)))
  {
    view := new View();
    view.FillMessages(FromDaemonAll(filled));
    var index := 0;
    while index < |polled|
      invariant 0 <= index <= |polled| && fresh(view)
      invariant Page(view.list, view.knownIds) == PageAfter(filled, polled[..index])
    {
      assert polled[..index + 1][..index] == polled[..index];
      var added := view.AppendMessage(FromDaemon(polled[index]));
      index := index + 1;
    }
    assert polled[..index] == polled;
    PageShowsDaemonOrder(filled, polled);
  }

  lemma AppendedIds(before: seq<ChatMessage>, m: ChatMessage)
    ensures forall id :: HasId(before + [m], id) <==> HasId(before, id) || id == m.id
  {
    forall id ensures HasId(before + [m], id) <==> HasId(before, id) || id == m.id {
      var all := before + [m];
      if HasId(before, id) {
        var i :| 0 <= i < |before| && before[i].id == id;
        assert all[i].id == id;
      }
      if id == m.id {
        assert all[|before|].id == id;
      }
    }
  }

  lemma FilledIds(filled: seq<ChatMessage>)
    requires Named(filled)
    ensures forall id :: id in IdsOf(SortMessages(FromDaemonAll(filled))) <==> HasId(filled, id)
  {
    SortsAgree(filled);
    var sorted := StableSort(filled);
    forall id ensures id in IdsOf(FromDaemonAll(sorted)) <==> HasId(filled, id) {
      if id in IdsOf(FromDaemonAll(sorted)) {
        var i :| 0 <= i < |sorted| && FromDaemonAll(sorted)[i].id == id;
        SameMultisetSameElements(sorted, filled, sorted[i]);
        var k :| 0 <= k < |filled| && filled[k] == sorted[i];
      }
      if HasId(filled, id) {
        var k :| 0 <= k < |filled| && filled[k].id == id;
        SameMultisetSameElements(sorted, filled, filled[k]);
        var i :| 0 <= i < |sorted| && sorted[i] == filled[k];
        assert FromDaemonAll(sorted)[i].id == id;
      }
    }
  }

  /**
   * Polling: a page filled from one table that then appends, in any order, every
   * message of a later table which has lost none shows exactly the daemon's list.
   */
  lemma PollCatchesUp(filled: seq<ChatMessage>, appended: seq<ChatMessage>, table: seq<ChatMessage>)
    requires UniqueKeys(table) && UniqueKeys(filled) && Named(table) && Named(filled) && Named(appended)
    requires forall m :: m in table <==> m in filled || m in appended
    ensures PageAfter(filled, appended).list == Shown(GetMessages(table))
  {
    PageShowsDaemonOrder(filled, appended);
    SeenFromTable(filled, appended, table);
    ArrivalOrderDoesNotMatter(Seen(filled, appended), table);
  }

  lemma {:induction false} SeenFromTable(filled: seq<ChatMessage>, appended: seq<ChatMessage>, table: seq<ChatMessage>)
    requires UniqueKeys(table) && UniqueKeys(filled)
    requires forall m :: m in filled || m in appended ==> m in table
    ensures UniqueKeys(Seen(filled, appended))
    ensures forall m :: m in Seen(filled, appended) <==> m in filled || m in appended
  {
    if appended != [] {
      var prefix, m := appended[..|appended| - 1], appended[|appended| - 1];
      var before := Seen(filled, prefix);
      SeenFromTable(filled, prefix, table);
      assert appended == prefix + [m];
      assert m in appended;
      forall i | 0 <= i < |before| ensures before[i] == m || (before[i].id != m.id && !SameKey(before[i], m)) {
        assert before[i] in table;
        DistinctInTable(table, before[i], m);
      }
      if HasId(before, m.id) {
        var i :| 0 <= i < |before| && before[i].id == m.id;
        assert before[i] == m;
      } else {
        assert forall i :: 0 <= i < |before| ==> (before + [m])[i] == before[i];
      }
    }
  }

  lemma DistinctInTable(table: seq<ChatMessage>, a: ChatMessage, b: ChatMessage)
    requires UniqueKeys(table) && a in table && b in table
    ensures a == b || (a.id != b.id && !SameKey(a, b))
  {
    var i :| 0 <= i < |table| && table[i] == a;
    var j :| 0 <= j < |table| && table[j] == b;
  }
}
