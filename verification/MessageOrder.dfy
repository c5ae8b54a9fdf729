/** The canonical display order: the comparator of `get_messages` (http_api.cpp). */
module MessageOrder {
  import opened Messages
  import opened StoreModel
  import opened ServiceModel

  /** `operator<` of `std::string`: lexicographic by byte. */
  predicate TextLess(a: string, b: string) {
    b != "" && (a == "" || a[0] < b[0] || (a[0] == b[0] && TextLess(a[1..], b[1..])))
  }

  /** The four keys: time, origin, sequence, id. */
  predicate Before(left: ChatMessage, right: ChatMessage) {
    if left.createdAtMs != right.createdAtMs then left.createdAtMs < right.createdAtMs
    else if left.origin != right.origin then TextLess(left.origin, right.origin)
    else if left.sequence != right.sequence then left.sequence < right.sequence
    else TextLess(left.id, right.id)
  }

  lemma {:induction false} TextLessIsStrict(a: string, b: string)
    ensures !TextLess(a, a)
    ensures !(TextLess(a, b) && TextLess(b, a))
    ensures TextLess(a, b) || TextLess(b, a) || a == b
  {
    if a != "" {
      TextLessIsStrict(a[1..], a[1..]);
    }
    if a != "" && b != "" {
      TextLessIsStrict(a[1..], b[1..]);
      assert a == [a[0]] + a[1..] && b == [b[0]] + b[1..];
    }
  }

  /** `a` is a shorter beginning of `b`, or the first octet in which they differ is the smaller one in `a`. */
  ghost predicate DiffersBelow(a: string, b: string, k: nat) {
    && k <= |a| && k <= |b| && a[..k] == b[..k]
    && ((k == |a| && |a| < |b|) || (k < |a| && k < |b| && a[k] < b[k]))
  }

  /** The order of texts is the lexicographic one. */
  lemma {:induction false} TextLessExactly(a: string, b: string)
    ensures TextLess(a, b) <==> exists k: nat :: DiffersBelow(a, b, k)
  {
    if a == "" || b == "" || a[0] != b[0] {
      if TextLess(a, b) {
        assert DiffersBelow(a, b, 0);
      }
      if k: nat :| DiffersBelow(a, b, k) {
        if k > 0 {
          assert a[..k][0] == b[..k][0];
        }
      }
    } else {
      TextLessExactly(a[1..], b[1..]);
      if k: nat :| DiffersBelow(a[1..], b[1..], k) {
        assert a[..k + 1] == [a[0]] + a[1..][..k] && b[..k + 1] == [b[0]] + b[1..][..k];
        assert DiffersBelow(a, b, k + 1);
      }
      if k: nat :| DiffersBelow(a, b, k) {
        assert k > 0 && a[..k][1..] == a[1..][..k - 1] && b[..k][1..] == b[1..][..k - 1];
        assert DiffersBelow(a[1..], b[1..], k - 1);
      }
    }
  }

  lemma {:induction false} TextLessTransitive(a: string, b: string, c: string)
    requires TextLess(a, b) && TextLess(b, c)
    ensures TextLess(a, c)
  {
    if a != "" && a[0] == b[0] && b[0] == c[0] {
      TextLessTransitive(a[1..], b[1..], c[1..]);
    }
  }

  /** A strict total order on messages that differ in their keys. */
  lemma BeforeIsStrictTotal(a: ChatMessage, b: ChatMessage, c: ChatMessage)
    ensures !Before(a, a)
    ensures !(Before(a, b) && Before(b, a))
    ensures Before(a, b) && Before(b, c) ==> Before(a, c)
    ensures !SameKey(a, b) ==> Before(a, b) || Before(b, a)
  {
    TextLessIsStrict(a.origin, b.origin);
    TextLessIsStrict(b.origin, c.origin);
    TextLessIsStrict(a.id, a.id);
    TextLessIsStrict(a.id, b.id);
    TextLessIsStrict(b.id, c.id);
    if TextLess(a.origin, b.origin) && TextLess(b.origin, c.origin) {
      TextLessTransitive(a.origin, b.origin, c.origin);
      TextLessIsStrict(a.origin, c.origin);
    }
    if TextLess(a.id, b.id) && TextLess(b.id, c.id) {
      TextLessTransitive(a.id, b.id, c.id);
    }
  }

  /** Time decides first, then the origin's name, then the sequence, then the id. */
  lemma KeysInTurn(a: ChatMessage, b: ChatMessage)
    ensures a.createdAtMs < b.createdAtMs ==> Before(a, b) && !Before(b, a)
    ensures a.createdAtMs == b.createdAtMs ==>
              && (TextLess(a.origin, b.origin) ==> Before(a, b) && !Before(b, a))
              && (a.origin == b.origin && a.sequence < b.sequence ==> Before(a, b) && !Before(b, a))
              && (SameKey(a, b) && TextLess(a.id, b.id) ==> Before(a, b) && !Before(b, a))
  {
    TextLessIsStrict(a.origin, b.origin);
    TextLessIsStrict(a.id, b.id);
  }

  /** Messages created at different times, on any nodes, are in the order of their creation. */
  lemma CreatedInTurn(a: Node, b: Node, body: string, other: string, now: int, later: int)
    requires now < later
    ensures Before(Draft(a, body, now), Draft(b, other, later))
  {
    KeysInTurn(Draft(a, body, now), Draft(b, other, later));
  }

  predicate StrictlyOrdered(s: seq<ChatMessage>) {
    forall i, j :: 0 <= i < j < |s| ==> Before(s[i], s[j])
  }

  /** What a stable sort does with one more message: it goes behind all that it does not precede. */
  function InsertSorted(s: seq<ChatMessage>, m: ChatMessage): (r: seq<ChatMessage>)
    ensures |r| == |s| + 1 && multiset(r) == multiset(s) + multiset{m}
  {
    if s == [] then [m]
    else if Before(m, s[0]) then [m] + s
    else
      assert s == [s[0]] + s[1..];
      [s[0]] + InsertSorted(s[1..], m)
  }

  /** `std::stable_sort` with the comparator. */
  function StableSort(messages: seq<ChatMessage>): (r: seq<ChatMessage>)
    ensures |r| == |messages| && multiset(r) == multiset(messages)
  {
    if messages == [] then []
    else
      assert messages == messages[..|messages| - 1] + [messages[|messages| - 1]];
      InsertSorted(StableSort(messages[..|messages| - 1]), messages[|messages| - 1])
  }

  lemma SameMultisetSameElements(a: seq<ChatMessage>, b: seq<ChatMessage>, m: ChatMessage)
    requires multiset(a) == multiset(b)
    ensures m in a <==> m in b
  {
    assert m in a <==> m in multiset(a);
    assert m in b <==> m in multiset(b);
  }

  lemma {:induction false} InsertKeepsOrder(s: seq<ChatMessage>, m: ChatMessage)
    requires StrictlyOrdered(s) && forall i :: 0 <= i < |s| ==> !SameKey(s[i], m)
    ensures StrictlyOrdered(InsertSorted(s, m))
  {
    if s != [] {
      BeforeIsStrictTotal(s[0], m, m);
      if Before(m, s[0]) {
        forall j | 0 <= j < |s| ensures Before(m, s[j]) {
          BeforeIsStrictTotal(m, s[0], s[j]);
        }
        FirstInOrder(m, s);
      } else {
        InsertKeepsOrder(s[1..], m);
        FirstStaysFirst(s, m);
        FirstInOrder(s[0], InsertSorted(s[1..], m));
      }
    }
  }

  predicate AllBehind(first: ChatMessage, rest: seq<ChatMessage>) {
    forall j :: 0 <= j < |rest| ==> Before(first, rest[j])
  }

  lemma FirstInOrder(first: ChatMessage, rest: seq<ChatMessage>)
    requires StrictlyOrdered(rest) && AllBehind(first, rest)
    ensures StrictlyOrdered([first] + rest)
  {
  }

  lemma FirstStaysFirst(s: seq<ChatMessage>, m: ChatMessage)
    requires s != [] && StrictlyOrdered(s) && Before(s[0], m)
    ensures AllBehind(s[0], InsertSorted(s[1..], m))
  {
    var rest := InsertSorted(s[1..], m);
    forall j | 0 <= j < |rest| ensures Before(s[0], rest[j]) {
      assert rest[j] in multiset(rest);
      if rest[j] != m {
        assert rest[j] in s[1..];
        var k :| 1 <= k < |s| && s[k] == rest[j];
      }
    }
  }

  /** Messages with unique keys come out strictly ordered. */
  lemma {:induction false} SortOrders(messages: seq<ChatMessage>)
    requires UniqueKeys(messages)
    ensures StrictlyOrdered(StableSort(messages))
  {
    if messages != [] {
      var prefix, m := messages[..|messages| - 1], messages[|messages| - 1];
      SortOrders(prefix);
      forall i | 0 <= i < |prefix| ensures !SameKey(StableSort(prefix)[i], m) {
        SameMultisetSameElements(StableSort(prefix), prefix, StableSort(prefix)[i]);
        var k :| 0 <= k < |prefix| && prefix[k] == StableSort(prefix)[i];
        assert messages[k] == prefix[k];
      }
      InsertKeepsOrder(StableSort(prefix), m);
    }
  }

  /** There is only one strictly ordered arrangement of a set of messages. */
  lemma {:induction false} OrderedArrangementUnique(a: seq<ChatMessage>, b: seq<ChatMessage>)
    requires StrictlyOrdered(a) && StrictlyOrdered(b)
    requires forall m :: m in a <==> m in b
    ensures a == b
  {
    EmptyTogether(a, b);
    if a != [] {
      FirstIsLeast(a, b);
      assert a == [a[0]] + a[1..] && b == [b[0]] + b[1..];
      forall m ensures m in a[1..] <==> m in b[1..] {
        HeadNotInTail(a);
        HeadNotInTail(b);
        assert m in a <==> m == a[0] || m in a[1..];
        assert m in b <==> m == b[0] || m in b[1..];
      }
      OrderedArrangementUnique(a[1..], b[1..]);
    }
  }

  lemma EmptyTogether<T(!new)>(a: seq<T>, b: seq<T>)
    requires forall x :: x in a <==> x in b
    ensures a == [] <==> b == []
  {
    if a != [] {
      assert a[0] in b;
    }
    if b != [] {
      assert b[0] in a;
    }
  }

  lemma FirstIsLeast(a: seq<ChatMessage>, b: seq<ChatMessage>)
    requires StrictlyOrdered(a) && StrictlyOrdered(b) && a != [] && b != []
    requires a[0] in b && b[0] in a
    ensures a[0] == b[0]
  {
    var i :| 0 <= i < |b| && b[i] == a[0];
    var j :| 0 <= j < |a| && a[j] == b[0];
    BeforeIsStrictTotal(a[0], b[0], b[0]);
  }

  lemma HeadNotInTail(a: seq<ChatMessage>)
    requires StrictlyOrdered(a) && a != []
    ensures a[0] !in a[1..]
  {
    if a[0] in a[1..] {
      var i :| 1 <= i < |a| && a[i] == a[0];
      BeforeIsStrictTotal(a[0], a[0], a[0]);
    }
  }

  /** What `GET /api/v1/messages` lists for a table. */
  function GetMessages(table: seq<ChatMessage>): seq<ChatMessage> {
    StableSort(table)
  }

  /** Nodes that hold the same messages list them alike, in whatever order they arrived. */
  lemma ArrivalOrderDoesNotMatter(a: seq<ChatMessage>, b: seq<ChatMessage>)
    requires UniqueKeys(a) && UniqueKeys(b)
    requires forall m :: m in a <==> m in b
    ensures GetMessages(a) == GetMessages(b) && StrictlyOrdered(GetMessages(a))
  {
    SortOrders(a);
    SortOrders(b);
    forall m ensures m in GetMessages(a) <==> m in GetMessages(b) {
      SameMultisetSameElements(GetMessages(a), a, m);
      SameMultisetSameElements(GetMessages(b), b, m);
    }
    OrderedArrangementUnique(GetMessages(a), GetMessages(b));
  }
}
