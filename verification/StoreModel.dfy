/**
 * What `MessageStore` means: the messages table in storage order, the table of
 * highest sequences, and the effect of each operation on them as a value.
 */
module StoreModel {
  import opened Messages

  /** Highest sequence accepted so far, per origin: the `sequences` table. */
  type Marks = map<string, nat>

  /** The page limit of the database file, for any way of counting its pages. */
  datatype Limits = Limits(capacity: nat, usage: (seq<ChatMessage>, Marks) -> nat)

  const UNLIMITED: Limits := Limits(0, (table, marks) => 0)

  datatype Store = Store(table: seq<ChatMessage>, marks: Marks)

  const EMPTY: Store := Store([], map[])

  datatype Outcome = Inserted | Ignored | Full | OutOfRange

  const PRUNE_COUNT: nat := 100

  function Mark(marks: Marks, origin: string): nat {
    if origin in marks then marks[origin] else 0
  }

  function Max(a: int, b: int): int { if a < b then b else a }

  function Min(a: int, b: int): int { if a < b then a else b }

  function Raise(marks: Marks, m: ChatMessage): Marks {
    marks[m.origin := Max(Mark(marks, m.origin), m.sequence)]
  }

  /** True if a UNIQUE constraint forbids a row for `m`. */
  predicate Clashes(table: seq<ChatMessage>, m: ChatMessage) {
    exists i :: 0 <= i < |table| && (table[i].id == m.id || SameKey(table[i], m))
  }

  predicate Fits(limits: Limits, table: seq<ChatMessage>, marks: Marks) {
    limits.usage(table, marks) <= limits.capacity
  }

  /** Room for the row, and then for the mark. */
  predicate Room(limits: Limits, s: Store, m: ChatMessage) {
    Fits(limits, s.table + [m], s.marks) && Fits(limits, s.table + [m], Raise(s.marks, m))
  }

  /** One transaction: the row, then the mark; anything but success rolls back. */
  function Insert(limits: Limits, s: Store, m: ChatMessage): (Store, Outcome) {
    if m.sequence > MAX_SEQUENCE then (s, OutOfRange)
    else if Clashes(s.table, m) then (s, Ignored)
    else if !Room(limits, s, m) then (s, Full)
    else (Store(s.table + [m], Raise(s.marks, m)), Inserted)
  }

  function Prune(s: Store): Store {
    Store(s.table[Min(PRUNE_COUNT, |s.table|)..], s.marks)
  }

  /** Insert; on a full database drop the oldest rows and try once more. */
  function Add(limits: Limits, s: Store, m: ChatMessage): (Store, Outcome) {
    var (first, outcome) := Insert(limits, s, m);
    if outcome == Full then Insert(limits, Prune(s), m) else (first, outcome)
  }

  function NextSequence(marks: Marks, origin: string): (next: int) {
    if origin in marks then marks[origin] + 1 else 1
  }

  predicate HasKey(table: seq<ChatMessage>, origin: string, sequence: int) {
    exists i :: 0 <= i < |table| && table[i].origin == origin && table[i].sequence == sequence
  }

  predicate UniqueKeys(table: seq<ChatMessage>) {
    forall i, j :: 0 <= i < j < |table| ==> table[i].id != table[j].id && !SameKey(table[i], table[j])
  }

  predicate Marked(table: seq<ChatMessage>, marks: Marks) {
    forall i :: 0 <= i < |table| ==> table[i].sequence <= Mark(marks, table[i].origin)
  }

  /** Both UNIQUE constraints hold and no row lies above the mark of its origin. */
  predicate Invariant(s: Store) {
    UniqueKeys(s.table) && Marked(s.table, s.marks)
  }

  ghost predicate AtMost(a: Marks, b: Marks) {
    forall origin :: Mark(a, origin) <= Mark(b, origin)
  }

  /** Some row has the id, or the origin and sequence, of `m`. */
  ghost predicate Repeats(s: Store, m: ChatMessage) {
    exists row :: row in s.table && (row.id == m.id || (row.origin == m.origin && row.sequence == m.sequence))
  }

  lemma RepeatsClashes(s: Store, m: ChatMessage)
    ensures Clashes(s.table, m) <==> Repeats(s, m)
  {
    if Clashes(s.table, m) {
      var i :| 0 <= i < |s.table| && (s.table[i].id == m.id || SameKey(s.table[i], m));
      assert s.table[i] in s.table;
    }
  }

  /** The table without its 100 oldest rows, or without any. */
  function Younger(table: seq<ChatMessage>): seq<ChatMessage> {
    if |table| <= 100 then [] else table[100..]
  }

  /** Both the row and then the raised mark leave the file within its capacity. */
  ghost predicate Takes(limits: Limits, table: seq<ChatMessage>, marks: Marks, m: ChatMessage) {
    var raised := marks[m.origin := if m.origin in marks && marks[m.origin] > m.sequence then marks[m.origin]
                                    else m.sequence];
    && limits.usage(table + [m], marks) <= limits.capacity
    && limits.usage(table + [m], raised) <= limits.capacity
  }

  /**
   * The four outcomes of `add`, each with its exact condition and effect: out of
   * range above 2^63 - 1; ignored if a row has the id or the key; stored if it
   * fits, at once or once the 100 oldest rows are gone; and full if it fits
   * neither way, with the oldest rows thrown away all the same.
   */
  lemma AddExactly(limits: Limits, s: Store, m: ChatMessage)
    ensures var (after, outcome) := Add(limits, s, m);
            var atOnce, pruned := Takes(limits, s.table, s.marks, m), Takes(limits, Younger(s.table), s.marks, m);
            && (outcome == OutOfRange <==> m.sequence > 0x7FFF_FFFF_FFFF_FFFF)
            && (outcome == Ignored <==> m.sequence <= 0x7FFF_FFFF_FFFF_FFFF && Repeats(s, m))
            && (outcome == Inserted <==>
                m.sequence <= 0x7FFF_FFFF_FFFF_FFFF && !Repeats(s, m) && (atOnce || pruned))
            && (outcome == Full <==>
                m.sequence <= 0x7FFF_FFFF_FFFF_FFFF && !Repeats(s, m) && !atOnce && !pruned)
            && (outcome == OutOfRange || outcome == Ignored ==> after == s)
            && (outcome == Full ==> after == Store(Younger(s.table), s.marks))
            && (outcome == Inserted ==>
                && after.table == (if atOnce then s.table else Younger(s.table)) + [m]
                && after.marks.Keys == s.marks.Keys + {m.origin}
                && Mark(after.marks, m.origin) == (if Mark(s.marks, m.origin) > m.sequence then Mark(s.marks, m.origin)
                                                   else m.sequence)
                && forall origin :: origin in s.marks && origin != m.origin ==> after.marks[origin] == s.marks[origin])
  {
    RepeatsClashes(s, m);
    RepeatsClashes(Prune(s), m);
    assert forall row :: row in Prune(s).table ==> row in s.table;
  }

  /**
   * `add` stores a message exactly when no row clashes with it and it fits, at
   * once or after the oldest rows are gone. A refusal for lack of room has
   * still thrown the oldest rows away; every other refusal changes nothing.
   */
  lemma AddOutcome(limits: Limits, s: Store, m: ChatMessage)
    requires Invariant(s)
    ensures var (after, outcome) := Add(limits, s, m);
            && Invariant(after)
            && AtMost(s.marks, after.marks)
            && (outcome == Inserted <==>
                m.sequence <= MAX_SEQUENCE && !Clashes(s.table, m) && (Room(limits, s, m) || Room(limits, Prune(s), m)))
            && (outcome == Inserted ==>
                && after.marks == Raise(s.marks, m)
                && after.table == (if Room(limits, s, m) then s else Prune(s)).table + [m])
            && (outcome == Full <==> m.sequence <= MAX_SEQUENCE && !Clashes(s.table, m)
                                     && !Room(limits, s, m) && !Room(limits, Prune(s), m))
            && (outcome == Full ==> after == Prune(s))
            && (outcome == Ignored <==> m.sequence <= MAX_SEQUENCE && Clashes(s.table, m))
            && (outcome == Ignored ==> after == s)
            && (outcome == OutOfRange <==> m.sequence > MAX_SEQUENCE)
            && (outcome == OutOfRange ==> after == s)
  {
    PruneKeepsInvariant(s, m);
    InsertKeepsInvariant(limits, s, m);
    InsertKeepsInvariant(limits, Prune(s), m);
  }

  lemma PruneKeepsInvariant(s: Store, m: ChatMessage)
    requires Invariant(s)
    ensures Invariant(Prune(s))
    ensures Clashes(Prune(s).table, m) ==> Clashes(s.table, m)
  {
    var k := Min(PRUNE_COUNT, |s.table|);
    assert forall i :: 0 <= i < |Prune(s).table| ==> Prune(s).table[i] == s.table[k + i];
  }

  lemma InsertKeepsInvariant(limits: Limits, s: Store, m: ChatMessage)
    requires Invariant(s)
    ensures Invariant(Insert(limits, s, m).0)
    ensures AtMost(s.marks, Insert(limits, s, m).0.marks)
  {
    if Insert(limits, s, m).1 == Inserted {
      var after := Insert(limits, s, m).0;
      assert forall i :: 0 <= i < |s.table| ==> after.table[i] == s.table[i];
    }
  }
}
