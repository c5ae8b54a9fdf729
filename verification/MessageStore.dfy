/**
 * `MessageStore` (message_store.cpp): rows keyed by AUTOINCREMENT storage ids, the
 * sequences table, and the in-memory copy that answers reads. Every operation is
 * proved to be the one in StoreModel, with the copy equal to the table afterwards.
 */
module MessageStores {
  import opened Messages
  import opened StoreModel

  type Rows = map<nat, ChatMessage>

  /** The rows with storage id at most `last`, ORDER BY storage_id. */
  function InOrder(rows: Rows, last: nat): seq<ChatMessage> {
    if last == 0 then []
    else InOrder(rows, last - 1) + (if last in rows then [rows[last]] else [])
  }

  /** Rows whose id is above `cut`. */
  function Above(rows: Rows, cut: nat): Rows {
    map id | id in rows && id > cut :: rows[id]
  }

  lemma {:induction false} InOrderDependsOnRows(a: Rows, b: Rows, last: nat)
    requires forall id :: 1 <= id <= last ==> (id in a <==> id in b) && (id in a ==> a[id] == b[id])
    ensures InOrder(a, last) == InOrder(b, last)
  {
    if last > 0 {
      InOrderDependsOnRows(a, b, last - 1);
    }
  }

  /** Deleting the ids up to a cut drops exactly the messages they held, from the front. */
  lemma {:induction false} InOrderAboveCut(rows: Rows, cut: nat, last: nat)
    requires cut <= last
    ensures |InOrder(rows, cut)| <= |InOrder(rows, last)|
    ensures InOrder(Above(rows, cut), last) == InOrder(rows, last)[|InOrder(rows, cut)|..]
  {
    if last > cut {
      InOrderAboveCut(rows, cut, last - 1);
    } else {
      NothingBelowCut(rows, cut, cut);
    }
  }

  lemma {:induction false} NothingBelowCut(rows: Rows, cut: nat, last: nat)
    requires last <= cut
    ensures InOrder(Above(rows, cut), last) == []
  {
    if last > 0 {
      NothingBelowCut(rows, cut, last - 1);
    }
  }

  lemma {:induction false} InOrderMember(rows: Rows, last: nat, m: ChatMessage)
    ensures m in InOrder(rows, last) <==> exists id :: 1 <= id <= last && id in rows && rows[id] == m
  {
    if last > 0 {
      InOrderMember(rows, last - 1, m);
    }
  }

  /** The `sequences` table as the file holds it: any 64-bit integers. */
  type Lasts = map<string, int>

  /** The marks that operations go by; a negative one is refused wherever it is read. */
  function Counted(lasts: Lasts): Marks {
    map origin | origin in lasts && lasts[origin] >= 0 :: lasts[origin]
  }

  predicate AllCounted(lasts: Lasts) {
    forall origin :: origin in lasts ==> lasts[origin] >= 0
  }

  /** ON CONFLICT DO UPDATE SET last_sequence = MAX(..) raises the mark. */
  function Raised(lasts: Lasts, m: ChatMessage): Lasts {
    lasts[m.origin := if m.origin in lasts then Max(lasts[m.origin], m.sequence) else m.sequence]
  }

  lemma RaisedIsRaise(lasts: Lasts, m: ChatMessage)
    ensures Counted(Raised(lasts, m)) == Raise(Counted(lasts), m)
    ensures AllCounted(lasts) ==> AllCounted(Raised(lasts, m))
  {
  }

  datatype Sequenced = NextIs(sequence: Sequence) | InvalidSequence

  datatype Summarised = MarksRead(marks: Marks) | InvalidMarks

  class MessageStore {
    const limits: Limits
    var rows: Rows
    var lastStorageId: nat
    var sequences: Lasts
    var messages: seq<ChatMessage>

    ghost predicate Valid()
      reads this
    {
      && (forall id :: id in rows ==> 1 <= id <= lastStorageId)
      && messages == InOrder(rows, lastStorageId)
    }

    function State(): Store
      reads this
    {
      Store(InOrder(rows, lastStorageId), Counted(sequences))
    }

    predicate MarksReadable()
      reads this
    {
      AllCounted(sequences)
    }

    /** No next sequence can be given: the last one is negative, or no higher one fits 64 bits. */
    predicate UsedUp(origin: string)
      reads this
    {
      origin in sequences && (sequences[origin] < 0 || sequences[origin] == MAX_SEQUENCE)
    }

    /** A new, empty database file. */
    constructor (limits: Limits)
      ensures Valid() && State() == EMPTY && this.limits == limits
    {
      this.limits := limits;
      rows, lastStorageId, sequences, messages := map[], 0, map[], [];
    }

    /** Opens a database file that another process lifetime left behind. */
    constructor Reopen(limits: Limits, rows: Rows, lastStorageId: nat, sequences: Lasts)
      requires forall id :: id in rows ==> 1 <= id <= lastStorageId
      ensures Valid() && this.limits == limits && this.sequences == sequences && this.rows == rows
      ensures State() == Store(InOrder(rows, lastStorageId), Counted(sequences))
    {
      this.limits := limits;
      this.rows, this.lastStorageId, this.sequences, messages := rows, lastStorageId, sequences, [];
      new;
      LoadMessages();
    }

    /** Whatever the copy held before, afterwards it is the table in storage order. */
    method LoadMessages()
      requires forall id :: id in rows ==> 1 <= id <= lastStorageId
      modifies this`messages
      ensures Valid()
    {
      messages := [];
      var id := 0;
      while id < lastStorageId
        invariant id <= lastStorageId
        invariant messages == InOrder(rows, id)
      {
        id := id + 1;
        if id in rows {
          messages := messages + [rows[id]];
        }
      }
    }

    method Contains(messageId: string) returns (found: bool)
      requires Valid()
      ensures found <==> exists i :: 0 <= i < |State().table| && State().table[i].id == messageId
    {
      ghost var table := State().table;
      found := exists id :: id in rows && rows[id].id == messageId;
      if found {
        var id :| id in rows && rows[id].id == messageId;
        InOrderMember(rows, lastStorageId, rows[id]);
        ghost var i :| 0 <= i < |table| && table[i] == rows[id];
      } else {
        forall i | 0 <= i < |table| ensures table[i].id != messageId {
          InOrderMember(rows, lastStorageId, table[i]);
        }
      }
    }

    /** The UNIQUE constraints as the database checks them, row by row. */
    predicate Conflicts(m: ChatMessage)
      reads this
    {
      exists id :: id in rows && (rows[id].id == m.id || SameKey(rows[id], m))
    }

    lemma ConflictsIsClash(m: ChatMessage)
      requires Valid()
      ensures Conflicts(m) <==> Clashes(State().table, m)
    {
      var table := State().table;
      if Conflicts(m) {
        var id :| id in rows && (rows[id].id == m.id || SameKey(rows[id], m));
        InOrderMember(rows, lastStorageId, rows[id]);
        var i :| 0 <= i < |table| && table[i] == rows[id];
      }
      if Clashes(table, m) {
        var i :| 0 <= i < |table| && (table[i].id == m.id || SameKey(table[i], m));
        InOrderMember(rows, lastStorageId, table[i]);
      }
    }

    /** BEGIN IMMEDIATE, INSERT OR IGNORE, raise the mark, COMMIT; ROLLBACK on any failure. */
    method InsertMessage(m: ChatMessage) returns (outcome: Outcome)
      requires Valid()
      modifies this`rows, this`lastStorageId, this`sequences
      ensures (State(), outcome) == Insert(limits, old(State()), m)
      ensures outcome == OutOfRange <==> m.sequence > 0x7FFF_FFFF_FFFF_FFFF
      ensures outcome == Ignored <==>
                && m.sequence <= 0x7FFF_FFFF_FFFF_FFFF
                && exists id ::
                     id in old(rows) && (|| old(rows)[id].id == m.id
                                         || (old(rows)[id].origin == m.origin && old(rows)[id].sequence == m.sequence))
      ensures outcome == Full ==>
                || limits.usage(old(State()).table + [m], old(State()).marks) > limits.capacity
                || limits.usage(old(State()).table + [m], Raise(old(State()).marks, m)) > limits.capacity
      ensures outcome == Inserted ==>
                && limits.usage(old(State()).table + [m], old(State()).marks) <= limits.capacity
                && limits.usage(State().table, State().marks) <= limits.capacity
                && lastStorageId == old(lastStorageId) + 1 && rows == old(rows)[lastStorageId := m]
                && sequences.Keys == old(sequences).Keys + {m.origin}
                && sequences[m.origin] >= m.sequence
                && (m.origin in old(sequences) ==> sequences[m.origin] >= old(sequences)[m.origin])
                && (sequences[m.origin] == m.sequence
                    || (m.origin in old(sequences) && sequences[m.origin] == old(sequences)[m.origin]))
                && forall origin :: origin in old(sequences) && origin != m.origin ==>
                     sequences[origin] == old(sequences)[origin]
      ensures outcome != Inserted ==>
                rows == old(rows) && lastStorageId == old(lastStorageId) && sequences == old(sequences)
      ensures forall id :: id in rows ==> 1 <= id <= lastStorageId
      ensures outcome != Inserted ==> Valid()
      ensures outcome == Inserted ==> InOrder(rows, lastStorageId) == messages + [m]
      ensures old(MarksReadable()) ==> MarksReadable()
    {
      var rowsBefore, idBefore, sequencesBefore := rows, lastStorageId, sequences;
      ConflictsIsClash(m);
      if m.sequence > MAX_SEQUENCE {
        return OutOfRange;
      }
      if Conflicts(m) {
        return Ignored;
      }
      lastStorageId := lastStorageId + 1;
      rows := rows[lastStorageId := m];
      InOrderDependsOnRows(rows, rowsBefore, idBefore);
      if limits.usage(InOrder(rows, lastStorageId), Counted(sequences)) > limits.capacity {
        rows, lastStorageId := rowsBefore, idBefore;
        return Full;
      }
      RaisedIsRaise(sequences, m);
      sequences := Raised(sequences, m);
      if limits.usage(InOrder(rows, lastStorageId), Counted(sequences)) > limits.capacity {
        rows, lastStorageId, sequences := rowsBefore, idBefore, sequencesBefore;
        return Full;
      }
      return Inserted;
    }

    /** DELETE of the rows with the 100 lowest storage ids, then a reload. */
    method PruneOldestMessages()
      requires Valid()
      modifies this`rows, this`messages
      ensures Valid() && State() == Prune(old(State()))
      ensures State().table == Younger(old(State()).table)
    {
      var id, removed := 0, 0;
      var kept := rows;
      while id < lastStorageId && removed < PRUNE_COUNT
        invariant id <= lastStorageId && removed <= PRUNE_COUNT
        invariant kept == Above(rows, id)
        invariant removed == |InOrder(rows, id)|
      {
        id := id + 1;
        if id in kept {
          removed := removed + 1;
        }
        kept := kept - {id};
      }
      InOrderAboveCut(rows, id, lastStorageId);
      rows := kept;
      LoadMessages();
    }

    method Add(m: ChatMessage) returns (outcome: Outcome)
      requires Valid()
      modifies this
      ensures Valid() && (old(MarksReadable()) ==> MarksReadable())
      ensures (State(), outcome) == StoreModel.Add(limits, old(State()), m)
      ensures outcome == Ignored <==> m.sequence <= 0x7FFF_FFFF_FFFF_FFFF && Repeats(old(State()), m)
      ensures outcome == OutOfRange <==> m.sequence > 0x7FFF_FFFF_FFFF_FFFF
      ensures outcome == Full <==>
                && m.sequence <= 0x7FFF_FFFF_FFFF_FFFF && !Repeats(old(State()), m)
                && !Takes(limits, old(State()).table, old(State()).marks, m)
                && !Takes(limits, Younger(old(State()).table), old(State()).marks, m)
    {
      AddExactly(limits, State(), m);
      outcome := InsertMessage(m);
      if outcome == Inserted {
        messages := messages + [m];
      }
      if outcome != Full {
        return;
      }
      PruneOldestMessages();
      outcome := InsertMessage(m);
      if outcome == Inserted {
        messages := messages + [m];
      }
    }

    method NextSequence(origin: string) returns (next: Sequenced)
      ensures next.InvalidSequence? <==> UsedUp(origin)
      ensures next.NextIs? ==> next.sequence == Mark(State().marks, origin) + 1
      ensures next.NextIs? ==> next.sequence == if origin in sequences then sequences[origin] + 1 else 1
    {
      if origin !in sequences {
        return NextIs(1);
      }
      var last := sequences[origin];
      if last < 0 || last == MAX_SEQUENCE {
        return InvalidSequence;
      }
      return NextIs(last + 1);
    }

    /** Refused as a whole if any mark is negative. */
    method SequenceSummary() returns (summary: Summarised)
      ensures summary == if MarksReadable() then MarksRead(State().marks) else InvalidMarks
      ensures summary.MarksRead? <==> forall origin :: origin in sequences ==> sequences[origin] >= 0
      ensures summary.MarksRead? ==>
                && summary.marks.Keys == sequences.Keys
                && forall origin :: origin in sequences ==> summary.marks[origin] == sequences[origin]
    {
      var marks: Marks, origins := map[], sequences.Keys;
      while origins != {}
        invariant origins <= sequences.Keys
        invariant forall origin :: origin in sequences && origin !in origins ==> sequences[origin] >= 0
        invariant marks == map origin | origin in Counted(sequences) && origin !in origins :: sequences[origin]
        decreases origins
      {
        var origin :| origin in origins;
        if sequences[origin] < 0 {
          return InvalidMarks;
        }
        marks := marks[origin := sequences[origin]];
        origins := origins - {origin};
      }
      assert marks == Counted(sequences);
      return MarksRead(marks);
    }
  }

  /** A row as the file holds it: any 64-bit integer in the sequence column, and the message of the other columns. */
  datatype FileRow = FileRow(sequence: int, message: ChatMessage)

  /** The readable rows: those whose sequence is one. */
  function Readable(file: map<nat, FileRow>): Rows {
    map id | id in file && file[id].sequence >= 1 :: file[id].message.(sequence := file[id].sequence)
  }

  /** Opening a file: `load_messages` stops the start if any sequence is below 1, and otherwise loads every row. */
  method OpenDatabase(limits: Limits, file: map<nat, FileRow>, lastStorageId: nat, sequences: Lasts)
    returns (store: MessageStore?)
    requires forall id :: id in file ==> 1 <= id <= lastStorageId
    ensures store == null <==> exists id :: id in file && file[id].sequence < 1
    ensures store != null ==>
              && fresh(store) && store.Valid() && store.limits == limits
              && store.State() == Store(InOrder(Readable(file), lastStorageId), Counted(sequences))
              && store.rows.Keys == file.Keys && store.sequences == sequences
              && forall id :: id in file ==>
                   && store.rows[id].sequence == file[id].sequence && store.rows[id].id == file[id].message.id
                   && store.rows[id].origin == file[id].message.origin
                   && store.rows[id].callsign == file[id].message.callsign
                   && store.rows[id].channel == file[id].message.channel
                   && store.rows[id].createdAtMs == file[id].message.createdAtMs
                   && store.rows[id].body == file[id].message.body
  {
    var rows: Rows, id := map[], 0;
    while id < lastStorageId
      invariant id <= lastStorageId
      invariant forall i :: i in file && i <= id ==> file[i].sequence >= 1
      invariant rows == map i | i in Readable(file) && i <= id :: Readable(file)[i]
    {
      id := id + 1;
      if id in file {
        if file[id].sequence < 1 {
          return null;
        }
        rows := rows[id := file[id].message.(sequence := file[id].sequence)];
      }
    }
    assert rows == Readable(file);
    store := new MessageStore.Reopen(limits, rows, lastStorageId, sequences);
  }

  /** Closing and reopening the file is invisible: same messages, same order, same marks. */
  method CloseAndReopen(store: MessageStore) returns (again: MessageStore)
    requires store.Valid()
    ensures fresh(again) && again.Valid() && again.limits == store.limits
    ensures again.messages == store.messages && again.State() == store.State() && again.sequences == store.sequences
  {
    again := new MessageStore.Reopen(store.limits, store.rows, store.lastStorageId, store.sequences);
  }
}
