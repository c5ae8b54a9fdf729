/**
 * The chat message and the limits of the wire protocol (message.hpp, protocol.hpp).
 * A C++ string is a byte string: each `char` stands for one byte.
 */
module Messages {

  /** Sequences start at 1: `next_sequence` never yields 0 and `parse_message` refuses it. */
  type Sequence = n: int | 1 <= n witness 1

  const MAX_SEQUENCE: int := 0x7FFF_FFFF_FFFF_FFFF
  const MAX_MESSAGE_BYTES: nat := 2048
  const MAX_REQUEST_BYTES: nat := 4096
  const MAX_SYNC_REQUEST_BYTES: nat := 128 * 1024
  const MAX_SYNC_BATCH_MESSAGES: nat := 50
  const DEFAULT_CHANNEL: string := "les-manet"

  datatype ChatMessage = ChatMessage(
    sequence: Sequence,
    id: string,
    origin: string,
    callsign: string,
    channel: string,
    createdAtMs: int,
    body: string)

  /** `std::to_string` of an unsigned number. */
  function Decimal(n: nat): (s: string)
    ensures |s| > 0
    ensures forall i :: 0 <= i < |s| ==> '0' <= s[i] <= '9'
  {
    if n < 10 then [Digit(n)] else Decimal(n / 10) + [Digit(n % 10)]
  }

  function Digit(d: nat): (c: char)
    requires d < 10
    ensures '0' <= c <= '9' && c as int - '0' as int == d
  {
    ('0' as int + d) as char
  }

  function MessageId(node: string, sequence: nat): string {
    node + ":" + Decimal(sequence)
  }

  /** The number a digit string stands for: the left inverse of Decimal. */
  function DecimalValue(s: string): int {
    if s == [] then 0 else DecimalValue(s[..|s| - 1]) * 10 + (s[|s| - 1] as int - '0' as int)
  }

  /** The digits stand for the number, and there is no leading zero. */
  lemma {:induction false} DecimalRoundTrip(n: nat)
    ensures DecimalValue(Decimal(n)) == n
    ensures n > 0 ==> Decimal(n)[0] != '0'
    ensures Decimal(0) == "0"
  {
    if n < 10 {
      assert Decimal(n)[..0] == [];
    } else {
      DecimalRoundTrip(n / 10);
      assert Decimal(n)[..|Decimal(n)| - 1] == Decimal(n / 10);
    }
  }

  /** The colon before the digits is the last colon of an id. */
  lemma LastColon(node: string, sequence: nat)
    ensures var id := MessageId(node, sequence);
            && |node| < |id| && id[|node|] == ':'
            && forall k :: |node| < k < |id| ==> id[k] != ':'
  {
    var id := MessageId(node, sequence);
    assert forall k :: |node| < k < |id| ==> id[k] == Decimal(sequence)[k - |node| - 1];
  }

  /** Message ids are unique, for any node ids at all: an id splits at its last colon only. */
  lemma MessageIdInjective(a: string, i: nat, b: string, j: nat)
    requires MessageId(a, i) == MessageId(b, j)
    ensures a == b && i == j
  {
    var x, y := MessageId(a, i), MessageId(b, j);
    LastColon(a, i);
    LastColon(b, j);
    assert a == x[..|a|] && b == y[..|b|];
    assert Decimal(i) == x[|a| + 1..] && Decimal(j) == y[|b| + 1..];
    DecimalRoundTrip(i);
    DecimalRoundTrip(j);
  }

  /** The form of every message that `create_local` makes. */
  predicate Wellformed(m: ChatMessage) {
    m.id == MessageId(m.origin, m.sequence) && m.sequence <= MAX_SEQUENCE
  }

  predicate SameKey(a: ChatMessage, b: ChatMessage) {
    a.origin == b.origin && a.sequence == b.sequence
  }

  /** For well-formed messages the two UNIQUE constraints are one and the same. */
  lemma KeysAgree(a: ChatMessage, b: ChatMessage)
    requires Wellformed(a) && Wellformed(b)
    ensures a.id == b.id <==> SameKey(a, b)
  {
    if a.id == b.id {
      MessageIdInjective(a.origin, a.sequence, b.origin, b.sequence);
    }
  }
}
