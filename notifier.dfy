/** The usual optional value. */
module Wrappers {
  datatype Option<+T> = None | Some(value: T)
}

/**
  The notification text of the garage door firmware: notify formats
  "<door>:open" or "<door>:closed" into a 20-byte buffer, prints it on the
  console and publishes it on the topic "garageDoors".
 */
module Notifier {
  import opened Wrappers

  /** A door position as the firmware stores it: a bool, true meaning open. */
  type DoorState = bool
  const OPEN: DoorState := true
  const CLOSED: DoorState := false

  /** The topic every notification is published on. */
  const TOPIC: string := "garageDoors"

  /** Size of the char buffer notify formats into, terminator included. */
  const MESSAGE_BUFFER_SIZE: nat := 20

  /** A detected state change (or a startup announcement) of one door. */
  datatype Event = Event(door: int, state: DoorState)

  /** One publish request: topic and payload. */
  datatype Publication = Publication(topic: string, payload: string)

  /** What one call of notify produces: the console line and the publish request. */
  datatype Notification = Notification(consoleLine: string, publication: Publication)

  predicate IsDigit(c: char) {
    '0' <= c <= '9'
  }

  predicate AllDigits(s: string) {
    forall i :: 0 <= i < |s| ==> IsDigit(s[i])
  }

  function DigitChar(d: nat): char
    requires d < 10
  {
    ('0' as int + d) as char
  }

  function DigitValue(c: char): nat
    requires IsDigit(c)
  {
    c as int - '0' as int
  }

  function Pow10(k: nat): nat {
    if k == 0 then 1 else 10 * Pow10(k - 1)
  }

  /** Decimal digits of n, most significant first, without leading zeros. */
  function NatToString(n: nat): (s: string)
    ensures |s| > 0 && AllDigits(s)
    decreases n
  {
    if n < 10 then [DigitChar(n)] else NatToString(n / 10) + [DigitChar(n % 10)]
  }

  /** The "%d" conversion: a minus sign for a negative value, then the digits of its magnitude. */
  function IntToString(n: int): string {
    if n < 0 then "-" + NatToString(-n) else NatToString(n)
  }

  /** Value of a digit string read most significant first. */
  function DigitsValue(s: string): nat
    requires AllDigits(s)
    decreases |s|
  {
    if s == [] then 0 else 10 * DigitsValue(s[..|s| - 1]) + DigitValue(s[|s| - 1])
  }

  function ParseNat(s: string): Option<nat> {
    if s != [] && AllDigits(s) then Some(DigitsValue(s)) else None
  }

  /** Reads back what "%d" writes. */
  function ParseInt(s: string): Option<int> {
    if |s| > 0 && s[0] == '-' then
      match ParseNat(s[1..])
      case Some(n) => Some(-(n as int))
      case None => None
    else
      match ParseNat(s)
      case Some(n) => Some(n)
      case None => None
  }

  /** The text notify formats with sprintf(message, "%d:%s", door, state == OPEN ? "open" : "closed"). */
  function Message(door: int, state: DoorState): string {
    IntToString(door) + ":" + (if state == OPEN then "open" else "closed")
  }

  /** Reads a notification payload back into the event it announces. */
  function ParseMessage(s: string): Option<Event> {
    if |s| >= 5 && s[|s| - 5..] == ":open" then
      match ParseInt(s[..|s| - 5])
      case Some(n) => Some(Event(n, OPEN))
      case None => None
    else if |s| >= 7 && s[|s| - 7..] == ":closed" then
      match ParseInt(s[..|s| - 7])
      case Some(n) => Some(Event(n, CLOSED))
      case None => None
    else
      None
  }

  lemma {:induction false} NatRoundTrip(n: nat)
    ensures ParseNat(NatToString(n)) == Some(n)
    decreases n
  {
    var s := NatToString(n);
    if n < 10 {
      assert s == [DigitChar(n)] && s[..0] == [];
      assert DigitsValue(s) == 10 * DigitsValue(s[..0]) + DigitValue(s[0]);
    } else {
      NatRoundTrip(n / 10);
      assert s[..|s| - 1] == NatToString(n / 10);
      assert DigitValue(s[|s| - 1]) == n % 10;
    }
  }

  lemma IntRoundTrip(n: int)
    ensures ParseInt(IntToString(n)) == Some(n)
  {
    if n < 0 {
      var s := IntToString(n);
      assert s[1..] == NatToString(-n);
      NatRoundTrip(-n);
    } else {
      NatRoundTrip(n);
    }
  }

  /** The payload names its door and its state unambiguously. */
  lemma MessageRoundTrip(door: int, state: DoorState)
    ensures ParseMessage(Message(door, state)) == Some(Event(door, state))
  {
    var digits := IntToString(door);
    var s := Message(door, state);
    IntRoundTrip(door);
    if state == OPEN {
      assert s[|s| - 5..] == ":open";
      assert s[..|s| - 5] == digits;
    } else {
      assert s[|s| - 5..] == "losed";
      assert s[|s| - 7..] == ":closed";
      assert s[..|s| - 7] == digits;
    }
  }

  /** Two notifications with the same text announce the same door and state. */
  lemma MessageInjective(door1: int, state1: DoorState, door2: int, state2: DoorState)
    requires Message(door1, state1) == Message(door2, state2)
    ensures door1 == door2 && state1 == state2
  {
    MessageRoundTrip(door1, state1);
    MessageRoundTrip(door2, state2);
  }

  lemma {:induction false} NatToStringLength(n: nat, k: nat)
    requires 1 <= k && n < Pow10(k)
    ensures |NatToString(n)| <= k
    decreases k
  {
    if n >= 10 {
      assert k >= 2;
      assert n / 10 < Pow10(k - 1);
      NatToStringLength(n / 10, k - 1);
    }
  }

  /** For every value of a 32-bit int door, the text and its terminator fit the 20-byte buffer. */
  lemma MessageFitsBuffer(door: int, state: DoorState)
    requires -0x8000_0000 <= door < 0x8000_0000
    ensures |Message(door, state)| + 1 <= MESSAGE_BUFFER_SIZE
  {
    assert Pow10(10) == 10_000_000_000;
    NatToStringLength(if door < 0 then -door else door, 10);
  }

  /** The payloads of the two doors this firmware has. */
  lemma MessageExamples()
    ensures Message(1, OPEN) == "1:open" && Message(1, CLOSED) == "1:closed"
    ensures Message(2, OPEN) == "2:open" && Message(2, CLOSED) == "2:closed"
    ensures |Message(2, CLOSED)| + 1 == 9
  {
  }

  /** What notify(door, state) prints and publishes. */
  function NotificationFor(door: int, state: DoorState): (n: Notification)
    ensures n.publication.topic == TOPIC
    ensures n.consoleLine == n.publication.payload + "\n"
  {
    var message := Message(door, state);
    Notification(message + "\n", Publication(TOPIC, message))
  }

  /**
    notify prints and publishes the same text, on the fixed topic, and that
    text announces exactly the door and state it was called with; within the
    firmware's int range it never overruns the buffer.
   */
  lemma NotificationMeaning(door: int, state: DoorState)
    requires -0x8000_0000 <= door < 0x8000_0000
    ensures var n := NotificationFor(door, state);
      && n.publication.topic == TOPIC
      && n.consoleLine == n.publication.payload + "\n"
      && ParseMessage(n.publication.payload) == Some(Event(door, state))
      && |n.publication.payload| < MESSAGE_BUFFER_SIZE
  {
    MessageRoundTrip(door, state);
    MessageFitsBuffer(door, state);
  }
}
