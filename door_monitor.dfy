/**
  The door monitor of the garage door firmware: setup announces both doors
  as closed, and every pass of loop samples the two door inputs, compares
  each with the state it last stored for that door, and on a difference
  stores the sample and notifies.
 */
module DoorMonitor {
  import opened Notifier

  /** The raw values digitalRead returned for door 1 and door 2 in one pass of loop. */
  datatype Reading = Reading(raw1: int, raw2: int)

  /** The pause at the end of every pass of loop. */
  const LOOP_DELAY_MS: nat := 1000

  /** digitalRead(pin) ? OPEN : CLOSED */
  function Sample(raw: int): DoorState {
    if raw != 0 then OPEN else CLOSED
  }

  /** The sample of door 1 or door 2 in one reading. */
  function SampleOf(r: Reading, door: int): DoorState
    requires door == 1 || door == 2
  {
    Sample(if door == 1 then r.raw1 else r.raw2)
  }

  /** The events in `events` that concern `door`, in order. */
  function OfDoor(events: seq<Event>, door: int): seq<Event> {
    if events == [] then []
    else (if events[0].door == door then [events[0]] else []) + OfDoor(events[1..], door)
  }

  /** What setup announces, whatever the inputs read. */
  function StartupEvents(): seq<Event> {
    [Event(1, CLOSED), Event(2, CLOSED)]
  }

  /** The notifications one door produces in one pass: its sample against its stored state. */
  function DoorEvents(door: int, stored: DoorState, sample: DoorState): seq<Event> {
    if sample != stored then [Event(door, sample)] else []
  }

  /** The notifications of one pass of loop, given the stored states before it. */
  function PollEvents(stored1: DoorState, stored2: DoorState, r: Reading): seq<Event> {
    DoorEvents(1, stored1, Sample(r.raw1)) + DoorEvents(2, stored2, Sample(r.raw2))
  }

  /**
    In one pass, a door whose sample equals its stored state is not announced;
    a door whose sample differs is announced exactly once, with the sample;
    no other door is announced, and door 1 comes before door 2.
   */
  lemma PollEventsMeaning(stored1: DoorState, stored2: DoorState, r: Reading)
    ensures var events := PollEvents(stored1, stored2, r);
      && OfDoor(events, 1) == (if Sample(r.raw1) == stored1 then [] else [Event(1, Sample(r.raw1))])
      && OfDoor(events, 2) == (if Sample(r.raw2) == stored2 then [] else [Event(2, Sample(r.raw2))])
      && (forall i :: 0 <= i < |events| ==> events[i].door == 1 || events[i].door == 2)
      && (forall i, j :: 0 <= i < j < |events| ==> events[i].door < events[j].door)
  {
    var e1 := DoorEvents(1, stored1, Sample(r.raw1));
    var e2 := DoorEvents(2, stored2, Sample(r.raw2));
    OfDoorAppend(e1, e2, 1);
    OfDoorAppend(e1, e2, 2);
  }

  /** The notifications of successive passes of loop, from the given stored states. */
  function LoopEvents(stored1: DoorState, stored2: DoorState, readings: seq<Reading>): seq<Event>
    decreases |readings|
  {
    if readings == [] then []
    else
      PollEvents(stored1, stored2, readings[0])
      + LoopEvents(Sample(readings[0].raw1), Sample(readings[0].raw2), readings[1..])
  }

  /** Everything the firmware announces: setup, then one pass of loop per reading. */
  function Trace(readings: seq<Reading>): seq<Event> {
    StartupEvents() + LoopEvents(CLOSED, CLOSED, readings)
  }

  // An independent account, one door at a time.

  /** The samples one door gives over successive readings. */
  function Samples(readings: seq<Reading>, door: int): (s: seq<DoorState>)
    requires door == 1 || door == 2
    ensures |s| == |readings|
    ensures forall i :: 0 <= i < |readings| ==> s[i] == SampleOf(readings[i], door)
  {
    if readings == [] then [] else [SampleOf(readings[0], door)] + Samples(readings[1..], door)
  }

  /** One event for each sample that differs from the sample (or state) before it. */
  function Changes(door: int, prev: DoorState, samples: seq<DoorState>): seq<Event>
    decreases |samples|
  {
    if samples == [] then []
    else (if samples[0] != prev then [Event(door, samples[0])] else []) + Changes(door, samples[0], samples[1..])
  }

  /** The number of adjacent positions of s that hold different states. */
  function AdjacentDifferences(s: seq<DoorState>): nat {
    if |s| < 2 then 0 else (if s[0] != s[1] then 1 else 0) + AdjacentDifferences(s[1..])
  }

  function Last(s: seq<DoorState>): DoorState
    requires |s| > 0
  {
    s[|s| - 1]
  }

  lemma {:induction false} OfDoorAppend(a: seq<Event>, b: seq<Event>, door: int)
    ensures OfDoor(a + b, door) == OfDoor(a, door) + OfDoor(b, door)
    decreases |a|
  {
    if a != [] {
      assert (a + b)[1..] == a[1..] + b;
      OfDoorAppend(a[1..], b, door);
    } else {
      assert a + b == b;
    }
  }

  lemma {:induction false} ChangesCount(door: int, prev: DoorState, samples: seq<DoorState>)
    ensures |Changes(door, prev, samples)| == AdjacentDifferences([prev] + samples)
    decreases |samples|
  {
    if samples != [] {
      ChangesCount(door, samples[0], samples[1..]);
      assert ([prev] + samples)[1..] == [samples[0]] + samples[1..];
    }
  }

  /** The last event of a door's announcements reports the last state it was seen in. */
  lemma {:induction false} ChangesLast(door: int, prev: DoorState, samples: seq<DoorState>)
    ensures var evs := [Event(door, prev)] + Changes(door, prev, samples);
            evs[|evs| - 1] == Event(door, Last([prev] + samples))
    decreases |samples|
  {
    if samples != [] {
      var x, rest := samples[0], samples[1..];
      ChangesLast(door, x, rest);
      assert [x] + rest == samples;
      if x != prev {
        assert [Event(door, prev)] + Changes(door, prev, samples)
            == [Event(door, prev)] + ([Event(door, x)] + Changes(door, x, rest));
      }
    }
  }

  /** Projected on one door, loop's notifications are the changes along that door's samples. */
  lemma {:induction false} LoopEventsOfDoor(stored1: DoorState, stored2: DoorState, readings: seq<Reading>, door: int)
    requires door == 1 || door == 2
    ensures OfDoor(LoopEvents(stored1, stored2, readings), door)
         == Changes(door, if door == 1 then stored1 else stored2, Samples(readings, door))
    decreases |readings|
  {
    if readings != [] {
      var r := readings[0];
      var p := PollEvents(stored1, stored2, r);
      var rest := LoopEvents(Sample(r.raw1), Sample(r.raw2), readings[1..]);
      OfDoorAppend(p, rest, door);
      LoopEventsOfDoor(Sample(r.raw1), Sample(r.raw2), readings[1..], door);
      assert Samples(readings, door)[1..] == Samples(readings[1..], door);
    }
  }

  /** Door `door`'s announcements: the startup one, then one per change of its samples. */
  lemma TraceOfDoor(readings: seq<Reading>, door: int)
    requires door == 1 || door == 2
    ensures OfDoor(Trace(readings), door) == [Event(door, CLOSED)] + Changes(door, CLOSED, Samples(readings, door))
  {
    var startup := StartupEvents();
    OfDoorAppend(startup, LoopEvents(CLOSED, CLOSED, readings), door);
    assert OfDoor(startup, door) == [Event(door, CLOSED)];
    LoopEventsOfDoor(CLOSED, CLOSED, readings, door);
  }

  /**
    Each door is announced once at startup and once more for every adjacent
    difference in the sequence CLOSED, s1, s2, ... of its samples, and the
    last announcement is its latest state.
   */
  lemma NotificationCount(readings: seq<Reading>, door: int)
    requires door == 1 || door == 2
    ensures |OfDoor(Trace(readings), door)| == 1 + AdjacentDifferences([CLOSED] + Samples(readings, door))
    ensures var evs := OfDoor(Trace(readings), door);
            evs[|evs| - 1] == Event(door, Last([CLOSED] + Samples(readings, door)))
  {
    TraceOfDoor(readings, door);
    ChangesCount(door, CLOSED, Samples(readings, door));
    ChangesLast(door, CLOSED, Samples(readings, door));
  }

  /** What is published for a sequence of notifications. */
  function Publications(events: seq<Event>): seq<Publication>
    decreases |events|
  {
    if events == [] then []
    else [NotificationFor(events[0].door, events[0].state).publication] + Publications(events[1..])
  }

  /**
    The persistent state of the firmware's door monitor (the two static
    locals of loop), together with the publish requests notify has made and
    the time loop has paused. What notify prints is NotificationFor's
    console line for the same call.
   */
  class Monitor {
    var door1: DoorState
    var door2: DoorState
    var published: seq<Publication>
    var sleptMs: nat

    /** setup: both doors start closed and are announced as closed. */
    constructor Setup()
      ensures door1 == CLOSED && door2 == CLOSED
      ensures published == Publications(StartupEvents())
      ensures sleptMs == 0
    {
      door1, door2 := CLOSED, CLOSED;
      published, sleptMs := [], 0;
      new;
      Notify(1, CLOSED);
      Notify(2, CLOSED);
    }

    /**
      notify: records the publish request on the fixed topic. The line it
      prints is NotificationFor(door, state).consoleLine and is not kept here.
     */
    method Notify(door: int, state: DoorState)
      modifies this`published
      ensures published == old(published) + [NotificationFor(door, state).publication]
    {
      published := published + [NotificationFor(door, state).publication];
    }

    /** One pass of loop over the door inputs, which read raw1 and raw2. */
    method Poll(raw1: int, raw2: int) returns (events: seq<Event>)
      modifies this
      ensures events == PollEvents(old(door1), old(door2), Reading(raw1, raw2))
      ensures door1 == (raw1 != 0) && door2 == (raw2 != 0)
      ensures published == old(published) + Publications(events)
      ensures sleptMs == old(sleptMs) + LOOP_DELAY_MS
    {
      ghost var published0 := published;
      events := [];
      var state := if raw1 != 0 then OPEN else CLOSED;
      if state != door1 {
        door1 := state;
        Notify(1, door1);
        Emitted(events, Event(1, door1));
        events := events + [Event(1, door1)];
      }
      assert published == published0 + Publications(events);
      state := if raw2 != 0 then OPEN else CLOSED;
      if state != door2 {
        door2 := state;
        Notify(2, door2);
        Emitted(events, Event(2, door2));
        events := events + [Event(2, door2)];
      }
      sleptMs := sleptMs + LOOP_DELAY_MS;
    }
  }

  /** The logs grow by one notification's output when one event is appended. */
  lemma Emitted(events: seq<Event>, e: Event)
    ensures Publications(events + [e]) == Publications(events) + [NotificationFor(e.door, e.state).publication]
  {
    PublicationsAppend(events, [e]);
    assert [e][1..] == [];
  }

  lemma {:induction false} PublicationsAppend(a: seq<Event>, b: seq<Event>)
    ensures Publications(a + b) == Publications(a) + Publications(b)
    decreases |a|
  {
    if a == [] {
      assert a + b == b;
    } else {
      assert (a + b)[1..] == a[1..] + b;
      PublicationsAppend(a[1..], b);
    }
  }

  lemma LoopEventsStep(stored1: DoorState, stored2: DoorState, readings: seq<Reading>, i: nat)
    requires i < |readings|
    ensures LoopEvents(stored1, stored2, readings[i..])
         == PollEvents(stored1, stored2, readings[i])
            + LoopEvents(Sample(readings[i].raw1), Sample(readings[i].raw2), readings[i + 1..])
  {
  }

  /**
    The firmware run on a finite prefix of its inputs: setup, then one pass
    of loop per reading. Returns what was announced and what was published.
   */
  method Run(readings: seq<Reading>) returns (events: seq<Event>, published: seq<Publication>)
    ensures events == Trace(readings)
    ensures published == Publications(events)
  {
    var m := new Monitor.Setup();
    events := StartupEvents();
    ghost var trace := Trace(readings);
    var i := 0;
    while i < |readings|
      invariant 0 <= i <= |readings|
      invariant events + LoopEvents(m.door1, m.door2, readings[i..]) == trace
      invariant m.published == Publications(events)
    {
      var r := readings[i];
      LoopEventsStep(m.door1, m.door2, readings, i);
      ghost var rest := LoopEvents(Sample(r.raw1), Sample(r.raw2), readings[i + 1..]);
      var e := m.Poll(r.raw1, r.raw2);
      assert events + (e + rest) == (events + e) + rest;
      PublicationsAppend(events, e);
      events := events + e;
      i := i + 1;
    }
    assert readings[i..] == [];
    published := m.published;
  }
}
