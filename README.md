# Garage door sensors: a verified model of the firmware core

The firmware watches two garage doors from an ESP8266. At startup it
announces both doors as closed. It then runs its main loop forever. Each
pass samples the two door inputs (nonzero means open). It compares each
sample with the state it stored for that door. When they differ, it stores
the sample and sends a notification. A notification is the text
`"<door>:open"` or `"<door>:closed"`. The firmware prints it on the console
and publishes it on the MQTT topic `garageDoors`. Whenever the broker
session is down, the loop first runs a bounded reconnect loop.

The model has three modules, one per piece of that logic:

- `Notifier` (`notifier.dfy`) is pure. It holds the message format (`%d`
  formatting written out as `IntToString`) and a parser that inverts it.
  It shows the text round-trips and fits the 20-byte buffer `notify` uses.
  It also defines `NotificationFor`, what one `notify` call prints and
  publishes.
- `DoorMonitor` (`door_monitor.dfy`) has the class `Monitor`. Its fields
  `door1` and `door2` are the two `static` locals of `loop`. It also
  records the publish requests made and the milliseconds paused.
  `Setup`, `Notify` and `Poll` are `setup`, `notify` and the door part of
  `loop`. The pure functions `PollEvents`, `LoopEvents` and `Trace` specify
  them. `Changes` and `AdjacentDifferences` give a separate per-door
  account, and lemmas connect the two. `Run` stands in for the Arduino
  runtime: it calls `setup` once and then `loop` once per reading, over a
  finite list of readings.
- `MqttReconnect` (`mqtt_reconnect.dfy`) has `ConnectToMqtt`, a loop over
  the same retry counter as the source. An oracle sequence supplies the
  result of each connect attempt.

Hardware reads and connect results are parameters. The publish call is
recorded as a `(topic, payload)` value appended to a log. Delays are
counted in milliseconds.

The reconnect counter starts at 20, but the `--retry` in
`!connected() && --retry` runs before each attempt, so the loop makes at
most 19 attempts. The model keeps that behaviour: `MAX_ATTEMPTS` is 19, and
a complete failure costs 19 × 2000 ms.

## Model

| member | source | states |
|---|---|---|
| `Notifier.NatToString` | src/garageDoors.cpp:87 | the `%d` digits of a natural number form a non-empty string of decimal digits |
| `Notifier.NatRoundTrip` | src/garageDoors.cpp:87 | reading back the digits `%d` writes for a natural number gives that number |
| `Notifier.IntRoundTrip` | src/garageDoors.cpp:87 | reading back what `%d` writes for any int, sign included, gives that int |
| `Notifier.MessageRoundTrip` | src/garageDoors.cpp:87 | a formatted message parses back to exactly the door and state it was made from |
| `Notifier.MessageInjective` | src/garageDoors.cpp:87 | two notifications with the same text are for the same door and the same state |
| `Notifier.NatToStringLength` | src/garageDoors.cpp:86-87 | a number below 10^k has at most k digits |
| `Notifier.MessageFitsBuffer` | src/garageDoors.cpp:86-87 | for every 32-bit door number, the text plus its terminator fits the 20-char buffer |
| `Notifier.MessageExamples` | src/garageDoors.cpp:87 | doors 1 and 2 give "1:open", "1:closed", "2:open", "2:closed"; the longest takes 9 of the 20 chars |
| `Notifier.NotificationFor` | src/garageDoors.cpp:84-90 | notify publishes on topic "garageDoors" and prints the published payload followed by a newline |
| `Notifier.NotificationMeaning` | src/garageDoors.cpp:84-90 | the printed and published text is one string, on the fixed topic, naming exactly the door and state notify was called with, shorter than the buffer |
| `DoorMonitor.Samples` | src/garageDoors.cpp:61-68 | a door's samples, one per pass, each the open/closed reading of that door's raw input |
| `DoorMonitor.PollEventsMeaning` | src/garageDoors.cpp:61-73 | in one pass, a door is announced iff its sample differs from its stored state, then once and with the sample; only doors 1 and 2 appear; door 1 comes before door 2 |
| `DoorMonitor.OfDoorAppend` | src/garageDoors.cpp:61-73 | the notifications for one door out of two consecutive stretches are that door's notifications of the first, then of the second |
| `DoorMonitor.ChangesCount` | src/garageDoors.cpp:62-73 | a door's change events number exactly the adjacent differences in its sequence of states |
| `DoorMonitor.ChangesLast` | src/garageDoors.cpp:62-73 | a door's last announcement carries the last state it was sampled in |
| `DoorMonitor.LoopEventsOfDoor` | src/garageDoors.cpp:50-76 | over many passes of loop, one door's notifications are exactly one event per change along its samples, starting from its stored state; the other door does not affect them |
| `DoorMonitor.TraceOfDoor` | src/garageDoors.cpp:36-76 | each door is announced closed at startup, then once per change along CLOSED, s1, s2, ... |
| `DoorMonitor.NotificationCount` | src/garageDoors.cpp:36-76 | a door's notification count is 1 plus the number of adjacent differences in CLOSED, s1, s2, ...; its last notification reports its latest sample |
| `DoorMonitor.Monitor.Setup` | src/garageDoors.cpp:36-52 | both stored states start CLOSED, and publishing "1:closed" then "2:closed" is requested whatever the inputs read |
| `DoorMonitor.Monitor.Notify` | src/garageDoors.cpp:84-90 | one notify call appends its one publication (topic "garageDoors", formatted payload) to the publish log |
| `DoorMonitor.Monitor.Poll` | src/garageDoors.cpp:50-76 | one pass of loop: events are PollEvents of the old stored states; each stored state becomes its door's sample (nonzero is OPEN); one publication per event, in order; 1000 ms paused |
| `DoorMonitor.Run` | src/garageDoors.cpp:36-76 | setup followed by one loop pass per reading announces exactly Trace(readings) and publishes one message per announcement |
| `MqttReconnect.FailuresAllFailed` | src/garageDoors.cpp:184-189 | when every attempt fails, each one adds a pause |
| `MqttReconnect.ConnectToMqtt` | src/garageDoors.cpp:166-196 | at most 19 attempts; none if already connected; every attempt but the last failed; stops right after the first success; gives up only after 19 failures; 2000 ms per failed attempt and none for a success (38000 ms for a complete failure); failure message printed iff not connected iff all 19 attempts failed |

## Left out

- WiFi bring-up and the reboot loop (src/garageDoors.cpp:101-129) are radio I/O followed by a device restart.
- XXTEA encryption and decryption, and the `getBytes` copies of the credentials, are not modelled. The cipher library and the credential header `wifiConfig.h` are not part of this model, so there is no visible code to ground a round-trip on.
- The over-the-air update callbacks (src/garageDoors.cpp:134-158) only log to the console for an external updater.
- The inbound message `callback` (src/garageDoors.cpp:203-213) only prints the received bytes.
- MQTT client internals are not modelled: `connected`, `connect`, `loop`, `publish` and `state`. The result of each `connect` is an oracle input. `publish` is recorded as a request, whether or not the session is up, because its return value is ignored.
- `DoorMonitor.Monitor.Poll` models only the door part of `loop`. The reconnect check at src/garageDoors.cpp:54-57 is modelled on its own by `ConnectToMqtt` and is not composed with `Poll`. `mqttClient.loop()` and `ArduinoOTA.handle()` are external calls.
- Console text other than the notification line is not modelled: the "Connecting to MQTT...", "connected" and "failed with state N" lines, and the server and port in the final failure message. The server and port come from `wifiConfig.h`.
- Real time is not modelled. The `delay` calls only add to a millisecond count, and `Serial.begin`/`pinMode` are left out.
- `Notifier.IntToString`: the door number is an unbounded int. The 32-bit range of C's `int` appears only in the preconditions of `MessageFitsBuffer` and `NotificationMeaning`, because `notify` is only ever called with 1 or 2.
- `DoorMonitor.Monitor.Setup`: the log records publish requests, not deliveries. Setup's two publish calls (src/garageDoors.cpp:41-42) happen before any connect attempt, because `connectToMqtt` first runs from `loop` (src/garageDoors.cpp:54-56). With no broker session, those two messages do not reach the broker. The model has no session flag, so it logs them the same way as the requests `loop` makes.
- `MqttReconnect.ConnectToMqtt` requires at least 19 oracle outcomes so that every attempt the loop can make has a result.
- `MqttReconnect.ConnectToMqtt`: the loop test at src/garageDoors.cpp:176 calls `connected()`, not the result of `connect`. The model assumes `connected()` is true on entry exactly when `alreadyConnected` holds, and after that is true exactly once a `connect` attempt has succeeded. A session that drops or comes up by itself during the loop is not modelled.
