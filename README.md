# Clicker game client: inbound-message dispatcher and local-state reconciliation

This project models the Android client of the clicker game (`MainActivity`) as a
state machine. The state has eight parts:

- the activity's private preferences, holding the stored player identity and the stored points;
- the in-memory `points` text;
- the texts of the points display and the clicks display;
- the enabled flags of the play and reset buttons;
- the log of commands handed to `sendMsg`;
- the log of snackbar messages.

The model covers these handlers:

- the WebSocket's `onMessage` callback: split the frame on every space, then `parse` dispatches on the first token;
- the `onOpen` handshake;
- `onStop`, which sends `exit` and persists the points;
- the two button listeners.

`Protocol` (protocol.dfy) gives the reference definition as pure functions over a
`State` record. `Activity.MainActivity` (activity.dfy) is a class with the same
fields, changed in place. Each of its methods follows its Kotlin counterpart step
by step and is proved to move `Snapshot()` exactly as the matching `Protocol`
function says. `ProtocolProperties` (protocol_properties.dfy) states the promises
of the client over `Protocol`:

- the identity is set once;
- the points and clicks displays keep their prior value on a rejected frame;
- the inbound tag vocabulary is closed;
- the handshake depends on the stored state;
- what teardown persists;
- invariants that hold across any run of events.

Two helper modules model the Kotlin library calls the handlers rely on:

- `Text` (text.dfy) models `String.split(" ")`, with its inverse `Join` and both round trips.
- `Numbers` (numbers.dfy) models `String.toInt()` as a partial parse. It accepts an optional sign, then a non-empty run of decimal digits, then requires the value to fit a 32-bit `Int`. It comes with a decimal printer and the round trip.

Modelling choices:

- A Kotlin exception is a `Failure(Fault)` in `Protocol` and a `fault`
  out-parameter in the class. Two things throw: indexing `message[1]` on a frame
  with one token, and `toInt` on a text that is not an integer. Each method's
  contract proves that a throwing path has changed nothing. `onMessage` drops the
  fault, because the socket's `onError` is empty. A malformed frame therefore
  leaves the whole state unchanged.
- Points are kept as the text received, not as a normalised number: `+7` and
  `007` parse to 7 (`ParsePaddedExamples`), and are stored and shown as typed.
- The resource strings are not part of this model, so their values are
  parameters (`Protocol.Resources`). These are `id_key`, `points_key`,
  `no_points` and `display_points_error`. Lemmas that need the two preference
  keys to differ say so with `DistinctKeys`.
- Writing a `null` points text to the preferences removes the key.

Behaviour of the code worth noting:

- A frame is split on every space, and only the second token is the argument.
  Anything after a second space is ignored.
- `:won` does no numeric check. It always shows `You won <t> points!`.
- The handshake sends only `ID <identity>` and then shows the stored points
  locally. No command requests the balance.
- Teardown writes the in-memory points only when an identity is stored. When
  no `:points` frame has arrived, the in-memory points are `null`, so teardown
  removes the stored points. The handshake does not load the stored points into
  memory, so an open followed by a stop with no `:points` frame in between drops
  the stored balance (`OpenThenStopDropsStoredPoints`).

## Model

| member | source | states |
|---|---|---|
| `Text.Split` | app/src/main/java/com/example/clickergame/MainActivity.kt:206 | `split(" ")` yields one more token than there are spaces, and no token contains a space |
| `Text.JoinSplit` | app/src/main/java/com/example/clickergame/MainActivity.kt:206 | joining the tokens with single spaces gives back the frame: no character is lost |
| `Text.SplitJoin` | app/src/main/java/com/example/clickergame/MainActivity.kt:206 | space-free tokens joined with spaces split back into exactly those tokens |
| `Text.SplitPrefix` | app/src/main/java/com/example/clickergame/MainActivity.kt:206 | a space-free prefix is glued onto the first token of what follows it |
| `Text.SplitNoSeparator` | app/src/main/java/com/example/clickergame/MainActivity.kt:206 | a frame without a space is a single token, so `message[1]` does not exist |
| `Text.SplitToken` | app/src/main/java/com/example/clickergame/MainActivity.kt:206 | a space-free token followed by a space is split off as its own token |
| `Text.SplitPair` | app/src/main/java/com/example/clickergame/MainActivity.kt:206 | `tag + " " + arg` with space-free parts arrives as exactly `[tag, arg]` |
| `Numbers.ParseInt` | app/src/main/java/com/example/clickergame/MainActivity.kt:110 | `toInt` succeeds only on sign-then-digits text with a value in the 32-bit range, and a negative result needs a leading `-` |
| `Numbers.ParseIntRejectsNonDigit` | app/src/main/java/com/example/clickergame/MainActivity.kt:129 | any character other than a digit or a leading sign makes `toInt` throw |
| `Numbers.ParseIntRejectsNoDigits` | app/src/main/java/com/example/clickergame/MainActivity.kt:129 | the empty text and a lone sign make `toInt` throw |
| `Numbers.ParseFormatInt` | app/src/main/java/com/example/clickergame/MainActivity.kt:110 | every 32-bit integer written in decimal parses back to itself |
| `Numbers.ParseFormatIntOutOfRange` | app/src/main/java/com/example/clickergame/MainActivity.kt:110 | the canonical decimal text of a value outside the 32-bit range makes `toInt` throw |
| `Numbers.DigitsValueZeros` | app/src/main/java/com/example/clickergame/MainActivity.kt:129 | leading zeros do not change the value of a run of digits |
| `Numbers.ParseSignedDigits` | app/src/main/java/com/example/clickergame/MainActivity.kt:129 | `""`, `"+"` or `"-"` followed by digits parses to the signed value of the digits whenever it fits 32 bits |
| `Numbers.ParsePadded` | app/src/main/java/com/example/clickergame/MainActivity.kt:129 | every optional sign, any number of leading zeros and the digits of `n` parse to the signed `n` whenever it fits 32 bits |
| `Numbers.ParseSignedDigitsOutOfRange` | app/src/main/java/com/example/clickergame/MainActivity.kt:129 | `""`, `"+"` or `"-"` followed by any digits (leading zeros included) whose signed value does not fit 32 bits makes `toInt` throw |
| `Numbers.ParsePaddedOutOfRange` | app/src/main/java/com/example/clickergame/MainActivity.kt:110 | every optional sign, any number of leading zeros and the digits of `n` make `toInt` throw when the signed `n` does not fit 32 bits |
| `Numbers.ParsePaddedExamples` | app/src/main/java/com/example/clickergame/MainActivity.kt:132-133 | `+7` and `007` parse to 7 and `-0` to 0, so `:points +7` is accepted and stores `+7` |
| `ProtocolProperties.FrameTokens` | app/src/main/java/com/example/clickergame/MainActivity.kt:205-206 | a frame `tag + " " + arg` reaches `parse` as exactly its tag and argument |
| `ProtocolProperties.IdFrame` | app/src/main/java/com/example/clickergame/MainActivity.kt:63-65 | `:id x` stores `x` exactly when no identity is stored, and otherwise changes nothing |
| `ProtocolProperties.IdSetOnceScenario` | app/src/main/java/com/example/clickergame/MainActivity.kt:81-91 | `:id U99` then `:id U100` on a fresh install leaves `U99` stored |
| `ProtocolProperties.PointsFrame` | app/src/main/java/com/example/clickergame/MainActivity.kt:128-135 | `:points t` sets the in-memory points and the display to exactly `t` iff `toInt(t) >= 0`, and otherwise changes nothing (non-numeric included) |
| `ProtocolProperties.PointsScenario` | app/src/main/java/com/example/clickergame/MainActivity.kt:57-58 | `:points 7` then `:points -3` leaves points and display at `7` |
| `ProtocolProperties.NextFrame` | app/src/main/java/com/example/clickergame/MainActivity.kt:109-114 | `:next t` shows `t` iff `0 <= toInt(t) <= 10`, and otherwise changes nothing |
| `ProtocolProperties.NextScenario` | app/src/main/java/com/example/clickergame/MainActivity.kt:54-55 | `:next 15` leaves the whole state unchanged |
| `ProtocolProperties.NoPointsFrame` | app/src/main/java/com/example/clickergame/MainActivity.kt:103-107 | a `:nopoints` frame shows the no-points text, enables reset, disables play and changes nothing else, whatever follows the tag |
| `ProtocolProperties.NoPointsBareFrame` | app/src/main/java/com/example/clickergame/MainActivity.kt:60-61 | the bare frame `:nopoints` has that effect |
| `ProtocolProperties.WonFrame` | app/src/main/java/com/example/clickergame/MainActivity.kt:137-143 | `:won t` only appends `You won t points!` to the notifications, with no numeric check |
| `ProtocolProperties.UnknownFrameIgnored` | app/src/main/java/com/example/clickergame/MainActivity.kt:66-67 | a `null` frame, or a frame whose first token is not one of the five tags, changes nothing |
| `ProtocolProperties.MissingArgumentIgnored` | app/src/main/java/com/example/clickergame/MainActivity.kt:49-65 | a frame without a space, other than `:nopoints`, changes nothing (the missing `message[1]` throws before any change) |
| `ProtocolProperties.NonNumericIgnored` | app/src/main/java/com/example/clickergame/MainActivity.kt:110 | `:next` or `:points` with a non-integer argument changes nothing |
| `ProtocolProperties.MessageFootprint` | app/src/main/java/com/example/clickergame/MainActivity.kt:49-69 | no frame sends anything or touches the stored points; the identity is written only when absent; points change only to a non-negative integer; clicks change only to 0..10 |
| `ProtocolProperties.Handshake` | app/src/main/java/com/example/clickergame/MainActivity.kt:191-198 | with a stored identity `I`: sends exactly `ID I` and shows the stored points, or the error text if none; without one: sends exactly `noID` and touches no display |
| `ProtocolProperties.HandshakeScenario` | app/src/main/java/com/example/clickergame/MainActivity.kt:116-126 | stored `P1` and `42`: on open the log gains `ID P1` and the display shows `42` |
| `ProtocolProperties.Stop` | app/src/main/java/com/example/clickergame/MainActivity.kt:41-47 | on stop the log gains `exit`; the identity is unchanged; stored points become the in-memory points only if an identity is stored; the rest is unchanged |
| `ProtocolProperties.OpenThenStopDropsStoredPoints` | app/src/main/java/com/example/clickergame/MainActivity.kt:93-101 | open then stop with no `:points` frame in between removes the stored points |
| `ProtocolProperties.Buttons` | app/src/main/java/com/example/clickergame/MainActivity.kt:24-32 | play only logs `play`; reset logs `reset`, disables reset and enables play |
| `ProtocolProperties.StepKeepsIdentity` | app/src/main/java/com/example/clickergame/MainActivity.kt:81-101 | no single event changes a stored identity |
| `ProtocolProperties.IdentityIsPermanent` | app/src/main/java/com/example/clickergame/MainActivity.kt:81-91 | once an identity is stored, no sequence of events changes it |
| `ProtocolProperties.FirstIdentityWins` | app/src/main/java/com/example/clickergame/MainActivity.kt:81-91 | on a fresh install the first `:id x` frame fixes the identity as `x` for the rest of the run |
| `ProtocolProperties.StepKeepsBalance` | app/src/main/java/com/example/clickergame/MainActivity.kt:93-135 | every event keeps the in-memory and the stored points either absent or a non-negative integer |
| `ProtocolProperties.BalanceIsNeverNegative` | app/src/main/java/com/example/clickergame/MainActivity.kt:128-135 | over any run, the in-memory and stored points are never negative or non-numeric |
| `ProtocolProperties.StepKeepsDisplay` | app/src/main/java/com/example/clickergame/MainActivity.kt:103-135 | with a valid balance, every event keeps the points display a non-negative integer, the no-points text or the error text |
| `ProtocolProperties.DisplayIsNeverNegative` | app/src/main/java/com/example/clickergame/MainActivity.kt:116-135 | over any run, the points display never shows a negative or non-numeric balance, only a valid one, the no-points text or the error text |
| `ProtocolProperties.ClicksStayInRange` | app/src/main/java/com/example/clickergame/MainActivity.kt:109-114 | over any run, a clicks display in 0..10 stays in 0..10 |
| `ProtocolProperties.StepSendsOutbound` | app/src/main/java/com/example/clickergame/MainActivity.kt:145-147 | every event only appends to the log, and only commands of the closed vocabulary |
| `ProtocolProperties.OnlyOutboundSent` | app/src/main/java/com/example/clickergame/MainActivity.kt:145-147 | over any run the log only grows and holds only `play`, `reset`, `exit`, `noID` and `ID <identity>` |
| `Activity.MainActivity.constructor` | app/src/main/java/com/example/clickergame/MainActivity.kt:17-33 | a new activity has no in-memory points, empty logs, and the given preferences and views |
| `Activity.MainActivity.SendMsg` | app/src/main/java/com/example/clickergame/MainActivity.kt:145-147 | appends the command to the log and changes nothing else |
| `Activity.MainActivity.IdExists` | app/src/main/java/com/example/clickergame/MainActivity.kt:71-74 | true exactly when the identity key is in the preferences |
| `Activity.MainActivity.GetId` | app/src/main/java/com/example/clickergame/MainActivity.kt:76-79 | the stored identity, or `null` when the key is absent |
| `Activity.MainActivity.SetId` | app/src/main/java/com/example/clickergame/MainActivity.kt:81-91 | new state is `Protocol.SetId`: writes the identity only when none is stored |
| `Activity.MainActivity.SetPoints` | app/src/main/java/com/example/clickergame/MainActivity.kt:93-101 | new state is `Protocol.SetPoints`: with a stored identity, the in-memory points are written, or the key removed if they are `null` |
| `Activity.MainActivity.NoPoints` | app/src/main/java/com/example/clickergame/MainActivity.kt:103-107 | new state is `Protocol.NoPoints` |
| `Activity.MainActivity.EditNext` | app/src/main/java/com/example/clickergame/MainActivity.kt:109-114 | throws (`NumberFormat`) without change on a non-integer; otherwise new state is `Protocol.EditNext` |
| `Activity.MainActivity.GetPoints` | app/src/main/java/com/example/clickergame/MainActivity.kt:116-126 | new state is `Protocol.GetPoints`: the stored points or the error text on the display |
| `Activity.MainActivity.EditPoints` | app/src/main/java/com/example/clickergame/MainActivity.kt:128-135 | throws without change on a non-integer; otherwise new state is `Protocol.EditPoints` |
| `Activity.MainActivity.WonPoints` | app/src/main/java/com/example/clickergame/MainActivity.kt:137-143 | new state is `Protocol.WonPoints`: one notification appended |
| `Activity.MainActivity.Parse` | app/src/main/java/com/example/clickergame/MainActivity.kt:49-69 | throws without change exactly when `Protocol.Parse` fails; otherwise the new state is its result |
| `Activity.MainActivity.OnMessage` | app/src/main/java/com/example/clickergame/MainActivity.kt:204-211 | new state is `Protocol.OnMessage`, so every lemma above holds of the class |
| `Activity.MainActivity.OnOpen` | app/src/main/java/com/example/clickergame/MainActivity.kt:191-198 | new state is `Protocol.OnOpen`, the handshake of `Handshake` |
| `Activity.MainActivity.OnStop` | app/src/main/java/com/example/clickergame/MainActivity.kt:41-47 | new state is `Protocol.OnStop`, the teardown of `Stop` |
| `Activity.MainActivity.OnPlayClick` | app/src/main/java/com/example/clickergame/MainActivity.kt:24-26 | new state is `Protocol.OnPlayClick` |
| `Activity.MainActivity.OnResetClick` | app/src/main/java/com/example/clickergame/MainActivity.kt:28-32 | new state is `Protocol.OnResetClick` |

## Left out

- The WebSocket connection is not modelled: URI construction, `connect()`, and the "Could not connect" / "Could not find host" snackbars (MainActivity.kt:150-175). These are network I/O through the Java-WebSocket library. `onOpen` and `onMessage` are events the model receives.
- The check `socket.connection.isOpen` and the `socket.close()` call in `onStop` (line 45) are not modelled. Neither is the case where `onStop` runs before the connection thread has assigned the `lateinit` socket; there, the access would throw before `setPoints` runs.
- `onStart` (lines 35-39) only starts the connection thread and is not modelled.
- `onClose` (line 200-201) is empty. `onError` (lines 210-211) is modelled only as dropping what `parse` throws.
- The thread per send is not modelled (lines 145-147, 178-186). The log holds commands in the order handlers issued them. The wire order is not guaranteed, and a send while the socket is closed fails silently. The log therefore records commands issued, not commands delivered.
- `runOnUiThread` (line 61) is applied synchronously. Views updated directly from the network thread (lines 112, 120, 123, 133) are assumed to succeed.
- The `running` flag (lines 18, 37, 44) is written but never read.
- Android lifecycle, view and snackbar rendering, and preference durability are not modelled. The asynchronous `apply()` is treated as a synchronous map update. `getPreferences` is taken never to be `null`, so the `?: return` paths at lines 83 and 95 are not modelled.
- The values of the string resources are not part of this model. They are parameters.
- Buttons: a disabled Android button delivers no clicks. The model's listeners, like the Kotlin lambdas, do not consult the enabled flags.
- `Numbers.ParseInt`: accepts only the ASCII digits `0`-`9`. On the JVM, `toInt` also accepts other Unicode decimal digits (through `Character.digit`).
