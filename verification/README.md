# Padre tracker, relay and configuration — a Dafny model

This project models the three pieces of decision logic in the Padre feed tracker.

- **The tracker's session** (`padre_tracker.py`). The tracker opens a multiplexed websocket to the
  Padre backend and sends an auth frame `[1, token, session_id]`. It then subscribes to two topics
  with `[4, request_id, topic]` frames, and a background task sends a heartbeat `[3]` every 15
  seconds. Each inbound msgpack frame is classified by its leading opcode. The first frame with
  opcode 1, 3 or 4 confirms auth optimistically. Opcode-5 data frames are matched against the
  configured target usernames by a case-insensitive substring test, dropped in filter-only mode
  when they do not match, and otherwise wrapped in an envelope for the relay. Before connecting,
  the tracker may exchange a refresh token for a fresh access token.
- **The relay** (`relay_server.py`). The relay keeps a module-global set of connected clients.
  Each connection handler registers its client, broadcasts every message it receives to every
  registered client (the sender included), and unregisters the client when the connection ends.
- **The configuration** (`config.py`). The configuration is read from the environment. It has two
  required variables, a comma-separated target list, a boolean flag and a relay URL with a
  default.

Modules:

- `Common`: `Option`, `Result`, and `Value`, the decoded msgpack/JSON value.
- `Text`: ASCII `lower()`, the string `in` test, `strip()`, `split(",")` and `join`.
- `Config`: `get_env` and the values that config.py derives.
- `Tracker`: the `ConnectionState` class, its one-frame `Step` and its `Receive` loop. These are
  proved against the pure functions `StepSpec` and `Run`. The module also holds session ids, the
  outgoing frames and the token-refresh decision.
- `Relay`: the `Registry` class with `Register`, `Unregister`, `Broadcast` and `Handle`.

Behaviour of the code that the model keeps:

- Target matching is a substring test over `str(payload)`, lower-cased on both sides.
- `subscriptions` is set in `__init__` and never written again, so it stays `map[]`.
- A failing relay send leaves the client registered, because `gather(...,
  return_exceptions=True)` only collects the exception.
- `unregister` calls `set.remove`, which raises `KeyError` for a client that is not registered.
  `Unregister` reports this through its `raised` result.
- `refresh_session` returns `None` on every failure, and the caller then authenticates with
  `None`.

Python's `==` is modelled where the code relies on it. `msg_type in [1, 3, 4]` also accepts
`True`, because `True == 1` (`Common.EqualsInt`).

## Model

| member | source | states |
|---|---|---|
| `Config.GetEnv` | config.py:9-15 | Errors (exit code 1, naming the key) exactly when the variable is required and unset or empty. Otherwise it returns `os.getenv(key)` unchanged, which is never empty when `required` holds. |
| `Config.Load` | config.py:17-22 | Import succeeds exactly when `PADRE_TOKEN` and `PADRE_UID` are both set and non-empty. A missing `PADRE_TOKEN` is reported before a missing `PADRE_UID`. On success, both values are the environment's values, the other settings are `RelayUrl`, `TargetUsernames`, `FilterOnlyTargets` and the fixed backend URL of that same environment, and every target is non-empty and stripped. |
| `Config.LookupOr` | config.py:19-21 | `os.getenv(key, default)` gives the default only when the variable is unset. A variable set to `""` stays `""`. |
| `Config.RelayUrl` | config.py:19 | `RELAY_URL` is `ws://localhost:8765` when unset, and otherwise the variable's value. |
| `Config.Clean` | config.py:20 | Every element of the parsed target list is non-empty and equals its own `strip()`. |
| `Config.CleanAppend` | config.py:20 | Cleaning a concatenation is concatenating the cleaned parts. With `CleanOne`, every piece yields its stripped form, or nothing when that is empty, in the original order. |
| `Config.ParseTargets` | config.py:20 | Every parsed target is non-empty and stripped. The empty string gives no targets. A comma-free value gives its stripped form, or no target when that is blank. |
| `Config.TargetUsernames` | config.py:20 | `TARGET_USERNAMES` gives no targets when unset, and every target it gives is non-empty and stripped. |
| `Config.ParseJoinedTargets` | config.py:20 | Parsing comma-joined, comma-free pieces gives their stripped, non-empty forms in their original order. A list of names already in that form parses back to itself. |
| `Config.CleanKeeps` | config.py:20 | Pieces that are already stripped and non-empty pass through the comprehension unchanged and in order. |
| `Config.TargetsUnsetOrBlank` | config.py:20 | An unset, empty or all-whitespace `TARGET_USERNAMES` gives the empty list. |
| `Config.IsTrueFlag` | config.py:21 | `value.lower() == "true"` holds exactly when the value has four characters that lower-case to `true`. |
| `Config.FilterOnlyTargets` | config.py:21 | `FILTER_ONLY_TARGETS` is off when the variable is unset (the default `"false"`), and otherwise on exactly when its value passes `IsTrueFlag`. |
| `Config.FlagExamples` | config.py:21 | The default `"false"` gives false. `"TRUE"` and `"True"` give true. `"1"`, `"yes"`, `""` and `" true"` give false. |
| `Text.Lower` | padre_tracker.py:143 | ASCII lower-casing keeps the length, maps each character on its own, and leaves no upper-case letter. |
| `Text.LowerIdempotent` | padre_tracker.py:143-149 | Lower-casing an already lower-cased string changes nothing. |
| `Text.ContainsIffOccurs` | padre_tracker.py:149 | Python's `needle in hay` holds exactly when the needle occurs at some position of the haystack. The empty needle occurs everywhere. |
| `Text.Strip` | config.py:20 | `strip()` gives a middle slice of its input such that everything before and after the slice is whitespace, and the slice neither starts nor ends with whitespace. |
| `Text.StripLeft` | config.py:20 | The leading part removed consists only of whitespace, and the rest is a suffix of the input. |
| `Text.StripRight` | config.py:20 | The trailing part removed consists only of whitespace, and the rest is a prefix of the input. |
| `Text.StripFixed` | config.py:20 | A string is its own `strip()` exactly when it neither starts nor ends with whitespace. `strip()` is idempotent. |
| `Text.StripEmpty` | config.py:20 | `strip()` gives `""` exactly for all-whitespace strings. |
| `Text.Split` | config.py:20 | `split(sep)` yields at least one piece, and no piece contains the separator. |
| `Text.JoinSplit` | config.py:20 | Joining the pieces of a split with the separator restores the string. |
| `Text.SplitJoin` | config.py:20 | Splitting a join of separator-free pieces restores the pieces. |
| `Tracker.AuthFrame` | padre_tracker.py:80 | The auth frame is a three-element list: opcode 1, the token, then the session id. |
| `Tracker.FeedTopic` | padre_tracker.py:88 | The feed topic is the fixed path, then the user id, then the fixed query string, so the user id can be read back from its place in the topic. |
| `Tracker.SubscribeFrame` | padre_tracker.py:89-93 | A subscribe frame is a three-element list: opcode 4, the request id, then the topic. |
| `Tracker.HeartbeatFrame` | padre_tracker.py:109 | The heartbeat frame is the one-element list holding opcode 3. |
| `Tracker.ConnectionState.constructor` | padre_tracker.py:14-18 | A fresh state has auth unconfirmed, request counter 1 and no subscriptions. |
| `Tracker.SessionId` | padre_tracker.py:20-24 | The session id is `"d-"` followed by 11 characters from a–z and 0–9, 13 characters in all. Each character records its random pick. |
| `Tracker.SessionIdBijective` | padre_tracker.py:20-24 | Every string of that format is the id of exactly one sequence of picks. Different picks give different ids. |
| `Tracker.Refresh` | padre_tracker.py:29-53 | The result is the body's `access_token` exactly when the body is an object holding that key, and `None` otherwise, including on an exception. `config.PADRE_TOKEN` changes only on success, and then becomes the new token. |
| `Tracker.SessionToken` | padre_tracker.py:61-69 | Without a refresh token, the configured token is used and nothing changes. With one, the auth token is the refresh result, or `None` when the refresh failed. |
| `Tracker.OpenSession` | padre_tracker.py:58-94 | The session sends `[1, token, sid]`, then `[4, 1, feed topic]`, then `[4, 2, "/frontend/trenches/v2"]`. It leaves the counter at 3 with auth unconfirmed and no subscriptions. |
| `Tracker.ConnectionState.Subscribe` | padre_tracker.py:89-90 | Sends `[4, counter, topic]` and increments the counter, so request ids are never reused. |
| `Tracker.MakeEnvelope` | padre_tracker.py:156-163 | The forwarded record carries the clock's millisecond and human-readable timestamps, source `padre`, the match flag and the payload unchanged. |
| `Tracker.StepSpec` | padre_tracker.py:126-174 | Auth becomes confirmed when the frame is a non-empty list with opcode 1, 3 or 4, and is never reset. `Confirmed` is reported only when it was not confirmed before. A non-list is skipped. An empty list, or an opcode-5 frame with fewer than 3 elements, is swallowed. An opcode-5 frame is dropped exactly when filter-only is set and nothing matches. Otherwise it yields one envelope with source `padre`, `is_target_match` equal to the match, the unmodified payload and the clock's two timestamps. |
| `Tracker.ConnectionState.Step` | padre_tracker.py:126-174 | One loop iteration changes only `authConfirmed`, and its outcome and new flag are those of `StepSpec`. |
| `Tracker.ConnectionState.Receive` | padre_tracker.py:125-174 | The receive loop's outcomes and final auth flag are those of `Run` over the frames, one `Step` per frame in order. |
| `Tracker.Run` | padre_tracker.py:125-174 | The loop yields one outcome per frame. A run that starts with auth confirmed ends with it confirmed and reports `Confirmed` for no frame. |
| `Tracker.RunPrefix` | padre_tracker.py:125-174 | Later frames never change the outcome of earlier ones. |
| `Tracker.RunOutcomeAt` | padre_tracker.py:125-174 | The i-th outcome is the step of frame i from the auth flag that frames 0..i-1 left behind. |
| `Tracker.RunAuth` | padre_tracker.py:137-138 | After a run, auth is confirmed exactly when it was confirmed before or some frame had opcode 1, 3 or 4. |
| `Tracker.ConfirmedExactlyAtFirstAck` | padre_tracker.py:137-139 | Frame i yields `Confirmed` exactly when auth started unconfirmed, frame i acknowledges, and no earlier frame did. So auth is confirmed at most once per session. |
| `Tracker.DataIndependentOfAuth` | padre_tracker.py:137-141 | An opcode-5 frame has the same outcome whether or not auth is confirmed. |
| `Tracker.MatchTargets` | padre_tracker.py:145-151 | The loop with `break` yields true exactly when some lower-cased target is a substring of the lower-cased payload text. It yields false for an empty target list. |
| `Tracker.TargetMatchIgnoresCase` | padre_tracker.py:143-151 | Matching is unchanged by lower-casing the payload text or the targets, and never holds without targets. |
| `Tracker.TargetMatchIffOccurs` | padre_tracker.py:143-151 | Matching holds exactly when some lower-cased target occurs at some position of the lower-cased rendering. |
| `Relay.Registry.constructor` | relay_server.py:19 | The registry starts empty. |
| `Relay.Registry.Register` | relay_server.py:21-24 | `register(c)` adds `c` and leaves every other membership unchanged. |
| `Relay.Registry.Unregister` | relay_server.py:26-29 | `unregister(c)` removes exactly `c`. It raises, changing nothing, exactly when `c` was not registered. |
| `Relay.Registry.Broadcast` | relay_server.py:43-48 | Sends the message unchanged, once to each client registered at that moment, the sender included. Nothing is sent to an empty registry. Every send is issued whatever the others' outcome. The delivered clients are the registered non-failing ones, the failed ones are the registered failing ones, and the registry is not changed. |
| `Relay.SendCount` | relay_server.py:45-48 | In a broadcast, each client receives the message exactly once if it was registered and never otherwise. |
| `Relay.Registry.Handle` | relay_server.py:31-52 | While its loop runs, the handler's client is registered and receives every broadcast. Each message goes once to every client then registered. On exit the client is unregistered exactly once, without raising, and the other memberships are as before. |

## Left out

- Websocket connect, send and receive, msgpack packing and unpacking, `json.dumps`, and the aiohttp POST are not modelled. The model takes decoded frames and parsed response bodies as inputs.
- Raw bytes that msgpack cannot decode raise inside the loop's `try` and are swallowed. The model starts from decoded values, so that case is not modelled.
- Forwarding an envelope to the relay is not modelled (padre_tracker.py:165-170). A failing relay send, or a `json.dumps` `TypeError` on a binary payload, is caught by the loop's `except`. The envelope is still what the model reports as `Emitted`.
- The relay connection and its address choice are not modelled (padre_tracker.py:96-103), nor is the "SYSTEM ONLINE" message (padre_tracker.py:114-122). They are socket I/O.
- The heartbeat task (padre_tracker.py:105-112) is a timer loop. Only its frame `[3]` is modelled, as `HeartbeatFrame`.
- `asyncio.sleep`, `asyncio.gather` concurrency and the restart loop with `time.sleep(5)` (padre_tracker.py:176-185) are not modelled. They are timers and process control.
- `get_current_ts_ms` (a float of the wall clock) and `strftime` are not modelled. Each frame's `Clock` is a parameter.
- `random.choice` is not modelled. Its eleven results are the `picks` parameter of `SessionId`.
- `str(payload)` is the uninterpreted parameter `render`. `lower()` is modelled for ASCII only.
- `Value` has no floats, no bytes and no maps with non-string keys. A float opcode such as `1.0` (which Python also treats as equal to 1) is therefore not modelled.
- `RELAY_HOST`, `RELAY_PORT`, `PADRE_REFRESH_TOKEN` and `PADRE_API_KEY` are read by padre_tracker.py but not defined in config.py. The model takes them as given parameters.
- The `PADRE_WS_URL` override (padre_tracker.py:56) and the request headers are not modelled. They are only used to connect.
- Coloured console output and logging are not modelled.
- test_bot_receiver.py and padre.py are not part of this model. They are standalone listeners.
- Relay.Registry.Handle: models one handler with no other handler active during its loop. Other connections registering or leaving between two of its messages are not modelled. `Broadcast` still takes its recipients from the registry as it stands at each message.
