# Presence-aware message relay: session and routing engine

A Dafny model of the core of a websocket chat relay (`server.py`). Clients
log in with a jid and a password and announce a public key. The server keeps
the sessions that are online in a registry and pushes the roster to
everyone whenever the registry changes. It relays `message` and `file`
envelopes to one jid or, with the target `public`, to everyone.

The model keeps the server's own state and decisions. It leaves out the
transport:

- a websocket is an opaque channel id (`Wire.Channel`);
- every `websocket.send` appends a `(channel, envelope)` pair to an outbox
  sequence;
- envelopes are datatypes (`Wire.Inbound`, `Wire.Outbound`,
  `Wire.LoginRequest`); a field that is absent, null or not a string is `None`;
- `bcrypt.checkpw` (through `verify_password`) is a function parameter
  `verify: (Hash, string) -> bool`;
- `bleach.clean` is a function parameter `sanitize: string -> string`.

Files and modules:

- `wire.dfy` (`Wire`): records, envelopes, the protocol's literal strings and
  the 64-character bound.
- `auth.dfy` (`Auth`): `authenticate_user` and the validation chain of
  `handle_client`.
- `registry.dfy` (`Registry`): the insertion-ordered `active_connections`
  dict, as a key sequence plus a map. It holds the key-order operations of
  assignment and `del`, the broadcast sends and the roster comprehension.
- `router.dfy` (`Router`): `create_message_format`, `route_message` and the
  decision of `process_message`.
- `engine.dfy` (`Engine`): the whole server state as a value (`Hub`). It has
  one function per operation and the invariant `Valid`.
- `properties.dfy` (`Properties`): lemmas about who receives what, in which
  order, and how the registry changes.
- `server.dfy` (`Server`): the class `Server`, whose fields are the two
  dictionaries and the outbox. Its methods do the operations in place, with
  the broadcast and message loops. Each method is proved to reach the state
  the matching `Engine` function gives.

Python's dict order is modelled: a new key is appended, assigning to an
existing key keeps its position, and `del` keeps the rest in order. The same
record object is stored in `registered_clients` and in `active_connections`.
The model keeps the two maps equal on every active jid as part of `Valid`.

Where the documented design and the code differ, the model follows the code:

- The error messages of the four length checks start with `"* "`, e.g.
  `"* JID cannot be empty"`. The credentials error is
  `"Incorrect email and password"` with no prefix.
- A jid or password of exactly 64 characters is accepted (`len(...) > 64`),
  although the message says "less than 64".
- `cleanup_user` broadcasts presence only when the jid was active. Cleanup
  of an inactive jid sends nothing.
- The `finally` block of `handle_client` always cleans up the jid from the
  login envelope. So a refused login that names a jid with a live session
  ends that session (`Properties.FailedLoginEvictsSession`).
- Exceptions are modelled where they change what happens:
  - A jid that cannot be read leaves `jid = None`, and the cleanup then does
    nothing.
  - A password that cannot be read comes after the jid was read, so the
    cleanup runs for that jid.
  - An active sender's envelope without a string `info` makes
    `bleach.clean` raise. This ends the message loop, and the cleanup runs
    (`Properties.FaultEndsLoop`, `Properties.FaultEndsSession`).

## Model

| member | source | states |
|---|---|---|
| Auth.Authenticate | server.py:137-144 | an unknown jid is refused whatever the verifier says; a known jid gets exactly the verifier's answer on its stored hash |
| Auth.LoginError | server.py:79-103 | the checks run in order and the first failure wins: empty jid, jid over 64, empty password, password over 64, then bad credentials; no error exactly when all four bounds hold and authentication succeeds, and then the jid is registered |
| Auth.MalformedLoginSkipsVerifier | server.py:80-91 | a login that fails a length check gets the same error whatever the credential table and the verifier are |
| Registry.Upsert | server.py:154 | dict assignment: the key set gains the jid, no duplicate appears, an existing key keeps its position and a new one goes last |
| Registry.Remove | server.py:274 | `del`: exactly the other keys remain |
| Registry.RemoveNoDup | server.py:274 | deleting a key never creates a duplicate |
| Registry.RemoveAbsent | server.py:273 | deleting a key that is not there leaves the order unchanged |
| Registry.RemoveAt | server.py:274 | deleting the key at position p removes that position and keeps every other key in order |
| Registry.RemoveAppended | server.py:154 | a key appended and then deleted leaves the old order |
| Registry.UpsertThenRemove | server.py:147-155 | registering a jid and then deleting it leaves the same order as deleting it alone |
| Registry.NoDupCardinality | server.py:63 | a duplicate-free key order has as many distinct keys as positions |
| Registry.BroadcastSends | server.py:237-242 | one send per key, in iteration order, the i-th on the i-th session's websocket |
| Registry.Roster | server.py:249-257 | one roster entry per key, in iteration order, built from that session's nickname, jid and public key |
| Router.MessageFormat | server.py:210-222 | the outbound record copies from, to and the raw info unchanged, and has a filename exactly when the tag is `file` |
| Router.RouteSends | server.py:225-234 | `public` means the full broadcast, even if a session is called `public`; an active jid gets one send on its websocket; any other target gets nothing |
| Router.Forwarded | server.py:191-207 | forwards only for an active sender: `message` exactly when the sanitised info is non-empty, `file` always, any other tag never |
| Router.Faults | server.py:195-197 | `process_message` raises only for an active sender whose `info` is not a string, and such an envelope is never forwarded whatever the sanitiser |
| Router.ProcessSends | server.py:191-207 | nothing is sent for an inactive sender or a dropped envelope; a forwarded record is routed to the envelope's own `to` |
| Engine.Valid | server.py:147-155 | the registry invariant implies every listed key has a session with a websocket |
| Engine.Initial | server.py:29-63 | at start-up nobody is online, nothing has been sent and the credential table is loaded as given |
| Engine.SendTo | server.py:262-266 | a send keeps the registry invariant |
| Engine.Add | server.py:147-155 | the jid's session is the stored nickname and jid with the new websocket and key; the same record replaces the jid's credential entry and every other credential record is unchanged; it overwrites an earlier session in place; other sessions are unchanged; nothing is sent |
| Engine.Broadcast | server.py:237-242 | a broadcast keeps the registry invariant |
| Engine.BroadcastPresence | server.py:245-259 | the registry is unchanged and the i-th session in iteration order gets the i-th push of the current roster, nothing else sent |
| Engine.Route | server.py:225-234 | the registry is unchanged; `public` is the full broadcast; an active jid gets exactly one send on its websocket; any other target leaves the hub as it was |
| Engine.Process | server.py:191-207 | raises exactly when `Router.Faults` holds, and then changes nothing; a dropped envelope changes nothing; a forwarded one is routed to its `to`; the registry never changes |
| Engine.Loop | server.py:182-188 | the message loop never changes the registry and only appends to the outbox |
| Engine.DeletePreservesValid | server.py:274 | deleting a session keeps the registry invariant |
| Engine.Cleanup | server.py:269-275 | an active jid is deleted, the others keep their order, and exactly one presence push of the reduced roster goes to everyone left; an inactive jid changes nothing |
| Engine.Admit | server.py:93-99 | success path: one success reply with the stored nickname on the new websocket, then the roster broadcast of the enlarged registry |
| Engine.Login | server.py:68-111 | a whole connection keeps the registry invariant |
| Properties.SessionCount | server.py:63 | there are as many sessions as keys in the iteration order |
| Properties.BroadcastReachesEverySession | server.py:237-242 | a broadcast sends exactly one copy per session and reaches every session's websocket |
| Properties.PresenceListsEverySession | server.py:245-259 | the presence push has exactly one entry per session, with no jid twice, each holding the stored nickname, the jid and the announced key |
| Properties.RosterJidsAreKeys | server.py:251-256 | the i-th roster entry names the i-th session in iteration order |
| Properties.RosterCoversSessions | server.py:251-256 | every session's entry is in the roster |
| Properties.SecondLoginReplaces | server.py:147-155 | a second login for an active jid keeps the order and session count; the roster lists that jid once, with the stored nickname and the newly announced key; a message to it reaches only the new websocket |
| Properties.PublicMessageReachesSender | server.py:225-230 | a forwarded `public` envelope is the full broadcast, the sender's own websocket included |
| Properties.DirectMessageReachesTarget | server.py:191-232 | a non-empty `message` or any `file` addressed to an active jid other than `public` is sent exactly once, on that jid's websocket, and nothing else changes |
| Properties.InactiveTargetGetsNothing | server.py:233-234 | an envelope addressed to neither `public` nor an active jid sends nothing and changes nothing unless it raises |
| Properties.FaultEndsLoop | server.py:182-197 | an envelope that raises ends the message loop wherever it comes: the later envelopes are never processed, so the loop ends where the envelopes before it left the hub |
| Properties.AcceptedLogin | server.py:93-111 | a login that passes the validation chain names a registered jid, and the connection admits the session, runs the message loop and then cleans up that jid |
| Properties.FaultEndsSession | server.py:100-111 | after a successful login, an envelope without a string `info` from the new session or any other active jid raises wherever it comes: the connection ends exactly as if the client had closed it right before the later envelopes, `finally` cleanup included |
| Properties.InactiveSenderIgnored | server.py:195-207 | an envelope from a jid with no session changes nothing and sends nothing |
| Properties.EmptyMessageDroppedFileForwarded | server.py:197-203 | with empty sanitised info, a `message` is dropped while a `file` is routed |
| Properties.CleanupIdempotent | server.py:269-275 | cleaning up a jid twice is the same as cleaning it up once |
| Properties.RefusedLogin | server.py:79-111 | a refused login sends exactly one error, on the connecting websocket, registers nothing and then runs the cleanup for the jid it named |
| Properties.FailedLoginEvictsSession | server.py:72-111 | a refused login that names an active jid deletes that session and broadcasts the reduced roster after the error reply |
| Properties.AdmittedSessionEnds | server.py:93-111 | after a successful login and its message loop, the cleanup leaves the registry as before minus that jid |
| Properties.ConnectionEndsWithoutSession | server.py:68-111 | on every path, once a connection with a readable jid ends, that jid has no session and every other session keeps its place |
| Properties.AdmittedSessionAnnounced | server.py:93-99 | the success reply carries the stored nickname; the following roster contains the new session with its announced key and reaches the new websocket |
| Server.Server.constructor | server.py:29-63 | the start-up state |
| Server.Server.SendMessage | server.py:262-266 | appends one delivery to the outbox |
| Server.Server.AddClient | server.py:147-155 | performs `Engine.Add` in place and returns the record that is both the credential entry and the session |
| Server.Server.Broadcast | server.py:237-242 | performs `Engine.Broadcast` in place |
| Server.Server.SendToEach | server.py:241-242 | the loop appends exactly `BroadcastSends` and changes nothing else |
| Server.Server.BroadcastPresence | server.py:245-259 | performs `Engine.BroadcastPresence` in place |
| Server.Server.RouteMessage | server.py:225-234 | performs `Engine.Route` in place |
| Server.Server.ProcessMessage | server.py:191-207 | performs `Engine.Process` in place and reports whether it raised |
| Server.Server.HandleMessages | server.py:182-188 | the loop reaches the state `Engine.Loop` describes, stopping at the first envelope that raises |
| Server.Server.CleanupUser | server.py:269-275 | performs `Engine.Cleanup` in place |
| Server.Server.HandleClient | server.py:68-111 | one connection's lifecycle reaches the state `Engine.Login` describes |

## Left out

- The websocket transport, `websockets.serve`/`connect`, `recv`, `send` and JSON encoding and decoding (server.py:129-134, 262-266, 278-288) are I/O. Sends are appends to the outbox. The received envelopes are parameters: the login request, and the sequence of envelopes a client sends before its connection closes.
- A send that fails (a closed peer) would raise in the middle of a broadcast or a routed send. Every send is modelled as succeeding. In the code, that exception ends the message loop of the connection that was sending (server.py:186-188), and its `finally` block (server.py:109-111) cleans up the sender's own jid. So a sender being evicted because a recipient has gone is not modelled.
- asyncio scheduling and interleavings between connections are not modelled. One operation runs at a time, and `HandleClient` runs one connection's whole lifecycle. So the model cannot show, for example, an old connection's cleanup removing the session of a newer login for the same jid.
- `attempt_reconnect` and the `asyncio.sleep` in the `finally` block (server.py:112-126) are not modelled; the server connecting to itself is not routing logic.
- bcrypt hashing and bleach sanitisation (server.py:21-25, 75-76, 197) are foreign library calls. They are the parameters `verify` and `sanitize`.
- Loading the environment and the listen address (server.py:19, 64-65), and the literal hashes of the credential table (server.py:29-60), are left out. The credential table is any map whose records carry their own key as jid.
- The `print` logging of dropped envelopes and closed connections is left out.
- JSON values of other shapes are not modelled: a non-dict envelope, or an unhashable `from` or `to`. Every non-string field is treated as absent.
