/** The session and routing engine as a pure state machine. A `Hub` holds the
    two module-level dictionaries of the server and everything sent so far;
    each function below is one operation of the server, mapping the hub
    before it to the hub after it. The class `Server.Server` performs the
    same operations in place and is proved against these functions. */
module Engine {
  import opened Wire
  import opened Registry
  import opened Auth
  import opened Router

  /** `registered_clients`, `active_connections` (as key order plus map) and
      the sequence of every send made so far. */
  datatype Hub = Hub(registered: map<Jid, ClientRecord>, order: seq<Jid>,
                     active: map<Jid, ClientRecord>, outbox: seq<Delivery>)

  /** What holds between operations: the key order lists each active jid
      once; an active record is the very record stored in the credential
      table (the Python code puts the same dict object in both) and has a
      websocket; every credential record carries its own key as its jid. */
  predicate Valid(h: Hub)
    ensures Valid(h) ==> Connected(h.order, h.active)
  {
    NoDup(h.order)
    && (forall k :: k in h.order ==> k in h.active)
    && (forall k :: k in h.active ==> k in h.order)
    && (forall k :: k in h.active ==> k in h.registered && h.active[k] == h.registered[k]
                                      && h.active[k].websocket.Some?)
    && (forall k :: k in h.registered ==> h.registered[k].cred.jid == k)
  }

  /** The state before any client connects. */
  function Initial(store: map<Jid, Credential>): (h: Hub)
    requires forall k :: k in store ==> store[k].jid == k
    ensures Valid(h) && h.active == map[] && h.outbox == []
    ensures h.registered.Keys == store.Keys
    ensures forall k :: k in store ==> h.registered[k].cred == store[k]
  {
    Hub(map k | k in store :: ClientRecord(store[k], None, None), [], map[], [])
  }

  /** `send_message(websocket, message)`. */
  function SendTo(h: Hub, ws: Channel, msg: Outbound): (r: Hub)
    ensures Valid(h) ==> Valid(r)
  {
    h.(outbox := h.outbox + [Deliver(ws, msg)])
  }

  /** `add_clients_to_active_connections`: writes the websocket and public
      key into the credential record and makes that record the jid's
      session. The nickname and jid come from the credential table; an
      earlier session of the same jid is overwritten and keeps its place in
      the iteration order; no other jid's session changes; nothing is sent. */
  function Add(h: Hub, jid: Jid, ws: Channel, pk: PublicKey): (r: Hub)
    requires jid in h.registered
    ensures jid in r.active && r.active[jid] == ClientRecord(h.registered[jid].cred, Some(ws), pk)
    ensures forall k :: k != jid ==> (k in r.active <==> k in h.active)
    ensures forall k :: k != jid && k in h.active ==> r.active[k] == h.active[k]
    ensures jid in h.order ==> r.order == h.order
    ensures jid !in h.order ==> r.order == h.order + [jid]
    ensures r.registered.Keys == h.registered.Keys
    ensures r.registered == h.registered[jid := r.active[jid]]
    ensures forall k :: k in h.registered ==> r.registered[k].cred == h.registered[k].cred
    ensures r.outbox == h.outbox
    ensures Valid(h) ==> Valid(r)
  {
    var user := h.registered[jid].(websocket := Some(ws), publickey := pk);
    h.(registered := h.registered[jid := user], active := h.active[jid := user],
       order := Upsert(h.order, jid))
  }

  /** `broadcast(message)`. */
  function Broadcast(h: Hub, msg: Outbound): (r: Hub)
    requires Connected(h.order, h.active)
    ensures Valid(h) ==> Valid(r)
  {
    h.(outbox := h.outbox + BroadcastSends(h.order, h.active, msg))
  }

  /** The envelope `broadcast_presence` builds from the current registry. */
  function PresenceEnvelope(h: Hub): (env: Outbound)
    requires Connected(h.order, h.active)
  {
    PresencePush(Roster(h.order, h.active))
  }

  /** `broadcast_presence()`: the registry is unchanged and each session,
      in iteration order, gets one push of the current roster. */
  function BroadcastPresence(h: Hub): (r: Hub)
    requires Connected(h.order, h.active)
    ensures r.registered == h.registered && r.order == h.order && r.active == h.active
    ensures |r.outbox| == |h.outbox| + |h.order| && r.outbox[..|h.outbox|] == h.outbox
    ensures forall i :: 0 <= i < |h.order| ==>
              r.outbox[|h.outbox| + i] == Deliver(ChannelOf(h.active[h.order[i]]), PresencePush(Roster(h.order, h.active)))
    ensures Valid(h) ==> Valid(r)
  {
    Broadcast(h, PresenceEnvelope(h))
  }

  /** `route_message(target, message)`: the registry is unchanged; a
      `public` target appends one send per session, an active jid one send
      on its websocket, any other target nothing. */
  function Route(h: Hub, target: Option<string>, msg: Outbound): (r: Hub)
    requires Connected(h.order, h.active)
    ensures r.registered == h.registered && r.order == h.order && r.active == h.active
    ensures |h.outbox| <= |r.outbox| && r.outbox[..|h.outbox|] == h.outbox
    ensures target == Some(PublicTarget) ==> r == Broadcast(h, msg)
    ensures target != Some(PublicTarget) && target.Some? && target.value in h.active
            ==> r.outbox == h.outbox + [Deliver(ChannelOf(h.active[target.value]), msg)]
    ensures target != Some(PublicTarget) && (target.None? || target.value !in h.active) ==> r == h
    ensures Valid(h) ==> Valid(r)
  {
    h.(outbox := h.outbox + RouteSends(h.order, h.active, target, msg))
  }

  /** `process_message(data)`: the hub after it, and whether it raised. It
      raises exactly when the sender is active and `info` is not a string,
      and then has sent nothing; otherwise it appends the routed sends of
      the forwarded record, if any. The registry never changes. */
  function Process(h: Hub, data: Inbound, sanitize: string -> string): (r: (Hub, bool))
    requires Connected(h.order, h.active)
    ensures r.1 <==> Faults(h.active, data)
    ensures r.0.registered == h.registered && r.0.order == h.order && r.0.active == h.active
    ensures r.1 ==> r.0 == h
    ensures Forwarded(h.active, data, sanitize).None? ==> r.0 == h
    ensures Forwarded(h.active, data, sanitize).Some?
            ==> r.0 == Route(h, data.to, Forwarded(h.active, data, sanitize).value)
    ensures Valid(h) ==> Valid(r.0)
  {
    if Faults(h.active, data) then (h, true)
    else (h.(outbox := h.outbox + ProcessSends(h.order, h.active, data, sanitize)), false)
  }

  /** `handle_messages`: the envelopes received before the connection
      closes, processed in order; the loop ends early when processing one
      raises. Only the outbox changes, and only by appending. */
  function Loop(h: Hub, msgs: seq<Inbound>, sanitize: string -> string): (r: Hub)
    requires Connected(h.order, h.active)
    ensures r.registered == h.registered && r.order == h.order && r.active == h.active
    ensures |h.outbox| <= |r.outbox| && r.outbox[..|h.outbox|] == h.outbox
    decreases |msgs|
  {
    if msgs == [] then h
    else
      var (h', fault) := Process(h, msgs[0], sanitize);
      if fault then h' else Loop(h', msgs[1..], sanitize)
  }

  /** `del active_connections[jid]` keeps the registry well formed. */
  lemma DeletePreservesValid(h: Hub, jid: Jid)
    requires Valid(h)
    ensures Valid(h.(active := h.active - {jid}, order := Remove(h.order, jid)))
  {
    RemoveNoDup(h.order, jid);
  }

  /** `cleanup_user(jid)`: an active jid loses its session, every other
      session stays where it was, and the reduced roster is broadcast
      once; an inactive jid changes nothing and sends nothing. */
  function Cleanup(h: Hub, jid: Jid): (r: Hub)
    requires Valid(h)
    ensures Valid(r)
    ensures r.registered == h.registered
    ensures r.active == h.active - {jid}
    ensures jid in h.active ==> r.order == Remove(h.order, jid)
    ensures jid in h.active ==>
              r.outbox == h.outbox + BroadcastSends(r.order, r.active, PresencePush(Roster(r.order, r.active)))
    ensures jid !in h.active ==> r == h
  {
    if jid in h.active then
      DeletePreservesValid(h, jid);
      BroadcastPresence(h.(active := h.active - {jid}, order := Remove(h.order, jid)))
    else h
  }

  /** The success branch of `handle_client` up to its message loop:
      register the session, send the success reply (with the nickname from
      the credential table) on the new websocket, then broadcast the roster
      that now includes the new session. */
  function Admit(h: Hub, jid: Jid, ws: Channel, pk: PublicKey): (r: Hub)
    requires Valid(h) && jid in h.registered
    ensures Valid(r)
    ensures r.registered == Add(h, jid, ws, pk).registered
    ensures r.order == Add(h, jid, ws, pk).order && r.active == Add(h, jid, ws, pk).active
    ensures r.outbox == h.outbox + [Deliver(ws, LoginSuccess(h.registered[jid].cred.nickname))]
                        + BroadcastSends(r.order, r.active, PresencePush(Roster(r.order, r.active)))
  {
    var h1 := Add(h, jid, ws, pk);
    BroadcastPresence(SendTo(h1, ws, LoginSuccess(h1.active[jid].cred.nickname)))
  }

  /** `handle_client` for one connection: read the login envelope, sanitise
      jid and password, run the validation chain, and on success register
      the session, reply, broadcast presence and process `msgs`. Whatever
      happened, the `finally` block then cleans up the jid taken from the
      login envelope. A jid that cannot be read leaves it `None`, for which
      `cleanup_user` changes nothing. */
  function Login(h: Hub, req: LoginRequest, ws: Channel, msgs: seq<Inbound>,
                 sanitize: string -> string, verify: (Hash, string) -> bool): (r: Hub)
    requires Valid(h)
    ensures Valid(r)
  {
    if req.jid.None? then h
    else
      var jid := sanitize(req.jid.value);
      if req.password.None? then Cleanup(h, jid)
      else
        var password := sanitize(req.password.value);
        match LoginError(h.registered, verify, jid, password)
        case Some(err) => Cleanup(SendTo(h, ws, ErrorReply(err)), jid)
        case None => Cleanup(Loop(Admit(h, jid, ws, req.publickey), msgs, sanitize), jid)
  }
}
