/** The server's mutable state and its operations performed in place, as
    the Python module does them on its two global dictionaries. Every send
    is appended to `outbox`. Each method is proved to leave the state that
    the matching `Engine` function describes. */
module Server {
  import opened Wire
  import opened Registry
  import opened Auth
  import opened Router
  import Engine

  class Server {
    /** `registered_clients`; login writes websocket and public key into it. */
    var registered: map<Jid, ClientRecord>
    /** `active_connections`, as its iteration order and its contents. */
    var order: seq<Jid>
    var active: map<Jid, ClientRecord>
    /** Every `(websocket, envelope)` sent so far, oldest first. */
    var outbox: seq<Delivery>

    ghost function State(): Engine.Hub
      reads this
    {
      Engine.Hub(registered, order, active, outbox)
    }

    ghost predicate Valid()
      reads this
    {
      Engine.Valid(State())
    }

    /** The server at start-up: the credential table, nobody online, nothing sent. */
    constructor (store: map<Jid, Credential>)
      requires forall k :: k in store ==> store[k].jid == k
      ensures Valid() && State() == Engine.Initial(store)
    {
      registered := map k | k in store :: ClientRecord(store[k], None, None);
      order := [];
      active := map[];
      outbox := [];
    }

    /** `send_message`. */
    method SendMessage(ws: Channel, msg: Outbound)
      modifies this
      ensures State() == Engine.SendTo(old(State()), ws, msg)
    {
      outbox := outbox + [Deliver(ws, msg)];
    }

    /** `add_clients_to_active_connections`: returns the record that is now
        both the credential entry and the session. */
    method AddClient(jid: Jid, ws: Channel, pk: PublicKey) returns (user: ClientRecord)
      requires Valid() && jid in registered
      modifies this
      ensures Valid() && State() == Engine.Add(old(State()), jid, ws, pk)
      ensures user == active[jid] && user == registered[jid]
    {
      ghost var h := State();
      user := registered[jid].(websocket := Some(ws), publickey := pk);
      registered := registered[jid := user];
      order := Upsert(order, jid);
      active := active[jid := user];
      assert State() == Engine.Add(h, jid, ws, pk);
    }

    /** `broadcast`: one send per session, in iteration order. */
    method Broadcast(msg: Outbound)
      requires Valid()
      modifies this
      ensures Valid() && State() == Engine.Broadcast(old(State()), msg)
    {
      SendToEach(order, active, msg);
    }

    /** The loop of `broadcast`: sends `msg` on the websocket of each of
        `keys` in turn and changes nothing else. */
    method SendToEach(keys: seq<Jid>, sessions: map<Jid, ClientRecord>, msg: Outbound)
      requires Connected(keys, sessions)
      modifies this
      ensures registered == old(registered) && order == old(order) && active == old(active)
      ensures outbox == old(outbox) + BroadcastSends(keys, sessions, msg)
    {
      var i := 0;
      while i < |keys|
        invariant 0 <= i <= |keys|
        invariant registered == old(registered) && order == old(order) && active == old(active)
        invariant outbox == old(outbox) + BroadcastSends(keys[..i], sessions, msg)
      {
        BroadcastSendsStep(keys, sessions, msg, i);
        SendMessage(ChannelOf(sessions[keys[i]]), msg);
        i := i + 1;
      }
      assert keys[..i] == keys;
    }

    /** `broadcast_presence`: the roster of the current sessions, to everyone. */
    method BroadcastPresence()
      requires Valid()
      modifies this
      ensures Valid() && State() == Engine.BroadcastPresence(old(State()))
    {
      var onlineUsers := PresencePush(Roster(order, active));
      Broadcast(onlineUsers);
    }

    /** `route_message`. */
    method RouteMessage(target: Option<string>, msg: Outbound)
      requires Valid()
      modifies this
      ensures Valid() && State() == Engine.Route(old(State()), target, msg)
    {
      if target == Some(PublicTarget) {
        Broadcast(msg);
      } else if target.Some? && target.value in active {
        SendMessage(active[target.value].websocket.value, msg);
      }
    }

    /** `process_message`; `fault` says that it raised. */
    method ProcessMessage(data: Inbound, sanitize: string -> string) returns (fault: bool)
      requires Valid()
      modifies this
      ensures Valid() && (State(), fault) == Engine.Process(old(State()), data, sanitize)
    {
      assert outbox + [] == outbox;
      fault := false;
      if data.from.Some? && data.from.value in active {
        if data.info.None? {
          fault := true;
          return;
        }
        var info := sanitize(data.info.value);
        if data.tag == Some(TagMessage) && info != "" {
          RouteMessage(data.to, MessageFormat(data, TagMessage));
        } else if data.tag == Some(TagFile) {
          RouteMessage(data.to, MessageFormat(data, TagFile));
        }
      }
    }

    /** `handle_messages`: processes the received envelopes in order until
        one raises. */
    method HandleMessages(msgs: seq<Inbound>, sanitize: string -> string)
      requires Valid()
      modifies this
      ensures Valid() && State() == Engine.Loop(old(State()), msgs, sanitize)
    {
      var i := 0;
      while i < |msgs|
        invariant 0 <= i <= |msgs|
        invariant Valid()
        invariant Engine.Loop(State(), msgs[i..], sanitize) == Engine.Loop(old(State()), msgs, sanitize)
      {
        var fault := ProcessMessage(msgs[i], sanitize);
        if fault {
          return;
        }
        i := i + 1;
      }
    }

    /** `cleanup_user`. */
    method CleanupUser(jid: Jid)
      requires Valid()
      modifies this
      ensures Valid() && State() == Engine.Cleanup(old(State()), jid)
    {
      if jid in active {
        Engine.DeletePreservesValid(State(), jid);
        active := active - {jid};
        order := Remove(order, jid);
        BroadcastPresence();
      }
    }

    /** `handle_client` for one connection: `req` is the login envelope,
        `msgs` what the client sends after a successful login. */
    method HandleClient(req: LoginRequest, ws: Channel, msgs: seq<Inbound>,
                        sanitize: string -> string, verify: (Hash, string) -> bool)
      requires Valid()
      modifies this
      ensures Valid() && State() == Engine.Login(old(State()), req, ws, msgs, sanitize, verify)
    {
      if req.jid.None? {
        return;
      }
      var jid := sanitize(req.jid.value);
      if req.password.Some? {
        var password := sanitize(req.password.value);
        var err := LoginError(registered, verify, jid, password);
        if err.Some? {
          SendMessage(ws, ErrorReply(err.value));
        } else {
          var currentUser := AddClient(jid, ws, req.publickey);
          SendMessage(ws, LoginSuccess(currentUser.cred.nickname));
          BroadcastPresence();
          HandleMessages(msgs, sanitize);
        }
      }
      CleanupUser(jid);
    }
  }
}
