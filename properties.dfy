/** What the relay promises, stated over the engine's operations: who
    receives what, in which order, and how the registry changes. */
module Properties {
  import opened Wire
  import opened Registry
  import opened Auth
  import opened Router
  import opened Engine

  /** There are as many sessions as keys in the iteration order. */
  lemma SessionCount(h: Hub)
    requires Valid(h)
    ensures |h.active| == |h.order|
  {
    NoDupCardinality(h.order);
    assert h.active.Keys == set k | k in h.order;
  }

  /** `broadcast` sends the message once to every session: one send per
      session, every session's websocket among them, nothing else sent. */
  lemma BroadcastReachesEverySession(h: Hub, msg: Outbound)
    requires Valid(h)
    ensures var s := BroadcastSends(h.order, h.active, msg);
      |s| == |h.active|
      && (forall i :: 0 <= i < |s| ==> s[i].envelope == msg && h.order[i] in h.active)
      && (forall k :: k in h.active ==>
            exists i :: 0 <= i < |s| && h.order[i] == k && s[i] == Deliver(ChannelOf(h.active[k]), msg))
  {
    SessionCount(h);
    var s := BroadcastSends(h.order, h.active, msg);
    forall k | k in h.active
      ensures exists i :: 0 <= i < |s| && h.order[i] == k && s[i] == Deliver(ChannelOf(h.active[k]), msg)
    {
      var i :| 0 <= i < |h.order| && h.order[i] == k;
      assert s[i] == Deliver(ChannelOf(h.active[k]), msg);
    }
  }

  /** The presence push lists exactly one entry per session: as many entries
      as sessions, each session's nickname and jid from the credential
      table with the public key it announced, and no jid twice. */
  lemma PresenceListsEverySession(h: Hub)
    requires Valid(h)
    ensures var ros := Roster(h.order, h.active);
      |ros| == |h.active|
      && (forall i :: 0 <= i < |ros| ==> ros[i].jid in h.active)
      && (forall i, j :: 0 <= i < j < |ros| ==> ros[i].jid != ros[j].jid)
      && (forall k :: k in h.active ==>
            RosterEntry(h.registered[k].cred.nickname, k, h.active[k].publickey) in ros)
  {
    SessionCount(h);
    RosterJidsAreKeys(h);
    RosterCoversSessions(h);
  }

  /** The i-th roster entry names the i-th key of the iteration order. */
  lemma RosterJidsAreKeys(h: Hub)
    requires Valid(h)
    ensures forall i :: 0 <= i < |h.order| ==> Roster(h.order, h.active)[i].jid == h.order[i]
  {
    var ros := Roster(h.order, h.active);
    forall i | 0 <= i < |h.order| ensures ros[i].jid == h.order[i] {
      assert ros[i] == Entry(h.active[h.order[i]]);
    }
  }

  /** Every session has its entry in the roster. */
  lemma RosterCoversSessions(h: Hub)
    requires Valid(h)
    ensures forall k :: k in h.active ==>
      RosterEntry(h.registered[k].cred.nickname, k, h.active[k].publickey) in Roster(h.order, h.active)
  {
    var ros := Roster(h.order, h.active);
    forall k | k in h.active
      ensures RosterEntry(h.registered[k].cred.nickname, k, h.active[k].publickey) in ros
    {
      var i :| 0 <= i < |h.order| && h.order[i] == k;
      assert ros[i] == Entry(h.active[k]);
      assert h.active[k].cred == h.registered[k].cred && h.registered[k].cred.jid == k;
    }
  }

  /** A second login for an active jid replaces its session in place: the
      iteration order and the number of sessions are unchanged, the roster
      holds one entry for the jid, and a message to it reaches only the new
      websocket. */
  lemma SecondLoginReplaces(h: Hub, jid: Jid, ws: Channel, pk: PublicKey, msg: Outbound)
    requires Valid(h) && jid in h.active && jid != PublicTarget
    ensures var r := Add(h, jid, ws, pk);
      r.order == h.order && |r.active| == |h.active|
      && RouteSends(r.order, r.active, Some(jid), msg) == [Deliver(ws, msg)]
      && (forall i, j :: 0 <= i < j < |r.order| ==> Roster(r.order, r.active)[i].jid != Roster(r.order, r.active)[j].jid)
      && RosterEntry(h.registered[jid].cred.nickname, jid, pk) in Roster(r.order, r.active)
  {
    var r := Add(h, jid, ws, pk);
    SessionCount(h);
    SessionCount(r);
    PresenceListsEverySession(r);
  }

  /** `public` takes precedence: a forwarded `public` envelope reaches every
      session, the sender's own websocket included. */
  lemma PublicMessageReachesSender(h: Hub, data: Inbound, sanitize: string -> string)
    requires Valid(h) && data.to == Some(PublicTarget)
    requires Forwarded(h.active, data, sanitize).Some?
    ensures var s := ProcessSends(h.order, h.active, data, sanitize);
      var msg := Forwarded(h.active, data, sanitize).value;
      s == BroadcastSends(h.order, h.active, msg)
      && exists i :: 0 <= i < |s| && s[i] == Deliver(ChannelOf(h.active[data.from.value]), msg)
  {
    BroadcastReachesEverySession(h, Forwarded(h.active, data, sanitize).value);
  }

  /** A forwarded envelope addressed to an active jid other than `public`
      is sent once, on that jid's websocket, and nothing else happens: a
      `message` with non-empty sanitised text, or any `file`. */
  lemma DirectMessageReachesTarget(h: Hub, data: Inbound, sanitize: string -> string, t: Jid)
    requires Valid(h) && data.from.Some? && data.from.value in h.active && data.info.Some?
    requires (data.tag == Some(TagMessage) && sanitize(data.info.value) != "") || data.tag == Some(TagFile)
    requires data.to == Some(t) && t != PublicTarget && t in h.active
    ensures Process(h, data, sanitize)
            == (h.(outbox := h.outbox + [Deliver(ChannelOf(h.active[t]), MessageFormat(data, data.tag.value))]), false)
  {
  }

  /** An envelope addressed to neither `public` nor an active jid sends
      nothing and changes nothing, unless it raises. */
  lemma InactiveTargetGetsNothing(h: Hub, data: Inbound, sanitize: string -> string)
    requires Valid(h) && !Faults(h.active, data)
    requires data.to != Some(PublicTarget) && (data.to.None? || data.to.value !in h.active)
    ensures Process(h, data, sanitize) == (h, false)
  {
  }

  /** An envelope that raises ends the message loop wherever it comes: the
      envelopes after it are never processed, so the loop ends in the hub
      that the envelopes before it left. */
  lemma {:induction false} FaultEndsLoop(h: Hub, pre: seq<Inbound>, d: Inbound, rest: seq<Inbound>,
                                         sanitize: string -> string)
    requires Valid(h) && Faults(h.active, d)
    ensures Loop(h, pre + [d] + rest, sanitize) == Loop(h, pre, sanitize)
    decreases |pre|
  {
    if pre == [] {
      assert pre + [d] + rest == [d] + rest;
    } else {
      assert (pre + [d] + rest)[0] == pre[0];
      assert (pre + [d] + rest)[1..] == pre[1..] + [d] + rest;
      var (h', fault) := Process(h, pre[0], sanitize);
      if !fault {
        FaultEndsLoop(h', pre[1..], d, rest, sanitize);
      }
    }
  }

  /** A login that passes the validation chain admits the session, runs the
      message loop on it and then cleans up the jid. */
  lemma AcceptedLogin(h: Hub, req: LoginRequest, ws: Channel, msgs: seq<Inbound>,
                      sanitize: string -> string, verify: (Hash, string) -> bool)
    requires Valid(h) && req.jid.Some? && req.password.Some?
    requires LoginError(h.registered, verify, sanitize(req.jid.value), sanitize(req.password.value)).None?
    ensures var jid := sanitize(req.jid.value);
      sanitize(req.jid.value) in h.registered
      && Login(h, req, ws, msgs, sanitize, verify)
         == Cleanup(Loop(Admit(h, jid, ws, req.publickey), msgs, sanitize), jid)
  {
  }

  /** After a successful login, an envelope that raises ends the connection
      wherever it comes: the envelopes after it are never processed, and
      the connection ends as if the client had closed it right after the
      envelopes before it (the `finally` cleanup then runs). */
  lemma FaultEndsSession(h: Hub, req: LoginRequest, ws: Channel, pre: seq<Inbound>, d: Inbound,
                         rest: seq<Inbound>, sanitize: string -> string, verify: (Hash, string) -> bool)
    requires Valid(h) && req.jid.Some? && req.password.Some?
    requires LoginError(h.registered, verify, sanitize(req.jid.value), sanitize(req.password.value)).None?
    requires d.from.Some? && (d.from.value == sanitize(req.jid.value) || d.from.value in h.active)
    requires d.info.None?
    ensures Login(h, req, ws, pre + [d] + rest, sanitize, verify) == Login(h, req, ws, pre, sanitize, verify)
  {
    var jid := sanitize(req.jid.value);
    var a := Admit(h, jid, ws, req.publickey);
    AcceptedLogin(h, req, ws, pre + [d] + rest, sanitize, verify);
    AcceptedLogin(h, req, ws, pre, sanitize, verify);
    FaultEndsLoop(a, pre, d, rest, sanitize);
  }

  /** An envelope from a jid without a session changes nothing and sends
      nothing, whatever it contains. */
  lemma InactiveSenderIgnored(h: Hub, data: Inbound, sanitize: string -> string)
    requires Valid(h) && (data.from.None? || data.from.value !in h.active)
    ensures Process(h, data, sanitize) == (h, false)
  {
    assert ProcessSends(h.order, h.active, data, sanitize) == [];
    assert h.outbox + [] == h.outbox;
  }

  /** A message envelope whose sanitised text is empty is dropped, while a
      file envelope from the same sender with the same (empty) text is
      forwarded to its target. */
  lemma EmptyMessageDroppedFileForwarded(h: Hub, data: Inbound, sanitize: string -> string)
    requires Valid(h) && data.from.Some? && data.from.value in h.active
    requires data.info.Some? && sanitize(data.info.value) == ""
    ensures Process(h, data.(tag := Some(TagMessage)), sanitize) == (h, false)
    ensures Process(h, data.(tag := Some(TagFile)), sanitize)
            == (Route(h, data.to, MessageFormat(data.(tag := Some(TagFile)), TagFile)), false)
  {
    assert ProcessSends(h.order, h.active, data.(tag := Some(TagMessage)), sanitize) == [];
    assert h.outbox + [] == h.outbox;
  }

  /** Cleaning up the same jid twice is the same as cleaning it up once. */
  lemma CleanupIdempotent(h: Hub, jid: Jid)
    requires Valid(h)
    ensures Cleanup(Cleanup(h, jid), jid) == Cleanup(h, jid)
  {
  }

  /** A refused login (one of the four checks, or wrong credentials) sends
      exactly one error envelope, on the connecting websocket, registers
      nothing, and then runs the cleanup for the jid it named. */
  lemma RefusedLogin(h: Hub, req: LoginRequest, ws: Channel, msgs: seq<Inbound>,
                     sanitize: string -> string, verify: (Hash, string) -> bool)
    requires Valid(h) && req.jid.Some? && req.password.Some?
    requires LoginError(h.registered, verify, sanitize(req.jid.value), sanitize(req.password.value)).Some?
    ensures var jid := sanitize(req.jid.value);
      var err := LoginError(h.registered, verify, jid, sanitize(req.password.value)).value;
      var r := Login(h, req, ws, msgs, sanitize, verify);
      r.registered == h.registered
      && r.active == h.active - {jid}
      && r == Cleanup(SendTo(h, ws, ErrorReply(err)), jid)
      && r.outbox[..|h.outbox| + 1] == h.outbox + [Deliver(ws, ErrorReply(err))]
  {
  }

  /** The `finally` cleanup runs with the jid of the refused request: a
      failed login that names a jid with a live session (from another
      connection) deletes that session and broadcasts the reduced roster
      to everyone left. */
  lemma FailedLoginEvictsSession(h: Hub, req: LoginRequest, ws: Channel, msgs: seq<Inbound>,
                                 sanitize: string -> string, verify: (Hash, string) -> bool)
    requires Valid(h) && req.jid.Some? && req.password.Some?
    requires sanitize(req.jid.value) in h.active
    requires LoginError(h.registered, verify, sanitize(req.jid.value), sanitize(req.password.value)).Some?
    ensures var jid := sanitize(req.jid.value);
      var err := LoginError(h.registered, verify, jid, sanitize(req.password.value)).value;
      var r := Login(h, req, ws, msgs, sanitize, verify);
      jid !in r.active
      && r.order == Remove(h.order, jid)
      && r.outbox == h.outbox + [Deliver(ws, ErrorReply(err))]
                     + BroadcastSends(r.order, r.active, PresencePush(Roster(r.order, r.active)))
  {
  }

  /** Two maps that agree away from `k` agree once `k` is deleted. */
  lemma SameExceptAt(m1: map<Jid, ClientRecord>, m2: map<Jid, ClientRecord>, k: Jid)
    requires forall j :: j != k ==> (j in m1 <==> j in m2)
    requires forall j :: j != k && j in m1 ==> m1[j] == m2[j]
    ensures m1 - {k} == m2 - {k}
  {
    assert (m1 - {k}).Keys == (m2 - {k}).Keys;
  }

  /** A session that was admitted and then processed its messages is
      gone once the `finally` cleanup has run; the other sessions keep
      their places. */
  lemma {:induction false} AdmittedSessionEnds(h: Hub, jid: Jid, ws: Channel, pk: PublicKey,
                                               msgs: seq<Inbound>, sanitize: string -> string)
    requires Valid(h) && jid in h.registered
    ensures var r := Cleanup(Loop(Admit(h, jid, ws, pk), msgs, sanitize), jid);
      r.active == h.active - {jid} && r.order == Remove(h.order, jid)
  {
    var h1 := Admit(h, jid, ws, pk);
    var h2 := Loop(h1, msgs, sanitize);
    assert h2.active == h1.active && h2.order == h1.order;
    assert h1.active == Add(h, jid, ws, pk).active && h1.order == Upsert(h.order, jid);
    assert jid in h2.active;
    var r := Cleanup(h2, jid);
    assert r.active == h2.active - {jid};
    assert r.order == Remove(Upsert(h.order, jid), jid);
    UpsertThenRemove(h.order, jid);
    SameExceptAt(h2.active, h.active, jid);
  }

  /** Whatever path a connection takes (unreadable password, refused login,
      or a session that ends after its messages), once `handle_client`
      returns, the jid it named has no session and every other session is
      where it was before. */
  lemma {:induction false} ConnectionEndsWithoutSession(h: Hub, req: LoginRequest, ws: Channel, msgs: seq<Inbound>,
                                                        sanitize: string -> string, verify: (Hash, string) -> bool)
    requires Valid(h) && req.jid.Some?
    ensures var jid := sanitize(req.jid.value);
      var r := Login(h, req, ws, msgs, sanitize, verify);
      r.active == h.active - {jid} && r.order == Remove(h.order, jid)
  {
    var jid := sanitize(req.jid.value);
    var r := Login(h, req, ws, msgs, sanitize, verify);
    if jid !in h.active {
      RemoveAbsent(h.order, jid);
    }
    if req.password.None? {
      assert r == Cleanup(h, jid);
    } else {
      var err := LoginError(h.registered, verify, jid, sanitize(req.password.value));
      if err.Some? {
        var h1 := SendTo(h, ws, ErrorReply(err.value));
        assert r == Cleanup(h1, jid);
        assert h1.active == h.active && h1.order == h.order;
      } else {
        assert r == Cleanup(Loop(Admit(h, jid, ws, req.publickey), msgs, sanitize), jid);
        AdmittedSessionEnds(h, jid, ws, req.publickey, msgs, sanitize);
      }
    }
  }

  /** A successful login replies with the nickname from the credential
      table (not anything the client sent) on its own websocket, and the
      roster then broadcast contains the new session with the public key
      it announced; that broadcast reaches the new websocket too. */
  lemma AdmittedSessionAnnounced(h: Hub, jid: Jid, ws: Channel, pk: PublicKey)
    requires Valid(h) && jid in h.registered
    ensures var r := Admit(h, jid, ws, pk);
      var push := PresencePush(Roster(r.order, r.active));
      r.outbox[|h.outbox|] == Deliver(ws, LoginSuccess(h.registered[jid].cred.nickname))
      && RosterEntry(h.registered[jid].cred.nickname, jid, pk) in push.presence
      && Deliver(ws, push) in r.outbox[|h.outbox| + 1..]
  {
    var r := Admit(h, jid, ws, pk);
    var push := PresencePush(Roster(r.order, r.active));
    var sends := BroadcastSends(r.order, r.active, push);
    var reply := Deliver(ws, LoginSuccess(h.registered[jid].cred.nickname));
    assert r.outbox == h.outbox + [reply] + sends;
    assert r.outbox[|h.outbox|] == reply;
    assert r.outbox[|h.outbox| + 1..] == sends;
    assert jid in r.active && r.active[jid] == ClientRecord(h.registered[jid].cred, Some(ws), pk);
    PresenceListsEverySession(r);
    BroadcastReachesEverySession(r, push);
  }
}
