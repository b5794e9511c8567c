/** `process_message`, `create_message_format` and `route_message`: what one
    inbound envelope makes the server send. Sanitisation (`bleach.clean`)
    is an opaque capability passed in as `sanitize`. */
module Router {
  import opened Wire
  import opened Registry

  /** `create_message_format`: the outbound record. `tag` is the one given;
      `from`, `to` and `info` are copied from the envelope unchanged (the
      raw `info`, not its sanitised form); `filename` is present exactly for
      file transfers and then holds the envelope's value. */
  function MessageFormat(data: Inbound, tag: string): (r: Outbound)
    ensures r.Relay? && r.tag == tag
    ensures r.from == data.from && r.to == data.to && r.info == data.info
    ensures r.filename.Filename? <==> tag == TagFile
    ensures r.filename.Filename? ==> r.filename.value == data.filename
  {
    Relay(tag, data.from, data.to, data.info,
          if tag == TagFile then Filename(data.filename) else NoFilename)
  }

  /** `route_message`: the sends for one outbound record. `public` reaches
      every session in iteration order and takes precedence over a session
      of that name; an active jid gets one send on its own websocket; any
      other target (including a missing one) gets nothing. */
  function RouteSends(order: seq<Jid>, active: map<Jid, ClientRecord>, target: Option<string>,
                      msg: Outbound): (r: seq<Delivery>)
    requires Connected(order, active)
    ensures target == Some(PublicTarget) ==> r == BroadcastSends(order, active, msg)
    ensures target != Some(PublicTarget) && target.Some? && target.value in active
            ==> r == [Deliver(ChannelOf(active[target.value]), msg)]
    ensures target != Some(PublicTarget) && (target.None? || target.value !in active) ==> r == []
  {
    if target == Some(PublicTarget) then BroadcastSends(order, active, msg)
    else if target.Some? && target.value in active then [Deliver(ChannelOf(active[target.value]), msg)]
    else []
  }

  /** True when `process_message` raises: the sender is active and `info`
      cannot be sanitised (it is absent or not a string). */
  predicate Faults(active: map<Jid, ClientRecord>, data: Inbound)
    ensures Faults(active, data) ==> forall s :: Forwarded(active, data, s).None?
  {
    data.from.Some? && data.from.value in active && data.info.None?
  }

  /** The record `process_message` forwards, if any. Nothing is forwarded
      for an inactive sender, for a `message` whose sanitised `info` is
      empty, or for any tag other than `message` and `file`. */
  function Forwarded(active: map<Jid, ClientRecord>, data: Inbound, sanitize: string -> string): (r: Option<Outbound>)
    ensures r.Some? ==> data.from.Some? && data.from.value in active && data.info.Some?
    ensures r.Some? ==> r.value.Relay? && (r.value.tag == TagMessage || r.value.tag == TagFile)
    ensures r.Some? ==> r.value == MessageFormat(data, r.value.tag)
    ensures r.Some? && r.value.tag == TagMessage
            <==> data.from.Some? && data.from.value in active && data.info.Some?
                 && data.tag == Some(TagMessage) && sanitize(data.info.value) != ""
    ensures r.Some? && r.value.tag == TagFile
            <==> data.from.Some? && data.from.value in active && data.info.Some?
                 && data.tag == Some(TagFile)
  {
    if data.from.None? || data.from.value !in active || data.info.None? then None
    else if data.tag == Some(TagMessage) && sanitize(data.info.value) != "" then Some(MessageFormat(data, TagMessage))
    else if data.tag == Some(TagFile) then Some(MessageFormat(data, TagFile))
    else None
  }

  /** Everything `process_message` sends for one envelope (when it does not
      raise): the forwarded record routed to the envelope's own `to`. */
  function ProcessSends(order: seq<Jid>, active: map<Jid, ClientRecord>, data: Inbound,
                        sanitize: string -> string): (r: seq<Delivery>)
    requires Connected(order, active)
    ensures Forwarded(active, data, sanitize).None? ==> r == []
    ensures Forwarded(active, data, sanitize).Some?
            ==> r == RouteSends(order, active, data.to, Forwarded(active, data, sanitize).value)
    ensures data.from.None? || data.from.value !in active ==> r == []
  {
    match Forwarded(active, data, sanitize)
    case None => []
    case Some(msg) => RouteSends(order, active, data.to, msg)
  }
}
