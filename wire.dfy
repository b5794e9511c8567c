/** Values exchanged by the relay: credential records, session records,
    inbound envelopes and the envelopes the server sends. JSON framing is
    not modelled; an envelope is a datatype and a field that is absent,
    null or not a string is `None`. */
module Wire {

  datatype Option<+T> = None | Some(value: T)

  /** A user identity ("jid"), the key of both dictionaries. */
  type Jid = string

  /** An opaque handle standing for one client's websocket. */
  type Channel = nat

  /** A bcrypt hash as stored in the credential table. */
  type Hash = seq<bv8>

  /** The public key a client announces at login: a string, or `None` when
      it is absent, null or not a string. */
  type PublicKey = Option<string>

  /** The static part of a `registered_clients` entry. */
  datatype Credential = Credential(nickname: string, jid: Jid, password: Hash)

  /** A `registered_clients` entry as the server mutates it: login writes
      the client's websocket and public key into the record, and the same
      record object becomes the value in `active_connections`. Before any
      login the record has no websocket (`None`) and no public key. */
  datatype ClientRecord = ClientRecord(cred: Credential, websocket: Option<Channel>, publickey: PublicKey)

  /** One element of the roster in a presence push. */
  datatype RosterEntry = RosterEntry(nickname: string, jid: Jid, publickey: PublicKey)

  /** The `filename` field of a relayed envelope: the key is present only
      for file transfers, and its value is copied as received (possibly null). */
  datatype FilenameField = NoFilename | Filename(value: Option<string>)

  /** The first element of the login envelope's `presence` list. */
  datatype LoginRequest = LoginRequest(jid: Option<string>, password: Option<string>, publickey: PublicKey)

  /** An envelope received after login. */
  datatype Inbound = Inbound(tag: Option<string>, from: Option<string>, to: Option<string>,
                             info: Option<string>, filename: Option<string>)

  /** Everything the server sends. */
  datatype Outbound =
    | ErrorReply(message: string)               // {tag: "error", message}
    | LoginSuccess(nickname: string)            // {tag: "success", message: "Login successful", nickname}
    | PresencePush(presence: seq<RosterEntry>)  // {tag: "presence", presence}
    | Relay(tag: string, from: Option<string>, to: Option<string>, info: Option<string>,
            filename: FilenameField)            // {tag, from, to, info[, filename]}

  /** One `websocket.send`: the envelope and the channel it went to. */
  datatype Delivery = Deliver(channel: Channel, envelope: Outbound)

  const PublicTarget: string := "public"
  const TagMessage: string := "message"
  const TagFile: string := "file"

  /** Longest jid and password the login gate accepts. */
  const MaxFieldLength: nat := 64

  const ErrJidEmpty: string := "* JID cannot be empty"
  const ErrJidTooLong: string := "* JID should be less than 64 characters"
  const ErrPasswordEmpty: string := "* Password cannot be empty"
  const ErrPasswordTooLong: string := "* Password should be less than 64 characters"
  const ErrBadCredentials: string := "Incorrect email and password"
}
