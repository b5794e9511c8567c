/** The authenticator and the login gate's validation chain. The password
    check (`bcrypt.checkpw`) is an opaque capability passed in as `verify`:
    `verify(hash, password)` says whether `password` matches `hash`. */
module Auth {
  import opened Wire

  /** `authenticate_user`: an unknown jid is refused outright, without
      consulting the verifier (the result is false whatever `verify` is);
      a known jid gets exactly the verifier's answer on its stored hash. */
  function Authenticate(registered: map<Jid, ClientRecord>, verify: (Hash, string) -> bool,
                        jid: string, password: string): (ok: bool)
    ensures ok ==> jid in registered
    ensures jid in registered ==> (ok <==> verify(registered[jid].cred.password, password))
  {
    if jid in registered then verify(registered[jid].cred.password, password) else false
  }

  /** True when both fields pass the four length checks of the login gate. */
  predicate WellFormedLogin(jid: string, password: string)
  {
    jid != "" && |jid| <= MaxFieldLength && password != "" && |password| <= MaxFieldLength
  }

  /** The if/elif chain of `handle_client`, applied to the sanitised jid and
      password: `None` lets the login through, `Some(m)` is the one error
      message sent back. The checks run in a fixed order and the first
      failure decides the message. */
  function LoginError(registered: map<Jid, ClientRecord>, verify: (Hash, string) -> bool,
                      jid: string, password: string): (r: Option<string>)
    ensures r.None? <==> WellFormedLogin(jid, password) && Authenticate(registered, verify, jid, password)
    ensures r.None? ==> jid in registered
    ensures jid == "" ==> r == Some(ErrJidEmpty)
    ensures jid != "" && |jid| > MaxFieldLength ==> r == Some(ErrJidTooLong)
    ensures jid != "" && |jid| <= MaxFieldLength && password == "" ==> r == Some(ErrPasswordEmpty)
    ensures jid != "" && |jid| <= MaxFieldLength && password != "" && |password| > MaxFieldLength
            ==> r == Some(ErrPasswordTooLong)
    ensures WellFormedLogin(jid, password) && !Authenticate(registered, verify, jid, password)
            ==> r == Some(ErrBadCredentials)
  {
    if jid == "" then Some(ErrJidEmpty)
    else if |jid| > MaxFieldLength then Some(ErrJidTooLong)
    else if password == "" then Some(ErrPasswordEmpty)
    else if |password| > MaxFieldLength then Some(ErrPasswordTooLong)
    else if Authenticate(registered, verify, jid, password) then None
    else Some(ErrBadCredentials)
  }

  /** A login that fails one of the four length checks is refused with the
      same message whatever the credential table and the verifier are:
      the password hash is never consulted for it. */
  lemma MalformedLoginSkipsVerifier(reg1: map<Jid, ClientRecord>, reg2: map<Jid, ClientRecord>,
                                    v1: (Hash, string) -> bool, v2: (Hash, string) -> bool,
                                    jid: string, password: string)
    requires !WellFormedLogin(jid, password)
    ensures LoginError(reg1, v1, jid, password) == LoginError(reg2, v2, jid, password)
    ensures LoginError(reg1, v1, jid, password).Some?
  {
  }
}
