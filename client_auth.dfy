/**
 * The client's session plumbing: the browser storages that hold the `jwt`,
 * the sweep that clears them on logout and before a Google login, and the
 * bearer-token fetch wrappers. The Firebase sign-out and popup, and the
 * server's answers, are parameters.
 */
module ClientAuth {
  import opened Common

  /** `storage.getItem(key)`: the value, or `null`. */
  function GetItem(items: map<string, string>, key: string): (r: Option<string>)
    ensures r.Some? <==> key in items
    ensures r.Some? ==> r.value == items[key]
  {
    if key in items then Some(items[key]) else None
  }

  /** A key the sweep removes: its lower-cased name contains `token` or `auth`. */
  predicate SessionKey(key: string)
  {
    Contains(Lower(key), "token") || Contains(Lower(key), "auth")
  }

  /** What is left of a storage after `removeItem("jwt")` and the sweep of session keys. */
  function Clean(items: map<string, string>): map<string, string>
  {
    map k | k in items && k != "jwt" && !SessionKey(k) :: items[k]
  }

  /** One of the browser's key/value storages (`localStorage` or `sessionStorage`). */
  class WebStorage {
    var items: map<string, string>

    constructor (items: map<string, string>)
      ensures this.items == items
    {
      this.items := items;
    }

    /** `storage.removeItem(key)`. */
    method RemoveItem(key: string)
      modifies this
      ensures items == old(items) - {key}
    {
      items := items - {key};
    }

    /** `storage.setItem(key, value)`. */
    method SetItem(key: string, value: string)
      modifies this
      ensures items == old(items)[key := value]
    {
      items := items[key := value];
    }

    /**
     * `Object.keys(storage).forEach(...)`: every key present when the sweep
     * starts is visited once and removed if it is a session key.
     */
    method SweepSessionKeys()
      modifies this
      ensures items == map k | k in old(items) && !SessionKey(k) :: old(items)[k]
    {
      ghost var start := items;
      var pending := items.Keys;
      while pending != {}
        invariant pending <= start.Keys
        invariant items == map k | k in start && (k in pending || !SessionKey(k)) :: start[k]
        decreases pending
      {
        var k :| k in pending;
        if SessionKey(k) {
          items := items - {k};
        }
        pending := pending - {k};
      }
    }

    /** The jwt removal and the sweep that `logout` and `googleLogin` both perform. */
    method ClearSession()
      modifies this
      ensures items == Clean(old(items))
    {
      RemoveItem("jwt");
      SweepSessionKeys();
    }
  }

  /** Clearing twice leaves what clearing once left. */
  lemma CleanIdempotent(items: map<string, string>)
    ensures Clean(Clean(items)) == Clean(items)
  {
  }

  /**
   * After clearing, no `jwt` and no session key is left; every other key
   * keeps its value.
   */
  lemma CleanMeaning(items: map<string, string>)
    ensures forall k :: k in Clean(items) ==> k in items && Clean(items)[k] == items[k]
    ensures forall k :: k in Clean(items) ==> k != "jwt" && !SessionKey(k)
    ensures forall k :: k in items && k != "jwt" && !SessionKey(k) ==> k in Clean(items)
  {
  }

  /** A Firebase session entry and an id token are session keys. */
  lemma SweptExamples()
    ensures SessionKey("firebase:authUser") && SessionKey("idToken")
  {
    assert Lower("firebase:authUser")[9..][..4] == "auth";
    ContainsAt(Lower("firebase:authUser"), "auth", 9);
    assert Lower("idToken")[2..][..5] == "token";
    ContainsAt(Lower("idToken"), "token", 2);
  }

  /** An unrelated `session` key is not a session key, and neither is `jwt`, which is removed by name. */
  lemma KeptExamples()
    ensures !SessionKey("session") && !SessionKey("jwt")
  {
    assert Lower("session") == "session";
    Lacks(Lower("session"), "token");
    Lacks(Lower("session"), "auth");
    Lacks(Lower("jwt"), "token");
    Lacks(Lower("jwt"), "auth");
  }

  /**
   * `logout()`: Firebase sign-out, then the jwt and every session key go
   * from both storages. A failed sign-out throws before anything is removed.
   */
  method Logout(local: WebStorage, session: WebStorage, signedOut: bool) returns (ok: bool)
    requires local != session
    modifies local, session
    ensures ok == signedOut
    ensures signedOut ==> local.items == Clean(old(local.items)) && session.items == Clean(old(session.items))
    ensures !signedOut ==> local.items == old(local.items) && session.items == old(session.items)
  {
    if !signedOut {
      return false;
    }
    local.ClearSession();
    session.ClearSession();
    return true;
  }

  /** How the Google sign-in went: the popup (or the ID token) failed, the server could not be reached, or it answered. */
  datatype SignIn = PopupFailed(code: string) | ServerFailed | Replied(status: string, token: string)

  /**
   * `googleLogin()`: a logout whose failure is ignored, the popup, a second
   * clearing of both storages, then the exchange of the Firebase token for
   * the server's jwt. Only a `success` answer stores a jwt, in `localStorage`;
   * every failure after the popup runs `logout` once more.
   */
  method GoogleLogin(local: WebStorage, session: WebStorage, signedOut: bool, signIn: SignIn) returns (ok: bool)
    requires local != session
    modifies local, session
    ensures ok <==> signIn.Replied? && signIn.status == "success"
    ensures ok ==> local.items == Clean(old(local.items))["jwt" := signIn.token]
                   && session.items == Clean(old(session.items))
    ensures !ok && (signIn.Replied? || signIn.ServerFailed?) ==>
              local.items == Clean(old(local.items)) && session.items == Clean(old(session.items))
    ensures signIn.PopupFailed? ==>
              if signedOut then local.items == Clean(old(local.items)) && session.items == Clean(old(session.items))
              else local.items == old(local.items) && session.items == old(session.items)
  {
    var _ := Logout(local, session, signedOut);
    if signIn.PopupFailed? {
      if signIn.code != "auth/popup-blocked" {
        CleanIdempotent(old(local.items));
        CleanIdempotent(old(session.items));
        var _ := Logout(local, session, signedOut);
      }
      return false;
    }
    CleanIdempotent(old(local.items));
    CleanIdempotent(old(session.items));
    local.ClearSession();
    session.ClearSession();
    if signIn.Replied? && signIn.status == "success" {
      local.SetItem("jwt", signIn.token);
      return true;
    }
    if signIn.Replied? {
      local.RemoveItem("jwt");
      session.RemoveItem("jwt");
    }
    var _ := Logout(local, session, signedOut);
    return false;
  }

  /** What `fetch` resolves to: the status, the `content-type` header and the JSON body. */
  datatype HttpReply<T> = HttpReply(status: int, contentType: Option<string>, body: T)

  /** The outcome of awaiting `secureFetchJson`: it threw, or it returned `null` or a value. */
  datatype Fetched<T> = Threw | Returned(json: Option<T>)

  /** The `{status, message}` answer most endpoints give. */
  datatype Envelope = Envelope(status: string, message: Option<string>)

  /** A stored jwt that JavaScript treats as true: present and non-empty. */
  function Token(items: map<string, string>): Option<string>
  {
    if Truthy(GetItem(items, "jwt")) then GetItem(items, "jwt") else None
  }

  /** The request headers: the caller's, with `Authorization: Bearer <token>` set over them. */
  function AuthHeaders(headers: map<string, string>, token: string): (h: map<string, string>)
    ensures h.Keys == headers.Keys + {"Authorization"}
    ensures h["Authorization"] == "Bearer " + token
    ensures forall k :: k in headers && k != "Authorization" ==> h[k] == headers[k]
  {
    headers["Authorization" := "Bearer " + token]
  }

  /**
   * `secureFetch(url, {headers})`: `null` without a stored jwt, `null` for a
   * 401 or 403 answer, the answer otherwise. `send` is the network.
   */
  function SecureFetch<T>(local: WebStorage, headers: map<string, string>,
                          send: map<string, string> -> HttpReply<T>): (r: Option<HttpReply<T>>)
    reads local
  {
    match Token(local.items)
    case None => None
    case Some(t) =>
      var res := send(AuthHeaders(headers, t));
      if res.status == 401 || res.status == 403 then None else Some(res)
  }

  /**
   * Without a jwt the answer is `null` whatever the network would say, so no
   * request is made; with one, the request carries the bearer header and
   * only a 401 or 403 answer is turned into `null`.
   */
  lemma SecureFetchMeaning<T>(local: WebStorage, headers: map<string, string>,
                              send: map<string, string> -> HttpReply<T>,
                              other: map<string, string> -> HttpReply<T>)
    ensures Token(local.items).None? ==>
              SecureFetch(local, headers, send) == None && SecureFetch(local, headers, other) == None
    ensures Token(local.items).Some? ==>
              var res := send(AuthHeaders(headers, Token(local.items).value));
              (SecureFetch(local, headers, send).None? <==> res.status in {401, 403})
              && (SecureFetch(local, headers, send).Some? ==> SecureFetch(local, headers, send).value == res)
    ensures Token(local.items).Some? <==> "jwt" in local.items && local.items["jwt"] != ""
  {
  }

  /**
   * `secureFetchJson(url, options)`: `null` when `secureFetch` gave `null` or
   * the answer does not declare `application/json`; the body otherwise.
   */
  function SecureFetchJson<T>(local: WebStorage, headers: map<string, string>,
                              send: map<string, string> -> HttpReply<T>): (r: Option<T>)
    reads local
    ensures var res := SecureFetch(local, headers, send);
      (r.Some? <==> res.Some? && res.value.contentType.Some?
                    && Contains(res.value.contentType.value, "application/json"))
      && (r.Some? ==> r.value == res.value.body)
  {
    match SecureFetch(local, headers, send)
    case None => None
    case Some(res) =>
      if res.contentType.None? || res.contentType.value == "" || !Contains(res.contentType.value, "application/json")
      then None
      else Some(res.body)
  }

  /** Neither wrapper can change a storage: the stored jwt survives a refused request. */
  lemma JsonNeedsToken<T>(local: WebStorage, headers: map<string, string>,
                          send: map<string, string> -> HttpReply<T>)
    ensures SecureFetchJson(local, headers, send).Some? ==> Token(local.items).Some?
    ensures Token(local.items).Some? && send(AuthHeaders(headers, Token(local.items).value)).status in {401, 403}
            ==> SecureFetchJson(local, headers, send).None? && "jwt" in local.items
  {
  }
}
