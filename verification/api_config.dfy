/** The browser side of the bearer scheme: which stored token a page uses and
    the headers its requests carry. */
module ApiConfig {
  import opened Common
  import opened Text
  import AuthMiddleware

  const DefaultMediaBaseUrl: string := "http://72.60.219.145:5004"

  /** `NEXT_PUBLIC_MEDIA_BASE_URL || default`. */
  function MediaBaseUrl(configured: string): (u: string)
    ensures configured != "" ==> u == configured
    ensures configured == "" ==> u == DefaultMediaBaseUrl
  {
    if configured != "" then configured else DefaultMediaBaseUrl
  }

  /** The page the code runs in: its path and its `localStorage`. */
  datatype Window = Window(pathname: string, storage: map<string, string>)

  /** Pages under `/client` use the client's token, every other page the
      administrator's. */
  function TokenKey(pathname: string): (key: string)
    ensures key == "client_token" <==> StartsWith(pathname, "/client")
    ensures key == "admin_token" <==> !StartsWith(pathname, "/client")
  {
    if StartsWith(pathname, "/client") then "client_token" else "admin_token"
  }

  /** `getTokenFromStorage`: nothing during server rendering (no window),
      else the stored value under the page's key. */
  function StoredToken(win: Option<Window>): (t: Option<string>)
    ensures win.None? ==> t.None?
    ensures win.Some? ==> (t.Some? <==> TokenKey(win.value.pathname) in win.value.storage)
    ensures t.Some? ==> t.value == win.value.storage[TokenKey(win.value.pathname)]
  {
    match win
    case None => None
    case Some(w) =>
      var key := TokenKey(w.pathname);
      if key in w.storage then Some(w.storage[key]) else None
  }

  type Headers = map<string, string>

  /** A token is usable when present and non-empty (JavaScript truthiness). */
  predicate HasToken(t: Option<string>) { t.Some? && t.value != "" }

  /** `getAuthHeaders`: always the JSON content type, plus the bearer
      credential when there is a token. */
  function AuthHeaders(win: Option<Window>): (h: Headers)
    ensures "Content-Type" in h && h["Content-Type"] == "application/json"
    ensures "Authorization" in h <==> HasToken(StoredToken(win))
    ensures "Authorization" in h ==> h["Authorization"] == "Bearer " + StoredToken(win).value
    ensures h.Keys <= {"Content-Type", "Authorization"}
  {
    var t := StoredToken(win);
    if !HasToken(t) then map["Content-Type" := "application/json"]
    else map["Authorization" := "Bearer " + t.value, "Content-Type" := "application/json"]
  }

  /** `getAuthHeadersMultipart`: the bearer credential only; the browser sets
      the multipart content type itself. */
  function MultipartHeaders(win: Option<Window>): (h: Headers)
    ensures "Content-Type" !in h
    ensures h.Keys <= {"Authorization"}
    ensures "Authorization" in h <==> HasToken(StoredToken(win))
    ensures "Authorization" in h ==> h["Authorization"] == "Bearer " + StoredToken(win).value
  {
    var t := StoredToken(win);
    if !HasToken(t) then map[] else map["Authorization" := "Bearer " + t.value]
  }

  /** The header the page sends is the one the server's gate reads back: a
      token without spaces comes out of `authenticate` exactly as it went in. */
  lemma {:induction false} HeaderReachesGate(win: Option<Window>)
    requires HasToken(StoredToken(win))
    requires ' ' !in StoredToken(win).value
    ensures var header := AuthHeaders(win)["Authorization"];
            && AuthMiddleware.HasBearerPrefix(Some(header))
            && AuthMiddleware.BearerToken(header) == StoredToken(win).value
  {
    var t := StoredToken(win).value;
    var header := "Bearer " + t;
    assert header[..7] == "Bearer ";
    assert header[7..] == t;
    AuthMiddleware.BearerTokenIsSecondWord(header);
    assert FirstIndex(t, ' ') == |t|;
    assert t[..|t|] == t;
  }
}
