/**
  Session handling: the in-memory session store, the parser that finds the session id in
  a Cookie header, and the lookups built on it. Creating a session (a random UUID and the
  current time) is outside the model; callers pass the id and the time in.
 */
module Auth {
  import opened Wrappers
  import opened Http
  import opened Text

  datatype Session = Session(userId: int, username: string, createdAt: int)

  /** The shared map from session id to session. */
  class SessionStore {
    var sessions: map<string, Session>

    constructor ()
      ensures sessions == map[]
    {
      sessions := map[];
    }
  }

  /** The cookie name with its `=`, eleven characters. */
  const SessionPrefix: string := "session_id="

  /** A `;`-separated piece of a cookie header that carries the session id. */
  predicate IsSessionPiece(piece: string) {
    StartsWith(Trim(piece), SessionPrefix)
  }

  /**
    Whitespace around a piece, such as the space that follows each `;` in a Cookie header,
    changes neither whether the piece carries the session id nor the id found in it.
   */
  lemma SessionPieceIgnoresSpacing(pre: string, piece: string, post: string)
    requires AllWhitespace(pre) && AllWhitespace(post)
    ensures IsSessionPiece(pre + piece + post) <==> IsSessionPiece(piece)
    ensures FindSessionId([pre + piece + post]) == FindSessionId([piece])
  {
    TrimIgnoresSurroundingWhitespace(pre, piece, post);
    assert [pre + piece + post][1..] == [] && [piece][1..] == [];
  }

  /**
    The `find_map` over the pieces: what follows the prefix in the first piece that,
    trimmed, starts with `session_id=`.
   */
  function FindSessionId(pieces: seq<string>): (id: Option<string>)
    ensures id.None? <==> forall j :: 0 <= j < |pieces| ==> !IsSessionPiece(pieces[j])
    decreases |pieces|
  {
    if pieces == [] then None
    else if IsSessionPiece(pieces[0]) then Some(Trim(pieces[0])[|SessionPrefix|..])
    else
      var rest := FindSessionId(pieces[1..]);
      assert forall j :: 1 <= j < |pieces| ==> pieces[j] == pieces[1..][j - 1];
      rest
  }

  /** An id found in pieces free of a character is free of it too. */
  lemma {:induction false} FoundIdAvoids(pieces: seq<string>, c: char)
    requires forall j :: 0 <= j < |pieces| ==> c !in pieces[j]
    ensures FindSessionId(pieces).Some? ==> c !in FindSessionId(pieces).value
    decreases |pieces|
  {
    if pieces != [] {
      if IsSessionPiece(pieces[0]) {
        var trimmed := Trim(pieces[0]);
        assert forall x :: x in trimmed[|SessionPrefix|..] ==> x in trimmed;
      } else {
        FoundIdAvoids(pieces[1..], c);
      }
    }
  }

  /**
    `extract_session_id`: split the header on `;` and return what follows `session_id=`
    in the first piece that, trimmed, starts with it. The id never contains `;`.
   */
  function ExtractSessionId(cookie: string): (id: Option<string>)
    ensures id.Some? ==> ';' !in id.value
  {
    var pieces := Split(cookie, ';');
    FoundIdAvoids(pieces, ';');
    FindSessionId(pieces)
  }

  /** A cookie header yields no session id exactly when none of its pieces carries one. */
  lemma NoSessionIdIffNoSessionPiece(cookie: string, pieces: seq<string>)
    requires pieces == Split(cookie, ';')
    ensures ExtractSessionId(cookie).None? <==> forall j :: 0 <= j < |pieces| ==> !IsSessionPiece(pieces[j])
  {
    assert ExtractSessionId(cookie) == FindSessionId(pieces);
  }

  /**
    When several pieces carry a session id the first one wins, and the id is that piece,
    trimmed, without its eleven-character prefix.
   */
  lemma {:induction false} FirstPieceWins(pieces: seq<string>, i: nat)
    requires i < |pieces|
    requires IsSessionPiece(pieces[i])
    requires forall j :: 0 <= j < i ==> !IsSessionPiece(pieces[j])
    ensures FindSessionId(pieces) == Some(Trim(pieces[i])[|SessionPrefix|..])
    ensures SessionPrefix + FindSessionId(pieces).value == Trim(pieces[i])
    decreases i
  {
    if i > 0 {
      assert !IsSessionPiece(pieces[0]);
      FirstPieceWins(pieces[1..], i - 1);
      assert pieces[1..][i - 1] == pieces[i];
    }
  }

  /** What the login cookie carries after the `;` that ends its first piece. */
  const LoginCookieAttributes: string := " Path=/; HttpOnly"

  /**
    The value of the `Set-Cookie` header a successful login sends: `session_id=<id>; Path=/; HttpOnly`.
    For an id without `;` its first piece, the name-value pair a client echoes back, is
    `session_id=<id>`, and the attributes follow the first `;`.
   */
  function LoginCookie(id: string): (c: string)
    ensures ';' !in id ==> Split(c, ';') == [SessionPrefix + id] + Split(LoginCookieAttributes, ';')
  {
    var pair := SessionPrefix + id;
    assert ';' !in id ==> Split(pair + [';'] + LoginCookieAttributes, ';') == [pair] + Split(LoginCookieAttributes, ';') by {
      if ';' !in id {
        assert forall x :: x in pair ==> x in SessionPrefix || x in id;
        SplitAtFirstSeparator(pair, LoginCookieAttributes, ';');
      }
    }
    pair + [';'] + LoginCookieAttributes
  }

  /**
    An id without `;` and without trailing whitespace is found again in the cookie a
    client echoes back.
   */
  lemma SessionCookieRoundTrip(id: string)
    requires ';' !in id
    requires id != [] ==> !IsWhitespace(id[|id| - 1])
    ensures ExtractSessionId(SessionPrefix + id) == Some(id)
  {
    var piece := SessionPrefix + id;
    BarePieceIsSessionPiece(id);
    SplitWithoutSeparator(piece, ';');
    FirstPieceWins(Split(piece, ';'), 0);
  }

  /** `session_id=<id>` needs no trimming, carries the session id, and holds no `;`. */
  lemma BarePieceIsSessionPiece(id: string)
    requires ';' !in id
    requires id != [] ==> !IsWhitespace(id[|id| - 1])
    ensures ';' !in SessionPrefix + id
    ensures IsSessionPiece(SessionPrefix + id)
    ensures Trim(SessionPrefix + id)[|SessionPrefix|..] == id
  {
    var piece := SessionPrefix + id;
    assert ';' !in piece by {
      assert forall c :: c in piece ==> c in SessionPrefix || c in id;
    }
    assert piece[0] == 's' && (id == [] ==> piece[|piece| - 1] == '=');
    assert id != [] ==> piece[|piece| - 1] == id[|id| - 1];
    TrimUntouched(piece);
    assert piece[..|SessionPrefix|] == SessionPrefix;
    assert piece[|SessionPrefix|..] == id;
  }

  /** The session id carried by an optional Cookie header, if its bytes are text and it has one. */
  function CookieSessionId(cookie: Option<HeaderValue>): (id: Option<string>)
    ensures cookie.None? ==> id.None?
    ensures cookie.Some? && HeaderToStr(cookie.value).None? ==> id.None?
    ensures cookie.Some? && HeaderToStr(cookie.value).Some? ==> id == ExtractSessionId(HeaderToStr(cookie.value).value)
  {
    match cookie
    case None => None
    case Some(value) =>
      match HeaderToStr(value)
      case None => None
      case Some(text) => ExtractSessionId(text)
  }

  /**
    `get_session`: no session without a cookie header or without a session id in it;
    otherwise the store's entry for that id, which may be missing.
   */
  function GetSession(cookie: Option<HeaderValue>, sessions: map<string, Session>): (s: Option<Session>)
    ensures CookieSessionId(cookie).None? ==> s.None?
    ensures CookieSessionId(cookie).Some? ==>
      (s.Some? <==> CookieSessionId(cookie).value in sessions) &&
      (s.Some? ==> s.value == sessions[CookieSessionId(cookie).value])
  {
    match CookieSessionId(cookie)
    case None => None
    case Some(id) => if id in sessions then Some(sessions[id]) else None
  }

  /** A header that reads as text carrying an id opens the session stored under that id. */
  lemma SessionFromText(value: HeaderValue, text: string, id: string, sessions: map<string, Session>)
    requires HeaderToStr(value) == Some(text)
    requires ExtractSessionId(text) == Some(id)
    ensures id in sessions ==> GetSession(Some(value), sessions) == Some(sessions[id])
    ensures id !in sessions ==> GetSession(Some(value), sessions).None?
  {
    assert CookieSessionId(Some(value)) == Some(id);
  }

  /** The rejection `require_auth` answers with: 401 and a redirect to the login page. */
  datatype Rejection = Rejection(status: int, redirectTo: string)

  /** `require_auth`: the session when `get_session` finds one, otherwise the rejection. */
  function RequireAuth(cookie: Option<HeaderValue>, sessions: map<string, Session>): (r: Result<Session, Rejection>)
    ensures r.Ok? <==> GetSession(cookie, sessions).Some?
    ensures r.Ok? ==> r.value == GetSession(cookie, sessions).value
    ensures r.Err? ==> r.error == Rejection(UNAUTHORIZED, "/login")
  {
    match GetSession(cookie, sessions)
    case Some(s) => Ok(s)
    case None => Err(Rejection(UNAUTHORIZED, "/login"))
  }
}
