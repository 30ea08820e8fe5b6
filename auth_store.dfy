/** The web client's auth store module: the token and the user in the state,
    the token mirrored in local storage under 'jwtToken', the default
    Authorization header of the HTTP client, the roles-claim parsing, the
    getters and the login actions. The backend's answer to
    /auth/authenticate and the decoded token are parameters. */
module AuthStore {
  import opened Common

  /** A JavaScript value is truthy: null, undefined and "" are not. */
  predicate Truthy(s: Option<string>)
  {
    s.Some? && s.value != ""
  }

  /** The `roles` claim of a decoded token, by its JavaScript type. */
  datatype RolesClaim = Absent | ListClaim(items: seq<string>) | TextClaim(text: string) | OtherClaim

  /** A decoded token's claims the store reads. */
  datatype Decoded = Decoded(roles: RolesClaim, userID: Option<string>, email: Option<string>)

  /** The user object the store keeps. */
  datatype UserData = UserData(roles: seq<string>, userID: Option<string>, email: Option<string>)

  /** How the call to /auth/authenticate ended: an answer, or an error with the
      response status when there was a response. */
  datatype Check = Answered(valid: bool) | Errored(status: Option<int>)

  // ---------------------------------------------------------------------------
  // Roles claim
  // ---------------------------------------------------------------------------

  /** Parsing the roles claim: an array is kept, a text with commas is split
      and each piece trimmed, other non-empty text is one trimmed role, and a
      missing, empty or otherwise typed claim gives no roles. */
  function ParseRoles(claim: RolesClaim): (r: seq<string>)
    ensures claim.ListClaim? ==> r == claim.items
    ensures claim.TextClaim? && ',' in claim.text ==>
      |r| == |Split(claim.text, ',')| && forall i :: 0 <= i < |r| ==> r[i] == Trim(Split(claim.text, ',')[i])
    ensures claim.TextClaim? && claim.text != "" && ',' !in claim.text ==> r == [Trim(claim.text)]
    ensures claim.Absent? || claim.OtherClaim? || claim == TextClaim("") ==> r == []
  {
    match claim
    case ListClaim(items) => items
    case TextClaim(text) =>
      if text == "" then []
      else if ',' in text then TrimAll(Split(text, ','))
      else [Trim(text)]
    case _ => []
  }

  /** `map(r => r.trim())`. */
  function TrimAll(pieces: seq<string>): (r: seq<string>)
    ensures |r| == |pieces| && forall i :: 0 <= i < |r| ==> r[i] == Trim(pieces[i])
  {
    if pieces == [] then []
    else
      var rest := TrimAll(pieces[1..]);
      assert forall i :: 1 <= i < |pieces| ==> pieces[1..][i - 1] == pieces[i];
      [Trim(pieces[0])] + rest
  }

  /** A text with nothing to trim at either end. */
  predicate Trimmed(s: string)
  {
    s == [] || (!IsSpace(s[0]) && !IsSpace(s[|s| - 1]))
  }

  lemma TrimKeepsTrimmed(s: string)
    requires Trimmed(s)
    ensures Trim(s) == s
  {
    if s != [] {
      assert LeadingSpace(s) == 0 && TrailingSpace(s) == 0;
      assert s[0..|s|] == s;
    }
  }

  lemma TrimAllKeepsTrimmed(pieces: seq<string>)
    requires forall i :: 0 <= i < |pieces| ==> Trimmed(pieces[i])
    ensures TrimAll(pieces) == pieces
  {
    var trimmed := TrimAll(pieces);
    forall i | 0 <= i < |pieces|
      ensures trimmed[i] == pieces[i]
    {
      TrimKeepsTrimmed(pieces[i]);
    }
  }

  /** A comma-joined text of two or more pieces parses to the pieces, trimmed. */
  lemma ParseJoinedRoles(pieces: seq<string>)
    requires |pieces| >= 2
    requires forall i :: 0 <= i < |pieces| ==> ',' !in pieces[i]
    ensures ParseRoles(TextClaim(Join(pieces, ','))) == TrimAll(pieces)
  {
    var text := Join(pieces, ',');
    assert text == pieces[0] + [','] + Join(pieces[1..], ',');
    assert text[|pieces[0]|] == ',';
    assert text != "" && ',' in text;
    SplitJoin(pieces, ',');
  }

  /** Trimmed roles joined with commas parse back to the same roles. */
  lemma ParseJoinedTrimmedRoles(roles: seq<string>)
    requires |roles| >= 2
    requires forall i :: 0 <= i < |roles| ==> ',' !in roles[i] && Trimmed(roles[i])
    ensures ParseRoles(TextClaim(Join(roles, ','))) == roles
  {
    ParseJoinedRoles(roles);
    TrimAllKeepsTrimmed(roles);
  }

  /** The user object built from a decoded token. */
  function UserOf(d: Decoded): (u: UserData)
    ensures u.roles == ParseRoles(d.roles) && u.userID == d.userID && u.email == d.email
  {
    UserData(ParseRoles(d.roles), d.userID, d.email)
  }

  // ---------------------------------------------------------------------------
  // State, mutations, getters
  // ---------------------------------------------------------------------------

  class Store {
    var token: Option<string>
    var user: Option<UserData>
    /** localStorage 'jwtToken'. */
    var storedToken: Option<string>
    /** The HTTP client's default Authorization header. */
    var authHeader: Option<string>

    /** The state's token and the stored token agree: a truthy token is
        stored, and without one nothing truthy is stored. */
    ghost predicate Synced()
      reads this
    {
      (Truthy(token) ==> storedToken == token) && (!Truthy(token) ==> !Truthy(storedToken))
    }

    /** The initial state: the stored token, if truthy, and no user. */
    constructor (stored: Option<string>, header: Option<string>)
      ensures token == (if Truthy(stored) then stored else None) && user.None?
      ensures storedToken == stored && authHeader == header
      ensures Synced()
    {
      token := if Truthy(stored) then stored else None;
      user := None;
      storedToken := stored;
      authHeader := header;
    }

    /** `SET_TOKEN`. */
    method SetToken(t: Option<string>)
      modifies this
      ensures token == t && storedToken == (if Truthy(t) then t else None)
      ensures user == old(user) && authHeader == old(authHeader)
      ensures Synced()
    {
      token := t;
      if Truthy(t) {
        storedToken := t;
      } else {
        storedToken := None;
      }
    }

    /** `SET_USER`. */
    method SetUser(u: Option<UserData>)
      modifies this
      ensures user == u
      ensures token == old(token) && storedToken == old(storedToken) && authHeader == old(authHeader)
    {
      user := u;
    }

    /** `CLEAR_AUTH`, which is all `logout` does. */
    method ClearAuth()
      modifies this
      ensures token.None? && user.None? && storedToken.None? && authHeader.None?
      ensures Synced() && !IsLoggedIn()
    {
      token := None;
      user := None;
      storedToken := None;
      authHeader := None;
    }

    /** `isLoggedIn`. */
    predicate IsLoggedIn()
      reads this
    {
      Truthy(token) && user.Some?
    }

    /** `userRoles`: the user's roles, none without a user. */
    function UserRoles(): (r: seq<string>)
      reads this
      ensures user.None? ==> r == []
      ensures user.Some? ==> r == user.value.roles
    {
      if user.Some? then user.value.roles else []
    }

    /** `isOrganizer`, `isParticipant`, `isAdmin`: exact membership of one role. */
    predicate HasRole(role: string)
      reads this
    {
      role in UserRoles()
    }

    /** `processLoginToken`: stores the token, then keeps the user of a token
        the backend accepts and that decodes; anything else logs out. */
    method ProcessLoginToken(t: Option<string>, check: Check, decoded: Option<Decoded>) returns (ok: bool)
      modifies this
      ensures ok <==> check == Answered(true) && decoded.Some?
      ensures ok ==> token == t && user == Some(UserOf(decoded.value)) && Synced()
      ensures ok ==> authHeader == old(authHeader) && (IsLoggedIn() <==> Truthy(t))
      ensures !ok ==> token.None? && user.None? && storedToken.None? && authHeader.None? && !IsLoggedIn()
    {
      SetToken(t);
      if check == Answered(true) && decoded.Some? {
        SetUser(Some(UserOf(decoded.value)));
        return true;
      }
      ClearAuth();
      return false;
    }

    /** `tryAutoLogin`: without a truthy token nothing happens. Otherwise the
        header is set if it is not truthy; an accepted token that decodes
        restores the user, a refused one logs out, and an error (a failed
        decode included) logs out only on a 401 or 403 response and otherwise
        leaves the state as it was, apart from the header just installed. */
    method TryAutoLogin(check: Check, decoded: Option<Decoded>) returns (ok: bool)
      requires Synced()
      modifies this
      ensures !Truthy(old(token)) ==>
        !ok && token == old(token) && user == old(user) && storedToken == old(storedToken) && authHeader == old(authHeader)
      ensures Truthy(old(token)) ==> (ok <==> check == Answered(true) && decoded.Some?)
      ensures ok ==> token == old(token) && user == Some(UserOf(decoded.value)) && Synced()
      ensures Truthy(old(token)) && (check == Answered(false) || check == Errored(Some(401)) || check == Errored(Some(403))) ==>
        token.None? && user.None? && storedToken.None? && authHeader.None?
      ensures Truthy(old(token)) && check != Answered(false) && check != Errored(Some(401)) && check != Errored(Some(403)) ==>
        authHeader == (if Truthy(old(authHeader)) then old(authHeader) else Some("Bearer " + old(token).value))
      ensures Truthy(old(token)) && !ok && check != Answered(false) && check != Errored(Some(401)) && check != Errored(Some(403)) ==>
        token == old(token) && user == old(user) && storedToken == old(storedToken) && Synced()
    {
      if !Truthy(token) {
        return false;
      }
      if !Truthy(authHeader) {
        authHeader := Some("Bearer " + token.value);
      }
      match check
      case Answered(valid) =>
        if !valid {
          ClearAuth();
          return false;
        }
        if decoded.None? {
          return false;
        }
        SetToken(token);
        SetUser(Some(UserOf(decoded.value)));
        return true;
      case Errored(status) =>
        if status == Some(401) || status == Some(403) {
          ClearAuth();
        }
        return false;
    }
  }
}
