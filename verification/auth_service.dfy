/**
 * The client session (client services/auth.ts): the token and the current user, held
 * in memory and mirrored in the browser's local storage under the keys "token" and
 * "user". Local storage is a map field; the user is stored in serialised form.
 */
module AuthService {
  import opened Js

  datatype User = User(id: string, username: string, email: string)

  /** A stored value: plain text, or the `JSON.stringify` of a user. */
  datatype Stored = Text(text: string) | UserJson(user: User)

  /** The server's answer to a login or registration. */
  datatype AuthResponse = AuthResponse(success: bool, message: string, token: string, user: User)

  /** What the service holds in memory. */
  datatype Session = Session(token: Option<string>, user: Option<User>)

  const TokenKey := "token"
  const UserKey := "user"

  /** `loadFromStorage` on a fresh service: the token is restored only when a non-empty one
    * is stored, the user only when one is stored; each independently of the other. */
  function Restore(storage: map<string, Stored>): (s: Session)
    ensures s.token.Some? <==> TokenKey in storage && storage[TokenKey].Text? && storage[TokenKey].text != ""
    ensures s.token.Some? ==> s.token.value == storage[TokenKey].text
    ensures s.user.Some? <==> UserKey in storage && storage[UserKey].UserJson?
    ensures s.user.Some? ==> s.user.value == storage[UserKey].user
  {
    var token := if TokenKey in storage && storage[TokenKey].Text? && storage[TokenKey].text != ""
                 then Some(storage[TokenKey].text) else None;
    var user := if UserKey in storage && storage[UserKey].UserJson? then Some(storage[UserKey].user) else None;
    Session(token, user)
  }

  /** The storage `setUserAndToken` leaves behind. */
  function Saved(storage: map<string, Stored>, user: User, token: string): map<string, Stored>
  {
    storage[TokenKey := Text(token)][UserKey := UserJson(user)]
  }

  /** The storage `logout` leaves behind. */
  function Cleared(storage: map<string, Stored>): map<string, Stored>
  {
    storage - {TokenKey, UserKey}
  }

  /** `!!token`. */
  function LoggedIn(token: Option<string>): (b: bool)
    ensures b <==> token.Some? && token.value != ""
  {
    TruthyStr(token)
  }

  /** A session saved and then reloaded comes back as it was, except that an empty token
    * is not restored (it was not a login anyway). */
  lemma ReloadAfterSave(storage: map<string, Stored>, user: User, token: string)
    ensures Restore(Saved(storage, user, token)) == Session(if token != "" then Some(token) else None, Some(user))
    ensures LoggedIn(Restore(Saved(storage, user, token)).token) == LoggedIn(Some(token))
  {
    var m := Saved(storage, user, token);
    assert TokenKey in m && m[TokenKey] == Text(token);
    assert UserKey in m && m[UserKey] == UserJson(user);
  }

  /** After a logout, a reload finds nobody logged in, whatever else is stored. */
  lemma ReloadAfterLogout(storage: map<string, Stored>)
    ensures Restore(Cleared(storage)) == Session(None, None)
  {
    assert TokenKey !in Cleared(storage) && UserKey !in Cleared(storage);
  }

  class Auth {
    var storage: map<string, Stored>
    var token: Option<string>
    var user: Option<User>

    /** The constructor runs `loadFromStorage` over the initial storage. */
    constructor (initial: map<string, Stored>)
      ensures storage == initial
      ensures Session(token, user) == Restore(initial)
    {
      storage := initial;
      token := None;
      user := None;
      new;
      LoadFromStorage();
    }

    /** `loadFromStorage`: each of token and user is replaced only when storage holds one. */
    method LoadFromStorage()
      modifies this
      ensures storage == old(storage)
      ensures token == if Restore(storage).token.Some? then Restore(storage).token else old(token)
      ensures user == if Restore(storage).user.Some? then Restore(storage).user else old(user)
    {
      if TokenKey in storage && storage[TokenKey].Text? && storage[TokenKey].text != "" {
        token := Some(storage[TokenKey].text);
      }
      if UserKey in storage && storage[UserKey].UserJson? {
        user := Some(storage[UserKey].user);
      }
    }

    /** `setUserAndToken`: storage and memory both hold the new user and token. */
    method SetUserAndToken(u: User, t: string)
      modifies this
      ensures storage == Saved(old(storage), u, t)
      ensures token == Some(t) && user == Some(u)
      ensures GetToken() == Some(t) && GetCurrentUser() == Some(u) && (IsLoggedIn() <==> t != "")
    {
      storage := storage[TokenKey := Text(t)];
      storage := storage[UserKey := UserJson(u)];
      user := Some(u);
      token := Some(t);
    }

    /** The success handling of `login` and `register`: only a successful answer is kept. */
    method OnAuthResponse(response: AuthResponse)
      modifies this
      ensures response.success ==> storage == Saved(old(storage), response.user, response.token)
                                   && token == Some(response.token) && user == Some(response.user)
      ensures !response.success ==> storage == old(storage) && token == old(token) && user == old(user)
    {
      if response.success {
        SetUserAndToken(response.user, response.token);
      }
    }

    /** `logout`: both keys leave storage and memory forgets the session. */
    method Logout()
      modifies this
      ensures storage == Cleared(old(storage))
      ensures token == None && user == None
      ensures GetToken() == None && GetCurrentUser() == None && !IsLoggedIn()
    {
      storage := storage - {TokenKey};
      storage := storage - {UserKey};
      user := None;
      token := None;
      assert storage == old(storage) - {TokenKey, UserKey};
    }

    /** `getToken`. */
    function GetToken(): Option<string>
      reads this
    {
      token
    }

    /** `getCurrentUser`. */
    function GetCurrentUser(): Option<User>
      reads this
    {
      user
    }

    /** `isLoggedIn`: a non-empty token is held; the user plays no part. */
    function IsLoggedIn(): (b: bool)
      reads this
      ensures b <==> token.Some? && token.value != ""
    {
      LoggedIn(GetToken())
    }
  }
}
