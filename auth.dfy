/**
 * The user token: kept in `localStorage` under its own key and mirrored in
 * the provider's `token` state, with `setToken`, `logout`, the direct read
 * `getStoredToken` and the token-based `isNewUser`.
 */
module Auth {
  import opened Wrappers
  import opened Storage

  const TokenKey: string := "period_app_user_token"

  const NoProvider: string := "useAuth must be used within AuthProvider"

  /** JavaScript truthiness of a string-or-null value: present and non-empty. */
  predicate Truthy(v: Option<string>) {
    v.Some? && v.value != ""
  }

  /** The entries after `setToken(value)`: a truthy value is written, anything else removes the key. */
  function StoredAfter(entries: map<string, string>, value: Option<string>, fails: bool): map<string, string> {
    if fails then entries
    else if Truthy(value) then entries[TokenKey := value.value]
    else entries - {TokenKey}
  }

  /** The token state after `setToken(value)`: the value itself, or null when storage threw. */
  function TokenAfter(value: Option<string>, fails: bool): Option<string> {
    if fails then None else value
  }

  /** `getStoredToken()` on the entries: the stored value, or null when the read throws. */
  function StoredToken(entries: map<string, string>, readFails: bool): (r: Option<string>)
    ensures readFails ==> r == None
    ensures !readFails ==> r == Lookup(entries, TokenKey)
  {
    if readFails then None else Lookup(entries, TokenKey)
  }

  /** The token-based `isNewUser()`: no usable stored token. */
  predicate IsNewUserOf(entries: map<string, string>, readFails: bool) {
    !Truthy(StoredToken(entries, readFails))
  }

  /** `getStoredToken()`. */
  method GetStoredToken(store: KeyValueStore, readFails: bool) returns (token: Option<string>)
    ensures token == StoredToken(store.entries, readFails)
  {
    var threw, value := store.GetItem(TokenKey, readFails);
    token := if threw then None else value;
  }

  /** `isNewUser()`: true exactly when the stored token is missing, empty or unreadable. */
  method IsNewUser(store: KeyValueStore, readFails: bool) returns (isNew: bool)
    ensures isNew <==> readFails || TokenKey !in store.entries || store.entries[TokenKey] == ""
  {
    var token := GetStoredToken(store, readFails);
    isNew := !Truthy(token);
  }

  /** `useAuth()`: the context value, or the error thrown outside a provider. */
  function UseAuth<T>(ctx: Option<T>): (r: Result<T, string>)
    ensures r.Success? <==> ctx.Some?
    ensures r.Success? ==> r.value == ctx.value
    ensures r.Failure? ==> r.error == NoProvider
  {
    if ctx.Some? then Success(ctx.value) else Failure(NoProvider)
  }

  class AuthProvider {
    var token: Option<string>
    const store: KeyValueStore

    /** A truthy token is the one in storage; an empty or null token may sit beside anything. */
    predicate Synced()
      reads this, store
    {
      Truthy(token) ==> Lookup(store.entries, TokenKey) == token
    }

    /** The initial state: the stored token, or null when the read throws. */
    constructor (store: KeyValueStore, readFails: bool)
      ensures this.store == store
      ensures token == StoredToken(store.entries, readFails)
      ensures Synced()
    {
      this.store := store;
      var threw, value := store.GetItem(TokenKey, readFails);
      token := if threw then None else value;
    }

    /** `setToken(value)`: storage first, then the state; a throwing storage call leaves the token null. */
    method SetToken(value: Option<string>, fails: bool)
      modifies this, store
      ensures store.entries == StoredAfter(old(store.entries), value, fails)
      ensures token == TokenAfter(value, fails)
      ensures Synced()
    {
      var threw: bool;
      if Truthy(value) {
        threw := store.SetItem(TokenKey, value.value, fails);
      } else {
        threw := store.RemoveItem(TokenKey, fails);
      }
      if threw {
        token := None;
      } else {
        token := value;
      }
    }

    /** `logout()`: `setToken(null)`. */
    method Logout(fails: bool)
      modifies this, store
      ensures token == None
      ensures store.entries == if fails then old(store.entries) else old(store.entries) - {TokenKey}
      ensures Synced()
    {
      SetToken(None, fails);
    }
  }

  /**
   * With working storage, what `setToken(v)` stores is what `getStoredToken()`
   * reads back when `v` is truthy, and nothing otherwise; the token-based
   * `isNewUser()` then says new exactly when `v` was not truthy. Other keys
   * are untouched.
   */
  lemma SetTokenReadBack(entries: map<string, string>, v: Option<string>, other: string)
    ensures StoredToken(StoredAfter(entries, v, false), false) == if Truthy(v) then v else None
    ensures IsNewUserOf(StoredAfter(entries, v, false), false) <==> !Truthy(v)
    ensures other != TokenKey ==>
      (Lookup(StoredAfter(entries, v, true), other) == Lookup(entries, other)
       && Lookup(StoredAfter(entries, v, false), other) == Lookup(entries, other))
  {
  }

  /** A throwing `setToken` leaves the token null whatever was passed, and storage as it was. */
  lemma SetTokenThrows(entries: map<string, string>, v: Option<string>)
    ensures TokenAfter(v, true) == None && StoredAfter(entries, v, true) == entries
  {
  }

  /** Logging out twice is logging out once. */
  lemma LogoutIdempotent(entries: map<string, string>, fails1: bool, fails2: bool)
    ensures var once := StoredAfter(entries, None, fails1);
      StoredAfter(once, None, fails2) == StoredAfter(entries, None, fails1 && fails2)
    ensures TokenAfter(None, fails1) == TokenAfter(None, fails2) == None
  {
  }

  /** After a working logout the key is absent and the token-based `isNewUser()` says new. */
  lemma LogoutMakesNew(entries: map<string, string>, readFails: bool)
    ensures TokenKey !in StoredAfter(entries, None, false)
    ensures IsNewUserOf(StoredAfter(entries, None, false), readFails)
  {
  }
}
