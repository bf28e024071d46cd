/**
 * The browser's `localStorage` as the pages use it: a string-to-string map
 * shared by the login, password, two-factor and idle-logout code.
 */
module Storage {
  import opened Wrappers

  const TokenKey := "token"
  const UsernameKey := "username"
  const AttemptsKey := "login_attempts"
  const LastActivityKey := "LastActivity"

  class LocalStorage {
    var items: map<string, string>

    constructor (initial: map<string, string>)
      ensures items == initial
    {
      items := initial;
    }

    /** `getItem`: the stored text, `None` for `null`. */
    function GetItem(key: string): (r: Option<string>)
      reads this
      ensures r.Some? <==> key in items
      ensures r.Some? ==> r.value == items[key]
    {
      if key in items then Some(items[key]) else None
    }

    /** `setItem`: the key holds the value, every other key is unchanged. */
    method SetItem(key: string, value: string)
      modifies this
      ensures items == old(items)[key := value]
    {
      items := items[key := value];
    }

    /** `removeItem`: the key is gone, every other key is unchanged. */
    method RemoveItem(key: string)
      modifies this
      ensures items == old(items) - {key}
    {
      items := items - {key};
    }
  }
}
