/**
 * The two entries the application keeps in the browser's key-value store.
 * The store itself is a thin wrapper around `window.localStorage`; here each
 * key is a field of one object, holding the decoded value (JSON encoding and
 * storage-access failures are not modelled).
 */
module Storage {

  import opened Wrappers

  /**
   * A registered user, exactly as the signup form holds it. The signup page
   * stores the whole form record, so `confirmPassword` is persisted too.
   */
  datatype UserRecord = UserRecord(
    fullname: string,
    email: string,
    password: string,
    confirmPassword: string,
    gender: string,
    mobile: string)

  /** The form as it starts out and as it is reset after a successful signup. */
  const EmptyForm := UserRecord("", "", "", "", "", "")

  /** The persisted entries: "userData" (the list of users) and "loggedUser" (the session slot). */
  class LocalStore {
    var userData: Option<seq<UserRecord>>
    var loggedUser: Option<UserRecord>

    constructor ()
      ensures userData == None && loggedUser == None
    {
      userData := None;
      loggedUser := None;
    }
  }

  /** The user list both pages read: an absent "userData" entry reads as the empty list. */
  function StoredUsers(entry: Option<seq<UserRecord>>): seq<UserRecord>
  {
    match entry
    case None => []
    case Some(users) => users
  }
}
