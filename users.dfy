/**
 * The account provisioner (UserDao and its User entity are not part of this model):
 * the active accounts by username, a lookup, and an account creation that fails with
 * the message "AlreadyExistingUsername" when the username is taken and may otherwise
 * fail for a reason the workflow cannot see.
 */
module Users {
  import opened Wrappers

  /** Constants.DEFAULT_USER_ROLE (Constants is not part of this model). */
  const DEFAULT_USER_ROLE: string := "user"

  /** The fields of an account that the registration workflow sets. */
  datatype User = User(
    username: string,
    password: string,
    email: string,
    roleId: string,
    storageQuota: int,
    onboarding: bool)

  class UserDao {
    /** Accounts that are not deleted, by username. */
    var active: map<string, User>

    constructor (active: map<string, User>)
      ensures this.active == active
    {
      this.active := active;
    }

    /** `getActiveByUsername`: the active account with that username, or null. */
    function GetActiveByUsername(username: string): (u: Option<User>)
      reads this
      ensures u.Some? <==> username in active
      ensures u.Some? ==> u.value == active[username]
    {
      if username in active then Some(active[username]) else None
    }

    /**
     * `create`: returns the message of the exception it throws, or None when the
     * account was stored. `fault` stands for every failure other than a taken username
     * (a database error, say); it is an input because UserDao is not part of this model.
     */
    method Create(user: User, fault: Option<string>) returns (failure: Option<string>)
      modifies this
      ensures user.username in old(active) ==> failure == Some("AlreadyExistingUsername")
      ensures user.username !in old(active) ==> failure == fault
      ensures active == if failure.None? then old(active)[user.username := user] else old(active)
    {
      if user.username in active {
        failure := Some("AlreadyExistingUsername");
      } else {
        failure := fault;
        if failure.None? {
          active := active[user.username := user];
        }
      }
    }
  }
}
