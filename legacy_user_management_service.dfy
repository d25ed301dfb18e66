/** The older `UserManagementService` (the server's `app` tree): the same
    passwd listing, a read error passed on as it is, and user creation and
    deletion through shell command lines whose every outcome is a
    `{success, message}` record. Unlike the newer service it does not remove
    an account whose password could not be set. */
module LegacyUserManagementService {
  import opened Wrappers
  import opened Commands
  import Current = UserManagementService

  /** `getUsers`: the listed accounts, or the read error itself. */
  method GetUsers(passwd: Result<string, string>) returns (r: Result<seq<Current.SystemUser>, string>)
    ensures passwd.Err? ==> r == Err(passwd.error)
    ensures passwd.Ok? ==> r == Ok(Current.UsersOf(passwd.value))
  {
    if passwd.Err? {
      return Err(passwd.error);
    }
    var users := Current.ListUsers(passwd.value);
    r := Ok(users);
  }

  datatype Outcome = Outcome(success: bool, message: string)

  function UserAddCommand(username: string): string {
    "sudo useradd -m -s /bin/bash " + username
  }

  function ChpasswdCommand(username: string, password: string): string {
    "echo \"" + username + ":" + password + "\" | sudo chpasswd"
  }

  function UserDelCommand(username: string): string {
    "sudo userdel -r " + username
  }

  /** `createUser(username, password)`: an empty name is refused without
      running anything; otherwise the account is added and, when a password
      is given, it is set; the first failing command ends the call with its
      message, and no command undoes an added account. */
  method CreateUser(shell: Shell, username: string, password: string) returns (r: Outcome)
    modifies shell
    ensures username == "" ==> r == Outcome(false, "Username is required") && shell.history == old(shell.history)
    ensures var add := Invocation(UserAddCommand(username), "");
      username != "" && shell.respond(add).Failed? ==>
        && shell.history == old(shell.history) + [add]
        && r == Outcome(false, "Failed to create user: " + shell.respond(add).message)
    ensures var add := Invocation(UserAddCommand(username), "");
      username != "" && shell.respond(add).Succeeded? && password == "" ==>
        && shell.history == old(shell.history) + [add]
        && r == Outcome(true, "User " + username + " created successfully")
    ensures var add := Invocation(UserAddCommand(username), "");
      var chpasswd := Invocation(ChpasswdCommand(username, password), "");
      username != "" && shell.respond(add).Succeeded? && password != "" ==>
        && shell.history == old(shell.history) + [add, chpasswd]
        && (shell.respond(chpasswd).Succeeded? ==> r == Outcome(true, "User " + username + " created successfully"))
        && (shell.respond(chpasswd).Failed? ==>
          r == Outcome(false, "Failed to create user: " + shell.respond(chpasswd).message))
  {
    if username == "" {
      return Outcome(false, "Username is required");
    }
    var added := shell.Run(UserAddCommand(username));
    if added.Failed? {
      return Outcome(false, "Failed to create user: " + added.message);
    }
    if password != "" {
      var setPassword := shell.Run(ChpasswdCommand(username, password));
      if setPassword.Failed? {
        return Outcome(false, "Failed to create user: " + setPassword.message);
      }
    }
    r := Outcome(true, "User " + username + " created successfully");
  }

  /** `deleteUser(username)`: an empty name is refused without running
      anything; otherwise `userdel -r` runs once. */
  method DeleteUser(shell: Shell, username: string) returns (r: Outcome)
    modifies shell
    ensures username == "" ==> r == Outcome(false, "Username is required") && shell.history == old(shell.history)
    ensures var del := Invocation(UserDelCommand(username), "");
      username != "" ==>
        && shell.history == old(shell.history) + [del]
        && (shell.respond(del).Succeeded? ==> r == Outcome(true, "User " + username + " deleted successfully"))
        && (shell.respond(del).Failed? ==> r == Outcome(false, "Failed to delete user: " + shell.respond(del).message))
  {
    if username == "" {
      return Outcome(false, "Username is required");
    }
    var o := shell.Run(UserDelCommand(username));
    if o.Succeeded? {
      r := Outcome(true, "User " + username + " deleted successfully");
    } else {
      r := Outcome(false, "Failed to delete user: " + o.message);
    }
  }
}
