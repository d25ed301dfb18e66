/** `UserManagementService` of the server's user-management module: the
    list of regular accounts read from /etc/passwd, and user creation and
    deletion through `sudo -n useradd`, `chpasswd` and `userdel`, with the
    rollback that removes a half-created account. Commands go through a
    `Shell`; a command line is the program and its arguments joined by
    spaces. */
module UserManagementService {
  import opened Wrappers
  import opened Text
  import opened Lists
  import opened JsNumbers
  import opened Http
  import opened Commands

  // ---------------------------------------------------------------------
  // getUsers

  datatype SystemUser = SystemUser(username: string, uid: Number, gid: Number, home: string, shell: string)

  /** `uid >= 1000 && username !== 'nobody'`; a NaN uid fails the
      comparison. */
  predicate IsRegularUser(username: string, uid: Number) {
    uid.Finite? && uid.v >= 1000 && username != "nobody"
  }

  /** The account a passwd line describes, if it is listed: a line with
      fewer than seven ':'-separated fields is ignored, and the user name,
      uid, gid, home and shell are fields 0, 2, 3, 5 and 6. */
  function PasswdEntry(line: string): (r: Option<SystemUser>)
    ensures r.Some? ==> IsRegularUser(r.value.username, r.value.uid)
  {
    var parts := SplitOn(line, ':');
    if |parts| < 7 then None
    else
      var username := parts[0];
      var uid := ParseInt(parts[2]);
      if IsRegularUser(username, uid) then Some(SystemUser(username, uid, ParseInt(parts[3]), parts[5], parts[6]))
      else None
  }

  /** The users listed for a passwd file, in file order: the k-th user is
      read from the k-th line that lists one, and every user is a regular
      account. */
  function UsersOf(content: string): (r: seq<SystemUser>)
    ensures var listed := Filter(SplitOn(content, '\n'), Produces(PasswdEntry));
      && |r| == |listed|
      && forall k :: 0 <= k < |listed| ==> PasswdEntry(listed[k]) == Some(r[k])
    ensures forall k :: 0 <= k < |r| ==> IsRegularUser(r[k].username, r[k].uid)
  {
    CollectIsFilter(SplitOn(content, '\n'), PasswdEntry);
    Collect(SplitOn(content, '\n'), PasswdEntry)
  }

  /** The scan in `getUsers`: every line is examined and each listed account
      appended. */
  method ListUsers(content: string) returns (users: seq<SystemUser>)
    ensures users == UsersOf(content)
  {
    var lines := SplitOn(content, '\n');
    users := [];
    var i := 0;
    assert lines[..0] == [];
    while i < |lines|
      invariant i <= |lines|
      invariant users == Collect(lines[..i], PasswdEntry)
    {
      CollectStep(lines, i, PasswdEntry);
      var entry := PasswdEntry(lines[i]);
      if entry.Some? {
        users := users + [entry.value];
      }
      i := i + 1;
    }
    assert lines[..i] == lines;
  }

  /** `getUsers`: the listed accounts, or an internal server error when
      /etc/passwd cannot be read. */
  method GetUsers(passwd: Result<string, string>) returns (r: Result<seq<SystemUser>, HttpError>)
    ensures passwd.Err? ==> r == Err(InternalServerError("Failed to retrieve users"))
    ensures passwd.Ok? ==> r == Ok(UsersOf(passwd.value))
  {
    if passwd.Err? {
      return Err(InternalServerError("Failed to retrieve users"));
    }
    var users := ListUsers(passwd.value);
    r := Ok(users);
  }

  /** A line is listed exactly when it has at least seven fields and
      describes a regular account, whose fields are read in place. */
  lemma PasswdEntryListed(line: string)
    ensures var parts := SplitOn(line, ':');
      && (PasswdEntry(line).Some? <==> |parts| >= 7 && IsRegularUser(parts[0], ParseInt(parts[2])))
      && (PasswdEntry(line).Some? ==>
        PasswdEntry(line).value == SystemUser(parts[0], ParseInt(parts[2]), ParseInt(parts[3]), parts[5], parts[6]))
  {
  }

  /** A passwd line written out from its seven fields. */
  function PasswdLine(username: string, password: string, uid: int, gid: int, gecos: string, home: string, shell: string): string {
    Join([username, password, IntToString(uid), IntToString(gid), gecos, home, shell], ":")
  }

  /** The fields of a line written from fields without ':'. */
  lemma PasswdLineFields(username: string, password: string, uid: int, gid: int, gecos: string, home: string, shell: string)
    requires ':' !in username && ':' !in password && ':' !in gecos && ':' !in home && ':' !in shell
    ensures SplitOn(PasswdLine(username, password, uid, gid, gecos, home, shell), ':') ==
      [username, password, IntToString(uid), IntToString(gid), gecos, home, shell]
  {
    var parts := [username, password, IntToString(uid), IntToString(gid), gecos, home, shell];
    NoColonInNumber(uid);
    NoColonInNumber(gid);
    assert forall k :: 0 <= k < |parts| ==> ':' !in parts[k];
    SplitOnJoin(parts, ':');
  }

  /** Reading back a line written from fields without ':' gives the account
      exactly when it is a regular one. */
  lemma {:induction false} PasswdEntryOfLine(username: string, password: string, uid: int, gid: int, gecos: string, home: string, shell: string)
    requires ':' !in username && ':' !in password && ':' !in gecos && ':' !in home && ':' !in shell
    ensures var r := PasswdEntry(PasswdLine(username, password, uid, gid, gecos, home, shell));
      && (r.Some? <==> uid >= 1000 && username != "nobody")
      && (r.Some? ==> r.value == SystemUser(username, Finite(uid), Finite(gid), home, shell))
  {
    var line := PasswdLine(username, password, uid, gid, gecos, home, shell);
    var parts := SplitOn(line, ':');
    PasswdLineFields(username, password, uid, gid, gecos, home, shell);
    assert parts[0] == username && parts[2] == IntToString(uid) && parts[3] == IntToString(gid);
    assert parts[5] == home && parts[6] == shell;
    IntToStringRoundTrip(uid);
    IntToStringRoundTrip(gid);
    assert ParseInt(parts[2]) == Finite(uid) && ParseInt(parts[3]) == Finite(gid);
    PasswdEntryListed(line);
  }

  /** The text of an integer holds digits and at most a leading '-', never
      a ':'. */
  lemma NoColonInNumber(n: int)
    ensures ':' !in IntToString(n)
  {
  }

  /** Fields past the seventh are ignored. */
  lemma ExtraFieldsIgnored(line: string, extra: string)
    requires |SplitOn(line, ':')| >= 7
    ensures PasswdEntry(line + ":" + extra) == PasswdEntry(line)
  {
    SplitOnConcat(line, ':', extra);
    var parts := SplitOn(line + ":" + extra, ':');
    assert parts == SplitOn(line, ':') + SplitOn(extra, ':');
    assert forall k :: 0 <= k < 7 ==> parts[k] == SplitOn(line, ':')[k];
  }

  /** Every listed user comes from a line of the file, and every line
      describing a regular account is listed. */
  lemma {:induction false} UsersFromLines(content: string, u: SystemUser)
    ensures u in UsersOf(content) ==>
      exists i :: 0 <= i < |SplitOn(content, '\n')| && PasswdEntry(SplitOn(content, '\n')[i]) == Some(u)
    ensures (exists i :: 0 <= i < |SplitOn(content, '\n')| && PasswdEntry(SplitOn(content, '\n')[i]) == Some(u)) ==>
      u in UsersOf(content)
  {
    var lines := SplitOn(content, '\n');
    CollectContains(lines, PasswdEntry, u);
  }

  // ---------------------------------------------------------------------
  // createUser and deleteUser

  function UserAddCommand(username: string): string {
    "sudo -n useradd -m -s /bin/bash " + username
  }

  const ChpasswdCommand := "sudo -n chpasswd"

  function UserDelCommand(username: string): string {
    "sudo -n userdel -r " + username
  }

  const PermissionDenied :=
    "Permission denied. Please run './setup-sudo.sh' in the project root to configure passwordless sudo."

  /** How a failed command is reported: sudo asking for a password is a 403
      pointing at the setup script, anything else an internal server error
      with the message after `prefix`. */
  function CommandError(message: string, prefix: string): (e: HttpError)
    ensures e.status == 403 <==> Contains(message, "password is required")
    ensures e.status != 403 ==> e == InternalServerError(prefix + message)
  {
    SudoTestRedundant(message);
    if Contains(message, "password is required") || Contains(message, "sudo: a password is required") then
      HttpError(403, PermissionDenied)
    else InternalServerError(prefix + message)
  }

  /** The second test on the message adds nothing: a message containing
      "sudo: a password is required" contains "password is required". */
  lemma SudoTestRedundant(message: string)
    ensures Contains(message, "sudo: a password is required") ==> Contains(message, "password is required")
  {
    var prefix, word := "sudo: a ", "password is required";
    assert "sudo: a password is required" == prefix + word;
    if Contains(message, prefix + word) {
      ContainsSuffixOf(message, prefix, word);
    }
  }

  /** Text containing `prefix + word` contains `word`. */
  lemma ContainsSuffixOf(message: string, prefix: string, word: string)
    requires Contains(message, prefix + word)
    ensures Contains(message, word)
  {
    var whole := prefix + word;
    ContainsAt(message, whole);
    var i :| OccursAt(message, whole, i);
    assert message[i + |prefix|..i + |whole|] == whole[|prefix|..];
    assert whole[|prefix|..] == word;
    assert OccursAt(message, word, i + |prefix|);
    ContainsAt(message, word);
  }

  /** `createUser(username, password)`: an empty name is a bad request and
      runs nothing. Otherwise the account is added; a password (an empty
      one counts as none) is set only after that succeeds. When setting it
      fails, the account is removed again and the password error is
      reported, whatever the removal gave. */
  method CreateUser(shell: Shell, username: string, password: string) returns (r: Result<string, HttpError>)
    modifies shell
    ensures username == "" ==> r == Err(BadRequest("Username is required")) && shell.history == old(shell.history)
    ensures var add := Invocation(UserAddCommand(username), "");
      username != "" && shell.respond(add).Failed? ==>
        && shell.history == old(shell.history) + [add]
        && r == Err(CommandError(shell.respond(add).message, "Failed to create user: "))
    ensures var add := Invocation(UserAddCommand(username), "");
      username != "" && shell.respond(add).Succeeded? && password == "" ==>
        && shell.history == old(shell.history) + [add]
        && r == Ok("User " + username + " created successfully")
    ensures var add := Invocation(UserAddCommand(username), "");
      var chpasswd := Invocation(ChpasswdCommand, username + ":" + password);
      username != "" && shell.respond(add).Succeeded? && password != "" && shell.respond(chpasswd).Succeeded? ==>
        && shell.history == old(shell.history) + [add, chpasswd]
        && r == Ok("User " + username + " created successfully")
    ensures var add := Invocation(UserAddCommand(username), "");
      var chpasswd := Invocation(ChpasswdCommand, username + ":" + password);
      username != "" && shell.respond(add).Succeeded? && password != "" && shell.respond(chpasswd).Failed? ==>
        && shell.history == old(shell.history) + [add, chpasswd, Invocation(UserDelCommand(username), "")]
        && r == Err(CommandError(shell.respond(chpasswd).message, "Failed to create user: "))
  {
    if username == "" {
      return Err(BadRequest("Username is required"));
    }
    var added := shell.Run(UserAddCommand(username));
    if added.Failed? {
      return Err(CommandError(added.message, "Failed to create user: "));
    }
    if password != "" {
      var setPassword := shell.RunWithInput(ChpasswdCommand, username + ":" + password);
      if setPassword.Failed? {
        var cleanup := shell.Run(UserDelCommand(username));
        return Err(CommandError(setPassword.message, "Failed to create user: "));
      }
    }
    r := Ok("User " + username + " created successfully");
  }

  /** `deleteUser(username)`: an empty name is a bad request and runs
      nothing; otherwise `userdel -r` runs once. */
  method DeleteUser(shell: Shell, username: string) returns (r: Result<string, HttpError>)
    modifies shell
    ensures username == "" ==> r == Err(BadRequest("Username is required")) && shell.history == old(shell.history)
    ensures var del := Invocation(UserDelCommand(username), "");
      username != "" ==>
        && shell.history == old(shell.history) + [del]
        && (shell.respond(del).Succeeded? ==> r == Ok("User " + username + " deleted successfully"))
        && (shell.respond(del).Failed? ==> r == Err(CommandError(shell.respond(del).message, "Failed to delete user: ")))
  {
    if username == "" {
      return Err(BadRequest("Username is required"));
    }
    var o := shell.Run(UserDelCommand(username));
    if o.Succeeded? {
      r := Ok("User " + username + " deleted successfully");
    } else {
      r := Err(CommandError(o.message, "Failed to delete user: "));
    }
  }
}
