/**
 * The owner's dashboard (`AdminDashboard`): every user with their login count
 * and last login, taken from the authentication audit log, and the user whose
 * details are open. The audit log arrives newest first; its entries carry
 * their time as milliseconds here.
 */
module AdminDashboard {
  import opened Wrappers
  import opened Seqs
  import opened Types

  /** An audit-log entry; the payload's fields may be missing. */
  datatype AuditLogEntry = AuditLogEntry(
    id: string, action: Option<string>, userId: Option<string>, actorId: Option<string>,
    createdAt: int, ipAddress: string)

  const SIGNED_IN: string := "user_signedin"

  /** `log.payload?.user_id === id || log.payload?.actor_id === id`. */
  predicate Concerns(log: AuditLogEntry, id: string)
  {
    log.userId == Some(id) || log.actorId == Some(id)
  }

  predicate IsLoginOf(log: AuditLogEntry, id: string)
  {
    Concerns(log, id) && log.action == Some(SIGNED_IN)
  }

  function LoginOf(id: string): AuditLogEntry -> bool
  {
    (log: AuditLogEntry) => IsLoginOf(log, id)
  }

  /** The user's sign-in entries, in log order. */
  function LoginLogs(logs: seq<AuditLogEntry>, id: string): (r: seq<AuditLogEntry>)
    ensures forall x :: x in r <==> x in logs && IsLoginOf(x, id)
    ensures forall x :: multiset(r)[x] == if IsLoginOf(x, id) then multiset(logs)[x] else 0
  {
    FilterMembers(logs, LoginOf(id));
    FilterMultiset(logs, LoginOf(id));
    Filter(logs, LoginOf(id))
  }

  /** The sign-ins of two log segments are those of the first followed by those of the second. */
  lemma {:induction false} LoginLogsAppend(a: seq<AuditLogEntry>, b: seq<AuditLogEntry>, id: string)
    ensures LoginLogs(a + b, id) == LoginLogs(a, id) + LoginLogs(b, id)
    ensures forall x :: LoginLogs([x], id) == if IsLoginOf(x, id) then [x] else []
  {
    FilterAppend(a, b, LoginOf(id));
    forall x ensures LoginLogs([x], id) == if IsLoginOf(x, id) then [x] else [] {
      assert [x][1..] == [];
    }
  }

  /** `getUserLoginCount`: no more than the log holds, and zero exactly when the user never signed in. */
  function GetUserLoginCount(logs: seq<AuditLogEntry>, id: string): (n: nat)
    ensures n <= |logs|
    ensures n == 0 <==> forall i :: 0 <= i < |logs| ==> !IsLoginOf(logs[i], id)
    ensures n == |set i | 0 <= i < |logs| && IsLoginOf(logs[i], id)|
  {
    var r := LoginLogs(logs, id);
    var login := LoginOf(id);
    FilterCount(logs, login);
    assert Matching(logs, login) == set i | 0 <= i < |logs| && IsLoginOf(logs[i], id);
    assert (exists i :: 0 <= i < |logs| && IsLoginOf(logs[i], id)) ==> r != [] by {
      if exists i :: 0 <= i < |logs| && IsLoginOf(logs[i], id) {
        var i :| 0 <= i < |logs| && IsLoginOf(logs[i], id);
        assert logs[i] in logs;
      }
    }
    assert (forall i :: 0 <= i < |logs| ==> !IsLoginOf(logs[i], id)) ==> r == [] by {
      if forall i :: 0 <= i < |logs| ==> !IsLoginOf(logs[i], id) {
        FilterNoneMatch(logs, LoginOf(id));
      }
    }
    |r|
  }

  /** The first sign-in entry of `logs`, by position. */
  function FirstLogin(logs: seq<AuditLogEntry>, id: string): (i: nat)
    ensures i <= |logs|
    ensures i < |logs| ==> IsLoginOf(logs[i], id)
    ensures forall j :: 0 <= j < i ==> !IsLoginOf(logs[j], id)
  {
    if logs == [] || IsLoginOf(logs[0], id) then 0
    else FirstLogin(logs[1..], id) + 1
  }

  lemma {:induction false} FirstLoginHeadsFilter(logs: seq<AuditLogEntry>, id: string)
    ensures FirstLogin(logs, id) < |logs| ==>
      LoginLogs(logs, id) != [] && LoginLogs(logs, id)[0] == logs[FirstLogin(logs, id)]
  {
    if logs != [] && !IsLoginOf(logs[0], id) {
      FirstLoginHeadsFilter(logs[1..], id);
    }
  }

  /**
   * `getLastLoginDate`: the time of the first sign-in entry in log order, or
   * null exactly when the login count is zero.
   */
  function GetLastLoginDate(logs: seq<AuditLogEntry>, id: string): (r: Option<int>)
    ensures r.None? <==> GetUserLoginCount(logs, id) == 0
    ensures r.Some? ==>
      exists i :: 0 <= i < |logs| && IsLoginOf(logs[i], id) && logs[i].createdAt == r.value &&
        forall j :: 0 <= j < i ==> !IsLoginOf(logs[j], id)
  {
    var loginLogs := LoginLogs(logs, id);
    FirstLoginHeadsFilter(logs, id);
    if |loginLogs| > 0 then Some(loginLogs[0].createdAt) else None
  }

  /** The log is ordered newest first. */
  ghost predicate NewestFirst(logs: seq<AuditLogEntry>)
  {
    forall i, j :: 0 <= i < j < |logs| ==> logs[i].createdAt >= logs[j].createdAt
  }

  /** With the log newest first, the last login is the latest of the user's sign-ins. */
  lemma LastLoginIsLatest(logs: seq<AuditLogEntry>, id: string, k: nat)
    requires NewestFirst(logs)
    requires k < |logs| && IsLoginOf(logs[k], id)
    ensures GetLastLoginDate(logs, id).Some?
    ensures logs[k].createdAt <= GetLastLoginDate(logs, id).value
  {
    var r := GetLastLoginDate(logs, id);
    var i :| 0 <= i < |logs| && IsLoginOf(logs[i], id) && logs[i].createdAt == r.value
      && forall j :: 0 <= j < i ==> !IsLoginOf(logs[j], id);
    assert i <= k;
  }


  class Dashboard {
    var users: seq<User>
    var auditLogs: seq<AuditLogEntry>
    var selectedUser: Option<User>
    var isLoading: bool

    constructor ()
      ensures users == [] && auditLogs == [] && selectedUser.None? && isLoading
    {
      users := [];
      auditLogs := [];
      selectedUser := None;
      isLoading := true;
    }

    /** `loadUsers`, with what `fetchUsersWithAuthLogs` returned. */
    method LoadUsers(fetchedUsers: seq<User>, logs: seq<AuditLogEntry>)
      modifies this
      ensures users == fetchedUsers && auditLogs == logs && !isLoading
      ensures selectedUser == old(selectedUser)
    {
      isLoading := true;
      users := fetchedUsers;
      auditLogs := logs;
      isLoading := false;
    }

    /** A click on a row (or its button) opens that user's details. */
    method HandleUserClick(u: User)
      modifies this
      ensures selectedUser == Some(u)
      ensures users == old(users) && auditLogs == old(auditLogs) && isLoading == old(isLoading)
    {
      selectedUser := Some(u);
    }

    /** Closing the details clears the selection. */
    method CloseDetail()
      modifies this
      ensures selectedUser.None?
      ensures users == old(users) && auditLogs == old(auditLogs) && isLoading == old(isLoading)
    {
      selectedUser := None;
    }
  }
}
