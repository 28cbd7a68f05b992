/**
 * The user detail modal (`UserDetailModal`): every audit-log entry concerning
 * the user, whatever its action, with the number of events.
 */
module UserDetailModal {
  import opened Seqs
  import opened Types
  import opened AdminDashboard

  function ConcernsUser(id: string): AuditLogEntry -> bool
  {
    (log: AuditLogEntry) => Concerns(log, id)
  }

  /** The entries naming the user as subject or actor, in log order. */
  function UserLogs(logs: seq<AuditLogEntry>, id: string): (r: seq<AuditLogEntry>)
    ensures |r| <= |logs|
    ensures forall x :: x in r <==> x in logs && Concerns(x, id)
    ensures forall x :: multiset(r)[x] == if Concerns(x, id) then multiset(logs)[x] else 0
    ensures |r| == |set i | 0 <= i < |logs| && Concerns(logs[i], id)|
  {
    var concerns := ConcernsUser(id);
    FilterMembers(logs, concerns);
    FilterMultiset(logs, concerns);
    FilterCount(logs, concerns);
    assert Matching(logs, concerns) == set i | 0 <= i < |logs| && Concerns(logs[i], id);
    Filter(logs, concerns)
  }

  /** The entries of two log segments are those of the first followed by those of the second. */
  lemma {:induction false} UserLogsAppend(a: seq<AuditLogEntry>, b: seq<AuditLogEntry>, id: string)
    ensures UserLogs(a + b, id) == UserLogs(a, id) + UserLogs(b, id)
    ensures forall x :: UserLogs([x], id) == if Concerns(x, id) then [x] else []
  {
    FilterAppend(a, b, ConcernsUser(id));
    forall x ensures UserLogs([x], id) == if Concerns(x, id) then [x] else [] {
      assert [x][1..] == [];
    }
  }

  /** "Total events" counts every entry of the user, so never fewer than the sign-ins. */
  lemma TotalEventsCoverLogins(logs: seq<AuditLogEntry>, id: string)
    ensures GetUserLoginCount(logs, id) <= |UserLogs(logs, id)|
  {
    FilterStronger(logs, LoginOf(id), ConcernsUser(id));
  }

  /** The user's sign-ins are exactly the sign-ins among the user's entries. */
  lemma LoginsAmongUserLogs(logs: seq<AuditLogEntry>, id: string)
    ensures LoginLogs(UserLogs(logs, id), id) == LoginLogs(logs, id)
  {
    var concerns, login := ConcernsUser(id), LoginOf(id);
    FilterFilter(logs, concerns, login);
    assert UserLogs(logs, id) == Filter(logs, concerns);
  }

  /** What the log section renders: the total line, always, then the "none found" text or the entries. */
  datatype LogSection = NoLogs(total: nat, text: string) | Entries(total: nat, entries: seq<AuditLogEntry>)

  class Detail {
    const user: User
    var userLogs: seq<AuditLogEntry>

    constructor (user: User)
      ensures this.user == user && userLogs == []
    {
      this.user := user;
      userLogs := [];
    }

    /** The effect that runs when the log or the user changes. */
    method Refilter(auditLogs: seq<AuditLogEntry>)
      modifies this
      ensures userLogs == UserLogs(auditLogs, user.id)
    {
      userLogs := UserLogs(auditLogs, user.id);
    }

    /** The total is shown in every case; an empty list adds the "none found" text, any other its entries. */
    function Section(): (s: LogSection)
      reads this
      ensures s.total == |userLogs|
      ensures s.NoLogs? <==> userLogs == []
      ensures s.NoLogs? ==> s.text == "No authentication logs found."
      ensures s.Entries? ==> s.entries == userLogs
    {
      if |userLogs| == 0 then NoLogs(0, "No authentication logs found.") else Entries(|userLogs|, userLogs)
    }
  }
}
