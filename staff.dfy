/**
 * The role downgrade of relief-center deletion: before a center goes, every
 * user behind one of its volunteers who holds the role Volunteer becomes a
 * plain User; users with any other role keep it.
 */
module Staff {
  import opened Wrappers
  import opened Entities

  /** The users behind the given volunteer records. */
  function UsersBehind(vols: map<int, Volunteer>, ids: set<int>): (r: set<int>)
    ensures forall u :: u in r <==> exists k :: k in ids && k in vols && vols[k].userId == u
  {
    set k | k in ids && k in vols :: vols[k].userId
  }

  /** One more volunteer record adds its user. */
  lemma UsersBehindStep(vols: map<int, Volunteer>, ids: set<int>, k: int)
    requires k in vols
    ensures UsersBehind(vols, ids + {k}) == UsersBehind(vols, ids) + {vols[k].userId}
  {
  }

  /** Users in `uids` with role Volunteer become User. */
  function Downgrade(users: map<int, User>, uids: set<int>): (r: map<int, User>)
    ensures r.Keys == users.Keys
  {
    map k | k in users :: if k in uids && users[k].role == RoleVolunteer then users[k].(role := RoleUser) else users[k]
  }

  /** Only the role changes, only from Volunteer to User, and only for the given users. */
  lemma DowngradeEffect(users: map<int, User>, uids: set<int>, k: int)
    requires k in users
    ensures var r := Downgrade(users, uids);
      && r[k] == users[k].(role := r[k].role)
      && (r[k].role != users[k].role <==> k in uids && users[k].role == RoleVolunteer)
      && (r[k].role != users[k].role ==> r[k].role == RoleUser)
  {
  }

  /** Downgrading one more user is one more map update (or none, for an absent or non-Volunteer user). */
  lemma DowngradeStep(users: map<int, User>, uids: set<int>, u: int)
    ensures var d := Downgrade(users, uids);
      Downgrade(users, uids + {u})
      == if u in d && d[u].role == RoleVolunteer then d[u := d[u].(role := RoleUser)] else d
  {
    var d := Downgrade(users, uids);
    var e := Downgrade(users, uids + {u});
    var f := if u in d && d[u].role == RoleVolunteer then d[u := d[u].(role := RoleUser)] else d;
    assert e.Keys == f.Keys;
    forall k | k in e
      ensures e[k] == f[k]
    {
      if k == u && u in users && users[u].role == RoleVolunteer && u !in uids {
        assert d[u] == users[u];
      }
    }
  }

  /** Downgrading twice changes nothing more. */
  lemma DowngradeIdempotent(users: map<int, User>, uids: set<int>)
    ensures Downgrade(Downgrade(users, uids), uids) == Downgrade(users, uids)
  {
  }

  /**
   * The loop of DeleteReliefCenterAsync: for each of the given volunteer
   * records, its user is downgraded if it has the role Volunteer.
   */
  method DowngradeAll(users: map<int, User>, vols: map<int, Volunteer>, staff: set<int>) returns (r: map<int, User>)
    requires staff <= vols.Keys
    ensures r == Downgrade(users, UsersBehind(vols, staff))
  {
    r := users;
    var todo := staff;
    ghost var done: set<int> := {};
    while exists v :: v in todo
      invariant todo <= staff && done == staff - todo
      invariant r == Downgrade(users, UsersBehind(vols, done))
      decreases |todo|
    {
      var v :| v in todo;
      var uid := vols[v].userId;
      UsersBehindStep(vols, done, v);
      DowngradeStep(users, UsersBehind(vols, done), uid);
      if uid in r && r[uid].role == RoleVolunteer {
        r := r[uid := r[uid].(role := RoleUser)];
      }
      todo := todo - {v};
      done := done + {v};
    }
    assert done == staff;
  }
}
