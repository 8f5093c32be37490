/** First-run setup: the tables it touches and its transaction (internal/api/setup_handlers.go). */
module Setup {
  import opened Time
  import opened Wrappers
  import A = Accounts
  import Settings

  datatype Status = Active | Suspended | Disabled | Pending

  datatype Admin = Admin(email: string, status: Status, deletedAt: Option<int>)

  /** `superAdmins` hold an unrevoked SUPER_ADMIN role; `completed` is the committed one-way flag. */
  datatype Tables = Tables(
    admins: map<nat, Admin>,
    credentials: map<nat, A.Credential>,
    superAdmins: set<nat>,
    completed: bool,
    nextId: nat)

  /** `guardian_admin_users.email` is UNIQUE. */
  ghost predicate UniqueEmails(t: Tables) {
    forall i, j :: i in t.admins && j in t.admins && t.admins[i].email == t.admins[j].email ==> i == j
  }

  ghost predicate Valid(t: Tables) {
    UniqueEmails(t) && forall id :: id in t.admins || id in t.credentials ==> id < t.nextId
  }

  predicate ActiveAdmin(t: Tables, admin: nat) {
    admin in t.admins && t.admins[admin].status == Active && t.admins[admin].deletedAt.None?
  }

  /** An administrator who can sign in with a password. */
  predicate CanSignIn(t: Tables, admin: nat) {
    ActiveAdmin(t, admin) && exists c :: c in t.credentials && A.LivePassword(t.credentials, c, admin)
  }

  /** One row of the join: a live password of an active account. */
  predicate LetsIn(t: Tables, c: nat) {
    c in t.credentials && A.LivePassword(t.credentials, c, t.credentials[c].subject) && ActiveAdmin(t, t.credentials[c].subject)
  }

  /** The NOT EXISTS query: nobody can sign in with a password. */
  predicate NoStaff(t: Tables) { forall c :: c in t.credentials ==> !LetsIn(t, c) }

  lemma NoStaffMeansNobodyCanSignIn(t: Tables)
    ensures NoStaff(t) <==> forall admin :: !CanSignIn(t, admin)
  {
    if c :| c in t.credentials && LetsIn(t, c) {
      assert CanSignIn(t, t.credentials[c].subject);
    }
  }

  ghost predicate HasEmail(t: Tables, email: string) { exists id :: id in t.admins && t.admins[id].email == email }

  ghost function IdOf(t: Tables, email: string): (id: nat)
    requires HasEmail(t, email)
    ensures id in t.admins && t.admins[id].email == email
  {
    var id :| id in t.admins && t.admins[id].email == email;
    id
  }

  /** The account the transaction makes: the row with this address revived, or a new one. */
  ghost function Chosen(t: Tables, email: string): nat { if HasEmail(t, email) then IdOf(t, email) else t.nextId }

  /** Account, password, role and flag, all written together. */
  ghost function Completed(t: Tables, email: string, secret: string, now: int): Tables {
    var id := Chosen(t, email);
    var next := if HasEmail(t, email) then t.nextId else t.nextId + 1;
    t.(admins := t.admins[id := Admin(email, Active, None)],
       credentials := A.RevokedPasswords(t.credentials, id, now)[next := A.Credential(id, true, secret, None)],
       superAdmins := t.superAdmins + {id},
       completed := true,
       nextId := next + 1)
  }

  /**
   * A completed setup leaves the chosen account able to sign in, with exactly one live password, as super
   * admin, the flag set, the other accounts as they were and addresses still unique.
   */
  lemma CompletedLeavesOneWayIn(t: Tables, email: string, secret: string, now: int)
    requires Valid(t)
    ensures var id, u := Chosen(t, email), Completed(t, email, secret, now);
            && Valid(u) && u.completed && id in u.superAdmins && CanSignIn(u, id)
            && (forall c, c' :: A.LivePassword(u.credentials, c, id) && A.LivePassword(u.credentials, c', id) ==>
                  c == c' && u.credentials[c].secretHash == secret)
            && (forall admin :: admin != id ==> (CanSignIn(u, admin) <==> CanSignIn(t, admin)))
            && u.superAdmins == t.superAdmins + {id} && u.admins == t.admins[id := Admin(email, Active, None)]
            && (id in t.admins ==> t.admins[id].email == email)
            && (id !in t.admins ==> forall i :: i in t.admins ==> t.admins[i].email != email)
            && (forall c :: c in t.credentials ==>
                  && c in u.credentials
                  && (u.credentials[c] != t.credentials[c] ==>
                        && A.LivePassword(t.credentials, c, id)
                        && u.credentials[c] == t.credentials[c].(revokedAt := Some(now))))
  {
    var id, u := Chosen(t, email), Completed(t, email, secret, now);
    var c := u.nextId - 1;
    assert A.LivePassword(u.credentials, c, id);
    forall admin | admin != id ensures CanSignIn(u, admin) <==> CanSignIn(t, admin) {
      forall c' ensures A.LivePassword(u.credentials, c', admin) <==> A.LivePassword(t.credentials, c', admin) {
      }
    }
  }

  datatype Cached = Cached(completed: bool, at: int)

  /** What the settings store answers for the flag: its cache while fresh, else the table, else the default. */
  function FlagRead(t: Tables, cache: Option<Cached>, now: int, queryFails: bool): bool {
    if cache.Some? && now - cache.value.at < Settings.CACHE_TTL then cache.value.completed
    else if queryFails then false
    else t.completed
  }

  datatype SetupError = Refused | AlreadyComplete | DatabaseError

  /** One server instance: the shared tables and its own cached flag. */
  class Instance {
    var t: Tables
    var cache: Option<Cached>

    constructor (t: Tables)
      ensures this.t == t && cache == None
    {
      this.t := t;
      cache := None;
    }

    /** `Settings.Bool`, filling the cache when it has to query. */
    method ReadFlag(now: int, queryFails: bool) returns (completed: bool)
      modifies this`cache
      ensures completed == FlagRead(t, old(cache), now, queryFails)
      ensures cache == (if (old(cache).Some? && now - old(cache).value.at < Settings.CACHE_TTL) || queryFails then old(cache)
                        else Some(Cached(t.completed, now)))
    {
      if cache.Some? && now - cache.value.at < Settings.CACHE_TTL {
        return cache.value.completed;
      }
      if queryFails {
        return false;
      }
      cache := Some(Cached(t.completed, now));
      return t.completed;
    }

    /** `acceptable` is the outcome of the address and password checks; statement number `fault` fails. */
    method CompleteSetup(acceptable: bool, email: string, secret: string, now: int, queryFails: bool, fault: nat)
      returns (r: Result<nat, SetupError>)
      requires Valid(t)
      modifies this
      ensures r.Err? ==> t == old(t)
      ensures r.Ok? ==> r.value == Chosen(old(t), email) && t == Completed(old(t), email, secret, now) && cache == None
      ensures r.Ok? ==> acceptable && !FlagRead(old(t), old(cache), now, queryFails) && NoStaff(old(t))
      ensures fault >= 9 && acceptable ==>
                (r == Err(AlreadyComplete) <==> FlagRead(old(t), old(cache), now, queryFails) || !NoStaff(old(t)))
                && (r.Ok? || r == Err(AlreadyComplete))
      ensures fault >= 9 && acceptable ==>
                var cached := old(cache).Some? && now - old(cache).value.at < MINUTE;
                (r == Err(AlreadyComplete) <==>
                  || (if cached then old(cache).value.completed else !queryFails && old(t).completed)
                  || exists c :: && c in old(t).credentials && old(t).credentials[c].password
                                 && old(t).credentials[c].revokedAt.None?
                                 && old(t).credentials[c].subject in old(t).admins
                                 && old(t).admins[old(t).credentials[c].subject].status == Active
                                 && old(t).admins[old(t).credentials[c].subject].deletedAt.None?)
    {
      if !acceptable {
        return Err(Refused);
      }
      var saved := t;
      if fault == 0 {
        return Err(DatabaseError);
      }
      var completed := ReadFlag(now, queryFails);
      if !completed && fault == 1 {
        return Err(DatabaseError);
      }
      if completed || exists c :: c in t.credentials && LetsIn(t, c) {
        return Err(AlreadyComplete);
      }
      var admin := UpsertFirstAdmin(email);
      if fault == 2 || fault == 3 {
        t := saved;
        return Err(DatabaseError);
      }
      t := t.(credentials := A.RevokedPasswords(t.credentials, admin, now));
      if fault == 4 {
        t := saved;
        return Err(DatabaseError);
      }
      t := t.(credentials := t.credentials[t.nextId := A.Credential(admin, true, secret, None)], nextId := t.nextId + 1);
      if fault == 5 {
        t := saved;
        return Err(DatabaseError);
      }
      t := t.(superAdmins := t.superAdmins + {admin});
      if fault == 6 {
        t := saved;
        return Err(DatabaseError);
      }
      t := t.(completed := true);
      if fault == 7 || fault == 8 {
        t := saved;
        return Err(DatabaseError);
      }
      cache := None;
      return Ok(admin);
    }

    method UpsertFirstAdmin(email: string) returns (admin: nat)
      requires Valid(t)
      modifies this`t
      ensures admin == Chosen(old(t), email)
      ensures t == old(t).(admins := old(t).admins[admin := Admin(email, Active, None)],
                           nextId := if HasEmail(old(t), email) then old(t).nextId else old(t).nextId + 1)
    {
      if exists id :: id in t.admins && t.admins[id].email == email {
        admin :| admin in t.admins && t.admins[admin].email == email;
        t := t.(admins := t.admins[admin := t.admins[admin].(status := Active, deletedAt := None)]);
      } else {
        admin := t.nextId;
        t := t.(admins := t.admins[admin := Admin(email, Active, None)], nextId := t.nextId + 1);
      }
    }
  }
}
