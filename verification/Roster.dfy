/**
 Roster uploads of partner schools, rosterPartnerStudents and planDeactivation in
 server/services/UserCreationService.ts: which result arrays each row lands in, and what it does to the
 accounts and the partnership instances.
 */
module Roster {
  import opened Basics
  import opened PartnerOrgs

  /** deactivatedOn: blank or absent, not a date, or a date. */
  datatype DateField = Blank | Unparsable | On(date: Time)

  /** `key` is the email in lower case, which both the lookup and the upsert go by. */
  datatype Student = Student(email: string, key: string, firstName: string, deactivatedOn: DateField)

  datatype Account = Account(id: UserId, email: string)

  datatype Failure = Failure(email: string, firstName: string)

  datatype Plan = NoPlan | PreUpsertFailure | PostUpsertFailure | DeactivateOn(date: Time, spoPartnerId: OrgId)

  /** What can go wrong on a row: the plan's lookup, a check or a query inside the transaction, the commit, or
      the deactivation after it. */
  datatype Fault = NoFault | PlanFails | RowFails | CommitFails | DeactivationFails

  /** What the surroundings supply for one row: a fault, an id should an account be created, and the time. */
  datatype Env = Env(fault: Fault, id: UserId, now: Time)

  /** The accounts by lower-case email, the partnership instances, and the users' schools. */
  datatype State = State(users: map<string, UserId>, rows: seq<Row>, schools: map<UserId, SchoolId>)

  datatype Report = Report(created: seq<Account>, updated: seq<Account>, deactivated: seq<Account>,
                           failed: seq<Failure>)

  const NOTHING := Report([], [], [], [])

  function Both(a: Report, b: Report): Report {
    Report(a.created + b.created, a.updated + b.updated, a.deactivated + b.deactivated, a.failed + b.failed)
  }

  // ----- One row -----

  function PlanOf(users: map<string, UserId>, student: Student, spo: Option<Spo>): Plan {
    if student.deactivatedOn.Blank? then NoPlan
    else if student.key !in users then PreUpsertFailure
    else if student.deactivatedOn.Unparsable? || spo.None? then PostUpsertFailure
    else DeactivateOn(student.deactivatedOn.date, spo.value.partnerId)
  }

  function UserOf(s: State, student: Student, env: Env): UserId {
    if student.key in s.users then s.users[student.key] else env.id
  }

  function SchoolTargets(spo: Option<Spo>): seq<Spo> {
    OrgTarget(None) + OrgTarget(spo)
  }

  function AfterUpsert(s: State, student: Student, school: SchoolId, spo: Option<Spo>, env: Env): State {
    var user := UserOf(s, student, env);
    State(s.users[student.key := user], Reconciled(s.rows, user, SchoolTargets(spo), env.now),
        s.schools[user := school])
  }

  predicate Commits(plan: Plan, fault: Fault) {
    !plan.PreUpsertFailure? && !fault.RowFails? && !fault.CommitFails?
  }

  function AfterRow(s: State, student: Student, school: SchoolId, spo: Option<Spo>, env: Env): State {
    var plan := PlanOf(s.users, student, spo);
    if !Commits(plan, env.fault) then s else
      var t := AfterUpsert(s, student, school, spo, env);
      if plan.DeactivateOn? && !env.fault.DeactivationFails?
      then t.(rows := Deactivate(t.rows, UserOf(s, student, env), {plan.spoPartnerId}, plan.date)) else t
  }

  function RowReport(s: State, student: Student, spo: Option<Spo>, env: Env): Report {
    var plan := PlanOf(s.users, student, spo);
    var failed := NOTHING.(failed := [Failure(student.email, student.firstName)]);
    var account := Account(UserOf(s, student, env), student.key);
    var upserted := if student.key in s.users then NOTHING.(updated := [account]) else NOTHING.(created := [account]);
    if plan.PreUpsertFailure? || env.fault.RowFails? then failed
    else if env.fault.CommitFails? || plan.PostUpsertFailure? then Both(upserted, failed)
    else if plan.NoPlan? then upserted
    else if env.fault.DeactivationFails? then Both(upserted, failed)
    else Both(upserted, NOTHING.(deactivated := [account]))
  }

  /** The array combinations a row can produce. */
  datatype Shape = IsCreated | IsUpdated | IsUpdatedDeactivated | IsUpdatedFailed | IsFailed | IsCreatedFailed

  function ShapeCounts(shape: Shape): (nat, nat, nat, nat) {
    match shape
    case IsCreated => (1, 0, 0, 0)
    case IsUpdated => (0, 1, 0, 0)
    case IsUpdatedDeactivated => (0, 1, 1, 0)
    case IsUpdatedFailed => (0, 1, 0, 1)
    case IsFailed => (0, 0, 0, 1)
    case IsCreatedFailed => (1, 0, 0, 1)
  }

  predicate HasShape(r: Report, shape: Shape) {
    (|r.created|, |r.updated|, |r.deactivated|, |r.failed|) == ShapeCounts(shape)
  }

  /** Exactly one of the five combinations, unless the commit fails: a row is both created and failed exactly
      when it was a new student whose commit failed. */
  lemma RowHasOneShape(s: State, student: Student, spo: Option<Spo>, env: Env)
    ensures exists shape :: HasShape(RowReport(s, student, spo, env), shape)
    ensures forall a, b ::
      HasShape(RowReport(s, student, spo, env), a) && HasShape(RowReport(s, student, spo, env), b) ==> a == b
    ensures HasShape(RowReport(s, student, spo, env), IsCreatedFailed)
       <==> env.fault.CommitFails? && student.deactivatedOn.Blank? && student.key !in s.users
  {
    var r := RowReport(s, student, spo, env);
    assert HasShape(r, IsCreated) || HasShape(r, IsUpdated) || HasShape(r, IsUpdatedDeactivated)
        || HasShape(r, IsUpdatedFailed) || HasShape(r, IsFailed) || HasShape(r, IsCreatedFailed);
  }

  /** Without faults, what a row says and whether the account exists decide the combination. */
  lemma ShapeOfRow(s: State, student: Student, spo: Option<Spo>, env: Env)
    requires env.fault.NoFault?
    ensures var r, known := RowReport(s, student, spo, env), student.key in s.users;
            && (HasShape(r, IsCreated) <==> !known && student.deactivatedOn.Blank?)
            && (HasShape(r, IsUpdated) <==> known && student.deactivatedOn.Blank?)
            && (HasShape(r, IsFailed) <==> !known && !student.deactivatedOn.Blank?)
            && (HasShape(r, IsUpdatedDeactivated) <==> known && student.deactivatedOn.On? && spo.Some?)
            && (HasShape(r, IsUpdatedFailed)
                <==> known && (student.deactivatedOn.Unparsable? || (student.deactivatedOn.On? && spo.None?)))
  {
  }

  /** A row with a deactivation date never creates an account, and a row deactivated was updated. */
  lemma DeactivationNeverCreates(s: State, student: Student, school: SchoolId, spo: Option<Spo>, env: Env)
    ensures var r := RowReport(s, student, spo, env);
            && (!student.deactivatedOn.Blank? ==>
                  r.created == [] && AfterRow(s, student, school, spo, env).users == s.users)
            && (r.deactivated != [] ==> r.updated == r.deactivated)
  {
    if student.key in s.users {
      assert s.users[student.key := s.users[student.key]] == s.users;
    }
  }

  /** A row that is only reported as failed, or whose commit failed, changed nothing. An account reported exists
      afterwards, with the id reported, exactly when the row is not a new student whose commit failed; one reported
      as created is new, and one as updated is not. */
  lemma ReportsAreTrue(s: State, student: Student, school: SchoolId, spo: Option<Spo>, env: Env)
    ensures var r, t := RowReport(s, student, spo, env), AfterRow(s, student, school, spo, env);
            && (HasShape(r, IsFailed) || env.fault.CommitFails? ==> t == s)
            && (forall a <- r.created + r.updated ::
                  && a.email == student.key
                  && (a.email in t.users && t.users[a.email] == a.id
                      <==> !(env.fault.CommitFails? && student.key !in s.users)))
            && (forall a <- r.created :: a.email !in s.users)
            && (forall a <- r.updated :: a.email in s.users && s.users[a.email] == a.id)
  {
    UsersAfterRow(s, student, school, spo, env);
    ReportedAccount(s, student, spo, env);
    hide AfterRow, RowReport;
  }

  /** The one account a row can report, and when it does. */
  lemma ReportedAccount(s: State, student: Student, spo: Option<Spo>, env: Env)
    ensures var r, plan := RowReport(s, student, spo, env), PlanOf(s.users, student, spo);
            var account, reports := Account(UserOf(s, student, env), student.key), !plan.PreUpsertFailure?
                && !env.fault.RowFails?;
            && r.created == (if reports && student.key !in s.users then [account] else [])
            && r.updated == (if reports && student.key in s.users then [account] else [])
            && (HasShape(r, IsFailed) <==> !reports)
  {
  }

  lemma UsersAfterRow(s: State, student: Student, school: SchoolId, spo: Option<Spo>, env: Env)
    ensures var commits := Commits(PlanOf(s.users, student, spo), env.fault);
            var t := AfterRow(s, student, school, spo, env);
            && (!commits ==> t == s)
            && (commits ==> t.users == s.users[student.key := UserOf(s, student, env)])
  {
    hide Reconciled, Deactivate;
  }

  // ----- What the upsert leaves for the deactivation -----

  /** After the upsert there is an instance with the school's organisation, so deactivating finds one: the
      'not a member' failure cannot occur. */
  lemma UpsertLeavesInstance(rows: seq<Row>, user: UserId, spo: Spo, now: Time)
    ensures exists r <- Reconciled(rows, user, SchoolTargets(Some(spo)), now) ::
      r.user == user && r.org == spo.partnerId
  {
    var targets := SchoolTargets(Some(spo));
    assert targets == [spo];
    var active := ActiveOrgs(rows, user);
    var kept := Deactivate(rows, user, Dropped(active, targets), now);
    var created := Created(user, active, targets);
    if spo.partnerId in active {
      var i := ActiveRow(rows, user, spo.partnerId);
      assert kept[i] in kept + created && kept[i].user == user && kept[i].org == spo.partnerId;
    } else {
      assert created[0] in kept + created;
    }
  }

  lemma {:induction false} ActiveRow(rows: seq<Row>, user: UserId, org: OrgId) returns (i: nat)
    requires org in ActiveOrgs(rows, user)
    ensures i < |rows| && IsActive(rows[i], user) && rows[i].org == org
  {
    if IsActive(rows[0], user) && rows[0].org == org {
      i := 0;
    } else {
      i := ActiveRow(rows[1..], user, org);
      i := i + 1;
    }
  }

  lemma NothingActiveAfter(rows: seq<Row>, user: UserId, target: Spo, now: Time, date: Time)
    ensures ActiveOrgs(Deactivate(Reconciled(rows, user, [target], now), user, {target.partnerId}, date), user) == []
  {
    hide Reconciled, Deactivate, Without;
    var active := ActiveOrgs(Reconciled(rows, user, [target], now), user);
    var left := Without(active, {target.partnerId});
    ActiveAfterDeactivate(Reconciled(rows, user, [target], now), user, {target.partnerId}, date);
    if left != [] {
      var o := left[0];
      assert multiset(left)[o] > 0;
      assert PartnerIds([target]) == {target.partnerId};
      ActiveAfterReconcile(rows, user, [target], now, o);
      WithoutCounts(active, {target.partnerId}, o);
    }
  }

  /** A deactivated student has no active instance left, with the school's organisation or any other. */
  lemma DeactivatedStudentIsOut(s: State, student: Student, school: SchoolId, spo: Option<Spo>, env: Env)
    requires RowReport(s, student, spo, env).deactivated != []
    ensures ActiveOrgs(AfterRow(s, student, school, spo, env).rows, s.users[student.key]) == []
  {
    hide Reconciled, Deactivate;
    assert SchoolTargets(spo) == [spo.value];
    NothingActiveAfter(s.rows, s.users[student.key], spo.value, env.now, student.deactivatedOn.date);
  }

  lemma DatedRows(rows: seq<Row>, user: UserId, org: OrgId, date: Time)
    ensures forall r <- Deactivate(rows, user, {org}, date) ::
              r.user == user && r.org == org ==> r.deactivatedOn == Some(date)
    ensures forall r <- rows :: r.user == user && r.org == org ==>
              exists d <- Deactivate(rows, user, {org}, date) :: d == r.(deactivatedOn := Some(date))
  {
    forall r | r in rows && r.user == user && r.org == org
      ensures exists d <- Deactivate(rows, user, {org}, date) :: d == r.(deactivatedOn := Some(date))
    {
      var i :| 0 <= i < |rows| && rows[i] == r;
      var after := Deactivate(rows, user, {org}, date);
      assert after[i] == r.(deactivatedOn := Some(date)) && after[i] in after;
    }
  }

  /** Each of that student's rows with the school's organisation carries the date given in the upload, and there is
      one. */
  lemma DeactivatedOnGivenDate(s: State, student: Student, school: SchoolId, spo: Option<Spo>, env: Env)
    requires RowReport(s, student, spo, env).deactivated != []
    ensures student.key in s.users && student.deactivatedOn.On? && spo.Some?
    ensures var rows, user, org := AfterRow(s, student, school, spo, env).rows, s.users[student.key],
        spo.value.partnerId;
            && (exists r <- rows :: r.user == user && r.org == org)
            && (forall r <- rows :: r.user == user && r.org == org ==>
                  r.deactivatedOn == Some(student.deactivatedOn.date))
  {
    hide Reconciled, Deactivate;
    var user := s.users[student.key];
    var upserted := Reconciled(s.rows, user, SchoolTargets(spo), env.now);
    UpsertLeavesInstance(s.rows, user, spo.value, env.now);
    DatedRows(upserted, user, spo.value.partnerId, student.deactivatedOn.date);
  }

  /** A row that commits and deactivates nobody: the student is on record with the school, and with its organisation
      alone unless that was active twice. No other student's school or organisations change. */
  lemma RosteredStudentIsIn(s: State, student: Student, school: SchoolId, spo: Option<Spo>, env: Env)
    requires Commits(PlanOf(s.users, student, spo), env.fault) && RowReport(s, student, spo, env).deactivated == []
    ensures var t, user, orgs := AfterRow(s, student, school, spo, env), UserOf(s, student, env), OrgTarget(spo);
            && user in t.schools && t.schools[user] == school
            && (Hits(t.rows, user, orgs) <==> (spo.Some?
                ==> multiset(ActiveOrgs(s.rows, user))[spo.value.partnerId] <= 1))
            && (forall other: UserId :: other != user ==>
                  && (other in t.schools <==> other in s.schools)
                  && (other in s.schools ==> t.schools[other] == s.schools[other])
                  && ActiveOrgs(t.rows, other) == ActiveOrgs(s.rows, other))
  {
    var user, orgs := UserOf(s, student, env), OrgTarget(spo);
    assert SchoolTargets(spo) == orgs;
    assert PartnerIds(orgs) == if spo.Some? then {spo.value.partnerId} else {} by {
      if spo.Some? {
        assert orgs[0] == spo.value;
      }
    }
    hide Reconciled, Deactivate, Hits;
    HitsTargetsIff(s.rows, user, orgs, env.now);
    forall other: UserId | other != user
      ensures ActiveOrgs(Reconciled(s.rows, user, orgs, env.now), other) == ActiveOrgs(s.rows, other)
    {
      OthersUntouched(s.rows, user, orgs, env.now, other);
    }
  }

  // ----- The whole upload -----

  function AfterRows(s: State, students: seq<Student>, school: SchoolId, spo: Option<Spo>, envs: seq<Env>,
                     n: nat): State
    requires n <= |students| == |envs|
  {
    if n == 0 then s else AfterRow(AfterRows(s, students, school, spo, envs, n - 1), students[n - 1], school, spo,
        envs[n - 1])
  }

  function Reports(s: State, students: seq<Student>, school: SchoolId, spo: Option<Spo>, envs: seq<Env>, n: nat): Report
    requires n <= |students| == |envs|
  {
    if n == 0 then NOTHING else
      Both(Reports(s, students, school, spo, envs, n - 1),
           RowReport(AfterRows(s, students, school, spo, envs, n - 1), students[n - 1], spo, envs[n - 1]))
  }

  /** No row of n is counted twice or left out, and all those deactivated are among those updated. */
  ghost predicate AddsUp(r: Report, n: nat) {
    && |r.deactivated| <= |r.updated|
    && |r.created| + |r.updated| <= n <= |r.created| + |r.updated| + |r.failed|
    && forall a <- r.deactivated :: a in r.updated
  }

  lemma AddsUpChains(r: Report, n: nat, row: Report)
    requires AddsUp(r, n) && AddsUp(row, 1)
    ensures AddsUp(Both(r, row), n + 1)
  {
  }

  /** Over a whole upload in which every commit succeeds, repeated emails or not. */
  lemma {:induction false} UploadAddsUp(s: State, students: seq<Student>, school: SchoolId, spo: Option<Spo>,
                                        envs: seq<Env>, n: nat)
    requires n <= |students| == |envs|
    requires forall env <- envs :: !env.fault.CommitFails?
    ensures AddsUp(Reports(s, students, school, spo, envs, n), n)
  {
    hide AfterRow, RowReport, PlanOf, CreatesOnce;
    if n > 0 {
      UploadAddsUp(s, students, school, spo, envs, n - 1);
      var before := AfterRows(s, students, school, spo, envs, n - 1);
      OneMoreRow(before, students[n - 1], school, spo, envs[n - 1]);
      AddsUpChains(Reports(s, students, school, spo, envs, n - 1), n - 1,
                   RowReport(before, students[n - 1], spo, envs[n - 1]));
    }
  }

  /** No account is created twice or was there before, every account reported exists, no account goes, and those
      that are new are exactly those reported as created. */
  ghost predicate CreatesOnce(before: map<string, UserId>, after: map<string, UserId>, created: seq<Account>,
                              updated: seq<Account>) {
    && (forall a <- created + updated :: a.email in after && after[a.email] == a.id)
    && (forall i, j :: 0 <= i < j < |created| ==> created[i].email != created[j].email)
    && (forall a <- created :: a.email !in before)
    && (forall key <- before :: key in after && after[key] == before[key])
    && (forall key <- after :: key in before || exists a <- created :: a.email == key)
  }

  lemma CreatesOnceChains(users: map<string, UserId>, users': map<string, UserId>, users'': map<string, UserId>,
                          created: seq<Account>, updated: seq<Account>, created': seq<Account>, updated': seq<Account>)
    requires CreatesOnce(users, users', created, updated) && CreatesOnce(users', users'', created', updated')
    ensures CreatesOnce(users, users'', created + created', updated + updated')
  {
    var all := created + created';
    forall i, j | 0 <= i < j < |all| ensures all[i].email != all[j].email {
      if i < |created| <= j {
        assert all[i] in created + updated && all[j] in created';
      }
    }
    forall a | a in all + (updated + updated') ensures a.email in users'' && users''[a.email] == a.id {
      assert a in created + updated || a in created' + updated';
    }
    forall key | key in users'' && key !in users ensures exists a <- all :: a.email == key {
      if key in users' {
        var a :| a in created && a.email == key;
        assert a in all;
      } else {
        var a :| a in created' && a.email == key;
        assert a in all;
      }
    }
  }

  lemma {:induction false} UploadCreatesOnce(s: State, students: seq<Student>, school: SchoolId, spo: Option<Spo>,
                                             envs: seq<Env>, n: nat)
    requires n <= |students| == |envs|
    requires forall env <- envs :: !env.fault.CommitFails?
    ensures var r := Reports(s, students, school, spo, envs, n);
            CreatesOnce(s.users, AfterRows(s, students, school, spo, envs, n).users, r.created, r.updated)
  {
    hide AfterRow, RowReport, PlanOf;
    if n > 0 {
      UploadCreatesOnce(s, students, school, spo, envs, n - 1);
      var before, r := AfterRows(s, students, school, spo, envs, n - 1), Reports(s, students, school, spo, envs, n - 1);
      var student, env := students[n - 1], envs[n - 1];
      OneMoreRow(before, student, school, spo, env);
      var row := RowReport(before, student, spo, env);
      CreatesOnceChains(s.users, before.users, AfterRow(before, student, school, spo, env).users, r.created,
          r.updated, row.created, row.updated);
    }
  }

  lemma OneMoreRow(s: State, student: Student, school: SchoolId, spo: Option<Spo>, env: Env)
    requires !env.fault.CommitFails?
    ensures var r, t := RowReport(s, student, spo, env), AfterRow(s, student, school, spo, env);
            && AddsUp(r, 1)
            && CreatesOnce(s.users, t.users, r.created, r.updated)
  {
    UsersAfterRow(s, student, school, spo, env);
    hide AfterRow;
    var r := RowReport(s, student, spo, env);
    if r.created != [] {
      assert r.created == [Account(env.id, student.key)];
      assert r.created[0] in r.created;
    }
  }

  // ----- The code -----

  datatype Result = Thrown | Reported(report: Report)

  /** The first row whose plan lookup fails ends the upload: that lookup is outside the try. */
  predicate PlanThrows(student: Student, env: Env) {
    !student.deactivatedOn.Blank? && env.fault.PlanFails?
  }

  class Rosterer {
    var users: map<string, UserId>
    const tables: Students

    constructor (tables: Students, users: map<string, UserId>)
      ensures this.tables == tables && this.users == users
    {
      this.tables, this.users := tables, users;
    }

    ghost function Current(): State
      reads this, tables
    {
      State(users, tables.rows, tables.schools)
    }

    method PlanDeactivation(student: Student, schoolSpo: Option<Spo>) returns (plan: Plan)
      ensures plan == PlanOf(users, student, schoolSpo)
    {
      if student.deactivatedOn.Blank? {
        return NoPlan;
      }
      if student.key !in users {
        return PreUpsertFailure;
      }
      if student.deactivatedOn.Unparsable? {
        return PostUpsertFailure;
      }
      if schoolSpo.None? {
        return PostUpsertFailure;
      }
      return DeactivateOn(student.deactivatedOn.date, schoolSpo.value.partnerId);
    }

    /** INSERT ... ON CONFLICT (email) DO UPDATE */
    method UpsertUser(key: string, id: UserId) returns (user: Account, isCreated: bool)
      modifies `users
      ensures isCreated <==> key !in old(users)
      ensures user == Account(if key in old(users) then old(users)[key] else id, key)
      ensures users == old(users)[key := user.id]
    {
      isCreated := key !in users;
      if isCreated {
        users := users[key := id];
      }
      user := Account(users[key], key);
      assert users == old(users)[key := user.id];
    }

    /** The transaction of one row: the arrays are appended to before the commit, and a rollback does not
        take that back. Nothing is returned when it threw. */
    method UpsertInTransaction(student: Student, school: SchoolId, bySchool: Option<Spo>, env: Env)
      returns (upserted: Option<Account>, created: seq<Account>, updated: seq<Account>)
      requires bySchool.Some? ==> bySchool.value.schoolId == Some(school)
      modifies this, tables
      ensures var s := old(Current());
              var account := Account(UserOf(s, student, env), student.key);
              && (upserted.Some? <==> !env.fault.RowFails? && !env.fault.CommitFails?)
              && (upserted.Some? ==>
                    upserted.value == account && Current() == AfterUpsert(s, student, school, bySchool, env))
              && (upserted.None? ==> Current() == s)
              && created == (if env.fault.RowFails? || student.key in s.users then [] else [account])
              && updated == (if env.fault.RowFails? || student.key !in s.users then [] else [account])
    {
      created, updated := [], [];
      if env.fault.RowFails? {
        return None, [], [];
      }
      var savedUsers, savedRows, savedSchools := users, tables.rows, tables.schools;
      var user, isCreated := UpsertUser(student.key, env.id);
      tables.UpsertStudent(user.id, None, Some(school), bySchool, env.now);
      if isCreated {
        created := [user];
      } else {
        updated := [user];
      }
      if env.fault.CommitFails? {
        users, tables.rows, tables.schools := savedUsers, savedRows, savedSchools;
        return None, created, updated;
      }
      upserted := Some(user);
    }

    method RosterStudent(student: Student, school: SchoolId, spo: Option<Spo>, env: Env, plan: Plan)
      returns (report: Report)
      requires spo.Some? ==> spo.value.schoolId == Some(school)
      requires plan == PlanOf(users, student, spo)
      modifies this, tables
      ensures Current() == AfterRow(old(Current()), student, school, spo, env)
      ensures report == RowReport(old(Current()), student, spo, env)
    {
      hide Reconciled, Deactivate;
      var failed := [Failure(student.email, student.firstName)];
      if plan.PreUpsertFailure? {
        return NOTHING.(failed := failed);
      }
      var upserted, created, updated := UpsertInTransaction(student, school, spo, env);
      report := NOTHING.(created := created, updated := updated);
      if upserted.None? {
        return report.(failed := failed);
      }
      if plan.PostUpsertFailure? {
        return report.(failed := failed);
      }
      if plan.DeactivateOn? {
        if env.fault.DeactivationFails? {
          return report.(failed := failed);
        }
        UpsertLeavesInstance(old(tables.rows), upserted.value.id, spo.value, env.now);
        var deactivated := tables.DeactivateInstance(upserted.value.id, plan.spoPartnerId, plan.date);
        if deactivated {
          return report.(deactivated := [upserted.value]);
        }
        return report.(failed := failed);
      }
    }

    /** `spo` is the school's organisation, as both lookups by school find it. */
    method RosterPartnerStudents(students: seq<Student>, school: SchoolId, spo: Option<Spo>, envs: seq<Env>)
      returns (result: Result)
      requires |students| == |envs| && (spo.Some? ==> spo.value.schoolId == Some(school))
      modifies this, tables
      ensures result.Reported? <==> forall i :: 0 <= i < |students| ==> !PlanThrows(students[i], envs[i])
      ensures result.Reported? ==> && result.report == Reports(old(Current()), students, school, spo, envs, |students|)
                                   && Current() == AfterRows(old(Current()), students, school, spo, envs, |students|)
      ensures result.Thrown? ==> exists n: nat ::
                && n < |students| && PlanThrows(students[n], envs[n])
                    && (forall i :: 0 <= i < n ==> !PlanThrows(students[i], envs[i]))
                && Current() == AfterRows(old(Current()), students, school, spo, envs, n)
    {
      hide AfterRow, RowReport, PlanOf;
      var report := NOTHING;
      for i := 0 to |students|
        invariant report == Reports(old(Current()), students, school, spo, envs, i)
        invariant Current() == AfterRows(old(Current()), students, school, spo, envs, i)
        invariant forall k :: 0 <= k < i ==> !PlanThrows(students[k], envs[k])
      {
        if PlanThrows(students[i], envs[i]) {
          return Thrown;
        }
        var plan := PlanDeactivation(students[i], spo);
        var row := RosterStudent(students[i], school, spo, envs[i], plan);
        report := Both(report, row);
      }
      return Reported(report);
    }
  }
}
