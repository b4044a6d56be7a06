/**
 The partnership instances of students, users_student_partner_orgs_instances, and their reconciliation by
 upsertStudent in server/services/UserCreationService.ts.
 */
module PartnerOrgs {
  import opened Basics

  type UserId = nat
  type OrgId = nat
  type SiteId = nat
  type SchoolId = nat
  type Time = int

  datatype Row = Row(user: UserId, org: OrgId, site: Option<SiteId>, deactivatedOn: Option<Time>)

  /** A student partner organisation, as the lookups return it. */
  datatype Spo = Spo(partnerId: OrgId, siteId: Option<SiteId>, schoolId: Option<SchoolId>)

  predicate IsActive(row: Row, user: UserId) {
    row.user == user && row.deactivatedOn.None?
  }

  /** The organisations of a student's active instances, with repetition. */
  function ActiveOrgs(rows: seq<Row>, user: UserId): seq<OrgId> {
    if rows == [] then [] else
      (if IsActive(rows[0], user) then [rows[0].org] else []) + ActiveOrgs(rows[1..], user)
  }

  /** The update's WHERE does not ask for active rows: it dates every row of the student and the organisation. */
  function Deactivate(rows: seq<Row>, user: UserId, orgs: set<OrgId>, now: Time): (r: seq<Row>)
    ensures |r| == |rows|
  {
    seq(|rows|, i requires 0 <= i < |rows| =>
      if rows[i].user == user && rows[i].org in orgs then rows[i].(deactivatedOn := Some(now)) else rows[i])
  }

  function Without(ids: seq<OrgId>, orgs: set<OrgId>): seq<OrgId> {
    if ids == [] then [] else (if ids[0] in orgs then [] else [ids[0]]) + Without(ids[1..], orgs)
  }

  lemma {:induction false} ActiveAfterDeactivate(rows: seq<Row>, user: UserId, orgs: set<OrgId>, now: Time)
    ensures ActiveOrgs(Deactivate(rows, user, orgs, now), user) == Without(ActiveOrgs(rows, user), orgs)
  {
    if rows != [] {
      ActiveAfterDeactivate(rows[1..], user, orgs, now);
      var after := Deactivate(rows, user, orgs, now);
      assert after[1..] == Deactivate(rows[1..], user, orgs, now);
      var rest := ActiveOrgs(rows[1..], user);
      if IsActive(rows[0], user) {
        assert ActiveOrgs(rows, user) == [rows[0].org] + rest && ([rows[0].org] + rest)[1..] == rest;
      } else {
        assert !IsActive(after[0], user);
        assert ActiveOrgs(rows, user) == rest;
      }
    }
  }

  lemma {:induction false} ActiveOfBoth(a: seq<Row>, b: seq<Row>, user: UserId)
    ensures ActiveOrgs(a + b, user) == ActiveOrgs(a, user) + ActiveOrgs(b, user)
  {
    if a == [] {
      assert a + b == b;
    } else {
      ActiveOfBoth(a[1..], b, user);
      FirstOfAppend(a, b);
      AppendIsAssociative(if IsActive(a[0], user) then [a[0].org] else [],
                          ActiveOrgs(a[1..], user), ActiveOrgs(b, user));
    }
  }

  lemma {:induction false} WithoutCounts(ids: seq<OrgId>, orgs: set<OrgId>, o: OrgId)
    ensures multiset(Without(ids, orgs))[o] == if o in orgs then 0 else multiset(ids)[o]
  {
    if ids != [] {
      WithoutCounts(ids[1..], orgs, o);
      assert ids == [ids[0]] + ids[1..];
    }
  }

  lemma DeactivateMore(rows: seq<Row>, user: UserId, orgs: set<OrgId>, more: set<OrgId>, now: Time)
    ensures Deactivate(Deactivate(rows, user, orgs, now), user, more, now) == Deactivate(rows, user, orgs + more, now)
  {
  }

  // ----- What reconciling does -----

  function ToSet(ids: seq<OrgId>): set<OrgId> {
    set o | o in ids
  }

  function PartnerIds(targets: seq<Spo>): set<OrgId> {
    set t | t in targets :: t.partnerId
  }

  predicate Distinct(targets: seq<Spo>) {
    forall i, j :: 0 <= i < j < |targets| ==> targets[i].partnerId != targets[j].partnerId
  }

  /** Active organisations that are no target, or are active twice: one occurrence uses a target up, and the
      next occurrence deactivates them all. */
  function Dropped(active: seq<OrgId>, targets: seq<Spo>): set<OrgId> {
    set o | o in active && (o !in PartnerIds(targets) || multiset(active)[o] > 1)
  }

  function Created(user: UserId, active: seq<OrgId>, targets: seq<Spo>): seq<Row> {
    if targets == [] then [] else
      (if targets[0].partnerId in active then [] else [Row(user, targets[0].partnerId, targets[0].siteId, None)])
      + Created(user, active, targets[1..])
  }

  function Reconciled(rows: seq<Row>, user: UserId, targets: seq<Spo>, now: Time): seq<Row> {
    var active := ActiveOrgs(rows, user);
    Deactivate(rows, user, Dropped(active, targets), now) + Created(user, active, targets)
  }

  lemma FirstPartnerId(targets: seq<Spo>)
    requires targets != [] && Distinct(targets)
    ensures PartnerIds(targets) == {targets[0].partnerId} + PartnerIds(targets[1..])
    ensures targets[0].partnerId !in PartnerIds(targets[1..])
  {
    assert targets == [targets[0]] + targets[1..];
  }

  lemma {:induction false} CreatedCounts(user: UserId, active: seq<OrgId>, targets: seq<Spo>, o: OrgId)
    requires Distinct(targets)
    ensures multiset(ActiveOrgs(Created(user, active, targets), user))[o]
         == if o in PartnerIds(targets) && o !in active then 1 else 0
  {
    if targets != [] {
      var t, rest := targets[0], targets[1..];
      CreatedCounts(user, active, rest, o);
      FirstPartnerId(targets);
      var first := if t.partnerId in active then [] else [Row(user, t.partnerId, t.siteId, None)];
      assert ActiveOrgs(first, user) == if t.partnerId in active then [] else [t.partnerId];
      ActiveOfBoth(first, Created(user, active, rest), user);
    }
  }

  /** Afterwards each target is active once, except a target that was active more than once: that one is lost. */
  lemma ActiveAfterReconcile(rows: seq<Row>, user: UserId, targets: seq<Spo>, now: Time, o: OrgId)
    requires Distinct(targets)
    ensures multiset(ActiveOrgs(Reconciled(rows, user, targets, now), user))[o]
         == if o in PartnerIds(targets) && multiset(ActiveOrgs(rows, user))[o] <= 1 then 1 else 0
  {
    var active := ActiveOrgs(rows, user);
    var dropped := Dropped(active, targets);
    ActiveOfBoth(Deactivate(rows, user, dropped, now), Created(user, active, targets), user);
    ActiveAfterDeactivate(rows, user, dropped, now);
    WithoutCounts(active, dropped, o);
    CreatedCounts(user, active, targets, o);
    assert o in multiset(active) <==> o in active;
  }

  /** No other student's instances change. */
  lemma OthersUntouched(rows: seq<Row>, user: UserId, targets: seq<Spo>, now: Time, other: UserId)
    requires other != user
    ensures ActiveOrgs(Reconciled(rows, user, targets, now), other) == ActiveOrgs(rows, other)
  {
    var active := ActiveOrgs(rows, user);
    var dropped := Dropped(active, targets);
    OthersAfterDeactivate(rows, user, dropped, now, other);
    CreatedForUser(user, active, targets, other);
    ActiveOfBoth(Deactivate(rows, user, dropped, now), Created(user, active, targets), other);
  }

  lemma {:induction false} OthersAfterDeactivate(rows: seq<Row>, user: UserId, orgs: set<OrgId>, now: Time,
                                                 other: UserId)
    requires other != user
    ensures ActiveOrgs(Deactivate(rows, user, orgs, now), other) == ActiveOrgs(rows, other)
  {
    if rows != [] {
      OthersAfterDeactivate(rows[1..], user, orgs, now, other);
      assert Deactivate(rows, user, orgs, now)[1..] == Deactivate(rows[1..], user, orgs, now);
    }
  }

  lemma {:induction false} CreatedForUser(user: UserId, active: seq<OrgId>, targets: seq<Spo>, other: UserId)
    requires other != user
    ensures ActiveOrgs(Created(user, active, targets), other) == []
  {
    if targets != [] {
      CreatedForUser(user, active, targets[1..], other);
      var first := if targets[0].partnerId in active then []
          else [Row(user, targets[0].partnerId, targets[0].siteId, None)];
      ActiveOfBoth(first, Created(user, active, targets[1..]), other);
    }
  }

  ghost predicate Hits(rows: seq<Row>, user: UserId, targets: seq<Spo>) {
    multiset(ActiveOrgs(rows, user)) == multiset(PartnerIds(targets))
  }

  /** The target set is reached exactly when no target was active twice to begin with. */
  lemma {:induction false} HitsTargetsIff(rows: seq<Row>, user: UserId, targets: seq<Spo>, now: Time)
    requires Distinct(targets)
    ensures Hits(Reconciled(rows, user, targets, now), user, targets)
       <==> forall o <- PartnerIds(targets) :: multiset(ActiveOrgs(rows, user))[o] <= 1
  {
    var after := multiset(ActiveOrgs(Reconciled(rows, user, targets, now), user));
    forall o ensures after[o] == if o in PartnerIds(targets) && multiset(ActiveOrgs(rows, user))[o] <= 1 then 1 else 0 {
      ActiveAfterReconcile(rows, user, targets, now, o);
    }
  }

  /** What is deactivated is exactly old minus target, and what is created exactly target minus old, when no
      organisation was active twice. */
  lemma {:induction false} MinimalChange(rows: seq<Row>, user: UserId, targets: seq<Spo>)
    requires Distinct(targets)
    requires forall o: OrgId :: multiset(ActiveOrgs(rows, user))[o] <= 1
    ensures var active := ActiveOrgs(rows, user);
            && Dropped(active, targets) == ToSet(active) - PartnerIds(targets)
            && multiset(ActiveOrgs(Created(user, active, targets), user))
                == multiset(PartnerIds(targets) - ToSet(active))
  {
    var active := ActiveOrgs(rows, user);
    assert forall o :: o in active <==> o in multiset(active);
    forall o ensures multiset(ActiveOrgs(Created(user, active, targets), user))[o]
                  == multiset(PartnerIds(targets) - ToSet(active))[o] {
      CreatedCounts(user, active, targets, o);
    }
  }

  /** Reconciling what already is the target set changes no row. */
  lemma {:induction false} NothingLeftToDo(rows: seq<Row>, user: UserId, targets: seq<Spo>, now: Time)
    requires Hits(rows, user, targets)
    ensures Reconciled(rows, user, targets, now) == rows
  {
    var active := ActiveOrgs(rows, user);
    assert forall o :: o in active <==> o in multiset(active);
    assert Dropped(active, targets) == {};
    NoneCreated(user, active, targets);
    assert Deactivate(rows, user, {}, now) == rows;
  }

  lemma {:induction false} NoneCreated(user: UserId, active: seq<OrgId>, targets: seq<Spo>)
    requires forall t <- targets :: t.partnerId in active
    ensures Created(user, active, targets) == []
  {
    if targets != [] {
      NoneCreated(user, active, targets[1..]);
    }
  }

  /** Whatever it starts from, a second run reaches the target set: it creates what duplicates lost. */
  lemma SecondRunHits(rows: seq<Row>, user: UserId, targets: seq<Spo>, now: Time, later: Time)
    requires Distinct(targets)
    ensures Hits(Reconciled(Reconciled(rows, user, targets, now), user, targets, later), user, targets)
  {
    var once := Reconciled(rows, user, targets, now);
    forall o ensures multiset(ActiveOrgs(once, user))[o] <= 1 {
      ActiveAfterReconcile(rows, user, targets, now, o);
    }
    HitsTargetsIff(once, user, targets, later);
  }

  /** Two active rows of the one requested organisation: the target is missed. */
  lemma DuplicateLosesTarget(row: Row, target: Spo, now: Time)
    requires row.deactivatedOn.None? && row.org == target.partnerId
    ensures !Hits(Reconciled([row, row], row.user, [target], now), row.user, [target])
  {
    assert [row, row] == [row] + [row];
    ActiveOfBoth([row], [row], row.user);
    assert ActiveOrgs([row], row.user) == [row.org];
    assert multiset([row.org] + [row.org])[row.org] == 2;
    assert [target][0].partnerId in PartnerIds([target]);
    HitsTargetsIff([row, row], row.user, [target], now);
  }

  lemma {:induction false} CreatedRowsIff(user: UserId, active: seq<OrgId>, targets: seq<Spo>, r: Row)
    ensures r in Created(user, active, targets)
       <==> exists t <- targets :: t.partnerId !in active && r == Row(user, t.partnerId, t.siteId, None)
  {
    if targets != [] {
      CreatedRowsIff(user, active, targets[1..], r);
      assert targets == [targets[0]] + targets[1..];
    }
  }

  /** Row by row: a row stays as it was, or is dated now, which happens only to this student's rows of an
      organisation that was active. Each further row is a target that was not active, at its site. */
  lemma RowsAfterReconcile(rows: seq<Row>, user: UserId, targets: seq<Spo>, now: Time, i: nat)
    requires i < |Reconciled(rows, user, targets, now)|
    ensures var r, active := Reconciled(rows, user, targets, now)[i], ActiveOrgs(rows, user);
            if i < |rows| then
              r == rows[i] || (rows[i].user == user && rows[i].org in active
                  && r == rows[i].(deactivatedOn := Some(now)))
            else exists t <- targets :: t.partnerId !in active && r == Row(user, t.partnerId, t.siteId, None)
  {
    var active := ActiveOrgs(rows, user);
    if i >= |rows| {
      var created := Created(user, active, targets);
      assert Reconciled(rows, user, targets, now)[i] == created[i - |rows|];
      assert created[i - |rows|] in created;
      CreatedRowsIff(user, active, targets, created[i - |rows|]);
    }
  }

  // ----- The tables and the code -----

  function OrgTarget(org: Option<Spo>): seq<Spo> {
    if org.Some? then [org.value] else []
  }

  /** The school's own organisation is not looked up when the requested one already is the school's. */
  function SchoolTarget(org: Option<Spo>, schoolId: Option<SchoolId>, bySchool: Option<Spo>): Option<Spo> {
    if schoolId.Some? && (org.None? || org.value.schoolId != schoolId) then bySchool else None
  }

  /** The lookups agree with each other: an organisation belongs to one school, and the lookup by school
      finds an organisation of that school. */
  predicate Consistent(org: Option<Spo>, schoolId: Option<SchoolId>, bySchool: Option<Spo>) {
    && (bySchool.Some? ==> bySchool.value.schoolId == schoolId)
    && (org.Some? && bySchool.Some? && org.value.partnerId == bySchool.value.partnerId
        ==> org.value.schoolId == bySchool.value.schoolId)
  }

  /** A target still to add: none that is among the active organisations. */
  function Unless(target: Option<Spo>, active: seq<OrgId>): Option<Spo> {
    if target.Some? && target.value.partnerId in active then None else target
  }

  class Students {
    var rows: seq<Row>
    /** users_schools: one school a user */
    var schools: map<UserId, SchoolId>

    constructor (rows: seq<Row>, schools: map<UserId, SchoolId>)
      ensures this.rows == rows && this.schools == schools
    {
      this.rows, this.schools := rows, schools;
    }

    /** The result says whether there was any row, active or not. */
    method DeactivateInstance(user: UserId, org: OrgId, now: Time) returns (found: bool)
      modifies `rows
      ensures rows == Deactivate(old(rows), user, {org}, now)
      ensures found <==> exists r <- old(rows) :: r.user == user && r.org == org
    {
      found := exists r <- rows :: r.user == user && r.org == org;
      rows := Deactivate(rows, user, {org}, now);
    }

    method CreateInstance(user: UserId, spo: Spo)
      modifies `rows
      ensures rows == old(rows) + [Row(user, spo.partnerId, spo.siteId, None)]
    {
      rows := rows + [Row(user, spo.partnerId, spo.siteId, None)];
    }

    /** The loop: what is already active need not be added, what is not wanted is deactivated. */
    method DeactivateOthers(user: UserId, org: Option<Spo>, school: Option<Spo>, activeInstances: seq<OrgId>, now: Time)
      returns (spoOrgToAdd: Option<Spo>, spoSchoolToAdd: Option<Spo>)
      requires Distinct(OrgTarget(org) + OrgTarget(school))
      modifies `rows
      ensures spoOrgToAdd == Unless(org, activeInstances) && spoSchoolToAdd == Unless(school, activeInstances)
      ensures rows == Deactivate(old(rows), user, Dropped(activeInstances, OrgTarget(org) + OrgTarget(school)), now)
    {
      hide Deactivate, Dropped, Distinct;
      spoOrgToAdd, spoSchoolToAdd := org, school;
      ghost var targets := OrgTarget(org) + OrgTarget(school);
      NothingDropped(rows, user, targets, now);
      TargetIds(org, school);
      for i := 0 to |activeInstances|
        invariant spoOrgToAdd == Unless(org, activeInstances[..i])
        invariant spoSchoolToAdd == Unless(school, activeInstances[..i])
        invariant rows == Deactivate(old(rows), user, Dropped(activeInstances[..i], targets), now)
      {
        var a := activeInstances[i];
        OneMoreActive(activeInstances, i, targets);
        if spoOrgToAdd.Some? && spoOrgToAdd.value.partnerId == a {
          spoOrgToAdd := None;
        } else if spoSchoolToAdd.Some? && spoSchoolToAdd.value.partnerId == a {
          spoSchoolToAdd := None;
        } else {
          DeactivateMore(old(rows), user, Dropped(activeInstances[..i], targets), {a}, now);
          var _ := DeactivateInstance(user, a, now);
        }
      }
      assert activeInstances[..|activeInstances|] == activeInstances;
    }

    /** `org` and `bySchool` are what the lookups by key and by school return. */
    method UpsertStudent(user: UserId, org: Option<Spo>, schoolId: Option<SchoolId>, bySchool: Option<Spo>, now: Time)
      requires Consistent(org, schoolId, bySchool)
      modifies this
      ensures var targets := OrgTarget(org) + OrgTarget(SchoolTarget(org, schoolId, bySchool));
              Distinct(targets) && rows == Reconciled(old(rows), user, targets, now)
      ensures var active := ActiveOrgs(old(rows), user);
              schools == if schoolId.Some? then old(schools)[user := schoolId.value]
                         else if org.Some? && org.value.partnerId !in active && org.value.schoolId.Some?
                         then old(schools)[user := org.value.schoolId.value]
                         else old(schools)
    {
      hide Deactivate, Dropped, Distinct;
      TargetsAreDistinct(org, schoolId, bySchool);
      var activeInstances := ActiveOrgs(rows, user);
      ghost var school := SchoolTarget(org, schoolId, bySchool);
      var spoOrgToAdd, spoSchoolToAdd := DeactivateOthers(user, org, SchoolTarget(org, schoolId, bySchool),
          activeInstances, now);
      ghost var kept := rows;
      CreatedOfTwo(user, activeInstances, org, school);
      if spoOrgToAdd.Some? {
        CreateInstance(user, spoOrgToAdd.value);
      }
      if spoSchoolToAdd.Some? {
        CreateInstance(user, spoSchoolToAdd.value);
      }
      assert rows == kept + (NewRow(user, spoOrgToAdd) + NewRow(user, spoSchoolToAdd));
      var finalSchool := schoolId;
      if spoOrgToAdd.Some? && spoOrgToAdd.value.schoolId.Some? && schoolId.None? {
        finalSchool := spoOrgToAdd.value.schoolId;
      }
      if finalSchool.Some? {
        schools := schools[user := finalSchool.value];
      }
    }
  }

  lemma NothingDropped(rows: seq<Row>, user: UserId, targets: seq<Spo>, now: Time)
    ensures Deactivate(rows, user, Dropped([], targets), now) == rows
  {
  }

  lemma TargetIds(org: Option<Spo>, school: Option<Spo>)
    requires Distinct(OrgTarget(org) + OrgTarget(school))
    ensures org.Some? && school.Some? ==> org.value.partnerId != school.value.partnerId
    ensures PartnerIds(OrgTarget(org) + OrgTarget(school))
         == (if org.Some? then {org.value.partnerId} else {}) + (if school.Some? then {school.value.partnerId} else {})
  {
    var targets := OrgTarget(org) + OrgTarget(school);
    assert forall t :: t in targets <==> t in OrgTarget(org) || t in OrgTarget(school);
    if org.Some? && school.Some? {
      assert targets[0] == org.value && targets[1] == school.value;
    }
    if org.Some? {
      assert org.value in targets;
    }
    if school.Some? {
      assert school.value in targets;
    }
  }

  lemma OneMoreActive(active: seq<OrgId>, i: nat, targets: seq<Spo>)
    requires i < |active|
    ensures forall o :: o in active[..i + 1] <==> o in active[..i] || o == active[i]
    ensures Dropped(active[..i + 1], targets)
         == if active[i] in PartnerIds(targets) && active[i] !in active[..i] then Dropped(active[..i], targets)
            else Dropped(active[..i], targets) + {active[i]}
  {
    assert active[..i + 1] == active[..i] + [active[i]];
    assert forall o :: o in active[..i] <==> o in multiset(active[..i]);
  }

  function NewRow(user: UserId, spo: Option<Spo>): seq<Row> {
    if spo.Some? then [Row(user, spo.value.partnerId, spo.value.siteId, None)] else []
  }

  lemma CreatedOfTwo(user: UserId, active: seq<OrgId>, org: Option<Spo>, school: Option<Spo>)
    ensures Created(user, active, OrgTarget(org) + OrgTarget(school))
         == NewRow(user, Unless(org, active)) + NewRow(user, Unless(school, active))
  {
    assert Created(user, active, OrgTarget(school)) == NewRow(user, Unless(school, active)) by {
      if school.Some? {
        assert OrgTarget(school)[1..] == [];
      }
    }
    if org.None? {
      assert OrgTarget(org) + OrgTarget(school) == OrgTarget(school);
    } else {
      assert (OrgTarget(org) + OrgTarget(school))[1..] == OrgTarget(school);
    }
  }

  lemma TargetsAreDistinct(org: Option<Spo>, schoolId: Option<SchoolId>, bySchool: Option<Spo>)
    requires Consistent(org, schoolId, bySchool)
    ensures Distinct(OrgTarget(org) + OrgTarget(SchoolTarget(org, schoolId, bySchool)))
  {
    var school := SchoolTarget(org, schoolId, bySchool);
    if org.Some? && school.Some? {
      assert OrgTarget(org) + OrgTarget(school) == [org.value, school.value];
    } else {
      assert |OrgTarget(org) + OrgTarget(school)| <= 1;
    }
  }
}
