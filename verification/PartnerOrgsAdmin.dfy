/**
 An administrator's change of a student's partner organisation and partner school,
 updateStudentPartnerOrgInstance in server/services/UserService.ts.
 */
module PartnerOrgsAdmin {
  import opened Basics
  import opened PartnerOrgs

  datatype Org = Org(name: string, schoolId: Option<SchoolId>)

  /** Organisations by id and by key, and their sites: by organisation and name, and names by id. */
  datatype Catalogue = Catalogue(orgs: map<OrgId, Org>, byKey: map<string, OrgId>,
                                 sites: map<(OrgId, string), SiteId>, siteNames: map<SiteId, string>)

  predicate ValidCatalogue(c: Catalogue) {
    && (forall key <- c.byKey :: c.byKey[key] in c.orgs)
    && (forall site <- c.sites :: c.sites[site] in c.siteNames && c.siteNames[c.sites[site]] == site.1)
  }

  predicate UniqueNames(c: Catalogue) {
    forall a <- c.orgs, b <- c.orgs :: c.orgs[a].name == c.orgs[b].name ==> a == b
  }

  /** The foreign keys of the instances. */
  predicate ValidRows(c: Catalogue, rows: seq<Row>) {
    forall r <- rows :: r.org in c.orgs && (r.site.Some? ==> r.site.value in c.siteNames)
  }

  /** What the lookup by key and site name returns. */
  datatype Listing = Listing(partnerId: OrgId, partnerName: string, siteId: Option<SiteId>, siteName: Option<string>,
                             schoolId: Option<SchoolId>)

  /** No key finds nothing; a site the organisation does not have is left out. */
  function Find(c: Catalogue, key: Option<string>, site: Option<string>): (listing: Option<Listing>)
    requires ValidCatalogue(c)
    ensures listing.Some? ==> listing.value.partnerId in c.orgs
  {
    if key.None? || key.value !in c.byKey then None else
      var id := c.byKey[key.value];
      var found := site.Some? && (id, site.value) in c.sites;
      Some(Listing(id, c.orgs[id].name, if found then Some(c.sites[(id, site.value)]) else None,
                   if found then site else None, c.orgs[id].schoolId))
  }

  /** An active instance with the names of its organisation and site. */
  datatype Instance = Instance(name: string, id: OrgId, schoolId: Option<SchoolId>, siteName: Option<string>)

  function InstanceOf(c: Catalogue, r: Row): Instance
    requires ValidRows(c, [r])
  {
    assert r in [r];
    Instance(c.orgs[r.org].name, r.org, c.orgs[r.org].schoolId,
             if r.site.Some? then Some(c.siteNames[r.site.value]) else None)
  }

  function Instances(c: Catalogue, rows: seq<Row>, user: UserId): seq<Instance>
    requires ValidRows(c, rows)
  {
    if rows == [] then [] else
      (if IsActive(rows[0], user) then [InstanceOf(c, rows[0])] else []) + Instances(c, rows[1..], user)
  }

  function OfKind(instances: seq<Instance>, school: bool): seq<Instance> {
    if instances == [] then [] else
      (if instances[0].schoolId.Some? == school then [instances[0]] else []) + OfKind(instances[1..], school)
  }

  function Last(instances: seq<Instance>): Option<Instance> {
    if instances == [] then None else Some(instances[|instances| - 1])
  }

  // ----- What changes -----

  /** The active instance of a kind goes when nothing, or something else, is wanted of that kind. */
  predicate Drops(slot: Option<Instance>, wanted: Option<Listing>, withSite: bool) {
    slot.Some? && (wanted.None? || slot.value.name != wanted.value.partnerName
                   || (withSite && slot.value.siteName != wanted.value.siteName))
  }

  function Ids(slot: Option<Instance>, drops: bool): set<OrgId> {
    if drops && slot.Some? then {slot.value.id} else {}
  }

  function NewRows(user: UserId, slot: Option<Instance>, drops: bool, wanted: Option<Listing>,
                   siteId: Option<SiteId>): seq<Row> {
    if wanted.Some? && (slot.None? || drops) then [Row(user, wanted.value.partnerId, siteId, None)] else []
  }

  function OrgIdOf(wanted: Option<Listing>): Option<OrgId> {
    if wanted.Some? then Some(wanted.value.partnerId) else None
  }

  function SiteOf(wanted: Option<Listing>): Option<SiteId> {
    if wanted.Some? then wanted.value.siteId else None
  }

  function Updated(c: Catalogue, rows: seq<Row>, user: UserId, partner: Option<Listing>, school: Option<Listing>,
                   now: Time): seq<Row>
    requires ValidRows(c, rows)
  {
    var active := Instances(c, rows, user);
    var p, s := Last(OfKind(active, false)), Last(OfKind(active, true));
    var dropsP, dropsS := Drops(p, partner, true), Drops(s, school, false);
    Deactivate(rows, user, Ids(p, dropsP) + Ids(s, dropsS), now)
    + NewRows(user, p, dropsP, partner, SiteOf(partner)) + NewRows(user, s, dropsS, school, None)
  }

  function Except(instances: seq<Instance>, orgs: set<OrgId>): seq<Instance> {
    if instances == [] then [] else
      (if instances[0].id in orgs then [] else [instances[0]]) + Except(instances[1..], orgs)
  }

  lemma {:induction false} InstancesAfterDeactivate(c: Catalogue, rows: seq<Row>, user: UserId, orgs: set<OrgId>,
                                                    now: Time)
    requires ValidRows(c, rows)
    ensures ValidRows(c, Deactivate(rows, user, orgs, now))
    ensures Instances(c, Deactivate(rows, user, orgs, now), user) == Except(Instances(c, rows, user), orgs)
  {
    var after := Deactivate(rows, user, orgs, now);
    forall r | r in after ensures r.org in c.orgs && (r.site.Some? ==> r.site.value in c.siteNames) {
      var i :| 0 <= i < |after| && after[i] == r;
      assert rows[i] in rows;
    }
    if rows != [] {
      InstancesAfterDeactivate(c, rows[1..], user, orgs, now);
      assert after[1..] == Deactivate(rows[1..], user, orgs, now);
      var rest := Instances(c, rows[1..], user);
      if IsActive(rows[0], user) {
        assert Instances(c, rows, user) == [InstanceOf(c, rows[0])] + rest;
        assert ([InstanceOf(c, rows[0])] + rest)[1..] == rest;
      } else {
        assert !IsActive(after[0], user);
        assert Instances(c, rows, user) == rest;
      }
    }
  }

  lemma {:induction false} InstancesOfBoth(c: Catalogue, a: seq<Row>, b: seq<Row>, user: UserId)
    requires ValidRows(c, a) && ValidRows(c, b)
    ensures ValidRows(c, a + b) && Instances(c, a + b, user) == Instances(c, a, user) + Instances(c, b, user)
  {
    if a == [] {
      assert a + b == b;
    } else {
      InstancesOfBoth(c, a[1..], b, user);
      FirstOfAppend(a, b);
      AppendIsAssociative(if IsActive(a[0], user) then [InstanceOf(c, a[0])] else [],
                          Instances(c, a[1..], user), Instances(c, b, user));
    }
  }

  lemma {:induction false} KindOfBoth(a: seq<Instance>, b: seq<Instance>, school: bool)
    ensures OfKind(a + b, school) == OfKind(a, school) + OfKind(b, school)
  {
    if a == [] {
      assert a + b == b;
    } else {
      KindOfBoth(a[1..], b, school);
      FirstOfAppend(a, b);
      AppendIsAssociative(if a[0].schoolId.Some? == school then [a[0]] else [],
                          OfKind(a[1..], school), OfKind(b, school));
    }
  }

  lemma {:induction false} KindOfExcept(a: seq<Instance>, orgs: set<OrgId>, school: bool)
    ensures OfKind(Except(a, orgs), school) == Except(OfKind(a, school), orgs)
  {
    if a != [] {
      KindOfExcept(a[1..], orgs, school);
      var kept, kind := Except(a[1..], orgs), OfKind(a[1..], school);
      assert ([a[0]] + kept)[1..] == kept && ([a[0]] + kind)[1..] == kind;
      assert Except(a, orgs) == if a[0].id in orgs then kept else [a[0]] + kept;
      assert OfKind(a, school) == if a[0].schoolId.Some? == school then [a[0]] + kind else kind;
    }
  }

  lemma {:induction false} ExceptAllIff(a: seq<Instance>, orgs: set<OrgId>)
    ensures Except(a, orgs) == [] <==> forall i <- a :: i.id in orgs
  {
    if a != [] {
      ExceptAllIff(a[1..], orgs);
    }
  }

  lemma {:induction false} ExceptOthers(a: seq<Instance>, orgs: set<OrgId>, more: set<OrgId>)
    requires forall i <- a :: i.id !in more
    ensures Except(a, orgs + more) == Except(a, orgs)
  {
    if a != [] {
      ExceptOthers(a[1..], orgs, more);
    }
  }

  lemma {:induction false} ExceptNone(a: seq<Instance>)
    ensures Except(a, {}) == a
  {
    if a != [] {
      ExceptNone(a[1..]);
    }
  }

  lemma {:induction false} InstancesAreListed(c: Catalogue, rows: seq<Row>, user: UserId)
    requires ValidRows(c, rows)
    ensures forall i <- Instances(c, rows, user) ::
              i.id in c.orgs && i.name == c.orgs[i.id].name && i.schoolId == c.orgs[i.id].schoolId
  {
    if rows != [] {
      InstancesAreListed(c, rows[1..], user);
    }
  }

  lemma {:induction false} KindMembers(a: seq<Instance>, school: bool)
    ensures forall i <- OfKind(a, school) :: i in a && i.schoolId.Some? == school
  {
    if a != [] {
      KindMembers(a[1..], school);
    }
  }

  /** The instances of one kind are what is wanted: none, or the one organisation, at the site where that matters. */
  ghost predicate Meets(instances: seq<Instance>, wanted: Option<Listing>, withSite: bool) {
    if wanted.None? then instances == [] else
      |instances| == 1 && instances[0].id == wanted.value.partnerId
      && (withSite ==> instances[0].siteName == wanted.value.siteName)
  }

  /** No more than one was active, or all that were belong to the one organisation that goes. */
  ghost predicate OneAtMost(instances: seq<Instance>, wanted: Option<Listing>, withSite: bool) {
    || |instances| <= 1
    || (Drops(Last(instances), wanted, withSite) && forall i <- instances :: i.id == Last(instances).value.id)
  }

  lemma SlotIff(kind: seq<Instance>, wanted: Option<Listing>, withSite: bool, added: seq<Instance>)
    requires wanted.Some? ==> forall i <- kind :: i.name == wanted.value.partnerName ==> i.id == wanted.value.partnerId
    requires if wanted.Some? && (kind == [] || Drops(Last(kind), wanted, withSite))
        then Meets(added, wanted, withSite) else added == []
    ensures Meets(Except(kind, Ids(Last(kind), Drops(Last(kind), wanted, withSite))) + added, wanted, withSite)
       <==> OneAtMost(kind, wanted, withSite)
  {
    if kind == [] {
      assert Except(kind, {}) + added == added;
    } else {
      assert kind[|kind| - 1] in kind;
      if Drops(Last(kind), wanted, withSite) {
        ExceptAllIff(kind, {Last(kind).value.id});
      } else {
        ExceptNone(kind);
        assert kind + [] == kind;
      }
    }
  }

  ghost predicate Listed(c: Catalogue, wanted: Option<Listing>) {
    wanted.Some? ==>
      var w := wanted.value;
      && w.partnerId in c.orgs && w.partnerName == c.orgs[w.partnerId].name
          && w.schoolId == c.orgs[w.partnerId].schoolId
      && (if w.siteId.Some? then w.siteId.value in c.siteNames && w.siteName == Some(c.siteNames[w.siteId.value])
          else w.siteName == None)
  }

  lemma FoundIsListed(c: Catalogue, key: Option<string>, site: Option<string>)
    requires ValidCatalogue(c)
    ensures Listed(c, Find(c, key, site))
  {
  }

  function NewInstances(slot: Option<Instance>, drops: bool, wanted: Option<Listing>,
                        siteName: Option<string>): seq<Instance> {
    if wanted.Some? && (slot.None? || drops)
    then [Instance(wanted.value.partnerName, wanted.value.partnerId, wanted.value.schoolId, siteName)] else []
  }

  function SiteNameOf(wanted: Option<Listing>): Option<string> {
    if wanted.Some? then wanted.value.siteName else None
  }

  lemma InstancesOfNewRows(c: Catalogue, user: UserId, slot: Option<Instance>, drops: bool, wanted: Option<Listing>,
                           withSite: bool)
    requires Listed(c, wanted)
    ensures var new' := NewRows(user, slot, drops, wanted, if withSite then SiteOf(wanted) else None);
            && ValidRows(c, new')
            && Instances(c, new', user) == NewInstances(slot, drops, wanted,
                                                            if withSite then SiteNameOf(wanted) else None)
  {
  }

  lemma InstancesAfterUpdate(c: Catalogue, rows: seq<Row>, user: UserId, partner: Option<Listing>,
                             school: Option<Listing>, now: Time)
    requires ValidRows(c, rows) && Listed(c, partner) && Listed(c, school)
    ensures ValidRows(c, Updated(c, rows, user, partner, school, now))
    ensures var active := Instances(c, rows, user);
            var p, s := Last(OfKind(active, false)), Last(OfKind(active, true));
            var dropsP, dropsS := Drops(p, partner, true), Drops(s, school, false);
            Instances(c, Updated(c, rows, user, partner, school, now), user)
            == Except(active, Ids(p, dropsP) + Ids(s, dropsS))
               + NewInstances(p, dropsP, partner, SiteNameOf(partner)) + NewInstances(s, dropsS, school, None)
  {
    hide Except, OfKind, Drops, Last, Deactivate, Instances, Listed, NewRows, NewInstances, Ids, ValidRows;
    var active := Instances(c, rows, user);
    var p, s := Last(OfKind(active, false)), Last(OfKind(active, true));
    var dropsP, dropsS := Drops(p, partner, true), Drops(s, school, false);
    var orgs := Ids(p, dropsP) + Ids(s, dropsS);
    var newP, newS := NewRows(user, p, dropsP, partner, SiteOf(partner)), NewRows(user, s, dropsS, school, None);
    InstancesAfterDeactivate(c, rows, user, orgs, now);
    InstancesOfNewRows(c, user, p, dropsP, partner, true);
    InstancesOfNewRows(c, user, s, dropsS, school, false);
    InstancesOfBoth(c, Deactivate(rows, user, orgs, now), newP, user);
    InstancesOfBoth(c, Deactivate(rows, user, orgs, now) + newP, newS, user);
  }

  /** Each kind of instance ends as wanted just when at most one of its kind was active, or all that were belong to the
      one organisation that goes. */
  lemma KindsMeetRequestIff(c: Catalogue, rows: seq<Row>, user: UserId, partner: Option<Listing>,
                              school: Option<Listing>, now: Time)
    requires ValidRows(c, rows) && UniqueNames(c) && Listed(c, partner) && Listed(c, school)
    requires partner.Some? ==> partner.value.schoolId.None?
    requires school.Some? ==> school.value.schoolId.Some?
    ensures var before := Instances(c, rows, user);
            var after := Updated(c, rows, user, partner, school, now);
            && ValidRows(c, after)
            && (Meets(OfKind(Instances(c, after, user), false), partner, true)
                <==> OneAtMost(OfKind(before, false), partner, true))
            && (Meets(OfKind(Instances(c, after, user), true), school, false)
                <==> OneAtMost(OfKind(before, true), school, false))
  {
    hide Except, OfKind, Drops, Last, Meets, OneAtMost, Ids, Listed, NewInstances, Instances, ValidRows, UniqueNames;
    var active := Instances(c, rows, user);
    var kindP, kindS := OfKind(active, false), OfKind(active, true);
    var p, s := Last(kindP), Last(kindS);
    var dropsP, dropsS := Drops(p, partner, true), Drops(s, school, false);
    var newP, newS := NewInstances(p, dropsP, partner, SiteNameOf(partner)), NewInstances(s, dropsS, school, None);
    InstancesAfterUpdate(c, rows, user, partner, school, now);
    KindsApart(c, rows, user, dropsP, false);
    KindsApart(c, rows, user, dropsS, true);
    NewInstancesOfKind(kindP, partner, true, SiteNameOf(partner), false);
    NewInstancesOfKind(kindS, school, false, None, true);
    KindsAfter(active, Ids(p, dropsP), Ids(s, dropsS), newP, newS);
    NamesTell(c, rows, user, partner, false);
    NamesTell(c, rows, user, school, true);
    SlotIff(kindP, partner, true, newP);
    SlotIff(kindS, school, false, newS);
  }

  /** The organisation asked for is no school's, and the school asked for is a school's. */
  predicate KindsFit(partner: Option<Listing>, school: Option<Listing>) {
    && (partner.Some? ==> partner.value.schoolId.None?)
    && (school.Some? ==> school.value.schoolId.Some?)
  }

  /** The active instances are exactly the organisation, site and school wanted. */
  ghost predicate MeetsRequest(c: Catalogue, rows: seq<Row>, user: UserId, partner: Option<Listing>,
                               school: Option<Listing>)
    requires ValidRows(c, rows)
  {
    && Meets(OfKind(Instances(c, rows, user), false), partner, true)
    && Meets(OfKind(Instances(c, rows, user), true), school, false)
  }

  /** For any organisation and school asked for: the student ends with exactly these just when they are of the right
      kinds and no kind had more than one active organisation to begin with, but for one that goes altogether. */
  lemma UpdateMeetsRequestIff(c: Catalogue, rows: seq<Row>, user: UserId, partner: Option<Listing>,
                              school: Option<Listing>, now: Time)
    requires ValidRows(c, rows) && UniqueNames(c) && Listed(c, partner) && Listed(c, school)
    ensures ValidRows(c, Updated(c, rows, user, partner, school, now))
    ensures MeetsRequest(c, Updated(c, rows, user, partner, school, now), user, partner, school)
       <==> && KindsFit(partner, school)
            && OneAtMost(OfKind(Instances(c, rows, user), false), partner, true)
            && OneAtMost(OfKind(Instances(c, rows, user), true), school, false)
  {
    hide Updated, OneAtMost, Instances, OfKind, UniqueNames, ValidRows;
    InstancesAfterUpdate(c, rows, user, partner, school, now);
    if KindsFit(partner, school) {
      KindsMeetRequestIff(c, rows, user, partner, school, now);
    } else {
      var after := Instances(c, Updated(c, rows, user, partner, school, now), user);
      InstancesAreListed(c, Updated(c, rows, user, partner, school, now), user);
      KindMembers(after, false);
      KindMembers(after, true);
      if Meets(OfKind(after, false), partner, true) {
        MetRequestFits(c, OfKind(after, false), partner, true, false);
      }
      if Meets(OfKind(after, true), school, false) {
        MetRequestFits(c, OfKind(after, true), school, false, true);
      }
    }
  }

  lemma MetRequestFits(c: Catalogue, kind: seq<Instance>, wanted: Option<Listing>, withSite: bool, school: bool)
    requires forall i <- kind :: i.id in c.orgs && i.schoolId == c.orgs[i.id].schoolId && i.schoolId.Some? == school
    requires Listed(c, wanted) && Meets(kind, wanted, withSite)
    ensures wanted.Some? ==> wanted.value.schoolId.Some? == school
  {
    if wanted.Some? {
      assert kind[0] in kind;
    }
  }

  /** A school's organisation given as the partner: the partner instance goes, and the school's is added to the school
      instances, whether or not it is active already. */
  lemma SchoolNamedAsPartner(c: Catalogue, rows: seq<Row>, user: UserId, partner: Listing, school: Option<Listing>,
                             now: Time)
    requires ValidRows(c, rows) && UniqueNames(c) && Listed(c, Some(partner)) && Listed(c, school)
    requires partner.schoolId.Some? && (school.Some? ==> school.value.schoolId.Some?)
    ensures var before, after := Instances(c, rows, user), Updated(c, rows, user, Some(partner), school, now);
            var p, s := Last(OfKind(before, false)), Last(OfKind(before, true));
            var dropsS := Drops(s, school, false);
            && ValidRows(c, after)
            && OfKind(Instances(c, after, user), false) == Except(OfKind(before, false), Ids(p, true))
            && OfKind(Instances(c, after, user), true)
               == Except(OfKind(before, true), Ids(s, dropsS))
                  + [Instance(partner.partnerName, partner.partnerId, partner.schoolId, partner.siteName)]
                  + NewInstances(s, dropsS, school, None)
  {
    hide Except, OfKind, Ids, NewInstances, Instances, ValidRows, Updated;
    var active := Instances(c, rows, user);
    var p, s := Last(OfKind(active, false)), Last(OfKind(active, true));
    var dropsS := Drops(s, school, false);
    var new' := [Instance(partner.partnerName, partner.partnerId, partner.schoolId, partner.siteName)];
    var newS := NewInstances(s, dropsS, school, None);
    InstancesAfterUpdate(c, rows, user, Some(partner), school, now);
    PartnerSlotGoes(c, rows, user, partner);
    KindsApart(c, rows, user, true, false);
    KindsApart(c, rows, user, dropsS, true);
    NewInstancesOfKind(OfKind(active, true), school, false, None, true);
    var kept := Except(active, Ids(p, true) + Ids(s, dropsS));
    AppendIsAssociative(kept, new', newS);
    SchoolsAfterKept(kept, new' + newS);
    KindOfExcept(active, Ids(p, true) + Ids(s, dropsS), false);
    KindOfExcept(active, Ids(p, true) + Ids(s, dropsS), true);
    ExceptOthers(OfKind(active, false), Ids(p, true), Ids(s, dropsS));
    assert Ids(p, true) + Ids(s, dropsS) == Ids(s, dropsS) + Ids(p, true);
    ExceptOthers(OfKind(active, true), Ids(s, dropsS), Ids(p, true));
    AppendIsAssociative(Except(OfKind(active, true), Ids(s, dropsS)), new', newS);
  }

  lemma PartnerSlotGoes(c: Catalogue, rows: seq<Row>, user: UserId, partner: Listing)
    requires ValidRows(c, rows) && UniqueNames(c) && Listed(c, Some(partner)) && partner.schoolId.Some?
    ensures var slot := Last(OfKind(Instances(c, rows, user), false));
            var drops := Drops(slot, Some(partner), true);
            && Ids(slot, drops) == Ids(slot, true)
            && NewInstances(slot, drops, Some(partner), partner.siteName)
               == [Instance(partner.partnerName, partner.partnerId, partner.schoolId, partner.siteName)]
  {
    var kind := OfKind(Instances(c, rows, user), false);
    InstancesAreListed(c, rows, user);
    KindMembers(Instances(c, rows, user), false);
    if kind != [] {
      assert kind[|kind| - 1] in kind;
    }
  }

  lemma {:induction false} AllOfKind(a: seq<Instance>)
    requires forall i <- a :: i.schoolId.Some?
    ensures OfKind(a, true) == a && OfKind(a, false) == []
  {
    if a != [] {
      AllOfKind(a[1..]);
      assert a == [a[0]] + a[1..];
    }
  }

  lemma SchoolsAfterKept(kept: seq<Instance>, added: seq<Instance>)
    requires forall i <- added :: i.schoolId.Some?
    ensures OfKind(kept + added, false) == OfKind(kept, false)
        && OfKind(kept + added, true) == OfKind(kept, true) + added
  {
    KindOfBoth(kept, added, false);
    KindOfBoth(kept, added, true);
    AllOfKind(added);
    assert OfKind(kept, false) + [] == OfKind(kept, false);
  }

  lemma KindsApart(c: Catalogue, rows: seq<Row>, user: UserId, drops: bool, school: bool)
    requires ValidRows(c, rows)
    ensures var active := Instances(c, rows, user);
            forall i <- OfKind(active, !school) :: i.id !in Ids(Last(OfKind(active, school)), drops)
  {
    var active := Instances(c, rows, user);
    InstancesAreListed(c, rows, user);
    KindMembers(active, school);
    KindMembers(active, !school);
    var kind := OfKind(active, school);
    if kind != [] {
      assert kind[|kind| - 1] in kind;
    }
  }

  lemma NamesTell(c: Catalogue, rows: seq<Row>, user: UserId, wanted: Option<Listing>, school: bool)
    requires ValidRows(c, rows) && UniqueNames(c) && Listed(c, wanted)
    ensures wanted.Some? ==>
              forall i <- OfKind(Instances(c, rows, user), school) :: i.name == wanted.value.partnerName
                  ==> i.id == wanted.value.partnerId
  {
    InstancesAreListed(c, rows, user);
    KindMembers(Instances(c, rows, user), school);
  }

  lemma NewInstancesOfKind(kind: seq<Instance>, wanted: Option<Listing>, withSite: bool, siteName: Option<string>,
                           school: bool)
    requires wanted.Some? ==> wanted.value.schoolId.Some? == school
    requires withSite ==> siteName == SiteNameOf(wanted)
    ensures var drops := Drops(Last(kind), wanted, withSite);
            var added := NewInstances(Last(kind), drops, wanted, siteName);
            && |added| <= 1 && (forall i <- added :: i.schoolId.Some? == school)
            && if wanted.Some? && (kind == [] || drops) then Meets(added, wanted, withSite) else added == []
  {
  }

  /** Each kind of slot is changed by itself. */
  lemma KindsAfter(active: seq<Instance>, partnerIds: set<OrgId>, schoolIds: set<OrgId>, newP: seq<Instance>,
                   newS: seq<Instance>)
    requires forall i <- OfKind(active, false) :: i.id !in schoolIds
    requires forall i <- OfKind(active, true) :: i.id !in partnerIds
    requires |newP| <= 1 && forall i <- newP :: i.schoolId.None?
    requires |newS| <= 1 && forall i <- newS :: i.schoolId.Some?
    ensures var after := Except(active, partnerIds + schoolIds) + newP + newS;
            && OfKind(after, false) == Except(OfKind(active, false), partnerIds) + newP
            && OfKind(after, true) == Except(OfKind(active, true), schoolIds) + newS
  {
    hide OfKind, Except;
    var kept := Except(active, partnerIds + schoolIds);
    KindAfter(kept, newP, newS, false);
    KindAfter(kept, newP, newS, true);
    KindOfExcept(active, partnerIds + schoolIds, false);
    KindOfExcept(active, partnerIds + schoolIds, true);
    ExceptOthers(OfKind(active, false), partnerIds, schoolIds);
    assert partnerIds + schoolIds == schoolIds + partnerIds;
    ExceptOthers(OfKind(active, true), schoolIds, partnerIds);
  }

  lemma KindAfter(kept: seq<Instance>, newP: seq<Instance>, newS: seq<Instance>, school: bool)
    requires |newP| <= 1 && forall i <- newP :: i.schoolId.None?
    requires |newS| <= 1 && forall i <- newS :: i.schoolId.Some?
    ensures OfKind(kept + newP + newS, school) == OfKind(kept, school) + if school then newS else newP
  {
    KindOfBoth(kept + newP, newS, school);
    KindOfBoth(kept, newP, school);
    KindOfOne(newP, school);
    KindOfOne(newS, school);
  }

  lemma KindOfOne(one: seq<Instance>, school: bool)
    requires |one| <= 1
    ensures OfKind(one, school) == if one != [] && one[0].schoolId.Some? == school then one else []
  {
  }

  // ----- The tables and the code -----

  datatype Outcome = Done | NoSuchOrg | NoSuchSchool | TooManyActive | NoSchoolToRecord

  predicate IsGiven(key: Option<string>) {
    key.Some? && key.value != ""
  }

  function OutcomeOf(c: Catalogue, rows: seq<Row>, user: UserId, orgKey: Option<string>, site: Option<string>,
                     schoolKey: Option<string>): Outcome
    requires ValidCatalogue(c) && ValidRows(c, rows)
  {
    if IsGiven(orgKey) && Find(c, orgKey, site).None? then NoSuchOrg
    else if IsGiven(schoolKey) && Find(c, schoolKey, None).None? then NoSuchSchool
    else if |Instances(c, rows, user)| > 2 then TooManyActive
    else if RejectsSchool(Last(OfKind(Instances(c, rows, user), true)), Find(c, schoolKey, None)) then NoSchoolToRecord
    else Done
  }

  /** users_schools takes no row without a school: a change to an organisation that is no school's is refused. */
  predicate RejectsSchool(slot: Option<Instance>, wanted: Option<Listing>) {
    wanted.Some? && wanted.value.schoolId.None? && Drops(slot, wanted, false)
  }

  /** student_profiles takes an absent school. */
  function ProfileSchoolsAfter(schools: map<UserId, SchoolId>, user: UserId, slot: Option<Instance>,
                               wanted: Option<Listing>): map<UserId, SchoolId> {
    if wanted.None? || (slot.Some? && !Drops(slot, wanted, false)) then schools
    else if wanted.value.schoolId.Some? then schools[user := wanted.value.schoolId.value]
    else schools - {user}
  }

  /** users_schools: a school removed is deleted if it is the one recorded, a school changed is recorded, but a
      school given to a student who had none is not. */
  function SchoolsAfter(schools: map<UserId, SchoolId>, user: UserId, slot: Option<Instance>,
                        wanted: Option<Listing>): map<UserId, SchoolId>
    requires !RejectsSchool(slot, wanted)
  {
    if slot.None? || !Drops(slot, wanted, false) then schools
    else if wanted.Some? then schools[user := wanted.value.schoolId.value]
    else if user in schools && Some(schools[user]) == slot.value.schoolId then schools - {user}
    else schools
  }

  lemma NoSlots()
    ensures forall school :: Last(OfKind([], school)) == None
  {
  }

  lemma OneMoreInstance(instances: seq<Instance>, i: nat, school: bool)
    requires i < |instances|
    ensures Last(OfKind(instances[..i + 1], school))
         == if instances[i].schoolId.Some? == school then Some(instances[i]) else Last(OfKind(instances[..i], school))
  {
    assert instances[..i + 1] == instances[..i] + [instances[i]];
    KindOfBoth(instances[..i], [instances[i]], school);
    KindOfOne([instances[i]], school);
    assert OfKind(instances[..i], school) + [] == OfKind(instances[..i], school);
  }

  /** Row by row: a row stays as it was, or is this student's and dated now; a further row is this student's and
      active. */
  lemma RowsAfterUpdate(c: Catalogue, rows: seq<Row>, user: UserId, partner: Option<Listing>, school: Option<Listing>,
                        now: Time, i: nat)
    requires ValidRows(c, rows) && i < |Updated(c, rows, user, partner, school, now)|
    ensures |rows| <= |Updated(c, rows, user, partner, school, now)|
    ensures var r := Updated(c, rows, user, partner, school, now)[i];
            if i < |rows| then r == rows[i] || (rows[i].user == user && r == rows[i].(deactivatedOn := Some(now)))
            else IsActive(r, user)
  {
    hide Instances, OfKind, Last, Drops, ValidRows;
  }

  // ----- The request, in the catalogue's own terms -----

  /** The organisation of a key. */
  function OrgOf(c: Catalogue, key: Option<string>): Option<OrgId> {
    if key.Some? && key.value in c.byKey then Some(c.byKey[key.value]) else None
  }

  /** The site of that name, if the organisation has one. */
  predicate HasSite(c: Catalogue, org: OrgId, site: Option<string>) {
    site.Some? && (org, site.value) in c.sites
  }

  /** The instances are the one organisation of the key, at its site where that matters, or none for no such key. */
  ghost predicate MeetsKey(c: Catalogue, instances: seq<Instance>, key: Option<string>, site: Option<string>,
                           withSite: bool) {
    match OrgOf(c, key)
    case None => instances == []
    case Some(org) =>
      |instances| == 1 && instances[0].id == org
      && (withSite ==> instances[0].siteName == if HasSite(c, org, site) then site else None)
  }

  lemma RequestInKeys(c: Catalogue, rows: seq<Row>, user: UserId, orgKey: Option<string>, site: Option<string>,
                      schoolKey: Option<string>)
    requires ValidCatalogue(c) && ValidRows(c, rows)
    ensures MeetsRequest(c, rows, user, Find(c, orgKey, site), Find(c, schoolKey, None))
       <==> && MeetsKey(c, OfKind(Instances(c, rows, user), false), orgKey, site, true)
            && MeetsKey(c, OfKind(Instances(c, rows, user), true), schoolKey, None, false)
    ensures KindsFit(Find(c, orgKey, site), Find(c, schoolKey, None))
       <==> && (OrgOf(c, orgKey).Some? ==> c.orgs[OrgOf(c, orgKey).value].schoolId.None?)
            && (OrgOf(c, schoolKey).Some? ==> c.orgs[OrgOf(c, schoolKey).value].schoolId.Some?)
  {
  }

  /** The schools on record afterwards. A school that takes another's place is recorded in both tables, one given to
      a student who had none in the profile alone; a school taken away leaves users_schools if it is the one
      recorded there. */
  lemma SchoolsOnRecord(c: Catalogue, rows: seq<Row>, user: UserId, schoolKey: Option<string>,
                        schools: map<UserId, SchoolId>, profiles: map<UserId, SchoolId>)
    requires ValidCatalogue(c) && ValidRows(c, rows) && UniqueNames(c)
    requires !RejectsSchool(Last(OfKind(Instances(c, rows, user), true)), Find(c, schoolKey, None))
    ensures var slot, wanted, org := Last(OfKind(Instances(c, rows, user), true)), Find(c, schoolKey, None),
                OrgOf(c, schoolKey);
            var schools', profiles' := SchoolsAfter(schools, user, slot, wanted),
                ProfileSchoolsAfter(profiles, user, slot, wanted);
            && (forall other: UserId :: other != user ==>
                  && (other in schools' <==> other in schools)
                      && (other in schools ==> schools'[other] == schools[other])
                  && (other in profiles' <==> other in profiles)
                  && (other in profiles ==> profiles'[other] == profiles[other]))
            && (if org.Some? && slot.Some? && slot.value.id != org.value then
                  && user in schools' && Some(schools'[user]) == c.orgs[org.value].schoolId
                  && user in profiles' && Some(profiles'[user]) == c.orgs[org.value].schoolId
                else if org.Some? && slot.None? then
                  && schools' == schools
                  && (if user in profiles' then Some(profiles'[user]) else None) == c.orgs[org.value].schoolId
                else if org.None? && slot.Some? then
                  && profiles' == profiles
                  && schools' == (if user in schools && Some(schools[user]) == slot.value.schoolId then schools - {user}
                                  else schools)
                else schools' == schools && profiles' == profiles)
  {
    hide OfKind, Instances, Last, Find, OrgOf, Drops, ValidRows, ValidCatalogue, UniqueNames;
    SchoolSlotTold(c, rows, user, schoolKey);
  }

  lemma SchoolSlotTold(c: Catalogue, rows: seq<Row>, user: UserId, schoolKey: Option<string>)
    requires ValidCatalogue(c) && ValidRows(c, rows) && UniqueNames(c)
    ensures var slot, wanted, org := Last(OfKind(Instances(c, rows, user), true)), Find(c, schoolKey, None),
                OrgOf(c, schoolKey);
            && (wanted.Some? <==> org.Some?)
            && (org.Some? ==> org.value in c.orgs && wanted.value.schoolId == c.orgs[org.value].schoolId)
            && (Drops(slot, wanted, false) <==> slot.Some? && (org.None? || slot.value.id != org.value))
  {
    var kind := OfKind(Instances(c, rows, user), true);
    InstancesAreListed(c, rows, user);
    KindMembers(Instances(c, rows, user), true);
    if kind != [] {
      assert kind[|kind| - 1] in kind;
    }
    hide OfKind, Instances;
  }

  lemma FoundInKeys(c: Catalogue, key: Option<string>, site: Option<string>)
    requires ValidCatalogue(c)
    ensures var org := OrgOf(c, key);
            && OrgIdOf(Find(c, key, site)) == org
            && SiteOf(Find(c, key, site))
               == if org.Some? && HasSite(c, org.value, site) then Some(c.sites[(org.value, site.value)]) else None
  {
  }

  class Tables {
    var rows: seq<Row>
    /** The organisation, site and school columns of student_profiles, kept for now beside the instances. */
    var profileOrgs: map<UserId, (Option<OrgId>, Option<SiteId>)>
    var profileSchools: map<UserId, SchoolId>
    /** users_schools */
    var schools: map<UserId, SchoolId>

    constructor (rows: seq<Row>, profileOrgs: map<UserId, (Option<OrgId>, Option<SiteId>)>,
                 profileSchools: map<UserId, SchoolId>, schools: map<UserId, SchoolId>)
      ensures this.rows == rows && this.profileOrgs == profileOrgs
      ensures this.profileSchools == profileSchools && this.schools == schools
    {
      this.rows, this.profileOrgs, this.profileSchools, this.schools := rows, profileOrgs, profileSchools, schools;
    }

    method Deactivate(user: UserId, org: OrgId, now: Time)
      modifies `rows
      ensures rows == PartnerOrgs.Deactivate(old(rows), user, {org}, now)
    {
      rows := PartnerOrgs.Deactivate(rows, user, {org}, now);
    }

    /** The two slots: for each kind, the last active instance of the list. */
    method Slots(activePartnerOrgs: seq<Instance>) returns (partner: Option<Instance>, school: Option<Instance>)
      ensures partner == Last(OfKind(activePartnerOrgs, false)) && school == Last(OfKind(activePartnerOrgs, true))
    {
      hide OfKind, Last;
      partner, school := None, None;
      NoSlots();
      for i := 0 to |activePartnerOrgs|
        invariant partner == Last(OfKind(activePartnerOrgs[..i], false))
        invariant school == Last(OfKind(activePartnerOrgs[..i], true))
      {
        var org := activePartnerOrgs[i];
        OneMoreInstance(activePartnerOrgs, i, false);
        OneMoreInstance(activePartnerOrgs, i, true);
        if org.schoolId.Some? {
          school := Some(org);
        } else {
          partner := Some(org);
        }
      }
      assert activePartnerOrgs[..|activePartnerOrgs|] == activePartnerOrgs;
    }

    method DeactivateUnwanted(user: UserId, activePartnerInstance: Option<Instance>,
                              activeSchoolInstance: Option<Instance>,
                              newPartnerOrg: Option<Listing>, newSchoolOrg: Option<Listing>, now: Time)
      modifies `rows
      ensures rows == PartnerOrgs.Deactivate(old(rows), user,
                        Ids(activePartnerInstance, Drops(activePartnerInstance, newPartnerOrg, true))
                        + Ids(activeSchoolInstance, Drops(activeSchoolInstance, newSchoolOrg, false)), now)
    {
      hide PartnerOrgs.Deactivate;
      var isRemovingPartnership := activePartnerInstance.Some? && newPartnerOrg.None?;
      var isChangingPartnership := activePartnerInstance.Some? && newPartnerOrg.Some?
        && (activePartnerInstance.value.name != newPartnerOrg.value.partnerName
            || activePartnerInstance.value.siteName != newPartnerOrg.value.siteName);
      DeactivateNone(rows, user, now);
      if isRemovingPartnership || isChangingPartnership {
        Deactivate(user, activePartnerInstance.value.id, now);
      }
      ghost var ids := Ids(activePartnerInstance, Drops(activePartnerInstance, newPartnerOrg, true));
      assert rows == PartnerOrgs.Deactivate(old(rows), user, ids, now);
      var isRemovingSchool := activeSchoolInstance.Some? && newSchoolOrg.None?;
      var isChangingSchoolPartner := activeSchoolInstance.Some? && newSchoolOrg.Some?
        && activeSchoolInstance.value.name != newSchoolOrg.value.partnerName;
      if isRemovingSchool || isChangingSchoolPartner {
        DeactivateMore(old(rows), user, ids, {activeSchoolInstance.value.id}, now);
        Deactivate(user, activeSchoolInstance.value.id, now);
      } else {
        assert ids + {} == ids;
      }
    }

    method Activate(user: UserId, slot: Option<Instance>, wanted: Option<Listing>, withSite: bool)
      modifies `rows
      ensures rows == old(rows) + NewRows(user, slot, Drops(slot, wanted, withSite), wanted,
                                           if withSite then SiteOf(wanted) else None)
    {
      var isNew := slot.None? && wanted.Some?;
      var isChanging := slot.Some? && wanted.Some?
        && (slot.value.name != wanted.value.partnerName || (withSite && slot.value.siteName != wanted.value.siteName));
      if isNew || isChanging {
        rows := rows + [Row(user, wanted.value.partnerId, if withSite then wanted.value.siteId else None, None)];
      }
    }

    /** Fails where users_schools refuses the row. */
    method RecordSchool(user: UserId, activeSchoolInstance: Option<Instance>, newSchoolOrg: Option<Listing>)
      returns (ok: bool)
      modifies `profileSchools, `schools
      ensures ok <==> !RejectsSchool(activeSchoolInstance, newSchoolOrg)
      ensures ok ==> profileSchools == ProfileSchoolsAfter(old(profileSchools), user, activeSchoolInstance,
          newSchoolOrg)
      ensures ok ==> schools == SchoolsAfter(old(schools), user, activeSchoolInstance, newSchoolOrg)
    {
      var isRemovingSchool := activeSchoolInstance.Some? && newSchoolOrg.None?;
      var isChangingSchoolPartnership := activeSchoolInstance.Some? && newSchoolOrg.Some?
        && activeSchoolInstance.value.name != newSchoolOrg.value.partnerName;
      var isNewSchoolPartnership := activeSchoolInstance.None? && newSchoolOrg.Some?;
      if isNewSchoolPartnership || isChangingSchoolPartnership {
        if newSchoolOrg.value.schoolId.Some? {
          profileSchools := profileSchools[user := newSchoolOrg.value.schoolId.value];
        } else {
          profileSchools := profileSchools - {user};
        }
      }
      if isRemovingSchool {
        if user in schools && Some(schools[user]) == activeSchoolInstance.value.schoolId {
          schools := schools - {user};
        }
      } else if isChangingSchoolPartnership {
        if newSchoolOrg.value.schoolId.None? {
          return false;
        }
        schools := schools[user := newSchoolOrg.value.schoolId.value];
      }
      return true;
    }

    /** An error leaves the transaction without effect. */
    method UpdateStudentPartnerOrgInstance(c: Catalogue, user: UserId, orgKey: Option<string>, site: Option<string>,
                                           schoolKey: Option<string>, now: Time)
      returns (outcome: Outcome)
      requires ValidCatalogue(c) && ValidRows(c, rows)
      modifies this
      ensures outcome == OutcomeOf(c, old(rows), user, orgKey, site, schoolKey)
      ensures outcome.NoSuchOrg? <==> IsGiven(orgKey) && OrgOf(c, orgKey).None?
      ensures outcome.Done? ==>
                var org := OrgOf(c, orgKey);
                profileOrgs == old(profileOrgs)[user := (org,
                    if org.Some? && HasSite(c, org.value, site) then Some(c.sites[(org.value, site.value)]) else None)]
      ensures !outcome.Done? ==> rows == old(rows) && profileOrgs == old(profileOrgs)
                                 && profileSchools == old(profileSchools) && schools == old(schools)
      ensures outcome.Done? ==>
                var partner, school := Find(c, orgKey, site), Find(c, schoolKey, None);
                var slot := Last(OfKind(Instances(c, old(rows), user), true));
                && rows == Updated(c, old(rows), user, partner, school, now)
                && profileOrgs == old(profileOrgs)[user := (OrgIdOf(partner), SiteOf(partner))]
                && profileSchools == ProfileSchoolsAfter(old(profileSchools), user, slot, school)
                && schools == SchoolsAfter(old(schools), user, slot, school)
      ensures outcome.Done? && UniqueNames(c) ==>
                && ValidRows(c, rows)
                && (MeetsKey(c, OfKind(Instances(c, rows, user), false), orgKey, site, true)
                    && MeetsKey(c, OfKind(Instances(c, rows, user), true), schoolKey, None, false)
                    <==> && (OrgOf(c, orgKey).Some? ==> c.orgs[OrgOf(c, orgKey).value].schoolId.None?)
                         && (OrgOf(c, schoolKey).Some? ==> c.orgs[OrgOf(c, schoolKey).value].schoolId.Some?)
                         && OneAtMost(OfKind(Instances(c, old(rows), user), false), Find(c, orgKey, site), true)
                         && OneAtMost(OfKind(Instances(c, old(rows), user), true), Find(c, schoolKey, None), false))
    {
      hide OfKind, Last, Instances, PartnerOrgs.Deactivate, Drops, Ids, NewRows, SchoolsAfter, ProfileSchoolsAfter,
           RejectsSchool, MeetsRequest, KindsFit, OneAtMost, UniqueNames, MeetsKey, HasSite, OrgOf;
      var savedRows, savedOrgs, savedProfiles, savedSchools := rows, profileOrgs, profileSchools, schools;
      var newPartnerOrg := Find(c, orgKey, site);
      FoundInKeys(c, orgKey, site);
      if IsGiven(orgKey) && newPartnerOrg.None? {
        return NoSuchOrg;
      }
      var newSchoolOrg := Find(c, schoolKey, None);
      if IsGiven(schoolKey) && newSchoolOrg.None? {
        return NoSuchSchool;
      }
      var activePartnerOrgs := Instances(c, rows, user);
      if |activePartnerOrgs| > 2 {
        return TooManyActive;
      }
      var activePartnerInstance, activeSchoolInstance := Slots(activePartnerOrgs);
      DeactivateUnwanted(user, activePartnerInstance, activeSchoolInstance, newPartnerOrg, newSchoolOrg, now);
      profileOrgs := profileOrgs[user := (OrgIdOf(newPartnerOrg), SiteOf(newPartnerOrg))];
      Activate(user, activePartnerInstance, newPartnerOrg, true);
      Activate(user, activeSchoolInstance, newSchoolOrg, false);
      var ok := RecordSchool(user, activeSchoolInstance, newSchoolOrg);
      if !ok {
        rows, profileOrgs, profileSchools, schools := savedRows, savedOrgs, savedProfiles, savedSchools;
        return NoSchoolToRecord;
      }
      FoundIsListed(c, orgKey, site);
      FoundIsListed(c, schoolKey, None);
      if UniqueNames(c) {
        UpdateMeetsRequestIff(c, savedRows, user, newPartnerOrg, newSchoolOrg, now);
        RequestInKeys(c, rows, user, orgKey, site, schoolKey);
      }
      return Done;
    }
  }

  lemma DeactivateNone(rows: seq<Row>, user: UserId, now: Time)
    ensures PartnerOrgs.Deactivate(rows, user, {}, now) == rows
  {
  }
}
