/**
 The synchronisation of a teacher's classes with Clever, server/services/CleverRosterService.ts.
 */
module CleverRoster {
  import opened Basics

  type CleverId = string
  type UcId = nat
  type ClassId = nat
  type Time = int

  /** A Clever section lists the Clever ids of its students. */
  datatype Section = Section(id: CleverId, students: seq<CleverId>)

  datatype Class = Class(id: ClassId, cleverId: Option<CleverId>, deactivatedOn: Option<Time>)

  function ToSet<T>(s: seq<T>): set<T> {
    set x | x in s
  }

  predicate NoRepeats<T(==)>(s: seq<T>) {
    forall i, j :: 0 <= i < j < |s| ==> s[i] != s[j]
  }

  // ----- Maps built from lists: a later entry replaces the value, the key keeps its first place -----

  datatype Keyed<V> = Keyed(keys: seq<CleverId>, values: map<CleverId, V>)

  predicate ValidKeyed<V>(m: Keyed<V>) {
    NoRepeats(m.keys) && ToSet(m.keys) == m.values.Keys
  }

  function Put<V>(m: Keyed<V>, key: CleverId, value: V): Keyed<V> {
    Keyed(if key in m.values then m.keys else m.keys + [key], m.values[key := value])
  }

  /** The sections by id. */
  function SectionMap(sections: seq<Section>): (m: Keyed<seq<CleverId>>)
    ensures ValidKeyed(m)
    ensures forall key :: key in m.values <==> exists s <- sections :: s.id == key
  {
    if sections == [] then Keyed([], map[]) else
      var last := sections[|sections| - 1];
      var rest := SectionMap(sections[..|sections| - 1]);
      assert sections == sections[..|sections| - 1] + [last];
      Put(rest, last.id, last.students)
  }

  /** The classes that have a Clever id, by that id. */
  function ClassMap(classes: seq<Class>): (m: Keyed<ClassId>)
    ensures ValidKeyed(m)
  {
    if classes == [] then Keyed([], map[]) else
      var last := classes[|classes| - 1];
      var rest := ClassMap(classes[..|classes| - 1]);
      if last.cleverId.Some? then Put(rest, last.cleverId.value, last.id) else rest
  }

  lemma {:induction false} ClassMapMembers(classes: seq<Class>)
    ensures forall key <- ClassMap(classes).values ::
              exists c <- classes :: c.cleverId == Some(key) && c.id == ClassMap(classes).values[key]
    ensures forall c <- classes :: c.cleverId.Some? ==> c.cleverId.value in ClassMap(classes).values
  {
    if classes != [] {
      var last, rest := classes[|classes| - 1], classes[..|classes| - 1];
      ClassMapMembers(rest);
      assert classes == rest + [last];
      forall key | key in ClassMap(classes).values
        ensures exists c <- classes :: c.cleverId == Some(key) && c.id == ClassMap(classes).values[key]
      {
        if last.cleverId == Some(key) {
          assert last in classes;
        } else {
          var c :| c in rest && c.cleverId == Some(key) && c.id == ClassMap(rest).values[key];
          assert c in classes;
        }
      }
    }
  }

  predicate UniqueIds(classes: seq<Class>) {
    forall i, j :: 0 <= i < j < |classes| ==> classes[i].id != classes[j].id
  }

  lemma ClassMapIsInjective(classes: seq<Class>)
    requires UniqueIds(classes)
    ensures var m := ClassMap(classes).values; forall a <- m, b <- m :: m[a] == m[b] ==> a == b
  {
    var m := ClassMap(classes).values;
    ClassMapMembers(classes);
    forall a, b | a in m && b in m && m[a] == m[b] ensures a == b {
      var c :| c in classes && c.cleverId == Some(a) && c.id == m[a];
      StandsForItself(classes, c, b);
    }
  }

  /** The class that stands for a Clever id has that id. */
  lemma StandsForItself(classes: seq<Class>, c: Class, key: CleverId)
    requires UniqueIds(classes) && c in classes && key in ClassMap(classes).values
        && ClassMap(classes).values[key] == c.id
    ensures c.cleverId == Some(key)
  {
    ClassMapMembers(classes);
    var d :| d in classes && d.cleverId == Some(key) && d.id == c.id;
    var i :| 0 <= i < |classes| && classes[i] == c;
    var j :| 0 <= j < |classes| && classes[j] == d;
  }

  // ----- Sorting classes and students into what to add, update and remove -----

  function Filter(keys: seq<CleverId>, among: set<CleverId>, wanted: bool): (r: seq<CleverId>)
    ensures forall k :: k in r <==> k in keys && (k in among) == wanted
  {
    if keys == [] then [] else
      var rest := Filter(keys[1..], among, wanted);
      assert forall k :: k in keys <==> k == keys[0] || k in keys[1..];
      if (keys[0] in among) == wanted then [keys[0]] + rest else rest
  }

  lemma {:induction false} FilterHasNoRepeats(keys: seq<CleverId>, among: set<CleverId>, wanted: bool)
    requires NoRepeats(keys)
    ensures NoRepeats(Filter(keys, among, wanted))
  {
    if keys != [] {
      FilterHasNoRepeats(keys[1..], among, wanted);
      assert keys[0] !in keys[1..];
    }
  }

  datatype ClassPlan = ClassPlan(toAdd: seq<CleverId>, toUpdate: seq<CleverId>, toRemove: seq<CleverId>)

  function CategorizeTeacherClasses<U, V>(ucClasses: Keyed<U>, cleverClasses: Keyed<V>): ClassPlan {
    ClassPlan(Filter(cleverClasses.keys, ucClasses.values.Keys, false),
              Filter(cleverClasses.keys, ucClasses.values.Keys, true),
              Filter(ucClasses.keys, cleverClasses.values.Keys, false))
  }

  lemma FilterSet(keys: seq<CleverId>, among: set<CleverId>)
    ensures ToSet(Filter(keys, among, true)) == ToSet(keys) * among
    ensures ToSet(Filter(keys, among, false)) == ToSet(keys) - among
  {
  }

  /** The three lists partition the class ids of both sides, each id once. */
  lemma PlanIsPartition<U, V>(uc: Keyed<U>, clever: Keyed<V>)
    requires ValidKeyed(uc) && ValidKeyed(clever)
    ensures var p := CategorizeTeacherClasses(uc, clever);
            && NoRepeats(p.toAdd + p.toUpdate + p.toRemove)
            && ToSet(p.toAdd + p.toUpdate + p.toRemove) == uc.values.Keys + clever.values.Keys
            && ToSet(p.toUpdate) == uc.values.Keys * clever.values.Keys
            && ToSet(p.toAdd) == clever.values.Keys - uc.values.Keys
            && ToSet(p.toRemove) == uc.values.Keys - clever.values.Keys
  {
    hide Filter, NoRepeats, ToSet;
    var p := CategorizeTeacherClasses(uc, clever);
    FilterHasNoRepeats(clever.keys, uc.values.Keys, false);
    FilterHasNoRepeats(clever.keys, uc.values.Keys, true);
    FilterHasNoRepeats(uc.keys, clever.values.Keys, false);
    FilterSet(clever.keys, uc.values.Keys);
    FilterSet(uc.keys, clever.values.Keys);
    NoRepeatsJoin(p.toAdd, p.toUpdate);
    NoRepeatsJoin(p.toAdd + p.toUpdate, p.toRemove);
  }

  lemma NoRepeatsJoin<T>(a: seq<T>, b: seq<T>)
    requires NoRepeats(a) && NoRepeats(b) && ToSet(a) !! ToSet(b)
    ensures NoRepeats(a + b)
    ensures ToSet(a + b) == ToSet(a) + ToSet(b)
  {
    forall i, j | 0 <= i < j < |a + b| ensures (a + b)[i] != (a + b)[j] {
      if i < |a| <= j {
        assert (a + b)[i] in ToSet(a) && (a + b)[j] in ToSet(b);
      }
    }
  }

  /** The students of a Clever class that have an account here. */
  function Known(students: seq<CleverId>, ids: map<CleverId, UcId>): (r: seq<UcId>)
    ensures forall u :: u in r <==> u in Image(students, ids)
  {
    if students == [] then [] else
      var rest := Known(students[1..], ids);
      assert forall s :: s in students <==> s == students[0] || s in students[1..];
      if students[0] in ids then [ids[students[0]]] + rest else rest
  }

  function Image(students: seq<CleverId>, ids: map<CleverId, UcId>): set<UcId> {
    set s | s in students && s in ids :: ids[s]
  }

  function Pick(students: seq<UcId>, from: set<UcId>): (r: seq<UcId>)
    ensures forall u :: u in r <==> u in students && u !in from
  {
    if students == [] then [] else
      var rest := Pick(students[1..], from);
      assert forall u :: u in students <==> u == students[0] || u in students[1..];
      if students[0] in from then rest else [students[0]] + rest
  }

  datatype StudentPlan = StudentPlan(toAdd: seq<UcId>, toRemove: seq<UcId>)

  function CategorizeStudentsInClass(ucStudents: seq<UcId>, cleverStudents: seq<CleverId>,
                                     ids: map<CleverId, UcId>): StudentPlan {
    StudentPlan(Pick(Known(cleverStudents, ids), ToSet(ucStudents)),
        Pick(ucStudents, ToSet(Known(cleverStudents, ids))))
  }

  /** Adding and removing what it says makes the roster the image of the Clever students, and it says to do
      nothing exactly when the roster is that image already. */
  lemma StudentPlanConverges(ucStudents: seq<UcId>, cleverStudents: seq<CleverId>, ids: map<CleverId, UcId>)
    ensures var p := CategorizeStudentsInClass(ucStudents, cleverStudents, ids);
            && ToSet(ucStudents) + ToSet(p.toAdd) - ToSet(p.toRemove) == Image(cleverStudents, ids)
            && ToSet(p.toAdd) !! ToSet(p.toRemove)
            && (p == StudentPlan([], []) <==> ToSet(ucStudents) == Image(cleverStudents, ids))
  {
    var p := CategorizeStudentsInClass(ucStudents, cleverStudents, ids);
    assert forall u :: u in ToSet(Known(cleverStudents, ids)) <==> u in Image(cleverStudents, ids);
    assert p.toAdd == [] || p.toAdd[0] in p.toAdd;
    assert p.toRemove == [] || p.toRemove[0] in p.toRemove;
  }

  // ----- What a synchronisation does -----

  /** The teacher's classes in the order of their rows, the rosters of all classes, and the next fresh class id. */
  datatype State = State(classes: seq<Class>, rosters: map<ClassId, set<UcId>>, nextId: ClassId)

  function RosterOf(rosters: map<ClassId, set<UcId>>, id: ClassId): set<UcId> {
    if id in rosters then rosters[id] else {}
  }

  ghost predicate ValidState(s: State) {
    && UniqueIds(s.classes)
    && (forall c <- s.classes :: c.id < s.nextId)
    && (forall id <- s.rosters :: id < s.nextId)
  }

  function NewClasses(keys: seq<CleverId>, firstId: ClassId): (r: seq<Class>)
    ensures |r| == |keys|
  {
    seq(|keys|, i requires 0 <= i < |keys| => Class(firstId + i, Some(keys[i]), None))
  }

  function Deactivated(classes: seq<Class>, ids: set<ClassId>, now: Time): (r: seq<Class>)
    ensures |r| == |classes|
  {
    seq(|classes|, i requires 0 <= i < |classes| =>
      if classes[i].id in ids then classes[i].(deactivatedOn := Some(now)) else classes[i])
  }

  ghost function RemovedIds(classes: seq<Class>, clever: Keyed<seq<CleverId>>): set<ClassId> {
    var uc := ClassMap(classes);
    set key | key in uc.values && key !in clever.values :: uc.values[key]
  }

  /** New classes for new sections, the classes missing from Clever deactivated, and the others as they were. */
  ghost function SyncedClasses(s: State, clever: Keyed<seq<CleverId>>, now: Time): seq<Class> {
    Deactivated(s.classes + NewClasses(CategorizeTeacherClasses(ClassMap(s.classes), clever).toAdd, s.nextId),
                RemovedIds(s.classes, clever), now)
  }

  /** Every Clever section has a class whose roster is the image of its students; every other roster is unchanged. */
  ghost predicate RostersSynced(before: map<ClassId, set<UcId>>, after: map<ClassId, set<UcId>>,
                                classOf: map<CleverId, ClassId>,
                                clever: map<CleverId, seq<CleverId>>, ids: map<CleverId, UcId>) {
    && (forall key <- clever :: key in classOf && RosterOf(after, classOf[key]) == Image(clever[key], ids))
    && (forall id: ClassId ::
          (forall key <- clever :: key in classOf ==> classOf[key] != id)
          ==> RosterOf(after, id) == RosterOf(before, id))
  }

  ghost predicate Synced(s: State, sections: seq<Section>, ids: map<CleverId, UcId>, now: Time, t: State) {
    var clever := SectionMap(sections);
    && t.classes == SyncedClasses(s, clever, now)
    && t.nextId == s.nextId + |CategorizeTeacherClasses(ClassMap(s.classes), clever).toAdd|
    && RostersSynced(s.rosters, t.rosters, ClassMap(t.classes).values, clever.values, ids)
  }

  lemma {:induction false} DeactivatingKeepsMap(classes: seq<Class>, ids: set<ClassId>, now: Time)
    ensures ClassMap(Deactivated(classes, ids, now)) == ClassMap(classes)
  {
    if classes != [] {
      DeactivatingKeepsMap(classes[..|classes| - 1], ids, now);
      var after := Deactivated(classes, ids, now);
      assert after[..|after| - 1] == Deactivated(classes[..|classes| - 1], ids, now);
    }
  }

  lemma {:induction false} NewClassesInMap(classes: seq<Class>, keys: seq<CleverId>, firstId: ClassId)
    requires NoRepeats(keys) && forall key <- keys :: key !in ClassMap(classes).values
    ensures var old', m := ClassMap(classes).values, ClassMap(classes + NewClasses(keys, firstId)).values;
            && m.Keys == old'.Keys + ToSet(keys)
            && (forall key <- old' :: m[key] == old'[key])
            && (forall i :: 0 <= i < |keys| ==> keys[i] in m && m[keys[i]] == firstId + i)
  {
    hide ClassMap;
    if keys == [] {
      assert classes + NewClasses(keys, firstId) == classes;
    } else {
      var n := |keys| - 1;
      var before := classes + NewClasses(keys[..n], firstId);
      NewClassesInMap(classes, keys[..n], firstId);
      assert keys == keys[..n] + [keys[n]];
      assert classes + NewClasses(keys, firstId) == before + [Class(firstId + n, Some(keys[n]), None)];
      OneMoreClass(before, Class(firstId + n, Some(keys[n]), None));
    }
  }

  lemma OneMoreClass(classes: seq<Class>, c: Class)
    ensures ClassMap(classes + [c]) == if c.cleverId.Some? then Put(ClassMap(classes), c.cleverId.value, c.id)
        else ClassMap(classes)
  {
    assert (classes + [c])[..|classes|] == classes;
  }

  /** The classes by Clever id after a synchronisation: the old ones stay, the new ones follow in order. */
  lemma MapAfterSync(s: State, clever: Keyed<seq<CleverId>>, now: Time)
    requires ValidKeyed(clever)
    ensures var before, after := ClassMap(s.classes), ClassMap(SyncedClasses(s, clever, now)).values;
            var toAdd := CategorizeTeacherClasses(before, clever).toAdd;
            && after.Keys == before.values.Keys + clever.values.Keys
            && (forall key <- before.values :: after[key] == before.values[key])
            && (forall i :: 0 <= i < |toAdd| ==> toAdd[i] in after && after[toAdd[i]] == s.nextId + i)
  {
    hide ClassMap, Deactivated, NewClasses, Filter;
    var before := ClassMap(s.classes);
    var toAdd := CategorizeTeacherClasses(before, clever).toAdd;
    FilterHasNoRepeats(clever.keys, before.values.Keys, false);
    FilterSet(clever.keys, before.values.Keys);
    NewClassesInMap(s.classes, toAdd, s.nextId);
    DeactivatingKeepsMap(s.classes + NewClasses(toAdd, s.nextId), RemovedIds(s.classes, clever), now);
  }

  /** A class is deactivated exactly when it stands for a Clever id that Clever no longer has; every other class
      is as it was, so classes without a Clever id are untouched, and one that Clever has again stays deactivated. */
  lemma ClassAfterSync(s: State, sections: seq<Section>, ids: map<CleverId, UcId>, now: Time, t: State, i: nat)
    requires ValidState(s) && Synced(s, sections, ids, now, t) && i < |s.classes|
    ensures var c, uc, clever := s.classes[i], ClassMap(s.classes).values, SectionMap(sections).values;
            && i < |t.classes|
            && t.classes[i] == if c.cleverId.Some? && c.cleverId.value !in clever
                                  && c.cleverId.value in uc && uc[c.cleverId.value] == c.id
                               then c.(deactivatedOn := Some(now)) else c
  {
    var c, uc, clever := s.classes[i], ClassMap(s.classes).values, SectionMap(sections);
    if c.id in RemovedIds(s.classes, clever) {
      var key :| key in uc && key !in clever.values && uc[key] == c.id;
      StandsForItself(s.classes, c, key);
    }
  }

  /** A section goes to the class that stands for it, or to a new one. */
  lemma ClassOfSection(s: State, clever: Keyed<seq<CleverId>>, now: Time, key: CleverId)
    requires ValidKeyed(clever) && key in clever.values
    ensures var uc, classOf := ClassMap(s.classes).values, ClassMap(SyncedClasses(s, clever, now)).values;
            && key in classOf
            && if key in uc then classOf[key] == uc[key] else classOf[key] >= s.nextId
  {
    var uc := ClassMap(s.classes);
    MapAfterSync(s, clever, now);
    FilterSet(clever.keys, uc.values.Keys);
    if key !in uc.values {
      var toAdd := CategorizeTeacherClasses(uc, clever).toAdd;
      assert key in ToSet(toAdd);
      var i :| 0 <= i < |toAdd| && toAdd[i] == key;
    }
  }

  /** A class that belongs to no section keeps its roster. */
  lemma {:induction false} OtherRostersUntouched(s: State, sections: seq<Section>, ids: map<CleverId, UcId>,
                                                 now: Time, t: State, c: Class)
    requires ValidState(s) && Synced(s, sections, ids, now, t) && c in s.classes
    requires c.cleverId.Some? ==> c.cleverId.value !in SectionMap(sections).values
    ensures RosterOf(t.rosters, c.id) == RosterOf(s.rosters, c.id)
  {
    hide ClassMap, SyncedClasses, SectionMap;
    var clever, classOf := SectionMap(sections), ClassMap(t.classes).values;
    forall key | key in clever.values && key in classOf ensures classOf[key] != c.id {
      ClassOfSection(s, clever, now, key);
      if classOf[key] == c.id {
        StandsForItself(s.classes, c, key);
      }
    }
  }

  /** A second synchronisation with the same Clever data adds no class, changes no roster, and only dates the
      same missing classes again. */
  lemma {:induction false} SecondSyncSettles(s: State, sections: seq<Section>, ids: map<CleverId, UcId>, now: Time,
                                             t: State, later: Time, u: State)
    requires Synced(s, sections, ids, now, t) && Synced(t, sections, ids, later, u)
    ensures var clever := SectionMap(sections);
            && CategorizeTeacherClasses(ClassMap(t.classes), clever).toAdd == []
            && RemovedIds(t.classes, clever) == RemovedIds(s.classes, clever)
            && u.classes == Deactivated(t.classes, RemovedIds(s.classes, clever), later)
            && (forall id: ClassId :: RosterOf(u.rosters, id) == RosterOf(t.rosters, id))
  {
    hide ClassMap, SectionMap, Deactivated, Image;
    var clever := SectionMap(sections);
    MapAfterSync(s, clever, now);
    NoneToAdd(ClassMap(t.classes), clever);
    assert t.classes + NewClasses([], t.nextId) == t.classes;
    DeactivatingKeepsMap(t.classes, RemovedIds(t.classes, clever), later);
  }

  lemma NoneToAdd<U, V>(uc: Keyed<U>, clever: Keyed<V>)
    requires ValidKeyed(clever) && clever.values.Keys <= uc.values.Keys
    ensures CategorizeTeacherClasses(uc, clever).toAdd == []
  {
    FilterSet(clever.keys, uc.values.Keys);
    EmptySet(CategorizeTeacherClasses(uc, clever).toAdd);
  }

  lemma EmptySet<T>(s: seq<T>)
    ensures ToSet(s) == {} ==> s == []
  {
    if s != [] {
      assert s[0] in ToSet(s);
    }
  }

  /** Nor has it any student to add or remove, in the class of any section. */
  lemma {:induction false} NoStudentLeftToMove(s: State, sections: seq<Section>, ids: map<CleverId, UcId>, now: Time,
                                               t: State, key: CleverId,
                            students: seq<UcId>)
    requires Synced(s, sections, ids, now, t) && key in SectionMap(sections).values
    ensures var classOf := ClassMap(t.classes).values;
            && key in classOf
            && (ToSet(students) == RosterOf(t.rosters, classOf[key])
                ==> CategorizeStudentsInClass(students, SectionMap(sections).values[key], ids) == StudentPlan([], []))
  {
    StudentPlanConverges(students, SectionMap(sections).values[key], ids);
  }

  lemma PlanMembers<U, V>(uc: Keyed<U>, clever: Keyed<V>)
    requires ValidKeyed(uc) && ValidKeyed(clever)
    ensures var p := CategorizeTeacherClasses(uc, clever);
            && (forall key :: key in p.toAdd <==> key in clever.values && key !in uc.values)
            && (forall key :: key in p.toUpdate <==> key in clever.values && key in uc.values)
            && (forall key :: key in p.toRemove <==> key in uc.values && key !in clever.values)
  {
    assert forall k :: k in uc.keys <==> k in ToSet(uc.keys);
    assert forall k :: k in clever.keys <==> k in ToSet(clever.keys);
  }

  lemma PlanRemovesMissing(classes: seq<Class>, clever: Keyed<seq<CleverId>>)
    requires ValidKeyed(clever)
    ensures var uc := ClassMap(classes);
            var toRemove := CategorizeTeacherClasses(uc, clever).toRemove;
            && (forall key <- toRemove :: key in uc.values)
            && (set key | key in toRemove :: uc.values[key]) == RemovedIds(classes, clever)
  {
    PlanMembers(ClassMap(classes), clever);
  }

  lemma KnownIsImage(students: seq<CleverId>, ids: map<CleverId, UcId>)
    ensures ToSet(Known(students, ids)) == Image(students, ids)
  {
  }

  lemma DeactivatedNone(classes: seq<Class>, now: Time)
    ensures Deactivated(classes, {}, now) == classes
  {
  }

  lemma DeactivatedMore(classes: seq<Class>, ids: set<ClassId>, more: set<ClassId>, now: Time)
    ensures Deactivated(Deactivated(classes, ids, now), more, now) == Deactivated(classes, ids + more, now)
  {
  }

  /** The new classes have their rosters, and no other roster changed. */
  ghost predicate Filled(before: map<ClassId, set<UcId>>, after: map<ClassId, set<UcId>>, toAdd: seq<CleverId>,
                         firstId: ClassId,
                         clever: map<CleverId, seq<CleverId>>, ids: map<CleverId, UcId>)
    requires forall key <- toAdd :: key in clever
  {
    && (forall i :: 0 <= i < |toAdd| ==> RosterOf(after, firstId + i) == Image(clever[toAdd[i]], ids))
    && (forall id: ClassId :: id < firstId || id >= firstId + |toAdd| ==> RosterOf(after, id) == RosterOf(before, id))
  }

  /** The classes to update have their rosters, and no other roster changed. */
  ghost predicate BroughtUpToDate(before: map<ClassId, set<UcId>>, after: map<ClassId, set<UcId>>,
                                  toUpdate: seq<CleverId>,
                                  uc: map<CleverId, ClassId>, clever: map<CleverId, seq<CleverId>>,
                                  ids: map<CleverId, UcId>)
    requires forall key <- toUpdate :: key in uc && key in clever
  {
    && (forall key <- toUpdate :: RosterOf(after, uc[key]) == Image(clever[key], ids))
    && (forall id: ClassId :: (forall key <- toUpdate :: uc[key] != id) ==> RosterOf(after, id) == RosterOf(before, id))
  }

  /** How the classes of the sections come about: those there were, then the new ones in order. */
  ghost predicate Extends(uc: map<CleverId, ClassId>, classOf: map<CleverId, ClassId>, toAdd: seq<CleverId>,
                          firstId: ClassId) {
    && classOf.Keys == uc.Keys + ToSet(toAdd)
    && (forall key <- uc :: classOf[key] == uc[key] && uc[key] < firstId)
    && (forall i :: 0 <= i < |toAdd| ==> toAdd[i] in classOf && classOf[toAdd[i]] == firstId + i)
  }

  /** Filling the new classes and then bringing the old ones up to date synchronises the rosters. */
  lemma RostersFollow(before: map<ClassId, set<UcId>>, added: map<ClassId, set<UcId>>, after: map<ClassId, set<UcId>>,
                      uc: map<CleverId, ClassId>, classOf: map<CleverId, ClassId>, toAdd: seq<CleverId>,
                      toUpdate: seq<CleverId>,
                      firstId: ClassId, clever: map<CleverId, seq<CleverId>>, ids: map<CleverId, UcId>)
    requires forall key :: key in toAdd <==> key in clever && key !in uc
    requires forall key :: key in toUpdate <==> key in clever && key in uc
    requires Extends(uc, classOf, toAdd, firstId)
    requires Filled(before, added, toAdd, firstId, clever, ids)
    requires BroughtUpToDate(added, after, toUpdate, uc, clever, ids)
    ensures RostersSynced(before, after, classOf, clever, ids)
  {
    forall key | key in clever ensures key in classOf && RosterOf(after, classOf[key]) == Image(clever[key], ids) {
      if key in uc {
        assert key in toUpdate;
      } else {
        var i :| 0 <= i < |toAdd| && toAdd[i] == key;
        assert RosterOf(after, firstId + i) == RosterOf(added, firstId + i);
      }
    }
    forall id: ClassId | forall key <- clever :: key in classOf ==> classOf[key] != id
      ensures RosterOf(after, id) == RosterOf(before, id)
    {
      assert RosterOf(after, id) == RosterOf(added, id);
      if firstId <= id < firstId + |toAdd| {
        var key := toAdd[id - firstId];
        assert key in toAdd && classOf[key] == id;
      }
    }
  }

  lemma {:induction false} SyncExtends(s: State, clever: Keyed<seq<CleverId>>, now: Time)
    requires ValidState(s) && ValidKeyed(clever)
    ensures Extends(ClassMap(s.classes).values, ClassMap(SyncedClasses(s, clever, now)).values,
                    CategorizeTeacherClasses(ClassMap(s.classes), clever).toAdd, s.nextId)
  {
    hide ClassMap, SyncedClasses;
    MapAfterSync(s, clever, now);
    FilterSet(clever.keys, ClassMap(s.classes).values.Keys);
    ClassMapMembers(s.classes);
  }

  // ----- The tables and the code -----

  class Tables {
    var classes: seq<Class>
    var rosters: map<ClassId, set<UcId>>
    var nextId: ClassId

    constructor (s: State)
      ensures Current() == s
    {
      classes, rosters, nextId := s.classes, s.rosters, s.nextId;
    }

    ghost function Current(): State
      reads this
    {
      State(classes, rosters, nextId)
    }

    method CreateTeacherClass(cleverId: CleverId) returns (id: ClassId)
      modifies `classes, `nextId
      ensures id == old(nextId) && nextId == id + 1 && classes == old(classes) + [Class(id, Some(cleverId), None)]
    {
      id := nextId;
      classes, nextId := classes + [Class(id, Some(cleverId), None)], nextId + 1;
    }

    /** INSERT ... ON CONFLICT DO NOTHING */
    method AddStudents(students: seq<UcId>, id: ClassId)
      modifies `rosters
      ensures rosters == old(rosters)[id := RosterOf(old(rosters), id) + ToSet(students)]
    {
      rosters := rosters[id := RosterOf(rosters, id) + ToSet(students)];
    }

    method RemoveStudents(students: seq<UcId>, id: ClassId)
      modifies `rosters
      ensures rosters == old(rosters)[id := RosterOf(old(rosters), id) - ToSet(students)]
    {
      rosters := rosters[id := RosterOf(rosters, id) - ToSet(students)];
    }

    /** In no particular order. */
    method StudentIds(id: ClassId) returns (students: seq<UcId>)
      ensures ToSet(students) == RosterOf(rosters, id)
    {
      students := [];
      var left := RosterOf(rosters, id);
      while left != {}
        invariant ToSet(students) + left == RosterOf(rosters, id)
        decreases left
      {
        var u :| u in left;
        students, left := students + [u], left - {u};
      }
    }

    method DeactivateTeacherClass(id: ClassId, now: Time)
      modifies `classes
      ensures classes == Deactivated(old(classes), {id}, now)
    {
      classes := Deactivated(classes, {id}, now);
    }

    method AddClasses(classesToAdd: seq<CleverId>, clever: map<CleverId, seq<CleverId>>, ids: map<CleverId, UcId>)
      requires forall key <- classesToAdd :: key in clever
      requires forall id <- rosters :: id < nextId
      modifies this
      ensures classes == old(classes) + NewClasses(classesToAdd, old(nextId)) && nextId == old(nextId) + |classesToAdd|
      ensures Filled(old(rosters), rosters, classesToAdd, old(nextId), clever, ids)
    {
      assert classes + NewClasses([], nextId) == classes;
      for i := 0 to |classesToAdd|
        invariant nextId == old(nextId) + i
        invariant classes == old(classes) + NewClasses(classesToAdd[..i], old(nextId))
        invariant forall k :: 0 <= k < i ==> RosterOf(rosters, old(nextId) + k) == Image(clever[classesToAdd[k]], ids)
        invariant forall id: ClassId ::
          id < old(nextId) || id >= nextId ==> RosterOf(rosters, id) == RosterOf(old(rosters), id)
      {
        var cleverId := classesToAdd[i];
        assert classes + [Class(nextId, Some(cleverId), None)]
            == old(classes) + NewClasses(classesToAdd[..i + 1], old(nextId));
        var newClass := CreateTeacherClass(cleverId);
        var ucStudents := Known(clever[cleverId], ids);
        KnownIsImage(clever[cleverId], ids);
        AddStudents(ucStudents, newClass);
      }
      assert classesToAdd[..|classesToAdd|] == classesToAdd;
    }

    method UpdateClass(id: ClassId, students: seq<CleverId>, ids: map<CleverId, UcId>)
      modifies `rosters
      ensures RosterOf(rosters, id) == Image(students, ids)
      ensures forall other: ClassId :: other != id ==> RosterOf(rosters, other) == RosterOf(old(rosters), other)
    {
      var ucStudents := StudentIds(id);
      var plan := CategorizeStudentsInClass(ucStudents, students, ids);
      StudentPlanConverges(ucStudents, students, ids);
      if |plan.toAdd| > 0 {
        AddStudents(plan.toAdd, id);
      }
      if |plan.toRemove| > 0 {
        RemoveStudents(plan.toRemove, id);
      }
    }

    method UpdateClasses(classesToUpdate: seq<CleverId>, uc: map<CleverId, ClassId>,
                         clever: map<CleverId, seq<CleverId>>,
                         ids: map<CleverId, UcId>)
      requires forall key <- classesToUpdate :: key in uc && key in clever
      requires forall a <- uc, b <- uc :: uc[a] == uc[b] ==> a == b
      modifies `rosters
      ensures BroughtUpToDate(old(rosters), rosters, classesToUpdate, uc, clever, ids)
    {
      for i := 0 to |classesToUpdate|
        invariant forall k ::
          0 <= k < i ==> RosterOf(rosters, uc[classesToUpdate[k]]) == Image(clever[classesToUpdate[k]], ids)
        invariant forall id: ClassId ::
          (forall key <- classesToUpdate :: uc[key] != id) ==> RosterOf(rosters, id) == RosterOf(old(rosters), id)
      {
        var cleverId := classesToUpdate[i];
        UpdateClass(uc[cleverId], clever[cleverId], ids);
      }
    }

    method RemoveClasses(classesToRemove: seq<CleverId>, uc: map<CleverId, ClassId>, now: Time)
      requires forall key <- classesToRemove :: key in uc
      modifies `classes
      ensures classes == Deactivated(old(classes), set key | key in classesToRemove :: uc[key], now)
    {
      DeactivatedNone(classes, now);
      for i := 0 to |classesToRemove|
        invariant classes == Deactivated(old(classes), set key | key in classesToRemove[..i] :: uc[key], now)
      {
        var id := uc[classesToRemove[i]];
        DeactivatedMore(old(classes), set key | key in classesToRemove[..i] :: uc[key], {id}, now);
        assert (set key | key in classesToRemove[..i + 1] :: uc[key])
            == (set key | key in classesToRemove[..i] :: uc[key]) + {id} by {
          assert forall key ::
            key in classesToRemove[..i + 1] <==> key in classesToRemove[..i] || key == classesToRemove[i];
        }
        DeactivateTeacherClass(id, now);
      }
      assert classesToRemove[..|classesToRemove|] == classesToRemove;
    }

    /** Nothing happens for an unknown teacher; `ids` are the accounts found or created for the students. */
    method RosterTeacherClasses(teacherExists: bool, cleverClasses: seq<Section>, ids: map<CleverId, UcId>, now: Time)
      requires ValidState(Current())
      modifies this
      ensures if teacherExists then Synced(old(Current()), cleverClasses, ids, now, Current())
          else Current() == old(Current())
    {
      if teacherExists {
        SyncClasses(cleverClasses, ids, now);
      }
    }

    method SyncClasses(cleverClasses: seq<Section>, ids: map<CleverId, UcId>, now: Time)
      requires ValidState(Current())
      modifies this
      ensures Synced(old(Current()), cleverClasses, ids, now, Current())
    {
      hide ClassMap, SectionMap, CategorizeTeacherClasses, Deactivated, NewClasses, RostersSynced, UniqueIds, Filled,
           BroughtUpToDate,
           Extends, RemovedIds, ValidKeyed, RosterOf, Image, ToSet;
      var uc, clever := ClassMap(classes), SectionMap(cleverClasses);
      var plan := CategorizeTeacherClasses(uc, clever);
      ghost var s := Current();
      PlanMembers(uc, clever);
      ClassMapIsInjective(classes);
      PlanRemovesMissing(classes, clever);
      AddClasses(plan.toAdd, clever.values, ids);
      ghost var added := rosters;
      UpdateClasses(plan.toUpdate, uc.values, clever.values, ids);
      RemoveClasses(plan.toRemove, uc.values, now);
      assert classes == SyncedClasses(s, clever, now);
      SyncExtends(s, clever, now);
      RostersFollow(s.rosters, added, rosters, uc.values, ClassMap(classes).values, plan.toAdd, plan.toUpdate, s.nextId,
                    clever.values, ids);
    }
  }
}
