/**
 What a synchronisation with Clever (server/services/CleverRosterService.ts) leaves in the tables,
     said of the sections and
 the rows themselves. Of sections or rows with the same Clever id the last one counts.
 */
module CleverOutcome {
  import opened Basics
  import opened CleverRoster

  predicate LastSection(sections: seq<Section>, i: nat)
    requires i < |sections|
  {
    forall j :: i < j < |sections| ==> sections[j].id != sections[i].id
  }

  predicate HasSection(sections: seq<Section>, id: CleverId) {
    exists s <- sections :: s.id == id
  }

  /** The row stands for its Clever id: no later row has it. */
  predicate LastRow(classes: seq<Class>, k: nat)
    requires k < |classes|
  {
    classes[k].cleverId.Some? && forall j :: k < j < |classes| ==> classes[j].cleverId != classes[k].cleverId
  }

  lemma {:induction false} LastSectionCounts(sections: seq<Section>, i: nat)
    requires i < |sections| && LastSection(sections, i)
    ensures sections[i].id in SectionMap(sections).values
    ensures SectionMap(sections).values[sections[i].id] == sections[i].students
  {
    var rest := sections[..|sections| - 1];
    if i < |rest| {
      LastSectionCounts(rest, i);
      assert sections[|rest|].id != sections[i].id;
    }
  }

  lemma {:induction false} LastRowCounts(classes: seq<Class>, k: nat)
    requires k < |classes| && LastRow(classes, k)
    ensures classes[k].cleverId.value in ClassMap(classes).values
    ensures ClassMap(classes).values[classes[k].cleverId.value] == classes[k].id
  {
    var rest := classes[..|classes| - 1];
    if k < |rest| {
      LastRowCounts(rest, k);
      assert classes[|rest|].cleverId != classes[k].cleverId;
    }
  }

  /** Every Clever id of a row has a row that stands for it. */
  lemma {:induction false} RowOfId(classes: seq<Class>, id: CleverId) returns (k: nat)
    requires id in ClassMap(classes).values
    ensures k < |classes| && LastRow(classes, k) && classes[k].cleverId == Some(id)
    ensures classes[k].id == ClassMap(classes).values[id]
  {
    k := |classes| - 1;
    if classes[k].cleverId != Some(id) {
      var rest := classes[..k];
      k := RowOfId(rest, id);
      assert forall j :: k < j < |classes| ==> j == |rest| || classes[j] == rest[j];
    }
  }

  /** Which row stands for its id, told by the map. */
  lemma StandsIff(classes: seq<Class>, k: nat)
    requires UniqueIds(classes) && k < |classes|
    ensures LastRow(classes, k)
       <==> && classes[k].cleverId.Some? && classes[k].cleverId.value in ClassMap(classes).values
            && ClassMap(classes).values[classes[k].cleverId.value] == classes[k].id
  {
    if LastRow(classes, k) {
      LastRowCounts(classes, k);
    } else if classes[k].cleverId.Some? && classes[k].cleverId.value in ClassMap(classes).values {
      var j := RowOfId(classes, classes[k].cleverId.value);
    }
  }

  /** Every section has a class, whose roster is what its students have for accounts. */
  lemma SectionsHaveRosters(s: State, sections: seq<Section>, ids: map<CleverId, UcId>, now: Time, t: State, i: nat)
    returns (k: nat)
    requires Synced(s, sections, ids, now, t) && i < |sections| && LastSection(sections, i)
    ensures k < |t.classes| && LastRow(t.classes, k) && t.classes[k].cleverId == Some(sections[i].id)
    ensures RosterOf(t.rosters, t.classes[k].id) == Image(sections[i].students, ids)
  {
    hide SyncedClasses, SectionMap, ClassMap, Image, RosterOf;
    LastSectionCounts(sections, i);
    k := RowOfId(t.classes, sections[i].id);
  }

  /** A row is dated exactly when it stands for a Clever id that no section has, and is otherwise as it was. A class
      that stands for no section's id keeps its roster. */
  lemma OldRows(s: State, sections: seq<Section>, ids: map<CleverId, UcId>, now: Time, t: State, k: nat)
    requires ValidState(s) && Synced(s, sections, ids, now, t) && k < |s.classes|
    ensures var c := s.classes[k];
            && k < |t.classes|
            && t.classes[k] == (if LastRow(s.classes, k) && !HasSection(sections, c.cleverId.value)
                                then c.(deactivatedOn := Some(now)) else c)
            && (!(LastRow(s.classes, k) && HasSection(sections, c.cleverId.value))
                ==> RosterOf(t.rosters, c.id) == RosterOf(s.rosters, c.id))
  {
    var c := s.classes[k];
    StandsIff(s.classes, k);
    ClassAfterSync(s, sections, ids, now, t, k);
    if !(LastRow(s.classes, k) && HasSection(sections, c.cleverId.value)) {
      NoSectionsClass(s, sections, ids, now, t, k);
    }
  }

  lemma NoSectionsClass(s: State, sections: seq<Section>, ids: map<CleverId, UcId>, now: Time, t: State, k: nat)
    requires ValidState(s) && Synced(s, sections, ids, now, t) && k < |s.classes|
    requires !(LastRow(s.classes, k) && HasSection(sections, s.classes[k].cleverId.value))
    ensures RosterOf(t.rosters, s.classes[k].id) == RosterOf(s.rosters, s.classes[k].id)
  {
    var c, clever, classOf := s.classes[k], SectionMap(sections), ClassMap(t.classes).values;
    StandsIff(s.classes, k);
    hide ClassMap, SyncedClasses, SectionMap, LastRow;
    forall key | key in clever.values && key in classOf ensures classOf[key] != c.id {
      ClassOfSection(s, clever, now, key);
      if classOf[key] == c.id {
        StandsForItself(s.classes, c, key);
      }
    }
  }

  /** A row that is new has the next fresh id and no date. It is of a section whose id no other row has. */
  lemma NewRow(s: State, sections: seq<Section>, ids: map<CleverId, UcId>, now: Time, t: State, k: nat)
    requires ValidState(s) && Synced(s, sections, ids, now, t) && |s.classes| <= k < |t.classes|
    ensures var n, c := |s.classes|, t.classes[k];
            && t.nextId == s.nextId + (|t.classes| - n)
            && c.id == s.nextId + (k - n) && c.deactivatedOn == None
            && c.cleverId.Some? && HasSection(sections, c.cleverId.value)
            && (forall old' <- s.classes :: old'.cleverId != c.cleverId)
            && (forall j :: n <= j < |t.classes| && j != k ==> t.classes[j].cleverId != c.cleverId)
  {
    var clever, n := SectionMap(sections), |s.classes|;
    var toAdd := CategorizeTeacherClasses(ClassMap(s.classes), clever).toAdd;
    var key := AddedRow(s, clever, now, k);
    SectionOfKey(sections, key);
    NotAmongRows(s.classes, key);
    hide SectionMap, ClassMap, CategorizeTeacherClasses, ValidState, SyncedClasses, RostersSynced;
    AddedCount(s, clever, now);
    forall j | n <= j < |t.classes| && j != k ensures t.classes[j].cleverId != Some(key) {
      AddedOnce(s, clever, now, j, k);
    }
  }

  lemma AddedCount(s: State, clever: Keyed<seq<CleverId>>, now: Time)
    ensures |SyncedClasses(s, clever, now)|
         == |s.classes| + |CategorizeTeacherClasses(ClassMap(s.classes), clever).toAdd|
  {
  }

  lemma AddedOnce(s: State, clever: Keyed<seq<CleverId>>, now: Time, j: nat, k: nat)
    requires ValidState(s) && ValidKeyed(clever) && |s.classes| <= j < |SyncedClasses(s, clever, now)|
    requires |s.classes| <= k < |SyncedClasses(s, clever, now)| && j != k
    ensures SyncedClasses(s, clever, now)[j].cleverId != SyncedClasses(s, clever, now)[k].cleverId
  {
    var a := AddedRow(s, clever, now, j);
    var b := AddedRow(s, clever, now, k);
    FilterHasNoRepeats(clever.keys, ClassMap(s.classes).values.Keys, false);
  }

  lemma SectionOfKey(sections: seq<Section>, key: CleverId)
    requires key in SectionMap(sections).values
    ensures HasSection(sections, key)
  {
  }

  lemma NotAmongRows(classes: seq<Class>, key: CleverId)
    requires key !in ClassMap(classes).values
    ensures forall c <- classes :: c.cleverId != Some(key)
  {
    ClassMapMembers(classes);
  }

  lemma AddedRow(s: State, clever: Keyed<seq<CleverId>>, now: Time, k: nat) returns (key: CleverId)
    requires ValidState(s) && ValidKeyed(clever) && |s.classes| <= k < |SyncedClasses(s, clever, now)|
    ensures var toAdd := CategorizeTeacherClasses(ClassMap(s.classes), clever).toAdd;
            k - |s.classes| < |toAdd| && key == toAdd[k - |s.classes|]
    ensures key in clever.values && key !in ClassMap(s.classes).values
    ensures SyncedClasses(s, clever, now)[k] == Class(s.nextId + (k - |s.classes|), Some(key), None)
  {
    hide ClassMap, CategorizeTeacherClasses, RemovedIds, ValidState, ValidKeyed;
    var toAdd := CategorizeTeacherClasses(ClassMap(s.classes), clever).toAdd;
    AddedCount(s, clever, now);
    key := toAdd[k - |s.classes|];
    assert key in toAdd;
    PlanMembers(ClassMap(s.classes), clever);
    NewIdsStay(s, clever, s.nextId + (k - |s.classes|));
  }

  lemma NewIdsStay(s: State, clever: Keyed<seq<CleverId>>, id: ClassId)
    requires ValidState(s) && id >= s.nextId
    ensures id !in RemovedIds(s.classes, clever)
  {
    ClassMapMembers(s.classes);
  }
}
