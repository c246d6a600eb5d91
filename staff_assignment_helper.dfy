/**
 * Reconciliation of a course's staff assignments with requested professor
 * and assistant ids: unwanted assignments are deleted, wanted existing ones
 * are kept untouched, and the missing ones are created. Requested pairs are
 * tracked as string keys `<userId>_<ROLE>`, as in the original.
 */
module StaffAssignmentHelper {
  import opened Wrappers
  import opened Text
  import opened Entities
  import opened Tables
  import Seqs

  // ---------------------------------------------------------------------
  // Keys

  /** `userId + "_" + role.name()`; a null id prints as "null". */
  function BuildKey(userId: Option<int>, role: StaffRole): string {
    (if userId.Some? then IntToString(userId.value) else "null") + "_" + StaffRoleName(role)
  }

  /**
   * `split("_")`, then `Long.parseLong(parts[0])` and `StaffRole.valueOf(parts[1])`;
   * `None` where one of them throws.
   */
  function ParseKey(key: string): Option<(int, StaffRole)> {
    var parts := Split(key, '_');
    if |parts| < 2 then None
    else
      match (ParseLong(parts[0]), StaffRoleValueOf(parts[1]))
      case (Some(id), Some(role)) => Some((id, role))
      case _ => None
  }

  lemma SplitKey(userId: Option<int>, role: StaffRole)
    ensures Split(BuildKey(userId, role), '_')
         == [if userId.Some? then IntToString(userId.value) else "null", StaffRoleName(role)]
  {
    var head := if userId.Some? then IntToString(userId.value) else "null";
    if userId.Some? {
      IntToStringHasNoSeparator(userId.value, '_');
    }
    var name := StaffRoleName(role);
    assert '_' !in name by {
      assert name == "PROFESSOR" || name == "ASSISTANT";
    }
    assert BuildKey(userId, role) == head + ['_'] + name;
    SplitAtFirstSeparator(head, '_', name);
    SplitWithoutSeparator(name, '_');
  }

  /** Splitting a key built from an id recovers the id and the role. */
  lemma KeyRoundTrip(id: int, role: StaffRole)
    ensures ParseKey(BuildKey(Some(id), role)) == Some((id, role))
  {
    SplitKey(Some(id), role);
    ParseIntToString(id);
  }

  /** A key built from a null id is never a key built from an id. */
  lemma NullKeyDoesNotParse(role: StaffRole)
    ensures ParseKey(BuildKey(None, role)) == None
  {
    SplitKey(None, role);
    assert !IsDigit("null"[0]);
  }

  /** Distinct (id, role) pairs have distinct keys, so one user may hold both roles. */
  lemma BuildKeyInjective(a: Option<int>, r: StaffRole, b: Option<int>, s: StaffRole)
    ensures BuildKey(a, r) == BuildKey(b, s) <==> a == b && r == s
  {
    if BuildKey(a, r) == BuildKey(b, s) {
      SplitKey(a, r);
      SplitKey(b, s);
      assert StaffRoleName(r) == StaffRoleName(s);
      if a.Some? && b.Some? {
        KeyRoundTrip(a.value, r);
        KeyRoundTrip(b.value, s);
      } else if a.Some? {
        KeyRoundTrip(a.value, r);
        NullKeyDoesNotParse(s);
      } else if b.Some? {
        KeyRoundTrip(b.value, s);
        NullKeyDoesNotParse(r);
      }
    }
  }

  // ---------------------------------------------------------------------
  // Requested pairs

  /** `stream().distinct()`: first occurrences, in order. */
  function Distinct(s: seq<int>): (r: seq<int>)
    ensures forall x :: x in r <==> x in s
    ensures forall i, j :: 0 <= i < j < |r| ==> r[i] != r[j]
  {
    if |s| == 0 then []
    else if s[|s| - 1] in s[..|s| - 1] then Distinct(s[..|s| - 1])
    else Distinct(s[..|s| - 1]) + [s[|s| - 1]]
  }

  /** The position of the first occurrence of `x` in `s`. */
  function FirstIndex(s: seq<int>, x: int): (i: nat)
    requires x in s
    ensures i < |s| && s[i] == x && x !in s[..i]
  {
    if s[0] == x then 0
    else
      var i := 1 + FirstIndex(s[1..], x);
      assert s[..i] == [s[0]] + s[1..][..i - 1];
      i
  }

  /** Appending an element leaves the first occurrences of the earlier ones where they were. */
  lemma FirstIndexOfPrefix(s: seq<int>, x: int, y: int)
    requires y in s
    ensures FirstIndex(s + [x], y) == FirstIndex(s, y)
  {
    var i, k := FirstIndex(s + [x], y), FirstIndex(s, y);
    assert (s + [x])[k] == y;
    assert (s + [x])[..i] == s[..i] by { assert i <= k; }
  }

  /** `Distinct` keeps the order of first occurrences. */
  lemma {:induction false} DistinctKeepsFirstOccurrenceOrder(s: seq<int>)
    ensures forall i, j :: 0 <= i < j < |Distinct(s)| ==>
              FirstIndex(s, Distinct(s)[i]) < FirstIndex(s, Distinct(s)[j])
  {
    if |s| > 0 {
      var p, x := s[..|s| - 1], s[|s| - 1];
      assert s == p + [x];
      DistinctKeepsFirstOccurrenceOrder(p);
      var q := Distinct(p);
      forall y | y in q
        ensures FirstIndex(s, y) == FirstIndex(p, y) < |p|
      {
        FirstIndexOfPrefix(p, x, y);
      }
      if x !in p {
        assert FirstIndex(s, x) == |p|;
      }
    }
  }

  /** A null id list is empty; otherwise duplicates collapse. */
  function NormalizeIds(ids: Option<seq<int>>): (r: seq<int>)
    ensures forall x :: x in r <==> ids.Some? && x in ids.value
    ensures forall i, j :: 0 <= i < j < |r| ==> r[i] != r[j]
  {
    if ids.None? then [] else Distinct(ids.value)
  }

  /** The (user id, role) pairs that must exist afterwards. */
  function DesiredPairs(professorIds: seq<int>, assistantIds: seq<int>): set<(int, StaffRole)> {
    (set id | id in professorIds :: (id, PROFESSOR)) + (set id | id in assistantIds :: (id, ASSISTANT))
  }

  /** The keys of a set of (user id, role) pairs. */
  function KeysOfPairs(pairs: set<(int, StaffRole)>): set<string> {
    set p | p in pairs :: BuildKey(Some(p.0), p.1)
  }

  /** The keys of the desired pairs. */
  function DesiredKeys(professorIds: seq<int>, assistantIds: seq<int>): set<string> {
    KeysOfPairs(DesiredPairs(professorIds, assistantIds))
  }

  /** The keys of the given ids with one role. */
  function RoleKeys(ids: seq<int>, role: StaffRole): set<string> {
    set id | id in ids :: BuildKey(Some(id), role)
  }

  lemma RoleKeysSnoc(ids: seq<int>, x: int, role: StaffRole)
    ensures RoleKeys(ids + [x], role) == RoleKeys(ids, role) + {BuildKey(Some(x), role)}
  {
    var l := RoleKeys(ids + [x], role);
    var r := RoleKeys(ids, role) + {BuildKey(Some(x), role)};
    forall k | k in l ensures k in r {
      var id :| id in ids + [x] && k == BuildKey(Some(id), role);
      if id != x {
        assert id in ids;
      }
    }
    forall k | k in r ensures k in l {
      if k != BuildKey(Some(x), role) {
        var id :| id in ids && k == BuildKey(Some(id), role);
        assert id in ids + [x];
      }
    }
  }

  /** The desired keys `applyStaffAssignments` builds in its loops over the professor and assistant ids. */
  method BuildDesiredKeys(professorIds: seq<int>, assistantIds: seq<int>) returns (keys: set<string>)
    ensures keys == DesiredKeys(professorIds, assistantIds)
  {
    keys := {};
    for i := 0 to |professorIds|
      invariant keys == RoleKeys(professorIds[..i], PROFESSOR)
    {
      assert professorIds[..i + 1] == professorIds[..i] + [professorIds[i]];
      RoleKeysSnoc(professorIds[..i], professorIds[i], PROFESSOR);
      keys := keys + {BuildKey(Some(professorIds[i]), PROFESSOR)};
    }
    assert professorIds[..|professorIds|] == professorIds;
    ghost var professorKeys := keys;
    for i := 0 to |assistantIds|
      invariant keys == professorKeys + RoleKeys(assistantIds[..i], ASSISTANT)
    {
      assert assistantIds[..i + 1] == assistantIds[..i] + [assistantIds[i]];
      RoleKeysSnoc(assistantIds[..i], assistantIds[i], ASSISTANT);
      keys := keys + {BuildKey(Some(assistantIds[i]), ASSISTANT)};
    }
    assert assistantIds[..|assistantIds|] == assistantIds;
    DesiredKeysUnfold(professorIds, assistantIds);
  }

  lemma DesiredKeysUnfold(professorIds: seq<int>, assistantIds: seq<int>)
    ensures DesiredKeys(professorIds, assistantIds)
         == RoleKeys(professorIds, PROFESSOR) + RoleKeys(assistantIds, ASSISTANT)
  {
    var d := DesiredKeys(professorIds, assistantIds);
    var e := RoleKeys(professorIds, PROFESSOR) + RoleKeys(assistantIds, ASSISTANT);
    forall k | k in e ensures k in d {
      if k in RoleKeys(professorIds, PROFESSOR) {
        var id :| id in professorIds && k == BuildKey(Some(id), PROFESSOR);
        assert (id, PROFESSOR) in DesiredPairs(professorIds, assistantIds);
      } else {
        var id :| id in assistantIds && k == BuildKey(Some(id), ASSISTANT);
        assert (id, ASSISTANT) in DesiredPairs(professorIds, assistantIds);
      }
    }
  }

  /** The lookup check of `applyStaffAssignments`: some requested id without a user, if there is one. */
  method FindMissingUser(usersById: map<int, User>, ids: set<int>) returns (missing: Option<int>)
    ensures missing.Some? ==> missing.value in ids && missing.value !in usersById
    ensures missing.None? ==> ids <= usersById.Keys
  {
    var toCheck := ids;
    while toCheck != {}
      invariant toCheck <= ids
      invariant ids - toCheck <= usersById.Keys
      decreases |toCheck|
    {
      ghost var some := Seqs.SomeElement(toCheck);
      var uid :| uid in toCheck;
      if uid !in usersById {
        return Some(uid);
      }
      toCheck := toCheck - {uid};
    }
    return None;
  }

  // ---------------------------------------------------------------------
  // Existing assignments

  /** Every assignment has its user and its role (NOT NULL columns). */
  ghost predicate Complete(s: seq<CourseStaffAssignment>)
    reads (set a | a in s)`user, (set a | a in s)`staffRole
  {
    forall i :: 0 <= i < |s| ==> s[i].user != null && s[i].staffRole.Some?
  }

  /** A collection as JPA loads it: complete rows with distinct ids. */
  ghost predicate Loaded(s: seq<CourseStaffAssignment>)
    reads set a | a in s
  {
    && Complete(s)
    && (forall i :: 0 <= i < |s| ==> s[i].id.Some?)
    && (forall i, j :: 0 <= i < j < |s| ==> s[i].id != s[j].id)
  }

  /** The key `applyStaffAssignments` builds for an existing assignment. */
  function KeyOf(a: CourseStaffAssignment): string
    requires a.user != null && a.staffRole.Some?
    reads a`user, a`staffRole, a.user`id
  {
    BuildKey(a.user.id, a.staffRole.value)
  }

  /** The (user id, role) pair of an assignment. */
  function PairOf(a: CourseStaffAssignment): (Option<int>, StaffRole)
    requires a.user != null && a.staffRole.Some?
    reads a, a.user
  {
    (a.user.id, a.staffRole.value)
  }

  ghost function KeysOf(s: seq<CourseStaffAssignment>): (r: seq<string>)
    requires Complete(s)
    reads (set a | a in s)`user, (set a | a in s)`staffRole, (set a | a in s :: a.user)`id
    ensures |r| == |s|
  {
    if |s| == 0 then [] else [KeyOf(s[0])] + KeysOf(s[1..])
  }

  /**
   * The pass of `applyStaffAssignments` over the existing assignments, on
   * keys: the desired keys not yet matched once the existing
   * assignments with the given keys have been visited in order. A visited key
   * that is still wanted is matched and leaves the set.
   */
  function Leftover(keys: seq<string>, desired: set<string>): set<string> {
    if |keys| == 0 then desired
    else Leftover(keys[..|keys| - 1], desired) - {keys[|keys| - 1]}
  }

  /** The pass over the existing assignments, on keys: whether each existing assignment is kept. */
  function KeepMask(keys: seq<string>, desired: set<string>): (m: seq<bool>)
    ensures |m| == |keys|
  {
    if |keys| == 0 then []
    else
      var n := |keys| - 1;
      KeepMask(keys[..n], desired) + [keys[n] in Leftover(keys[..n], desired)]
  }

  /** The keys left over are the desired keys that no existing assignment has. */
  lemma {:induction false} LeftoverMembers(keys: seq<string>, desired: set<string>, x: string)
    ensures x in Leftover(keys, desired) <==> x in desired && x !in keys
  {
    if |keys| > 0 {
      var n := |keys| - 1;
      LeftoverMembers(keys[..n], desired, x);
      assert keys == keys[..n] + [keys[n]];
    }
  }

  /** An assignment is kept iff its key is desired and no earlier assignment has that key. */
  lemma {:induction false} KeepMaskFirstDesired(keys: seq<string>, desired: set<string>, i: int)
    requires 0 <= i < |keys|
    ensures KeepMask(keys, desired)[i] <==> keys[i] in desired && keys[i] !in keys[..i]
  {
    var n := |keys| - 1;
    if i < n {
      KeepMaskFirstDesired(keys[..n], desired, i);
      assert keys[..n][..i] == keys[..i];
    } else {
      LeftoverMembers(keys[..n], desired, keys[n]);
    }
  }

  lemma KeepStep(keys: seq<string>, desired: set<string>, i: int)
    requires 0 <= i < |keys|
    ensures Leftover(keys[..i + 1], desired) == Leftover(keys[..i], desired) - {keys[i]}
    ensures KeepMask(keys[..i + 1], desired)
      == KeepMask(keys[..i], desired) + [keys[i] in Leftover(keys[..i], desired)]
  {
    assert keys[..i + 1][..i] == keys[..i];
  }

  /** The elements whose mask entry is true, in order. */
  function Select<T>(s: seq<T>, m: seq<bool>): (r: seq<T>)
    requires |m| == |s|
    ensures |r| <= |s|
  {
    if |s| == 0 then []
    else Select(s[..|s| - 1], m[..|s| - 1]) + (if m[|s| - 1] then [s[|s| - 1]] else [])
  }

  lemma SelectSnoc<T>(s: seq<T>, m: seq<bool>, x: T, b: bool)
    requires |m| == |s|
    ensures Select(s + [x], m + [b]) == Select(s, m) + (if b then [x] else [])
  {
    assert (s + [x])[..|s|] == s;
    assert (m + [b])[..|s|] == m;
  }

  lemma {:induction false} SelectMembers<T>(s: seq<T>, m: seq<bool>, x: T)
    requires |m| == |s|
    ensures x in Select(s, m) <==> exists j :: 0 <= j < |s| && m[j] && s[j] == x
  {
    if |s| > 0 {
      var n := |s| - 1;
      SelectMembers(s[..n], m[..n], x);
      if x in Select(s[..n], m[..n]) {
        var j :| 0 <= j < n && m[..n][j] && s[..n][j] == x;
        assert m[j] && s[j] == x;
      }
      if exists j :: 0 <= j < |s| && m[j] && s[j] == x {
        var j :| 0 <= j < |s| && m[j] && s[j] == x;
        if j < n {
          assert m[..n][j] && s[..n][j] == x;
        }
      }
    }
  }

  /** The kept keys have no duplicates, and they are the desired keys that some existing assignment has. */
  lemma {:induction false} KeptKeys(keys: seq<string>, desired: set<string>)
    ensures var k := Select(keys, KeepMask(keys, desired));
      && (forall i, j :: 0 <= i < j < |k| ==> k[i] != k[j])
      && (forall x :: x in k <==> x in desired && x in keys)
  {
    if |keys| > 0 {
      var n := |keys| - 1;
      var pre := keys[..n];
      KeptKeys(pre, desired);
      assert keys == pre + [keys[n]];
      var kp := Select(pre, KeepMask(pre, desired));
      var k := Select(keys, KeepMask(keys, desired));
      assert k == kp + (if keys[n] in Leftover(pre, desired) then [keys[n]] else []);
      LeftoverMembers(pre, desired, keys[n]);
    }
  }

  lemma KeysOfConcat(a: seq<CourseStaffAssignment>, b: seq<CourseStaffAssignment>)
    requires Complete(a) && Complete(b)
    ensures Complete(a + b)
    ensures KeysOf(a + b) == KeysOf(a) + KeysOf(b)
  {
    assert Complete(a + b) by {
      forall i | 0 <= i < |a + b| ensures (a + b)[i].user != null && (a + b)[i].staffRole.Some? {
        if i >= |a| {
          assert (a + b)[i] == b[i - |a|];
        }
      }
    }
    if |a| > 0 {
      var t := a[1..];
      assert Complete(t) by {
        forall i | 0 <= i < |t| ensures t[i].user != null && t[i].staffRole.Some? {
          assert t[i] == a[i + 1];
        }
      }
      assert (a + b)[1..] == t + b;
      KeysOfConcat(t, b);
      assert (a + b)[0] == a[0];
      calc {
        KeysOf(a + b);
        [KeyOf(a[0])] + KeysOf(t + b);
        [KeyOf(a[0])] + (KeysOf(t) + KeysOf(b));
        ([KeyOf(a[0])] + KeysOf(t)) + KeysOf(b);
      }
    } else {
      assert a + b == b;
    }
  }

  lemma {:induction false} KeysOfAt(s: seq<CourseStaffAssignment>, i: int)
    requires Complete(s) && 0 <= i < |s|
    ensures KeysOf(s)[i] == KeyOf(s[i])
  {
    if i > 0 {
      KeysOfAt(s[1..], i - 1);
    }
  }

  /** The keys of the kept assignments are the kept keys. */
  lemma {:induction false} SelectKeysOf(s: seq<CourseStaffAssignment>, m: seq<bool>)
    requires Complete(s) && |m| == |s|
    ensures Complete(Select(s, m)) && KeysOf(Select(s, m)) == Select(KeysOf(s), m)
  {
    if |s| > 0 {
      var n := |s| - 1;
      var t, x := s[..n], s[n];
      assert s == t + [x];
      assert Complete(t) by {
        forall i | 0 <= i < |t| ensures t[i].user != null && t[i].staffRole.Some? {
          assert t[i] == s[i];
        }
      }
      SelectKeysOf(t, m[..n]);
      KeysOfConcat(t, [x]);
      assert KeysOf([x]) == [KeyOf(x)];
      assert KeysOf(s)[..n] == KeysOf(t) && KeysOf(s)[n] == KeyOf(x);
      var tail := if m[n] then [x] else [];
      assert KeysOf(tail) == if m[n] then [KeyOf(x)] else [];
      KeysOfConcat(Select(t, m[..n]), tail);
    }
  }

  function RemoveFirst<T(==)>(s: seq<T>, x: T): seq<T> {
    if |s| == 0 then [] else if s[0] == x then s[1..] else [s[0]] + RemoveFirst(s[1..], x)
  }

  lemma {:induction false} RemoveFirstAt<T>(a: seq<T>, x: T, b: seq<T>)
    requires x !in a
    ensures RemoveFirst(a + [x] + b, x) == a + b
  {
    if |a| == 0 {
      assert a + [x] + b == [x] + b;
    } else {
      var c := a + [x] + b;
      assert c[0] == a[0] && a[0] in a;
      assert c[1..] == a[1..] + [x] + b;
      forall k | 0 <= k < |a[1..]| ensures a[1..][k] != x {
        assert a[1..][k] == a[k + 1] && a[k + 1] in a;
      }
      RemoveFirstAt(a[1..], x, b);
      assert [a[0]] + (a[1..] + b) == a + b;
    }
  }

  ghost function IdsOf(s: seq<CourseStaffAssignment>): (r: seq<int>)
    requires forall i :: 0 <= i < |s| ==> s[i].id.Some?
    reads set a | a in s
    ensures |r| == |s|
  {
    if |s| == 0 then [] else [s[0].id.value] + IdsOf(s[1..])
  }

  lemma {:induction false} IdsOfAt(s: seq<CourseStaffAssignment>, i: int)
    requires (forall j :: 0 <= j < |s| ==> s[j].id.Some?) && 0 <= i < |s|
    ensures IdsOf(s)[i] == s[i].id.value
  {
    if i > 0 {
      IdsOfAt(s[1..], i - 1);
    }
  }

  /** The ids whose mask entry is false. */
  function Dropped(ids: seq<int>, m: seq<bool>): set<int>
    requires |m| == |ids|
  {
    if |ids| == 0 then {}
    else Dropped(ids[..|ids| - 1], m[..|ids| - 1]) + (if m[|ids| - 1] then {} else {ids[|ids| - 1]})
  }

  lemma DroppedSnoc(ids: seq<int>, m: seq<bool>, x: int, b: bool)
    requires |m| == |ids|
    ensures Dropped(ids + [x], m + [b]) == Dropped(ids, m) + (if b then {} else {x})
  {
    assert (ids + [x])[..|ids|] == ids;
    assert (m + [b])[..|ids|] == m;
  }

  lemma {:induction false} DroppedMembers(ids: seq<int>, m: seq<bool>, x: int)
    requires |m| == |ids|
    ensures x in Dropped(ids, m) <==> exists j :: 0 <= j < |ids| && !m[j] && ids[j] == x
  {
    if |ids| > 0 {
      var n := |ids| - 1;
      DroppedMembers(ids[..n], m[..n], x);
      if x in Dropped(ids[..n], m[..n]) {
        var j :| 0 <= j < n && !m[..n][j] && ids[..n][j] == x;
        assert !m[j] && ids[j] == x;
      }
      if exists j :: 0 <= j < |ids| && !m[j] && ids[j] == x {
        var j :| 0 <= j < |ids| && !m[j] && ids[j] == x;
        if j < n {
          assert !m[..n][j] && ids[..n][j] == x;
        }
      }
    }
  }

  lemma RemoveAbsent(s: set<string>, x: string)
    requires x !in s
    ensures s - {x} == s
  {
  }

  lemma MapMinusStep(m: map<int, CourseStaffAssignment>, d: set<int>, x: int)
    ensures (m - d) - {x} == m - (d + {x})
  {
  }

  /** An element that does not occur before position `i` is not among the kept ones before it. */
  lemma NotYetKept<T>(s: seq<T>, mask: seq<bool>, i: int)
    requires 0 <= i < |s| && |mask| == i
    requires forall j :: 0 <= j < i ==> s[j] != s[i]
    ensures s[i] !in Select(s[..i], mask)
  {
    SelectMembers(s[..i], mask, s[i]);
    forall j | 0 <= j < i ensures s[..i][j] != s[i] {
      assert s[..i][j] == s[j];
    }
  }

  /** One visit of the removal loop, on the list being edited. */
  lemma RemovalStep<T>(s: seq<T>, mask: seq<bool>, i: int, keep: bool)
    requires 0 <= i < |s| && |mask| == i
    requires forall j :: 0 <= j < i ==> s[j] != s[i]
    ensures var before := Select(s[..i], mask) + s[i..];
      Select(s[..i + 1], mask + [keep]) + s[i + 1..]
      == if keep then before else RemoveFirst(before, s[i])
  {
    var kept, x, rest := Select(s[..i], mask), s[i], s[i + 1..];
    assert s[..i + 1] == s[..i] + [x];
    SelectSnoc(s[..i], mask, x, keep);
    assert kept + s[i..] == kept + [x] + rest;
    if !keep {
      NotYetKept(s, mask, i);
      RemoveFirstAt(kept, x, rest);
    }
  }

  /** What the removal loop needs to know about the loaded list, stated without the heap. */
  lemma LoadedFacts(s: seq<CourseStaffAssignment>)
    requires Loaded(s)
    ensures forall i, j :: 0 <= i < j < |s| ==> s[i] != s[j]
    ensures forall i :: 0 <= i < |s| ==> KeyOf(s[i]) == KeysOf(s)[i] && s[i].id == Some(IdsOf(s)[i])
  {
    forall i | 0 <= i < |s| ensures KeysOf(s)[i] == KeyOf(s[i]) {
      KeysOfAt(s, i);
    }
    forall i | 0 <= i < |s| ensures IdsOf(s)[i] == s[i].id.value {
      IdsOfAt(s, i);
    }
  }

  lemma DroppedStep(ids: seq<int>, mask: seq<bool>, i: int, b: bool)
    requires 0 <= i < |ids| && |mask| == i
    ensures Dropped(ids[..i + 1], mask + [b]) == Dropped(ids[..i], mask) + (if b then {} else {ids[i]})
  {
    assert ids[..i + 1] == ids[..i] + [ids[i]];
    DroppedSnoc(ids[..i], mask, ids[i], b);
  }

  /** The state of the removal loop: the edited list, the unmatched keys, the deleted ids. */
  datatype Visited = Visited(list: seq<CourseStaffAssignment>, leftover: set<string>, dropped: set<int>)

  /**
   * One step of the pass over the existing assignments: the visit of an
   * existing assignment with the given key and id.
   */
  function VisitOne(v: Visited, a: CourseStaffAssignment, key: string, id: int): Visited {
    if key in v.leftover then Visited(v.list, v.leftover - {key}, v.dropped)
    else Visited(RemoveFirst(v.list, a), v.leftover, v.dropped + {id})
  }

  /**
   * The pass over the existing assignments, step by step: the state after
   * visiting the first `n` existing assignments.
   */
  function Visit(s: seq<CourseStaffAssignment>, keys: seq<string>, ids: seq<int>, desired: set<string>, n: nat): Visited
    requires n <= |s| && |keys| == |s| && |ids| == |s|
  {
    if n == 0 then Visited(s, desired, {})
    else VisitOne(Visit(s, keys, ids, desired, n - 1), s[n - 1], keys[n - 1], ids[n - 1])
  }

  /** The state after `n` visits described by the keep mask of the first `n` keys. */
  ghost function Expected(s: seq<CourseStaffAssignment>, keys: seq<string>, ids: seq<int>, desired: set<string>, n: nat)
    : Visited
    requires n <= |s| && |keys| == |s| && |ids| == |s|
  {
    var m := KeepMask(keys[..n], desired);
    Visited(Select(s[..n], m) + s[n..], Leftover(keys[..n], desired), Dropped(ids[..n], m))
  }

  /** One visit of the removal loop advances the described state by one assignment. */
  lemma VisitStep(s: seq<CourseStaffAssignment>, keys: seq<string>, ids: seq<int>, desired: set<string>, i: nat)
    requires i < |s| && |keys| == |s| && |ids| == |s|
    requires forall j :: 0 <= j < i ==> s[j] != s[i]
    ensures VisitOne(Expected(s, keys, ids, desired, i), s[i], keys[i], ids[i]) == Expected(s, keys, ids, desired, i + 1)
  {
    var mask := KeepMask(keys[..i], desired);
    var keep := keys[i] in Leftover(keys[..i], desired);
    KeepStep(keys, desired, i);
    RemovalStep(s, mask, i, keep);
    DroppedStep(ids, mask, i, keep);
  }

  /** The loop keeps the first assignment for each desired key and drops the others. */
  lemma {:induction false} VisitSelects(s: seq<CourseStaffAssignment>, keys: seq<string>, ids: seq<int>,
                                        desired: set<string>, n: nat)
    requires n <= |s| && |keys| == |s| && |ids| == |s|
    requires forall i, j :: 0 <= i < j < |s| ==> s[i] != s[j]
    ensures Visit(s, keys, ids, desired, n) == Expected(s, keys, ids, desired, n)
  {
    if n > 0 {
      VisitSelects(s, keys, ids, desired, n - 1);
      VisitStep(s, keys, ids, desired, n - 1);
    } else {
      assert s[..0] == [] && keys[..0] == [] && ids[..0] == [];
    }
  }

  /** After the whole list the loop has kept, matched and dropped what the masks say. */
  lemma VisitAll(s: seq<CourseStaffAssignment>, keys: seq<string>, ids: seq<int>, desired: set<string>)
    requires |keys| == |s| && |ids| == |s|
    requires forall i, j :: 0 <= i < j < |s| ==> s[i] != s[j]
    ensures var m := KeepMask(keys, desired);
      Visit(s, keys, ids, desired, |s|) == Visited(Select(s, m), Leftover(keys, desired), Dropped(ids, m))
  {
    var n := |s|;
    VisitSelects(s, keys, ids, desired, n);
    assert s[..n] == s;
    assert keys[..n] == keys;
    assert ids[..n] == ids;
    var m := KeepMask(keys, desired);
    var kept := Select(s, m);
    assert kept + s[n..] == kept;
  }

  /**
   * One iteration of the pass over the existing assignments: an assignment whose key is no longer
   * wanted is deleted and removed from the list; otherwise its key is matched.
   */
  method VisitNext(db: Database, current: seq<CourseStaffAssignment>, ghost keys: seq<string>,
                   ghost ids: seq<int>, desired: set<string>, ghost stored: map<int, CourseStaffAssignment>,
                   i: nat, list: seq<CourseStaffAssignment>, leftover: set<string>)
    returns (list': seq<CourseStaffAssignment>, leftover': set<string>)
    requires i < |current| && |keys| == |current| && |ids| == |current|
    requires current[i].user != null && current[i].staffRole.Some? && KeyOf(current[i]) == keys[i]
    requires current[i].id == Some(ids[i])
    requires Visit(current, keys, ids, desired, i).list == list
    requires Visit(current, keys, ids, desired, i).leftover == leftover
    requires db.Valid() && db.assignments == stored - Visit(current, keys, ids, desired, i).dropped
    modifies db`assignments
    ensures Visit(current, keys, ids, desired, i + 1).list == list'
    ensures Visit(current, keys, ids, desired, i + 1).leftover == leftover'
    ensures db.Valid() && db.assignments == stored - Visit(current, keys, ids, desired, i + 1).dropped
  {
    var csa := current[i];
    var key := KeyOf(csa);
    if key !in leftover {
      MapMinusStep(stored, Visit(current, keys, ids, desired, i).dropped, ids[i]);
      db.DeleteAssignment(csa);
      list' := RemoveFirst(list, csa);
      leftover' := leftover;
    } else {
      list' := list;
      leftover' := leftover - {key};
    }
  }

  /**
   * The pass over the existing assignments: visits the existing assignments in order, keeps the first one
   * for each desired key, deletes every other one, and returns the list of
   * kept assignments with the desired keys still missing.
   */
  method VisitExisting(db: Database, current: seq<CourseStaffAssignment>, ghost keys: seq<string>,
                       ghost ids: seq<int>, desired: set<string>)
    returns (list: seq<CourseStaffAssignment>, leftover: set<string>)
    requires db.Valid() && |keys| == |current| && |ids| == |current|
    requires forall i, j :: 0 <= i < j < |current| ==> current[i] != current[j]
    requires forall i :: 0 <= i < |current| ==>
      current[i].user != null && current[i].staffRole.Some? && KeyOf(current[i]) == keys[i]
      && current[i].id == Some(ids[i])
    modifies db`assignments
    ensures list == Select(current, KeepMask(keys, desired))
    ensures leftover == Leftover(keys, desired)
    ensures db.assignments == old(db.assignments) - Dropped(ids, KeepMask(keys, desired))
    ensures db.Valid()
  {
    ghost var stored := db.assignments;
    list := current;
    leftover := desired;
    var i := 0;
    while i < |current|
      invariant 0 <= i <= |current|
      invariant Visit(current, keys, ids, desired, i).list == list
      invariant Visit(current, keys, ids, desired, i).leftover == leftover
      invariant db.Valid() && db.assignments == stored - Visit(current, keys, ids, desired, i).dropped
    {
      list, leftover := VisitNext(db, current, keys, ids, desired, stored, i, list, leftover);
      i := i + 1;
    }
    VisitAll(current, keys, ids, desired);
  }

  /** The pass over the existing assignments, applied to the course's collection. */
  method RemoveUndesired(db: Database, course: Course, desired: set<string>) returns (leftover: set<string>)
    requires db.Valid() && Loaded(course.courseStaffAssignments)
    modifies db`assignments, course`courseStaffAssignments
    ensures var s := old(course.courseStaffAssignments);
      var keys := old(KeysOf(s));
      var m := KeepMask(keys, desired);
      && course.courseStaffAssignments == Select(s, m)
      && leftover == Leftover(keys, desired)
      && db.assignments == old(db.assignments) - Dropped(old(IdsOf(s)), m)
    ensures Complete(course.courseStaffAssignments)
    ensures KeysOf(course.courseStaffAssignments) == Select(old(KeysOf(course.courseStaffAssignments)),
                                                            KeepMask(old(KeysOf(course.courseStaffAssignments)), desired))
    ensures db.Valid()
  {
    var current := course.courseStaffAssignments;
    LoadedFacts(current);
    var list;
    list, leftover := VisitExisting(db, current, KeysOf(current), IdsOf(current), desired);
    course.courseStaffAssignments := list;
    KeysOfUnchanged(current);
    SelectKeysOf(current, KeepMask(KeysOf(current), desired));
  }

  // ---------------------------------------------------------------------
  // New assignments

  /**
   * The creation step of `applyStaffAssignments`: splits a missing key into the user id and the role. Every
   * missing key was built from a requested pair, so the parse succeeds and
   * gives that pair back.
   */
  method ParseMissingKey(ghost pairs: set<(int, StaffRole)>, key: string) returns (userId: int, role: StaffRole)
    requires key in KeysOfPairs(pairs)
    ensures (userId, role) in pairs && BuildKey(Some(userId), role) == key
  {
    ghost var p :| p in pairs && key == BuildKey(Some(p.0), p.1);
    KeyRoundTrip(p.0, p.1);
    var parsed := ParseKey(key);
    userId, role := parsed.value.0, parsed.value.1;
  }

  /** The store after the rows of `s` were inserted under consecutive ids from `start`. */
  function Inserted(m: map<int, CourseStaffAssignment>, start: int, s: seq<CourseStaffAssignment>)
    : map<int, CourseStaffAssignment>
  {
    if |s| == 0 then m
    else Inserted(m, start, s[..|s| - 1])[start + |s| - 1 := s[|s| - 1]]
  }

  /** The created assignments: the looked-up user, the course, the role, and ids counting up from `start`. */
  ghost predicate NewRows(added: seq<CourseStaffAssignment>, course: Course, usersById: map<int, User>,
                          pairs: seq<(int, StaffRole)>, start: int)
    reads set a | a in added
  {
    && |pairs| == |added|
    && forall j :: 0 <= j < |added| ==>
         && pairs[j].0 in usersById
         && added[j].user == usersById[pairs[j].0]
         && added[j].course == course
         && added[j].staffRole == Some(pairs[j].1)
         && added[j].id == Some(start + j)
  }

  /** The created assignments all belong to the course. */
  lemma NewRowsOfCourse(added: seq<CourseStaffAssignment>, course: Course, usersById: map<int, User>,
                        pairs: seq<(int, StaffRole)>, start: int)
    requires NewRows(added, course, usersById, pairs, start)
    ensures forall j :: 0 <= j < |added| ==> added[j].course == course
  {
  }

  /**
   * The creation step for one key: a new assignment for the looked-up user, saved,
   * then appended to the course's list; it extends the rows created so far.
   */
  method CreateOne(db: Database, course: Course, usersById: map<int, User>, userId: int, role: StaffRole,
                   ghost added: seq<CourseStaffAssignment>, ghost pairs: seq<(int, StaffRole)>,
                   ghost base: seq<CourseStaffAssignment>, ghost stored: map<int, CourseStaffAssignment>,
                   ghost start: int)
    returns (csa: CourseStaffAssignment)
    requires userId in usersById
    requires Made(db, course, usersById, added, pairs, base, stored, start)
    modifies db`assignments, db`nextAssignmentId, course`courseStaffAssignments
    ensures fresh(csa) && csa.id == Some(old(db.nextAssignmentId))
    ensures course.courseStaffAssignments == old(course.courseStaffAssignments) + [csa]
    ensures db.assignments == old(db.assignments)[old(db.nextAssignmentId) := csa]
    ensures db.nextAssignmentId == old(db.nextAssignmentId) + 1
    ensures Made(db, course, usersById, added + [csa], pairs + [(userId, role)], base, stored, start)
  {
    csa := SaveNew(db, usersById[userId], course, role);
    course.courseStaffAssignments := course.courseStaffAssignments + [csa];
    NewRowsSnoc(added, course, usersById, pairs, start, csa, (userId, role));
    InsertedSnoc(stored, start, added, csa);
    AppendOne(base, added, csa);
  }

  /** A new assignment of the user to the course in the role, saved. */
  method SaveNew(db: Database, user: User, course: Course, role: StaffRole) returns (csa: CourseStaffAssignment)
    requires db.Valid()
    modifies db`assignments, db`nextAssignmentId
    ensures fresh(csa) && csa.user == user && csa.course == course && csa.staffRole == Some(role)
    ensures csa.id == Some(old(db.nextAssignmentId))
    ensures db.assignments == old(db.assignments)[old(db.nextAssignmentId) := csa]
    ensures db.nextAssignmentId == old(db.nextAssignmentId) + 1 && db.Valid()
  {
    csa := new CourseStaffAssignment(user, course, Some(role));
    db.PersistAssignment(csa);
  }

  lemma AppendOne<T>(s: seq<T>, t: seq<T>, x: T)
    ensures s + t + [x] == s + (t + [x])
  {
  }

  /** Each created key is the key of its requested pair. */
  ghost predicate BuiltFrom(keys: seq<string>, pairs: seq<(int, StaffRole)>, requested: set<(int, StaffRole)>) {
    |keys| == |pairs|
    && forall j :: 0 <= j < |keys| ==> pairs[j] in requested && keys[j] == BuildKey(Some(pairs[j].0), pairs[j].1)
  }

  lemma BuiltFromSnoc(keys: seq<string>, pairs: seq<(int, StaffRole)>, requested: set<(int, StaffRole)>,
                      key: string, p: (int, StaffRole))
    requires BuiltFrom(keys, pairs, requested)
    requires p in requested && key == BuildKey(Some(p.0), p.1)
    ensures BuiltFrom(keys + [key], pairs + [p], requested)
  {
  }

  lemma InsertedSnoc(m: map<int, CourseStaffAssignment>, start: int, s: seq<CourseStaffAssignment>,
                     a: CourseStaffAssignment)
    ensures Inserted(m, start, s + [a]) == Inserted(m, start, s)[start + |s| := a]
  {
    assert (s + [a])[..|s|] == s;
  }

  lemma NewRowsSnoc(added: seq<CourseStaffAssignment>, course: Course, usersById: map<int, User>,
                    pairs: seq<(int, StaffRole)>, start: int, a: CourseStaffAssignment, p: (int, StaffRole))
    requires NewRows(added, course, usersById, pairs, start)
    requires p.0 in usersById && a.user == usersById[p.0] && a.course == course
    requires a.staffRole == Some(p.1) && a.id == Some(start + |added|)
    ensures NewRows(added + [a], course, usersById, pairs + [p], start)
  {
  }

  /**
   * The keys taken so far by the creation loop: missing keys, no longer
   * remaining, each once, each built from a requested pair.
   */
  ghost predicate Taken(requested: set<(int, StaffRole)>, missing: set<string>, remaining: set<string>,
                        addedKeys: seq<string>, addedPairs: seq<(int, StaffRole)>)
  {
    && remaining <= missing
    && (forall i, j :: 0 <= i < j < |addedKeys| ==> addedKeys[i] != addedKeys[j])
    && (forall k :: k in addedKeys <==> k in missing && k !in remaining)
    && BuiltFrom(addedKeys, addedPairs, requested)
  }

  /** Bookkeeping of the creation loop: one more key taken from those remaining. */
  lemma TakeKey(requested: set<(int, StaffRole)>, missing: set<string>, remaining: set<string>,
                keys: seq<string>, pairs: seq<(int, StaffRole)>, key: string, p: (int, StaffRole))
    requires Taken(requested, missing, remaining, keys, pairs)
    requires key in remaining && p in requested && key == BuildKey(Some(p.0), p.1)
    ensures Taken(requested, missing, remaining - {key}, keys + [key], pairs + [p])
  {
    BuiltFromSnoc(keys, pairs, requested, key, p);
  }

  /**
   * The rows made by the creation loop: one saved row per taken pair,
   * appended to `base`, and stored in `stored` under consecutive ids from `start`.
   */
  ghost predicate Made(db: Database, course: Course, usersById: map<int, User>,
                       added: seq<CourseStaffAssignment>, addedPairs: seq<(int, StaffRole)>,
                       base: seq<CourseStaffAssignment>, stored: map<int, CourseStaffAssignment>, start: int)
    reads db, course, set a | a in added
  {
    && course.courseStaffAssignments == base + added
    && NewRows(added, course, usersById, addedPairs, start)
    && db.nextAssignmentId == start + |added|
    && db.assignments == Inserted(stored, start, added)
    && db.Valid()
  }

  /** The state of the creation loop. */
  ghost predicate Creating(db: Database, course: Course, usersById: map<int, User>,
                           requested: set<(int, StaffRole)>, missing: set<string>, remaining: set<string>,
                           added: seq<CourseStaffAssignment>, addedKeys: seq<string>,
                           addedPairs: seq<(int, StaffRole)>, base: seq<CourseStaffAssignment>,
                           stored: map<int, CourseStaffAssignment>, start: int)
    reads db, course, set a | a in added
  {
    && Taken(requested, missing, remaining, addedKeys, addedPairs)
    && Made(db, course, usersById, added, addedPairs, base, stored, start)
  }

  /** Before the creation loop nothing is taken yet. */
  lemma CreatingStart(db: Database, course: Course, usersById: map<int, User>,
                      requested: set<(int, StaffRole)>, missing: set<string>)
    requires db.Valid()
    ensures Creating(db, course, usersById, requested, missing, missing, [], [], [],
                     course.courseStaffAssignments, db.assignments, db.nextAssignmentId)
  {
    assert course.courseStaffAssignments + [] == course.courseStaffAssignments;
  }

  /** Once no key remains, every missing key was created exactly once. */
  lemma CreatingDone(db: Database, course: Course, usersById: map<int, User>,
                     requested: set<(int, StaffRole)>, missing: set<string>,
                     added: seq<CourseStaffAssignment>, addedKeys: seq<string>,
                     addedPairs: seq<(int, StaffRole)>, base: seq<CourseStaffAssignment>,
                     stored: map<int, CourseStaffAssignment>, start: int)
    requires forall id :: id in usersById ==> usersById[id].id == Some(id)
    requires Creating(db, course, usersById, requested, missing, {}, added, addedKeys, addedPairs, base, stored, start)
    ensures course.courseStaffAssignments == base + added
    ensures NewRows(added, course, usersById, addedPairs, start)
    ensures forall i, j :: 0 <= i < j < |addedKeys| ==> addedKeys[i] != addedKeys[j]
    ensures forall k :: k in addedKeys <==> k in missing
    ensures Complete(added) && KeysOf(added) == addedKeys
    ensures db.assignments == Inserted(stored, start, added)
    ensures db.nextAssignmentId == start + |added| && db.Valid()
  {
    NewRowKeys(added, course, usersById, addedKeys, addedPairs, requested, start);
  }

  /** One iteration of the creation step, for a key still remaining. */
  method CreateNext(db: Database, course: Course, usersById: map<int, User>,
                    ghost requested: set<(int, StaffRole)>, missing: set<string>, remaining: set<string>,
                    ghost added: seq<CourseStaffAssignment>, ghost addedKeys: seq<string>,
                    ghost addedPairs: seq<(int, StaffRole)>, ghost base: seq<CourseStaffAssignment>,
                    ghost stored: map<int, CourseStaffAssignment>, ghost start: int, key: string)
    returns (csa: CourseStaffAssignment, ghost pair: (int, StaffRole))
    requires missing <= KeysOfPairs(requested)
    requires forall p :: p in requested ==> p.0 in usersById
    requires key in remaining
    requires Taken(requested, missing, remaining, addedKeys, addedPairs)
    requires Made(db, course, usersById, added, addedPairs, base, stored, start)
    modifies db`assignments, db`nextAssignmentId, course`courseStaffAssignments
    ensures fresh(csa)
    ensures Taken(requested, missing, remaining - {key}, addedKeys + [key], addedPairs + [pair])
    ensures Made(db, course, usersById, added + [csa], addedPairs + [pair], base, stored, start)
  {
    var userId, role := ParseMissingKey(requested, key);
    pair := (userId, role);
    TakeKey(requested, missing, remaining, addedKeys, addedPairs, key, pair);
    csa := CreateOne(db, course, usersById, userId, role, added, addedPairs, base, stored, start);
  }

  /**
   * The creation step: creates, saves and appends one assignment for every key
   * still missing, in the unspecified iteration order of the key set.
   */
  method CreateMissing(db: Database, course: Course, usersById: map<int, User>,
                       ghost requested: set<(int, StaffRole)>, missing: set<string>)
    returns (added: seq<CourseStaffAssignment>, ghost addedKeys: seq<string>, ghost addedPairs: seq<(int, StaffRole)>)
    requires db.Valid()
    requires missing <= KeysOfPairs(requested)
    requires forall p :: p in requested ==> p.0 in usersById
    modifies db`assignments, db`nextAssignmentId, course`courseStaffAssignments
    ensures Taken(requested, missing, {}, addedKeys, addedPairs)
    ensures Made(db, course, usersById, added, addedPairs,
                 old(course.courseStaffAssignments), old(db.assignments), old(db.nextAssignmentId))
    ensures forall a | a in added :: fresh(a)
  {
    ghost var base, stored, start := course.courseStaffAssignments, db.assignments, db.nextAssignmentId;
    added, addedKeys, addedPairs := [], [], [];
    var remaining := missing;
    CreatingStart(db, course, usersById, requested, missing);
    while remaining != {}
      invariant Taken(requested, missing, remaining, addedKeys, addedPairs)
      invariant Made(db, course, usersById, added, addedPairs, base, stored, start)
      invariant forall a | a in added :: fresh(a)
      decreases |remaining|
    {
      ghost var some := Seqs.SomeElement(remaining);
      var key :| key in remaining;
      var csa, pair := CreateNext(db, course, usersById, requested, missing, remaining, added, addedKeys,
                                  addedPairs, base, stored, start, key);
      added := added + [csa];
      addedKeys := addedKeys + [key];
      addedPairs := addedPairs + [pair];
      remaining := remaining - {key};
    }
  }

  // ---------------------------------------------------------------------
  // The whole update

  /** A course's assignments hold each desired key exactly once, and nothing else. */
  ghost predicate ExactlyDesired(s: seq<CourseStaffAssignment>, desired: set<string>)
    reads (set a | a in s)`user, (set a | a in s)`staffRole, (set a | a in s :: a.user)`id
  {
    && Complete(s)
    && (forall i, j :: 0 <= i < j < |s| ==> KeysOf(s)[i] != KeysOf(s)[j])
    && (forall k :: k in KeysOf(s) <==> k in desired)
  }

  /** The `findAllById` lookup of `applyStaffAssignments`: the stored users with a requested id, by id. */
  function FindAllById(users: map<int, User>, ids: set<int>): (r: map<int, User>)
    ensures r.Keys == ids * users.Keys
    ensures forall id :: id in r ==> r[id] == users[id]
  {
    map id | id in ids && id in users :: users[id]
  }

  /** The ids of both normalised lists, which `applyStaffAssignments` looks up. */
  function AllIds(professorIds: seq<int>, assistantIds: seq<int>): (r: set<int>)
    ensures forall p :: p in DesiredPairs(professorIds, assistantIds) ==> p.0 in r
  {
    (set id | id in professorIds) + (set id | id in assistantIds)
  }

  /** The kept keys followed by the created ones are the desired keys, each once. */
  lemma {:induction false} FinalKeys(keys: seq<string>, desired: set<string>, addedKeys: seq<string>)
    requires forall i, j :: 0 <= i < j < |addedKeys| ==> addedKeys[i] != addedKeys[j]
    requires forall k :: k in addedKeys <==> k in Leftover(keys, desired)
    ensures var all := Select(keys, KeepMask(keys, desired)) + addedKeys;
      && (forall i, j :: 0 <= i < j < |all| ==> all[i] != all[j])
      && (forall k :: k in all <==> k in desired)
  {
    var kept := Select(keys, KeepMask(keys, desired));
    KeptKeys(keys, desired);
    assert forall x :: x in kept <==> x in desired && x in keys;
    assert forall i, j :: 0 <= i < j < |kept| ==> kept[i] != kept[j];
    forall k ensures k in Leftover(keys, desired) <==> k in desired && k !in keys {
      LeftoverMembers(keys, desired, k);
    }
    var all := kept + addedKeys;
    forall i, j | 0 <= i < j < |all| ensures all[i] != all[j] {
      if j < |kept| {
        assert all[i] == kept[i] && all[j] == kept[j];
      } else if i >= |kept| {
        assert all[i] == addedKeys[i - |kept|] && all[j] == addedKeys[j - |kept|];
      } else {
        assert all[i] == kept[i] && kept[i] in kept && kept[i] in keys;
        assert all[j] == addedKeys[j - |kept|] && all[j] in addedKeys && all[j] !in keys;
      }
    }
    forall k ensures k in all <==> k in desired {
      if k in all {
        var i :| 0 <= i < |all| && all[i] == k;
        if i < |kept| {
          assert kept[i] == k;
        } else {
          assert addedKeys[i - |kept|] == k;
        }
      }
    }
  }

  /** Kept rows with the kept keys, followed by rows created for the leftover keys, hold each desired key once. */
  lemma KeptThenCreated(kept: seq<CourseStaffAssignment>, added: seq<CourseStaffAssignment>, keys: seq<string>,
                        desired: set<string>, addedKeys: seq<string>)
    requires Complete(kept) && KeysOf(kept) == Select(keys, KeepMask(keys, desired))
    requires Complete(added) && KeysOf(added) == addedKeys
    requires forall i, j :: 0 <= i < j < |addedKeys| ==> addedKeys[i] != addedKeys[j]
    requires forall k :: k in addedKeys <==> k in Leftover(keys, desired)
    ensures ExactlyDesired(kept + added, desired)
  {
    KeysOfConcat(kept, added);
    FinalKeys(keys, desired, addedKeys);
  }

  /** The keys of assignments whose rows and users did not change did not change. */
  twostate lemma KeysOfUnchanged(s: seq<CourseStaffAssignment>)
    requires old(Complete(s))
    requires unchanged(set a | a in s) && unchanged(set a | a in s :: a.user)
    ensures Complete(s) && KeysOf(s) == old(KeysOf(s))
  {
  }

  /** The created rows carry the keys they were created for. */
  lemma NewRowKeys(added: seq<CourseStaffAssignment>, course: Course, usersById: map<int, User>,
                   addedKeys: seq<string>, pairs: seq<(int, StaffRole)>, requested: set<(int, StaffRole)>, start: int)
    requires NewRows(added, course, usersById, pairs, start) && BuiltFrom(addedKeys, pairs, requested)
    requires forall id :: id in usersById ==> usersById[id].id == Some(id)
    ensures Complete(added) && KeysOf(added) == addedKeys
  {
    forall i | 0 <= i < |added| ensures KeysOf(added)[i] == addedKeys[i] {
      KeysOfAt(added, i);
    }
  }

  /** The outcome of the whole update: done, or the exception it throws. */
  datatype Outcome = Done | Thrown(message: string)

  /**
   * The reconciliation of `applyStaffAssignments`: deletes the existing assignments that are not desired, or
   * that repeat an earlier one, and creates the desired ones that are missing.
   */
  method ReplaceAssignments(db: Database, course: Course, usersById: map<int, User>,
                            ghost requested: set<(int, StaffRole)>, desired: set<string>)
    returns (ghost added: seq<CourseStaffAssignment>)
    requires db.Valid() && Loaded(course.courseStaffAssignments)
    requires desired == KeysOfPairs(requested)
    requires forall p :: p in requested ==> p.0 in usersById
    requires forall id :: id in usersById ==> usersById[id].id == Some(id)
    modifies db`assignments, db`nextAssignmentId, course`courseStaffAssignments
    ensures var s := old(course.courseStaffAssignments);
      var m := KeepMask(old(KeysOf(s)), desired);
      && course.courseStaffAssignments == Select(s, m) + added
      && db.assignments == Inserted(old(db.assignments) - Dropped(old(IdsOf(s)), m), old(db.nextAssignmentId), added)
    ensures forall j :: 0 <= j < |added| ==> added[j].course == course
    ensures forall a | a in added :: fresh(a)
    ensures ExactlyDesired(course.courseStaffAssignments, desired)
    ensures db.Valid()
  {
    ghost var s := course.courseStaffAssignments;
    ghost var keys := KeysOf(s);
    var leftover := RemoveUndesired(db, course, desired);
    added := AddMissing(db, course, usersById, requested, desired, keys, leftover);
  }

  /**
   * The creation step after the removal: the kept assignments carry the kept keys,
   * so creating one assignment per leftover key leaves each desired key once.
   */
  method AddMissing(db: Database, course: Course, usersById: map<int, User>,
                    ghost requested: set<(int, StaffRole)>, desired: set<string>, ghost keys: seq<string>,
                    leftover: set<string>)
    returns (ghost added: seq<CourseStaffAssignment>)
    requires db.Valid()
    requires desired == KeysOfPairs(requested)
    requires forall p :: p in requested ==> p.0 in usersById
    requires forall id :: id in usersById ==> usersById[id].id == Some(id)
    requires Complete(course.courseStaffAssignments)
    requires KeysOf(course.courseStaffAssignments) == Select(keys, KeepMask(keys, desired))
    requires leftover == Leftover(keys, desired)
    modifies db`assignments, db`nextAssignmentId, course`courseStaffAssignments
    ensures course.courseStaffAssignments == old(course.courseStaffAssignments) + added
    ensures db.assignments == Inserted(old(db.assignments), old(db.nextAssignmentId), added)
    ensures forall j :: 0 <= j < |added| ==> added[j].course == course
    ensures forall a | a in added :: fresh(a)
    ensures ExactlyDesired(course.courseStaffAssignments, desired)
    ensures db.Valid()
  {
    ghost var kept := course.courseStaffAssignments;
    forall k | k in leftover ensures k in KeysOfPairs(requested) {
      LeftoverMembers(keys, desired, k);
    }
    ghost var addedKeys, addedPairs;
    added, addedKeys, addedPairs := CreateMissing(db, course, usersById, requested, leftover);
    CreatingDone(db, course, usersById, requested, leftover, added, addedKeys, addedPairs,
                 kept, old(db.assignments), old(db.nextAssignmentId));
    NewRowsOfCourse(added, course, usersById, addedPairs, old(db.nextAssignmentId));
    KeysOfUnchanged(kept);
    KeptThenCreated(kept, added, keys, desired, addedKeys);
  }

  /**
   * `applyStaffAssignments`: replaces the course's staff assignments by the requested
   * ones. Every requested id must name a stored user; otherwise nothing
   * changes and "User not found: <id>" is thrown for one of the unknown ids.
   */
  method ApplyStaffAssignments(db: Database, course: Course, professorIds: Option<seq<int>>,
                               assistantIds: Option<seq<int>>)
    returns (outcome: Outcome, ghost added: seq<CourseStaffAssignment>)
    requires db.Valid() && db.UsersKeyed() && Loaded(course.courseStaffAssignments)
    modifies db`assignments, db`nextAssignmentId, course`courseStaffAssignments
    ensures var ids := AllIds(NormalizeIds(professorIds), NormalizeIds(assistantIds));
      outcome.Thrown? <==> !(ids <= old(db.users).Keys)
    ensures outcome.Thrown? ==>
      && (exists id :: id in AllIds(NormalizeIds(professorIds), NormalizeIds(assistantIds)) && id !in db.users
            && outcome.message == "User not found: " + IntToString(id))
      && course.courseStaffAssignments == old(course.courseStaffAssignments)
      && db.assignments == old(db.assignments) && db.nextAssignmentId == old(db.nextAssignmentId)
    ensures outcome.Done? ==>
      var s := old(course.courseStaffAssignments);
      var desired := DesiredKeys(NormalizeIds(professorIds), NormalizeIds(assistantIds));
      var m := KeepMask(old(KeysOf(s)), desired);
      && course.courseStaffAssignments == Select(s, m) + added
      && db.assignments == Inserted(old(db.assignments) - Dropped(old(IdsOf(s)), m), old(db.nextAssignmentId), added)
      && ExactlyDesired(course.courseStaffAssignments, desired)
      && (forall j :: 0 <= j < |added| ==> added[j].course == course)
      && (forall a | a in added :: fresh(a))
    ensures db.Valid()
  {
    var profIds := NormalizeIds(professorIds);
    var asstIds := NormalizeIds(assistantIds);
    var desired := BuildDesiredKeys(profIds, asstIds);
    var allIds := AllIds(profIds, asstIds);
    var usersById := FindAllById(db.users, allIds);
    var unknown := FindMissingUser(usersById, allIds);
    if unknown.Some? {
      return Thrown("User not found: " + IntToString(unknown.value)), [];
    }
    assert course.courseStaffAssignments == old(course.courseStaffAssignments);
    assert KeysOf(course.courseStaffAssignments) == old(KeysOf(course.courseStaffAssignments));
    assert IdsOf(course.courseStaffAssignments) == old(IdsOf(course.courseStaffAssignments));
    added := ReplaceAssignments(db, course, usersById, DesiredPairs(profIds, asstIds), desired);
    outcome := Done;
  }
}
