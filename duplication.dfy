/**
 * The "duplicate course class" admin action (`duplicate_course_class`).
 *
 * For each selected class it inserts a copy whose code is the original code
 * followed by " (n)", for the least n from 2 on that no class already uses;
 * then it copies the class's instructors, tasks, widgets and posts, and its
 * badges together with each badge's criteria, repointing every copy to the new
 * class (or to the new badge).
 *
 * The database is a value here: each table is a sequence of rows in id order,
 * and saving a row whose id was cleared inserts it at the end with the next id.
 */
module Duplication {
  import opened Decimal

  /** A class row: its id, its code, and the rest of its columns, which copying keeps. */
  datatype ClassRow = ClassRow(id: nat, code: string, data: int)

  /** A dependent row: its id, the id of the row it belongs to (the course class, or the
      class badge for a criterion), and the rest of its columns. */
  datatype Row = Row(id: nat, owner: nat, data: int)

  /** The tables the action reads and writes. */
  datatype Db = Db(
    classes: seq<ClassRow>,
    instructors: seq<Row>,
    tasks: seq<Row>,
    widgets: seq<Row>,
    posts: seq<Row>,
    badges: seq<Row>,
    criteria: seq<Row>)

  // ---------------------------------------------------------------- ids

  // Each table's row type has its own id field, so the id-order predicate and the next-id
  // allocator are written once per row type here and in the student module; a shared
  // version over an id projection would add a sequence comprehension to every id proof.

  /** Ids in insertion order, as an auto-increment key keeps them. */
  predicate IdsIncreasing(t: seq<Row>)
  {
    forall i, j :: 0 <= i < j < |t| ==> t[i].id < t[j].id
  }

  predicate ClassIdsIncreasing(t: seq<ClassRow>)
  {
    forall i, j :: 0 <= i < j < |t| ==> t[i].id < t[j].id
  }

  /** The id the database gives the next row saved without an id. */
  function NextId(t: seq<Row>): (n: nat)
    ensures n >= 1
    ensures IdsIncreasing(t) ==> forall i :: 0 <= i < |t| ==> t[i].id < n
  {
    if t == [] then 1 else t[|t| - 1].id + 1
  }

  function NextClassId(t: seq<ClassRow>): (n: nat)
    ensures n >= 1
    ensures ClassIdsIncreasing(t) ==> forall i :: 0 <= i < |t| ==> t[i].id < n
  {
    if t == [] then 1 else t[|t| - 1].id + 1
  }

  function Codes(t: seq<ClassRow>): (codes: set<string>)
    ensures forall i :: 0 <= i < |t| ==> t[i].code in codes
    ensures forall c :: c in codes ==> exists i :: 0 <= i < |t| && t[i].code == c
  {
    set r | r in t :: r.code
  }

  // ---------------------------------------------------------------- the copy code

  /** `"%s (%d)" % (code, n)`. */
  function CopyCode(code: string, n: nat): (c: string)
    ensures |c| == |code| + |Format(n)| + 3
    ensures c[..|code|] == code && c[|code|..|code| + 2] == " (" && c[|c| - 1] == ')'
    ensures c[|code| + 2..|c| - 1] == Format(n)
  {
    code + " (" + Format(n) + ")"
  }

  /** Different copy numbers give different codes. */
  lemma CopyCodeInjective(code: string, a: nat, b: nat)
    requires CopyCode(code, a) == CopyCode(code, b)
    ensures a == b
  {
    var s := CopyCode(code, a);
    assert Format(a) == s[|code| + 2..|s| - 1];
    assert Format(b) == s[|code| + 2..|s| - 1];
    FormatInjective(a, b);
  }

  /** `n` is the copy number the action picks: at least 2, its code not taken, and every
      smaller number from 2 on taken. */
  predicate IsLeastFree(code: string, taken: set<string>, n: nat)
  {
    && n >= 2
    && CopyCode(code, n) !in taken
    && forall m :: 2 <= m < n ==> CopyCode(code, m) in taken
  }

  /** The taken codes that are copy codes of `code` with a number from `n` on: the measure
      that shows the search ends. */
  ghost function TakenFrom(code: string, taken: set<string>, n: nat): set<string>
  {
    set c | c in taken && exists m: nat :: n <= m && c == CopyCode(code, m)
  }

  lemma TakenShrinks(code: string, taken: set<string>, n: nat)
    requires CopyCode(code, n) in taken
    ensures TakenFrom(code, taken, n + 1) < TakenFrom(code, taken, n)
  {
    var c := CopyCode(code, n);
    assert c in TakenFrom(code, taken, n);
    if c in TakenFrom(code, taken, n + 1) {
      var m: nat :| n + 1 <= m && c == CopyCode(code, m);
      CopyCodeInjective(code, n, m);
    }
  }

  /** The `while True` loop that searches for a free copy number. */
  method FreeCopyNumber(code: string, taken: set<string>) returns (n: nat)
    ensures IsLeastFree(code, taken, n)
  {
    n := 2;
    while true
      invariant n >= 2
      invariant forall m :: 2 <= m < n ==> CopyCode(code, m) in taken
      decreases TakenFrom(code, taken, n)
    {
      var newCode := CopyCode(code, n);
      if newCode !in taken {
        return;
      }
      TakenShrinks(code, taken, n);
      n := n + 1;
    }
  }

  // ---------------------------------------------------------------- copying rows

  /** The rows of `t` that belong to `owner`, in id order. */
  function Owned(t: seq<Row>, owner: nat): (r: seq<Row>)
    ensures |r| <= |t|
    ensures forall i :: 0 <= i < |r| ==> r[i].owner == owner
  {
    if t == [] then []
    else if t[0].owner == owner then [t[0]] + Owned(t[1..], owner)
    else Owned(t[1..], owner)
  }

  /** The copies of `rows` repointed to `owner`, saved one after the other from id `start`. */
  function Copies(rows: seq<Row>, owner: nat, start: nat): (r: seq<Row>)
    ensures |r| == |rows|
    ensures forall k :: 0 <= k < |rows| ==> r[k] == Row(start + k, owner, rows[k].data)
  {
    seq(|rows|, k requires 0 <= k < |rows| => Row(start + k, owner, rows[k].data))
  }

  /** The columns other than id and owner, row by row. */
  function Data(rows: seq<Row>): (d: seq<int>)
    ensures |d| == |rows| && forall k :: 0 <= k < |rows| ==> d[k] == rows[k].data
  {
    seq(|rows|, k requires 0 <= k < |rows| => rows[k].data)
  }

  /** A table after its rows belonging to `from` have been copied to `to`. */
  function CopyOwned(t: seq<Row>, from: nat, to: nat): (r: seq<Row>)
    ensures |r| == |t| + |Owned(t, from)| && r[..|t|] == t
  {
    t + Copies(Owned(t, from), to, NextId(t))
  }

  /** Each of `rows` in turn: clear its id, point it to `to`, save it. */
  method SaveCopies(t: seq<Row>, rows: seq<Row>, to: nat) returns (t': seq<Row>)
    ensures t' == t + Copies(rows, to, NextId(t))
  {
    var start := NextId(t);
    t' := t;
    for k := 0 to |rows|
      invariant t' == t + Copies(rows[..k], to, start)
      invariant NextId(t') == start + k
    {
      var row := rows[k];
      row := row.(id := NextId(t'), owner := to);
      assert Copies(rows[..k + 1], to, start) == Copies(rows[..k], to, start) + [row];
      t' := t' + [row];
    }
    assert rows[..|rows|] == rows;
  }

  /** Copies, in id order, every row of `t` that belongs to `from`, pointing to `to`. */
  method CopyTable(t: seq<Row>, from: nat, to: nat) returns (t': seq<Row>)
    ensures t' == CopyOwned(t, from, to)
  {
    var existing := Owned(t, from);
    t' := SaveCopies(t, existing, to);
  }

  lemma {:induction false} OwnedAppend(a: seq<Row>, b: seq<Row>, owner: nat)
    ensures Owned(a + b, owner) == Owned(a, owner) + Owned(b, owner)
  {
    if a == [] {
      assert a + b == b;
    } else {
      assert (a + b)[1..] == a[1..] + b;
      OwnedAppend(a[1..], b, owner);
    }
  }

  lemma {:induction false} OwnedNone(t: seq<Row>, owner: nat)
    requires forall i :: 0 <= i < |t| ==> t[i].owner != owner
    ensures Owned(t, owner) == []
  {
    if t != [] {
      OwnedNone(t[1..], owner);
    }
  }

  lemma {:induction false} OwnedAll(t: seq<Row>, owner: nat)
    requires forall i :: 0 <= i < |t| ==> t[i].owner == owner
    ensures Owned(t, owner) == t
  {
    if t != [] {
      OwnedAll(t[1..], owner);
      assert t == [t[0]] + t[1..];
    }
  }

  /** Filtering keeps the rows' ids within bounds. */
  lemma {:induction false} OwnedIdsWithin(t: seq<Row>, owner: nat, lo: int, hi: int)
    requires forall i :: 0 <= i < |t| ==> lo < t[i].id < hi
    ensures forall i :: 0 <= i < |Owned(t, owner)| ==> lo < Owned(t, owner)[i].id < hi
  {
    if t != [] {
      OwnedIdsWithin(t[1..], owner, lo, hi);
    }
  }

  lemma {:induction false} OwnedIncreasing(t: seq<Row>, owner: nat)
    requires IdsIncreasing(t)
    ensures IdsIncreasing(Owned(t, owner))
  {
    if t != [] {
      OwnedIncreasing(t[1..], owner);
      OwnedIdsWithin(t[1..], owner, t[0].id, NextId(t));
    }
  }

  /** The copy keeps the table in id order when it was. */
  lemma CopiesIncreasing(t: seq<Row>, rows: seq<Row>, to: nat)
    requires IdsIncreasing(t)
    ensures IdsIncreasing(t + Copies(rows, to, NextId(t)))
  {
  }

  /** The table-copy property: every row of the original class yields exactly one copy, in id
      order, pointing to the new class and with the same columns; the copies get fresh ids
      after the existing ones; the original rows, and so the original class's rows, are
      untouched. */
  lemma CopyOwnedToNew(t: seq<Row>, from: nat, to: nat)
    requires forall i :: 0 <= i < |t| ==> t[i].owner != to
    ensures Owned(CopyOwned(t, from, to), to) == Copies(Owned(t, from), to, NextId(t))
  {
    var copies := Copies(Owned(t, from), to, NextId(t));
    OwnedAppend(t, copies, to);
    OwnedNone(t, to);
    OwnedAll(copies, to);
    assert [] + copies == copies;
  }

  lemma CopyOwnedKeepsOriginal(t: seq<Row>, from: nat, to: nat)
    requires from != to
    ensures Owned(CopyOwned(t, from, to), from) == Owned(t, from)
  {
    var copies := Copies(Owned(t, from), to, NextId(t));
    OwnedAppend(t, copies, from);
    OwnedNone(copies, from);
    assert Owned(t, from) + [] == Owned(t, from);
  }

  lemma CopyOwnedFacts(t: seq<Row>, from: nat, to: nat)
    requires IdsIncreasing(t)
    requires from != to
    requires forall i :: 0 <= i < |t| ==> t[i].owner != to
    ensures CopyOwned(t, from, to)[..|t|] == t
    ensures IdsIncreasing(CopyOwned(t, from, to))
    ensures Owned(CopyOwned(t, from, to), to) == Copies(Owned(t, from), to, NextId(t))
    ensures Data(Owned(CopyOwned(t, from, to), to)) == Data(Owned(t, from))
    ensures Owned(CopyOwned(t, from, to), from) == Owned(t, from)
  {
    assert CopyOwned(t, from, to)[..|t|] == t;
    CopiesIncreasing(t, Owned(t, from), to);
    CopyOwnedToNew(t, from, to);
    CopyOwnedKeepsOriginal(t, from, to);
  }

  // ---------------------------------------------------------------- copying badges

  /** The badge loop: for each badge still to copy, read its criteria (while it still has its
      own id), save the badge as a copy pointing to `to`, then save copies of the criteria
      pointing to the saved copy. Returns the badge and criteria tables. */
  function CopyBadgesFrom(badges: seq<Row>, criteria: seq<Row>, todo: seq<Row>, to: nat): (r: (seq<Row>, seq<Row>))
    decreases |todo|
    ensures |r.0| == |badges| + |todo| && |r.1| >= |criteria|
  {
    if todo == [] then (badges, criteria)
    else
      var criteriaList := Owned(criteria, todo[0].id);
      var copy := Row(NextId(badges), to, todo[0].data);
      CopyBadgesFrom(badges + [copy], criteria + Copies(criteriaList, copy.id, NextId(criteria)), todo[1..], to)
  }

  /** The action's loop over the class's badges, in id order. */
  method CopyBadges(badges: seq<Row>, criteria: seq<Row>, from: nat, to: nat)
    returns (badges': seq<Row>, criteria': seq<Row>)
    ensures (badges', criteria') == CopyBadgesFrom(badges, criteria, Owned(badges, from), to)
  {
    var classBadges := Owned(badges, from);
    badges', criteria' := badges, criteria;
    for k := 0 to |classBadges|
      invariant CopyBadgesFrom(badges, criteria, classBadges, to) ==
        CopyBadgesFrom(badges', criteria', classBadges[k..], to)
    {
      assert classBadges[k..][1..] == classBadges[k + 1..];
      var classBadge := classBadges[k];
      var criteriaList := Owned(criteria', classBadge.id);
      classBadge := classBadge.(id := NextId(badges'), owner := to);
      badges' := badges' + [classBadge];
      criteria' := SaveCopies(criteria', criteriaList, classBadge.id);
    }
  }

  /** Every row of `t` points below `n`. */
  predicate OwnersBelow(t: seq<Row>, n: nat)
  {
    forall i :: 0 <= i < |t| ==> t[i].owner < n
  }

  /** A badge `copy` of badge `original`, pointing to `to`, whose criteria in `criteria'` carry
      the columns of the original's criteria in `criteria`, in order. */
  predicate CopiedBadge(criteria': seq<Row>, criteria: seq<Row>, original: Row, copy: Row, to: nat)
  {
    && copy.owner == to
    && copy.data == original.data
    && Data(Owned(criteria', copy.id)) == Data(Owned(criteria, original.id))
  }

  /** Appending rows that point elsewhere leaves what `owner` owns unchanged. */
  lemma AppendForeign(t: seq<Row>, added: seq<Row>, owner: nat)
    requires forall i :: 0 <= i < |added| ==> added[i].owner != owner
    ensures Owned(t + added, owner) == Owned(t, owner)
  {
    OwnedAppend(t, added, owner);
    OwnedNone(added, owner);
    assert Owned(t, owner) + [] == Owned(t, owner);
  }

  /** Appending rows that all point to a fresh `owner` gives it exactly those rows. */
  lemma AppendFresh(t: seq<Row>, added: seq<Row>, owner: nat)
    requires forall i :: 0 <= i < |t| ==> t[i].owner != owner
    requires forall i :: 0 <= i < |added| ==> added[i].owner == owner
    ensures Owned(t + added, owner) == added
  {
    OwnedAppend(t, added, owner);
    OwnedNone(t, owner);
    OwnedAll(added, owner);
    assert [] + added == added;
  }

  /** The badge loop only appends: the existing rows of both tables stay in place, and one
      badge is added per badge copied. */
  lemma {:induction false} CopyBadgesFromShape(badges: seq<Row>, criteria: seq<Row>, todo: seq<Row>, to: nat)
    decreases |todo|
    ensures |CopyBadgesFrom(badges, criteria, todo, to).0| == |badges| + |todo|
    ensures CopyBadgesFrom(badges, criteria, todo, to).0[..|badges|] == badges
    ensures |CopyBadgesFrom(badges, criteria, todo, to).1| >= |criteria|
    ensures CopyBadgesFrom(badges, criteria, todo, to).1[..|criteria|] == criteria
  {
    if todo == [] {
      assert badges[..|badges|] == badges;
      assert criteria[..|criteria|] == criteria;
    } else {
      var copy := Row(NextId(badges), to, todo[0].data);
      var badges1 := badges + [copy];
      var criteria1 := criteria + Copies(Owned(criteria, todo[0].id), copy.id, NextId(criteria));
      CopyBadgesFromShape(badges1, criteria1, todo[1..], to);
      var (badges', criteria') := CopyBadgesFrom(badges1, criteria1, todo[1..], to);
      assert badges'[..|badges1|][..|badges|] == badges'[..|badges|];
      assert criteria'[..|criteria1|][..|criteria|] == criteria'[..|criteria|];
    }
  }

  /** The badge loop keeps both tables in id order and every criterion pointing to a badge
      that exists. */
  lemma {:induction false} CopyBadgesFromWellFormed(badges: seq<Row>, criteria: seq<Row>, todo: seq<Row>, to: nat)
    requires IdsIncreasing(badges) && IdsIncreasing(criteria)
    requires OwnersBelow(criteria, NextId(badges))
    decreases |todo|
    ensures IdsIncreasing(CopyBadgesFrom(badges, criteria, todo, to).0)
    ensures IdsIncreasing(CopyBadgesFrom(badges, criteria, todo, to).1)
    ensures OwnersBelow(CopyBadgesFrom(badges, criteria, todo, to).1, NextId(CopyBadgesFrom(badges, criteria, todo, to).0))
  {
    if todo != [] {
      var copy := Row(NextId(badges), to, todo[0].data);
      var added := Copies(Owned(criteria, todo[0].id), copy.id, NextId(criteria));
      var badges1, criteria1 := badges + [copy], criteria + added;
      CopiesIncreasing(criteria, Owned(criteria, todo[0].id), copy.id);
      assert NextId(badges1) == copy.id + 1;
      assert OwnersBelow(criteria1, NextId(badges1));
      CopyBadgesFromWellFormed(badges1, criteria1, todo[1..], to);
    }
  }

  /** The badge loop leaves the criteria of every badge that existed before it unchanged. */
  lemma {:induction false} CopyBadgesFromKeeps(badges: seq<Row>, criteria: seq<Row>, todo: seq<Row>, to: nat, id: nat)
    requires id < NextId(badges)
    decreases |todo|
    ensures Owned(CopyBadgesFrom(badges, criteria, todo, to).1, id) == Owned(criteria, id)
  {
    if todo != [] {
      var copy := Row(NextId(badges), to, todo[0].data);
      var added := Copies(Owned(criteria, todo[0].id), copy.id, NextId(criteria));
      AppendForeign(criteria, added, id);
      CopyBadgesFromKeeps(badges + [copy], criteria + added, todo[1..], to, id);
    }
  }

  /** One turn of the badge loop: the copy owns copies of exactly the original's criteria. */
  lemma BadgeStep(badges: seq<Row>, criteria: seq<Row>, original: Row, to: nat)
    requires OwnersBelow(criteria, NextId(badges))
    ensures var copy := Row(NextId(badges), to, original.data);
      var added := Copies(Owned(criteria, original.id), copy.id, NextId(criteria));
      && Owned(criteria + added, copy.id) == added
      && Data(added) == Data(Owned(criteria, original.id))
      && OwnersBelow(criteria + added, NextId(badges + [copy]))
  {
    var copy := Row(NextId(badges), to, original.data);
    var added := Copies(Owned(criteria, original.id), copy.id, NextId(criteria));
    AppendFresh(criteria, added, copy.id);
    assert NextId(badges + [copy]) == copy.id + 1;
  }

  /** The first badge copied yields a copy pointing to `to` whose criteria carry the columns
      of the badge's criteria. */
  lemma FirstBadgeCopied(badges: seq<Row>, criteria: seq<Row>, todo: seq<Row>, to: nat)
    requires todo != []
    requires OwnersBelow(criteria, NextId(badges))
    ensures CopiedBadge(CopyBadgesFrom(badges, criteria, todo, to).1, criteria, todo[0],
                        CopyBadgesFrom(badges, criteria, todo, to).0[|badges|], to)
  {
    var copy := Row(NextId(badges), to, todo[0].data);
    var added := Copies(Owned(criteria, todo[0].id), copy.id, NextId(criteria));
    var badges1, criteria1 := badges + [copy], criteria + added;
    BadgeStep(badges, criteria, todo[0], to);
    CopyBadgesFromShape(badges1, criteria1, todo[1..], to);
    CopyBadgesFromKeeps(badges1, criteria1, todo[1..], to, copy.id);
    var badges' := CopyBadgesFrom(badges1, criteria1, todo[1..], to).0;
    assert badges'[|badges|] == badges'[..|badges1|][|badges|];
  }

  /** The `k`-th badge copied yields a copy, in order, pointing to `to`, whose criteria carry
      the columns of the badge's criteria. */
  lemma {:induction false} CopyBadgesFromCopy(badges: seq<Row>, criteria: seq<Row>, todo: seq<Row>, to: nat, k: nat)
    requires k < |todo|
    requires OwnersBelow(criteria, NextId(badges))
    requires forall j :: 0 <= j < |todo| ==> todo[j].id < NextId(badges)
    decreases k
    ensures CopiedBadge(CopyBadgesFrom(badges, criteria, todo, to).1, criteria, todo[k],
                        CopyBadgesFrom(badges, criteria, todo, to).0[|badges| + k], to)
  {
    if k == 0 {
      FirstBadgeCopied(badges, criteria, todo, to);
    } else {
      var copy := Row(NextId(badges), to, todo[0].data);
      var added := Copies(Owned(criteria, todo[0].id), copy.id, NextId(criteria));
      BadgeStep(badges, criteria, todo[0], to);
      assert todo[k] == todo[1..][k - 1];
      CopyBadgesFromCopy(badges + [copy], criteria + added, todo[1..], to, k - 1);
      AppendForeign(criteria, added, todo[k].id);
      assert |badges| + k == |badges + [copy]| + (k - 1);
    }
  }

  /** The badge-copy property: every badge of the original class yields one copy, in id order,
      pointing to the new class and carrying the original's columns; each copy owns copies of
      exactly the original badge's criteria, in order; the badges that existed keep their
      criteria; and the existing rows of both tables are untouched. */
  lemma CopyBadgesCarryCriteria(badges: seq<Row>, criteria: seq<Row>, from: nat, to: nat)
    requires IdsIncreasing(badges)
    requires OwnersBelow(criteria, NextId(badges))
    ensures var todo := Owned(badges, from);
      forall k :: 0 <= k < |todo| ==>
        CopiedBadge(CopyBadgesFrom(badges, criteria, todo, to).1, criteria, todo[k],
                    CopyBadgesFrom(badges, criteria, todo, to).0[|badges| + k], to)
    ensures forall i :: 0 <= i < |badges| ==>
      Owned(CopyBadgesFrom(badges, criteria, Owned(badges, from), to).1, badges[i].id) == Owned(criteria, badges[i].id)
  {
    var todo := Owned(badges, from);
    OwnedIdsWithin(badges, from, -1, NextId(badges));
    forall k | 0 <= k < |todo|
      ensures CopiedBadge(CopyBadgesFrom(badges, criteria, todo, to).1, criteria, todo[k],
                          CopyBadgesFrom(badges, criteria, todo, to).0[|badges| + k], to)
    {
      CopyBadgesFromCopy(badges, criteria, todo, to, k);
    }
    forall i | 0 <= i < |badges|
      ensures Owned(CopyBadgesFrom(badges, criteria, todo, to).1, badges[i].id) == Owned(criteria, badges[i].id)
    {
      CopyBadgesFromKeeps(badges, criteria, todo, to, badges[i].id);
    }
  }

  // ---------------------------------------------------------------- the action

  /** Integrity of the tables: ids in insertion order in every table, every dependent row
      pointing to an existing class id or below, and every criterion to an existing badge id
      or below. */
  predicate WellFormed(db: Db)
  {
    var next := NextClassId(db.classes);
    && ClassIdsIncreasing(db.classes)
    && IdsIncreasing(db.instructors) && IdsIncreasing(db.tasks)
    && IdsIncreasing(db.widgets) && IdsIncreasing(db.posts)
    && IdsIncreasing(db.badges) && IdsIncreasing(db.criteria)
    && OwnersBelow(db.instructors, next) && OwnersBelow(db.tasks, next)
    && OwnersBelow(db.widgets, next) && OwnersBelow(db.posts, next)
    && OwnersBelow(db.badges, next)
    && OwnersBelow(db.criteria, NextId(db.badges))
  }

  /** The tables after duplicating `original` with copy number `n`. */
  function Duplicated(db: Db, original: ClassRow, n: nat): (r: Db)
    ensures |r.classes| == |db.classes| + 1 && r.classes[..|db.classes|] == db.classes
    ensures r.classes[|db.classes|] == ClassRow(NextClassId(db.classes), CopyCode(original.code, n), original.data)
    ensures |r.badges| == |db.badges| + |Owned(db.badges, original.id)|
  {
    var to := NextClassId(db.classes);
    var (badges, criteria) := CopyBadgesFrom(db.badges, db.criteria, Owned(db.badges, original.id), to);
    Db(db.classes + [ClassRow(to, CopyCode(original.code, n), original.data)],
       CopyOwned(db.instructors, original.id, to),
       CopyOwned(db.tasks, original.id, to),
       CopyOwned(db.widgets, original.id, to),
       CopyOwned(db.posts, original.id, to),
       badges, criteria)
  }

  /** Duplicates one selected class. Returns the new tables and the copy number used. */
  method DuplicateCourseClass(db: Db, original: ClassRow) returns (db': Db, copyNumber: nat)
    ensures IsLeastFree(original.code, Codes(db.classes), copyNumber)
    ensures db' == Duplicated(db, original, copyNumber)
  {
    copyNumber := FreeCopyNumber(original.code, Codes(db.classes));
    var newClass := original.(id := NextClassId(db.classes), code := CopyCode(original.code, copyNumber));
    var classes := db.classes + [newClass];
    var instructors := CopyTable(db.instructors, original.id, newClass.id);
    var tasks := CopyTable(db.tasks, original.id, newClass.id);
    var widgets := CopyTable(db.widgets, original.id, newClass.id);
    var posts := CopyTable(db.posts, original.id, newClass.id);
    var badges, criteria := CopyBadges(db.badges, db.criteria, original.id, newClass.id);
    db' := Db(classes, instructors, tasks, widgets, posts, badges, criteria);
  }

  /** The action over the selection, one class after the other. `steps` are the tables
      before each class is duplicated and after the last one, and `ns` the copy numbers used:
      each selected class is duplicated, as one duplication describes, with the least copy
      number free at its turn. Each selected class adds one class row, whose code differs from
      the code of every class that existed when it was made, the copies made before it
      included; well-formed tables stay well formed. */
  method DuplicateCourseClasses(db: Db, selection: seq<ClassRow>)
    returns (db': Db, ghost steps: seq<Db>, ghost ns: seq<nat>)
    ensures |ns| == |selection| && Follows(selection, steps, ns)
    ensures steps[0] == db && steps[|selection|] == db'
    ensures |db'.classes| == |db.classes| + |selection|
    ensures FreshCodes(db.classes, db'.classes)
    ensures WellFormed(db) ==> WellFormed(db')
  {
    db' := db;
    steps := [db];
    ns := [];
    for i := 0 to |selection|
      invariant |ns| == i && Follows(selection, steps, ns)
      invariant steps[0] == db && steps[i] == db'
      invariant |db'.classes| == |db.classes| + i
      invariant FreshCodes(db.classes, db'.classes)
      invariant WellFormed(db) ==> WellFormed(db')
    {
      var before := db';
      var n;
      db', n := DuplicateCourseClass(db', selection[i]);
      DuplicatedCode(before, selection[i], n);
      if WellFormed(before) {
        DuplicatedWellFormed(before, selection[i], n);
      }
      ExtendDistinctCodes(db.classes, before.classes, db'.classes);
      FollowsExtend(selection, steps, ns, n, db');
      steps := steps + [db'];
      ns := ns + [n];
    }
  }

  /** `steps` are the tables before and after each of the first `|ns|` selected classes is
      duplicated, each with the least copy number free at its turn. */
  predicate Follows(selection: seq<ClassRow>, steps: seq<Db>, ns: seq<nat>)
  {
    && |steps| == |ns| + 1 && |ns| <= |selection|
    && forall j :: 0 <= j < |ns| ==>
      && IsLeastFree(selection[j].code, Codes(steps[j].classes), ns[j])
      && steps[j + 1] == Duplicated(steps[j], selection[j], ns[j])
  }

  lemma FollowsExtend(selection: seq<ClassRow>, steps: seq<Db>, ns: seq<nat>, n: nat, next: Db)
    requires Follows(selection, steps, ns) && |ns| < |selection|
    requires IsLeastFree(selection[|ns|].code, Codes(steps[|ns|].classes), n)
    requires next == Duplicated(steps[|ns|], selection[|ns|], n)
    ensures Follows(selection, steps + [next], ns + [n])
  {
    var steps', ns' := steps + [next], ns + [n];
    forall j | 0 <= j < |ns'|
      ensures IsLeastFree(selection[j].code, Codes(steps'[j].classes), ns'[j])
      ensures steps'[j + 1] == Duplicated(steps'[j], selection[j], ns'[j])
    {
      if j < |ns| {
        assert steps'[j] == steps[j] && steps'[j + 1] == steps[j + 1] && ns'[j] == ns[j];
      }
    }
  }

  /** `classes` starts with `prior`, and every class after those has a code that no class
      before it has. */
  predicate FreshCodes(prior: seq<ClassRow>, classes: seq<ClassRow>)
  {
    && |prior| <= |classes| && classes[..|prior|] == prior
    && forall k :: |prior| <= k < |classes| ==> classes[k].code !in Codes(classes[..k])
  }

  /** Appending one class whose code no earlier class has keeps the codes from `prior`'s length on
      distinct from every code before them. */
  lemma ExtendDistinctCodes(prior: seq<ClassRow>, before: seq<ClassRow>, after: seq<ClassRow>)
    requires FreshCodes(prior, before)
    requires |after| == |before| + 1 && after[..|before|] == before
    requires after[|before|].code !in Codes(before)
    ensures FreshCodes(prior, after)
  {
    assert after[..|prior|] == before[..|prior|];
    forall k | |prior| <= k < |after|
      ensures after[k].code !in Codes(after[..k])
    {
      if k < |before| {
        assert after[..k] == before[..k];
        assert after[k] == before[k];
      } else {
        assert after[..k] == before;
      }
    }
  }

  /** Copying a table's rows to the class `to` keeps it in id order, and every row points
      to `to` or below. */
  lemma CopyOwnedWellFormed(t: seq<Row>, from: nat, to: nat)
    requires IdsIncreasing(t) && OwnersBelow(t, to)
    ensures IdsIncreasing(CopyOwned(t, from, to))
    ensures OwnersBelow(CopyOwned(t, from, to), to + 1)
  {
    CopiesIncreasing(t, Owned(t, from), to);
  }

  /** Copying a class's badges to the class `to` keeps both tables in id order, every badge
      pointing to `to` or below and every criterion to an existing badge. */
  lemma CopyBadgesWellFormed(badges: seq<Row>, criteria: seq<Row>, from: nat, to: nat)
    requires IdsIncreasing(badges) && IdsIncreasing(criteria)
    requires OwnersBelow(badges, to) && OwnersBelow(criteria, NextId(badges))
    ensures var (badges', criteria') := CopyBadgesFrom(badges, criteria, Owned(badges, from), to);
      && IdsIncreasing(badges') && IdsIncreasing(criteria')
      && OwnersBelow(badges', to + 1) && OwnersBelow(criteria', NextId(badges'))
  {
    var todo := Owned(badges, from);
    var badges' := CopyBadgesFrom(badges, criteria, todo, to).0;
    CopyBadgesFromWellFormed(badges, criteria, todo, to);
    CopyBadgesFromShape(badges, criteria, todo, to);
    OwnedIdsWithin(badges, from, -1, NextId(badges));
    forall i | 0 <= i < |badges'| ensures badges'[i].owner < to + 1 {
      if i < |badges| {
        assert badges'[i] == badges'[..|badges|][i];
      } else {
        CopyBadgesFromCopy(badges, criteria, todo, to, i - |badges|);
      }
    }
  }

  /** Duplicating keeps the tables well formed, so the selection can be duplicated one class
      after the other. */
  lemma DuplicatedWellFormed(db: Db, original: ClassRow, n: nat)
    requires WellFormed(db)
    ensures WellFormed(Duplicated(db, original, n))
  {
    var to := NextClassId(db.classes);
    var db' := Duplicated(db, original, n);
    assert db'.classes == db.classes + [ClassRow(to, CopyCode(original.code, n), original.data)];
    assert NextClassId(db'.classes) == to + 1;
    CopyOwnedWellFormed(db.instructors, original.id, to);
    CopyOwnedWellFormed(db.tasks, original.id, to);
    CopyOwnedWellFormed(db.widgets, original.id, to);
    CopyOwnedWellFormed(db.posts, original.id, to);
    CopyBadgesWellFormed(db.badges, db.criteria, original.id, to);
  }

  /** The new class: appended after the existing ones, with a code no existing class has. */
  lemma DuplicatedCode(db: Db, original: ClassRow, n: nat)
    requires IsLeastFree(original.code, Codes(db.classes), n)
    ensures var classes' := Duplicated(db, original, n).classes;
      && |classes'| == |db.classes| + 1
      && classes'[..|db.classes|] == db.classes
      && classes'[|db.classes|].code !in Codes(db.classes)
  {
    var classes' := Duplicated(db, original, n).classes;
    assert classes'[..|db.classes|] == db.classes;
  }

  /** The copied tables: each of the original class's instructors, tasks, widgets and posts
      has one copy in the new class, in id order and with the same columns, and the original
      class keeps exactly its own rows. */
  lemma DuplicatedTables(db: Db, original: ClassRow, n: nat)
    requires WellFormed(db)
    requires original.id < NextClassId(db.classes)
    ensures var db' := Duplicated(db, original, n);
      var to := NextClassId(db.classes);
      && Data(Owned(db'.instructors, to)) == Data(Owned(db.instructors, original.id))
      && Data(Owned(db'.tasks, to)) == Data(Owned(db.tasks, original.id))
      && Data(Owned(db'.widgets, to)) == Data(Owned(db.widgets, original.id))
      && Data(Owned(db'.posts, to)) == Data(Owned(db.posts, original.id))
    ensures var db' := Duplicated(db, original, n);
      && Owned(db'.instructors, original.id) == Owned(db.instructors, original.id)
      && Owned(db'.tasks, original.id) == Owned(db.tasks, original.id)
      && Owned(db'.widgets, original.id) == Owned(db.widgets, original.id)
      && Owned(db'.posts, original.id) == Owned(db.posts, original.id)
  {
    var to := NextClassId(db.classes);
    CopyOwnedFacts(db.instructors, original.id, to);
    CopyOwnedFacts(db.tasks, original.id, to);
    CopyOwnedFacts(db.widgets, original.id, to);
    CopyOwnedFacts(db.posts, original.id, to);
  }

  /** The copied badges: each badge of the original class has one copy in the new class, in
      id order, whose criteria carry the columns of the original badge's criteria; every badge
      that existed keeps its criteria. */
  lemma DuplicatedBadges(db: Db, original: ClassRow, n: nat)
    requires WellFormed(db)
    ensures var db' := Duplicated(db, original, n);
      var todo := Owned(db.badges, original.id);
      forall k :: 0 <= k < |todo| ==>
        CopiedBadge(db'.criteria, db.criteria, todo[k], db'.badges[|db.badges| + k], NextClassId(db.classes))
    ensures var db' := Duplicated(db, original, n);
      forall i :: 0 <= i < |db.badges| ==> Owned(db'.criteria, db.badges[i].id) == Owned(db.criteria, db.badges[i].id)
  {
    CopyBadgesCarryCriteria(db.badges, db.criteria, original.id, NextClassId(db.classes));
  }
}
