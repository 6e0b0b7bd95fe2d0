/**
 * The class ranking shown on a course class page (`course_class`).
 *
 * The query groups the grades of the class by student and sums, per student,
 * the task points times the grade percentage, a canceled grade counting 0. It
 * ranks the students with a `Rank` window over the totals (competition
 * ranking: equal totals share a rank and the next rank skips as many places
 * as were shared), orders the rows by total descending and then by full name,
 * and keeps the first `ranking_size` rows. The window is computed before the
 * limit, so ranks count every student of the class.
 */
module Ranking {
  import opened Seqs

  /** The student a grade belongs to, as the query groups it: id and full name. */
  datatype Student = Student(id: nat, fullName: string)

  /** A grade row joined with its enrollment and its assignment task. */
  datatype GradeRow = GradeRow(student: Student, courseClass: nat, percentage: real, canceled: bool, points: int)

  /** A student of the class with the student's total. */
  datatype Entry = Entry(student: Student, total: real)

  /** One row of the ranking. */
  datatype RankedRow = RankedRow(studentId: nat, fullName: string, total: real, rank: nat)

  // ---------------------------------------------------------------- totals

  /** One grade's part of a total: 0 when canceled, otherwise percentage times points. */
  function Contribution(g: GradeRow): (r: real)
    ensures g.canceled ==> r == 0.0
    ensures 0.0 <= g.percentage <= 1.0 && g.points >= 0 ==> 0.0 <= r <= g.points as real
  {
    (if g.canceled then 0.0 else g.percentage) * g.points as real
  }

  function InClassOf(g: GradeRow, courseClass: nat, s: Student): bool
  {
    g.courseClass == courseClass && g.student == s
  }

  /** The sum of the contributions of the grades of student `s` in the class. */
  function Total(grades: seq<GradeRow>, courseClass: nat, s: Student): (r: real)
    ensures (forall i :: 0 <= i < |grades| ==> !InClassOf(grades[i], courseClass, s)) ==> r == 0.0
  {
    if grades == [] then 0.0
    else
      var own := if InClassOf(grades[0], courseClass, s) then Contribution(grades[0]) else 0.0;
      own + Total(grades[1..], courseClass, s)
  }

  /** The students with at least one grade in the class, each once: the groups of the query. */
  function Participants(grades: seq<GradeRow>, courseClass: nat): (r: seq<Student>)
    ensures NoDuplicates(r)
    ensures forall s :: s in r <==> exists i :: 0 <= i < |grades| && InClassOf(grades[i], courseClass, s)
  {
    if grades == [] then []
    else
      var rest := Participants(grades[1..], courseClass);
      assert forall i :: 0 < i < |grades| ==> grades[i] == grades[1..][i - 1];
      assert forall s, i :: 0 <= i < |grades[1..]| && InClassOf(grades[1..][i], courseClass, s) ==>
        InClassOf(grades[i + 1], courseClass, s);
      if grades[0].courseClass == courseClass && grades[0].student !in rest then [grades[0].student] + rest
      else rest
  }

  /** Each participant with the participant's total. */
  function Entries(students: seq<Student>, grades: seq<GradeRow>, courseClass: nat): (r: seq<Entry>)
    ensures |r| == |students|
    ensures forall i :: 0 <= i < |students| ==> r[i] == Entry(students[i], Total(grades, courseClass, students[i]))
  {
    seq(|students|, i requires 0 <= i < |students| => Entry(students[i], Total(grades, courseClass, students[i])))
  }

  // ---------------------------------------------------------------- rank

  /** How many entries have a total greater than `t`. */
  function CountAbove(entries: seq<Entry>, t: real): (n: nat)
    ensures n <= |entries|
  {
    if entries == [] then 0
    else (if entries[0].total > t then 1 else 0) + CountAbove(entries[1..], t)
  }

  /** The `Rank` window: one more than the number of entries with a greater total. */
  function RankOf(entries: seq<Entry>, t: real): (r: nat)
    ensures 1 <= r <= |entries| + 1
  {
    1 + CountAbove(entries, t)
  }

  // ---------------------------------------------------------------- order

  /** Lexicographic order on names, by character code. */
  predicate NameLe(a: string, b: string)
  {
    a == [] || (b != [] && (a[0] < b[0] || (a[0] == b[0] && NameLe(a[1..], b[1..]))))
  }

  lemma {:induction false} NameLeTotal(a: string, b: string)
    ensures NameLe(a, b) || NameLe(b, a)
  {
    if a != [] && b != [] && a[0] == b[0] {
      NameLeTotal(a[1..], b[1..]);
    }
  }

  lemma {:induction false} NameLeAntisymmetric(a: string, b: string)
    requires NameLe(a, b) && NameLe(b, a)
    ensures a == b
  {
    if a != [] && b != [] {
      NameLeAntisymmetric(a[1..], b[1..]);
      assert a == [a[0]] + a[1..] && b == [b[0]] + b[1..];
    }
  }

  /** `ORDER BY total DESC, full_name`; rows equal on both come by student id. */
  predicate Precedes(a: Entry, b: Entry)
    ensures Precedes(a, b) ==> a.total >= b.total
  {
    || a.total > b.total
    || (a.total == b.total && a.student.fullName != b.student.fullName && NameLe(a.student.fullName, b.student.fullName))
    || (a.total == b.total && a.student.fullName == b.student.fullName && a.student.id <= b.student.id)
  }

  lemma PrecedesTotal(a: Entry, b: Entry)
    ensures Precedes(a, b) || Precedes(b, a)
  {
    NameLeTotal(a.student.fullName, b.student.fullName);
  }

  predicate Sorted(s: seq<Entry>)
  {
    forall i :: 0 < i < |s| ==> Precedes(s[i - 1], s[i])
  }

  function Insert(x: Entry, s: seq<Entry>): (r: seq<Entry>)
    ensures |r| == |s| + 1
    ensures r[0] == x || (s != [] && r[0] == s[0])
    ensures multiset(r) == multiset(s) + multiset{x}
  {
    if s == [] || Precedes(x, s[0]) then [x] + s
    else
      var rest := Insert(x, s[1..]);
      assert s == [s[0]] + s[1..];
      [s[0]] + rest
  }

  lemma {:induction false} InsertSorted(x: Entry, s: seq<Entry>)
    requires Sorted(s)
    ensures Sorted(Insert(x, s))
  {
    if s != [] && !Precedes(x, s[0]) {
      PrecedesTotal(x, s[0]);
      InsertSorted(x, s[1..]);
    }
  }

  /** The rows in ranking order. */
  function Sort(s: seq<Entry>): (r: seq<Entry>)
    ensures |r| == |s|
    ensures multiset(r) == multiset(s)
  {
    if s == [] then []
    else
      var rest := Sort(s[1..]);
      assert s == [s[0]] + s[1..];
      Insert(s[0], rest)
  }

  lemma {:induction false} SortSorted(s: seq<Entry>)
    ensures Sorted(Sort(s))
  {
    if s != [] {
      SortSorted(s[1..]);
      InsertSorted(s[0], Sort(s[1..]));
    }
  }

  // ---------------------------------------------------------------- the ranking

  function Min(a: nat, b: nat): nat
  {
    if a <= b then a else b
  }

  /** The rows in order, each with its rank among all `entries`. */
  function Annotate(sorted: seq<Entry>, entries: seq<Entry>): (r: seq<RankedRow>)
    ensures |r| == |sorted|
    ensures forall i :: 0 <= i < |sorted| ==>
      r[i] == RankedRow(sorted[i].student.id, sorted[i].student.fullName, sorted[i].total, RankOf(entries, sorted[i].total))
  {
    seq(|sorted|, i requires 0 <= i < |sorted| =>
      RankedRow(sorted[i].student.id, sorted[i].student.fullName, sorted[i].total, RankOf(entries, sorted[i].total)))
  }

  function ClassEntries(grades: seq<GradeRow>, courseClass: nat): seq<Entry>
  {
    Entries(Participants(grades, courseClass), grades, courseClass)
  }

  /** The query's result for a class and its `ranking_size`. */
  function Ranking(grades: seq<GradeRow>, courseClass: nat, size: nat): (r: seq<RankedRow>)
    ensures |r| == Min(size, |Participants(grades, courseClass)|)
  {
    var entries := ClassEntries(grades, courseClass);
    Annotate(Sort(entries), entries)[..Min(size, |entries|)]
  }

  // ---------------------------------------------------------------- rank lemmas

  lemma {:induction false} CountAboveAppend(a: seq<Entry>, b: seq<Entry>, t: real)
    ensures CountAbove(a + b, t) == CountAbove(a, t) + CountAbove(b, t)
  {
    if a == [] {
      assert a + b == b;
    } else {
      assert (a + b)[1..] == a[1..] + b;
      CountAboveAppend(a[1..], b, t);
    }
  }

  /** Taking out the `k`-th entry takes out its part of the count and its occurrence. */
  lemma CountAboveRemove(b: seq<Entry>, k: nat, t: real)
    requires k < |b|
    ensures CountAbove(b, t) == CountAbove(b[..k] + b[k + 1..], t) + (if b[k].total > t then 1 else 0)
    ensures multiset(b) == multiset(b[..k] + b[k + 1..]) + multiset{b[k]}
  {
    assert b == b[..k] + [b[k]] + b[k + 1..];
    CountAboveAppend(b[..k] + [b[k]], b[k + 1..], t);
    CountAboveAppend(b[..k], [b[k]], t);
    CountAboveAppend(b[..k], b[k + 1..], t);
  }

  /** The count does not depend on the order of the entries. */
  lemma {:induction false} CountAbovePermutation(a: seq<Entry>, b: seq<Entry>, t: real)
    requires multiset(a) == multiset(b)
    decreases |a|
    ensures CountAbove(a, t) == CountAbove(b, t)
  {
    if a == [] {
      assert |b| == |multiset(b)| == 0;
    } else {
      assert a == [a[0]] + a[1..];
      assert multiset(a) == multiset(a[1..]) + multiset{a[0]};
      assert a[0] in multiset(b);
      var k :| 0 <= k < |b| && b[k] == a[0];
      CountAboveRemove(b, k, t);
      assert multiset(a[1..]) == multiset(a) - multiset{a[0]};
      assert multiset(b[..k] + b[k + 1..]) == multiset(b) - multiset{b[k]};
      CountAbovePermutation(a[1..], b[..k] + b[k + 1..], t);
    }
  }

  lemma {:induction false} CountAboveNone(s: seq<Entry>, t: real)
    requires forall i :: 0 <= i < |s| ==> s[i].total <= t
    ensures CountAbove(s, t) == 0
  {
    if s != [] {
      CountAboveNone(s[1..], t);
    }
  }

  lemma {:induction false} CountAboveAll(s: seq<Entry>, t: real)
    requires forall i :: 0 <= i < |s| ==> s[i].total > t
    ensures CountAbove(s, t) == |s|
  {
    if s != [] {
      CountAboveAll(s[1..], t);
    }
  }

  /** A greater total never has a greater rank, and a total some entry reaches has a rank
      strictly smaller than every smaller total. */
  lemma {:induction false} RankMonotone(entries: seq<Entry>, x: real, y: real)
    requires x <= y
    ensures RankOf(entries, y) <= RankOf(entries, x)
  {
    if entries != [] {
      RankMonotone(entries[1..], x, y);
    }
  }

  lemma {:induction false} RankStrict(entries: seq<Entry>, x: real, k: nat)
    requires k < |entries| && x < entries[k].total
    ensures RankOf(entries, entries[k].total) < RankOf(entries, x)
  {
    var y := entries[k].total;
    if k == 0 {
      RankMonotone(entries[1..], x, y);
    } else {
      RankStrict(entries[1..], x, k - 1);
    }
  }

  /** In the sorted rows, totals never increase. */
  lemma {:induction false} SortedTotalsDescend(s: seq<Entry>)
    requires Sorted(s)
    ensures forall i, j :: 0 <= i <= j < |s| ==> s[i].total >= s[j].total
  {
    if s != [] {
      SortedTotalsDescend(s[1..]);
      forall i, j | 0 <= i <= j < |s| ensures s[i].total >= s[j].total {
        if 0 < i {
          assert s[i] == s[1..][i - 1] && s[j] == s[1..][j - 1];
        } else if 0 < j {
          assert s[1] == s[1..][0] && s[j] == s[1..][j - 1];
        }
      }
    }
  }

  /** In the sorted rows, the entries above the `k`-th total all come before it: its rank is
      at most `k + 1`, and exactly `k + 1` when the row before has a greater total. */
  lemma SortedRank(s: seq<Entry>, k: nat)
    requires Sorted(s) && k < |s|
    ensures RankOf(s, s[k].total) <= k + 1
    ensures k == 0 || s[k - 1].total > s[k].total ==> RankOf(s, s[k].total) == k + 1
  {
    var t := s[k].total;
    SortedTotalsDescend(s);
    assert s == s[..k] + s[k..];
    CountAboveAppend(s[..k], s[k..], t);
    CountAboveNone(s[k..], t);
    if k == 0 || s[k - 1].total > t {
      CountAboveAll(s[..k], t);
    }
  }

  /** Ranks count ties: totals 80, 80 and 60 rank 1, 1 and 3, not 1, 1 and 2. */
  lemma CompetitionRanking(a: Student, b: Student, c: Student)
    ensures var entries := [Entry(a, 80.0), Entry(b, 80.0), Entry(c, 60.0)];
      RankOf(entries, 80.0) == 1 && RankOf(entries, 60.0) == 3
  {
    var entries := [Entry(a, 80.0), Entry(b, 80.0), Entry(c, 60.0)];
    var rest := [Entry(b, 80.0), Entry(c, 60.0)];
    var last := [Entry(c, 60.0)];
    assert entries[1..] == rest && rest[1..] == last && last[1..] == [];
    assert CountAbove(last, 80.0) == 0 && CountAbove(last, 60.0) == 0;
    assert CountAbove(rest, 80.0) == 0 && CountAbove(rest, 60.0) == 1;
  }

  // ---------------------------------------------------------------- ranking lemmas

  lemma EntriesFacts(grades: seq<GradeRow>, courseClass: nat)
    ensures var entries := ClassEntries(grades, courseClass);
      forall e :: e in multiset(entries) ==>
        e.student in Participants(grades, courseClass) && e.total == Total(grades, courseClass, e.student)
  {
  }

  /** Rows come by total descending, and rows with equal totals by full name. */
  lemma RankingOrder(grades: seq<GradeRow>, courseClass: nat, size: nat)
    ensures var r := Ranking(grades, courseClass, size);
      forall i :: 0 < i < |r| ==>
        r[i - 1].total >= r[i].total &&
        (r[i - 1].total == r[i].total ==> NameLe(r[i - 1].fullName, r[i].fullName))
  {
    var entries := ClassEntries(grades, courseClass);
    var sorted := Sort(entries);
    var r := Ranking(grades, courseClass, size);
    SortSorted(entries);
    forall i | 0 < i < |r|
      ensures r[i - 1].total >= r[i].total
      ensures r[i - 1].total == r[i].total ==> NameLe(r[i - 1].fullName, r[i].fullName)
    {
      assert Precedes(sorted[i - 1], sorted[i]);
      assert r[i - 1].fullName == sorted[i - 1].student.fullName && r[i].fullName == sorted[i].student.fullName;
      if sorted[i - 1].student.fullName == sorted[i].student.fullName {
        NameLeTotal(r[i].fullName, r[i].fullName);
      }
    }
  }

  /** Every row is a student with a grade in the class, with that student's total. */
  lemma RankingMembers(grades: seq<GradeRow>, courseClass: nat, size: nat)
    ensures var r := Ranking(grades, courseClass, size);
      forall i :: 0 <= i < |r| ==>
        var s := Student(r[i].studentId, r[i].fullName);
        && (exists j :: 0 <= j < |grades| && InClassOf(grades[j], courseClass, s))
        && r[i].total == Total(grades, courseClass, s)
  {
    var entries := ClassEntries(grades, courseClass);
    var sorted := Sort(entries);
    var r := Ranking(grades, courseClass, size);
    EntriesFacts(grades, courseClass);
    forall i | 0 <= i < |r|
      ensures var s := Student(r[i].studentId, r[i].fullName);
        && (exists j :: 0 <= j < |grades| && InClassOf(grades[j], courseClass, s))
        && r[i].total == Total(grades, courseClass, s)
    {
      assert sorted[i] in multiset(sorted);
      assert sorted[i].student == Student(r[i].studentId, r[i].fullName);
    }
  }

  /** Rank values: the first row ranks 1; a row ranks at most one more than its position;
      equal totals share a rank; after a strictly smaller total the rank is the row's
      position plus one, so the ranks skip the places the tie took. */
  lemma RankingRanks(grades: seq<GradeRow>, courseClass: nat, size: nat)
    ensures var r := Ranking(grades, courseClass, size);
      forall i :: 0 <= i < |r| ==> 1 <= r[i].rank <= i + 1
    ensures var r := Ranking(grades, courseClass, size);
      forall i :: 0 < i < |r| ==>
        && (r[i - 1].total == r[i].total ==> r[i - 1].rank == r[i].rank)
        && (r[i - 1].total > r[i].total ==> r[i].rank == i + 1 && r[i - 1].rank < r[i].rank)
  {
    var entries := ClassEntries(grades, courseClass);
    var sorted := Sort(entries);
    var r := Ranking(grades, courseClass, size);
    SortSorted(entries);
    forall i | 0 <= i < |r|
      ensures r[i].rank == RankOf(sorted, sorted[i].total)
      ensures r[i].rank <= i + 1
      ensures i > 0 && sorted[i - 1].total > sorted[i].total ==> r[i].rank == i + 1
    {
      CountAbovePermutation(entries, sorted, sorted[i].total);
      SortedRank(sorted, i);
    }
  }

  /** Where a participant sits in the sorted rows. */
  lemma SortedPosition(grades: seq<GradeRow>, courseClass: nat, s: Student) returns (j: nat)
    requires s in Participants(grades, courseClass)
    ensures j < |Sort(ClassEntries(grades, courseClass))|
    ensures Sort(ClassEntries(grades, courseClass))[j] == Entry(s, Total(grades, courseClass, s))
  {
    var students := Participants(grades, courseClass);
    var entries := ClassEntries(grades, courseClass);
    var sorted := Sort(entries);
    var k :| 0 <= k < |students| && students[k] == s;
    assert entries[k] in multiset(sorted);
    j :| 0 <= j < |sorted| && sorted[j] == entries[k];
  }

  /** The `i`-th row shows the `i`-th sorted entry. */
  lemma RankingRow(grades: seq<GradeRow>, courseClass: nat, size: nat, i: nat)
    requires i < |Ranking(grades, courseClass, size)|
    ensures var sorted := Sort(ClassEntries(grades, courseClass));
      var row := Ranking(grades, courseClass, size)[i];
      && i < |sorted|
      && Student(row.studentId, row.fullName) == sorted[i].student
      && row.total == sorted[i].total
  {
  }

  /** Truncating keeps the best: a student of the class left out of the ranking has a total
      no greater than any row's. */
  lemma RankingKeepsBest(grades: seq<GradeRow>, courseClass: nat, size: nat, s: Student)
    requires s in Participants(grades, courseClass)
    requires var r := Ranking(grades, courseClass, size);
      forall i :: 0 <= i < |r| ==> Student(r[i].studentId, r[i].fullName) != s
    ensures var r := Ranking(grades, courseClass, size);
      forall i :: 0 <= i < |r| ==> Total(grades, courseClass, s) <= r[i].total
  {
    var entries := ClassEntries(grades, courseClass);
    var sorted := Sort(entries);
    var r := Ranking(grades, courseClass, size);
    var j := SortedPosition(grades, courseClass, s);
    if j < |r| {
      RankingRow(grades, courseClass, size, j);
      assert false;
    }
    SortSorted(entries);
    SortedTotalsDescend(sorted);
    forall i | 0 <= i < |r| ensures Total(grades, courseClass, s) <= r[i].total {
      RankingRow(grades, courseClass, size, i);
    }
  }

  /** With room for everyone, every student of the class is ranked. */
  lemma RankingComplete(grades: seq<GradeRow>, courseClass: nat, size: nat, s: Student)
    requires s in Participants(grades, courseClass)
    requires size >= |Participants(grades, courseClass)|
    ensures var r := Ranking(grades, courseClass, size);
      exists i :: 0 <= i < |r| && Student(r[i].studentId, r[i].fullName) == s
  {
    var r := Ranking(grades, courseClass, size);
    var j := SortedPosition(grades, courseClass, s);
    assert Student(r[j].studentId, r[j].fullName) == s;
  }
}
