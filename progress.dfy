/**
 * The student's progress report (`assignment_tasks_data` and
 * `assignment_items_data`): per task the points it is worth and the points the
 * student earned, per assignment the totals and the percentage.
 *
 * Grade percentages are fractions, held here as exact reals; Python's `round`
 * (half to even) is written out. Query results are given as sequences in the
 * order the queries return them.
 */
module Progress {
  import opened Wrappers

  /** A grade of one enrollment on one assignment task. */
  datatype Grade = Grade(enrollment: nat, percentage: real, canceled: bool)

  /** An assignment task with its grades in id order. */
  datatype Task = Task(name: string, points: int, optional: bool, grades: seq<Grade>)

  /** An assignment with its tasks in `ordered_assignment_tasks()` order. */
  datatype Assignment = Assignment(name: string, description: string, tasks: seq<Task>)

  /** One entry of `assignment_tasks_data`. */
  datatype TaskData = TaskData(
    name: string, taskPoints: int, optional: bool,
    gradePercentage: Option<int>, gradePoints: int, canceled: bool)

  /** One entry of `assignment_items_data`. */
  datatype AssignmentData = AssignmentData(
    name: string, description: string, tasks: seq<TaskData>,
    totalTaskPoints: int, totalGradePoints: int, totalGradePercentage: real)

  // ---------------------------------------------------------------- rounding

  /** Python's `round` of a number to an integer: to the nearest, ties to the even one. */
  function Round(x: real): (n: int)
    ensures x - 0.5 <= n as real <= x + 0.5
    ensures x - x.Floor as real != 0.5 ==> x - 0.5 < n as real < x + 0.5
    ensures x - x.Floor as real == 0.5 ==> n % 2 == 0
  {
    var f := x.Floor;
    var frac := x - f as real;
    if frac < 0.5 then f
    else if frac > 0.5 then f + 1
    else if f % 2 == 0 then f
    else f + 1
  }

  lemma RoundInteger(n: int)
    ensures Round(n as real) == n
  {
    assert (n as real).Floor == n;
  }

  lemma RoundMonotone(x: real, y: real)
    requires x <= y
    ensures Round(x) <= Round(y)
  {
    var fx, fy := x.Floor, y.Floor;
    if fx == fy {
      assert x - fx as real <= y - fy as real;
    }
  }

  /** Every half rounds to the even one of its two neighbours. */
  lemma RoundTiesToEven(k: int)
    ensures Round(k as real + 0.5) == if k % 2 == 0 then k else k + 1
  {
    assert (k as real + 0.5).Floor == k;
  }

  /** `n * p` for an integer `n`, written as `n` additions of `p` so that the verifier
      reasons about it linearly; `ScaleIsProduct` ties it to the product. */
  function Scale(n: int, p: real): real
    decreases if n >= 0 then n else -n
  {
    if n == 0 then 0.0 else if n > 0 then Scale(n - 1, p) + p else Scale(n + 1, p) - p
  }

  lemma {:induction false} ScaleIsProduct(n: int, p: real)
    decreases if n >= 0 then n else -n
    ensures Scale(n, p) == n as real * p
  {
    if n > 0 {
      ScaleIsProduct(n - 1, p);
      assert (n - 1) as real * p + p == n as real * p;
    } else if n < 0 {
      ScaleIsProduct(n + 1, p);
      assert (n + 1) as real * p - p == n as real * p;
    }
  }

  // ---------------------------------------------------------------- one task

  /** `grade_set.filter(enrollment=...).first()`: the enrollment's first grade. */
  function FirstGrade(grades: seq<Grade>, enrollment: nat): (g: Option<Grade>)
    ensures g.None? <==> forall i :: 0 <= i < |grades| ==> grades[i].enrollment != enrollment
    ensures g.Some? ==>
      exists i :: 0 <= i < |grades| && grades[i] == g.value && grades[i].enrollment == enrollment &&
        forall j :: 0 <= j < i ==> grades[j].enrollment != enrollment
  {
    if grades == [] then None
    else if grades[0].enrollment == enrollment then Some(grades[0])
    else
      var rest := FirstGrade(grades[1..], enrollment);
      assert forall i :: 0 < i < |grades| ==> grades[i] == grades[1..][i - 1];
      rest
  }

  /** The entry for task `t`: its name, points and optional flag; with no grade, no
      percentage, no points and not canceled; with a grade, the rounded percentage, the
      rounded share of the task's points, and the grade's canceled flag. */
  predicate Describes(t: Task, enrollment: nat, d: TaskData)
  {
    && d.name == t.name && d.taskPoints == t.points && d.optional == t.optional
    && (FirstGrade(t.grades, enrollment).None? ==>
         d.gradePercentage.None? && d.gradePoints == 0 && !d.canceled)
    && (FirstGrade(t.grades, enrollment).Some? ==>
         var g := FirstGrade(t.grades, enrollment).value;
         && d.gradePercentage == Some(Round(g.percentage * 100.0))
         && d.gradePoints == Round(Scale(t.points, g.percentage))
         && d.canceled == g.canceled)
  }

  /** One entry per task, in task order, each describing its task. */
  predicate Reports(tasks: seq<Task>, enrollment: nat, data: seq<TaskData>)
  {
    |data| == |tasks| && forall i :: 0 <= i < |tasks| ==> Describes(tasks[i], enrollment, data[i])
  }

  method AssignmentTasksData(tasks: seq<Task>, enrollment: nat) returns (data: seq<TaskData>)
    ensures Reports(tasks, enrollment, data)
  {
    data := [];
    for i := 0 to |tasks|
      invariant Reports(tasks[..i], enrollment, data)
    {
      var task := tasks[i];
      var grade := FirstGrade(task.grades, enrollment);
      var entry;
      if grade != None {
        entry := TaskData(task.name, task.points, task.optional,
          Some(Round(grade.value.percentage * 100.0)),
          Round(Scale(task.points, grade.value.percentage)),
          grade.value.canceled);
      } else {
        entry := TaskData(task.name, task.points, task.optional, None, 0, false);
      }
      assert Describes(tasks[i], enrollment, entry);
      assert tasks[..i + 1] == tasks[..i] + [tasks[i]];
      data := data + [entry];
    }
    assert tasks[..|tasks|] == tasks;
  }

  // ---------------------------------------------------------------- totals

  /** `reduce(lambda x, y: x + (y['task_points'] if not y['is_optional'] else 0), data, acc)`:
      adds to `acc` the points of the tasks that are not optional. */
  function FoldTaskPoints(acc: int, data: seq<TaskData>): (r: int)
    decreases |data|
    ensures r == acc + RequiredPoints(data)
  {
    if data == [] then acc
    else
      assert data == [data[0]] + data[1..];
      RequiredPointsCons(data[0], data[1..]);
      FoldTaskPoints(acc + (if !data[0].optional then data[0].taskPoints else 0), data[1..])
  }

  /** `reduce(lambda x, y: x + y['grade_points'] if not y['grade_is_canceled'] else x, data, acc)`:
      adds to `acc` the points earned on tasks whose grade is not canceled, optional tasks
      included. */
  function FoldGradePoints(acc: int, data: seq<TaskData>): (r: int)
    decreases |data|
    ensures r == acc + EarnedPoints(data)
  {
    if data == [] then acc
    else
      assert data == [data[0]] + data[1..];
      EarnedPointsCons(data[0], data[1..]);
      FoldGradePoints(if !data[0].canceled then acc + data[0].gradePoints else acc, data[1..])
  }

  /** The points of the tasks that are not optional. */
  function RequiredPoints(data: seq<TaskData>): int
  {
    if data == [] then 0
    else
      var last := data[|data| - 1];
      RequiredPoints(data[..|data| - 1]) + (if last.optional then 0 else last.taskPoints)
  }

  /** The points earned on tasks whose grade is not canceled, optional tasks included. */
  function EarnedPoints(data: seq<TaskData>): int
  {
    if data == [] then 0
    else
      var last := data[|data| - 1];
      EarnedPoints(data[..|data| - 1]) + (if last.canceled then 0 else last.gradePoints)
  }

  lemma {:induction false} RequiredPointsCons(d: TaskData, data: seq<TaskData>)
    decreases |data|
    ensures RequiredPoints([d] + data) == (if d.optional then 0 else d.taskPoints) + RequiredPoints(data)
  {
    if data != [] {
      var init := data[..|data| - 1];
      assert ([d] + data)[..|data|] == [d] + init;
      RequiredPointsCons(d, init);
    }
  }

  lemma {:induction false} EarnedPointsCons(d: TaskData, data: seq<TaskData>)
    decreases |data|
    ensures EarnedPoints([d] + data) == (if d.canceled then 0 else d.gradePoints) + EarnedPoints(data)
  {
    if data != [] {
      var init := data[..|data| - 1];
      assert ([d] + data)[..|data|] == [d] + init;
      EarnedPointsCons(d, init);
    }
  }

  /** The percentage of an assignment: 0 when its required tasks are worth nothing,
      otherwise the earned share of the required points times 100. */
  predicate PercentageOf(totalTaskPoints: int, totalGradePoints: int, percentage: real)
  {
    && (totalTaskPoints == 0 ==> percentage == 0.0)
    && (totalTaskPoints != 0 ==> percentage == totalGradePoints as real / totalTaskPoints as real * 100.0)
  }

  /** The entry for assignment `a`. */
  predicate Summarizes(a: Assignment, enrollment: nat, d: AssignmentData)
  {
    && d.name == a.name && d.description == a.description
    && Reports(a.tasks, enrollment, d.tasks)
    && d.totalTaskPoints == RequiredPoints(d.tasks)
    && d.totalGradePoints == EarnedPoints(d.tasks)
    && PercentageOf(d.totalTaskPoints, d.totalGradePoints, d.totalGradePercentage)
  }

  /** One entry per assignment of the course, in id order. */
  method AssignmentItemsData(assignments: seq<Assignment>, enrollment: nat) returns (items: seq<AssignmentData>)
    ensures |items| == |assignments|
    ensures forall i :: 0 <= i < |assignments| ==> Summarizes(assignments[i], enrollment, items[i])
  {
    items := [];
    for i := 0 to |assignments|
      invariant |items| == i
      invariant forall k :: 0 <= k < i ==> Summarizes(assignments[k], enrollment, items[k])
    {
      var assignment := assignments[i];
      var tasksData := AssignmentTasksData(assignment.tasks, enrollment);
      var totalTaskPoints := FoldTaskPoints(0, tasksData);
      var totalGradePoints := FoldGradePoints(0, tasksData);
      var percentage;
      if totalTaskPoints == 0 {
        percentage := 0.0;
      } else {
        percentage := totalGradePoints as real / totalTaskPoints as real * 100.0;
      }
      items := items + [AssignmentData(assignment.name, assignment.description, tasksData,
        totalTaskPoints, totalGradePoints, percentage)];
    }
  }

  // ---------------------------------------------------------------- bounds

  /** Grades that are fractions between 0 and 1. */
  predicate FractionGrades(t: Task)
  {
    forall i :: 0 <= i < |t.grades| ==> 0.0 <= t.grades[i].percentage <= 1.0
  }

  /** The rounded share of `n` points is between 0 and `n`. */
  lemma {:induction false} ScaledShareWithin(n: int, p: real)
    requires n >= 0 && 0.0 <= p <= 1.0
    decreases n
    ensures 0.0 <= Scale(n, p) <= n as real
  {
    if n > 0 {
      ScaledShareWithin(n - 1, p);
    }
  }

  lemma RoundedShareWithin(n: int, p: real)
    requires n >= 0 && 0.0 <= p <= 1.0
    ensures 0 <= Round(Scale(n, p)) <= n
  {
    ScaledShareWithin(n, p);
    RoundInteger(0);
    RoundInteger(n);
    RoundMonotone(0.0, Scale(n, p));
    RoundMonotone(Scale(n, p), n as real);
  }

  /** A task entry earns between 0 and the task's points when its grade is a fraction. */
  lemma DescribedPointsWithin(t: Task, enrollment: nat, d: TaskData)
    requires Describes(t, enrollment, d)
    requires t.points >= 0 && FractionGrades(t)
    ensures 0 <= d.gradePoints <= d.taskPoints
  {
    var g := FirstGrade(t.grades, enrollment);
    if g.Some? {
      FirstGradeFraction(t.grades, enrollment);
      RoundedShareWithin(t.points, g.value.percentage);
    }
  }

  lemma {:induction false} FirstGradeFraction(grades: seq<Grade>, enrollment: nat)
    requires forall i :: 0 <= i < |grades| ==> 0.0 <= grades[i].percentage <= 1.0
    ensures FirstGrade(grades, enrollment).Some? ==>
      0.0 <= FirstGrade(grades, enrollment).value.percentage <= 1.0
  {
    if grades != [] && grades[0].enrollment != enrollment {
      FirstGradeFraction(grades[1..], enrollment);
    }
  }

  lemma {:induction false} EarnedWithinRequired(tasks: seq<Task>, enrollment: nat, data: seq<TaskData>)
    requires Reports(tasks, enrollment, data)
    requires forall i :: 0 <= i < |tasks| ==> !tasks[i].optional && tasks[i].points >= 0 && FractionGrades(tasks[i])
    decreases |tasks|
    ensures 0 <= EarnedPoints(data) <= RequiredPoints(data)
  {
    if tasks != [] {
      var n := |tasks| - 1;
      DescribedPointsWithin(tasks[n], enrollment, data[n]);
      assert Reports(tasks[..n], enrollment, data[..n]);
      EarnedWithinRequired(tasks[..n], enrollment, data[..n]);
    }
  }

  /** With no optional task, non-negative points and fractional grades, an assignment's
      percentage lies between 0 and 100. */
  lemma PercentageWithinHundred(a: Assignment, enrollment: nat, d: AssignmentData)
    requires Summarizes(a, enrollment, d)
    requires forall i :: 0 <= i < |a.tasks| ==> !a.tasks[i].optional && a.tasks[i].points >= 0 && FractionGrades(a.tasks[i])
    ensures 0.0 <= d.totalGradePercentage <= 100.0
  {
    EarnedWithinRequired(a.tasks, enrollment, d.tasks);
    if d.totalTaskPoints != 0 {
      var ratio := d.totalGradePoints as real / d.totalTaskPoints as real;
      assert 0.0 <= ratio <= 1.0;
    }
  }
}
