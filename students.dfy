/**
 * The admin's "add student" page (`StudentAdmin.add_view`), which creates the
 * user account, the student and the student's enrollments from one form.
 *
 * Only a POST whose student form and enrollment formset are both valid is
 * handled here: it saves a user whose username is the email, a student whose
 * full name is the first name, a space and the last name, and, in form order,
 * one enrollment for each enrollment form that names a course class. Every
 * other request is handed to the standard add page, and this code saves
 * nothing. Tables are sequences of rows in id order; a saved row gets the next
 * id.
 */
module Students {
  import opened Wrappers

  datatype UserRow = UserRow(id: nat, firstName: string, lastName: string, username: string, email: string)
  datatype StudentRow = StudentRow(id: nat, user: nat, fullName: string, idNumber: string)
  datatype EnrollmentRow = EnrollmentRow(id: nat, student: nat, courseClass: nat, data: int)

  datatype Tables = Tables(users: seq<UserRow>, students: seq<StudentRow>, enrollments: seq<EnrollmentRow>)

  /** The cleaned data of a valid student form. */
  datatype NewStudent = NewStudent(firstName: string, lastName: string, email: string, idNumber: string)

  /** One enrollment form of the formset: its course class, which may be left empty, and its
      other columns. */
  datatype EnrollmentForm = EnrollmentForm(courseClass: Option<nat>, data: int)

  /** What the view answers: a redirect to the student list, or the standard add page. */
  datatype Response = RedirectToList | StandardAddView

  function NextUserId(t: seq<UserRow>): (n: nat)
    ensures n >= 1
  {
    if t == [] then 1 else t[|t| - 1].id + 1
  }

  function NextStudentId(t: seq<StudentRow>): (n: nat)
    ensures n >= 1
  {
    if t == [] then 1 else t[|t| - 1].id + 1
  }

  function NextEnrollmentId(t: seq<EnrollmentRow>): (n: nat)
    ensures n >= 1
  {
    if t == [] then 1 else t[|t| - 1].id + 1
  }

  /** The enrollments the loop saves for `forms`, pointing to `student`, the first with id
      `start`: one per form that names a course class, in form order. */
  function SavedEnrollments(forms: seq<EnrollmentForm>, student: nat, start: nat): (r: seq<EnrollmentRow>)
    ensures |r| <= |forms|
  {
    if forms == [] then []
    else
      var prev := SavedEnrollments(forms[..|forms| - 1], student, start);
      var f := forms[|forms| - 1];
      if f.courseClass.Some? then prev + [EnrollmentRow(start + |prev|, student, f.courseClass.value, f.data)]
      else prev
  }

  /** The course classes and columns the forms name, in form order: an independent statement
      of what is enrolled. */
  function Chosen(forms: seq<EnrollmentForm>): seq<(nat, int)>
  {
    if forms == [] then []
    else if forms[0].courseClass.Some? then [(forms[0].courseClass.value, forms[0].data)] + Chosen(forms[1..])
    else Chosen(forms[1..])
  }

  /** The course classes and columns of saved enrollments, in order. */
  function Enrolled(rows: seq<EnrollmentRow>): (r: seq<(nat, int)>)
    ensures |r| == |rows|
    ensures forall k :: 0 <= k < |rows| ==> r[k] == (rows[k].courseClass, rows[k].data)
  {
    seq(|rows|, k requires 0 <= k < |rows| => (rows[k].courseClass, rows[k].data))
  }

  lemma {:induction false} ChosenAppend(a: seq<EnrollmentForm>, b: seq<EnrollmentForm>)
    ensures Chosen(a + b) == Chosen(a) + Chosen(b)
  {
    if a == [] {
      assert a + b == b;
    } else {
      assert (a + b)[1..] == a[1..] + b;
      ChosenAppend(a[1..], b);
    }
  }

  /** Every saved enrollment points to the new student, the ids run on from `start` without
      gaps, and the enrollments carry exactly the course classes and columns the forms name,
      in form order. */
  lemma {:induction false} SavedEnrollmentsFacts(forms: seq<EnrollmentForm>, student: nat, start: nat)
    decreases |forms|
    ensures var r := SavedEnrollments(forms, student, start);
      && Enrolled(r) == Chosen(forms)
      && (forall k :: 0 <= k < |r| ==> r[k].student == student && r[k].id == start + k)
  {
    if forms != [] {
      var init := forms[..|forms| - 1];
      var f := forms[|forms| - 1];
      SavedEnrollmentsFacts(init, student, start);
      assert forms == init + [f];
      ChosenAppend(init, [f]);
      assert [f][1..] == [];
      var prev := SavedEnrollments(init, student, start);
      if f.courseClass.Some? {
        assert Enrolled(prev + [EnrollmentRow(start + |prev|, student, f.courseClass.value, f.data)]) ==
          Enrolled(prev) + [(f.courseClass.value, f.data)];
      }
    }
  }

  /** A formset with no course class chosen enrolls the student nowhere. */
  lemma {:induction false} NoClassNoEnrollment(forms: seq<EnrollmentForm>, student: nat, start: nat)
    requires forall k :: 0 <= k < |forms| ==> forms[k].courseClass.None?
    decreases |forms|
    ensures SavedEnrollments(forms, student, start) == []
  {
    if forms != [] {
      NoClassNoEnrollment(forms[..|forms| - 1], student, start);
    }
  }

  /** The tables after a valid submission of `s` with enrollment forms `forms`. */
  function Added(db: Tables, s: NewStudent, forms: seq<EnrollmentForm>): (r: Tables)
    ensures |r.users| == |db.users| + 1 && |r.students| == |db.students| + 1
    ensures |db.enrollments| <= |r.enrollments| <= |db.enrollments| + |forms|
  {
    var userId := NextUserId(db.users);
    var studentId := NextStudentId(db.students);
    Tables(
      db.users + [UserRow(userId, s.firstName, s.lastName, s.email, s.email)],
      db.students + [StudentRow(studentId, userId, s.firstName + " " + s.lastName, s.idNumber)],
      db.enrollments + SavedEnrollments(forms, studentId, NextEnrollmentId(db.enrollments)))
  }

  /** The loop over the enrollment forms: each one is pointed to `student` and saved when it
      names a course class. */
  method SaveEnrollments(t: seq<EnrollmentRow>, forms: seq<EnrollmentForm>, student: nat)
    returns (t': seq<EnrollmentRow>)
    ensures t' == t + SavedEnrollments(forms, student, NextEnrollmentId(t))
  {
    var start := NextEnrollmentId(t);
    t' := t;
    for i := 0 to |forms|
      invariant t' == t + SavedEnrollments(forms[..i], student, start)
      invariant NextEnrollmentId(t') == start + |SavedEnrollments(forms[..i], student, start)|
    {
      assert forms[..i + 1][..i] == forms[..i];
      var f := forms[i];
      if f.courseClass != None {
        var enrollment := EnrollmentRow(NextEnrollmentId(t'), student, f.courseClass.value, f.data);
        t' := t' + [enrollment];
      }
    }
    assert forms[..|forms|] == forms;
  }

  /** The view. `post` says whether the request is a POST; `form` is the student form's
      cleaned data, `None` when it is not valid; `formsetValid` says whether the enrollment
      formset is valid. */
  method AddView(db: Tables, post: bool, form: Option<NewStudent>, formsetValid: bool, forms: seq<EnrollmentForm>)
    returns (db': Tables, response: Response)
    ensures post && form.Some? && formsetValid ==> db' == Added(db, form.value, forms) && response == RedirectToList
    ensures !(post && form.Some? && formsetValid) ==> db' == db && response == StandardAddView
  {
    if post && form.Some? && formsetValid {
      var s := form.value;
      var user := UserRow(NextUserId(db.users), s.firstName, s.lastName, s.email, s.email);
      var users := db.users + [user];
      var student := StudentRow(NextStudentId(db.students), user.id, s.firstName + " " + s.lastName, s.idNumber);
      var students := db.students + [student];
      var enrollments := SaveEnrollments(db.enrollments, forms, student.id);
      return Tables(users, students, enrollments), RedirectToList;
    }
    return db, StandardAddView;
  }

  /** The records a valid submission creates: one user whose username and email are the
      form's email, one student of that user whose full name joins first and last name with a
      space, and one enrollment of that student for each course class chosen, in form order;
      the existing rows are untouched. */
  lemma AddedFacts(db: Tables, s: NewStudent, forms: seq<EnrollmentForm>)
    ensures var db' := Added(db, s, forms);
      && |db'.users| == |db.users| + 1 && db'.users[..|db.users|] == db.users
      && db'.users[|db.users|].username == s.email && db'.users[|db.users|].email == s.email
      && db'.users[|db.users|].firstName == s.firstName && db'.users[|db.users|].lastName == s.lastName
    ensures var db' := Added(db, s, forms);
      && |db'.students| == |db.students| + 1 && db'.students[..|db.students|] == db.students
      && db'.students[|db.students|].user == db'.users[|db.users|].id
      && db'.students[|db.students|].fullName == s.firstName + " " + s.lastName
      && db'.students[|db.students|].idNumber == s.idNumber
    ensures var db' := Added(db, s, forms);
      var added := db'.enrollments[|db.enrollments|..];
      && |db'.enrollments| >= |db.enrollments| && db'.enrollments[..|db.enrollments|] == db.enrollments
      && Enrolled(added) == Chosen(forms)
      && forall k :: 0 <= k < |added| ==> added[k].student == db'.students[|db.students|].id
  {
    var db' := Added(db, s, forms);
    var added := SavedEnrollments(forms, NextStudentId(db.students), NextEnrollmentId(db.enrollments));
    SavedEnrollmentsFacts(forms, NextStudentId(db.students), NextEnrollmentId(db.enrollments));
    assert db'.users[..|db.users|] == db.users;
    assert db'.students[..|db.students|] == db.students;
    assert db'.enrollments[..|db.enrollments|] == db.enrollments;
    assert db'.enrollments[|db.enrollments|..] == added;
  }
}
