/**
 * The course list page (`courses`): a student with exactly one enrollment is
 * sent straight to that class's "me" page; everyone else sees the list of
 * their enrollments, which is empty for a user who is not a student.
 */
module Courses {
  import opened Wrappers

  /** An enrollment, by the codes of its course and of its course class. */
  datatype Enrollment = Enrollment(courseCode: string, classCode: string)

  datatype Response = Redirect(url: string) | RenderCourses(enrollments: seq<Enrollment>)

  /** `'/%s/%s/me' % (course code, class code)`. */
  function MeUrl(courseCode: string, classCode: string): (url: string)
    ensures |url| == |courseCode| + |classCode| + 5
    ensures url[0] == '/' && url[|courseCode| + 1] == '/' && url[|url| - 3..] == "/me"
  {
    "/" + courseCode + "/" + classCode + "/me"
  }

  /** The view. `enrollments` is `None` for a user who is not a student, and otherwise the
      student's enrollments. */
  function CoursesView(enrollments: Option<seq<Enrollment>>): (r: Response)
    ensures r.Redirect? <==> enrollments.Some? && |enrollments.value| == 1
    ensures r.Redirect? ==> r.url == MeUrl(enrollments.value[0].courseCode, enrollments.value[0].classCode)
    ensures enrollments.None? ==> r == RenderCourses([])
    ensures enrollments.Some? && |enrollments.value| != 1 ==> r == RenderCourses(enrollments.value)
  {
    var list := if enrollments.Some? then enrollments.value else [];
    if |list| == 1 then
      var e := list[0];
      Redirect(MeUrl(e.courseCode, e.classCode))
    else RenderCourses(list)
  }

  // ---------------------------------------------------------------- reading the address back

  predicate NoSlash(s: string)
  {
    forall i :: 0 <= i < |s| ==> s[i] != '/'
  }

  /** The position of the first '/' in `s`, if any. */
  function FirstSlash(s: string): (r: Option<nat>)
    ensures r.None? <==> NoSlash(s)
    ensures r.Some? ==> r.value < |s| && s[r.value] == '/' && NoSlash(s[..r.value])
  {
    if s == [] then None
    else if s[0] == '/' then Some(0)
    else
      var rest := FirstSlash(s[1..]);
      if rest.None? then None
      else
        assert s[..rest.value + 1] == [s[0]] + s[1..][..rest.value];
        Some(rest.value + 1)
  }

  /** The course and class codes of a "me" page address, read the way a
      `<course>/<class>/me` route reads them. */
  function ParseMeUrl(url: string): Option<(string, string)>
  {
    if |url| < 4 || url[0] != '/' || url[|url| - 3..] != "/me" then None
    else
      var middle := url[1..|url| - 3];
      var slash := FirstSlash(middle);
      if slash.None? then None
      else
        var classCode := middle[slash.value + 1..];
        if NoSlash(classCode) then Some((middle[..slash.value], classCode)) else None
  }

  /** The redirect names the enrollment's course and class: reading the address back gives
      the two codes, as long as neither contains a '/'. */
  lemma ParseMeUrlRoundTrip(courseCode: string, classCode: string)
    requires NoSlash(courseCode) && NoSlash(classCode)
    ensures ParseMeUrl(MeUrl(courseCode, classCode)) == Some((courseCode, classCode))
  {
    var url := MeUrl(courseCode, classCode);
    var middle := courseCode + "/" + classCode;
    assert url[|url| - 3..] == "/me";
    assert url[1..|url| - 3] == middle;
    assert FirstSlash(middle) == Some(|courseCode|) by {
      FirstSlashAfter(courseCode, classCode);
    }
    assert middle[..|courseCode|] == courseCode;
    assert middle[|courseCode| + 1..] == classCode;
  }

  lemma {:induction false} FirstSlashAfter(a: string, b: string)
    requires NoSlash(a)
    ensures FirstSlash(a + "/" + b) == Some(|a|)
  {
    if a != [] {
      assert (a + "/" + b)[1..] == a[1..] + "/" + b;
      FirstSlashAfter(a[1..], b);
    }
  }

  /** Different classes redirect to different addresses. */
  lemma MeUrlInjective(c1: string, k1: string, c2: string, k2: string)
    requires NoSlash(c1) && NoSlash(k1) && NoSlash(c2) && NoSlash(k2)
    requires MeUrl(c1, k1) == MeUrl(c2, k2)
    ensures c1 == c2 && k1 == k2
  {
    ParseMeUrlRoundTrip(c1, k1);
    ParseMeUrlRoundTrip(c2, k2);
  }

  /** Without that condition the address does not tell the classes apart. */
  lemma MeUrlCollides()
    ensures MeUrl("a/b", "c") == MeUrl("a", "b/c") == "/a/b/c/me"
  {
  }
}
