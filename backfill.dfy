/**
 * The three admin inline formsets that backfill missing rows: grades within an
 * assignment task (`GradeInlineFormSet`), grades within an enrollment
 * (`EnrollmentGradeInlineFormSet`) and achievements within a class badge
 * (`AchievementInlineFormSet`).
 *
 * Each one knows the ordered list of ids the parent expects a row for (the
 * enrollments of the class, or the assignment tasks of the class). Its forms
 * are either bound to an existing row or blank. Walking the forms in order, an
 * existing row strikes its id from a working copy of the list, and a blank form
 * is pre-filled with the id at a running index into that working copy.
 */
module Backfill {
  import opened Wrappers
  import opened Seqs

  /** A form of the formset: bound to an existing row whose foreign key is `target`, or blank. */
  datatype Form = Existing(target: int) | Blank

  /** What the formset's initialisation leaves in a form's `initial`: nothing for a bound
      form; the pre-selected id and an empty percentage for a blank one. */
  datatype Initial = Untouched | Prefilled(target: int, percentage: string)

  /** The exceptions the initialisation can raise: `list.remove` of an absent id, and an
      index past the end of the working list. */
  datatype Failure = ValueError(missing: int) | IndexError(index: nat)

  /** How an existing row's id is struck: the grade and achievement formsets first test
      membership; the enrollment-grade formset removes without testing. */
  datatype Variant = Guarded | Unguarded

  /** The working state of the initialisation loop: the working copy of the id list, the
      running index, and what has been written into the forms visited so far. */
  datatype State = State(remaining: seq<int>, index: nat, initials: seq<Initial>)

  /** Python's `list.remove(x)`: drops the first occurrence of `x`. */
  function RemoveFirst(s: seq<int>, x: int): (r: seq<int>)
    requires x in s
    ensures |r| == |s| - 1
    ensures forall y :: y in r ==> y in s
    ensures multiset(r) == multiset(s) - multiset{x}
  {
    assert s == [s[0]] + s[1..];
    if s[0] == x then s[1..]
    else [s[0]] + RemoveFirst(s[1..], x)
  }

  /** The elements of `s` that are not in `struck`, in their order in `s`. */
  function Difference(s: seq<int>, struck: seq<int>): (r: seq<int>)
    ensures |r| <= |s|
    ensures forall y :: y in r <==> y in s && y !in struck
  {
    if s == [] then []
    else if s[0] in struck then Difference(s[1..], struck)
    else [s[0]] + Difference(s[1..], struck)
  }

  /** One iteration of the initialisation loop, for one form. */
  function Step(st: State, form: Form, v: Variant): (r: Result<State, Failure>)
    ensures r.Err? <==>
      || (form.Existing? && form.target !in st.remaining && v.Unguarded?)
      || (form.Blank? && st.index >= |st.remaining|)
    ensures r.Ok? ==> |r.value.initials| == |st.initials| + 1
  {
    match form
    case Existing(t) =>
      if t in st.remaining then
        Ok(State(RemoveFirst(st.remaining, t), st.index, st.initials + [Untouched]))
      else if v == Guarded then
        Ok(State(st.remaining, st.index, st.initials + [Untouched]))
      else
        Err(ValueError(t))
    case Blank =>
      if st.index < |st.remaining| then
        Ok(State(st.remaining, st.index + 1, st.initials + [Prefilled(st.remaining[st.index], "")]))
      else
        Err(IndexError(st.index))
  }

  /** The state after visiting `forms` in order from state `st`; the first exception stops
      the loop. */
  function RunFrom(st: State, forms: seq<Form>, v: Variant): (r: Result<State, Failure>)
    decreases |forms|
    ensures r.Ok? ==> |r.value.initials| == |st.initials| + |forms|
  {
    if forms == [] then Ok(st)
    else
      match Step(st, forms[0], v)
      case Err(e) => Err(e)
      case Ok(next) => RunFrom(next, forms[1..], v)
  }

  /** The loop's starting state: a copy of the expected ids, the index at 0, no form visited. */
  function Start(expected: seq<int>): State
  {
    State(expected, 0, [])
  }

  /** What the formset's initialisation writes into each form, or the exception it raises. */
  function Backfill(expected: seq<int>, forms: seq<Form>, v: Variant): (r: Result<seq<Initial>, Failure>)
    ensures r.Ok? ==> |r.value| == |forms|
  {
    match RunFrom(Start(expected), forms, v)
    case Err(e) => Err(e)
    case Ok(st) => Ok(st.initials)
  }

  /** `total_form_count`: one form per expected id once the parent row is saved, none before. */
  function TotalFormCount(parentSaved: bool, expected: seq<int>): (n: nat)
    ensures n <= |expected|
    ensures parentSaved ==> n == |expected|
    ensures !parentSaved ==> n == 0
  {
    if parentSaved then |expected| else 0
  }

  /** The expected-id list: empty when the parent's assignment, course class or badge is unset. */
  function ExpectedIds(parentKeySet: bool, queried: seq<int>): (ids: seq<int>)
    ensures parentKeySet ==> ids == queried
    ensures !parentKeySet ==> ids == []
  {
    if parentKeySet then queried else []
  }

  /** The formset's `__init__` loop, over a working copy of the expected ids. */
  method InitializeForms(expected: seq<int>, forms: seq<Form>, v: Variant)
    returns (r: Result<seq<Initial>, Failure>)
    ensures r == Backfill(expected, forms, v)
  {
    var remaining := expected;
    var index := 0;
    var initials := [];
    var i := 0;
    while i < |forms|
      invariant 0 <= i <= |forms|
      invariant RunFrom(Start(expected), forms, v) == RunFrom(State(remaining, index, initials), forms[i..], v)
    {
      assert forms[i..][1..] == forms[i + 1..];
      match forms[i] {
        case Existing(t) =>
          if t in remaining {
            remaining := RemoveFirst(remaining, t);
          } else if v == Unguarded {
            return Err(ValueError(t));
          }
          initials := initials + [Untouched];
        case Blank =>
          if index >= |remaining| {
            return Err(IndexError(index));
          }
          initials := initials + [Prefilled(remaining[index], "")];
          index := index + 1;
      }
      i := i + 1;
    }
    r := Ok(initials);
  }

  /** Bookkeeping of the guarded loop: while the working list holds an id for every form
      still to visit, it never raises, and it writes one entry per form. */
  lemma {:induction false} GuardedRunShape(st: State, forms: seq<Form>)
    requires st.index + |forms| <= |st.remaining|
    ensures RunFrom(st, forms, Guarded).Ok?
    ensures |RunFrom(st, forms, Guarded).value.initials| == |st.initials| + |forms|
    decreases |forms|
  {
    if forms != [] {
      GuardedRunShape(Step(st, forms[0], Guarded).value, forms[1..]);
    }
  }

  /** Every formset with at most one form per expected id (which `total_form_count`
      guarantees) initialises without error in the guarded variants, whatever the order of
      bound and blank forms, and touches every form. */
  lemma GuardedNeverFails(expected: seq<int>, forms: seq<Form>)
    requires |forms| <= |expected|
    ensures Backfill(expected, forms, Guarded).Ok?
    ensures |Backfill(expected, forms, Guarded).value| == |forms|
  {
    GuardedRunShape(Start(expected), forms);
  }

  /** The working list only ever shrinks. */
  lemma {:induction false} RemainingShrink(st: State, forms: seq<Form>, v: Variant)
    requires RunFrom(st, forms, v).Ok?
    ensures forall y :: y in RunFrom(st, forms, v).value.remaining ==> y in st.remaining
    decreases |forms|
  {
    if forms != [] {
      RemainingShrink(Step(st, forms[0], v).value, forms[1..], v);
    }
  }

  /** In the enrollment-grade formset, a bound row whose id is no longer in the working list
      makes the initialisation raise. */
  lemma {:induction false} UnguardedRejectsAbsent(st: State, forms: seq<Form>, j: nat)
    requires j < |forms| && forms[j].Existing? && forms[j].target !in st.remaining
    ensures RunFrom(st, forms, Unguarded).Err?
    decreases |forms|
  {
    if j > 0 {
      match Step(st, forms[0], Unguarded)
      case Err(_) =>
      case Ok(next) =>
        RemainingShrink(st, [forms[0]], Unguarded);
        assert [forms[0]][1..] == [];
        UnguardedRejectsAbsent(next, forms[1..], j - 1);
    }
  }

  /** In the enrollment-grade formset, a bound row whose task is not among the class's
      tasks makes the initialisation raise. */
  lemma UnguardedRejectsForeignRow(expected: seq<int>, forms: seq<Form>, j: nat)
    requires j < |forms| && forms[j].Existing? && forms[j].target !in expected
    ensures Backfill(expected, forms, Unguarded).Err?
  {
    UnguardedRejectsAbsent(Start(expected), forms, j);
  }

  /** Whenever the unguarded variant succeeds, it writes exactly what a guarded one writes. */
  lemma {:induction false} UnguardedAgreesWhenOk(st: State, forms: seq<Form>)
    requires RunFrom(st, forms, Unguarded).Ok?
    ensures RunFrom(st, forms, Guarded) == RunFrom(st, forms, Unguarded)
    decreases |forms|
  {
    if forms != [] {
      UnguardedAgreesWhenOk(Step(st, forms[0], Unguarded).value, forms[1..]);
    }
  }

  /** The formsets differ only where the enrollment-grade one raises. */
  lemma VariantsAgreeWhenOk(expected: seq<int>, forms: seq<Form>)
    requires Backfill(expected, forms, Unguarded).Ok?
    ensures Backfill(expected, forms, Guarded) == Backfill(expected, forms, Unguarded)
  {
    UnguardedAgreesWhenOk(Start(expected), forms);
  }

  /** The loop over a concatenation runs over the first part, then the second. */
  lemma {:induction false} RunAppend(st: State, a: seq<Form>, b: seq<Form>, v: Variant)
    ensures RunFrom(st, a + b, v) ==
      match RunFrom(st, a, v)
      case Err(e) => Err(e)
      case Ok(mid) => RunFrom(mid, b, v)
    decreases |a|
  {
    if a == [] {
      assert a + b == b;
    } else {
      assert (a + b)[0] == a[0];
      assert (a + b)[1..] == a[1..] + b;
      match Step(st, a[0], v)
      case Err(_) =>
      case Ok(next) => RunAppend(next, a[1..], b, v);
    }
  }

  function Existings(ids: seq<int>): (fs: seq<Form>)
    ensures |fs| == |ids|
  {
    if ids == [] then [] else [Existing(ids[0])] + Existings(ids[1..])
  }

  function Blanks(k: nat): (fs: seq<Form>)
    ensures |fs| == k
  {
    seq(k, _ => Blank)
  }

  function Untouchings(n: nat): (s: seq<Initial>)
    ensures |s| == n
  {
    seq(n, _ => Untouched)
  }

  function Prefills(ids: seq<int>): (s: seq<Initial>)
    ensures |s| == |ids|
  {
    if ids == [] then [] else [Prefilled(ids[0], "")] + Prefills(ids[1..])
  }

  lemma {:induction false} RemoveFirstUnique(s: seq<int>, x: int)
    requires NoDuplicates(s) && x in s
    ensures RemoveFirst(s, x) == Difference(s, [x])
  {
    if s[0] != x {
      RemoveFirstUnique(s[1..], x);
    } else {
      DifferenceMissing(s[1..], [x]);
    }
  }

  lemma {:induction false} DifferenceMissing(s: seq<int>, struck: seq<int>)
    requires forall i :: 0 <= i < |s| ==> s[i] !in struck
    ensures Difference(s, struck) == s
  {
    if s != [] {
      assert s == [s[0]] + s[1..];
      DifferenceMissing(s[1..], struck);
    }
  }

  lemma {:induction false} DifferenceNoDuplicates(s: seq<int>, struck: seq<int>)
    requires NoDuplicates(s)
    ensures NoDuplicates(Difference(s, struck))
  {
    if s != [] {
      DifferenceNoDuplicates(s[1..], struck);
    }
  }

  /** Striking `t` and then `rest` strikes both. */
  lemma {:induction false} DifferenceSplit(s: seq<int>, t: int, rest: seq<int>)
    ensures Difference(Difference(s, [t]), rest) == Difference(s, [t] + rest)
  {
    if s != [] {
      DifferenceSplit(s[1..], t, rest);
    }
  }

  /** One bound form strikes its id from a working list without duplicates. */
  lemma StrikeOne(left: seq<int>, done: seq<Initial>, t: int, v: Variant)
    requires NoDuplicates(left)
    requires v == Unguarded ==> t in left
    ensures Step(State(left, 0, done), Existing(t), v) == Ok(State(Difference(left, [t]), 0, done + [Untouched]))
  {
    if t in left {
      RemoveFirstUnique(left, t);
    } else {
      DifferenceMissing(left, [t]);
    }
  }

  /** After one distinct id is struck, the ids of the later bound rows are still in the
      working list. */
  lemma RestStillExpected(left: seq<int>, t: int, rest: seq<int>, v: Variant)
    requires v == Unguarded ==> NoDuplicates([t] + rest) && forall u :: u in [t] + rest ==> u in left
    ensures v == Unguarded ==> NoDuplicates(rest) && forall u :: u in rest ==> u in Difference(left, [t])
  {
    if v == Unguarded {
      var ids := [t] + rest;
      forall i, j | 0 <= i < j < |rest| ensures rest[i] != rest[j] {
        assert rest[i] == ids[i + 1] && rest[j] == ids[j + 1];
      }
      forall u | u in rest ensures u in Difference(left, [t]) {
        var i :| 0 <= i < |rest| && rest[i] == u;
        assert ids[i + 1] == u && ids[0] == t;
        assert u in ids;
      }
    }
  }

  /** The bound forms strike their ids: what is left is the working list without the ids
      already represented, in its order. */
  lemma {:induction false} StrikePhase(left: seq<int>, done: seq<Initial>, ids: seq<int>, v: Variant)
    requires NoDuplicates(left)
    requires v == Unguarded ==> NoDuplicates(ids) && forall t :: t in ids ==> t in left
    ensures RunFrom(State(left, 0, done), Existings(ids), v) ==
      Ok(State(Difference(left, ids), 0, done + Untouchings(|ids|)))
    decreases |ids|
  {
    if ids == [] {
      DifferenceMissing(left, []);
      assert done + Untouchings(0) == done;
    } else {
      var t, rest := ids[0], ids[1..];
      assert ids == [t] + rest;
      var struck := Difference(left, [t]);
      StrikeOne(left, done, t, v);
      assert Existings(ids)[0] == Existing(t) && Existings(ids)[1..] == Existings(rest);
      assert RunFrom(State(left, 0, done), Existings(ids), v) ==
        RunFrom(State(struck, 0, done + [Untouched]), Existings(rest), v);
      DifferenceNoDuplicates(left, [t]);
      RestStillExpected(left, t, rest, v);
      StrikePhase(struck, done + [Untouched], rest, v);
      DifferenceSplit(left, t, rest);
      assert done + [Untouched] + Untouchings(|rest|) == done + Untouchings(|ids|);
    }
  }

  /** Blank forms take the ids of the working list from the running index on; a blank form
      past its end raises. */
  lemma {:induction false} FillPhase(left: seq<int>, j: nat, done: seq<Initial>, k: nat, v: Variant)
    requires j <= |left|
    ensures j + k <= |left| ==>
      RunFrom(State(left, j, done), Blanks(k), v) == Ok(State(left, j + k, done + Prefills(left[j..j + k])))
    ensures j + k > |left| ==>
      RunFrom(State(left, j, done), Blanks(k), v) == Err(IndexError(|left|))
    decreases k
  {
    if k == 0 {
      assert left[j..j] == [];
      assert done + [] == done;
    } else {
      assert Blanks(k)[0] == Blank && Blanks(k)[1..] == Blanks(k - 1);
      if j < |left| {
        FillPhase(left, j + 1, done + [Prefilled(left[j], "")], k - 1, v);
        if j + k <= |left| {
          var taken := left[j..j + k];
          assert taken[0] == left[j] && taken[1..] == left[j + 1..j + k];
          assert done + [Prefilled(left[j], "")] + Prefills(left[j + 1..j + k]) == done + Prefills(taken);
        }
      }
    }
  }

  /** The backfill property: with distinct expected ids, bound forms first and then `k` blank
      forms, the blank forms receive, in order, the expected ids that no bound form
      represents, each with an empty percentage; the initialisation raises exactly when there
      are more blank forms than such ids. For the enrollment-grade variant this needs the
      bound rows to be distinct tasks of the class. */
  lemma BackfillFillsMissing(expected: seq<int>, ids: seq<int>, k: nat, v: Variant)
    requires NoDuplicates(expected)
    requires v == Unguarded ==> NoDuplicates(ids) && forall t :: t in ids ==> t in expected
    ensures var left := Difference(expected, ids);
      && (k <= |left| ==> Backfill(expected, Existings(ids) + Blanks(k), v) == Ok(Untouchings(|ids|) + Prefills(left[..k])))
      && (k > |left| ==> Backfill(expected, Existings(ids) + Blanks(k), v) == Err(IndexError(|left|)))
  {
    var left := Difference(expected, ids);
    StrikePhase(expected, [], ids, v);
    assert [] + Untouchings(|ids|) == Untouchings(|ids|);
    RunAppend(Start(expected), Existings(ids), Blanks(k), v);
    FillPhase(left, 0, Untouchings(|ids|), k, v);
    assert k <= |left| ==> left[0..k] == left[..k];
  }

  /** Striking distinct ids, all of them expected, leaves one id fewer per id struck. */
  lemma {:induction false} DifferenceCount(s: seq<int>, ids: seq<int>)
    requires NoDuplicates(s) && NoDuplicates(ids)
    requires forall t :: t in ids ==> t in s
    decreases |ids|
    ensures |Difference(s, ids)| == |s| - |ids|
  {
    if ids == [] {
      DifferenceMissing(s, []);
    } else {
      var t, rest := ids[0], ids[1..];
      assert ids == [t] + rest;
      var struck := Difference(s, [t]);
      RemoveFirstUnique(s, t);
      DifferenceNoDuplicates(s, [t]);
      forall u | u in rest ensures u in struck {
        assert u != t;
      }
      assert NoDuplicates(rest);
      DifferenceCount(struck, rest);
      DifferenceSplit(s, t, rest);
    }
  }

  /** The form count fits the backfill: once the parent is saved, the formset has one form per
      expected id, so after the forms bound to existing rows (distinct rows of expected ids)
      the blank forms receive every expected id that has no row yet, in order, and the
      initialisation does not raise. */
  lemma FormCountFillsAll(expected: seq<int>, ids: seq<int>, v: Variant)
    requires NoDuplicates(expected) && NoDuplicates(ids)
    requires forall t :: t in ids ==> t in expected
    ensures |ids| <= TotalFormCount(true, expected)
    ensures Backfill(expected, Existings(ids) + Blanks(TotalFormCount(true, expected) - |ids|), v) ==
      Ok(Untouchings(|ids|) + Prefills(Difference(expected, ids)))
  {
    DifferenceCount(expected, ids);
    var left := Difference(expected, ids);
    var k := TotalFormCount(true, expected) - |ids|;
    BackfillFillsMissing(expected, ids, k, v);
    assert left[..k] == left;
  }

  /** One formset of the admin: the parent row it is shown for, the ids the ordered query
      returns for that parent, and the cached copy of that list. */
  class InlineFormSet {
    const variant: Variant
    /** The parent's assignment (grades), course class (enrollment grades) or badge
        (achievements) is set. */
    const parentKeySet: bool
    /** The parent row has been saved (`self.instance.id != None`). */
    const parentSaved: bool
    /** The ids the ordered query returns: enrollments by student name, or tasks by
        assignment and id. */
    const queried: seq<int>
    /** `_enrollment_ids` / `_assignment_tasks_ids`; the empty list stands for both `None`
        and an empty cache, which the code treats alike. */
    var cache: seq<int>

    ghost predicate Valid()
      reads this
    {
      cache == [] || cache == queried
    }

    constructor (variant: Variant, parentKeySet: bool, parentSaved: bool, queried: seq<int>)
      ensures Valid()
      ensures this.variant == variant && this.parentKeySet == parentKeySet
      ensures this.parentSaved == parentSaved && this.queried == queried
      ensures cache == []
    {
      this.variant := variant;
      this.parentKeySet := parentKeySet;
      this.parentSaved := parentSaved;
      this.queried := queried;
      cache := [];
    }

    /** The `enrollment_ids` / `assignment_task_ids` property: fills the cache on first use. */
    method Ids() returns (ids: seq<int>)
      requires Valid()
      modifies this`cache
      ensures Valid()
      ensures ids == ExpectedIds(parentKeySet, queried)
      ensures cache == if parentKeySet then queried else old(cache)
    {
      if !parentKeySet {
        return [];
      }
      if cache == [] {
        cache := queried;
      }
      ids := cache;
    }

    method FormCount() returns (n: nat)
      requires Valid()
      modifies this`cache
      ensures Valid()
      ensures n == TotalFormCount(parentSaved, ExpectedIds(parentKeySet, queried))
      ensures cache == if parentSaved && parentKeySet then queried else old(cache)
    {
      if parentSaved {
        var ids := Ids();
        n := |ids|;
      } else {
        n := 0;
      }
    }

    /** `__init__`: pre-fills the blank forms from a copy of the id list. */
    method Initialize(forms: seq<Form>) returns (r: Result<seq<Initial>, Failure>)
      requires Valid()
      modifies this`cache
      ensures Valid()
      ensures r == Backfill(ExpectedIds(parentKeySet, queried), forms, variant)
      ensures cache == if parentKeySet then queried else old(cache)
    {
      var ids := Ids();
      r := InitializeForms(ids, forms, variant);
    }
  }
}
