/**
 * The course list's search box (src/pages/Courses.tsx): a course is shown
 * when its lower-cased name contains the lower-cased search term.
 */
module Courses {
  import opened Common

  datatype Course = Course(id: string, name: string, progress: int, icon: string)

  /** `needle` occurs in `hay` starting at position `i`. */
  predicate OccursAt(hay: string, needle: string, i: int)
  {
    0 <= i && i + |needle| <= |hay| && hay[i..i + |needle|] == needle
  }

  /** `hay.includes(needle)`: scan for the first position where `needle` starts. */
  function Includes(hay: string, needle: string): (r: bool)
    ensures r <==> exists i :: OccursAt(hay, needle, i)
    decreases |hay|
  {
    if |needle| <= |hay| && hay[..|needle|] == needle then
      assert OccursAt(hay, needle, 0);
      true
    else if hay == [] then
      false
    else
      var rest := Includes(hay[1..], needle);
      assert forall i :: OccursAt(hay[1..], needle, i) ==> OccursAt(hay, needle, i + 1);
      assert forall i :: OccursAt(hay, needle, i) && i > 0 ==> OccursAt(hay[1..], needle, i - 1);
      rest
  }

  /** The filter's test for one course, given the already lower-cased term. */
  predicate Matches(c: Course, needle: string)
  {
    Includes(Lower(c.name), needle)
  }

  /** `courses.filter(...)` against a lower-cased term. */
  function FilterBy(courses: seq<Course>, needle: string): (r: seq<Course>)
    ensures forall c :: c in r <==> c in courses && Matches(c, needle)
    ensures forall c :: multiset(r)[c] == if Matches(c, needle) then multiset(courses)[c] else 0
    ensures IsSubsequence(r, courses)
    decreases |courses|
  {
    if courses == [] then []
    else
      var rest := FilterBy(courses[1..], needle);
      assert courses == [courses[0]] + courses[1..];
      assert forall c :: c in courses <==> c == courses[0] || c in courses[1..];
      if Matches(courses[0], needle) then
        assert ([courses[0]] + rest)[1..] == rest;
        [courses[0]] + rest
      else
        rest
  }

  /**
   * `filteredCourses`: the courses whose lower-cased name contains the
   * lower-cased search term, in list order.
   */
  function FilteredCourses(courses: seq<Course>, searchTerm: string): (r: seq<Course>)
    ensures forall c :: c in r <==> c in courses && Includes(Lower(c.name), Lower(searchTerm))
    ensures forall c :: multiset(r)[c] ==
              if Includes(Lower(c.name), Lower(searchTerm)) then multiset(courses)[c] else 0
    ensures IsSubsequence(r, courses)
  {
    FilterBy(courses, Lower(searchTerm))
  }

  /** The filter never shows more courses than there are. */
  lemma FilteredNoLonger(courses: seq<Course>, searchTerm: string)
    ensures |FilteredCourses(courses, searchTerm)| <= |courses|
  {
    SubsequenceNoLonger(FilteredCourses(courses, searchTerm), courses);
  }

  /** With the initial empty search term every course is shown, in order. */
  lemma {:induction false} EmptySearchShowsAll(courses: seq<Course>)
    ensures FilteredCourses(courses, "") == courses
    decreases |courses|
  {
    if courses != [] {
      EmptySearchShowsAll(courses[1..]);
      assert Includes(Lower(courses[0].name), "");
    }
  }

  /** Two terms that differ only in the case of their letters. */
  predicate SameIgnoringCase(a: string, b: string)
  {
    |a| == |b| && forall i :: 0 <= i < |a| ==> LowerChar(a[i]) == LowerChar(b[i])
  }

  /** Changing the case of letters in the search term changes nothing shown. */
  lemma CaseInsensitive(courses: seq<Course>, t1: string, t2: string)
    requires SameIgnoringCase(t1, t2)
    ensures FilteredCourses(courses, t1) == FilteredCourses(courses, t2)
  {
    assert Lower(t1) == Lower(t2);
  }

  /** Searching for a course's exact name, in any case, shows that course. */
  lemma NameFindsCourse(courses: seq<Course>, c: Course, searchTerm: string)
    requires c in courses
    requires SameIgnoringCase(searchTerm, c.name)
    ensures c in FilteredCourses(courses, searchTerm)
  {
    var needle := Lower(c.name);
    assert Lower(searchTerm) == needle;
    assert needle[0..|needle|] == needle;
    assert OccursAt(needle, needle, 0);
  }
}
