/**
 * The home page's module cards (src/pages/Home.tsx): the "resume" card for
 * the last-accessed module, the "continue learning" list of incomplete
 * modules, and the links both point to.
 */
module Home {
  import opened Common

  /** A module; an absent `lastAccessed` flag reads as false. */
  datatype Module = Module(id: string, name: string, progress: int, lastAccessed: bool)

  /**
   * `modules.find(m => m.lastAccessed)`: the first flagged module, or
   * nothing when no module is flagged.
   */
  function LastAccessedModule(modules: seq<Module>): (r: Option<Module>)
    ensures r.None? <==> forall i :: 0 <= i < |modules| ==> !modules[i].lastAccessed
    ensures r.Some? ==> exists i :: 0 <= i < |modules| && modules[i] == r.value && FirstFlagged(modules, i)
    decreases |modules|
  {
    if modules == [] then None
    else if modules[0].lastAccessed then
      assert FirstFlagged(modules, 0);
      Some(modules[0])
    else
      var r := LastAccessedModule(modules[1..]);
      assert forall i :: FirstFlagged(modules[1..], i) ==> FirstFlagged(modules, i + 1);
      r
  }

  /** Position `i` holds the first module carrying the `lastAccessed` flag. */
  predicate FirstFlagged(modules: seq<Module>, i: int)
  {
    0 <= i < |modules| && modules[i].lastAccessed
    && forall j :: 0 <= j < i ==> !modules[j].lastAccessed
  }

  /** The resume card is rendered exactly when some module is flagged. */
  predicate ShowsResumeCard(modules: seq<Module>)
    ensures ShowsResumeCard(modules) <==> exists i :: 0 <= i < |modules| && modules[i].lastAccessed
  {
    LastAccessedModule(modules).Some?
  }

  /** `incompleteModules`: the modules below 100% progress, in list order. */
  function IncompleteModules(modules: seq<Module>): (r: seq<Module>)
    ensures forall m :: m in r <==> m in modules && m.progress < 100
    ensures forall m :: multiset(r)[m] == if m.progress < 100 then multiset(modules)[m] else 0
    ensures IsSubsequence(r, modules)
    decreases |modules|
  {
    if modules == [] then []
    else
      var rest := IncompleteModules(modules[1..]);
      assert modules == [modules[0]] + modules[1..];
      assert forall m :: m in modules <==> m == modules[0] || m in modules[1..];
      if modules[0].progress < 100 then
        assert ([modules[0]] + rest)[1..] == rest;
        [modules[0]] + rest
      else
        rest
  }

  /** When no module is finished, the incomplete list is the whole list. */
  lemma {:induction false} NoneFinishedKeepsAll(modules: seq<Module>)
    requires forall i :: 0 <= i < |modules| ==> modules[i].progress < 100
    ensures IncompleteModules(modules) == modules
    decreases |modules|
  {
    if modules != [] {
      NoneFinishedKeepsAll(modules[1..]);
      assert [modules[0]] + modules[1..] == modules;
    }
  }

  /**
   * A card of the continue list is visible when it is rendered (its module is
   * incomplete) and not given the `hidden` class (its module is not flagged).
   */
  predicate ContinueCardVisible(modules: seq<Module>, m: Module)
    ensures ContinueCardVisible(modules, m) <==> m in modules && m.progress < 100 && !m.lastAccessed
  {
    m in IncompleteModules(modules) && !m.lastAccessed
  }

  /** At most one module carries the `lastAccessed` flag, as in the page's data. */
  predicate AtMostOneFlagged(modules: seq<Module>)
  {
    forall i, j :: 0 <= i < |modules| && 0 <= j < |modules| && modules[i].lastAccessed && modules[j].lastAccessed ==> i == j
  }

  /**
   * With at most one flagged module, a module's continue card is visible
   * exactly when the module is incomplete and is not the one on the resume
   * card, so no module appears twice.
   */
  lemma VisibleIffNotResumed(modules: seq<Module>, m: Module)
    requires AtMostOneFlagged(modules)
    requires m in modules
    ensures ContinueCardVisible(modules, m) <==> m.progress < 100 && LastAccessedModule(modules) != Some(m)
  {
    if m.lastAccessed {
      var k :| 0 <= k < |modules| && modules[k] == m;
      var r := LastAccessedModule(modules);
      assert r.Some?;
      var i :| 0 <= i < |modules| && modules[i] == r.value && FirstFlagged(modules, i);
      assert i == k;
    }
  }

  /** The route prefix; the router compares it ignoring letter case. */
  const CoursesPrefix: string := "/courses/"

  /**
   * An id that the link, the browser's URL parser and the route carry through
   * unchanged: a non-empty segment that is not a dot segment, holds no path,
   * query, fragment or escape character, no backslash (read as `/`), no tab or
   * line break (removed), and does not end in a space or control character
   * (stripped).
   */
  predicate PlainId(id: string)
  {
    Segment(id) && id[|id| - 1] > ' ' && id != "." && id != ".."
    && '?' !in id && '#' !in id && '%' !in id
    && '\\' !in id && '\t' !in id && '\n' !in id && '\r' !in id
  }

  /** A non-empty path segment: the text the route's `:moduleId` parameter can capture. */
  predicate Segment(id: string)
  {
    id != "" && '/' !in id
  }

  /** A run of `k` slashes. */
  function Slashes(k: nat): (r: string)
    ensures |r| == k
    ensures forall i :: 0 <= i < k ==> r[i] == '/'
  {
    if k == 0 then "" else Slashes(k - 1) + "/"
  }

  /** The path with every trailing `/` removed. */
  function TrimSlashes(s: string): (r: string)
    ensures |r| <= |s| && s[..|r|] == r
    ensures forall i :: |r| <= i < |s| ==> s[i] == '/'
    ensures r == "" || r[|r| - 1] != '/'
    decreases |s|
  {
    if s != [] && s[|s| - 1] == '/' then TrimSlashes(s[..|s| - 1]) else s
  }

  /** A segment not ending in `/` comes back whole from any run of trailing slashes. */
  lemma {:induction false} TrimAddedSlashes(seg: string, k: nat)
    requires seg == "" || seg[|seg| - 1] != '/'
    ensures TrimSlashes(seg + Slashes(k)) == seg
    decreases k
  {
    if k > 0 {
      assert (seg + Slashes(k))[..|seg| + k - 1] == seg + Slashes(k - 1);
      TrimAddedSlashes(seg, k - 1);
    }
  }

  /**
   * The router's `courses/:moduleId` pattern under `/`: the path starts with
   * `/courses/` in any letter case, may end in any number of `/`, and the id
   * is the one non-empty segment in between.
   */
  function ModuleIdOfPath(path: string): (r: Option<string>)
    ensures r.Some? ==> r.value != "" && '/' !in r.value
    ensures r.Some? ==> |CoursesPrefix| + |r.value| <= |path| && Lower(path[..|CoursesPrefix|]) == CoursesPrefix
    ensures r.Some? ==> path[|CoursesPrefix|..] == r.value + Slashes(|path| - |CoursesPrefix| - |r.value|)
  {
    var n := |CoursesPrefix|;
    if n < |path| && Lower(path[..n]) == CoursesPrefix then
      var rest := TrimSlashes(path[n..]);
      if rest != "" && '/' !in rest then
        assert path[n..] == rest + Slashes(|path| - n - |rest|);
        Some(rest)
      else
        None
    else
      None
  }

  /**
   * The link target of a module's page, `/courses/${id}`: for a plain id the
   * router reads the same id back from it.
   */
  function CoursePath(id: string): (r: string)
    ensures PlainId(id) ==> ModuleIdOfPath(r) == Some(id)
  {
    var r := CoursesPrefix + id;
    assert PlainId(id) ==> ModuleIdOfPath(r) == Some(id) by {
      if PlainId(id) {
        PrefixLowerCase();
        CoursePathRoundTrip(id, CoursesPrefix, 0);
      }
    }
    r
  }

  /** The prefix is already lower case, and so is `/Courses/` once lower-cased. */
  lemma PrefixLowerCase()
    ensures Lower(CoursesPrefix) == CoursesPrefix
    ensures Lower("/Courses/") == CoursesPrefix
  {
    assert forall i :: 0 <= i < |CoursesPrefix| ==> LowerChar(CoursesPrefix[i]) == CoursesPrefix[i];
    assert forall i :: 0 <= i < |CoursesPrefix| ==> LowerChar("/Courses/"[i]) == CoursesPrefix[i];
  }

  /** A path made of the prefix, in any letter case, and a tail whose trimmed form is a segment routes to that segment. */
  lemma RouteReadsTail(prefix: string, tail: string, id: string)
    requires Lower(prefix) == CoursesPrefix
    requires Segment(id) && TrimSlashes(tail) == id
    ensures ModuleIdOfPath(prefix + tail) == Some(id)
  {
    var p := prefix + tail;
    assert p[..|CoursesPrefix|] == prefix && p[|CoursesPrefix|..] == tail;
  }

  /** A segment followed by `k` slashes trims back to the segment. */
  lemma SegmentTrims(id: string, k: nat)
    requires Segment(id)
    ensures TrimSlashes(id + Slashes(k)) == id
  {
    assert id[|id| - 1] in id;
    TrimAddedSlashes(id, k);
  }

  /** The prefix in any letter case, a segment and a run of `k` slashes route to that segment. */
  lemma SegmentRoutes(id: string, prefix: string, k: nat)
    requires Segment(id)
    requires Lower(prefix) == CoursesPrefix
    ensures ModuleIdOfPath(prefix + id + Slashes(k)) == Some(id)
  {
    SegmentTrims(id, k);
    RouteReadsTail(prefix, id + Slashes(k), id);
    assert prefix + id + Slashes(k) == prefix + (id + Slashes(k));
  }

  /**
   * The router still reads a plain id back when the link's prefix is typed in
   * another letter case or the path ends in a run of `/`.
   */
  lemma CoursePathRoundTrip(id: string, prefix: string, k: nat)
    requires PlainId(id)
    requires Lower(prefix) == CoursesPrefix
    ensures ModuleIdOfPath(prefix + id) == Some(id)
    ensures ModuleIdOfPath(prefix + id + Slashes(k)) == Some(id)
  {
    SegmentRoutes(id, prefix, 0);
    assert prefix + id + Slashes(0) == prefix + id;
    SegmentRoutes(id, prefix, k);
  }

  /** The Resume button's target, when the resume card is shown. */
  function ResumeLink(modules: seq<Module>): (r: Option<string>)
    ensures r.Some? <==> ShowsResumeCard(modules)
    ensures r.Some? ==> exists i :: FirstFlagged(modules, i) && r.value == CoursePath(modules[i].id)
  {
    match LastAccessedModule(modules)
    case None => None
    case Some(m) => Some(CoursePath(m.id))
  }

  /** The page's four modules; Algebra Basics was accessed last. */
  const Modules: seq<Module> := [
    Module("1", "Algebra Basics", 85, true),
    Module("2", "Trigonometry", 60, false),
    Module("3", "Geometry", 30, false),
    Module("4", "Calculus", 10, false)
  ]
}

/** The home page on its own four modules. */
module HomeSamples {
  import opened Common
  import opened Home

  /** The page resumes Algebra Basics, through the link `/courses/1`. */
  lemma SampleResume()
    ensures LastAccessedModule(Modules) == Some(Modules[0])
    ensures ResumeLink(Modules) == Some("/courses/1")
  {
    assert CoursePath("1") == "/courses/1";
  }

  /** All four modules are incomplete, so the continue list keeps them all. */
  lemma SampleIncomplete()
    ensures IncompleteModules(Modules) == Modules
  {
    NoneFinishedKeepsAll(Modules);
  }

  /** Only modules 2, 3 and 4 show continue cards; module 1 is on the resume card. */
  lemma SampleContinue()
    ensures !ContinueCardVisible(Modules, Modules[0])
    ensures forall k :: 1 <= k < 4 ==> ContinueCardVisible(Modules, Modules[k])
  {
  }

  /** The router reads module 1 back from `/courses/1`. */
  lemma SampleRoute()
    ensures ModuleIdOfPath("/courses/1") == Some("1")
  {
    assert CoursePath("1") == "/courses/1";
  }

  /** The router ignores the letter case of the prefix. */
  lemma SampleRouteCase()
    ensures ModuleIdOfPath("/Courses/1") == Some("1")
  {
    PrefixLowerCase();
    SegmentRoutes("1", "/Courses/", 0);
    assert "/Courses/" + "1" + Slashes(0) == "/Courses/1";
  }
}
