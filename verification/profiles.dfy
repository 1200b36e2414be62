/** The profile helpers: the file-system uid handed to a new user, the course
    projects a user teaches or attends, and the project bindings that are not
    course projects. */
module Profiles {
  import opened Wrappers
  import Seqs

  /** A course and the id of the project it is taught in. */
  datatype Course = Course(courseId: nat, project: nat)

  /** A user's binding to a course, as teacher or as student. */
  datatype CourseBinding = CourseBinding(course: Course, isTeacher: bool)

  /** A project as far as the profile helpers see it: its id and the course
      it belongs to, if any. */
  datatype ProjectRef = ProjectRef(projectId: nat, course: Option<nat>)

  /** A user's binding to a project. */
  datatype ProjectBinding = ProjectBinding(project: ProjectRef, role: string)

  // ---------------------------------------------------------------------
  // uid allocation

  /** The largest of a non-empty list of uids. */
  function MaxUid(uids: seq<int>): (m: int)
    requires |uids| > 0
    ensures m in uids
    ensures forall i :: 0 <= i < |uids| ==> uids[i] <= m
  {
    if |uids| == 1 then uids[0]
    else
      var rest := MaxUid(uids[1..]);
      if uids[0] >= rest then uids[0] else rest
  }

  /** The uid of a new profile: the configured minimum (1000 by default)
      when there is no profile yet, otherwise one more than the largest
      existing uid. */
  function NextUid(existing: seq<int>, minUserid: Option<int>): (uid: int)
    ensures |existing| == 0 ==> uid == minUserid.GetOr(1000)
    ensures forall i :: 0 <= i < |existing| ==> existing[i] < uid
    ensures |existing| > 0 ==> uid - 1 in existing
  {
    if |existing| == 0 then minUserid.GetOr(1000) else MaxUid(existing) + 1
  }

  /** Allocating uids one profile at a time keeps them pairwise distinct and
      strictly increasing in creation order. */
  lemma UidsStayUnique(existing: seq<int>, minUserid: Option<int>)
    requires forall i, j :: 0 <= i < j < |existing| ==> existing[i] < existing[j]
    ensures var next := existing + [NextUid(existing, minUserid)];
            && Seqs.Distinct(next)
            && forall i, j :: 0 <= i < j < |next| ==> next[i] < next[j]
  {
  }

  // ---------------------------------------------------------------------
  // course projects

  /** The projects of the bindings held as teacher (or as student), with
      repetitions, in binding order. */
  function ProjectsAs(bindings: seq<CourseBinding>, teacher: bool): (ps: seq<nat>)
    ensures forall p :: p in ps <==> exists i :: 0 <= i < |bindings| && bindings[i].isTeacher == teacher && bindings[i].course.project == p
  {
    if |bindings| == 0 then []
    else
      var rest := ProjectsAs(bindings[1..], teacher);
      assert forall i :: 1 <= i < |bindings| ==> bindings[i] == bindings[1..][i - 1];
      if bindings[0].isTeacher == teacher then [bindings[0].course.project] + rest else rest
  }

  /** The generator loop of the two course-project helpers: yield each
      project unless the `duplicate` set already holds it, then record it. */
  method YieldUnique(ps: seq<nat>) returns (r: seq<nat>)
    ensures r == Seqs.Dedup(ps)
    ensures Seqs.Distinct(r)
    ensures forall p :: p in r <==> p in ps
  {
    r := [];
    var duplicate: set<nat> := {};
    var k := 0;
    while k < |ps|
      invariant 0 <= k <= |ps|
      invariant r == Seqs.Dedup(ps[..k])
      invariant forall p :: p in duplicate <==> p in r
    {
      assert ps[..k + 1][..k] == ps[..k];
      if ps[k] !in duplicate {
        r := r + [ps[k]];
        duplicate := duplicate + {ps[k]};
      }
      k := k + 1;
    }
    assert ps[..k] == ps;
    forall p ensures p in r <==> p in ps {
      if p in ps {
        var i :| 0 <= i < |ps| && ps[i] == p;
      }
    }
  }

  /** The projects of the courses a user teaches, each once, in the order of
      their first teacher binding. */
  method CourseProjectsTaught(bindings: seq<CourseBinding>) returns (r: seq<nat>)
    ensures Seqs.Distinct(r)
    ensures forall p :: p in r <==> exists i :: 0 <= i < |bindings| && bindings[i].isTeacher && bindings[i].course.project == p
    ensures r == Seqs.Dedup(ProjectsAs(bindings, true))
  {
    r := YieldUnique(ProjectsAs(bindings, true));
  }

  /** The projects of the courses a user attends as student, each once, in
      the order of their first student binding. */
  method CourseProjectsAttended(bindings: seq<CourseBinding>) returns (r: seq<nat>)
    ensures Seqs.Distinct(r)
    ensures forall p :: p in r <==> exists i :: 0 <= i < |bindings| && !bindings[i].isTeacher && bindings[i].course.project == p
    ensures r == Seqs.Dedup(ProjectsAs(bindings, false))
  {
    r := YieldUnique(ProjectsAs(bindings, false));
  }

  /** `is_teacher`: the taught list is not empty. */
  predicate IsTeacher(bindings: seq<CourseBinding>) {
    |Seqs.Dedup(ProjectsAs(bindings, true))| > 0
  }

  /** `is_student`: the attended list is not empty. */
  predicate IsStudent(bindings: seq<CourseBinding>) {
    |Seqs.Dedup(ProjectsAs(bindings, false))| > 0
  }

  /** A user is a teacher exactly when one of the course bindings is a
      teacher binding, and a student exactly when one is not. */
  lemma TeacherStudentIff(bindings: seq<CourseBinding>)
    ensures IsTeacher(bindings) <==> exists i :: 0 <= i < |bindings| && bindings[i].isTeacher
    ensures IsStudent(bindings) <==> exists i :: 0 <= i < |bindings| && !bindings[i].isTeacher
  {
    var t, s := ProjectsAs(bindings, true), ProjectsAs(bindings, false);
    if exists i :: 0 <= i < |bindings| && bindings[i].isTeacher {
      var i :| 0 <= i < |bindings| && bindings[i].isTeacher;
      assert bindings[i].course.project in t;
      assert t[Seqs.FirstIndex(t, bindings[i].course.project)] in Seqs.Dedup(t);
    }
    if exists i :: 0 <= i < |bindings| && !bindings[i].isTeacher {
      var i :| 0 <= i < |bindings| && !bindings[i].isTeacher;
      assert bindings[i].course.project in s;
      assert s[Seqs.FirstIndex(s, bindings[i].course.project)] in Seqs.Dedup(s);
    }
    if IsTeacher(bindings) {
      assert Seqs.Dedup(t)[0] in t;
    }
    if IsStudent(bindings) {
      assert Seqs.Dedup(s)[0] in s;
    }
  }

  /** `is_courseteacher`: the teacher flag of the first binding to the
      course, false when there is none. */
  function IsCourseTeacher(bindings: seq<CourseBinding>, course: Course): bool {
    if |bindings| == 0 then false
    else if bindings[0].course != course then IsCourseTeacher(bindings[1..], course)
    else bindings[0].isTeacher
  }

  /** A user teaches a course exactly when the first of their bindings to
      that course is a teacher binding; later bindings to the course do not
      matter, and without a binding the answer is no. */
  lemma {:induction false} IsCourseTeacherFirst(bindings: seq<CourseBinding>, course: Course)
    ensures IsCourseTeacher(bindings, course) <==>
              exists i :: 0 <= i < |bindings| && bindings[i].course == course && bindings[i].isTeacher
                          && forall j :: 0 <= j < i ==> bindings[j].course != course
    ensures (forall i :: 0 <= i < |bindings| ==> bindings[i].course != course) ==> !IsCourseTeacher(bindings, course)
    decreases |bindings|
  {
    if |bindings| > 0 && bindings[0].course != course {
      var tail := bindings[1..];
      IsCourseTeacherFirst(tail, course);
      if IsCourseTeacher(bindings, course) {
        var i :| 0 <= i < |tail| && tail[i].course == course && tail[i].isTeacher
                 && forall j :: 0 <= j < i ==> tail[j].course != course;
        assert forall j :: 1 <= j < i + 1 ==> bindings[j] == tail[j - 1];
        assert bindings[i + 1] == tail[i];
      }
      if exists i :: 0 <= i < |bindings| && bindings[i].course == course && bindings[i].isTeacher
                     && forall j :: 0 <= j < i ==> bindings[j].course != course {
        var i :| 0 <= i < |bindings| && bindings[i].course == course && bindings[i].isTeacher
                 && forall j :: 0 <= j < i ==> bindings[j].course != course;
        assert i > 0;
        assert tail[i - 1] == bindings[i];
        assert forall j :: 0 <= j < i - 1 ==> tail[j] == bindings[j + 1];
      }
      if forall i :: 0 <= i < |bindings| ==> bindings[i].course != course {
        assert forall i :: 0 <= i < |tail| ==> tail[i] == bindings[i + 1];
      }
    }
  }

  // ---------------------------------------------------------------------
  // project bindings

  /** `projectbindings`: the user's bindings whose project belongs to no
      course, in binding order. */
  function ProjectBindings(bindings: seq<ProjectBinding>): (r: seq<ProjectBinding>)
    ensures forall i :: 0 <= i < |r| ==> r[i].project.course.None?
    ensures forall b :: b in r <==> b in bindings && b.project.course.None?
    ensures |r| <= |bindings|
  {
    if |bindings| == 0 then []
    else
      var rest := ProjectBindings(bindings[1..]);
      assert forall b :: b in bindings <==> b == bindings[0] || b in bindings[1..];
      if bindings[0].project.course.None? then [bindings[0]] + rest else rest
  }

  /** The filter keeps order: it distributes over concatenation, so the
      kept bindings of an earlier part come before those of a later one. */
  lemma {:induction false} ProjectBindingsConcat(a: seq<ProjectBinding>, b: seq<ProjectBinding>)
    ensures ProjectBindings(a + b) == ProjectBindings(a) + ProjectBindings(b)
    decreases |a|
  {
    if |a| == 0 {
      assert a + b == b;
    } else {
      assert (a + b)[0] == a[0];
      assert (a + b)[1..] == a[1..] + b;
      ProjectBindingsConcat(a[1..], b);
    }
  }

  /** A list with no course project is kept whole. */
  lemma {:induction false} ProjectBindingsKeepsPlain(bindings: seq<ProjectBinding>)
    requires forall i :: 0 <= i < |bindings| ==> bindings[i].project.course.None?
    ensures ProjectBindings(bindings) == bindings
    decreases |bindings|
  {
    if |bindings| > 0 {
      ProjectBindingsKeepsPlain(bindings[1..]);
    }
  }
}
