/** The student service's fetch of a student's grades from the grading
    service, the fallback that replaces a failed fetch, and the two composed
    as the circuit-breaker annotation composes them. The remote call is an
    abstract function from request URL to outcome; the breaker's decision
    whether to let a call through is an abstract boolean. */
module StudentGrades {
  import opened Wrappers
  import Decimal

  /** Base URL used when no `services.grading-service.url` is configured. */
  const DefaultGradingServiceUrl: string := "http://grading-service:8084"

  /** Path of the grading service's per-student listing. */
  const StudentGradesPath: string := "/api/grades/student/"

  /** A grade as the grading service sends it: the fields of its JSON
      grade objects. */
  datatype GradeEntry = GradeEntry(
    studentId: int,
    courseId: int,
    gradeValue: real,
    letterGrade: Option<string>)

  /** What the remote GET produces: a decoded body, which is a null
      reference or an array whose elements may themselves be null, or a
      thrown exception with its message. */
  datatype Outcome = Ok(body: Option<seq<Option<GradeEntry>>>) | Err(message: string)

  /** Why a fetch produced no list. */
  datatype FetchError =
    | RemoteError(message: string)   // the remote call threw; rethrown as is
    | NullElement                    // the array held a null, rejected when copied into a list
    | CallNotPermitted               // the breaker refused the call

  /** The request URL: the configured base, the listing path, the id in
      decimal. Each part can be read back from the URL. */
  function GradesUrl(base: string, studentId: int): (url: string)
    ensures |url| > |base| + |StudentGradesPath|
    ensures url[..|base|] == base
    ensures url[|base|..|base| + |StudentGradesPath|] == StudentGradesPath
    ensures url[|base| + |StudentGradesPath|..] == Decimal.Render(studentId)
    ensures Decimal.Parse(url[|base| + |StudentGradesPath|..]) == Some(studentId)
  {
    Decimal.RenderRoundTrip(studentId);
    var url := base + StudentGradesPath + Decimal.Render(studentId);
    assert url[|base| + |StudentGradesPath|..] == Decimal.Render(studentId);
    url
  }

  /** With no base configured, student 42's grades are requested from the
      grading service's default host and port. */
  lemma DefaultGradesUrl()
    ensures GradesUrl(DefaultGradingServiceUrl, 42)
      == "http://grading-service:8084" + "/api/grades/student/" + "42"
  {
    assert Decimal.NatDigits(4) == "4";
  }

  /** Different students are fetched from different URLs. */
  lemma GradesUrlInjective(base: string, s1: int, s2: int)
    requires GradesUrl(base, s1) == GradesUrl(base, s2)
    ensures s1 == s2
  {
  }

  /** Copies an array into an immutable list, as `List.of` does: the same
      elements in the same order, or nothing when some element is null. */
  function ListOf<G>(xs: seq<Option<G>>): (r: Option<seq<G>>)
    ensures r.Some? <==> forall i :: 0 <= i < |xs| ==> xs[i].Some?
    ensures r.Some? ==> |r.value| == |xs| && forall i :: 0 <= i < |xs| ==> xs[i] == Some(r.value[i])
  {
    if |xs| == 0 then Some([])
    else match xs[0]
      case None => None
      case Some(x) =>
        match ListOf(xs[1..])
        case None => None
        case Some(rest) => Some([x] + rest)
  }

  /** The primary call: fetch from the grading service and shape the body.
      A null body becomes the empty list, an array the list of its elements;
      an exception is rethrown unchanged. */
  function GetStudentGrades(base: string, studentId: int, remote: string -> Outcome): (r: Result<seq<GradeEntry>, FetchError>)
    ensures var o := remote(GradesUrl(base, studentId));
      && (o.Err? ==> r == Failure(RemoteError(o.message)))
      && (o == Ok(None) ==> r == Success([]))
      && (o.Ok? && o.body.Some? ==>
            var xs := o.body.value;
            if forall i :: 0 <= i < |xs| ==> xs[i].Some? then
              r.Success? && |r.value| == |xs| && forall i :: 0 <= i < |xs| ==> xs[i] == Some(r.value[i])
            else
              r == Failure(NullElement))
  {
    match remote(GradesUrl(base, studentId))
    case Err(m) => Failure(RemoteError(m))
    case Ok(None) => Success([])
    case Ok(Some(xs)) =>
      match ListOf(xs)
      case None => Failure(NullElement)
      case Some(l) => Success(l)
  }

  /** The degraded-mode answer: an empty list, never null, whatever the
      student and whatever went wrong. */
  function GradesFallback(studentId: int, e: FetchError): (r: seq<GradeEntry>)
    ensures |r| == 0
  {
    []
  }

  /** The annotated call as its callers see it: when the breaker lets the
      call through and it succeeds, its list; otherwise the fallback's. */
  function ResilientStudentGrades(base: string, studentId: int, permitted: bool, remote: string -> Outcome): (r: seq<GradeEntry>)
    ensures permitted && GetStudentGrades(base, studentId, remote).Success? ==>
      r == GetStudentGrades(base, studentId, remote).value
    ensures !permitted || GetStudentGrades(base, studentId, remote).Failure? ==> r == []
  {
    if !permitted then GradesFallback(studentId, CallNotPermitted)
    else match GetStudentGrades(base, studentId, remote)
      case Success(l) => l
      case Failure(e) => GradesFallback(studentId, e)
  }

  /** A refused call never reaches the grading service: the answer is the
      same whatever the remote would have done. */
  lemma RefusedCallIgnoresRemote(base: string, studentId: int, remote1: string -> Outcome, remote2: string -> Outcome)
    ensures ResilientStudentGrades(base, studentId, false, remote1) == ResilientStudentGrades(base, studentId, false, remote2)
  {
  }

  /** End to end: a permitted call answered with a null-free array yields
      that array's elements in order; any other outcome yields the empty
      list. */
  lemma ResilientIsPayloadOrEmpty(base: string, studentId: int, permitted: bool, remote: string -> Outcome)
    ensures var o := remote(GradesUrl(base, studentId));
      var r := ResilientStudentGrades(base, studentId, permitted, remote);
      if permitted && o.Ok? && o.body.Some? && ListOf(o.body.value).Some? then
        |r| == |o.body.value| && forall i :: 0 <= i < |r| ==> o.body.value[i] == Some(r[i])
      else
        r == []
  {
  }
}
