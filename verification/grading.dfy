/** The grading service: the letter-grade classification rule and the grade
    record lifecycle (create, update, look up by id) over an abstract
    id-keyed store standing in for the grade repository. */
module Grading {
  import opened Wrappers
  import Decimal

  /** The five letter categories, best first. */
  datatype Letter = A | B | C | D | F {

    /** The string the service stores in a grade's `letterGrade`. */
    function Symbol(): (s: string)
      ensures |s| == 1
      ensures LetterOf(s) == Some(this)
    {
      match this
      case A => "A"
      case B => "B"
      case C => "C"
      case D => "D"
      case F => "F"
    }

    /** Position in the order of merit: F is 0, A is 4. */
    function Rank(): nat {
      match this
      case A => 4
      case B => 3
      case C => 2
      case D => 1
      case F => 0
    }

    /** The band of scores that earns this letter, as a table of closed
        lower and open upper bounds. */
    predicate InBand(v: real) {
      match this
      case A => 90.0 <= v
      case B => 80.0 <= v < 90.0
      case C => 70.0 <= v < 80.0
      case D => 60.0 <= v < 70.0
      case F => v < 60.0
    }
  }

  /** Reads a stored letter string back; anything else is `None`. */
  function LetterOf(s: string): Option<Letter> {
    if s == "A" then Some(A)
    else if s == "B" then Some(B)
    else if s == "C" then Some(C)
    else if s == "D" then Some(D)
    else if s == "F" then Some(F)
    else None
  }

  /** The classification rule: thresholds tested in descending order, the
      first that the score reaches wins. */
  function Classify(v: real): (l: Letter)
    ensures l.InBand(v)
  {
    if v >= 90.0 then A
    else if v >= 80.0 then B
    else if v >= 70.0 then C
    else if v >= 60.0 then D
    else F
  }

  /** The bands partition the scores: a score lies in exactly one band, and
      that band's letter is the one `Classify` returns. */
  lemma ClassifyIsBand(v: real, l: Letter)
    ensures Classify(v) == l <==> l.InBand(v)
  {
  }

  /** Exact thresholds resolve to the higher letter, just below them to the
      lower one. */
  lemma ClassifyBoundaries()
    ensures Classify(90.0) == A && Classify(89.999) == B
    ensures Classify(80.0) == B && Classify(79.999) == C
    ensures Classify(70.0) == C && Classify(69.999) == D
    ensures Classify(60.0) == D && Classify(59.999) == F
  {
  }

  /** A higher score never earns a worse letter. */
  lemma ClassifyMonotone(v1: real, v2: real)
    requires v1 <= v2
    ensures Classify(v1).Rank() <= Classify(v2).Rank()
  {
  }

  /** The stored letter string for a score: always one of A, B, C, D, F. */
  function LetterGradeOf(v: real): (s: string)
    ensures s in {"A", "B", "C", "D", "F"}
    ensures LetterOf(s) == Some(Classify(v))
  {
    Classify(v).Symbol()
  }

  /** A grade record. Nullable Java fields that the service may receive
      unset are `Option`s: the id before the store assigns one, and the
      letter, which callers need not send. */
  datatype Grade = Grade(
    id: Option<int>,
    studentId: int,
    courseId: int,
    gradeValue: real,
    letterGrade: Option<string>)
  {
    /** The letter is the one the classification rule gives the value. */
    predicate Derived() {
      letterGrade.Some? && LetterOf(letterGrade.value) == Some(Classify(gradeValue))
    }
  }

  /** The grade repository's contents, by id. */
  type Store = map<int, Grade>

  /** Every record sits under its own id. */
  predicate Keyed(store: Store) {
    forall k :: k in store ==> store[k].id == Some(k)
  }

  /** Every stored letter agrees with its stored value. */
  predicate LettersDerived(store: Store) {
    forall k :: k in store ==> store[k].Derived()
  }

  /** Leading text of the not-found exception's message. */
  const NotFoundPrefix: string := "Grade not found with id: "

  datatype GradeError = GradeNotFound(id: int) {
    /** The message of the exception the service raises. */
    function Message(): (m: string)
      ensures |m| > |NotFoundPrefix| && m[..|NotFoundPrefix|] == NotFoundPrefix
      ensures m[|NotFoundPrefix|..] == Decimal.Render(id)
      ensures Decimal.Parse(m[|NotFoundPrefix|..]) == Some(id)
    {
      Decimal.RenderRoundTrip(id);
      var m := NotFoundPrefix + Decimal.Render(id);
      assert m[|NotFoundPrefix|..] == Decimal.Render(id);
      m
    }
  }

  /** Sets the letter from the value, leaving every other field alone. */
  function WithLetter(g: Grade): (r: Grade)
    ensures r.Derived()
    ensures r.(letterGrade := g.letterGrade) == g
  {
    g.(letterGrade := Some(LetterGradeOf(g.gradeValue)))
  }

  /** The repository's save: a record without an id is inserted under the
      fresh key the store generates, a record with an id is written under it. */
  function Save(store: Store, g: Grade, freshId: int): (r: (Store, Grade))
    requires g.id.None? ==> freshId !in store
    ensures r.1.id.Some? && r.0 == store[r.1.id.value := r.1]
    ensures r.1.id == (if g.id.Some? then g.id else Some(freshId))
    ensures r.1.(id := g.id) == g
  {
    var key := g.id.GetOr(freshId);
    var saved := g.(id := Some(key));
    (store[key := saved], saved)
  }

  /** Looks a grade up by id; a missing id is an error. */
  function GetGradeById(store: Store, id: int): (r: Result<Grade, GradeError>)
    ensures r.Success? <==> id in store
    ensures r.Success? ==> r.value == store[id]
    ensures r.Failure? ==> r.error == GradeNotFound(id)
  {
    if id in store then Success(store[id]) else Failure(GradeNotFound(id))
  }

  /** Stores a new grade with its letter computed from its value, whatever
      letter the input carried. */
  function CreateGrade(store: Store, g: Grade, freshId: int): (r: (Store, Grade))
    requires g.id.None? ==> freshId !in store
    ensures r.1.Derived()
    ensures r.1.studentId == g.studentId && r.1.courseId == g.courseId
    ensures r.1.gradeValue == g.gradeValue
    ensures r.1.id == (if g.id.Some? then g.id else Some(freshId))
    ensures r.0 == store[r.1.id.value := r.1]
    ensures Keyed(store) ==> Keyed(r.0)
    ensures LettersDerived(store) ==> LettersDerived(r.0)
  {
    Save(store, WithLetter(g), freshId)
  }

  /** Overwrites the student, course and value of the grade stored under
      `id` with those of `details`, recomputes its letter and saves it.
      The id and letter that `details` carry are ignored. A missing id is an
      error and the store is left as it was. */
  function UpdateGrade(store: Store, id: int, details: Grade): (r: (Store, Result<Grade, GradeError>))
    requires Keyed(store)
    ensures r.1.Success? <==> id in store
    ensures r.1.Failure? ==> r.0 == store && r.1.error == GradeNotFound(id)
    ensures r.1.Success? ==>
      var g := r.1.value;
      && g.id == Some(id)
      && g.studentId == details.studentId
      && g.courseId == details.courseId
      && g.gradeValue == details.gradeValue
      && g.Derived()
      && r.0 == store[id := g]
    ensures Keyed(r.0)
    ensures LettersDerived(store) ==> LettersDerived(r.0)
  {
    match GetGradeById(store, id)
    case Failure(e) => (store, Failure(e))
    case Success(existing) =>
      var changed := existing.(
        studentId := details.studentId,
        courseId := details.courseId,
        gradeValue := details.gradeValue);
      var saved := Save(store, WithLetter(changed), id);
      (saved.0, Success(saved.1))
  }

  /** A created grade can be read back under the id it was given. */
  lemma GetAfterCreate(store: Store, g: Grade, freshId: int)
    requires g.id.None? ==> freshId !in store
    ensures var (s, created) := CreateGrade(store, g, freshId);
      GetGradeById(s, created.id.value) == Success(created)
  {
  }

  /** After a successful update the store returns the updated record. */
  lemma GetAfterUpdate(store: Store, id: int, details: Grade)
    requires Keyed(store) && id in store
    ensures var (s, r) := UpdateGrade(store, id, details);
      r.Success? && GetGradeById(s, id) == r
  {
  }

  /** Creating depends on the input's value, not on the letter it carried. */
  lemma CreateIgnoresInputLetter(store: Store, g: Grade, letter: Option<string>, freshId: int)
    requires g.id.None? ==> freshId !in store
    ensures CreateGrade(store, g.(letterGrade := letter), freshId) == CreateGrade(store, g, freshId)
  {
  }

  /** Updating depends only on the student, course and value of the details:
      two details that agree on those give the same store and record. */
  lemma UpdateIgnoresDetailsIdAndLetter(store: Store, id: int, d1: Grade, d2: Grade)
    requires Keyed(store)
    requires d1.studentId == d2.studentId && d1.courseId == d2.courseId
    requires d1.gradeValue == d2.gradeValue
    ensures UpdateGrade(store, id, d1) == UpdateGrade(store, id, d2)
  {
  }
}
