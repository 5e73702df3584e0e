# University records: grade classification and resilient grade fetching

A Dafny model of the two pieces of the university-records services that
carry rules of their own:

- **Grading service** (`Grading`, `grading.dfy`). A grade record has an id,
  a student, a course, a numeric value and a letter. The letter comes from
  a fixed classification rule: thresholds 90, 80, 70 and 60 are tested in
  descending order, the first one the value reaches wins, and a value below
  60 gets "F". Creating or updating a grade recomputes the letter from the
  value, so every stored letter is a function of its stored value. The grade
  repository is an abstract `map<int, Grade>` keyed by id; its `save` puts a
  record without an id under a fresh key that the store supplies (a
  parameter) and writes a record with an id under that id.
- **Student service grade fetch** (`StudentGrades`, `student_grades.dfy`).
  To list a student's grades the student service issues a GET to the
  configured grading-service base URL followed by `/api/grades/student/`
  and the student id in decimal. A null body becomes the empty list, an
  array becomes the list of its elements in order, and any exception is
  rethrown. A circuit-breaker annotation routes every failure to a
  fallback that returns the empty list, so callers always get a list:
  the payload on success, empty otherwise. The remote call is a function
  parameter from URL to `Outcome`; whether the breaker lets the call
  through is a boolean parameter.
- **Decimal rendering** (`Decimal`, `decimal.dfy`) of the id in the URL
  and in the not-found message, as Java's string concatenation renders a
  `long`, with a parser proving the rendering can be read back.
- `Wrappers` (`wrappers.dfy`) holds `Option` (a nullable reference) and
  `Result` (a value or a thrown exception).

The score is a Java `double` but is only compared with integer constants,
so it is modelled as `real`.

## Model

| member | source | states |
|---|---|---|
| Grading.Classify | grading-service/src/main/java/com/university/grading/service/GradingService.java:50-63 | the letter returned always lies in its band of the grade table (closed lower bound, open upper bound) |
| Grading.ClassifyIsBand | grading-service/src/main/java/com/university/grading/service/GradingService.java:50-63 | the five bands partition the scores: `Classify(v)` is a letter exactly when `v` lies in that letter's band, so classification is total and yields exactly one letter |
| Grading.ClassifyBoundaries | grading-service/src/main/java/com/university/grading/service/GradingService.java:52-61 | 90, 80, 70 and 60 get the higher letter (A, B, C, D); 89.999, 79.999, 69.999 and 59.999 get the lower one |
| Grading.ClassifyMonotone | grading-service/src/main/java/com/university/grading/service/GradingService.java:50-63 | a higher score never earns a worse letter |
| Grading.LetterGradeOf | grading-service/src/main/java/com/university/grading/service/GradingService.java:52-62 | the stored letter string is one of "A", "B", "C", "D", "F" and reads back as the classification of the value |
| Grading.WithLetter | grading-service/src/main/java/com/university/grading/service/GradingService.java:50-63 | after the letter is computed it agrees with the value, and no other field of the record changes |
| Grading.Save | grading-service/src/main/java/com/university/grading/service/GradingService.java:34 | the repository save: a record with no id is stored under the fresh key the store supplies, a record with an id is written under that id; the saved record differs from the input only in its id, and it is the only entry that changes |
| Grading.GetGradeById | grading-service/src/main/java/com/university/grading/service/GradingService.java:19-22 | succeeds exactly when the id is stored, with the stored record; otherwise fails with not-found for that id |
| Grading.CreateGrade | grading-service/src/main/java/com/university/grading/service/GradingService.java:32-35 | the saved record keeps the student, course and value, carries the letter derived from the value and an id, and is the only change to the store; keyed and letter-consistent stores stay so |
| Grading.CreateIgnoresInputLetter | grading-service/src/main/java/com/university/grading/service/GradingService.java:32-35 | whatever letter the input carried, creation gives the same store and record |
| Grading.GetAfterCreate | grading-service/src/main/java/com/university/grading/service/GradingService.java:19-35 | the created record is found under the id it was given |
| Grading.UpdateGrade | grading-service/src/main/java/com/university/grading/service/GradingService.java:37-44 | on a stored id: keeps the id, takes student, course and value from the details, recomputes the letter, changes only that entry; on a missing id: not-found and the store unchanged; letter consistency of the store is preserved |
| Grading.UpdateIgnoresDetailsIdAndLetter | grading-service/src/main/java/com/university/grading/service/GradingService.java:37-44 | the details' id and letter have no effect: details agreeing on student, course and value give the same result |
| Grading.GetAfterUpdate | grading-service/src/main/java/com/university/grading/service/GradingService.java:19-44 | after a successful update, looking the id up returns the updated record |
| Grading.GradeError.Message | grading-service/src/main/java/com/university/grading/service/GradingService.java:21 | the not-found message is "Grade not found with id: " followed by the decimal rendering of the missing id, which parses back to that id |
| Decimal.Render | student-service/src/main/java/com/university/student/service/StudentService.java:57 | an id renders as an optional minus sign (present exactly for negatives) followed by a non-empty run of decimal digits with no leading zero and no "-0" |
| Decimal.RenderRoundTrip | student-service/src/main/java/com/university/student/service/StudentService.java:57 | the decimal rendering of an id parses back to the same id |
| Decimal.RenderInjective | student-service/src/main/java/com/university/student/service/StudentService.java:57 | distinct ids render to distinct strings |
| StudentGrades.GradesUrl | student-service/src/main/java/com/university/student/service/StudentService.java:57 | the URL is the base, then "/api/grades/student/", then the decimal rendering of the student id (no leading zeros), which parses back to the id |
| StudentGrades.DefaultGradesUrl | student-service/src/main/java/com/university/student/service/StudentService.java:23-24 | with the default base "http://grading-service:8084" configured, student 42 is fetched from "http://grading-service:8084/api/grades/student/42" |
| StudentGrades.GradesUrlInjective | student-service/src/main/java/com/university/student/service/StudentService.java:57 | two students never share a request URL |
| StudentGrades.ListOf | student-service/src/main/java/com/university/student/service/StudentService.java:59 | copying an array yields a list exactly when no element is null, and then the same elements in the same order |
| StudentGrades.GetStudentGrades | student-service/src/main/java/com/university/student/service/StudentService.java:54-64 | a null body gives the empty list, a null-free array its elements in order, an array with a null a failure, and a remote exception is rethrown with its message; no partial result on any failure |
| StudentGrades.GradesFallback | student-service/src/main/java/com/university/student/service/StudentService.java:66-70 | the fallback is empty for every student and every error |
| StudentGrades.ResilientStudentGrades | student-service/src/main/java/com/university/student/service/StudentService.java:53-70 | the caller always gets a list: the primary call's list when it is let through and succeeds, empty when it is refused or fails |
| StudentGrades.RefusedCallIgnoresRemote | student-service/src/main/java/com/university/student/service/StudentService.java:53 | a call the breaker refuses does not depend on the remote at all |
| StudentGrades.ResilientIsPayloadOrEmpty | student-service/src/main/java/com/university/student/service/StudentService.java:53-70 | end to end, in terms of the remote outcome: a permitted call answered with a null-free array gives its elements in order, every other outcome the empty list |

## Left out

- The circuit-breaker state machine (closed, open, half-open, sliding window, failure-rate threshold, cool-down). It belongs to the resilience library the annotation at `StudentService.java:53` names and has no code in these services; its decision is the `permitted` parameter, and the outcome it records is not modelled.
- HTTP I/O, timeouts and JSON decoding: the remote call is the `remote` parameter and its result the `Outcome` datatype; a decoding error is an `Err` like any other exception.
- Logging in `getStudentGrades` and `getGradesFallback`: it has no effect on results.
- `getAllGrades`, `getGradesByStudentId`, `getGradesByCourseId` and `deleteGrade`: each is a single call into the grade repository, whose query order and delete semantics are library-defined.
- The rest of the student service (`getAllStudents`, `getStudentById`, `createStudent`, `updateStudent`, `deleteStudent`), the course and professor services and the controllers: repository pass-throughs, field-by-field copies and HTTP routing with no rule to state.
- Grading.UpdateGrade: requires a keyed store (every record sits under its own id), which any real repository satisfies; the repository's save is then an overwrite of that entry.
- Grading.CreateGrade: an input that already carries an id is upserted under that id, overwriting any record stored there. A JPA repository with a generated `Long` id (the pattern of the model classes in these services) behaves differently for an id it does not hold: Hibernate before 6.6 inserts under a freshly generated id, and 6.6 and later throw. The grade repository and entity are not part of this model, so that library behaviour is not reproduced.
- IEEE-754 behaviour of the score (NaN classifies as "F", negative zero) and a null score, student id or course id: the score is a `real` and ids are `int`s.
- A null student id in the URL (Java would render it as "null"): ids are never null here; the 64-bit range of `long` is not enforced since rendering is correct for every integer.
- Concurrency: the services have no concurrent behaviour of their own.
