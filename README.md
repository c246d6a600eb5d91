# Academic Assessment System — a Dafny model

The Academic Assessment System manages courses, exams, students and users. Its Spring back end stores them in a relational database and serves them over a REST API. Its React front end shows them in grids, detail dialogs and edit dialogs, and the role of the logged-in user decides what can be done.

This project models the parts of both halves that hold logic.

**Back end**
- The JPA entities are Dafny classes with mutable fields. The tables are a `Database` class that maps ids to rows, with the cascades the mappings declare and the unique and foreign-key constraints of the schema.
- The services find, update and delete rows with those cascades.
- The staff-assignment helper reconciles a course's professors and assistants with the requested ids. It deletes unwanted rows, keeps wanted ones and creates the missing ones.
- The create DTOs carry validation constraints and convert to and from entities.
- The exam and user controllers map results to HTTP statuses.
- The JWT filter decides which requests it handles and when it authenticates one.

**Front end**
- The home page picks the next three exams.
- The user, course and exam grids show sections and actions by role, filter by search and open dialogs.
- The detail dialogs load data, build labels and export file names, and import files.
- The edit dialogs prefill a form from a row and build the request from the form.
- The registration form validates its fields.

**Interfaces**
- Server calls, the password encoder, JWT parsing, JavaScript `Number` and `Date` parsing, and the clock are parameters.
- A call that can fail answers with a `Result`.

Every operation states its result or its new state against the source's behaviour. Its partner is proved beside it:
- a round trip (key building and parsing, prefill then submit, integer printing and parsing);
- an invariant kept (table consistency, the exact set of staff assignments after reconciliation);
- or a reference property (schedule order and permutation, the earliest upcoming exams).

## Model

Paths below are abbreviated:
- `B/` stands for `academic_assessment_system_backend/src/main/java/mk/ukim/finki/emc/academic_assessment_system_backend/`.
- `F/` stands for `academic_assessment_system_frontend/src/`.

The source cells are written out in full.

| member | source | states |
|---|---|---|
| Entities.StaffRoleValueOf | academic_assessment_system_backend/src/main/java/mk/ukim/finki/emc/academic_assessment_system_backend/helpers/StaffAssignmentHelper.java:94 | `StaffRole.valueOf` succeeds exactly for "PROFESSOR" and "ASSISTANT", and the role's name is the text it parsed |
| Entities.User.constructor | academic_assessment_system_backend/src/main/java/mk/ukim/finki/emc/academic_assessment_system_backend/model/domain/User.java:60-66 | a new user has the given names, e-mail, password and role, no id, no student profile and no staff assignments |
| Entities.User.SetStudent | academic_assessment_system_backend/src/main/java/mk/ukim/finki/emc/academic_assessment_system_backend/model/domain/User.java:53-58 | the user links the profile and a non-null profile links back to the user |
| Entities.User.ColumnViolation | academic_assessment_system_backend/src/main/java/mk/ukim/finki/emc/academic_assessment_system_backend/model/domain/User.java:27-41 | names the first of `first_name`, `last_name`, `email` and `user_role` whose NOT NULL or length constraint the row breaks, and nothing exactly when the row fits |
| Entities.Student.ColumnViolation | academic_assessment_system_backend/src/main/java/mk/ukim/finki/emc/academic_assessment_system_backend/model/domain/Student.java:28-41 | names the first of `student_index`, `major` and `user_id` whose NOT NULL or length constraint the row breaks, and nothing exactly when the row fits |
| Entities.Course.ColumnViolation | academic_assessment_system_backend/src/main/java/mk/ukim/finki/emc/academic_assessment_system_backend/model/domain/Course.java:29-39 | names the first of `course_code`, `course_name`, `semester` and `academic_year` whose NOT NULL or length constraint the row breaks, and nothing exactly when the row fits |
| Entities.Exam.RowViolation | academic_assessment_system_backend/src/main/java/mk/ukim/finki/emc/academic_assessment_system_backend/model/domain/Exam.java:23-52 | for the exam's schedule with a given course: nothing exactly when session (at most 100), date, capacity, both times and the course are present and every laboratory has at most 100 characters, otherwise one of those columns |
| Entities.Exam.ColumnViolation | academic_assessment_system_backend/src/main/java/mk/ukim/finki/emc/academic_assessment_system_backend/model/domain/Exam.java:23-52 | nothing exactly when the exam's own row fits the `exams` and `exam_reserved_labs` columns |
| Entities.Student.constructor | academic_assessment_system_backend/src/main/java/mk/ukim/finki/emc/academic_assessment_system_backend/model/domain/Student.java:46-51 | a new profile has the given index, major and user, no id and no registrations |
| Entities.Course.constructor | academic_assessment_system_backend/src/main/java/mk/ukim/finki/emc/academic_assessment_system_backend/model/domain/Course.java:55-60 | a new course has the given code, name, semester and year, no id, no enrollments and no assignments |
| Entities.Exam.constructor | academic_assessment_system_backend/src/main/java/mk/ukim/finki/emc/academic_assessment_system_backend/model/domain/Exam.java:57-66 | the six-argument constructor sets the given fields and leaves the laboratories and registrations empty |
| Entities.Exam.WithLaboratories | academic_assessment_system_backend/src/main/java/mk/ukim/finki/emc/academic_assessment_system_backend/model/domain/Exam.java:68-77 | the seven-argument constructor also sets the given laboratories |
| Entities.StudentExamRegistration.constructor | academic_assessment_system_backend/src/main/java/mk/ukim/finki/emc/academic_assessment_system_backend/model/domain/StudentExamRegistration.java:47-51 | a new registration links student and exam and has status REGISTERED |
| Entities.CourseStaffAssignment.constructor | academic_assessment_system_backend/src/main/java/mk/ukim/finki/emc/academic_assessment_system_backend/model/domain/CourseStaffAssignment.java:48-52 | a new assignment links user, course and role and has no id |
| Tables.Database.PersistUser | academic_assessment_system_backend/src/main/java/mk/ukim/finki/emc/academic_assessment_system_backend/model/domain/User.java:17-41 | a user with a null or over-long name or e-mail, or a null role, is rejected on the first such column of `app_users`, and one whose e-mail is already stored is rejected by `uk_app_users_email`; either way nothing changes; otherwise it gets the next generated id and is stored under it; the unique constraints keep holding |
| Tables.Database.SaveExam | academic_assessment_system_backend/src/main/java/mk/ukim/finki/emc/academic_assessment_system_backend/model/domain/Exam.java:19-52 | the violation reported is exactly the exam's ColumnViolation, and then nothing is written and a new exam gets no id; otherwise a new exam gets the next id, a stored one is merged under its own id, and it is found under its id |
| Tables.Database.PersistAssignment | academic_assessment_system_backend/src/main/java/mk/ukim/finki/emc/academic_assessment_system_backend/model/domain/CourseStaffAssignment.java:24-26 | a new assignment gets the next id and is stored under it; a (course, user, role) triple not yet stored keeps the unique constraints |
| Tables.Database.DeleteAssignment | academic_assessment_system_backend/src/main/java/mk/ukim/finki/emc/academic_assessment_system_backend/helpers/StaffAssignmentHelper.java:82 | the assignment's row, and only it, is removed; an unsaved one removes nothing |
| Tables.Database.DeleteExam | academic_assessment_system_backend/src/main/java/mk/ukim/finki/emc/academic_assessment_system_backend/model/domain/Exam.java:54-55 | the exam and exactly its registrations (orphan removal) are removed; all other rows stay and the unique constraints keep holding |
| Tables.Database.DeleteCourse | academic_assessment_system_backend/src/main/java/mk/ukim/finki/emc/academic_assessment_system_backend/model/domain/Exam.java:46-51 | a course an exam refers to is kept and `fk_exam_course` is reported; otherwise the course and exactly its enrollments and staff assignments are removed and nothing refers to it any more |
| Tables.Database.DeleteStudent | academic_assessment_system_backend/src/main/java/mk/ukim/finki/emc/academic_assessment_system_backend/model/domain/CourseEnrollment.java:27-33 | an enrolled profile is kept and `fk_enrollment_student` is reported; otherwise the profile and exactly its exam registrations are removed and nothing refers to it any more |
| Tables.Database.DeleteStudentIfStored | academic_assessment_system_backend/src/main/java/mk/ukim/finki/emc/academic_assessment_system_backend/service/domain/implementation/StudentServiceImpl.java:55 | `delete` of an entity no longer stored is a no-op; a stored one is deleted as DeleteStudent, with the same constraint check |
| Tables.Database.RemoveOrphanProfiles | academic_assessment_system_backend/src/main/java/mk/ukim/finki/emc/academic_assessment_system_backend/model/domain/User.java:43-44 | the user's profiles other than the kept one are deleted with their registrations, unless one is enrolled, when `fk_enrollment_student` is reported and nothing changes |
| Tables.Database.UserDeleteViolation | academic_assessment_system_backend/src/main/java/mk/ukim/finki/emc/academic_assessment_system_backend/model/domain/PasswordResetToken.java:26-29 | no constraint is named if and only if no profile of the user is enrolled and no reset token refers to the user |
| Tables.Database.DeleteUser | academic_assessment_system_backend/src/main/java/mk/ukim/finki/emc/academic_assessment_system_backend/model/domain/User.java:43-51 | the violation reported is exactly UserDeleteViolation, and then nothing changes; otherwise the user, its profiles, their registrations and the user's staff assignments are removed, nothing else |
| Tables.Database.CascadeUser | academic_assessment_system_backend/src/main/java/mk/ukim/finki/emc/academic_assessment_system_backend/model/domain/User.java:43-51 | the user, its profiles, their registrations and the user's staff assignments are removed and nothing else; the identity bounds, keying and unique constraints keep holding |
| StaffAssignmentHelper.SplitKey | academic_assessment_system_backend/src/main/java/mk/ukim/finki/emc/academic_assessment_system_backend/helpers/StaffAssignmentHelper.java:105-107 | splitting a built key at "_" gives exactly the printed id (or "null") and the role name |
| StaffAssignmentHelper.KeyRoundTrip | academic_assessment_system_backend/src/main/java/mk/ukim/finki/emc/academic_assessment_system_backend/helpers/StaffAssignmentHelper.java:92-94 | parsing a key built from an id and a role gives that id and role back |
| StaffAssignmentHelper.NullKeyDoesNotParse | academic_assessment_system_backend/src/main/java/mk/ukim/finki/emc/academic_assessment_system_backend/helpers/StaffAssignmentHelper.java:92-94 | a key built from a null id does not parse (`Long.parseLong("null")` throws) |
| StaffAssignmentHelper.BuildKeyInjective | academic_assessment_system_backend/src/main/java/mk/ukim/finki/emc/academic_assessment_system_backend/helpers/StaffAssignmentHelper.java:105-107 | two keys are equal if and only if their ids and roles are |
| StaffAssignmentHelper.Distinct | academic_assessment_system_backend/src/main/java/mk/ukim/finki/emc/academic_assessment_system_backend/helpers/StaffAssignmentHelper.java:32-38 | the normalised id list has the same members as the input and no repeats |
| StaffAssignmentHelper.DistinctKeepsFirstOccurrenceOrder | academic_assessment_system_backend/src/main/java/mk/ukim/finki/emc/academic_assessment_system_backend/helpers/StaffAssignmentHelper.java:32-38 | the ids keep the order of their first occurrences in the input |
| StaffAssignmentHelper.BuildDesiredKeys | academic_assessment_system_backend/src/main/java/mk/ukim/finki/emc/academic_assessment_system_backend/helpers/StaffAssignmentHelper.java:41-47 | the loops build exactly the keys of the requested (id, role) pairs |
| StaffAssignmentHelper.NormalizeIds | academic_assessment_system_backend/src/main/java/mk/ukim/finki/emc/academic_assessment_system_backend/helpers/StaffAssignmentHelper.java:31-39 | a null list gives no ids; otherwise the same ids without repeats |
| StaffAssignmentHelper.DesiredKeysUnfold | academic_assessment_system_backend/src/main/java/mk/ukim/finki/emc/academic_assessment_system_backend/helpers/StaffAssignmentHelper.java:41-47 | the desired keys are the professor keys together with the assistant keys |
| StaffAssignmentHelper.AllIds | academic_assessment_system_backend/src/main/java/mk/ukim/finki/emc/academic_assessment_system_backend/helpers/StaffAssignmentHelper.java:50-52 | every requested pair's user id is among the ids looked up |
| StaffAssignmentHelper.FindAllById | academic_assessment_system_backend/src/main/java/mk/ukim/finki/emc/academic_assessment_system_backend/helpers/StaffAssignmentHelper.java:54-56 | `findAllById` returns exactly the stored users among the ids, each under its id |
| StaffAssignmentHelper.FindMissingUser | academic_assessment_system_backend/src/main/java/mk/ukim/finki/emc/academic_assessment_system_backend/helpers/StaffAssignmentHelper.java:58-62 | a reported id was requested and is not stored; no report means every requested id is stored |
| StaffAssignmentHelper.LeftoverMembers | academic_assessment_system_backend/src/main/java/mk/ukim/finki/emc/academic_assessment_system_backend/helpers/StaffAssignmentHelper.java:74-88 | after the pass over existing rows, the keys left to create are exactly the desired keys no row had |
| StaffAssignmentHelper.KeepMaskFirstDesired | academic_assessment_system_backend/src/main/java/mk/ukim/finki/emc/academic_assessment_system_backend/helpers/StaffAssignmentHelper.java:74-88 | an existing row is kept if and only if its key is desired and no earlier row had that key |
| StaffAssignmentHelper.KeptKeys | academic_assessment_system_backend/src/main/java/mk/ukim/finki/emc/academic_assessment_system_backend/helpers/StaffAssignmentHelper.java:74-88 | the kept rows have distinct keys, which are exactly the desired keys some row had |
| StaffAssignmentHelper.VisitExisting | academic_assessment_system_backend/src/main/java/mk/ukim/finki/emc/academic_assessment_system_backend/helpers/StaffAssignmentHelper.java:74-88 | the iterator loop keeps the rows the mask selects, deletes the others from the table and leaves the uncovered desired keys |
| StaffAssignmentHelper.RemoveUndesired | academic_assessment_system_backend/src/main/java/mk/ukim/finki/emc/academic_assessment_system_backend/helpers/StaffAssignmentHelper.java:64-88 | the course's list becomes the kept rows in their order, the dropped rows leave the table, and the leftover keys are returned |
| StaffAssignmentHelper.ParseMissingKey | academic_assessment_system_backend/src/main/java/mk/ukim/finki/emc/academic_assessment_system_backend/helpers/StaffAssignmentHelper.java:91-94 | a leftover key parses back to a requested pair whose key it is |
| StaffAssignmentHelper.SaveNew | academic_assessment_system_backend/src/main/java/mk/ukim/finki/emc/academic_assessment_system_backend/helpers/StaffAssignmentHelper.java:98-101 | a fresh assignment for the user, course and role is stored under the next id |
| StaffAssignmentHelper.CreateMissing | academic_assessment_system_backend/src/main/java/mk/ukim/finki/emc/academic_assessment_system_backend/helpers/StaffAssignmentHelper.java:91-102 | every leftover key gets exactly one new assignment, appended to the course and stored under consecutive ids |
| StaffAssignmentHelper.FinalKeys | academic_assessment_system_backend/src/main/java/mk/ukim/finki/emc/academic_assessment_system_backend/helpers/StaffAssignmentHelper.java:74-102 | kept keys followed by created keys are distinct and are exactly the desired keys |
| StaffAssignmentHelper.KeptThenCreated | academic_assessment_system_backend/src/main/java/mk/ukim/finki/emc/academic_assessment_system_backend/helpers/StaffAssignmentHelper.java:74-102 | the kept rows followed by the created rows hold each desired (user, role) pair exactly once |
| StaffAssignmentHelper.AddMissing | academic_assessment_system_backend/src/main/java/mk/ukim/finki/emc/academic_assessment_system_backend/helpers/StaffAssignmentHelper.java:90-102 | after the creation loop the course has each desired pair exactly once and the table holds the new rows, each a fresh assignment of this course |
| StaffAssignmentHelper.ReplaceAssignments | academic_assessment_system_backend/src/main/java/mk/ukim/finki/emc/academic_assessment_system_backend/helpers/StaffAssignmentHelper.java:64-102 | unwanted rows are deleted, wanted ones kept in order, missing ones appended as fresh assignments of this course; the course ends with exactly the desired pairs |
| StaffAssignmentHelper.ApplyStaffAssignments | academic_assessment_system_backend/src/main/java/mk/ukim/finki/emc/academic_assessment_system_backend/helpers/StaffAssignmentHelper.java:27-103 | an unknown requested id throws "User not found: <id>" and changes nothing; otherwise the course ends with exactly the requested (user, role) pairs, kept rows untouched and the created rows fresh assignments of this course |
| UserService.FindById | academic_assessment_system_backend/src/main/java/mk/ukim/finki/emc/academic_assessment_system_backend/service/domain/implementation/UserServiceImpl.java:35-38 | a user is found if and only if the id is stored |
| UserService.FindByEmail | academic_assessment_system_backend/src/main/java/mk/ukim/finki/emc/academic_assessment_system_backend/service/domain/implementation/UserServiceImpl.java:89-92 | the user with that e-mail is found if and only if one exists, and it is the only one |
| UserService.Login | academic_assessment_system_backend/src/main/java/mk/ukim/finki/emc/academic_assessment_system_backend/service/domain/implementation/UserServiceImpl.java:80-87 | an unknown e-mail throws UsernameNotFoundException with the e-mail as message; otherwise the user with that e-mail is returned |
| UserService.Encode | academic_assessment_system_backend/src/main/java/mk/ukim/finki/emc/academic_assessment_system_backend/AcademicAssessmentSystemBackendApplication.java:18 | BCrypt refuses a null password with IllegalArgumentException and encodes any other |
| UserService.Update | academic_assessment_system_backend/src/main/java/mk/ukim/finki/emc/academic_assessment_system_backend/service/domain/implementation/UserServiceImpl.java:45-57 | a missing id gives empty; a null password throws IllegalArgumentException; a null or over-long name or e-mail or a null role fails with that `app_users` column, then an e-mail of another user fails on `uk_app_users_email` and an enrolled orphaned profile on `fk_enrollment_student`, each changing nothing; otherwise the user takes the new fields, the encoded password and the new profile, which links back, and the replaced profile is deleted with its registrations, and the row fits its columns; it fails exactly in those cases |
| UserService.Save | academic_assessment_system_backend/src/main/java/mk/ukim/finki/emc/academic_assessment_system_backend/service/domain/implementation/UserServiceImpl.java:55 | the flush fails, changing nothing, exactly when the new values break an `app_users` column (named first), take another user's e-mail, or orphan an enrolled profile; otherwise the orphaned profiles are removed, the setters take effect and the row fits its columns; the unique constraints keep holding |
| UserService.Assign | academic_assessment_system_backend/src/main/java/mk/ukim/finki/emc/academic_assessment_system_backend/service/domain/implementation/UserServiceImpl.java:48-54 | the stored user takes the names, e-mail, role and profile of the request and the encoded password, keeps its id and staff assignments, and a new profile links back to it |
| UserService.SetFields | academic_assessment_system_backend/src/main/java/mk/ukim/finki/emc/academic_assessment_system_backend/service/domain/implementation/UserServiceImpl.java:49-53 | the five scalar setters take effect, with an e-mail no other user has, so the unique constraints keep holding |
| UserService.LinkProfile | academic_assessment_system_backend/src/main/java/mk/ukim/finki/emc/academic_assessment_system_backend/service/domain/implementation/UserServiceImpl.java:54 | `setStudent` links the user and a non-null profile both ways and keeps one profile per user |
| UserService.DeleteById | academic_assessment_system_backend/src/main/java/mk/ukim/finki/emc/academic_assessment_system_backend/service/domain/implementation/UserServiceImpl.java:59-64 | a missing id changes nothing and gives empty; a user with an enrolled profile or a reset token fails with that constraint and changes nothing; otherwise the user is returned and removed with its cascades |
| UserService.Register | academic_assessment_system_backend/src/main/java/mk/ukim/finki/emc/academic_assessment_system_backend/service/domain/implementation/UserServiceImpl.java:66-78 | succeeds if and only if the password is given, the names, e-mail and role fit the NOT NULL and length columns and the e-mail is free; a null password throws IllegalArgumentException, an unfit column fails naming that column and a used e-mail fails on `uk_app_users_email`, each storing nothing; a success stores a fresh user with the encoded password under the next id |
| StudentService.FindById | academic_assessment_system_backend/src/main/java/mk/ukim/finki/emc/academic_assessment_system_backend/service/domain/implementation/StudentServiceImpl.java:29-32 | a profile is found if and only if the id is stored |
| StudentService.FindByStudentIndex | academic_assessment_system_backend/src/main/java/mk/ukim/finki/emc/academic_assessment_system_backend/service/domain/implementation/StudentServiceImpl.java:66-69 | the profile with that index is found if and only if one exists, and it is the only one |
| StudentService.Update | academic_assessment_system_backend/src/main/java/mk/ukim/finki/emc/academic_assessment_system_backend/service/domain/implementation/StudentServiceImpl.java:39-48 | a missing id gives empty; new values that break a `students` NOT NULL or length column fail with that column, then an index or user another profile has fails on `uk_student_index` or `uk_student_user`, each leaving the row as it was; otherwise the profile takes the new user, index and major, fits its columns and keeps its id and registrations |
| StudentService.DeleteByIdWithoutUser | academic_assessment_system_backend/src/main/java/mk/ukim/finki/emc/academic_assessment_system_backend/service/domain/implementation/StudentServiceImpl.java:59-64 | a missing id gives empty; an enrolled profile fails on `fk_enrollment_student` and changes nothing; otherwise the profile is returned and removed with its registrations, and its user stays |
| StudentService.DeleteFoundWithUser | academic_assessment_system_backend/src/main/java/mk/ukim/finki/emc/academic_assessment_system_backend/service/domain/implementation/StudentServiceImpl.java:52-56 | the user's delete fails exactly when UserDeleteViolation names a constraint, and then nothing changes; otherwise the user is removed with all its cascades and the profile is gone |
| StudentService.DeleteByIdWithUserAsWritten | academic_assessment_system_backend/src/main/java/mk/ukim/finki/emc/academic_assessment_system_backend/service/domain/implementation/StudentServiceImpl.java:50-57 | as written: an absent id throws NoSuchElementException before anything is checked; a stored one deletes user and profile unless a constraint keeps the user |
| StudentService.DeleteByIdWithUser | academic_assessment_system_backend/src/main/java/mk/ukim/finki/emc/academic_assessment_system_backend/service/domain/implementation/StudentServiceImpl.java:50-57 | corrected: an absent id gives empty and changes nothing; a stored one deletes user and profile with their cascades, or fails with the violated constraint and changes nothing |
| CourseService.FindById | academic_assessment_system_backend/src/main/java/mk/ukim/finki/emc/academic_assessment_system_backend/service/domain/implementation/CourseServiceImpl.java:29-37 | a course is found if and only if the id is stored |
| CourseService.Update | academic_assessment_system_backend/src/main/java/mk/ukim/finki/emc/academic_assessment_system_backend/service/domain/implementation/CourseServiceImpl.java:44-54 | a missing id gives empty; new values that break a `courses` NOT NULL or length column fail with that column, then a code, semester and year another course has fail on `uk_course_code_semester_year`, each leaving the row as it was; otherwise the course takes the new fields, fits its columns, keeps id, enrollments and assignments, and the unique constraints keep holding |
| CourseService.DeleteById | academic_assessment_system_backend/src/main/java/mk/ukim/finki/emc/academic_assessment_system_backend/service/domain/implementation/CourseServiceImpl.java:56-61 | a missing id gives empty; a course with exams fails on `fk_exam_course` and changes nothing; otherwise it is returned and removed with its enrollments and assignments |
| ExamService.FindById | academic_assessment_system_backend/src/main/java/mk/ukim/finki/emc/academic_assessment_system_backend/service/domain/implementation/ExamServiceImpl.java:25-28 | an exam is found if and only if the id is stored |
| ExamService.Save | academic_assessment_system_backend/src/main/java/mk/ukim/finki/emc/academic_assessment_system_backend/service/domain/implementation/ExamServiceImpl.java:30-33 | fails with DataIntegrityViolationException and the broken column exactly when the exam breaks a NOT NULL or length column of `exams` or `exam_reserved_labs`, storing nothing; otherwise the saved exam is found under its (new or own) id |
| ExamService.Update | academic_assessment_system_backend/src/main/java/mk/ukim/finki/emc/academic_assessment_system_backend/service/domain/implementation/ExamServiceImpl.java:35-47 | a missing id gives empty; when the new schedule with the stored course breaks a column, the update fails with that column and the row is unchanged; otherwise the exam takes session, date, capacity, laboratories and times, fits its columns and keeps id, course and registrations |
| ExamService.DeleteById | academic_assessment_system_backend/src/main/java/mk/ukim/finki/emc/academic_assessment_system_backend/service/domain/implementation/ExamServiceImpl.java:49-54 | a stored exam is returned and removed with exactly its registrations; a missing id changes nothing |
| UserDto.ValidIff | academic_assessment_system_backend/src/main/java/mk/ukim/finki/emc/academic_assessment_system_backend/dto/domain/create/CreateUserDto.java:12-31 | a request passes validation if and only if names and e-mail are non-blank and within 80/80/150 characters, the e-mail is well formed, a given password has 6 to 100 characters and a role is given |
| UserDto.Violations | academic_assessment_system_backend/src/main/java/mk/ukim/finki/emc/academic_assessment_system_backend/dto/domain/create/CreateUserDto.java:13-31 | a missing password breaks nothing; a missing e-mail breaks only `@NotBlank` |
| Text.Utf16Length | academic_assessment_system_backend/src/main/java/mk/ukim/finki/emc/academic_assessment_system_backend/dto/domain/create/CreateUserDto.java:14-27 | `@Size` measures `String.length()`: every character counts at least once and at most twice, and exactly once when none lies beyond U+FFFF |
| UserDto.ValidFitsColumns | academic_assessment_system_backend/src/main/java/mk/ukim/finki/emc/academic_assessment_system_backend/dto/domain/create/CreateUserDto.java:12-31 | a valid request fits the NOT NULL and length constraints of `app_users` |
| UserDto.From | academic_assessment_system_backend/src/main/java/mk/ukim/finki/emc/academic_assessment_system_backend/dto/domain/create/CreateUserDto.java:44-52 | the DTO of a user copies names, e-mail and role and never carries the password |
| UserDto.ToUser | academic_assessment_system_backend/src/main/java/mk/ukim/finki/emc/academic_assessment_system_backend/dto/domain/create/CreateUserDto.java:34-42 | a fresh unsaved user with the DTO's fields; converting it back gives the DTO without its password |
| UserDto.FromAll | academic_assessment_system_backend/src/main/java/mk/ukim/finki/emc/academic_assessment_system_backend/dto/domain/create/CreateUserDto.java:54-58 | one DTO per user, in order |
| CourseDto.ValidIff | academic_assessment_system_backend/src/main/java/mk/ukim/finki/emc/academic_assessment_system_backend/dto/domain/create/CreateCourseDto.java:12-31 | a request passes validation if and only if code and name are non-blank within 30/200 characters, the semester is 1..12 and the year 2000..2100 |
| CourseDto.Violations | academic_assessment_system_backend/src/main/java/mk/ukim/finki/emc/academic_assessment_system_backend/dto/domain/create/CreateCourseDto.java:14-30 | a missing code, semester or year breaks only its required-constraint, not its bounds |
| CourseDto.ValidFitsColumns | academic_assessment_system_backend/src/main/java/mk/ukim/finki/emc/academic_assessment_system_backend/dto/domain/create/CreateCourseDto.java:12-31 | a valid request fits the constraints of `courses` |
| CourseDto.From | academic_assessment_system_backend/src/main/java/mk/ukim/finki/emc/academic_assessment_system_backend/dto/domain/create/CreateCourseDto.java:33-40 | the DTO copies code, name, semester and year |
| CourseDto.ToCourse | academic_assessment_system_backend/src/main/java/mk/ukim/finki/emc/academic_assessment_system_backend/dto/domain/create/CreateCourseDto.java:42-44 | a fresh unsaved course whose DTO is the given one (round trip) |
| CourseDto.FromAll | academic_assessment_system_backend/src/main/java/mk/ukim/finki/emc/academic_assessment_system_backend/dto/domain/create/CreateCourseDto.java:46-50 | one DTO per course, in order |
| ExamDto.ValidIff | academic_assessment_system_backend/src/main/java/mk/ukim/finki/emc/academic_assessment_system_backend/dto/domain/create/CreateExamDto.java:14-35 | a request passes validation if and only if the session is non-blank, the date is today or later, the capacity is at least 1, at least one laboratory is given and both times are given |
| ExamDto.Violations | academic_assessment_system_backend/src/main/java/mk/ukim/finki/emc/academic_assessment_system_backend/dto/domain/create/CreateExamDto.java:16-34 | a missing date or capacity breaks only its required-constraint; an empty laboratory list is reported |
| ExamDto.TimesUnrelated | academic_assessment_system_backend/src/main/java/mk/ukim/finki/emc/academic_assessment_system_backend/dto/domain/create/CreateExamDto.java:30-34 | validation does not relate start and end time: any pair of given times is judged alike |
| ExamDto.From | academic_assessment_system_backend/src/main/java/mk/ukim/finki/emc/academic_assessment_system_backend/dto/domain/create/CreateExamDto.java:48-57 | the DTO copies session, date, capacity, laboratories and times |
| ExamDto.FromAll | academic_assessment_system_backend/src/main/java/mk/ukim/finki/emc/academic_assessment_system_backend/dto/domain/create/CreateExamDto.java:59-63 | one DTO per exam, in order |
| StudentDto.ValidIff | academic_assessment_system_backend/src/main/java/mk/ukim/finki/emc/academic_assessment_system_backend/dto/domain/create/CreateStudentDto.java:11-23 | a request passes validation if and only if index and major are non-blank within 30/120 characters and a user id is given |
| StudentDto.Violations | academic_assessment_system_backend/src/main/java/mk/ukim/finki/emc/academic_assessment_system_backend/dto/domain/create/CreateStudentDto.java:13-22 | a missing index or major breaks only `@NotBlank`, not its size bound |
| StudentDto.From | academic_assessment_system_backend/src/main/java/mk/ukim/finki/emc/academic_assessment_system_backend/dto/domain/create/CreateStudentDto.java:29-35 | a profile without user throws; otherwise index, major and the user's id |
| StudentDto.ToStudent | academic_assessment_system_backend/src/main/java/mk/ukim/finki/emc/academic_assessment_system_backend/dto/domain/create/CreateStudentDto.java:25-27 | a fresh unsaved profile with the DTO's fields; with the user of that id, converting back gives the DTO |
| StudentDto.FromAll | academic_assessment_system_backend/src/main/java/mk/ukim/finki/emc/academic_assessment_system_backend/dto/domain/create/CreateStudentDto.java:37-41 | succeeds if and only if every profile has a user, then one DTO per profile in order |
| Responses.OkOrNotFound | academic_assessment_system_backend/src/main/java/mk/ukim/finki/emc/academic_assessment_system_backend/web/controllers/ExamController.java:144-147 | 200 with the value if present, 404 if empty |
| Responses.OkOrBadRequest | academic_assessment_system_backend/src/main/java/mk/ukim/finki/emc/academic_assessment_system_backend/web/controllers/UserController.java:141-147 | 200 with the value if present, 400 if empty |
| ExamController.SortBySchedule | academic_assessment_system_backend/src/main/java/mk/ukim/finki/emc/academic_assessment_system_backend/web/controllers/ExamController.java:61-63 | the exams are ordered by date descending, then start time ascending, and are a permutation of the input |
| ExamController.SortByScheduleStable | academic_assessment_system_backend/src/main/java/mk/ukim/finki/emc/academic_assessment_system_backend/web/controllers/ExamController.java:61-63 | the sort is stable: exams with the same date and start time keep their repository order |
| ExamController.FindAll | academic_assessment_system_backend/src/main/java/mk/ukim/finki/emc/academic_assessment_system_backend/web/controllers/ExamController.java:59-65 | 200 with all exams, in schedule order |
| ExamController.FindById | academic_assessment_system_backend/src/main/java/mk/ukim/finki/emc/academic_assessment_system_backend/web/controllers/ExamController.java:86-92 | 404 if and only if the exam is missing, else 200 with it |
| ExamController.Save | academic_assessment_system_backend/src/main/java/mk/ukim/finki/emc/academic_assessment_system_backend/web/controllers/ExamController.java:113-118 | 400 if and only if validation fails, else 200 with the saved exam |
| ExamController.Update | academic_assessment_system_backend/src/main/java/mk/ukim/finki/emc/academic_assessment_system_backend/web/controllers/ExamController.java:139-148 | 400 if and only if validation fails, 404 if and only if valid but missing, else 200 with the update |
| ExamController.DeleteById | academic_assessment_system_backend/src/main/java/mk/ukim/finki/emc/academic_assessment_system_backend/web/controllers/ExamController.java:169-175 | 404 if and only if nothing was deleted, else 200 with the deleted exam |
| ExamController.ExamsOfCoursesAppend | academic_assessment_system_backend/src/main/java/mk/ukim/finki/emc/academic_assessment_system_backend/web/controllers/ExamController.java:187-193 | the per-course listing of two course lists is the concatenation of their listings |
| ExamController.ExamsOfCourses | academic_assessment_system_backend/src/main/java/mk/ukim/finki/emc/academic_assessment_system_backend/web/controllers/ExamController.java:187-193 | an exam is listed exactly when it belongs to one of the courses |
| ExamController.RepeatedCourseListedTwice | academic_assessment_system_backend/src/main/java/mk/ukim/finki/emc/academic_assessment_system_backend/web/controllers/ExamController.java:181-193 | a course assigned twice lists its exams twice (no de-duplication) |
| ExamController.ListingNotGloballySorted | academic_assessment_system_backend/src/main/java/mk/ukim/finki/emc/academic_assessment_system_backend/web/controllers/ExamController.java:187-193 | the staff and student listings are in course order, not schedule order (a concrete pair of exams shows it) |
| ExamController.SingleSorted | academic_assessment_system_backend/src/main/java/mk/ukim/finki/emc/academic_assessment_system_backend/web/controllers/ExamController.java:61-63 | sorting one exam leaves it as it is |
| ExamController.FindAllForStaff | academic_assessment_system_backend/src/main/java/mk/ukim/finki/emc/academic_assessment_system_backend/web/controllers/ExamController.java:177-196 | 200 with the exams of the assigned courses, course by course |
| ExamController.FindAllForStudent | academic_assessment_system_backend/src/main/java/mk/ukim/finki/emc/academic_assessment_system_backend/web/controllers/ExamController.java:198-217 | a user without profile throws NoSuchElementException; otherwise 200 with the exams of the enrolled courses, course by course |
| UserController.Register | academic_assessment_system_backend/src/main/java/mk/ukim/finki/emc/academic_assessment_system_backend/web/controllers/UserController.java:141-147 | 400 if and only if registration gives nothing, else 200 with the result |
| UserController.Login | academic_assessment_system_backend/src/main/java/mk/ukim/finki/emc/academic_assessment_system_backend/web/controllers/UserController.java:176-182 | 400 if and only if login gives nothing, else 200 with the result |
| UserController.RequestPasswordReset | academic_assessment_system_backend/src/main/java/mk/ukim/finki/emc/academic_assessment_system_backend/web/controllers/UserController.java:293-306 | a missing or blank e-mail gives 400 "email is required" without a call; otherwise the reset is requested and 200 carries a message and the token |
| UserController.ConfirmPasswordReset | academic_assessment_system_backend/src/main/java/mk/ukim/finki/emc/academic_assessment_system_backend/web/controllers/UserController.java:323-338 | a missing token, then a missing password, gives 400 without a call; 200 "Password successfully reset" if and only if the confirmation succeeds |
| UserController.TokenCheckedFirst | academic_assessment_system_backend/src/main/java/mk/ukim/finki/emc/academic_assessment_system_backend/web/controllers/UserController.java:328-333 | with both fields missing or blank, the token is reported first |
| UserController.FindById | academic_assessment_system_backend/src/main/java/mk/ukim/finki/emc/academic_assessment_system_backend/web/controllers/UserController.java:359-365 | 404 if and only if the user is missing, else 200 with it |
| UserController.Save | academic_assessment_system_backend/src/main/java/mk/ukim/finki/emc/academic_assessment_system_backend/web/controllers/UserController.java:386-391 | 400 if and only if validation fails, else 200 with the saved user |
| UserController.Update | academic_assessment_system_backend/src/main/java/mk/ukim/finki/emc/academic_assessment_system_backend/web/controllers/UserController.java:412-421 | 400 if and only if validation fails, 404 if and only if valid but missing, else 200 |
| UserController.DeleteById | academic_assessment_system_backend/src/main/java/mk/ukim/finki/emc/academic_assessment_system_backend/web/controllers/UserController.java:442-448 | 404 if and only if nothing was deleted, else 200 with the deleted user |
| JwtFilter.ShouldNotFilter | academic_assessment_system_backend/src/main/java/mk/ukim/finki/emc/academic_assessment_system_backend/web/filters/JwtFilter.java:42-55 | a request is skipped if and only if its path starts with one of the five listed prefixes |
| JwtFilter.LoginAndRegisterAreFiltered | academic_assessment_system_backend/src/main/java/mk/ukim/finki/emc/academic_assessment_system_backend/web/filters/JwtFilter.java:46-48 | the real login and register paths (`/api/users/...`) are filtered; only the unused `/api/user/...` prefixes are skipped |
| JwtFilter.AuthenticationOf | academic_assessment_system_backend/src/main/java/mk/ukim/finki/emc/academic_assessment_system_backend/web/filters/JwtFilter.java:109-123 | a user without role throws NullPointerException; otherwise an authenticated token with the user as principal, no credentials and the one authority ROLE_<role> |
| JwtFilter.AuthorityNamesRole | academic_assessment_system_backend/src/main/java/mk/ukim/finki/emc/academic_assessment_system_backend/web/filters/JwtFilter.java:118-120 | the authority is "ROLE_" followed by the role's name, and the prefix is not doubled |
| JwtFilter.TokenOf | academic_assessment_system_backend/src/main/java/mk/ukim/finki/emc/academic_assessment_system_backend/web/filters/JwtFilter.java:66-71 | a token is taken if and only if the header starts with the prefix; it is trimmed and no longer than the rest |
| JwtFilter.TokenOfBearer | academic_assessment_system_backend/src/main/java/mk/ukim/finki/emc/academic_assessment_system_backend/web/filters/JwtFilter.java:66-71 | prefix followed by a trimmed token gives the token back |
| JwtFilter.TokenOfSpacedBearer | academic_assessment_system_backend/src/main/java/mk/ukim/finki/emc/academic_assessment_system_backend/web/filters/JwtFilter.java:71 | an extra space after the prefix is trimmed away |
| JwtFilter.AdmittedName | academic_assessment_system_backend/src/main/java/mk/ukim/finki/emc/academic_assessment_system_backend/web/filters/JwtFilter.java:80-89 | an e-mail is admitted exactly when the token names it and is not expired |
| JwtFilter.DoFilterInternal | academic_assessment_system_backend/src/main/java/mk/ukim/finki/emc/academic_assessment_system_backend/web/filters/JwtFilter.java:57-107 | no token or an existing authentication passes the request on unchanged; a parser failure is resolved as an exception; a token naming no admitted, stored user passes on unchanged; otherwise the context takes that user's authentication |
| HomePage.PageRole | academic_assessment_system_frontend/src/ui/pages/HomePage/HomePage.jsx:87 | the user's non-empty role, else USER |
| HomePage.ManagersOnly | academic_assessment_system_frontend/src/ui/pages/HomePage/HomePage.jsx:87-88 | the page manages if and only if the user's role is ADMINISTRATOR or STAFF |
| HomePage.NormalizeTime | academic_assessment_system_frontend/src/ui/pages/HomePage/HomePage.jsx:40-43 | the dash for a missing time, else its first five characters at most; never empty |
| HomePage.NormalizeTimeIdempotent | academic_assessment_system_frontend/src/ui/pages/HomePage/HomePage.jsx:40-43 | normalising twice is normalising once |
| HomePage.ToDate | academic_assessment_system_frontend/src/ui/pages/HomePage/HomePage.jsx:45-51 | nothing without a date; the parse of `<date>T00:00:00` without a time; with a time, the parse of `<date>T<HH:MM>:00` from its first five characters |
| HomePage.MissingTimeIsMidnight | academic_assessment_system_frontend/src/ui/pages/HomePage/HomePage.jsx:47-48 | a missing or empty start time is read as 00:00 |
| HomePage.SecondsIgnored | academic_assessment_system_frontend/src/ui/pages/HomePage/HomePage.jsx:47-49 | seconds in the start time do not change the parsed date |
| HomePage.FormatRooms | academic_assessment_system_frontend/src/ui/pages/HomePage/HomePage.jsx:53-56 | the dash for no rooms, else the rooms joined by ", " |
| HomePage.Timestamped | academic_assessment_system_frontend/src/ui/pages/HomePage/HomePage.jsx:99-101 | exactly the exams with a date, each with its timestamp |
| HomePage.ExamsOf | academic_assessment_system_frontend/src/ui/pages/HomePage/HomePage.jsx:107 | the exams of the entries, in order |
| HomePage.UpcomingExamsSpec | academic_assessment_system_frontend/src/ui/pages/HomePage/HomePage.jsx:96-108 | at most three exams, all dated not before now, in ascending time; an upcoming exam is left out only when three are shown and it is no earlier than the last |
| HomePage.Shown | academic_assessment_system_frontend/src/ui/pages/HomePage/HomePage.jsx:96-108 | at most three entries, each a stamped exam of the list not before now, in ascending time |
| HomePage.UpcomingExams | academic_assessment_system_frontend/src/ui/pages/HomePage/HomePage.jsx:96-108 | at most three exams of the list, each upcoming |
| HomePage.ExamsOfShown | academic_assessment_system_frontend/src/ui/pages/HomePage/HomePage.jsx:104-107 | the facts about the shown entries carry over to their exams |
| HomePage.ShownAreUpcoming | academic_assessment_system_frontend/src/ui/pages/HomePage/HomePage.jsx:104-106 | every shown entry is a dated exam of the list not before now |
| HomePage.ShownAscending | academic_assessment_system_frontend/src/ui/pages/HomePage/HomePage.jsx:102-106 | the shown entries are in ascending time |
| HomePage.ShownAreEarliest | academic_assessment_system_frontend/src/ui/pages/HomePage/HomePage.jsx:99-106 | every upcoming exam earlier than the last shown one, or any when fewer than three are shown, is shown |
| HomePage.ShownIfEarlier | academic_assessment_system_frontend/src/ui/pages/HomePage/HomePage.jsx:104-106 | in the sorted upcoming list, an entry before the cut is shown |
| HomePage.UpcomingComplete | academic_assessment_system_frontend/src/ui/pages/HomePage/HomePage.jsx:99-105 | every dated exam not before now reaches the upcoming list |
| HomePage.Headline | academic_assessment_system_frontend/src/ui/pages/HomePage/HomePage.jsx:110-115 | one headline for visitors, administrators, staff and everyone else |
| HomePage.Counter | academic_assessment_system_frontend/src/ui/pages/HomePage/HomePage.jsx:90-94 | the ellipsis while loading, else the list's length, 0 without a list |
| JsValues.Or | academic_assessment_system_frontend/src/ui/components/courses/CourseDetails/CourseDetails.jsx:44 | `a \|\| b`: a when truthy, else b |
| JsValues.ArrayOrWrapped | academic_assessment_system_frontend/src/ui/components/courses/AddCourseDialog/AddCourseDialog.jsx:34-40 | an array as it is, else the first wrapper field that is an array, else [] |
| Search.SearchTerm | academic_assessment_system_frontend/src/ui/components/courses/CourseGrid/CourseGrid.jsx:36 | the trimmed lower-cased input, empty exactly when the input is blank |
| Search.MissingFieldMatchesNothing | academic_assessment_system_frontend/src/ui/components/courses/CourseGrid/CourseGrid.jsx:40-42 | a missing field matches only the empty term |
| UserGrid.MissingStudentHooks | academic_assessment_system_frontend/src/ui/components/users/UserGrid/UserGrid.jsx:47-55 | the students hook does not return `fetchStudents`, `onDeleteWithUser` or `onDeleteWithoutUser`, which the grid destructures |
| UserGrid.RolePartition | academic_assessment_system_frontend/src/ui/components/users/UserGrid/UserGrid.jsx:92-93 | a user is in the staff list if and only if its role is STAFF, in the user list if and only if USER |
| UserGrid.StaffUsers | academic_assessment_system_frontend/src/ui/components/users/UserGrid/UserGrid.jsx:92 | exactly the users whose role is STAFF |
| UserGrid.RegularUsers | academic_assessment_system_frontend/src/ui/components/users/UserGrid/UserGrid.jsx:93 | exactly the users whose role is USER |
| UserGrid.ToolbarActions | academic_assessment_system_frontend/src/ui/components/users/UserGrid/UserGrid.jsx:318-367 | import, export and add are shown to administrators and nothing to anyone else |
| UserGrid.RowActions | academic_assessment_system_frontend/src/ui/components/users/UserGrid/UserGrid.jsx:410-441 | details, edit and delete are shown to administrators only |
| UserGrid.WantsProfileIff | academic_assessment_system_frontend/src/ui/components/users/UserGrid/UserGrid.jsx:182 | a profile is wanted if and only if index and major are non-empty once trimmed |
| UserGrid.Grid.constructor | academic_assessment_system_frontend/src/ui/components/users/UserGrid/UserGrid.jsx:57-69 | no role, no dialog open, nothing selected, no calls |
| UserGrid.Grid.Invoke | academic_assessment_system_frontend/src/ui/components/users/UserGrid/UserGrid.jsx:47-55 | a hook function is called if and only if the hook returned it |
| UserGrid.Grid.ReceiveRole | academic_assessment_system_frontend/src/ui/components/users/UserGrid/UserGrid.jsx:71-88 | the role is the non-empty role from `me`, else none |
| UserGrid.Grid.OpenAdd | academic_assessment_system_frontend/src/ui/components/users/UserGrid/UserGrid.jsx:95 | the add dialog opens |
| UserGrid.Grid.OpenEditUser | academic_assessment_system_frontend/src/ui/components/users/UserGrid/UserGrid.jsx:98-101 | the user is selected and the edit dialog opens |
| UserGrid.Grid.OpenEditStudent | academic_assessment_system_frontend/src/ui/components/users/UserGrid/UserGrid.jsx:140-143 | the student is selected and the student dialog opens |
| UserGrid.Grid.OpenDeleteUser | academic_assessment_system_frontend/src/ui/components/users/UserGrid/UserGrid.jsx:125-128 | the delete context is the user and the delete dialog opens |
| UserGrid.Grid.OpenDeleteStudent | academic_assessment_system_frontend/src/ui/components/users/UserGrid/UserGrid.jsx:130-133 | the delete context is the student and the delete dialog opens |
| UserGrid.Grid.CreateUser | academic_assessment_system_frontend/src/ui/components/users/UserGrid/UserGrid.jsx:167-202 | the user is added without the student fields; a failure stops there; a profile is added exactly when both fields are non-blank and the new id is truthy; then the dialog closes |
| UserGrid.Grid.UpdateUser | academic_assessment_system_frontend/src/ui/components/users/UserGrid/UserGrid.jsx:204-234 | the user is edited; one who becomes a student gets a profile and a refetch, and the missing refetch function leaves the dialog open; otherwise it closes |
| UserGrid.Grid.SaveEditStudent | academic_assessment_system_frontend/src/ui/components/users/UserGrid/UserGrid.jsx:150-165 | the user is edited, then the profile is edited (role STUDENT) or the missing delete function is reached, and the dialog stays open |
| UserGrid.Grid.ConfirmDelete | academic_assessment_system_frontend/src/ui/components/users/UserGrid/UserGrid.jsx:236-250 | a user row is deleted, a student row reaches the missing function and nothing is deleted; the dialog closes either way |
| EditUserDialog.EmptyForm | academic_assessment_system_frontend/src/ui/components/users/EditUserDialog/EditUserDialog.jsx:23-31 | every field empty |
| EditUserDialog.PrefillOf | academic_assessment_system_frontend/src/ui/components/users/EditUserDialog/EditUserDialog.jsx:35-47 | names, e-mail and role from the user ("" when missing), password and profile fields empty |
| EditUserDialog.PasswordOrNull | academic_assessment_system_frontend/src/ui/components/users/EditUserDialog/EditUserDialog.jsx:66-69 | a blank password is sent as null, any other as typed |
| EditUserDialog.SubmissionOf | academic_assessment_system_frontend/src/ui/components/users/EditUserDialog/EditUserDialog.jsx:58-89 | the user's id, the DTO from the form, the previous role, and profile data if and only if the new role is STUDENT |
| EditUserDialog.Submit | academic_assessment_system_frontend/src/ui/components/users/EditUserDialog/EditUserDialog.jsx:58-89 | without a user, reading `user.id` throws a TypeError and nothing is sent; otherwise the submission of the form for that user |
| EditUserDialog.UntouchedSubmission | academic_assessment_system_frontend/src/ui/components/users/EditUserDialog/EditUserDialog.jsx:58-89 | submitting the prefilled form sends the user's own values back with a null password |
| EditUserDialog.Dialog.constructor | academic_assessment_system_frontend/src/ui/components/users/EditUserDialog/EditUserDialog.jsx:23-31 | the form starts empty |
| EditUserDialog.Dialog.Prefill | academic_assessment_system_frontend/src/ui/components/users/EditUserDialog/EditUserDialog.jsx:35-47 | a given user refills the form; none leaves it |
| EditUserDialog.Dialog.Change | academic_assessment_system_frontend/src/ui/components/users/EditUserDialog/EditUserDialog.jsx:49-52 | the named field takes the value |
| EditStudentDialog.InitialForm | academic_assessment_system_frontend/src/ui/components/users/EditStudentDialog/EditStudentDialog.jsx:23-30 | every field empty except the role STUDENT |
| EditStudentDialog.MajorOf | academic_assessment_system_frontend/src/ui/components/users/EditStudentDialog/EditStudentDialog.jsx:38 | `studentMajor`, else `major`, else "" |
| EditStudentDialog.PrefillOf | academic_assessment_system_frontend/src/ui/components/users/EditStudentDialog/EditStudentDialog.jsx:34-45 | index, major, names and role from the row, the password empty |
| EditStudentDialog.SubmissionOf | academic_assessment_system_frontend/src/ui/components/users/EditStudentDialog/EditStudentDialog.jsx:56-77 | a student DTO from the form and the row's user id, and a user DTO with the row's own e-mail and a null password when blank |
| EditStudentDialog.EmailNotEditable | academic_assessment_system_frontend/src/ui/components/users/EditStudentDialog/EditStudentDialog.jsx:68 | no edit of the form changes the e-mail sent |
| EditStudentDialog.UntouchedSubmission | academic_assessment_system_frontend/src/ui/components/users/EditStudentDialog/EditStudentDialog.jsx:56-77 | submitting the prefilled form sends the row's own values back |
| EditStudentDialog.Dialog.constructor | academic_assessment_system_frontend/src/ui/components/users/EditStudentDialog/EditStudentDialog.jsx:23-30 | the form starts as the initial form |
| EditStudentDialog.Dialog.Prefill | academic_assessment_system_frontend/src/ui/components/users/EditStudentDialog/EditStudentDialog.jsx:34-45 | a given student refills the form; none leaves it |
| EditStudentDialog.Dialog.Change | academic_assessment_system_frontend/src/ui/components/users/EditStudentDialog/EditStudentDialog.jsx:47-50 | the named field takes the value |
| UserDetails.Spaced | academic_assessment_system_frontend/src/ui/components/users/UserDetails/UserDetails.jsx:33-35 | the spaced key is never shorter than the key |
| UserDetails.SpacedAppend | academic_assessment_system_frontend/src/ui/components/users/UserDetails/UserDetails.jsx:33-35 | spacing works character by character: the spaced concatenation is the concatenation of the spaced parts |
| UserDetails.SpacedPlain | academic_assessment_system_frontend/src/ui/components/users/UserDetails/UserDetails.jsx:33-35 | a key without underscores or capitals is left as it is |
| UserDetails.SpacedNoUnderscore | academic_assessment_system_frontend/src/ui/components/users/UserDetails/UserDetails.jsx:33 | no underscore survives |
| UserDetails.Capitalize | academic_assessment_system_frontend/src/ui/components/users/UserDetails/UserDetails.jsx:37 | the first character upper-cased, the rest and the length kept |
| UserDetails.CapitalizeAppend | academic_assessment_system_frontend/src/ui/components/users/UserDetails/UserDetails.jsx:37 | capitalising a non-empty text followed by more upper-cases only the first character of the first part |
| UserDetails.FormatHeader | academic_assessment_system_frontend/src/ui/components/users/UserDetails/UserDetails.jsx:30-38 | empty exactly for the empty key, never shorter than the key |
| UserDetails.HeaderNoUnderscore | academic_assessment_system_frontend/src/ui/components/users/UserDetails/UserDetails.jsx:30-38 | a header has no underscore |
| UserDetails.HeaderOfPlainStart | academic_assessment_system_frontend/src/ui/components/users/UserDetails/UserDetails.jsx:30-38 | a key starting with a plain lower-case word gives that word capitalised, then the spaced rest |
| UserDetails.CamelCaseHeader | academic_assessment_system_frontend/src/ui/components/users/UserDetails/UserDetails.jsx:26-29 | two camel-case words give "Word Word" |
| UserDetails.SnakeCaseHeader | academic_assessment_system_frontend/src/ui/components/users/UserDetails/UserDetails.jsx:26-29 | two snake-case words give "Word word": only the first is capitalised |
| UserDetails.CourseCodeHeader | academic_assessment_system_frontend/src/ui/components/users/UserDetails/UserDetails.jsx:28 | `course_code` gives "Course code", not the documented "Course Code" |
| UserDetails.ExamNameHeader | academic_assessment_system_frontend/src/ui/components/users/UserDetails/UserDetails.jsx:28 | `examName` gives "Exam Name", as documented |
| UserDetails.LeadingCapitalLeadingSpace | academic_assessment_system_frontend/src/ui/components/users/UserDetails/UserDetails.jsx:35-37 | a key starting with a capital gives a header starting with a space |
| UserDetails.Columns | academic_assessment_system_frontend/src/ui/components/users/UserDetails/UserDetails.jsx:60-62 | exactly the first row's keys without "id" in their lower-cased name, in order |
| UserDetails.NonIdColumnHidden | academic_assessment_system_frontend/src/ui/components/users/UserDetails/UserDetails.jsx:60-62 | `studentId` and also `valid` are hidden, `major` is shown |
| UserDetails.CellText | academic_assessment_system_frontend/src/ui/components/users/UserDetails/UserDetails.jsx:103-106 | the value's text, "" for null or missing |
| UserDetails.MiniTable | academic_assessment_system_frontend/src/ui/components/users/UserDetails/UserDetails.jsx:45-116 | "No data." without rows, "No visible fields" without visible columns, else one header per column and one cell line per row |
| UserDetails.ModeOf | academic_assessment_system_frontend/src/ui/components/users/UserDetails/UserDetails.jsx:169-170 | a student wins; a user shows only without a student |
| UserDetails.Dialog.constructor | academic_assessment_system_frontend/src/ui/components/users/UserDetails/UserDetails.jsx:124-126 | both lists empty, not loading |
| UserDetails.Dialog.LoadRelations | academic_assessment_system_frontend/src/ui/components/users/UserDetails/UserDetails.jsx:129-162 | closed or no student clears both lists; both answers store both (falsy as []); a failure keeps both; loading ends |
| CourseGrid.MissingCourseHooks | academic_assessment_system_frontend/src/ui/components/courses/CourseGrid/CourseGrid.jsx:47-56 | the courses hook does not return `findAllForStaff` or `findAllForStudent`, which the grid destructures |
| CourseGrid.FilterBySearch | academic_assessment_system_frontend/src/ui/components/courses/CourseGrid/CourseGrid.jsx:35-44 | a blank search keeps all; otherwise exactly the courses whose code or name contains the term, in order |
| CourseGrid.FilterBySearchIdempotent | academic_assessment_system_frontend/src/ui/components/courses/CourseGrid/CourseGrid.jsx:35-44 | filtering twice is filtering once |
| CourseGrid.SectionsFor | academic_assessment_system_frontend/src/ui/components/courses/CourseGrid/CourseGrid.jsx:270-495 | administrators get one section with every action; staff and students get their own courses first (full actions, details only) and then all courses read-only; role USER, any other role and no role one read-only section |
| CourseGrid.ReadOnlyWithoutOwnSection | academic_assessment_system_frontend/src/ui/components/courses/CourseGrid/CourseGrid.jsx:445-493 | role USER, an unknown role and no role all see exactly the read-only list of all courses |
| CourseGrid.Render | academic_assessment_system_frontend/src/ui/components/courses/CourseGrid/CourseGrid.jsx:237-268 | loading while anything loads, the empty note without courses, else the sections for the role |
| CourseGrid.FailedListingShowsAllCoursesOnly | academic_assessment_system_frontend/src/ui/components/courses/CourseGrid/CourseGrid.jsx:119-125 | a member of staff or a student whose listing throws is left with no role and sees only the read-only list of all courses |
| CourseGrid.ToolbarControls | academic_assessment_system_frontend/src/ui/components/courses/CourseGrid/CourseGrid.jsx:186-233 | search and reload always, add if and only if administrator or staff |
| CourseGrid.Grid.constructor | academic_assessment_system_frontend/src/ui/components/courses/CourseGrid/CourseGrid.jsx:66-81 | empty search, no dialog, no role, loading |
| CourseGrid.Grid.Load | academic_assessment_system_frontend/src/ui/components/courses/CourseGrid/CourseGrid.jsx:83-136 | staff and students load their own list only when the hook has the function, others clear both lists |
| CourseGrid.Grid.SetSearch | academic_assessment_system_frontend/src/ui/components/courses/CourseGrid/CourseGrid.jsx:191 | the search takes the value |
| CourseGrid.Grid.OpenAdd | academic_assessment_system_frontend/src/ui/components/courses/CourseGrid/CourseGrid.jsx:228 | the add dialog opens |
| CourseGrid.Grid.OpenDetails | academic_assessment_system_frontend/src/ui/components/courses/CourseGrid/CourseGrid.jsx:158-161 | the course is selected and the details open |
| CourseGrid.Grid.OpenEdit | academic_assessment_system_frontend/src/ui/components/courses/CourseGrid/CourseGrid.jsx:163-166 | the course is selected and the edit dialog opens |
| CourseGrid.Grid.OpenDelete | academic_assessment_system_frontend/src/ui/components/courses/CourseGrid/CourseGrid.jsx:168-171 | the course is selected and the delete dialog opens |
| CourseGrid.Grid.CloseAllDialogs | academic_assessment_system_frontend/src/ui/components/courses/CourseGrid/CourseGrid.jsx:173-179 | every dialog closes and nothing is selected |
| ExamGrid.FilterBySearch | academic_assessment_system_frontend/src/ui/components/exams/ExamGrid/ExamGrid.jsx:68-82 | a blank search keeps all; otherwise exactly the exams whose session or course code or name contains the term, in order |
| ExamGrid.AllExams | academic_assessment_system_frontend/src/ui/components/exams/ExamGrid/ExamGrid.jsx:52-58 | an array is used as it is; undefined or null gives no exams |
| ExamGrid.FilterBySearchIdempotent | academic_assessment_system_frontend/src/ui/components/exams/ExamGrid/ExamGrid.jsx:68-82 | filtering twice is filtering once |
| ExamGrid.ExamWithoutCourseBySession | academic_assessment_system_frontend/src/ui/components/exams/ExamGrid/ExamGrid.jsx:73-80 | an exam without course matches by its session alone |
| ExamGrid.Render | academic_assessment_system_frontend/src/ui/components/exams/ExamGrid/ExamGrid.jsx:151-199 | loading, the empty note, or the cards with every action |
| ExamGrid.Grid.constructor | academic_assessment_system_frontend/src/ui/components/exams/ExamGrid/ExamGrid.jsx:60-66 | empty search, nothing selected, no dialog |
| ExamGrid.Grid.SetSearch | academic_assessment_system_frontend/src/ui/components/exams/ExamGrid/ExamGrid.jsx:116 | the search takes the value |
| ExamGrid.Grid.OpenAdd | academic_assessment_system_frontend/src/ui/components/exams/ExamGrid/ExamGrid.jsx:142 | the add dialog opens |
| ExamGrid.Grid.OpenDetails | academic_assessment_system_frontend/src/ui/components/exams/ExamGrid/ExamGrid.jsx:84-87 | the exam is selected and the details open |
| ExamGrid.Grid.OpenEdit | academic_assessment_system_frontend/src/ui/components/exams/ExamGrid/ExamGrid.jsx:89-92 | the exam is selected and the edit dialog opens |
| ExamGrid.Grid.OpenDelete | academic_assessment_system_frontend/src/ui/components/exams/ExamGrid/ExamGrid.jsx:94-97 | the exam is selected and the delete dialog opens |
| ExamGrid.Grid.CloseAllDialogs | academic_assessment_system_frontend/src/ui/components/exams/ExamGrid/ExamGrid.jsx:99-105 | every dialog closes and nothing is selected |
| CourseForm.NamesText | academic_assessment_system_frontend/src/ui/components/courses/AddCourseDialog/AddCourseDialog.jsx:44 | the non-empty first and last names joined by a space; empty exactly without both |
| CourseForm.FullName | academic_assessment_system_frontend/src/ui/components/courses/AddCourseDialog/AddCourseDialog.jsx:42-46 | full name, else the names, else the e-mail, else "User #<id>"; never empty |
| CourseForm.AnonymousLabel | academic_assessment_system_frontend/src/ui/components/courses/AddCourseDialog/AddCourseDialog.jsx:42-46 | a record without names and e-mail is labelled "User #<id>" |
| CourseForm.AllUsers | academic_assessment_system_frontend/src/ui/components/courses/AddCourseDialog/AddCourseDialog.jsx:34-40 | an array, else `users.users`, else `users.data`, else [] |
| CourseForm.StaffOptions | academic_assessment_system_frontend/src/ui/components/courses/AddCourseDialog/AddCourseDialog.jsx:48-51 | exactly the STAFF users, in list order |
| CourseForm.NumberOf | academic_assessment_system_frontend/src/ui/components/courses/AddCourseDialog/AddCourseDialog.jsx:75-76 | a prefilled number stays, blank text is 0, other text is parsed |
| CourseForm.Ids | academic_assessment_system_frontend/src/ui/components/courses/AddCourseDialog/AddCourseDialog.jsx:77-78 | the picked users' ids in picking order |
| CourseForm.Payload | academic_assessment_system_frontend/src/ui/components/courses/AddCourseDialog/AddCourseDialog.jsx:71-79 | texts as typed, numbers through `Number`, staff by id |
| CourseForm.EmptyFormPayload | academic_assessment_system_frontend/src/ui/components/courses/AddCourseDialog/AddCourseDialog.jsx:71-79 | the untouched form sends semester and year 0, not null |
| CourseForm.ChangeField | academic_assessment_system_frontend/src/ui/components/courses/AddCourseDialog/AddCourseDialog.jsx:53-56 | the named text field takes the value; other names change nothing |
| AddCourseDialog.Dialog.constructor | academic_assessment_system_frontend/src/ui/components/courses/AddCourseDialog/AddCourseDialog.jsx:20-30 | the form starts as the initial form |
| AddCourseDialog.Dialog.ChangeField | academic_assessment_system_frontend/src/ui/components/courses/AddCourseDialog/AddCourseDialog.jsx:53-56 | the form changes as `ChangeField` says |
| AddCourseDialog.Dialog.ChangeProfessors | academic_assessment_system_frontend/src/ui/components/courses/AddCourseDialog/AddCourseDialog.jsx:58-60 | the professors become the picked users |
| AddCourseDialog.Dialog.ChangeAssistants | academic_assessment_system_frontend/src/ui/components/courses/AddCourseDialog/AddCourseDialog.jsx:62-64 | the assistants become the picked users |
| AddCourseDialog.Dialog.ResetAndClose | academic_assessment_system_frontend/src/ui/components/courses/AddCourseDialog/AddCourseDialog.jsx:66-69 | the form resets and `onClose` is called once |
| AddCourseDialog.Dialog.Submit | academic_assessment_system_frontend/src/ui/components/courses/AddCourseDialog/AddCourseDialog.jsx:71-83 | the payload of the form as it was is added, then the form resets and the dialog closes |
| EditCourseDialog.FieldOf | academic_assessment_system_frontend/src/ui/components/courses/EditCourseDialog/EditCourseDialog.jsx:57-58 | the course's number, or "" without one |
| EditCourseDialog.PrefillOf | academic_assessment_system_frontend/src/ui/components/courses/EditCourseDialog/EditCourseDialog.jsx:51-62 | the course's texts and numbers, "" when missing, its staff or [] |
| EditCourseDialog.UntouchedSave | academic_assessment_system_frontend/src/ui/components/courses/EditCourseDialog/EditCourseDialog.jsx:51-76 | saving the prefilled form sends the course's own values and staff ids, 0 for a missing semester or year |
| EditCourseDialog.PickedById | academic_assessment_system_frontend/src/ui/components/courses/EditCourseDialog/EditCourseDialog.jsx:149 | an option shows as picked if and only if some picked user has its id |
| EditCourseDialog.Dialog.constructor | academic_assessment_system_frontend/src/ui/components/courses/EditCourseDialog/EditCourseDialog.jsx:21-28 | the form starts empty |
| EditCourseDialog.Dialog.Prefill | academic_assessment_system_frontend/src/ui/components/courses/EditCourseDialog/EditCourseDialog.jsx:51-62 | a given course refills the form; none leaves it |
| EditCourseDialog.Dialog.ChangeField | academic_assessment_system_frontend/src/ui/components/courses/EditCourseDialog/EditCourseDialog.jsx:64-66 | the form changes as `ChangeField` says |
| EditCourseDialog.Dialog.ChangeProfessors | academic_assessment_system_frontend/src/ui/components/courses/EditCourseDialog/EditCourseDialog.jsx:144-146 | the professors become the picked users |
| EditCourseDialog.Dialog.ChangeAssistants | academic_assessment_system_frontend/src/ui/components/courses/EditCourseDialog/EditCourseDialog.jsx:176-178 | the assistants become the picked users |
| EditCourseDialog.Dialog.Submit | academic_assessment_system_frontend/src/ui/components/courses/EditCourseDialog/EditCourseDialog.jsx:68-80 | without a course, a TypeError and no call; otherwise edit of the course's id with the payload, then close |
| EditExamDialog.NormalizeTime | academic_assessment_system_frontend/src/ui/components/exams/EditExamDialog/EditExamDialog.jsx:18-21 | "" for a missing time, else its first five characters |
| EditExamDialog.BuildTimeForApi | academic_assessment_system_frontend/src/ui/components/exams/EditExamDialog/EditExamDialog.jsx:64-67 | null for "", ":00" appended to five characters, anything else as typed |
| EditExamDialog.TimeRoundTrip | academic_assessment_system_frontend/src/ui/components/exams/EditExamDialog/EditExamDialog.jsx:64-67 | a time of at most five characters survives being sent and shown again |
| EditExamDialog.SecondsReset | academic_assessment_system_frontend/src/ui/components/exams/EditExamDialog/EditExamDialog.jsx:18-21 | a stored HH:MM:SS time passed through unchanged comes back with zero seconds |
| EditExamDialog.LabsText | academic_assessment_system_frontend/src/ui/components/exams/EditExamDialog/EditExamDialog.jsx:39-42 | the laboratories joined by ", ", or "" for none |
| EditExamDialog.ParseLabs | academic_assessment_system_frontend/src/ui/components/exams/EditExamDialog/EditExamDialog.jsx:72-75 | the text split at commas, trimmed, empty pieces dropped: clean names, no more than the pieces |
| EditExamDialog.LabsRoundTrip | academic_assessment_system_frontend/src/ui/components/exams/EditExamDialog/EditExamDialog.jsx:39-75 | parsing the joined text of clean names gives the names back |
| EditExamDialog.ParseEmptyIffBlankPieces | academic_assessment_system_frontend/src/ui/components/exams/EditExamDialog/EditExamDialog.jsx:72-75 | no laboratory is sent if and only if every piece is blank |
| EditExamDialog.PrefillOf | academic_assessment_system_frontend/src/ui/components/exams/EditExamDialog/EditExamDialog.jsx:36-53 | the form from the exam: texts or "", times cut, laboratories joined |
| EditExamDialog.PayloadOf | academic_assessment_system_frontend/src/ui/components/exams/EditExamDialog/EditExamDialog.jsx:69-87 | an empty date and a falsy capacity become null, the course by id, the laboratories parsed, the times padded |
| EditExamDialog.UntouchedSave | academic_assessment_system_frontend/src/ui/components/exams/EditExamDialog/EditExamDialog.jsx:36-87 | saving the prefilled form keeps session, date, course and laboratories, zeroes the seconds, and sends capacity 0 as null |
| EditExamDialog.SubmitCalls | academic_assessment_system_frontend/src/ui/components/exams/EditExamDialog/EditExamDialog.jsx:69-91 | nothing without an exam; otherwise edit with the payload, then close |
| EditExamDialog.Dialog.constructor | academic_assessment_system_frontend/src/ui/components/exams/EditExamDialog/EditExamDialog.jsx:24-32 | the form starts empty |
| EditExamDialog.Dialog.Prefill | academic_assessment_system_frontend/src/ui/components/exams/EditExamDialog/EditExamDialog.jsx:36-53 | a given exam refills the form; none leaves it |
| EditExamDialog.Dialog.ChangeField | academic_assessment_system_frontend/src/ui/components/exams/EditExamDialog/EditExamDialog.jsx:55-58 | the named field takes the value |
| EditExamDialog.Dialog.ChangeCourse | academic_assessment_system_frontend/src/ui/components/exams/EditExamDialog/EditExamDialog.jsx:60-62 | the picked course, or none |
| ExamDetails.Code | academic_assessment_system_frontend/src/ui/components/exams/ExamDetails/ExamDetails.jsx:99-102 | the course's code, else the exam's code, else "exam"; never empty |
| ExamDetails.ExportFileName | academic_assessment_system_frontend/src/ui/components/exams/ExamDetails/ExamDetails.jsx:121-140 | "exam_", the code, "_", then the export's kind followed by "Students.csv" |
| ExamDetails.ExportNamesDistinct | academic_assessment_system_frontend/src/ui/components/exams/ExamDetails/ExamDetails.jsx:121-140 | the three exports of one exam get three different names |
| ExamDetails.LabsLabel | academic_assessment_system_frontend/src/ui/components/exams/ExamDetails/ExamDetails.jsx:176-179 | the laboratories joined, or "No labs reserved" |
| ExamDetails.CapacityLabel | academic_assessment_system_frontend/src/ui/components/exams/ExamDetails/ExamDetails.jsx:175 | the capacity, or "-" only when missing (0 stays 0) |
| ExamDetails.SingularOnlyForOne | academic_assessment_system_frontend/src/ui/components/exams/ExamDetails/ExamDetails.jsx:241-242 | the caption reads "student" if and only if exactly one is registered |
| ExamDetails.Labels | academic_assessment_system_frontend/src/ui/components/exams/ExamDetails/ExamDetails.jsx:181-182 | one "<index> (<status>)" label per row |
| ExamDetails.StudentLabel | academic_assessment_system_frontend/src/ui/components/exams/ExamDetails/ExamDetails.jsx:181-182 | the index, " (", the status, ")" |
| ExamDetails.RegisteredCaption | academic_assessment_system_frontend/src/ui/components/exams/ExamDetails/ExamDetails.jsx:241-242 | "Registered: ", the count, then " student" for exactly one and " students" otherwise |
| ExamDetails.CanRegister | academic_assessment_system_frontend/src/ui/components/exams/ExamDetails/ExamDetails.jsx:159-168 | a student may register; whoever may is neither administrator nor staff |
| ExamDetails.Render | academic_assessment_system_frontend/src/ui/components/exams/ExamDetails/ExamDetails.jsx:265-503 | loading until the exam is loaded; administrators and staff get counts and lists, students lists only, others the no-data note |
| ExamDetails.Dialog.constructor | academic_assessment_system_frontend/src/ui/components/exams/ExamDetails/ExamDetails.jsx:50-59 | nothing loaded, no file, no role |
| ExamDetails.Dialog.Reload | academic_assessment_system_frontend/src/ui/components/exams/ExamDetails/ExamDetails.jsx:61-77 | nothing without an id; a found exam replaces the details, and each list takes its answer, [] when the answer is missing (also after a failed request) |
| ExamDetails.Dialog.LoadRole | academic_assessment_system_frontend/src/ui/components/exams/ExamDetails/ExamDetails.jsx:84-91 | the non-empty role from `me`, else none, also on failure |
| ExamDetails.Dialog.FileChange | academic_assessment_system_frontend/src/ui/components/exams/ExamDetails/ExamDetails.jsx:142-145 | the picked file, or none |
| ExamDetails.Dialog.HandleRegister | academic_assessment_system_frontend/src/ui/components/exams/ExamDetails/ExamDetails.jsx:159-168 | sent if and only if the role is STUDENT; then the dialog is reloaded, whatever the outcome, to exactly the state Reload gives |
| ExamDetails.Dialog.HandleImport | academic_assessment_system_frontend/src/ui/components/exams/ExamDetails/ExamDetails.jsx:147-157 | the picked file is sent; then, whatever the outcome, the file is cleared and the dialog is in exactly the state Reload gives |
| CourseDetails.StudentsOf | academic_assessment_system_frontend/src/ui/components/courses/CourseDetails/CourseDetails.jsx:44 | `res?.data \|\| res \|\| []` |
| CourseDetails.StudentsOfShapes | academic_assessment_system_frontend/src/ui/components/courses/CourseDetails/CourseDetails.jsx:44 | a list stays, a `data` wrapper is unwrapped, another wrapper stays a non-list |
| CourseDetails.EnrolledCount | academic_assessment_system_frontend/src/ui/components/courses/CourseDetails/CourseDetails.jsx:183 | a count exactly for a list, its length |
| CourseDetails.ExportFileName | academic_assessment_system_frontend/src/ui/components/courses/CourseDetails/CourseDetails.jsx:55-58 | `course_<code>_students.csv`, "course" for a missing code |
| CourseDetails.SemesterChip | academic_assessment_system_frontend/src/ui/components/courses/CourseDetails/CourseDetails.jsx:129 | "Semester " followed by the number, or by "undefined" when the record has no `semester` property |
| CourseDetails.YearLabel | academic_assessment_system_frontend/src/ui/components/courses/CourseDetails/CourseDetails.jsx:135 | `y/(y+1)`, and "undefined/NaN" when the record has no `academicYear` property |
| CourseDetails.YearLabelConsecutive | academic_assessment_system_frontend/src/ui/components/courses/CourseDetails/CourseDetails.jsx:135 | the label names a year and, after the slash, the next one |
| CourseDetails.StaffListOf | academic_assessment_system_frontend/src/ui/components/courses/CourseDetails/CourseDetails.jsx:248-272 | the empty-list message, or one name label per member |
| CourseDetails.StaffLabelsNonEmpty | academic_assessment_system_frontend/src/ui/components/courses/CourseDetails/CourseDetails.jsx:97-101 | every listed member has a non-empty label |
| CourseDetails.Render | academic_assessment_system_frontend/src/ui/components/courses/CourseDetails/CourseDetails.jsx:90-305 | nothing until loaded; then the code, the name, the semester chip and line, the year label, the count and both staff lists |
| CourseDetails.Dialog.constructor | academic_assessment_system_frontend/src/ui/components/courses/CourseDetails/CourseDetails.jsx:32-34 | nothing loaded, no students, no file |
| CourseDetails.Dialog.Load | academic_assessment_system_frontend/src/ui/components/courses/CourseDetails/CourseDetails.jsx:36-46 | closed or no id changes nothing; a found course replaces the details and the students take the normalised answer, [] when it is missing |
| CourseDetails.Dialog.FileChange | academic_assessment_system_frontend/src/ui/components/courses/CourseDetails/CourseDetails.jsx:69-72 | the picked file, or none |
| CourseDetails.Dialog.HandleImport | academic_assessment_system_frontend/src/ui/components/courses/CourseDetails/CourseDetails.jsx:74-88 | the picked file is sent; then, whatever the outcome, the file is cleared and the students take the reloaded answer |
| Register.InitialForm | academic_assessment_system_frontend/src/ui/components/auth/Register/Register.jsx:14-20 | every field empty |
| Register.Errors | academic_assessment_system_frontend/src/ui/components/auth/Register/Register.jsx:35-60 | one error per failing field, with its message: missing names or e-mail, a missing or out-of-range password, a missing or different confirmation |
| Register.Message | academic_assessment_system_frontend/src/ui/components/auth/Register/Register.jsx:35-62 | no message for an unknown field; every empty field has one; a password without one has 6 to 20 UTF-16 units, a confirmation without one equals the password |
| Register.BadLength | academic_assessment_system_frontend/src/ui/components/auth/Register/Register.jsx:50 | the length in UTF-16 units is outside 6 to 20: so fewer than 3 or more than 20 characters always fail, 6 to 10 characters always pass |
| Register.Validate | academic_assessment_system_frontend/src/ui/components/auth/Register/Register.jsx:35-62 | valid if and only if both names and the e-mail are given, the password has 6 to 20 characters and the confirmation equals it |
| Register.Payload | academic_assessment_system_frontend/src/ui/components/auth/Register/Register.jsx:69-75 | the four fields as typed and the role USER |
| Register.ValidPayload | academic_assessment_system_frontend/src/ui/components/auth/Register/Register.jsx:64-75 | a valid form's payload has no empty field and a 6-to-20-character password typed twice |
| Register.Form.constructor | academic_assessment_system_frontend/src/ui/components/auth/Register/Register.jsx:22-26 | empty form, no errors, no navigation |
| Register.Form.HandleChange | academic_assessment_system_frontend/src/ui/components/auth/Register/Register.jsx:28-33 | the field takes the value, its error and the general error clear |
| Register.Form.HandleSubmit | academic_assessment_system_frontend/src/ui/components/auth/Register/Register.jsx:64-89 | sent if and only if valid; an invalid form shows its errors; success resets and goes to /login, failure shows the general error |

## Left out

- HTTP transport, JSON (de)serialisation, Spring wiring, JPA's persistence context and transactions. Repositories are the `Database` maps. A service call is atomic, and a constraint violation leaves the tables as they were.
- Server calls of the front end, React hooks, effects, re-rendering and promise concurrency. Each handler runs to completion with the answers of its calls given as parameters. Every hook function except the users hook's `onAdd` catches a failed request and resolves with `undefined`, so a failure is a missing answer; `onAdd` logs the error and rethrows it, which `UserGrid.Grid.CreateUser` models as a `Result`.
- Blob downloads, `FormData` and the CSV import and export endpoints. Only the file names and the picked file are modelled.
- The password encoder, JWT signing and parsing, `@Email` checking, JavaScript `Number`, `Date` parsing and the clock are parameters.
- Case mapping is restricted to ASCII letters. White space follows three notions (`Text.Whitespace`): JavaScript `trim`, Java `trim` and `@NotBlank` (every character up to U+0020), and Java `isBlank`. Supplementary characters count as non-blank everywhere. Lengths checked by Java `@Size` and by the registration form's password `length` count UTF-16 code units (`Text.Utf16Length`), while the varchar columns of `FitsColumns` count characters. The other JavaScript string operations (`EditExamDialog.BuildTimeForApi`'s `length === 5`, `slice`, `charAt`) are taken per character; they are applied only to times and keys, which hold no character beyond U+FFFF.
- Constraint violations are detected when the row changes, not at a later flush. When several constraints are violated at once, the model names one fixed choice: `fk_enrollment_student` before `fk_prt_user`, and `uk_student_index` before `uk_student_user`. The database may report either.
- A failed insert does not consume an identity value.
- CreateExamDto.toExam (`CreateExamDto.java:37-46`) passes the laboratory list where the `Exam` constructor expects a `Course`, so it does not compile. It is not modelled.
- The other list endpoints of the controllers (`findAll` of users, courses and students, the enrollment and registration read endpoints) only forward to repositories and are not modelled.
- Course, student and registration controllers and services beyond those listed above are not part of this model.
- UserGrid's import, export (`UserGrid.jsx:259-289`), details open/close (`UserGrid.jsx:107-123`), the close handlers and the `isMounted` guard are not modelled. They only toggle dialogs or forward files.
- ExamController.SortBySchedule: dates and times are integers, so the NullPointerException the Java comparator throws for a missing date or time is not modelled.
- Tables.Database.PersistAssignment: a duplicate (course, user, role) is not rejected by `uk_course_user_staffrole`; the ensures promises the unique constraints only for a triple not yet stored. The staff reconciliation inserts only keys that no existing row of the course has.
- UserService.Update: a new profile that is not yet stored is linked, but the cascade does not insert it. The only caller passes a user without a profile.
- StudentService.Update: a profile whose new user is not stored breaks `fk_student_user` in the source. The model does not check it.
- StaffAssignmentHelper.NormalizeIds: the id list is `Option<seq<int>>`, so a null element inside a present list (`[1, null]`), which `distinct` keeps and the later lookup rejects, is not represented.
- CourseDetails.YearLabel: a course record whose `academicYear` is present but null (printed "null/1") is not represented; `None` is only the absent property.
- UserDto.ValidIff: `@Email` is a parameter `isEmail`, not the validator's actual grammar.
- ExamDetails: the header's course name, its date with the "No date" fallback and its `normalizeTime` formatting are display only and not modelled.
- HomePage.ToDate: the parse of the date text is a parameter, so invalid dates are "no date" only through it.

Other behaviour of the source that the model records as written:
- The JWT filter skips `/api/user/login` and `/api/user/register`, but the controller serves `/api/users/...`, so login and register requests are filtered.
- The students hook returns no `fetchStudents`, `onDeleteWithUser` or `onDeleteWithoutUser`, and the courses hook returns no `findAllForStaff` or `findAllForStudent`. Calls to them throw a TypeError.
- The user-details header turns `course_code` into "Course code", while its own comment promises "Course Code". Its id filter also hides a column named `valid`.
- The exam edit dialog sends a capacity of 0 as null. The course dialogs send an empty semester or year as 0.
- Submitting the course edit dialog without a course throws a TypeError.

## Findings

| source | as written | input that shows it | evidently intended | confidence | as-written member | corrected member |
|---|---|---|---|---|---|---|
| academic_assessment_system_backend/src/main/java/mk/ukim/finki/emc/academic_assessment_system_backend/service/domain/implementation/StudentServiceImpl.java:50-57 | `deleteByIdWithUser` calls `student.get()` before checking whether the profile exists | an id with no stored profile: `get()` throws NoSuchElementException instead of returning an empty Optional | an absent id returns empty and deletes nothing, as `deleteByIdWithoutUser` does | not executed | StudentService.DeleteByIdWithUserAsWritten | StudentService.DeleteByIdWithUser |
