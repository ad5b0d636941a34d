# Gym CRM core: login throttling, credentials, services and converters

This project models the core of a Spring Boot gym-management service in Dafny and
proves properties of the model. The service keeps trainees, trainers, trainings and
training types. The model covers:

- **Login throttle** (`login_attempt_service.dfy`, module `LoginAttempt`). A Guava
  cache counts failed logins per client key; entries expire 5 minutes after their last
  write. A client is blocked once its live count reaches 3. The key is the first field
  of `X-Forwarded-For` when that header contains the peer address, and the peer
  address otherwise.
  - The cache is a `map` from key to `(count, lastWrite)`. Expiry is evaluated at an
    explicit time `now`, in milliseconds, that never goes backwards.
  - `class LoginAttemptService` mutates the map. Its methods are proved against the
    pure functions `CountAt`, `AfterFailure` and `AfterLoad`; the lemmas are proved
    about those functions.
- **Credentials** (`credentials_generator.dfy`, module `Credentials`).
  - The username is `first.last`. When stored usernames contain that base, a numeric
    suffix is added.
  - A random password candidate is accepted when it matches `^[A-Za-z0-9]+$`.
- **Services**: `trainee_service.dfy`, `trainer_service.dfy` and `training_service.dfy`
  (modules `Trainees`, `Trainers`, `Trainings`).
  - Each service is a class over a shared `Database` (`database.dfy`). `Database` holds
    one map per repository, keyed by what the repository's finder looks up, plus the
    `findAll` order of trainers.
  - Relationship lists hold usernames, which are the repository keys of the related
    users.
  - Operations whose source method can throw return a `Result`: either `Success`, with
    the new state stated in full, or `Failure(error)`, with the state unchanged. These
    are `CreateTrainer`, the finders, the `ChangePassword`, update, activation and
    deletion operations of both user services, `UpdateTraineeTrainerList`,
    `CreateTraining` and the two training-list queries. `CreateTrainee` and
    `DeleteTraining` cannot fail and return the source's plain value, again with the
    new state stated in full.
  - The error is the exception the source throws, with one exception: a date range
    ending before it starts is reported as `IllegalDateArgument`, the exception `validateDates` evidently means to throw (see
    "## Left out"). An omitted date bound is `None` and fails with `NullPointer`.
- **Converters** (`converters.dfy`, module `Converters`). These are pure
  entity-to-DTO functions, and list versions that keep length and order.
- **Entities** are in `model.dfy`, DTOs in `dto.dfy`, and `Option`/`Result` in
  `wrappers.dfy`. Decimal digit strings and substring search are in `strings.dfy`.

Behaviour of the code worth noting:

- `isBlocked` calls `LoadingCache.get`, which writes a 0 entry for an absent or expired
  key, so `IsBlocked` modifies the cache. `LoadUnobservable` proves the state right
  after the load answers every query as before. `FailurePreservesSameView` and
  `LoadPreservesSameView` carry that through any later failures and loads.
- `createTrainer` never sets the user's active flag, so the builder's default, `false`,
  is stored.
- `createTrainee` stores the raw generated password. `createTrainer` stores
  `encode(encode(raw))` and returns the raw password.
- `updateTraineeTrainerList` reports an unknown trainee with the trainer-not-found
  exception.

## Model

| member | source | states |
|---|---|---|
| LoginAttempt.NoLiveEntryReadsZero | src/main/java/org/example/service/LoginAttemptService.java:28-34 | a key that is absent or not written within the ban duration reads 0 and is not blocked |
| LoginAttempt.FailureEffect | src/main/java/org/example/service/LoginAttemptService.java:37-47 | a failure makes the key read its previous live count plus one until the ban duration after it elapses, then 0; other keys keep their entries and counts |
| LoginAttempt.LoadUnobservable | src/main/java/org/example/service/LoginAttemptService.java:49-55 | the 0 written by a cache load cannot be distinguished from the earlier state by any later query |
| LoginAttempt.FailurePreservesSameView | src/main/java/org/example/service/LoginAttemptService.java:37-47 | two caches that answer every query alike from some time on still do after the same failure at a later time |
| LoginAttempt.LoadPreservesSameView | src/main/java/org/example/service/LoginAttemptService.java:41 | two caches that answer every query alike from some time on still do after the same load at a later time |
| LoginAttempt.ExpiredEntryRestarts | src/main/java/org/example/service/LoginAttemptService.java:41-46 | an entry written the ban duration ago or longer reads 0, is not blocked, and the next failure counts 1 |
| LoginAttempt.FailureKeepsBlocked | src/main/java/org/example/service/LoginAttemptService.java:45-51 | a blocked client that fails again stays blocked throughout the next ban duration |
| LoginAttempt.FailuresAccumulate | src/main/java/org/example/service/LoginAttemptService.java:37-47 | n failures, each less than the ban duration after the previous, add n to the live count before the first, until the ban duration after the last |
| LoginAttempt.FailuresLeaveOtherKeys | src/main/java/org/example/service/LoginAttemptService.java:41-46 | any number of failures on one key leave every other key's entry as it was |
| LoginAttempt.BlockedExactlyAtThreshold | src/main/java/org/example/service/LoginAttemptService.java:18-51 | starting from no live entry, closely spaced failures block the key if and only if there were at least 3 of them |
| LoginAttempt.TestScenario | src/test/java/org/example/service/LoginAttemptServiceTest.java:35-63 | for 127.0.0.1: no block after zero, one or two failures; block after three; no block after two failures and a six-minute wait |
| LoginAttempt.CountAt | src/main/java/org/example/service/LoginAttemptService.java:28-33 | what `get` returns: the count of an entry written less than the ban duration ago, otherwise the loader's 0 |
| LoginAttempt.AfterLoad | src/main/java/org/example/service/LoginAttemptService.java:41 | `get` adds the key; an absent or expired entry becomes a 0 written now, a live one leaves the cache exactly as it was, other keys keep their entries |
| LoginAttempt.AfterFailure | src/main/java/org/example/service/LoginAttemptService.java:41-46 | `put` stores the live count plus one, written now, under the key; other keys keep their entries |
| LoginAttempt.GetClientIP | src/main/java/org/example/service/LoginAttemptService.java:57-63 | the key is the peer address or a comma-free prefix of the header; it is missing (the call throws) exactly when the header is used and consists only of commas |
| LoginAttempt.FirstField | src/main/java/org/example/service/LoginAttemptService.java:62 | `split(",")[0]`: the prefix of the text up to its first comma, the whole text when it has no comma; none (the call throws) exactly when the text is non-empty and all commas |
| LoginAttempt.ClientIPFallsBackToRemote | src/main/java/org/example/service/LoginAttemptService.java:58-60 | a missing or empty header, or one that does not contain the peer address, yields the peer address |
| LoginAttempt.ClientIPFromHeader | src/main/java/org/example/service/LoginAttemptService.java:62 | a non-empty header containing a real peer address yields its text before the first comma, or the whole header when it has no comma |
| LoginAttempt.ClientIPDefined | src/main/java/org/example/service/LoginAttemptService.java:57-63 | for a non-empty, comma-free peer address the client key always exists |
| LoginAttempt.ClientIPThrowsOnCommaHeader | src/main/java/org/example/service/LoginAttemptService.java:62 | an empty peer address with the header "," makes the key derivation throw |
| LoginAttempt.LoginAttemptService.constructor | src/main/java/org/example/service/LoginAttemptService.java:25-35 | the service starts with an empty cache |
| LoginAttempt.LoginAttemptService.Get | src/main/java/org/example/service/LoginAttemptService.java:28-33 | `get` returns the live count and stores a loaded 0 entry when there is no live one |
| LoginAttempt.LoginAttemptService.LoginFailed | src/main/java/org/example/service/LoginAttemptService.java:37-47 | the cache becomes the failure update of the client key, or is unchanged when the key derivation throws |
| LoginAttempt.LoginAttemptService.IsBlocked | src/main/java/org/example/service/LoginAttemptService.java:49-55 | the answer is whether the client's live count is at least 3, and the cache's observable state is kept |
| Credentials.CharactersLiteral | src/main/java/org/example/utils/credentials/CredentialsGenerator.java:19 | the password alphabet is the 62-character literal of upper case, lower case and digits |
| Credentials.GenerateRandomPassword | src/main/java/org/example/utils/credentials/CredentialsGenerator.java:30-43 | the first candidate matching the pattern is returned; the result is absent exactly when no candidate matches |
| Credentials.CharactersAreAlphanumeric | src/main/java/org/example/utils/credentials/CredentialsGenerator.java:19-34 | every character of the alphabet belongs to `[A-Za-z0-9]` |
| Credentials.FirstDrawAccepted | src/main/java/org/example/utils/credentials/CredentialsGenerator.java:32-42 | a 10-character draw from the alphabet matches the pattern and is returned without a retry |
| Credentials.MatchesPasswordPattern | src/main/java/org/example/utils/credentials/CredentialsGenerator.java:34-38 | the pattern `^[A-Za-z0-9]+$`: non-empty and alphanumeric throughout |
| Credentials.CountContaining | src/main/java/org/example/utils/credentials/CredentialsGenerator.java:49 | the count is 0 exactly when no stored username contains the base, and positive when the base itself is stored |
| Credentials.GenerateUsernameAsWritten | src/main/java/org/example/utils/credentials/CredentialsGenerator.java:46-55 | the source's username: it begins with the base and is the base exactly when the count is 0 |
| Credentials.GenerateUsername | src/main/java/org/example/utils/credentials/CredentialsGenerator.java:46-55 | the corrected username: it begins with the base and is the base exactly when the count is 0 |
| Credentials.CountContainingIs | src/main/java/org/example/utils/credentials/CredentialsGenerator.java:49 | the count is the number of stored usernames that contain the base as a substring |
| Credentials.AsWrittenWithoutClash | src/main/java/org/example/utils/credentials/CredentialsGenerator.java:48-54 | with a count of 0 the username is exactly first name, dot, last name |
| Credentials.AsWrittenSuffix | src/main/java/org/example/utils/credentials/CredentialsGenerator.java:50-52 | with a positive count the username is the base followed by the digits of count + 1; the suffix reads back as count + 1, is at least 2 and is never "1" |
| Credentials.AsWrittenHasBasePrefix | src/main/java/org/example/utils/credentials/CredentialsGenerator.java:48-54 | the username always begins with the base |
| Credentials.AsWrittenCanClash | src/main/java/org/example/utils/credentials/CredentialsGenerator.java:49-52 | with "John.Doe2" stored, John Doe is given "John.Doe2" again |
| Credentials.GenerateUsernameFresh | src/main/java/org/example/utils/credentials/CredentialsGenerator.java:46-55 | the corrected username is not stored yet, begins with the base, equals the source's result whenever that is free, is the base when the count is 0, and otherwise has a suffix of at least 2 |
| Model.ChangePassword | src/main/java/org/example/service/TraineeService.java:60-65 | a wrong old password is rejected first, then a new password equal to the stored one; otherwise only the password changes |
| Model.ChangePasswordRoundTrip | src/main/java/org/example/service/TraineeService.java:58-68 | a successful change is undone by the reverse request; repeating the same request fails as incorrect |
| Repositories.Database.Usernames | src/main/java/org/example/utils/credentials/CredentialsGenerator.java:49 | the usernames searched are those of every trainee and every trainer |
| Repositories.Database.AllTrainers | src/main/java/org/example/service/TrainerService.java:146 | `findAll` lists each stored trainer, in repository order |
| Repositories.Without | src/main/java/org/example/service/TrainerService.java:117-118 | deleting drops a username from the `findAll` order and keeps every other name, leaving the order duplicate-free |
| Repositories.WithoutKeepsOrder | src/main/java/org/example/service/TrainerService.java:117-118 | in a duplicate-free `findAll` order, the names left after a deletion keep their old relative order |
| Repositories.WithoutAppend | src/main/java/org/example/service/TrainerService.java:117-118 | dropping a name from a concatenation drops it from each part, so the kept names stay in order |
| Repositories.RemoveFirst | src/main/java/org/example/service/TrainingService.java:95-96 | `List.remove` drops exactly the first occurrence, or nothing when there is none |
| Trainees.TraineeService.CreateTrainee | src/main/java/org/example/service/TraineeService.java:37-47 | stores an active trainee with the corrected generator's username (so one no user has yet; see "## Left out"), the accepted password, the given names, birth date and address, and no trainers |
| Trainees.TraineeService.GetTraineeByUsername | src/main/java/org/example/service/TraineeService.java:50-55 | returns the trainee stored under the username, or not-found exactly when there is none |
| Trainees.TraineeService.ChangePassword | src/main/java/org/example/service/TraineeService.java:58-69 | not-found, then incorrect, then identical password are rejected with nothing saved; otherwise only the password is replaced |
| Trainees.TraineeService.UpdateTrainee | src/main/java/org/example/service/TraineeService.java:72-82 | overwrites names, birth date, address and active flag; keeps username, password and trainers; not-found saves nothing |
| Trainees.TraineeService.ToggleTraineeActivation | src/main/java/org/example/service/TraineeService.java:85-92 | sets the active flag to the given value and returns true; not-found saves nothing |
| Trainees.TraineeService.DeleteTrainee | src/main/java/org/example/service/TraineeService.java:95-104 | returns true exactly when the trainee existed, otherwise not-found, and never false |
| Trainers.SelectRequested | src/main/java/org/example/service/TrainerService.java:146-148 | keeps exactly the requested usernames of the trainer order, in that order, without duplicates |
| Trainers.SelectedAreRequestedTrainers | src/main/java/org/example/service/TrainerService.java:146-148 | what is appended is exactly the stored, requested trainers, each once, in `findAll` order |
| Trainers.TrainerService.CreateTrainer | src/main/java/org/example/service/TrainerService.java:55-69 | an unknown specialization fails first; otherwise stores the corrected generator's username (see "## Left out") with the password encoded twice, appends it to the `findAll` order, and returns the raw password |
| Trainers.TrainerService.GetTrainerByUsername | src/main/java/org/example/service/TrainerService.java:72-77 | returns the trainer stored under the username, or not-found exactly when there is none |
| Trainers.TrainerService.ChangePassword | src/main/java/org/example/service/TrainerService.java:80-91 | not-found, then incorrect, then identical password are rejected with nothing saved; otherwise only the password is replaced |
| Trainers.TrainerService.UpdateTrainer | src/main/java/org/example/service/TrainerService.java:94-105 | checks the trainer, then the type; overwrites names, specialization and active flag; failures save nothing |
| Trainers.TrainerService.ToggleTrainerActivation | src/main/java/org/example/service/TrainerService.java:107-114 | sets the active flag to the given value and returns true; not-found saves nothing |
| Trainers.TrainerService.DeleteTrainer | src/main/java/org/example/service/TrainerService.java:117-126 | returns true exactly when the trainer existed, otherwise not-found, and never false |
| Trainers.TrainerService.UpdateTraineeTrainerList | src/main/java/org/example/service/TrainerService.java:143-153 | an unknown trainee fails; otherwise the new list is the old list followed by the selected trainers, and is returned |
| Trainings.ValidateDates | src/main/java/org/example/service/TrainingService.java:140-141 | an omitted bound throws a null-pointer error; otherwise the period is rejected if and only if its end is before its start, and passes exactly when both bounds are given in order |
| Trainings.ValidateDatesExamples | src/main/java/org/example/service/TrainingService.java:140-149 | equal dates and a one-day period pass; an end one millisecond before the start is rejected; omitting either bound throws |
| Trainings.TrainingService.CreateTraining | src/main/java/org/example/service/TrainingService.java:51-74 | trainee, trainer and type are checked in that order and a failure saves nothing; the call succeeds exactly when all three exist, and then both lists gain the partner and a training named after its type is stored |
| Trainings.TrainingService.DeleteTraining | src/main/java/org/example/service/TrainingService.java:92-100 | each side loses the first occurrence of its partner, the training is deleted, and the result is true |
| Trainings.TrainingService.GetTraineeTrainingList | src/main/java/org/example/service/TrainingService.java:103-113 | the date range is validated first, with its errors; the query's result is returned exactly when both bounds are given in order |
| Trainings.TrainingService.GetTrainerTrainingList | src/main/java/org/example/service/TrainingService.java:116-124 | the date range is validated first, with its errors; the query's result is returned exactly when both bounds are given in order |
| Trainings.RemoveFirstUndoesAppend | src/main/java/org/example/service/TrainingService.java:56-96 | removing the partner just appended to a list that did not hold it restores the list |
| Trainings.RemoveFirstKeepsLaterLink | src/main/java/org/example/service/TrainingService.java:95-96 | when the pair was already linked, deleting one training leaves them linked |
| Converters.TrainerToEmbeddedDto | src/main/java/org/example/utils/converter/TrainerConverter.java:29-36 | builds the embedded trainer DTO; its fields are stated by `TrainerConversionFields` |
| Converters.TrainerToDto | src/main/java/org/example/utils/converter/TrainerConverter.java:15-27 | builds the trainer DTO from the trainer and the trainees its list names; its fields are stated by `TrainerConversionFields` |
| Converters.TraineeToEmbeddedDto | src/main/java/org/example/utils/converter/TraineeConverter.java:29-35 | builds the embedded trainee DTO; its fields are stated by `TraineeConversionFields` |
| Converters.TraineeToDto | src/main/java/org/example/utils/converter/TraineeConverter.java:15-27 | builds the trainee DTO from the trainee and the trainers its list names; its fields are stated by `TraineeConversionFields` |
| Converters.RetrieveTrainerName | src/main/java/org/example/utils/converter/TrainingConverter.java:29-33 | the trainer's full name; its shape is stated by `TrainerNameParts` |
| Converters.TrainingToDto | src/main/java/org/example/utils/converter/TrainingConverter.java:19-27 | builds the training DTO; its fields are stated by `TrainingConversionFields` |
| Converters.TrainingTypeToDto | src/main/java/org/example/utils/converter/TrainingTypeConverter.java:13-18 | builds the training type DTO; its fields are stated by `TrainingTypeConversionFields` |
| Converters.TrainersToEmbeddedDtoList | src/main/java/org/example/utils/converter/TrainerConverter.java:38-42 | the same length, with element i the embedded DTO of trainer i |
| Converters.TrainersToEmbeddedAppend | src/main/java/org/example/utils/converter/TrainerConverter.java:38-42 | converting a concatenation concatenates the conversions |
| Converters.TrainerConversionFields | src/main/java/org/example/utils/converter/TrainerConverter.java:15-36 | both DTOs copy username, names and the specialization's enum name; the full one adds the active flag and the trainees, converted in order |
| Converters.TraineesToEmbeddedDtoList | src/main/java/org/example/utils/converter/TraineeConverter.java:37-41 | the same length, with element i the embedded DTO of trainee i |
| Converters.TraineesToEmbeddedAppend | src/main/java/org/example/utils/converter/TraineeConverter.java:37-41 | converting a concatenation concatenates the conversions |
| Converters.TraineeConversionFields | src/main/java/org/example/utils/converter/TraineeConverter.java:15-35 | the embedded DTO copies only username and names; the full one adds birth date, address, active flag and the trainers, converted in order |
| Converters.TrainingsToDtoList | src/main/java/org/example/utils/converter/TrainingConverter.java:13-17 | the same length, with element i the DTO of training i |
| Converters.TrainingConversionFields | src/main/java/org/example/utils/converter/TrainingConverter.java:19-26 | name, date and duration are copied, and the type is its enum name |
| Converters.TrainerNameParts | src/main/java/org/example/utils/converter/TrainingConverter.java:29-33 | the trainer name is the first name, one space, then the last name |
| Converters.TrainingTypesToDtoList | src/main/java/org/example/utils/converter/TrainingTypeConverter.java:20-24 | the same length, with element i the DTO of type i |
| Converters.TrainingTypeConversionFields | src/main/java/org/example/utils/converter/TrainingTypeConverter.java:13-17 | the id is copied and the name is the enum name |

## Left out

- Concurrency: the cache operations are sequential, so the read-then-put race in
  `loginFailed` is not represented.
- The clock: time is an explicit, non-decreasing millisecond parameter.
- The `ExecutionException` branches of `loginFailed` and `isBlocked`: they cannot fire
  with a loader that returns 0.
- `HttpServletRequest`: it is reduced to the optional `X-Forwarded-For` header and the
  peer address.
- BCrypt: the encoder is an uninterpreted function `encode`.
- `RandomStringUtils`: the random draw is a parameter. `GenerateRandomPassword` takes
  the finite sequence of draws, so it does not represent unbounded retrying.
- Spring Data derived queries: `getNotAssignedTrainerList` and the two training-list
  queries are left out, because the framework generates their meaning from method
  names. The list operations take the query's result as a parameter.
- JPA and transactions. On any failure a service operation changes nothing, as the
  transactional rollback makes it. This includes `createTraining`, whose code appends
  to both lists before the training-type lookup fails. Cascades and lazy loading are
  not modelled, so deleting a trainee or trainer leaves trainings and the other side's
  lists as they were.
- New trainees and trainers start with empty relationship lists. Lombok's builder in
  fact leaves them `null` until the entity is reloaded, which the model does not
  represent.
- Plain pass-throughs: `getAllTrainees`, `getAllTrainers`, `getAllTrainings`,
  `finaAllTrainingTypes`, `getTrainingById` and `updateTraining` only forward to the
  repository.
- Date formatting in `validateDates` and its error message. As written, the rejection
  path hands a `String` to `SimpleDateFormat.format`, which throws a different exception
  than the one intended. Only the comparison is modelled.
- Controllers, security configuration, exception handlers, logging and metrics.
- The `id` fields of the trainee, trainer and training DTOs: the converters never set
  them. The training type DTO's id is copied and is modelled.
- Trainees.TraineeService.CreateTrainee, Trainers.TrainerService.CreateTrainer: both use
  the corrected `GenerateUsername` (see "## Findings"), not the source's
  `generateUsername`. The repositories are maps keyed by username and cannot hold two
  users with one name, a property `Database.Valid` keeps. So the model does not
  represent the source saving a second user under a name already in use.
- LoginAttempt.AfterFailure, LoginAttempt.FailureKeepsBlocked,
  LoginAttempt.FailuresAccumulate, LoginAttempt.BlockedExactlyAtThreshold: the count is
  an unbounded natural number. Java's `int` would wrap to a negative value after
  2^31 - 1 failures within one window, and `isBlocked` would then answer false.
- Trainers.TrainerService.CreateTrainer: the trainer's username is appended to the
  `findAll` order, so the model fixes that order as creation order. The source's
  `findAll()` promises no order; `updateTraineeTrainerList` appends in whatever order it
  returns.
- Trainees.TraineeService.CreateTrainee, Trainees.TraineeService.UpdateTrainee,
  Converters.TraineeToDto: the birth date and address are always present values. The
  source accepts an omitted birth date or address, stores it as `null` and converts it
  as `null`, which the model does not represent.
- Credentials.GenerateRandomPassword: returns none instead of retrying forever when no
  draw in the sequence matches.

## Findings

| source | as written | input that shows it | evidently intended | confidence | as-written member | corrected member |
|---|---|---|---|---|---|---|
| src/main/java/org/example/utils/credentials/CredentialsGenerator.java:49-52 | the suffix is the number of stored usernames containing the base, plus one, whether or not that name is free | stored usernames {"John.Doe2"}; John Doe gets count 1 and suffix 2, so "John.Doe2" again | a username that no user has yet | not executed | Credentials.AsWrittenCanClash | Credentials.GenerateUsernameFresh |
