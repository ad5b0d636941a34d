/**
 * The persistent entities as plain values. A relationship list holds the usernames of
 * the related users: the key under which their repository finds them.
 */
module Model {
  import opened Wrappers

  /** A `java.util.Date`, as milliseconds since the epoch. */
  type Date = int

  /** A constant of the `TrainingTypeName` enum; `name` is what `name()` returns. */
  datatype TrainingTypeName = TrainingTypeName(name: string)

  datatype TrainingType = TrainingType(id: int, trainingTypeName: TrainingTypeName)

  /** The account shared by trainees and trainers. */
  datatype User = User(username: string, password: string, firstName: string, lastName: string,
                       isActive: bool)

  /** A trainee; `trainerList` names the trainers linked to them. */
  datatype Trainee = Trainee(user: User, dateOfBirth: Date, address: string, trainerList: seq<string>)
  {
    function Username(): string { user.username }
  }

  /** A trainer; `traineeList` names the trainees linked to them. */
  datatype Trainer = Trainer(user: User, specialization: TrainingType, traineeList: seq<string>)
  {
    function Username(): string { user.username }
  }

  /** A training session between the trainee and the trainer it names. */
  datatype Training = Training(id: nat, trainee: string, trainer: string, trainingName: string,
                               trainingType: TrainingType, trainingDate: Date, trainingDuration: int)

  /** The exceptions the services throw. */
  datatype ServiceError =
    | TraineeNotFound
    | TrainerNotFound
    | TrainingTypeNotFound
    | IncorrectPassword
    | IdenticalPassword
    | IllegalDateArgument
    /** A `NullPointerException`, raised for an omitted date bound. */
    | NullPointer

  /** The entities the usernames `refs` refer to, in order. */
  function Resolve<T>(refs: seq<string>, repository: map<string, T>): (r: seq<T>)
    requires forall i :: 0 <= i < |refs| ==> refs[i] in repository
    ensures |r| == |refs| && forall i :: 0 <= i < |refs| ==> r[i] == repository[refs[i]]
  {
    seq(|refs|, i requires 0 <= i < |refs| => repository[refs[i]])
  }

  /**
   * The password-change rule both services apply to a found account: a wrong old
   * password is rejected first, then a new password equal to the stored one; otherwise
   * only the password changes.
   */
  function ChangePassword(user: User, oldPassword: string, newPassword: string): (r: Result<User, ServiceError>)
    ensures r == Failure(IncorrectPassword) <==> oldPassword != user.password
    ensures r == Failure(IdenticalPassword) <==> oldPassword == user.password && newPassword == user.password
    ensures r.Success? <==> oldPassword == user.password && newPassword != user.password
    ensures r.Success? ==> r.value.password == newPassword && r.value.(password := user.password) == user
  {
    if oldPassword != user.password then Failure(IncorrectPassword)
    else if newPassword == user.password then Failure(IdenticalPassword)
    else Success(user.(password := newPassword))
  }

  /**
   * A successful change can be undone by the reverse request, and the same request
   * cannot succeed twice: its old password no longer matches.
   */
  lemma ChangePasswordRoundTrip(user: User, oldPassword: string, newPassword: string)
    requires ChangePassword(user, oldPassword, newPassword).Success?
    ensures var changed := ChangePassword(user, oldPassword, newPassword).value;
            && ChangePassword(changed, newPassword, oldPassword) == Success(user)
            && ChangePassword(changed, oldPassword, newPassword) == Failure(IncorrectPassword)
  {
  }
}
