/** `TraineeService`: creating, reading, updating and deleting trainees. */
module Trainees {
  import opened Wrappers
  import opened Model
  import opened Dto
  import opened Credentials
  import opened Repositories

  class TraineeService {
    const db: Database

    constructor (db: Database)
      ensures this.db == db
    {
      this.db := db;
    }

    /**
     * `createTrainee`: stores an active trainee with a username no user has yet and the
     * generated password, which is kept as drawn. `draw` is the candidate the random
     * source produces from `CHARACTERS`.
     */
    method CreateTrainee(firstName: string, lastName: string, dateOfBirth: Date, address: string,
                         draw: string) returns (trainee: Trainee)
      requires db.Valid()
      requires IsDraw(draw)
      modifies db
      ensures db.Valid()
      ensures trainee.user == User(GenerateUsername(firstName, lastName, old(db.Usernames())), draw,
                                   firstName, lastName, true)
      ensures trainee.dateOfBirth == dateOfBirth && trainee.address == address && trainee.trainerList == []
      ensures trainee.Username() !in old(db.Usernames())
      ensures MatchesPasswordPattern(trainee.user.password)
      ensures db.trainees == old(db.trainees)[trainee.Username() := trainee]
      ensures unchanged(db`trainers, db`trainerOrder, db`trainingTypes, db`trainings, db`nextTrainingId)
    {
      var username := GenerateUsername(firstName, lastName, db.Usernames());
      GenerateUsernameFresh(firstName, lastName, db.Usernames());
      FirstDrawAccepted([draw]);
      var password := GenerateRandomPassword([draw]).value;
      trainee := Trainee(User(username, password, firstName, lastName, true), dateOfBirth, address, []);
      db.trainees := db.trainees[username := trainee];
    }

    /** `getTraineeByUsername`: the trainee stored under `username`, or not-found. */
    method GetTraineeByUsername(username: string) returns (r: Result<Trainee, ServiceError>)
      requires db.Valid()
      ensures r.Success? <==> username in db.trainees
      ensures r.Success? ==> r.value == db.trainees[username] && r.value.Username() == username
      ensures r.Failure? ==> r.error == TraineeNotFound
    {
      if username in db.trainees {
        r := Success(db.trainees[username]);
      } else {
        r := Failure(TraineeNotFound);
      }
    }

    /**
     * `changePassword`: not-found, then a wrong old password, then an unchanged new one
     * are rejected and nothing is saved; otherwise only the password is replaced.
     */
    method ChangePassword(dto: CredentialsUpdateDto) returns (r: Result<Trainee, ServiceError>)
      requires db.Valid()
      modifies db
      ensures db.Valid()
      ensures dto.username !in old(db.trainees) ==> r == Failure(TraineeNotFound)
      ensures dto.username in old(db.trainees) ==>
                var t := old(db.trainees)[dto.username];
                && (dto.oldPassword != t.user.password ==> r == Failure(IncorrectPassword))
                && (dto.oldPassword == t.user.password && dto.newPassword == t.user.password ==>
                      r == Failure(IdenticalPassword))
                && (r.Success? <==> dto.oldPassword == t.user.password && dto.newPassword != t.user.password)
                && (r.Success? ==> r.value == t.(user := t.user.(password := dto.newPassword)))
      ensures r.Failure? ==> db.trainees == old(db.trainees)
      ensures r.Success? ==> db.trainees == old(db.trainees)[dto.username := r.value]
      ensures unchanged(db`trainers, db`trainerOrder, db`trainingTypes, db`trainings, db`nextTrainingId)
    {
      var found := GetTraineeByUsername(dto.username);
      if found.Failure? {
        return Failure(found.error);
      }
      var trainee := found.value;
      var changed := Model.ChangePassword(trainee.user, dto.oldPassword, dto.newPassword);
      if changed.Failure? {
        return Failure(changed.error);
      }
      var updated := trainee.(user := changed.value);
      db.trainees := db.trainees[dto.username := updated];
      r := Success(updated);
    }

    /**
     * `updateTrainee`: overwrites first and last name, birth date, address and active flag
     * of a found trainee, keeping username, password and trainers.
     */
    method UpdateTrainee(dto: TraineeUpdateDto) returns (r: Result<Trainee, ServiceError>)
      requires db.Valid()
      modifies db
      ensures db.Valid()
      ensures r.Success? <==> dto.username in old(db.trainees)
      ensures r.Failure? ==> r.error == TraineeNotFound && db.trainees == old(db.trainees)
      ensures r.Success? ==>
                var t := old(db.trainees)[dto.username];
                && r.value.user == User(dto.username, t.user.password, dto.firstName, dto.lastName, dto.isActive)
                && r.value.dateOfBirth == dto.dateOfBirth && r.value.address == dto.address
                && r.value.trainerList == t.trainerList
                && db.trainees == old(db.trainees)[dto.username := r.value]
      ensures unchanged(db`trainers, db`trainerOrder, db`trainingTypes, db`trainings, db`nextTrainingId)
    {
      var found := GetTraineeByUsername(dto.username);
      if found.Failure? {
        return Failure(found.error);
      }
      var trainee := found.value;
      var user := trainee.user.(firstName := dto.firstName, lastName := dto.lastName, isActive := dto.isActive);
      var updated := trainee.(user := user, dateOfBirth := dto.dateOfBirth, address := dto.address);
      db.trainees := db.trainees[dto.username := updated];
      r := Success(updated);
    }

    /** `toggleTraineeActivation`: sets, rather than flips, the active flag of a found trainee. */
    method ToggleTraineeActivation(username: string, isActive: bool) returns (r: Result<bool, ServiceError>)
      requires db.Valid()
      modifies db
      ensures db.Valid()
      ensures username in old(db.trainees) ==>
                var t := old(db.trainees)[username];
                && r == Success(true)
                && db.trainees == old(db.trainees)[username := t.(user := t.user.(isActive := isActive))]
      ensures username !in old(db.trainees) ==> r == Failure(TraineeNotFound) && db.trainees == old(db.trainees)
      ensures unchanged(db`trainers, db`trainerOrder, db`trainingTypes, db`trainings, db`nextTrainingId)
    {
      if username !in db.trainees {
        return Failure(TraineeNotFound);
      }
      var trainee := db.trainees[username];
      db.trainees := db.trainees[username := trainee.(user := trainee.user.(isActive := isActive))];
      r := Success(true);
    }

    /** `deleteTrainee`: removes a stored trainee and reports true; never reports false. */
    method DeleteTrainee(username: string) returns (r: Result<bool, ServiceError>)
      requires db.Valid()
      modifies db
      ensures db.Valid()
      ensures r != Success(false)
      ensures r == Success(true) <==> username in old(db.trainees)
      ensures r.Failure? ==> r.error == TraineeNotFound
      ensures db.trainees == old(db.trainees) - {username}
      ensures unchanged(db`trainers, db`trainerOrder, db`trainingTypes, db`trainings, db`nextTrainingId)
    {
      var deleted := username in db.trainees;
      db.trainees := db.trainees - {username};
      if deleted {
        r := Success(true);
      } else {
        r := Failure(TraineeNotFound);
      }
    }
  }
}
