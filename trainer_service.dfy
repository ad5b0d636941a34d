/** `TrainerService`: creating, reading, updating and deleting trainers, and assigning them. */
module Trainers {
  import opened Wrappers
  import opened Model
  import opened Dto
  import opened Credentials
  import opened Repositories

  /**
   * The stream filter of `updateTraineeTrainerList`: the trainers of `order` whose
   * username was requested, in `order`'s order.
   */
  function SelectRequested(order: seq<string>, requested: seq<string>): (r: seq<string>)
    ensures forall u :: u in r <==> u in order && u in requested
    ensures |r| <= |order|
    ensures Distinct(order) ==> Distinct(r)
    ensures Distinct(order) ==>
              forall i, j :: 0 <= i < j < |r| ==> FirstIndex(order, r[i]) < FirstIndex(order, r[j])
  {
    if order == [] then []
    else
      var rest := SelectRequested(order[1..], requested);
      assert Distinct(order) ==> order[0] !in order[1..];
      assert forall k :: 0 <= k < |rest| ==> rest[k] in order by {
        forall k | 0 <= k < |rest|
          ensures rest[k] in order
        {
          assert order[1 + FirstIndex(order[1..], rest[k])] == rest[k];
        }
      }
      assert Distinct(order) ==> forall k :: 0 <= k < |rest| ==>
               FirstIndex(order, rest[k]) == 1 + FirstIndex(order[1..], rest[k]);
      if order[0] in requested then [order[0]] + rest else rest
  }

  class TrainerService {
    const db: Database
    /** The password encoder's `encode`, left uninterpreted. */
    const encode: string -> string

    constructor (db: Database, encode: string -> string)
      ensures this.db == db && this.encode == encode
    {
      this.db := db;
      this.encode := encode;
    }

    /**
     * `createTrainer`: an unknown specialization is rejected before anything is built.
     * Otherwise a trainer with a username no user has yet is stored with the drawn
     * password encoded twice, is appended to the `findAll` order, and is returned
     * carrying the raw password. The active flag is never set, so it stays false.
     */
    method CreateTrainer(firstName: string, lastName: string, specialization: TrainingTypeName,
                         draw: string) returns (r: Result<Trainer, ServiceError>)
      requires db.Valid()
      requires IsDraw(draw)
      modifies db
      ensures db.Valid()
      ensures specialization !in old(db.trainingTypes) ==>
                r == Failure(TrainingTypeNotFound)
                && unchanged(db`trainers, db`trainerOrder)
      ensures specialization in old(db.trainingTypes) ==>
                var username := GenerateUsername(firstName, lastName, old(db.Usernames()));
                var stored := Trainer(User(username, encode(encode(draw)), firstName, lastName, false),
                                      old(db.trainingTypes)[specialization], []);
                && username !in old(db.Usernames())
                && r == Success(stored.(user := stored.user.(password := draw)))
                && db.trainers == old(db.trainers)[username := stored]
                && db.trainerOrder == old(db.trainerOrder) + [username]
      ensures unchanged(db`trainees, db`trainingTypes, db`trainings, db`nextTrainingId)
    {
      if specialization !in db.trainingTypes {
        return Failure(TrainingTypeNotFound);
      }
      var trainingType := db.trainingTypes[specialization];
      var username := GenerateUsername(firstName, lastName, db.Usernames());
      GenerateUsernameFresh(firstName, lastName, db.Usernames());
      FirstDrawAccepted([draw]);
      var password := GenerateRandomPassword([draw]).value;
      var encodedPassword := encode(password);
      var stored := Trainer(User(username, encode(encodedPassword), firstName, lastName, false), trainingType, []);
      db.trainers := db.trainers[username := stored];
      db.trainerOrder := db.trainerOrder + [username];
      r := Success(stored.(user := stored.user.(password := password)));
    }

    /** `getTrainerByUsername`: the trainer stored under `username`, or not-found. */
    method GetTrainerByUsername(username: string) returns (r: Result<Trainer, ServiceError>)
      requires db.Valid()
      ensures r.Success? <==> username in db.trainers
      ensures r.Success? ==> r.value == db.trainers[username] && r.value.Username() == username
      ensures r.Failure? ==> r.error == TrainerNotFound
    {
      if username in db.trainers {
        r := Success(db.trainers[username]);
      } else {
        r := Failure(TrainerNotFound);
      }
    }

    /**
     * `changePassword`: not-found, then a wrong old password, then an unchanged new one
     * are rejected and nothing is saved; otherwise only the password is replaced. The
     * comparison is with the stored, encoded, text.
     */
    method ChangePassword(dto: CredentialsUpdateDto) returns (r: Result<Trainer, ServiceError>)
      requires db.Valid()
      modifies db
      ensures db.Valid()
      ensures dto.username !in old(db.trainers) ==> r == Failure(TrainerNotFound)
      ensures dto.username in old(db.trainers) ==>
                var t := old(db.trainers)[dto.username];
                && (dto.oldPassword != t.user.password ==> r == Failure(IncorrectPassword))
                && (dto.oldPassword == t.user.password && dto.newPassword == t.user.password ==>
                      r == Failure(IdenticalPassword))
                && (r.Success? <==> dto.oldPassword == t.user.password && dto.newPassword != t.user.password)
                && (r.Success? ==> r.value == t.(user := t.user.(password := dto.newPassword)))
      ensures r.Failure? ==> db.trainers == old(db.trainers)
      ensures r.Success? ==> db.trainers == old(db.trainers)[dto.username := r.value]
      ensures unchanged(db`trainees, db`trainerOrder, db`trainingTypes, db`trainings, db`nextTrainingId)
    {
      var found := GetTrainerByUsername(dto.username);
      if found.Failure? {
        return Failure(found.error);
      }
      var trainer := found.value;
      var changed := Model.ChangePassword(trainer.user, dto.oldPassword, dto.newPassword);
      if changed.Failure? {
        return Failure(changed.error);
      }
      var updated := trainer.(user := changed.value);
      db.trainers := db.trainers[dto.username := updated];
      r := Success(updated);
    }

    /**
     * `updateTrainer`: looks up the trainer, then the specialization; either missing is
     * reported and nothing saved. Otherwise first and last name, specialization and
     * active flag are overwritten, keeping username, password and trainees.
     */
    method UpdateTrainer(dto: TrainerUpdateDto) returns (r: Result<Trainer, ServiceError>)
      requires db.Valid()
      modifies db
      ensures db.Valid()
      ensures dto.username !in old(db.trainers) ==> r == Failure(TrainerNotFound)
      ensures dto.username in old(db.trainers) && dto.specialization !in db.trainingTypes ==>
                r == Failure(TrainingTypeNotFound)
      ensures r.Success? <==> dto.username in old(db.trainers) && dto.specialization in db.trainingTypes
      ensures r.Failure? ==> db.trainers == old(db.trainers)
      ensures r.Success? ==>
                var t := old(db.trainers)[dto.username];
                && r.value.user == User(dto.username, t.user.password, dto.firstName, dto.lastName, dto.isActive)
                && r.value.specialization == db.trainingTypes[dto.specialization]
                && r.value.traineeList == t.traineeList
                && db.trainers == old(db.trainers)[dto.username := r.value]
      ensures unchanged(db`trainees, db`trainerOrder, db`trainingTypes, db`trainings, db`nextTrainingId)
    {
      var found := GetTrainerByUsername(dto.username);
      if found.Failure? {
        return Failure(found.error);
      }
      if dto.specialization !in db.trainingTypes {
        return Failure(TrainingTypeNotFound);
      }
      var trainer := found.value;
      var user := trainer.user.(firstName := dto.firstName, lastName := dto.lastName, isActive := dto.isActive);
      var updated := trainer.(user := user, specialization := db.trainingTypes[dto.specialization]);
      db.trainers := db.trainers[dto.username := updated];
      r := Success(updated);
    }

    /** `toggleTrainerActivation`: sets, rather than flips, the active flag of a found trainer. */
    method ToggleTrainerActivation(username: string, isActive: bool) returns (r: Result<bool, ServiceError>)
      requires db.Valid()
      modifies db
      ensures db.Valid()
      ensures username in old(db.trainers) ==>
                var t := old(db.trainers)[username];
                && r == Success(true)
                && db.trainers == old(db.trainers)[username := t.(user := t.user.(isActive := isActive))]
      ensures username !in old(db.trainers) ==> r == Failure(TrainerNotFound) && db.trainers == old(db.trainers)
      ensures unchanged(db`trainees, db`trainerOrder, db`trainingTypes, db`trainings, db`nextTrainingId)
    {
      if username !in db.trainers {
        return Failure(TrainerNotFound);
      }
      var trainer := db.trainers[username];
      db.trainers := db.trainers[username := trainer.(user := trainer.user.(isActive := isActive))];
      r := Success(true);
    }

    /**
     * `deleteTrainer`: removes a stored trainer, also from the `findAll` order, and
     * reports true; never reports false.
     */
    method DeleteTrainer(username: string) returns (r: Result<bool, ServiceError>)
      requires db.Valid()
      modifies db
      ensures db.Valid()
      ensures r != Success(false)
      ensures r == Success(true) <==> username in old(db.trainers)
      ensures r.Failure? ==> r.error == TrainerNotFound
      ensures db.trainers == old(db.trainers) - {username}
      ensures db.trainerOrder == Without(old(db.trainerOrder), username)
      ensures unchanged(db`trainees, db`trainingTypes, db`trainings, db`nextTrainingId)
    {
      var deleted := username in db.trainers;
      db.trainers := db.trainers - {username};
      db.trainerOrder := Without(db.trainerOrder, username);
      if deleted {
        r := Success(true);
      } else {
        r := Failure(TrainerNotFound);
      }
    }

    /**
     * `updateTraineeTrainerList`: an unknown trainee is reported (as trainer-not-found).
     * Otherwise every stored trainer whose username is requested is appended, in
     * `findAll` order, to the trainee's list, which is returned; the old list stays its
     * prefix and nothing is removed or de-duplicated.
     */
    method UpdateTraineeTrainerList(traineeUsername: string, trainerUsernameList: seq<string>)
      returns (r: Result<seq<string>, ServiceError>)
      requires db.Valid()
      modifies db
      ensures db.Valid()
      ensures traineeUsername !in old(db.trainees) ==>
                r == Failure(TrainerNotFound) && db.trainees == old(db.trainees)
      ensures traineeUsername in old(db.trainees) ==>
                var t := old(db.trainees)[traineeUsername];
                var added := SelectRequested(db.trainerOrder, trainerUsernameList);
                && r == Success(t.trainerList + added)
                && db.trainees == old(db.trainees)[traineeUsername := t.(trainerList := t.trainerList + added)]
      ensures unchanged(db`trainers, db`trainerOrder, db`trainingTypes, db`trainings, db`nextTrainingId)
    {
      if traineeUsername !in db.trainees {
        return Failure(TrainerNotFound);
      }
      var trainee := db.trainees[traineeUsername];
      var trainers := SelectRequested(db.trainerOrder, trainerUsernameList);
      var updated := trainee.(trainerList := trainee.trainerList + trainers);
      db.trainees := db.trainees[traineeUsername := updated];
      r := Success(updated.trainerList);
    }
  }

  /**
   * What `updateTraineeTrainerList` appends: exactly the stored trainers that were
   * requested, each once, in `findAll` order.
   */
  lemma SelectedAreRequestedTrainers(db: Database, requested: seq<string>)
    requires db.Valid()
    ensures var added := SelectRequested(db.trainerOrder, requested);
            && (forall u :: u in added <==> u in db.trainers && u in requested)
            && Distinct(added)
            && forall i, j :: 0 <= i < j < |added| ==>
                 FirstIndex(db.trainerOrder, added[i]) < FirstIndex(db.trainerOrder, added[j])
  {
  }
}
