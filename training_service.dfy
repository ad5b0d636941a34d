/** `TrainingService`: creating and deleting trainings, and guarding the training-list queries. */
module Trainings {
  import opened Wrappers
  import opened Model
  import opened Dto
  import opened Repositories

  /**
   * `validateDates`: a period is rejected exactly when it ends before it starts. A bound
   * the caller omitted is `None` (Java's `null`): `Date.before` dereferences both bounds,
   * so either one missing throws.
   */
  function ValidateDates(periodFrom: Option<Date>, periodTo: Option<Date>): (r: Outcome<ServiceError>)
    ensures r == Fail(NullPointer) <==> periodFrom.None? || periodTo.None?
    ensures r == Fail(IllegalDateArgument) <==>
              periodFrom.Some? && periodTo.Some? && periodTo.value < periodFrom.value
    ensures r == Pass <==> periodFrom.Some? && periodTo.Some? && periodFrom.value <= periodTo.value
  {
    if periodFrom.None? || periodTo.None? then Fail(NullPointer)
    else if periodTo.value < periodFrom.value then Fail(IllegalDateArgument)
    else Pass
  }

  /**
   * A one-day period, and a period of a single instant, are both accepted; an omitted
   * bound on either side, although the request parameter is optional, throws.
   */
  lemma ValidateDatesExamples(d: Date)
    ensures ValidateDates(Some(d), Some(d)) == Pass
    ensures ValidateDates(Some(d), Some(d + 86400000)) == Pass
    ensures ValidateDates(Some(d + 1), Some(d)) == Fail(IllegalDateArgument)
    ensures ValidateDates(None, Some(d)) == Fail(NullPointer)
    ensures ValidateDates(Some(d), None) == Fail(NullPointer)
  {
  }

  class TrainingService {
    const db: Database

    constructor (db: Database)
      ensures this.db == db
    {
      this.db := db;
    }

    /**
     * `createTraining`: looks up trainee, trainer and training type in that order and
     * reports the first one missing, saving nothing. Otherwise the trainee joins the
     * trainer's list, the trainer joins the trainee's list, and a training named after
     * its type, with the requested date and duration, is stored under a fresh id.
     */
    method CreateTraining(dto: TrainingCreateDto) returns (r: Result<bool, ServiceError>)
      requires db.Valid()
      modifies db
      ensures db.Valid()
      ensures dto.traineeUsername !in old(db.trainees) ==> r == Failure(TraineeNotFound)
      ensures dto.traineeUsername in old(db.trainees) && dto.trainerUsername !in old(db.trainers) ==>
                r == Failure(TrainerNotFound)
      ensures dto.traineeUsername in old(db.trainees) && dto.trainerUsername in old(db.trainers)
              && dto.trainingTypeName !in db.trainingTypes ==>
                r == Failure(TrainingTypeNotFound)
      ensures r.Success? <==>
                dto.traineeUsername in old(db.trainees) && dto.trainerUsername in old(db.trainers)
                && dto.trainingTypeName in old(db.trainingTypes)
      ensures r.Failure? ==> unchanged(db)
      ensures r.Success? ==>
                && dto.traineeUsername in old(db.trainees) && dto.trainerUsername in old(db.trainers)
                && dto.trainingTypeName in db.trainingTypes
                && r.value
                && var trainee := old(db.trainees)[dto.traineeUsername];
                   var trainer := old(db.trainers)[dto.trainerUsername];
                   var trainingType := db.trainingTypes[dto.trainingTypeName];
                   var id := old(db.nextTrainingId);
                   && db.trainees == old(db.trainees)[dto.traineeUsername :=
                        trainee.(trainerList := trainee.trainerList + [dto.trainerUsername])]
                   && db.trainers == old(db.trainers)[dto.trainerUsername :=
                        trainer.(traineeList := trainer.traineeList + [dto.traineeUsername])]
                   && id !in old(db.trainings)
                   && db.trainings == old(db.trainings)[id :=
                        Training(id, dto.traineeUsername, dto.trainerUsername, trainingType.trainingTypeName.name,
                                 trainingType, dto.trainingDate, dto.trainingDuration)]
                   && db.nextTrainingId == id + 1
      ensures unchanged(db`trainerOrder, db`trainingTypes)
    {
      if dto.traineeUsername !in db.trainees {
        return Failure(TraineeNotFound);
      }
      var trainee := db.trainees[dto.traineeUsername];
      if dto.trainerUsername !in db.trainers {
        return Failure(TrainerNotFound);
      }
      var trainer := db.trainers[dto.trainerUsername];
      if dto.trainingTypeName !in db.trainingTypes {
        return Failure(TrainingTypeNotFound);
      }
      var trainingType := db.trainingTypes[dto.trainingTypeName];
      db.trainers := db.trainers[dto.trainerUsername := trainer.(traineeList := trainer.traineeList + [dto.traineeUsername])];
      db.trainees := db.trainees[dto.traineeUsername := trainee.(trainerList := trainee.trainerList + [dto.trainerUsername])];
      var id := db.nextTrainingId;
      var training := Training(id, dto.traineeUsername, dto.trainerUsername, trainingType.trainingTypeName.name,
                               trainingType, dto.trainingDate, dto.trainingDuration);
      db.trainings := db.trainings[id := training];
      db.nextTrainingId := id + 1;
      r := Success(true);
    }

    /**
     * `deleteTraining`: removes the first occurrence of the training's trainee from its
     * trainer's list and of the trainer from the trainee's list, deletes the training,
     * and reports true.
     */
    method DeleteTraining(training: Training) returns (r: bool)
      requires db.Valid()
      modifies db
      ensures db.Valid()
      ensures r
      ensures training.trainer in old(db.trainers) ==>
                var t := old(db.trainers)[training.trainer];
                db.trainers == old(db.trainers)[training.trainer :=
                  t.(traineeList := RemoveFirst(t.traineeList, training.trainee))]
      ensures training.trainer !in old(db.trainers) ==> db.trainers == old(db.trainers)
      ensures training.trainee in old(db.trainees) ==>
                var t := old(db.trainees)[training.trainee];
                db.trainees == old(db.trainees)[training.trainee :=
                  t.(trainerList := RemoveFirst(t.trainerList, training.trainer))]
      ensures training.trainee !in old(db.trainees) ==> db.trainees == old(db.trainees)
      ensures db.trainings == old(db.trainings) - {training.id}
      ensures unchanged(db`trainerOrder, db`trainingTypes, db`nextTrainingId)
    {
      if training.trainer in db.trainers {
        var trainer := db.trainers[training.trainer];
        db.trainers := db.trainers[training.trainer := trainer.(traineeList := RemoveFirst(trainer.traineeList, training.trainee))];
      }
      if training.trainee in db.trainees {
        var trainee := db.trainees[training.trainee];
        db.trainees := db.trainees[training.trainee := trainee.(trainerList := RemoveFirst(trainee.trainerList, training.trainer))];
      }
      db.trainings := db.trainings - {training.id};
      r := true;
    }

    /**
     * `getTraineeTrainingList`: the date range is checked before the query runs, and an
     * accepted range returns what the query found (`queryResult`); an omitted bound throws.
     */
    method GetTraineeTrainingList(username: string, periodFrom: Option<Date>, periodTo: Option<Date>, trainerName: string,
                                  trainingTypeName: string, queryResult: seq<Training>)
      returns (r: Result<seq<Training>, ServiceError>)
      ensures r.Failure? <==> ValidateDates(periodFrom, periodTo).Fail?
      ensures r.Failure? ==> r.error == ValidateDates(periodFrom, periodTo).error
      ensures r.Success? <==> periodFrom.Some? && periodTo.Some? && periodFrom.value <= periodTo.value
      ensures r.Success? ==> r.value == queryResult
    {
      var valid := ValidateDates(periodFrom, periodTo);
      if valid.Fail? {
        return Failure(valid.error);
      }
      r := Success(queryResult);
    }

    /**
     * `getTrainerTrainingList`: the date range is checked before the query runs, and an
     * accepted range returns what the query found (`queryResult`); an omitted bound throws.
     */
    method GetTrainerTrainingList(username: string, periodFrom: Option<Date>, periodTo: Option<Date>, traineeName: string,
                                  queryResult: seq<Training>)
      returns (r: Result<seq<Training>, ServiceError>)
      ensures r.Failure? <==> ValidateDates(periodFrom, periodTo).Fail?
      ensures r.Failure? ==> r.error == ValidateDates(periodFrom, periodTo).error
      ensures r.Success? <==> periodFrom.Some? && periodTo.Some? && periodFrom.value <= periodTo.value
      ensures r.Success? ==> r.value == queryResult
    {
      var valid := ValidateDates(periodFrom, periodTo);
      if valid.Fail? {
        return Failure(valid.error);
      }
      r := Success(queryResult);
    }
  }

  /**
   * Creating a training and deleting it again restores both relationship lists:
   * removing the first occurrence undoes the append whenever the pair was not linked yet.
   */
  lemma {:induction false} RemoveFirstUndoesAppend(s: seq<string>, x: string)
    requires x !in s
    ensures RemoveFirst(s + [x], x) == s
  {
    if s != [] {
      assert (s + [x])[1..] == s[1..] + [x];
      RemoveFirstUndoesAppend(s[1..], x);
    }
  }

  /** Removing the first occurrence of a repeated partner leaves one occurrence in place. */
  lemma RemoveFirstKeepsLaterLink(s: seq<string>, x: string)
    requires x in s
    ensures x in RemoveFirst(s + [x], x)
    ensures |RemoveFirst(s + [x], x)| == |s|
  {
    var i := FirstIndex(s + [x], x);
    assert (s + [x])[|s|] == x;
    assert (s + [x])[i + 1..][|s| - i - 1] == x;
  }
}
