/**
 * The entity-to-DTO converters. The four converter classes of the source call each
 * other (trainee and trainer conversions embed one another), so they share one module;
 * member names carry the class's entity. Following a relationship list means looking the
 * usernames up in the other repository, which the Java objects do by reference.
 */
module Converters {
  import opened Model
  import opened Dto

  // ---------------------------------------------------------------------------------------
  // TrainerConverter

  function TrainerToEmbeddedDto(trainer: Trainer): TrainerEmbeddedDto {
    TrainerEmbeddedDto(trainer.Username(), trainer.user.firstName, trainer.user.lastName,
                       trainer.specialization.trainingTypeName.name)
  }

  /** `convertToEmbeddedDtoList`: one embedded DTO per trainer, in the same order. */
  function TrainersToEmbeddedDtoList(trainers: seq<Trainer>): (r: seq<TrainerEmbeddedDto>)
    ensures |r| == |trainers|
    ensures forall i :: 0 <= i < |trainers| ==> r[i] == TrainerToEmbeddedDto(trainers[i])
  {
    if trainers == [] then [] else [TrainerToEmbeddedDto(trainers[0])] + TrainersToEmbeddedDtoList(trainers[1..])
  }

  /** `convertToDto`, with the trainer's trainees looked up in `trainees`. */
  function TrainerToDto(trainer: Trainer, trainees: map<string, Trainee>): TrainerDto
    requires forall i :: 0 <= i < |trainer.traineeList| ==> trainer.traineeList[i] in trainees
  {
    TrainerDto(trainer.Username(), trainer.user.firstName, trainer.user.lastName,
               trainer.specialization.trainingTypeName.name, trainer.user.isActive,
               TraineesToEmbeddedDtoList(Resolve(trainer.traineeList, trainees)))
  }

  // ---------------------------------------------------------------------------------------
  // TraineeConverter

  function TraineeToEmbeddedDto(trainee: Trainee): TraineeEmbeddedDto {
    TraineeEmbeddedDto(trainee.Username(), trainee.user.firstName, trainee.user.lastName)
  }

  /** `convertToEmbeddedDtoList`: one embedded DTO per trainee, in the same order. */
  function TraineesToEmbeddedDtoList(trainees: seq<Trainee>): (r: seq<TraineeEmbeddedDto>)
    ensures |r| == |trainees|
    ensures forall i :: 0 <= i < |trainees| ==> r[i] == TraineeToEmbeddedDto(trainees[i])
  {
    if trainees == [] then [] else [TraineeToEmbeddedDto(trainees[0])] + TraineesToEmbeddedDtoList(trainees[1..])
  }

  /** `convertToDto`, with the trainee's trainers looked up in `trainers`. */
  function TraineeToDto(trainee: Trainee, trainers: map<string, Trainer>): TraineeDto
    requires forall i :: 0 <= i < |trainee.trainerList| ==> trainee.trainerList[i] in trainers
  {
    TraineeDto(trainee.Username(), trainee.user.firstName, trainee.user.lastName,
               trainee.dateOfBirth, trainee.address, trainee.user.isActive,
               TrainersToEmbeddedDtoList(Resolve(trainee.trainerList, trainers)))
  }

  // ---------------------------------------------------------------------------------------
  // TrainingConverter

  /** `retrieveTrainerName`: the trainer's first name, a space, and the last name. */
  function RetrieveTrainerName(training: Training, trainers: map<string, Trainer>): string
    requires training.trainer in trainers
  {
    trainers[training.trainer].user.firstName + " " + trainers[training.trainer].user.lastName
  }

  function TrainingToDto(training: Training, trainers: map<string, Trainer>): TrainingDto
    requires training.trainer in trainers
  {
    TrainingDto(training.trainingName, training.trainingDate, training.trainingType.trainingTypeName.name,
                training.trainingDuration, RetrieveTrainerName(training, trainers))
  }

  /** `convertToDtoList`: one DTO per training, in the same order. */
  function TrainingsToDtoList(trainings: seq<Training>, trainers: map<string, Trainer>): (r: seq<TrainingDto>)
    requires forall i :: 0 <= i < |trainings| ==> trainings[i].trainer in trainers
    ensures |r| == |trainings|
    ensures forall i :: 0 <= i < |trainings| ==> r[i] == TrainingToDto(trainings[i], trainers)
  {
    if trainings == [] then []
    else [TrainingToDto(trainings[0], trainers)] + TrainingsToDtoList(trainings[1..], trainers)
  }

  // ---------------------------------------------------------------------------------------
  // TrainingTypeConverter

  function TrainingTypeToDto(trainingType: TrainingType): TrainingTypeDto {
    TrainingTypeDto(trainingType.id, trainingType.trainingTypeName.name)
  }

  /** `convertToDtoList`: one DTO per training type, in the same order. */
  function TrainingTypesToDtoList(trainingTypes: seq<TrainingType>): (r: seq<TrainingTypeDto>)
    ensures |r| == |trainingTypes|
    ensures forall i :: 0 <= i < |trainingTypes| ==> r[i] == TrainingTypeToDto(trainingTypes[i])
  {
    if trainingTypes == [] then []
    else [TrainingTypeToDto(trainingTypes[0])] + TrainingTypesToDtoList(trainingTypes[1..])
  }

  // ---------------------------------------------------------------------------------------
  // Properties relating the conversions.

  /**
   * Both trainer conversions copy username, first and last name and give the
   * specialization's enum name; the full DTO adds the active flag and the trainer's
   * trainees, converted one by one in order.
   */
  lemma TrainerConversionFields(trainer: Trainer, trainees: map<string, Trainee>)
    requires forall i :: 0 <= i < |trainer.traineeList| ==> trainer.traineeList[i] in trainees
    ensures var e := TrainerToEmbeddedDto(trainer);
            && e.username == trainer.user.username
            && e.firstName == trainer.user.firstName && e.lastName == trainer.user.lastName
            && e.specialization == trainer.specialization.trainingTypeName.name
    ensures var d := TrainerToDto(trainer, trainees);
            && d.username == trainer.user.username
            && d.firstName == trainer.user.firstName && d.lastName == trainer.user.lastName
            && d.specialization == trainer.specialization.trainingTypeName.name
            && d.isActive == trainer.user.isActive
            && |d.traineeEmbeddedDtoList| == |trainer.traineeList|
            && forall i :: 0 <= i < |trainer.traineeList| ==>
                 d.traineeEmbeddedDtoList[i] == TraineeToEmbeddedDto(trainees[trainer.traineeList[i]])
  {
  }

  /**
   * The embedded trainee DTO copies only username, first and last name; the full DTO adds
   * birth date, address, active flag and the trainee's trainers, converted in order.
   */
  lemma TraineeConversionFields(trainee: Trainee, trainers: map<string, Trainer>)
    requires forall i :: 0 <= i < |trainee.trainerList| ==> trainee.trainerList[i] in trainers
    ensures TraineeToEmbeddedDto(trainee)
         == TraineeEmbeddedDto(trainee.user.username, trainee.user.firstName, trainee.user.lastName)
    ensures var d := TraineeToDto(trainee, trainers);
            && d.username == trainee.user.username
            && d.firstName == trainee.user.firstName && d.lastName == trainee.user.lastName
            && d.dateOfBirth == trainee.dateOfBirth && d.address == trainee.address
            && d.isActive == trainee.user.isActive
            && |d.trainerEmbeddedDtoList| == |trainee.trainerList|
            && forall i :: 0 <= i < |trainee.trainerList| ==>
                 d.trainerEmbeddedDtoList[i] == TrainerToEmbeddedDto(trainers[trainee.trainerList[i]])
  {
  }

  /** A training DTO copies name, date and duration and gives the type's enum name. */
  lemma TrainingConversionFields(training: Training, trainers: map<string, Trainer>)
    requires training.trainer in trainers
    ensures var d := TrainingToDto(training, trainers);
            && d.trainingName == training.trainingName && d.trainingDate == training.trainingDate
            && d.trainingDuration == training.trainingDuration
            && d.trainingType == training.trainingType.trainingTypeName.name
  {
  }

  /** A training type DTO copies the id and gives the enum name. */
  lemma TrainingTypeConversionFields(trainingType: TrainingType)
    ensures TrainingTypeToDto(trainingType).id == trainingType.id
    ensures TrainingTypeToDto(trainingType).trainingTypeName == trainingType.trainingTypeName.name
  {
  }

  /** Converting a concatenation converts each part: appending trainers appends their DTOs. */
  lemma {:induction false} TrainersToEmbeddedAppend(a: seq<Trainer>, b: seq<Trainer>)
    ensures TrainersToEmbeddedDtoList(a + b) == TrainersToEmbeddedDtoList(a) + TrainersToEmbeddedDtoList(b)
  {
    if a != [] {
      assert (a + b)[1..] == a[1..] + b;
      TrainersToEmbeddedAppend(a[1..], b);
    }
  }

  /** Converting a concatenation converts each part: appending trainees appends their DTOs. */
  lemma {:induction false} TraineesToEmbeddedAppend(a: seq<Trainee>, b: seq<Trainee>)
    ensures TraineesToEmbeddedDtoList(a + b) == TraineesToEmbeddedDtoList(a) + TraineesToEmbeddedDtoList(b)
  {
    if a != [] {
      assert (a + b)[1..] == a[1..] + b;
      TraineesToEmbeddedAppend(a[1..], b);
    }
  }

  /**
   * The trainer name splits back into the trainer's names: the first name, then a space
   * at its end, then the last name.
   */
  lemma TrainerNameParts(training: Training, trainers: map<string, Trainer>)
    requires training.trainer in trainers
    ensures var name := TrainingToDto(training, trainers).trainerName;
            var user := trainers[training.trainer].user;
            && |name| == |user.firstName| + 1 + |user.lastName|
            && name[..|user.firstName|] == user.firstName
            && name[|user.firstName|] == ' '
            && name[|user.firstName| + 1..] == user.lastName
  {
  }
}
