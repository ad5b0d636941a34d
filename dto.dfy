/** The data-transfer objects the services accept and the converters produce. */
module Dto {
  import opened Model

  datatype CredentialsUpdateDto = CredentialsUpdateDto(username: string, oldPassword: string,
                                                       newPassword: string)

  datatype TraineeUpdateDto = TraineeUpdateDto(username: string, firstName: string, lastName: string,
                                               dateOfBirth: Date, address: string, isActive: bool)

  datatype TrainerUpdateDto = TrainerUpdateDto(username: string, firstName: string, lastName: string,
                                               specialization: TrainingTypeName, isActive: bool)

  datatype TrainingCreateDto = TrainingCreateDto(traineeUsername: string, trainerUsername: string,
                                                 trainingTypeName: TrainingTypeName,
                                                 trainingDate: Date, trainingDuration: int)

  datatype TraineeEmbeddedDto = TraineeEmbeddedDto(username: string, firstName: string, lastName: string)

  datatype TrainerEmbeddedDto = TrainerEmbeddedDto(username: string, firstName: string, lastName: string,
                                                   specialization: string)

  datatype TraineeDto = TraineeDto(username: string, firstName: string, lastName: string,
                                   dateOfBirth: Date, address: string, isActive: bool,
                                   trainerEmbeddedDtoList: seq<TrainerEmbeddedDto>)

  datatype TrainerDto = TrainerDto(username: string, firstName: string, lastName: string,
                                   specialization: string, isActive: bool,
                                   traineeEmbeddedDtoList: seq<TraineeEmbeddedDto>)

  datatype TrainingDto = TrainingDto(trainingName: string, trainingDate: Date, trainingType: string,
                                     trainingDuration: int, trainerName: string)

  datatype TrainingTypeDto = TrainingTypeDto(id: int, trainingTypeName: string)
}
