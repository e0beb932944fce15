/**
  The service layer's failure kinds (the subclasses of `ServiceException` that
  the containers throw) and a result type that carries either a value or one of
  them in place of a thrown exception.
 */
module Service {

  datatype ServiceError =
    | NotImplemented(message: string)   // ServiceException.NotImplementedException
    | UnexpectedError(message: string)  // ServiceException.UnexpectedErrorException
    | NotFound(message: string)         // ServiceException.NotFoundException

  datatype Result<T> = Ok(value: T) | Err(error: ServiceError)
}
