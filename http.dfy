/** The answer a handler sends: a status code with its JSON `message`, and the
    payload for the successful answers. */
module Http {

  datatype Reply<+T> =
    | Success(status: nat, message: string, data: T)
    | Failure(status: nat, message: string)

  const Ok: nat := 200
  const Created: nat := 201
  const BadRequest: nat := 400
  const Unauthorized: nat := 401
  const Forbidden: nat := 403
  const NotFound: nat := 404
  const ServerError: nat := 500
}
