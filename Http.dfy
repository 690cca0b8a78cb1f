/** What a handler writes back: a status code and a JSON body. */
module Http {

  const StatusOK: int := 200
  const StatusCreated: int := 201
  const StatusBadRequest: int := 400
  const StatusUnauthorized: int := 401
  const StatusNotFound: int := 404
  const StatusInternalServerError: int := 500

  /** gin.H{"message": ...}, gin.H{"error": ...}, or a response struct. */
  datatype Body<P> = MessageBody(message: string) | ErrorBody(error: string) | Payload(value: P)

  datatype Response<P> = Response(status: int, body: Body<P>)

  function Message<P>(status: int, message: string): Response<P>
  {
    Response(status, MessageBody(message))
  }

  function Error<P>(status: int, error: string): Response<P>
  {
    Response(status, ErrorBody(error))
  }
}
