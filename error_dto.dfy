/** The generic error envelope (ErrorDto.java). */
module ErrorDtos {
  import opened Base
  import opened Responses

  const ErrorMessage: string := "Une erreur est survenue!"

  /**
   * The constructor runs the inherited initialisers and then sets only the
   * message: the status stays the default 200, not an error code.
   */
  function NewErrorDto(): (r: ApiResponse<string>)
    ensures r.message == "Une erreur est survenue!"
    ensures r.status == 200
    ensures r.data == None
    ensures r.status == NewApiResponse<string>().status && r.data == NewApiResponse<string>().data
    ensures r != NewApiResponse<string>()
  {
    NewApiResponse<string>().WithMessage(ErrorMessage)
  }
}
