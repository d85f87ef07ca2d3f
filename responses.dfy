/** The response envelope returned by every endpoint (ApiResponse.java). */
module Responses {
  import opened Base

  /** The HTTP status codes the controller uses. */
  const Ok: Int32 := 200
  const BadRequest: Int32 := 400
  const Unauthorized: Int32 := 401
  const NotFound: Int32 := 404

  /** The field initialisers of the envelope. */
  const DefaultStatus: Int32 := Ok
  const DefaultMessage: string := "OK"

  /**
   * `status`, `message` and a payload `data` that may be null. The datatype's
   * constructor is the all-arguments constructor; the `With…` members are the
   * generated setters, written as updates of an immutable value.
   */
  datatype ApiResponse<T> = ApiResponse(status: Int32, message: string, data: Option<T>)
  {
    /** `setStatus`: only the status changes. */
    function WithStatus(s: Int32): (r: ApiResponse<T>)
      ensures r.status == s
      ensures r.message == message && r.data == data
    {
      this.(status := s)
    }

    /** `setMessage`: only the message changes. */
    function WithMessage(m: string): (r: ApiResponse<T>)
      ensures r.message == m
      ensures r.status == status && r.data == data
    {
      this.(message := m)
    }

    /** `setData`: only the payload changes. */
    function WithData(d: Option<T>): (r: ApiResponse<T>)
      ensures r.data == d
      ensures r.status == status && r.message == message
    {
      this.(data := d)
    }
  }

  /** The no-argument constructor: the field initialisers, and a null payload. */
  function NewApiResponse<T>(): (r: ApiResponse<T>)
    ensures r.status == 200
    ensures r.message == "OK"
    ensures r.data == None
  {
    ApiResponse(DefaultStatus, DefaultMessage, None)
  }

  /** The all-arguments constructor keeps each argument in its own field. */
  lemma AllArgsConstructor<T>(status: Int32, message: string, data: Option<T>)
    ensures ApiResponse(status, message, data).status == status
    ensures ApiResponse(status, message, data).message == message
    ensures ApiResponse(status, message, data).data == data
  {
  }

  /**
   * Filling a default envelope through the three setters, as the controller
   * does, yields the envelope the all-arguments constructor builds.
   */
  lemma SettersBuildAllArgs<T>(status: Int32, message: string, data: Option<T>)
    ensures NewApiResponse<T>().WithStatus(status).WithMessage(message).WithData(data)
         == ApiResponse(status, message, data)
  {
  }
}
