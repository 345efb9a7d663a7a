/** `ResponseObj`: an outcome flag, a message and a payload, with the `success` and `failure`
    factories. The payload may be any value; None stands for `null`. */
module ResponseUtil {
  import opened Js

  datatype ResponseObj<D> = ResponseObj(isSuccess: bool, message: string, data: Option<D>)

  /** `ResponseObj.success(message, data)` */
  function Success<D>(message: string, data: Option<D>): (r: ResponseObj<D>)
    ensures r.isSuccess && r.message == message && r.data == data
  {
    ResponseObj(true, message, data)
  }

  /** `ResponseObj.failure(message, data)` */
  function Failure<D>(message: string, data: Option<D>): (r: ResponseObj<D>)
    ensures !r.isSuccess && r.message == message && r.data == data
  {
    ResponseObj(false, message, data)
  }

  /** `ResponseObj.failure(message)`: the omitted payload defaults to `null`. */
  function FailureWithoutData<D>(message: string): (r: ResponseObj<D>)
    ensures !r.isSuccess && r.message == message && r.data == None
  {
    Failure(message, None)
  }

  /** For the same message and payload the two factories differ in the flag and nowhere else. */
  lemma FactoriesDifferOnlyInFlag<D>(message: string, data: Option<D>)
    ensures Success(message, data) != Failure(message, data)
    ensures Success(message, data).(isSuccess := false) == Failure(message, data)
  {
  }
}
