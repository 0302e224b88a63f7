/** The result envelope returned by the external application's API helpers: a success flag, an error
    detail, a user notification, a list of validation errors and the payload, with the factories that
    build failed and successful envelopes and the copy of an error into an envelope of another payload
    type. `O` stands for `object`, the type of the untyped payload slots. */
module ResultEnvelope {
  import opened Common

  /** `ValidateInputDto`: one failed validation. */
  datatype ValidateInput = ValidateInput(propertyName: Option<string>, errorMessage: Option<string>, errorCode: Option<string>)

  /** `CommonResultExtendDto`: a code, a message, message parameters and an untyped payload. */
  datatype Extend<O> = Extend(code: Option<string>, message: Option<string>, paramMessage: Option<seq<string>>, data: Option<O>)

  /** `CommonResultErrorDto`: the part of an envelope that describes success or failure. */
  datatype ErrorPart<O> = ErrorPart(
    isSuccessful: bool,
    errorDetail: Option<Extend<O>>,
    notification: Option<Extend<O>>,
    errors: seq<ValidateInput>,
    message: Option<string>)

  /** `CommonResultDto<T>`: the error part, the typed payload and an untyped additional value. */
  datatype ResultDto<T, O> = ResultDto(err: ErrorPart<O>, data: Option<T>, returnValueAdditional: Option<O>)

  /** A fresh `CommonResultErrorDto`: not successful, no detail or notification, an empty error list. */
  function DefaultErrorPart<O>(): (e: ErrorPart<O>)
    ensures !e.isSuccessful && e.errors == []
    ensures e.errorDetail.None? && e.notification.None? && e.message.None?
  {
    ErrorPart(false, None, None, [], None)
  }

  /** A fresh `CommonResultDto<T>`: the default error part and no payload. */
  function DefaultResult<T, O>(): (r: ResultDto<T, O>)
    ensures r.err == DefaultErrorPart() && r.data.None? && r.returnValueAdditional.None?
  {
    ResultDto(DefaultErrorPart(), None, None)
  }

  /** `CloneError<TClone>`: an envelope of another payload type carrying the same success flag, error
      detail, notification and error list; the message and the payloads are not copied. */
  function CloneError<TClone, O>(input: ErrorPart<O>): (r: ResultDto<TClone, O>)
    ensures r.err == input.(message := None)
    ensures r.data.None? && r.returnValueAdditional.None?
  {
    DefaultResult().(err := DefaultErrorPart().(
      isSuccessful := input.isSuccessful,
      errorDetail := input.errorDetail,
      notification := input.notification,
      errors := input.errors))
  }

  /** `Failed(errorMessage, notificationData, errorCode, paramMessage)`: a failure whose detail holds
      the message, the code and the parameters, and whose notification holds the message, the
      notification payload and the parameters. */
  function Failed<T, O>(errorMessage: string, notificationData: Option<O>, errorCode: string, paramMessage: seq<string>)
    : (r: ResultDto<T, O>)
    ensures !r.err.isSuccessful && r.err.errors == [] && r.data.None?
    ensures r.err.errorDetail == Some(Extend(Some(errorCode), Some(errorMessage), Some(paramMessage), None))
    ensures r.err.notification == Some(Extend(None, Some(errorMessage), Some(paramMessage), notificationData))
  {
    DefaultResult().(err := DefaultErrorPart().(
      isSuccessful := false,
      errorDetail := Some(Extend(None, Some(errorMessage), None, None).(code := Some(errorCode), paramMessage := Some(paramMessage))),
      notification := Some(Extend(None, Some(errorMessage), Some(paramMessage), notificationData))))
  }

  /** The code given to every failure built from an exception. */
  const ExceptionCode: string := "ThrowEx_500"

  /** `Failed(Exception ex)`: a failure whose detail holds the exception's message and `ThrowEx_500`,
      with no parameters and no notification. */
  function FailedFromException<T, O>(exceptionMessage: string): (r: ResultDto<T, O>)
    ensures !r.err.isSuccessful && r.err.errors == [] && r.data.None?
    ensures r.err.errorDetail == Some(Extend(Some(ExceptionCode), Some(exceptionMessage), None, None))
    ensures r.err.notification.None?
  {
    DefaultResult().(err := DefaultErrorPart().(
      isSuccessful := false,
      errorDetail := Some(Extend(None, Some(exceptionMessage), None, None).(code := Some(ExceptionCode)))))
  }

  /** `Failed(Exception ex, params paramMessage)`: as above, with the parameters in the detail. */
  function FailedFromExceptionWith<T, O>(exceptionMessage: string, paramMessage: seq<string>): (r: ResultDto<T, O>)
    ensures !r.err.isSuccessful && r.err.errors == [] && r.data.None?
    ensures r.err.errorDetail == Some(Extend(Some(ExceptionCode), Some(exceptionMessage), Some(paramMessage), None))
    ensures r.err.notification.None?
  {
    DefaultResult().(err := DefaultErrorPart().(
      isSuccessful := false,
      errorDetail := Some(Extend(None, Some(exceptionMessage), None, None).(code := Some(ExceptionCode),
                                                                          paramMessage := Some(paramMessage)))))
  }

  /** `Failed(List<ValidateInputDto> errorValid)`: a failure carrying the validation errors only. */
  function FailedValidation<T, O>(errorValid: seq<ValidateInput>): (r: ResultDto<T, O>)
    ensures !r.err.isSuccessful && r.err.errors == errorValid && r.data.None?
    ensures r.err.errorDetail.None? && r.err.notification.None?
  {
    DefaultResult().(err := DefaultErrorPart().(isSuccessful := false, errors := errorValid))
  }

  /** `Ok(dataSuccess, notificationMessage, notificationData, returnValueAdditional, paramMessage)`:
      a success with the payload; a notification only when the message is not empty, whose payload is
      `notificationData` if given and otherwise the result's own payload (`box` is the conversion of
      a `T` to `object`). */
  function Ok<T, O>(dataSuccess: T, notificationMessage: string, notificationData: Option<O>,
                    returnValueAdditional: Option<O>, paramMessage: seq<string>, box: T -> O): (r: ResultDto<T, O>)
    ensures r.err.isSuccessful && r.data == Some(dataSuccess) && r.returnValueAdditional == returnValueAdditional
    ensures r.err.errorDetail.None? && r.err.errors == []
    ensures r.err.notification.None? <==> notificationMessage == ""
    ensures r.err.notification.Some? ==>
      r.err.notification.value == Extend(None, Some(notificationMessage), Some(paramMessage),
                                         Some(if notificationData.Some? then notificationData.value else box(dataSuccess)))
  {
    var ret := DefaultResult().(err := DefaultErrorPart().(isSuccessful := true),
                                data := Some(dataSuccess), returnValueAdditional := returnValueAdditional);
    if notificationMessage != "" then
      var payload := if notificationData == None then box(dataSuccess) else notificationData.value;
      ret.(err := ret.err.(notification := Some(Extend(None, Some(notificationMessage), Some(paramMessage), Some(payload)))))
    else ret
  }

  /** An envelope built by one of the factories: its message is never set. */
  predicate FromFactory<T, O>(r: ResultDto<T, O>) {
    r.err.message.None?
  }

  /** The factories leave the message unset, so cloning their error part into another payload type
      loses nothing but the payloads; a failure stays a failure and a success a success. */
  lemma CloneErrorPreservesFactoryResults<T, TClone, O>(r: ResultDto<T, O>)
    requires FromFactory(r)
    ensures CloneError<TClone, O>(r.err).err == r.err
    ensures CloneError<TClone, O>(r.err).err.isSuccessful <==> r.err.isSuccessful
  {
  }

  /** Every factory but `Ok` builds a failure, and `Ok` builds a success; none of them sets the message. */
  lemma FactoriesDecideSuccess<T, O>(message: string, data: T, notificationData: Option<O>, code: string,
                                     params: seq<string>, errors: seq<ValidateInput>, box: T -> O)
    ensures var failures: seq<ResultDto<T, O>> := [
              Failed(message, notificationData, code, params),
              FailedFromException(message),
              FailedFromExceptionWith(message, params),
              FailedValidation(errors)];
            forall i :: 0 <= i < |failures| ==> !failures[i].err.isSuccessful && FromFactory(failures[i])
    ensures Ok(data, message, notificationData, None, params, box).err.isSuccessful
    ensures FromFactory(Ok(data, message, notificationData, None, params, box))
  {
  }

  /** Cloning is idempotent: cloning a clone's error part gives the clone again. */
  lemma CloneErrorIdempotent<T, O>(input: ErrorPart<O>)
    ensures CloneError<T, O>(CloneError<T, O>(input).err) == CloneError<T, O>(input)
  {
  }
}
