/**
 * The field check the observation serializer runs on `temperature`: values
 * from -100 to 100 degrees, bounds included, pass through unchanged; any
 * other value is refused with a validation message.
 */
module Serializers {
  import opened Wrappers

  const MinTemperature: real := -100.0
  const MaxTemperature: real := 100.0
  const OutOfRangeMessage := "Temperatura fuera de rango válido"

  /** `validate_temperature`: a `Failure` stands for the `ValidationError` it raises. */
  function ValidateTemperature(value: real): (r: Result<real, string>)
    ensures r.Success? <==> MinTemperature <= value <= MaxTemperature
    ensures r.Success? ==> r.value == value
    ensures r.Failure? ==> r.error == OutOfRangeMessage
  {
    if value < MinTemperature || value > MaxTemperature then Failure(OutOfRangeMessage)
    else Success(value)
  }

  /** The range is closed: both bounds are accepted, and anything beyond either is refused. */
  lemma ClosedRange(eps: real)
    requires eps > 0.0
    ensures ValidateTemperature(MinTemperature).Success? && ValidateTemperature(MaxTemperature).Success?
    ensures ValidateTemperature(MinTemperature - eps).Failure? && ValidateTemperature(MaxTemperature + eps).Failure?
  {
  }

  /** Validating an accepted value again accepts it again, unchanged. */
  lemma ValidationIdempotent(value: real)
    requires ValidateTemperature(value).Success?
    ensures ValidateTemperature(ValidateTemperature(value).value) == ValidateTemperature(value)
  {
  }
}
