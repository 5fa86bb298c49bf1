/** Failure-carrying values shared by every module: the model's stand-in for the
    exceptions the filter calculator raises. */
module Errors {

  datatype Option<+T> = None | Some(value: T)

  /** Why an operation failed. The first group mirrors the ValueError messages of the
      library, the second the run-time errors Python raises on its own, the third the
      input checks of the command-line scripts. */
  datatype Error =
    | NonPositiveValue        // "Value must be positive"
    | UnknownSeries           // "Unknown series: ..."
    | NonPositiveCutoff       // "Cutoff frequency must be positive"
    | OrderTooSmall           // "Order must be at least 1"
    | OrderOutOfRange         // "Order must be between 2 and 9"
    | NonPositiveRipple       // "Ripple must be positive"
    | UnknownFilterType       // "Unknown filter type: ..."
    | TooFewPoints            // "Need at least 2 points"
    | NotANumber              // float() rejected the text
    | ZeroDivision            // ZeroDivisionError
    | MathDomain              // math.log of a non-positive number
    | IndexOutOfRange         // IndexError
    | FrequencyNotPositive    // "Error: Frequency must be positive"
    | ImpedanceNotPositive    // "Error: Impedance must be positive"
    | ComponentCountOutOfRange // "Error: Number of components must be between 2 and 9"
    | MissingFrequency        // "the following arguments are required: -f/--frequency"

  datatype Result<+T> = Ok(value: T) | Err(error: Error)
}
