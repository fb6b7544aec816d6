/** Error values for the failure paths of the water-mask pipeline.
    Each Python exception the modelled code raises becomes one constructor,
    and each operation that can raise returns a `Result`. */
module Errors {

  /** Why a RuntimeError or ValueError was raised. */
  datatype Failure =
    | BaseDirMissing(dir: string)
    | EmptyBandDict
    | MissingBands(missing: set<string>)
    | InvalidSensors(invalid: set<string>)
    | InvalidSensor(sensor: string)
    | BadTileName(tile: string)
    | InvalidYear(year: int)
    | StartDayAfterEndDay
    | TooFewSevenClassProducts(count: nat)
    | OutputDirMissing
    | OutputDirNotADirectory
    | NoBurnScarDirs(path: string)
    | NoBurnScarFiles

  datatype Error =
    | FileNotFound(path: string)
    | RuntimeError(why: Failure)
    | ValueError(why: Failure)
    | ZeroDivision
    | TypeError
    | IndexError

  datatype Result<+T> = Ok(value: T) | Err(error: Error) {
    predicate IsFailure() { Err? }

    function PropagateFailure<U>(): Result<U>
      requires Err?
    {
      Err(error)
    }

    function Extract(): T
      requires Ok?
    {
      value
    }
  }

  datatype Option<+T> = None | Some(value: T)
}
