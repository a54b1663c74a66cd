/** The record shared by the integration-test scripts
    (IntegrationTests/juvo_test_utils.py): an action observed in, or expected
    of, a recorded playback, and the Python exceptions the scripts raise. */
module TestUtils {
  import opened Common

  /** `Action(name, time, seek_destination=None, new_resolution=None)`;
      times are whole seconds. */
  datatype Action = Action(name: string, time: int, seekDestination: Option<real>, newResolution: Option<string>)

  /** An action that carries neither a seek destination nor a resolution. */
  function Simple(name: string, time: int): (a: Action)
    ensures a.name == name && a.time == time
    ensures a.seekDestination.None? && a.newResolution.None?
  {
    Action(name, time, None, None)
  }

  /** Why a comparison of actions raised ValueError. */
  datatype Mismatch =
    | LengthMismatch(actualCount: nat, expectedCount: nat)
    | NameMismatch(actual: Action, expected: Action)
    | TimeMismatch(actual: Action, expected: Action, tolerance: int, mismatch: int)
    | SeekMismatch(actualDestination: real, expectedDestination: real)
    | ResolutionMismatch(actualResolution: Option<string>, expectedResolution: Option<string>)

  /** The exceptions the scripts let escape. */
  datatype PyError =
    | IndexError
    | KeyError(key: string)
    | TypeError
    | ValueError(mismatch: Mismatch)
}
