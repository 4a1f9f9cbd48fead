/** Values shared by the upload authorizer, the profile form and the profile API route. */
module Common {

  /** A value that may be absent (JavaScript's `null` / `undefined`). */
  datatype Option<+T> = None | Some(value: T)

  /** How a step that may throw completed: normally with a value, or by throwing.
      Every awaited call the model cannot see (hashing, signing, fetch, the
      database) is given to the model as a `Completion`. */
  datatype Completion<+T> = Normal(value: T) | Thrown

  /** The five profile fields the form edits and the API stores. */
  datatype ProfileData = ProfileData(
    firstName: string,
    lastName: string,
    email: string,
    address: string,
    profilePhoto: string)
}
