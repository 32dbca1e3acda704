/** The shared value types: the browser's `File` and the application's `LoadingState`. */
module Types {
  import opened Wrappers

  /**
   * A browser `File` as far as the application looks at it: its name, its
   * declared media type (`file.type`, possibly empty) and its size in bytes.
   * The bytes themselves are only ever read through a `FileReader`, whose
   * outcome the model receives as an event.
   */
  datatype File = File(name: string, mimeType: string, size: nat)

  /** The `status` field of `LoadingState`. */
  datatype Status = Idle | Uploading | Processing | Success | Error

  /** `LoadingState`: a status and an optional human-readable message. */
  datatype LoadingState = LoadingState(status: Status, message: Option<string>)
}
