/**
  Small shared vocabulary: an optional value, used wherever the assistant
  works with Python's `None` (an absent transcription, an unbound city,
  a missing API key, a router result of `None`).
 */
module Common {

  datatype Option<+T> = None | Some(value: T)
}
