/** Small shared vocabulary: an optional value. */
module Common {

  datatype Option<+T> = None | Some(value: T)
}
