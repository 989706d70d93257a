/** The optional value used wherever the source may produce "nothing":
    a failed JSON parse, a text that is not a time reading. */
module Options {

  datatype Option<+T> = None | Some(value: T)
}
