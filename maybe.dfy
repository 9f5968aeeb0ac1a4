/** The optional value used for nullable columns and absent request fields. */
module Maybe {

  datatype Option<+T> = None | Some(value: T)
}
