/** A value that may be absent: the `null` initial value of the component's
    `error`, `outbound` and `response` state. */
module Optional {
  datatype Option<+T> = None | Some(value: T)
}
