/** An optional value: `None` stands for a Go `nil`, for the sentinel that
    ends a hyperparameter range, and for a computation that panics. */
module Optional {

  datatype Option<+T> = None | Some(value: T)

}
