/**
  Status codes and optional values shared by all components.
 */
module Types {

  datatype Option<+T> = None | Some(value: T)

  datatype Status = Ok | ErrNoMem | ErrInval | ErrNotFound | ErrTimeout | ErrAgain | ErrNoSys
                  | ErrOverflow | ErrUnderflow | ErrState
}
