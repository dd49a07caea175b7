/** The optional value the shell's C code writes as a pointer that may be
    NULL: a found job slot, or the position `strchr` returns. */
module Wrappers {

  datatype Option<T> = None | Some(value: T)
}
