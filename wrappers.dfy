/** The optional value used for Odoo fields that may hold False and for
    operations that may fail without saying why. */
module Wrappers {

  datatype Option<+T> = None | Some(value: T)
}
