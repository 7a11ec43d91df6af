/** The nullable results of the model: a found node, an absent key, an id or nothing. */
module Wrappers {

  datatype Option<+T> = None | Some(value: T)

}
