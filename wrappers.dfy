/** Optional values: the model's rendering of C#'s nullable `bool?` and of lookups that may miss. */
module Wrappers {

  datatype Option<+T> = None | Some(value: T)
}
