/** Optional values, used where the widget may or may not have something:
    a fetched snapshot, a rendered tally. */
module Wrappers {

  datatype Option<+T> = None | Some(value: T)
}
