/** Optional values: JavaScript's `null`/`undefined` versus a present value. */
module Wrappers {

  datatype Option<+T> = None | Some(value: T)

  /** JavaScript truthiness of an optional string: absent and empty are both falsy. */
  predicate Truthy(o: Option<string>)
  {
    o.Some? && o.value != ""
  }
}
