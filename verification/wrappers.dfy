/** An optional value: a JSON field or parsed-XML child that may be absent. */
module Wrappers {

  datatype Option<+T> = None | Some(value: T)

  /** JavaScript truthiness of an optional string: present and not empty; no trimming. */
  function Truthy(o: Option<string>): (b: bool)
    ensures b <==> o != None && o != Some([])
  {
    o.Some? && |o.value| > 0
  }
}
