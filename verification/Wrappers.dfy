/** The failure types shared by the other modules. */
module Wrappers {

  datatype Option<+T> = None | Some(value: T)

  /** A value, or the exception that a JavaScript `throw` would raise. */
  datatype Outcome<+T> = Returns(value: T) | Fails

  /** The values, if no outcome is an exception. */
  function All<T>(outcomes: seq<Outcome<T>>): (r: Outcome<seq<T>>)
    ensures r.Fails? <==> exists i :: 0 <= i < |outcomes| && outcomes[i].Fails?
    ensures r.Returns? ==>
      |r.value| == |outcomes| && forall i :: 0 <= i < |outcomes| ==> outcomes[i] == Returns(r.value[i])
  {
    if exists i :: 0 <= i < |outcomes| && outcomes[i].Fails? then Fails
    else Returns(seq(|outcomes|, i requires 0 <= i < |outcomes| && outcomes[i].Returns? => outcomes[i].value))
  }
}
