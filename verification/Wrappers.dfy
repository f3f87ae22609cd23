// The usual option type and a bounded prefix, shared by the modules of this project.
module Wrappers {
  datatype Option<+T> = None | Some(value: T)

  function Take<T>(s: seq<T>, n: nat): seq<T> {
    if n <= |s| then s[..n] else s
  }

  // Regroups a concatenation.
  lemma Assoc<T>(a: seq<T>, b: seq<T>, c: seq<T>)
    ensures a + (b + c) == a + b + c
  {}
}
