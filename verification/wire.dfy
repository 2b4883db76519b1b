/**
 Shapes shared by every exchange a node has with a remote peer: an optional
 value, the ways one HTTP request can go wrong, and the reply to a request.
 */
module Wire {

  datatype Option<+T> = None | Some(value: T)

  /** Where a request to a peer failed, in the order the node checks:
      sending it, the status code, reading the body, decoding the JSON. */
  datatype Fault = Transport | Status | Body | Json

  /** The outcome of one request whose decoded body is a `T`. */
  datatype Reply<+T> = Failed(fault: Fault) | Ok(value: T)

  /** Being a prefix is transitive. */
  lemma PrefixTrans<E>(a: seq<E>, b: seq<E>, c: seq<E>)
    requires a <= b && b <= c
    ensures a <= c
  {
    assert c[..|a|] == b[..|a|];
  }
}
