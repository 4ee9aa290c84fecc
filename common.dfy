/** Values shared by every part of the router: optional values and the
    parameter mapping handed to handlers. */
module Common {

  datatype Option<+T> = None | Some(value: T) {
    /** The wrapped value, or `default` when there is none (Swift's `??`). */
    function GetOr(default: T): T {
      match this
      case Some(v) => v
      case None => default
    }
  }

  /** A parameter value. The source stores `Any`; the router itself only ever
      stores strings and arrays, and callers may pass anything else, which is
      `Other` here (the token only tells such values apart). */
  datatype Value = Str(s: string) | List(items: seq<Value>) | Other(token: int)

  /** The `[String: Any]` mapping passed to handlers. */
  type Params = map<string, Value>

  /** Each string as a parameter value, in order. */
  function StrValues(ss: seq<string>): (r: seq<Value>)
    ensures |r| == |ss|
    ensures forall i :: 0 <= i < |ss| ==> r[i] == Str(ss[i])
  {
    seq(|ss|, i requires 0 <= i < |ss| => Str(ss[i]))
  }
}
