/** Optional values, results and byte texts, shared by every part, and Go's unit of time. */
module Basics {

  datatype Option<+T> = None | Some(value: T)

  datatype Result<+T, +E> = Success(value: T) | Failure(error: E)

  /** Times and durations are in nanoseconds, as in Go. */
  const SECOND: int := 1_000_000_000
  const MINUTE: int := 60 * SECOND
  const HOUR: int := 60 * MINUTE

  /** Texts of the answer streams, which need not be valid UTF-8. */
  type Byte = b: int | 0 <= b < 256
  type Bytes = seq<Byte>

  function Concat(parts: seq<Bytes>): Bytes {
    if parts == [] then [] else Concat(parts[..|parts| - 1]) + parts[|parts| - 1]
  }

  /** A text without NUL can be read back from in front of one. */
  lemma NulSplits(a: string, x: string, b: string, y: string)
    requires '\0' !in a && '\0' !in b && a + ['\0'] + x == b + ['\0'] + y
    ensures a == b && x == y
  {
    var k := a + ['\0'] + x;
    assert k[|a|] == '\0' && k[|b|] == '\0';
    assert forall i :: 0 <= i < |a| ==> k[i] == a[i];
    assert forall i :: 0 <= i < |b| ==> k[i] == b[i];
    assert |a| == |b|;
    assert a == k[..|a|] == b;
    assert x == k[|a| + 1..] == y;
  }
}
