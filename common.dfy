/** Shared vocabulary of the moderation bot model: optional values, identities,
    time units and the two configuration constants the tracking commands use. */
module Common {

  datatype Option<+T> = None | Some(value: T)

  /** A Discord snowflake (member, user or message id). */
  type Id = nat

  /** Points in time are integer microseconds since the epoch, the resolution of
      Python's datetime; a difference of two of them is a timedelta. */
  type Time = int

  const SECOND: int := 1000000
  const MINUTE: int := 60 * SECOND
  const HOUR: int := 60 * MINUTE
  const DAY: int := 86400 * SECOND

  /** config.py's OPERATION_KEYWORD and TOTAL_OPERATIONS. */
  const OPERATION_KEYWORD: string := "has attended an operation"
  const TOTAL_OPERATIONS: int := 3

  function Min(a: int, b: int): (r: int)
    ensures r <= a && r <= b && (r == a || r == b)
  {
    if a <= b then a else b
  }

  /** Two facts about `+` on sequences, kept in lemmas of their own so that
      proofs about longer sequences need not rediscover them. */
  lemma AppendAssoc<T>(a: seq<T>, b: seq<T>, c: seq<T>)
    ensures (a + b) + c == a + (b + c)
  {
  }

  lemma ConsAppend<T>(a: seq<T>, b: seq<T>)
    requires a != []
    ensures a + b == [a[0]] + (a[1..] + b)
  {
    assert a == [a[0]] + a[1..];
  }
}
