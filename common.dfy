/** Values shared by every layer: optional values, results, the error
    strings the Go code returns, and the first-match scan that every
    repository and the seat lookup perform. */
module Common {

  datatype Option<T> = None | Some(value: T)

  /** A Go `(value, error)` pair where exactly one half is meaningful. */
  datatype Result<T> = Success(value: T) | Failure(error: Error)

  /** The error strings of the source, one constructor per distinct text. */
  datatype Error =
    | EmptyData          // "EMPTY_DATA": movie or user lookup missed
    | NotFound           // "NOT_FOUND": ticket lookup, update or delete missed
    | DuplicateTicket    // "ticket with the same ID already exists"
    | DuplicateUsername  // "user with the same Username already exists"
    | UserNotFound       // "user not found": user update missed
    | BalanceInsufficient
    | MaxTicketReach
    | Panic              // a requested seat is absent or already booked
    | TicketUnavailable
    | NegativeValue

  /** Index of the first element of `s` whose key is `k`, the result of the
      `for ... range` scans with an early return used throughout the source. */
  function FirstIndex<T, K(==)>(s: seq<T>, key: T -> K, k: K): (r: Option<nat>)
    ensures r.Some? ==> r.value < |s| && key(s[r.value]) == k
    ensures r.Some? ==> forall j :: 0 <= j < r.value ==> key(s[j]) != k
    ensures r.None? <==> forall j :: 0 <= j < |s| ==> key(s[j]) != k
  {
    if |s| == 0 then None
    else if key(s[0]) == k then Some(0)
    else match FirstIndex(s[1..], key, k)
      case None => None
      case Some(i) => Some(i + 1)
  }

  /** A match at `i` with none before it is the first match. */
  lemma FirstIndexAt<T, K>(s: seq<T>, key: T -> K, k: K, i: nat)
    requires i < |s| && key(s[i]) == k
    requires forall j :: 0 <= j < i ==> key(s[j]) != k
    ensures FirstIndex(s, key, k) == Some(i)
  {
  }

  /** Appending an element never moves an existing first match, and an
      appended element is found when nothing before it matches. */
  lemma {:induction false} FirstIndexAppend<T, K>(s: seq<T>, x: T, key: T -> K, k: K)
    ensures FirstIndex(s + [x], key, k) ==
      match FirstIndex(s, key, k)
      case Some(i) => Some(i)
      case None => if key(x) == k then Some(|s|) else None
  {
    var s' := s + [x];
    assert forall j :: 0 <= j < |s| ==> s'[j] == s[j];
    match FirstIndex(s, key, k)
    case Some(i) => FirstIndexAt(s', key, k, i);
    case None =>
      if key(x) == k { FirstIndexAt(s', key, k, |s|); }
  }

  /** Bounds of Go's `int` on the 64-bit platforms the server targets. */
  const Int64Min: int := -0x8000_0000_0000_0000
  const Int64Max: int := 0x7FFF_FFFF_FFFF_FFFF

  predicate InInt64(x: int) {
    Int64Min <= x <= Int64Max
  }

  /** The value Go's two's-complement `int` arithmetic yields where the
      mathematical result is `x`: `x` reduced modulo 2^64 into the int range. */
  function Wrap64(x: int): (r: int)
    ensures InInt64(r)
    ensures InInt64(x) ==> r == x
  {
    (x - Int64Min) % 0x1_0000_0000_0000_0000 + Int64Min
  }
}
