/** Small vocabulary shared by the stores. Identifiers are naturals: the source compares
    them for equality and by collation order only, and bounded-length identifiers are finitely
    many, so a natural stands for an identifier's rank in that order. */
module Collections {

  datatype Option<+T> = None | Some(value: T)

  datatype Result<+T, +E> = Ok(value: T) | Err(error: E)

  type Byte = b: nat | b < 0x100

  /** A UTF-16 code unit. */
  type Unit = u: nat | u < 0x1_0000

  /** `earlierAlarm`. */
  function EarlierAlarm(current: Option<nat>, candidate: nat): Option<nat> {
    if current.None? || candidate < current.value then Some(candidate) else current
  }

  type Id = nat

  ghost predicate Distinct(s: seq<Id>) {
    forall i, j :: 0 <= i < j < |s| ==> s[i] != s[j]
  }

  /** `[...new Set(s)]`: first occurrences, in order. */
  function Dedup(s: seq<Id>): (r: seq<Id>)
    ensures Distinct(r)
    ensures forall x :: x in r <==> x in s
  {
    if s == [] then []
    else
      var rest := Dedup(s[..|s| - 1]);
      if s[|s| - 1] in rest then rest else rest + [s[|s| - 1]]
  }

  lemma {:induction false} DedupOfDistinct(s: seq<Id>)
    requires Distinct(s)
    ensures Dedup(s) == s
  {
    if s != [] {
      DedupOfDistinct(s[..|s| - 1]);
      assert s[|s| - 1] !in s[..|s| - 1];
      assert s == s[..|s| - 1] + [s[|s| - 1]];
    }
  }

  /** `s.filter(y => y !== x)`. */
  function Without(s: seq<Id>, x: Id): (r: seq<Id>)
    ensures forall y :: y in r <==> y in s && y != x
  {
    if s == [] then []
    else
      var rest := Without(s[..|s| - 1], x);
      if s[|s| - 1] == x then rest else rest + [s[|s| - 1]]
  }

  lemma {:induction false} WithoutDistinct(s: seq<Id>, x: Id)
    requires Distinct(s)
    ensures Distinct(Without(s, x))
    ensures |Without(s, x)| == if x in s then |s| - 1 else |s|
  {
    if s != [] {
      var front, last := s[..|s| - 1], s[|s| - 1];
      assert s == front + [last];
      assert last !in front;
      WithoutDistinct(front, x);
      assert last !in Without(front, x);
    }
  }

  lemma DistinctSnoc(s: seq<Id>, x: Id)
    requires Distinct(s) && x !in s
    ensures Distinct(s + [x])
  {
  }
}
