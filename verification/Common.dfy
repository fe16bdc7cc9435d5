/** What the protocol models share. */
module Common {
  datatype Option<T> = None | Some(value: T)

  /** How a future completes: a value or a stored exception. */
  datatype Outcome<T> = Value(value: T) | Exception(error: nat)

  /** The branches of a `join` or `select`: what each has stored so far. */
  type Results<T> = seq<Option<Outcome<T>>>

  /** What they put into the run queue: a branch, or the joining future itself. */
  datatype Entry = Branch(index: nat) | Self

  function Branches(n: nat): seq<Entry> {
    if n == 0 then [] else Branches(n - 1) + [Branch(n - 1)]
  }

  /** Every branch once, in order. */
  lemma {:induction false} BranchesInOrder(n: nat, i: nat)
    requires i < n
    ensures |Branches(n)| == n && Branches(n)[i] == Branch(i)
  {
    if n > 1 {
      BranchesInOrder(n - 1, if i < n - 1 then i else 0);
    }
  }

  lemma CountAppend<T>(s: seq<T>, x: T, e: T)
    ensures multiset(s + [x])[e] == multiset(s)[e] + if x == e then 1 else 0
  {
  }
}
