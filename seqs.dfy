/** Facts about sequences the other modules use, stated once over any
    element type. */
module Seqs {

  lemma ConsTail<T>(s: seq<T>)
    requires s != []
    ensures [s[0]] + s[1..] == s
  {
  }

  lemma TakeDrop<T>(s: seq<T>, k: nat)
    requires k <= |s|
    ensures s[..k] + s[k..] == s
  {
  }

  lemma TakeAll<T>(s: seq<T>)
    ensures s[..|s| - 0] == s
  {
  }

  /** Moving the first item of `b` to the end of `a` keeps `a + b`. */
  lemma ShiftFront<T>(a: seq<T>, b: seq<T>)
    requires b != []
    ensures (a + [b[0]]) + b[1..] == a + b
  {
    assert b == [b[0]] + b[1..];
  }

  lemma TailAppend<T>(a: seq<T>, b: seq<T>)
    requires a != []
    ensures a + b != [] && (a + b)[0] == a[0] && (a + b)[1..] == a[1..] + b
  {
  }

  lemma AppendAssoc<T>(a: seq<T>, b: seq<T>, c: seq<T>)
    ensures a + (b + c) == (a + b) + c
  {
  }

  /** The last `|s| - k` items of `s`, index by index. */
  lemma DropIndex<T>(s: seq<T>, k: nat)
    requires k <= |s|
    ensures forall i :: 0 <= i < |s| - k ==> s[k..][i] == s[k + i]
  {
  }

  /** The first `k` items of `s`, index by index. */
  lemma TakeIndex<T>(s: seq<T>, k: nat)
    requires k <= |s|
    ensures forall i :: 0 <= i < k ==> s[..k][i] == s[i]
  {
  }

  lemma Triple<T>(a: T, b: T, c: T)
    ensures [a] + ([b] + [c]) == [a, b, c]
  {
  }
}
