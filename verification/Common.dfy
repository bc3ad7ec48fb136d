/** Types every module uses. */
module Common {
  type Byte = b: nat | b < 256

  /** `u32`. */
  type Word = w: nat | w < 0x1_0000_0000

  datatype Option<+T> = None | Some(value: T)

  /** Sequences laid end to end. */
  function Flat<T>(parts: seq<seq<T>>): seq<T> {
    if parts == [] then [] else parts[0] + Flat(parts[1..])
  }

  lemma {:induction false} FlatSnoc<T>(parts: seq<seq<T>>, last: seq<T>)
    ensures Flat(parts + [last]) == Flat(parts) + last
    decreases |parts|
  {
    if parts == [] {
      assert parts + [last] == [last] && [last][1..] == [];
    } else {
      assert (parts + [last])[1..] == parts[1..] + [last];
      FlatSnoc(parts[1..], last);
    }
  }

  lemma LastApart<T>(s: seq<T>)
    requires s != []
    ensures s == s[..|s| - 1] + [s[|s| - 1]]
  {
  }

  lemma TakeMore<T>(a: seq<T>, s: seq<T>, i: nat)
    requires i < |s|
    ensures a + s[..i] + [s[i]] == a + s[..i + 1]
  {
  }

  lemma DropTwice<T>(s: seq<T>, c: nat, k: nat)
    requires c + k <= |s|
    ensures s[c..][k..] == s[c + k..]
  {
  }

  lemma DropFront<T>(a: seq<T>, b: seq<T>, k: nat)
    requires k <= |a|
    ensures (a + b)[k..] == a[k..] + b
  {
  }

  lemma DropMore<T>(s: seq<T>, c: nat, more: seq<T>, k: nat)
    requires c + k <= |s|
    ensures (s[c..] + more)[k..] == s[c + k..] + more
  {
  }

  lemma Associative<T>(a: seq<T>, b: seq<T>, c: seq<T>)
    ensures a + (b + c) == a + b + c
  {
  }
}
