/** Bytes, options and sequences of sequences: the vocabulary shared by every component. */
module Bytes {

  newtype Byte = x: int | 0 <= x < 256

  datatype Option<+T> = None | Some(value: T)

  function Min(a: int, b: int): int {
    if a < b then a else b
  }

  function Flatten<T>(parts: seq<seq<T>>): seq<T> {
    if parts == [] then [] else parts[0] + Flatten(parts[1..])
  }

  lemma {:induction false} FlattenConcat<T>(a: seq<seq<T>>, b: seq<seq<T>>)
    ensures Flatten(a + b) == Flatten(a) + Flatten(b)
  {
    if a == [] {
      assert a + b == b;
    } else {
      assert (a + b)[1..] == a[1..] + b;
      FlattenConcat(a[1..], b);
    }
  }

  lemma FlattenSingle<T>(part: seq<T>)
    ensures Flatten([part]) == part
  {
    assert [part][1..] == [];
    assert Flatten([part]) == part + Flatten<T>([]);
  }

  // Taking a little more of a sequence.
  lemma TakeMore<T>(all: seq<T>, at: nat, more: nat)
    requires at + more <= |all|
    ensures more <= |all[at..]|
    ensures all[..at] + all[at..][..more] == all[..at + more]
    ensures all[at..][more..] == all[at + more..]
  {
  }
}
