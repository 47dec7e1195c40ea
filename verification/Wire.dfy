/** Bytes on the wire, optional values and small sequence tools shared by the other modules. */
module Wire {
  type byte = bv8

  datatype Option<+T> = None | Some(value: T)

  function Concat<T>(parts: seq<seq<T>>): seq<T> {
    if parts == [] then [] else parts[0] + Concat(parts[1..])
  }

  lemma {:induction false} ConcatAppend<T>(front: seq<seq<T>>, back: seq<seq<T>>)
    ensures Concat(front + back) == Concat(front) + Concat(back)
  {
    if front == [] {
      assert front + back == back;
    } else {
      ConcatAppend(front[1..], back);
      assert (front + back)[1..] == front[1..] + back;
      assert front[0] + (Concat(front[1..]) + Concat(back)) == Concat(front) + Concat(back);
    }
  }

  lemma ConcatSnoc<T>(front: seq<seq<T>>, last: seq<T>)
    ensures Concat(front + [last]) == Concat(front) + last
  {
    ConcatAppend(front, [last]);
    assert [last][1..] == [];
  }

  lemma SliceParts<T>(s: seq<T>, at: nat, a: seq<T>, b: seq<T>)
    requires at + |a| + |b| <= |s| && s[at..at + |a| + |b|] == a + b
    ensures s[at..at + |a|] == a && s[at + |a|..at + |a| + |b|] == b
  {
    var both := s[at..at + |a| + |b|];
    assert both[..|a|] == a && both[|a|..] == b;
  }
}
