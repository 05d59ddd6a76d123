/** Small vocabulary shared by every module. */
module Base {
  datatype Option<+T> = None | Some(value: T)

  /** The machine constants of the 64-bit integers the servers exchange. */
  const P48: int := 0x1_0000_0000_0000
  const P63: int := 0x8000_0000_0000_0000
  const P64: int := 0x1_0000_0000_0000_0000

  function Max(a: int, b: int): int { if a < b then b else a }

  function Min(a: int, b: int): int { if a < b then a else b }

  lemma NoMembers<T>(s: set<T>)
    requires forall x :: x !in s
    ensures s == {}
  {
  }

  /** A member of a non-empty set. */
  lemma Pick<T>(s: set<T>) returns (w: T)
    requires s != {}
    ensures w in s
  {
    if forall x :: x !in s { NoMembers(s); }
    w :| w in s;
  }

  /** Every non-empty set of integers has a least element: where the iterator of an ordered map stands first. */
  lemma {:induction false} LeastExists(s: set<int>) returns (m: int)
    requires s != {}
    ensures m in s && forall x :: x in s ==> m <= x
    decreases |s|
  {
    m := Pick(s);
    var rest := s - {m};
    assert forall x :: x in s ==> x == m || x in rest;
    if rest != {} {
      var r := LeastExists(rest);
      m := if r < m then r else m;
    }
  }
}
