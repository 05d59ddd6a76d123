/**
 * Object ids: the top 16 bits of the path hash and the low 48 bits of a counter, put together
 * with bit masks, and the ring lookup that has to send an id where the path was sent.
 */
module ObjectIds {
  import opened Base

  /** The id space falls into blocks of 2^48: the number of a block, and the position in it. */
  function Block(x: int): int { x / 0x1_0000_0000_0000 }

  function InBlock(x: int): int { x % 0x1_0000_0000_0000 }

  // ---------------------------------------------------------------- bit masks as arithmetic

  /** Bitwise and, or of the lowest `w` bits. */
  function And(x: nat, y: nat, w: nat): nat
    decreases w, x
  {
    if w == 0 then 0 else (if x % 2 == 1 && y % 2 == 1 then 1 else 0) + 2 * And(x / 2, y / 2, w - 1)
  }

  function Or(x: nat, y: nat, w: nat): nat
    decreases w, x
  {
    if w == 0 then 0 else (if x % 2 == 1 || y % 2 == 1 then 1 else 0) + 2 * Or(x / 2, y / 2, w - 1)
  }

  /** Shifts by `k`, the lowest `k` bits, and `k` ones. */
  function Shl(x: nat, k: nat): nat
    decreases k, x
  {
    if k == 0 then x else 2 * Shl(x, k - 1)
  }

  function Shr(x: nat, k: nat): nat
    decreases k, x
  {
    if k == 0 then x else Shr(x / 2, k - 1)
  }

  function Low(x: nat, k: nat): nat
    decreases k, x
  {
    if k == 0 then 0 else x % 2 + 2 * Low(x / 2, k - 1)
  }

  function Ones(k: nat): nat { if k == 0 then 0 else 1 + 2 * Ones(k - 1) }

  lemma {:induction false} ShlAdd(x: nat, a: nat, b: nat)
    ensures Shl(x, a + b) == Shl(Shl(x, a), b)
  {
    if b > 0 { ShlAdd(x, a, b - 1); }
  }

  /** Shifting by a given number of bits, four at a time. */
  lemma Shl4(x: nat, k: nat)
    requires k == 4
    ensures Shl(x, k) == x * 16
  {
    assert Shl(x, k - 3) == 2 * Shl(x, k - 4) && Shl(x, k - 2) == 2 * Shl(x, k - 3);
    assert Shl(x, k - 1) == 2 * Shl(x, k - 2) && Shl(x, k) == 2 * Shl(x, k - 1);
  }

  lemma Shl16(x: nat, k: nat)
    requires k == 16
    ensures Shl(x, k) == x * 0x1_0000
  {
    var n := k / 4;
    ShlAdd(x, n, n);
    ShlAdd(x, n + n, n);
    ShlAdd(x, n + n + n, n);
    Shl4(x, n);
    Shl4(Shl(x, n), n);
    Shl4(Shl(x, n + n), n);
    Shl4(Shl(x, n + n + n), n);
  }

  lemma Shl48(x: nat, k: nat)
    requires k == 48
    ensures Shl(x, k) == x * 0x1_0000_0000_0000
  {
    var n := k / 3;
    ShlAdd(x, n, n);
    ShlAdd(x, n + n, n);
    Shl16(x, n);
    Shl16(Shl(x, n), n);
    Shl16(Shl(x, n + n), n);
  }

  lemma {:induction false} OnesShift(k: nat)
    ensures Ones(k) + 1 == Shl(1, k)
  {
    if k > 0 { OnesShift(k - 1); }
  }

  /** A number is its high part, shifted back, and its low part. */
  lemma {:induction false} HighAndLow(x: nat, k: nat)
    ensures x == Shl(Shr(x, k), k) + Low(x, k) && Low(x, k) < Shl(1, k)
    decreases k
  {
    if k > 0 { HighAndLow(x / 2, k - 1); }
  }

  lemma {:induction false} AndOnes(x: nat, k: nat, w: nat)
    requires k <= w
    ensures And(x, Ones(k), w) == Low(x, k)
    decreases w
  {
    if k == 0 {
      AndZero(x, w);
    } else {
      AndOnes(x / 2, k - 1, w - 1);
    }
  }

  lemma {:induction false} AndZero(x: nat, w: nat)
    ensures And(x, 0, w) == 0
    decreases w
  {
    if w > 0 { AndZero(x / 2, w - 1); }
  }

  lemma {:induction false} AndShifted(x: nat, y: nat, k: nat, w: nat)
    ensures And(x, Shl(y, k), k + w) == Shl(And(Shr(x, k), y, w), k)
    decreases k
  {
    if k > 0 { AndShifted(x / 2, y, k - 1, w); }
  }

  lemma {:induction false} OrDisjoint(a: nat, b: nat, k: nat, w: nat)
    requires b < Shl(1, k) && a < Shl(1, w)
    ensures Or(Shl(a, k), b, k + w) == Shl(a, k) + b
    decreases k
  {
    if k == 0 {
      OrZero(a, w);
    } else {
      OrDisjoint(a, b / 2, k - 1, w);
    }
  }

  lemma {:induction false} OrZero(a: nat, w: nat)
    requires a < Shl(1, w)
    ensures Or(a, 0, w) == a
    decreases w
  {
    if w > 0 { OrZero(a / 2, w - 1); }
  }

  // ---------------------------------------------------------------- the id of a path

  /** The 64 bits of a signed integer, and back. */
  function Unsigned(x: int): (u: nat)
    ensures u < P64
  {
    x % 0x1_0000_0000_0000_0000
  }

  function Signed(u: nat): int { if u >= P63 then u - P64 else u }

  /** The width of a word, of the prefix taken from the hash, and of the part taken from the counter. */
  const WORD: nat := 64
  const PREFIX: nat := 16
  const REST: nat := 48

  const HIGH16: nat := 0xFFFF_0000_0000_0000

  const LOW48: nat := 0xFFFF_FFFF_FFFF

  function Masked(h: nat, c: nat): nat { Or(And(h, HIGH16, WORD), And(c, LOW48, WORD), WORD) }

  /** `get_object_id`, with the masks of the source. */
  function MaskedId(hash: int, counter: int): int {
    Signed(Masked(Unsigned(hash), Unsigned(counter)))
  }

  /** What the masks amount to: the block of 2^48 ids the hash lies in, and the counter within the block. */
  function ObjectId(hash: int, counter: int): int { Block(hash) * 0x1_0000_0000_0000 + InBlock(counter) }

  predicate IsInt64(x: int) { -P63 <= x < P63 }

  lemma MaskValues()
    ensures HIGH16 == Shl(Ones(PREFIX), REST) && LOW48 == Ones(REST) && Shl(1, PREFIX) == 0x1_0000 && Shl(1, REST) == P48
  {
    OnesShift(PREFIX);
    OnesShift(REST);
    Shl16(1, PREFIX);
    Shl48(1, REST);
    Shl48(Ones(PREFIX), REST);
  }

  /** With 48 bits below, the high part is the block and the low part the position in it. */
  lemma BlockParts(x: nat, k: nat)
    requires k == 48
    ensures Shr(x, k) == Block(x) && Low(x, k) == InBlock(x) && Shl(Block(x), k) == Block(x) * P48
  {
    HighAndLow(x, k);
    Shl48(Shr(x, k), k);
    Shl48(1, k);
    DivideByP48(x, Shr(x, k), Low(x, k));
  }

  lemma DivideByP48(x: int, q: int, r: int)
    requires x == q * P48 + r && 0 <= r < P48
    ensures Block(x) == q && InBlock(x) == r
  {
  }

  lemma FitsPrefix(top: nat, n: nat)
    requires n == 16 && top < 0x1_0000
    ensures Low(top, n) == top
  {
    HighAndLow(top, n);
    Shl16(Shr(top, n), n);
  }

  lemma HighPart(h: nat, mask: nat, k: nat, n: nat)
    requires h < P64 && k == 48 && n == 16 && mask == Shl(Ones(n), k)
    ensures And(h, mask, k + n) == Shl(Block(h), k) && Block(h) < 0x1_0000
  {
    BlockParts(h, k);
    AndShifted(h, Ones(n), k, n);
    AndOnes(Block(h), n, n);
    FitsPrefix(Block(h), n);
  }

  lemma LowPart(c: nat, mask: nat, k: nat, w: nat)
    requires k == 48 && k <= w && mask == Ones(k)
    ensures And(c, mask, w) == InBlock(c)
  {
    BlockParts(c, k);
    AndOnes(c, k, w);
  }

  /** The two masked parts, put together. */
  lemma MaskedParts(h: nat, c: nat)
    requires h < P64
    ensures Masked(h, c) == Block(h) * P48 + InBlock(c)
  {
    MaskValues();
    HighPart(h, HIGH16, REST, PREFIX);
    LowPart(c, LOW48, REST, WORD);
    OrDisjoint(Block(h), InBlock(c), REST, PREFIX);
    BlockParts(h, REST);
  }

  /** The block of a signed hash and of its 64 bits. */
  lemma SignedBlock(hash: int, low: nat)
    requires IsInt64(hash) && low < P48
    ensures Signed(Block(Unsigned(hash)) * P48 + low) == Block(hash) * P48 + low
    ensures IsInt64(Block(hash) * P48 + low)
  {
    assert Unsigned(hash) == if hash < 0 then hash + P64 else hash;
  }

  lemma UnsignedInBlock(counter: int)
    ensures InBlock(Unsigned(counter)) == InBlock(counter)
  {
  }

  lemma MaskedIdIsObjectId(hash: int, counter: int)
    requires IsInt64(hash)
    ensures MaskedId(hash, counter) == ObjectId(hash, counter)
  {
    MaskedParts(Unsigned(hash), Unsigned(counter));
    UnsignedInBlock(counter);
    SignedBlock(hash, InBlock(counter));
  }

  lemma ObjectIdParts(hash: int, counter: int)
    requires IsInt64(hash)
    ensures var id := ObjectId(hash, counter);
            IsInt64(id) && Block(id) == Block(hash) && InBlock(id) == InBlock(counter)
  {
  }

  /** Fewer than 2^48 consecutive counter values, with any hashes, give different ids. */
  lemma IdsDiffer(h1: int, h2: int, start: int, i: nat, j: nat)
    requires IsInt64(h1) && IsInt64(h2) && i < j < i + P48
    ensures ObjectId(h1, start + i) != ObjectId(h2, start + j)
  {
    ObjectIdParts(h1, start + i);
    ObjectIdParts(h2, start + j);
    ApartInBlock(start + i, start + j);
  }

  lemma ApartInBlock(a: int, b: int)
    requires a < b < a + P48
    ensures InBlock(a) != InBlock(b)
  {
  }

  // ---------------------------------------------------------------- routing

  /** The ring lookup: the greatest separator not above the value, or else the largest of all. */
  ghost predicate Owner(seps: set<int>, h: int, m: int) {
    && m in seps
    && if exists x :: x in seps && x <= h
       then m <= h && forall x :: x in seps && x <= h ==> x <= m
       else forall x :: x in seps ==> x <= m
  }

  lemma OwnerIsUnique(seps: set<int>, h: int, m: int, m': int)
    requires Owner(seps, h, m) && Owner(seps, h, m')
    ensures m == m'
  {
  }

  /**
   * Two values have the same owner exactly when no separator lies above the smaller and at or below the larger,
   * or when the smaller is below every separator and the larger is at or past every one of them.
   */
  lemma SameOwnerIff(seps: set<int>, lo: int, hi: int, m: int, m': int)
    requires lo <= hi && Owner(seps, lo, m) && Owner(seps, hi, m')
    ensures m == m' <==>
            || (forall x :: x in seps ==> !(lo < x <= hi))
            || (forall x :: x in seps ==> lo < x <= hi)
  {
    if x :| x in seps && lo < x <= hi {
      assert lo < m' <= hi;
    }
  }

  /** On a ring whose separators are multiples of 2^48, all values of a block have the same owner. */
  lemma SameBlockSameOwner(seps: set<int>, a: int, b: int, m: int, m': int)
    requires Block(a) == Block(b) && forall x :: x in seps ==> InBlock(x) == 0
    requires Owner(seps, a, m) && Owner(seps, b, m')
    ensures m == m'
  {
    forall x | x in seps ensures !(Min(a, b) < x <= Max(a, b)) {
      SameBlock(a, b, x);
    }
    if a <= b { SameOwnerIff(seps, a, b, m, m'); } else { SameOwnerIff(seps, b, a, m', m); }
  }

  /** So an object id is owned by the master of its path. */
  lemma IdRoutesLikeItsPath(seps: set<int>, hash: int, counter: int, m: int, m': int)
    requires IsInt64(hash) && forall x :: x in seps ==> InBlock(x) == 0
    requires Owner(seps, hash, m) && Owner(seps, ObjectId(hash, counter), m')
    ensures m == m'
  {
    ObjectIdParts(hash, counter);
    SameBlockSameOwner(seps, hash, ObjectId(hash, counter), m, m');
  }

  lemma {:induction false} OwnerExists(seps: set<int>, h: int) returns (m: int)
    requires seps != {}
    ensures Owner(seps, h, m)
  {
    var below := set x | x in seps && x <= h;
    assert forall x :: x in seps && x <= h ==> x in below;
    if below == {} {
      m := GreatestExists(seps);
    } else {
      m := GreatestExists(below);
      assert m in seps && m <= h;
    }
  }

  lemma {:induction false} GreatestExists(s: set<int>) returns (m: int)
    requires s != {}
    ensures m in s && forall x :: x in s ==> x <= m
    decreases |s|
  {
    m := Pick(s);
    var rest := s - {m};
    assert forall x :: x in s ==> x == m || x in rest;
    if rest != {} {
      var r := GreatestExists(rest);
      m := if m < r then r else m;
    }
  }

  /** Every id is owned by the master of the path it was made for. */
  ghost predicate RoutesAlike(seps: set<int>) {
    forall hash, counter, m, m' :: IsInt64(hash) && Owner(seps, hash, m) && Owner(seps, ObjectId(hash, counter), m') ==> m == m'
  }

  /**
   * On a ring of 64-bit separators, all ids route like their paths if and only if every separator is a multiple of
   * 2^48, or there is only one.
   */
  lemma RoutesAlikeIff(seps: set<int>)
    requires seps != {} && forall x :: x in seps ==> IsInt64(x)
    ensures RoutesAlike(seps) <==> (forall x :: x in seps ==> InBlock(x) == 0) || exists x :: seps == {x}
  {
    if forall x :: x in seps ==> InBlock(x) == 0 {
      forall hash, counter, m, m' | IsInt64(hash) && Owner(seps, hash, m) && Owner(seps, ObjectId(hash, counter), m')
        ensures m == m'
      {
        IdRoutesLikeItsPath(seps, hash, counter, m, m');
      }
    } else if !(exists x :: seps == {x}) {
      var x :| x in seps && InBlock(x) != 0;
      OffSeparatorMisroutes(seps, x);
    }
  }

  /** A separator inside a block, with another one on the ring, splits the ids of that block from a path before it. */
  lemma OffSeparatorMisroutes(seps: set<int>, x: int)
    requires x in seps && IsInt64(x) && InBlock(x) != 0 && seps != {x}
    ensures !RoutesAlike(seps)
  {
    JustBelow(x);
    var m := OwnerExists(seps, x - 1);
    var m' := OwnerExists(seps, x);
    var rest := seps - {x};
    assert seps == rest + {x} && (rest == {} ==> rest + {x} == {x});
    var y := Pick(rest);
    assert y in seps && y != x;
    SameOwnerIff(seps, x - 1, x, m, m');
    assert Owner(seps, ObjectId(x - 1, x), m');
  }

  lemma JustBelow(x: int)
    requires IsInt64(x) && InBlock(x) != 0
    ensures IsInt64(x - 1) && ObjectId(x - 1, x) == x
  {
  }

  lemma SameBlock(a: int, b: int, x: int)
    requires InBlock(x) == 0 && Block(a) == Block(b)
    ensures !(Min(a, b) < x <= Max(a, b))
  {
  }

  /** The lookups that the repository's tests fix, on the rings {0} and {0, 1000}. */
  lemma TestLookups()
    ensures Owner({0}, 0, 0) && Owner({0}, -1000, 0) && Owner({0}, 65535, 0)
    ensures Owner({0, 1000}, 0, 0) && Owner({0, 1000}, -100, 1000)
  {
    assert 0 in {0} && 0 in {0, 1000} && 1000 in {0, 1000};
  }

  /** The ring of the repository's own test has its second separator one short of a multiple, and misroutes. */
  lemma TestRingMisroutes(sep: int)
    requires sep == (P63 - 1) / 4
    ensures IsInt64(sep - 1) && Owner({0, sep}, sep - 1, 0) && Owner({0, sep}, ObjectId(sep - 1, sep), sep)
  {
    ObjectIdParts(sep - 1, sep);
    assert Block(sep - 1) == Block(sep);
    assert ObjectId(sep - 1, sep) == sep;
    assert 0 in {0, sep} && sep in {0, sep};
  }
}
