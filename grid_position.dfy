/** Cell coordinates of the 3 x 3 x 3 board (GridPosition). */
module GridPositions {
  import Decimal

  /** A coordinate triple; y is the layer (height), x and z run across a layer. */
  datatype Position = Position(x: int, y: int, z: int)

  /** The number of cells on the board. */
  const CellCount: int := 27

  /** IsValid: every coordinate lies in [0, 3). */
  predicate IsValid(p: Position) {
    p.x >= 0 && p.x < 3 && p.y >= 0 && p.y < 3 && p.z >= 0 && p.z < 3
  }

  /**
   * The place of a cell in the order in which the board scans its cells: layer by layer
   * (y), then row by row (z), then along the row (x).
   */
  function Index(p: Position): int {
    9 * p.y + 3 * p.z + p.x
  }

  /** The cell scanned at step i; the inverse of Index on valid positions. */
  function PosAt(i: int): (p: Position)
    requires 0 <= i < CellCount
    ensures IsValid(p) && Index(p) == i
  {
    Position(i % 3, i / 9, (i / 3) % 3)
  }

  lemma IndexOfValid(p: Position)
    requires IsValid(p)
    ensures 0 <= Index(p) < CellCount && PosAt(Index(p)) == p
  {
  }

  /** Distinct valid cells have distinct scan positions. */
  lemma IndexInjective(p: Position, q: Position)
    requires IsValid(p) && IsValid(q) && Index(p) == Index(q)
    ensures p == q
  {
    IndexOfValid(p);
    IndexOfValid(q);
  }

  /** The cells scanned before step n. */
  function ScannedBefore(n: int): set<Position>
    requires 0 <= n <= CellCount
  {
    set i | 0 <= i < n :: PosAt(i)
  }

  lemma {:induction false} ScannedBeforeSize(n: int)
    requires 0 <= n <= CellCount
    ensures |ScannedBefore(n)| == n
  {
    if n > 0 {
      ScannedBeforeSize(n - 1);
      assert ScannedBefore(n) == ScannedBefore(n - 1) + {PosAt(n - 1)};
      assert PosAt(n - 1) !in ScannedBefore(n - 1);
    }
  }

  /** Exactly 27 positions are valid: the ones the scan visits. */
  lemma ValidPositions()
    ensures forall p :: IsValid(p) <==> p in ScannedBefore(CellCount)
    ensures |ScannedBefore(CellCount)| == 27
  {
    forall p | IsValid(p) ensures p in ScannedBefore(CellCount) {
      IndexOfValid(p);
    }
    ScannedBeforeSize(CellCount);
  }

  /** operator ==: all three coordinates agree. */
  predicate Eq(a: Position, b: Position) {
    a.x == b.x && a.y == b.y && a.z == b.z
  }

  /** operator !=: the negation of ==. */
  predicate NotEq(a: Position, b: Position) {
    !Eq(a, b)
  }

  lemma EqIsEquality(a: Position, b: Position)
    ensures Eq(a, b) <==> a == b
    ensures NotEq(a, b) <==> a != b
  {
  }

  lemma EqIsEquivalence()
    ensures forall a :: Eq(a, a)
    ensures forall a, b :: Eq(a, b) ==> Eq(b, a)
    ensures forall a, b, c :: Eq(a, b) && Eq(b, c) ==> Eq(a, c)
  {
  }

  /** The argument of Equals(object): a boxed GridPosition or an object of any other type. */
  datatype Object = BoxedPosition(value: Position) | OtherObject

  /** Equals(object): false for any other type, otherwise operator ==. */
  predicate Equals(self: Position, obj: Object) {
    if !obj.BoxedPosition? then false else Eq(self, obj.value)
  }

  lemma EqualsAgreesWithEq(self: Position, obj: Object)
    ensures obj.OtherObject? ==> !Equals(self, obj)
    ensures obj.BoxedPosition? ==> (Equals(self, obj) <==> self == obj.value)
  {
  }

  /** The bit pattern of a 32-bit int (two's complement). */
  function Int32Bits(n: int): bv32 {
    (n % 0x1_0000_0000) as bv32
  }

  /** The C# operator >> on int: a shift that copies the sign bit (here by 2). */
  function ShiftRightArithmetic2(b: bv32): bv32 {
    if b & 0x8000_0000 == 0 then b >> 2 else (b >> 2) | 0xC000_0000
  }

  /** GetHashCode: x ^ (y << 2) ^ (z >> 2) on 32-bit ints (int.GetHashCode is the identity). */
  function HashCode(p: Position): bv32 {
    Int32Bits(p.x) ^ (Int32Bits(p.y) << 2) ^ ShiftRightArithmetic2(Int32Bits(p.z))
  }

  lemma HashRespectsEq(a: Position, b: Position)
    requires Eq(a, b)
    ensures HashCode(a) == HashCode(b)
  {
  }

  /**
   * On the board the hash is x + 4y: z is shifted away, so cells that differ only in z
   * (such as (0,0,0) and (0,0,2)) share a hash code.
   */
  lemma HashOnBoard(p: Position)
    requires IsValid(p)
    ensures HashCode(p) == (p.x + 4 * p.y) as bv32
  {
    SmallBits(p.x);
    SmallBits(p.y);
    SmallBits(p.z);
    ShiftedAway(p.z);
    LowBitsXor(p.x, p.y);
  }

  lemma SmallBits(n: int)
    requires 0 <= n < 16
    ensures Int32Bits(n) == n as bv32
  {
  }

  lemma ShiftedAway(z: int)
    requires 0 <= z < 3
    ensures ShiftRightArithmetic2(z as bv32) == 0
  {
    assert z as bv32 < 3;
  }

  lemma LowBitsXor(x: int, y: int)
    requires 0 <= x < 3 && 0 <= y < 3
    ensures (x as bv32) ^ ((y as bv32) << 2) == (x + 4 * y) as bv32
  {
    var bx, bh := x as bv32, y as bv32;
    assert bx < 3 && bh < 3;
    assert (x + 4 * y) as bv32 == bx + 4 * bh;
    assert bx ^ (bh << 2) == bx + 4 * bh;
  }

  /** ToString: "(x,y,z)" with each coordinate in decimal. */
  function ToString(p: Position): (s: string)
    ensures |s| >= 7 && s[0] == '(' && s[|s| - 1] == ')'
  {
    "(" + Decimal.IntToString(p.x) + "," + Decimal.IntToString(p.y) + "," + Decimal.IntToString(p.z) + ")"
  }

  /** A valid position prints as the seven characters ( x , y , z ). */
  lemma ToStringOnBoard(p: Position)
    requires IsValid(p)
    ensures ToString(p) == ['(', Decimal.DigitChar(p.x), ',', Decimal.DigitChar(p.y), ',', Decimal.DigitChar(p.z), ')']
  {
  }
}
