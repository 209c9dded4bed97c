/**
 * Two-dimensional integer pixel arrays as numpy holds them: an element
 * type (a fixed-width integer dtype), a shape (rows, cols) and the rows of
 * values. Covers the quarter-turn rotation np.rot90 and the element-wise
 * subtraction of two arrays, with numpy's type promotion, broadcasting
 * and wrap-around.
 */
module Pixels {
  import opened Wrappers

  datatype Width = W8 | W16 | W32 | W64

  /** A numpy integer dtype such as uint16 (signed false, W16) or int16. */
  datatype IntType = IntType(signed: bool, width: Width)

  function Bits(w: Width): nat {
    match w
    case W8 => 8
    case W16 => 16
    case W32 => 32
    case W64 => 64
  }

  /** 2 to the number of bits: how many values the dtype holds. */
  function Modulus(t: IntType): (m: nat)
    ensures m >= 256
  {
    match t.width
    case W8 => 0x100
    case W16 => 0x1_0000
    case W32 => 0x1_0000_0000
    case W64 => 0x1_0000_0000_0000_0000
  }

  function MinValue(t: IntType): int {
    if t.signed then -(Modulus(t) / 2) else 0
  }

  function MaxValue(t: IntType): int {
    MinValue(t) + Modulus(t) - 1
  }

  predicate InRange(t: IntType, x: int) {
    MinValue(t) <= x <= MaxValue(t)
  }

  /**
   * The value of dtype t congruent to x modulo 2^bits: what a numpy
   * integer operation stores when the exact result does not fit.
   */
  function Wrap(t: IntType, x: int): (r: int)
    ensures InRange(t, r)
    ensures InRange(t, x) ==> r == x
    ensures x < MinValue(t) && MinValue(t) - Modulus(t) <= x ==> r == x + Modulus(t)
    ensures x > MaxValue(t) && x <= MaxValue(t) + Modulus(t) ==> r == x - Modulus(t)
  {
    MinValue(t) + (x - MinValue(t)) % Modulus(t)
  }

  /**
   * numpy's result type for an operation on two integer arrays: the
   * smallest integer dtype holding every value of both, or None where
   * numpy falls back to float64 (uint64 with a signed type).
   */
  function Promote(a: IntType, b: IntType): (r: Option<IntType>)
    ensures r.Some? ==> forall x :: InRange(a, x) || InRange(b, x) ==> InRange(r.value, x)
    ensures r.None? <==> a.signed != b.signed && (if a.signed then b.width else a.width) == W64
  {
    if a.signed == b.signed then
      Some(IntType(a.signed, if Bits(a.width) >= Bits(b.width) then a.width else b.width))
    else
      var (s, u) := if a.signed then (a.width, b.width) else (b.width, a.width);
      if Bits(s) > Bits(u) then Some(IntType(true, s))
      else match u
        case W8 => Some(IntType(true, W16))
        case W16 => Some(IntType(true, W32))
        case W32 => Some(IntType(true, W64))
        case W64 => None
  }

  /** No integer dtype that holds both operands' ranges is narrower than the promoted one. */
  lemma PromoteSmallest(a: IntType, b: IntType, t: IntType)
    requires Promote(a, b).Some?
    requires InRange(t, MinValue(a)) && InRange(t, MaxValue(a)) && InRange(t, MinValue(b)) && InRange(t, MaxValue(b))
    ensures Modulus(Promote(a, b).value) <= Modulus(t)
  {
  }

  /** A C-contiguous 2-D array: dtype, shape and rows of values. */
  datatype PixelArray = PixelArray(dtype: IntType, rows: nat, cols: nat, data: seq<seq<int>>)

  predicate Valid(a: PixelArray) {
    && |a.data| == a.rows
    && (forall i :: 0 <= i < a.rows ==> |a.data[i]| == a.cols)
    && (forall i, j :: 0 <= i < a.rows && 0 <= j < a.cols ==> InRange(a.dtype, a.data[i][j]))
  }

  /** A well-formed array, as numpy and SimpleITK hand it out. */
  type Image = a: PixelArray | Valid(a) witness PixelArray(IntType(false, W8), 0, 0, [])

  /** Two valid arrays with the same dtype, shape and elements are the same array. */
  lemma {:induction false} Extensionality(a: PixelArray, b: PixelArray)
    requires Valid(a) && Valid(b)
    requires a.dtype == b.dtype && a.rows == b.rows && a.cols == b.cols
    requires forall i, j :: 0 <= i < a.rows && 0 <= j < a.cols ==> a.data[i][j] == b.data[i][j]
    ensures a == b
  {
    forall i | 0 <= i < a.rows
      ensures a.data[i] == b.data[i]
    {
      assert forall j :: 0 <= j < a.cols ==> a.data[i][j] == b.data[i][j];
    }
    assert a.data == b.data;
  }

  // ---------------------------------------------------------------------
  // np.rot90: counter-clockwise quarter turns.

  /** One counter-clockwise quarter turn: the last column becomes the first row. */
  function Quarter(a: PixelArray): (r: PixelArray)
    requires Valid(a)
    ensures Valid(r)
    ensures r.dtype == a.dtype && r.rows == a.cols && r.cols == a.rows
  {
    PixelArray(a.dtype, a.cols, a.rows,
               seq(a.cols, i requires 0 <= i < a.cols =>
                 seq(a.rows, j requires 0 <= j < a.rows => a.data[j][a.cols - 1 - i])))
  }

  lemma QuarterAt(a: PixelArray, i: int, j: int)
    requires Valid(a) && 0 <= i < a.cols && 0 <= j < a.rows
    ensures Quarter(a).data[i][j] == a.data[j][a.cols - 1 - i]
  {
  }

  /** n counter-clockwise quarter turns, n in 0..3. */
  function Turns(a: PixelArray, n: nat): (r: PixelArray)
    requires Valid(a)
    ensures Valid(r) && r.dtype == a.dtype
  {
    if n == 0 then a else Quarter(Turns(a, n - 1))
  }

  /** An even number of quarter turns keeps the extents, an odd number swaps them. */
  lemma {:induction false} TurnsShape(a: PixelArray, n: nat)
    requires Valid(a)
    ensures n % 2 == 0 ==> Turns(a, n).rows == a.rows && Turns(a, n).cols == a.cols
    ensures n % 2 == 1 ==> Turns(a, n).rows == a.cols && Turns(a, n).cols == a.rows
  {
    if n > 0 {
      TurnsShape(a, n - 1);
      assert (n - 1) % 2 == 1 - n % 2;
    }
  }

  lemma QuarterParity(k: int)
    ensures (k % 4) % 2 == k % 2
  {
    var q, n := k / 4, k % 4;
    assert k == 4 * q + n && 0 <= n < 4;
    var p, r := k / 2, k % 2;
    assert k == 2 * p + r && 0 <= r < 2;
    if n == 0 { assert 2 * (2 * q - p) == r; }
    else if n == 1 { assert 2 * (2 * q - p) + 1 == r; }
    else if n == 2 { assert 2 * (2 * q - p + 1) == r; }
    else { assert 2 * (2 * q - p + 1) + 1 == r; }
  }
  lemma QuarterSum(j: int, k: int)
    ensures (j + k) % 4 == (j % 4 + k % 4) % 4
  {
    var a, m := j / 4, j % 4;
    var b, n := k / 4, k % 4;
    var c, s := (j + k) / 4, (j + k) % 4;
    var d, t := (m + n) / 4, (m + n) % 4;
    assert j == 4 * a + m && k == 4 * b + n && j + k == 4 * c + s && m + n == 4 * d + t;
    assert 4 * (a + b - c + d) == s - t;
  }

  lemma TurnsUnfold(a: PixelArray)
    requires Valid(a)
    ensures Turns(a, 1) == Quarter(a)
    ensures Turns(a, 2) == Quarter(Quarter(a))
    ensures Turns(a, 3) == Quarter(Quarter(Quarter(a)))
    ensures Turns(a, 4) == Quarter(Quarter(Quarter(Quarter(a))))
  {
    assert Turns(a, 0) == a;
  }

  /**
   * np.rot90(a, k): k is reduced modulo 4 first, so a negative k turns
   * clockwise; an odd k swaps the two extents.
   */
  function Rot90(a: PixelArray, k: int): (r: PixelArray)
    requires Valid(a)
    ensures Valid(r) && r.dtype == a.dtype
    ensures k % 2 != 0 ==> r.rows == a.cols && r.cols == a.rows
    ensures k % 2 == 0 ==> r.rows == a.rows && r.cols == a.cols
  {
    QuarterParity(k);
    TurnsShape(a, k % 4);
    Turns(a, k % 4)
  }

  /** Two quarter turns send element (i, j) to (rows-1-i, cols-1-j). */
  lemma HalfTurnAt(a: PixelArray, i: int, j: int)
    requires Valid(a) && 0 <= i < a.rows && 0 <= j < a.cols
    ensures Quarter(Quarter(a)).data[i][j] == a.data[a.rows - 1 - i][a.cols - 1 - j]
  {
    QuarterAt(Quarter(a), i, j);
    QuarterAt(a, j, a.rows - 1 - i);
  }

  /** A half turn reverses both the order of the rows and the order of the columns. */
  lemma HalfTurn(a: PixelArray)
    requires Valid(a)
    ensures var r := Rot90(a, 2);
            && r.rows == a.rows && r.cols == a.cols
            && forall i, j :: 0 <= i < a.rows && 0 <= j < a.cols ==>
                 r.data[i][j] == a.data[a.rows - 1 - i][a.cols - 1 - j]
  {
    TurnsUnfold(a);
    forall i, j | 0 <= i < a.rows && 0 <= j < a.cols
      ensures Quarter(Quarter(a)).data[i][j] == a.data[a.rows - 1 - i][a.cols - 1 - j]
    {
      HalfTurnAt(a, i, j);
    }
  }

  /** Two half turns give back the array. */
  lemma FullTurn(a: PixelArray)
    requires Valid(a)
    ensures Quarter(Quarter(Quarter(Quarter(a)))) == a
  {
    var h := Quarter(Quarter(a));
    var f := Quarter(Quarter(h));
    forall i, j | 0 <= i < a.rows && 0 <= j < a.cols
      ensures f.data[i][j] == a.data[i][j]
    {
      HalfTurnAt(h, i, j);
      HalfTurnAt(a, a.rows - 1 - i, a.cols - 1 - j);
    }
    Extensionality(f, a);
  }

  /** Three quarter turns are one clockwise turn: the last row becomes the first column. */
  lemma ThreeQuarterTurn(a: PixelArray)
    requires Valid(a)
    ensures var r := Rot90(a, 3);
            && r.rows == a.cols && r.cols == a.rows
            && forall i, j :: 0 <= i < a.cols && 0 <= j < a.rows ==>
                 r.data[i][j] == a.data[a.rows - 1 - j][i]
  {
    var h := Quarter(Quarter(a));
    TurnsUnfold(a);
    forall i, j | 0 <= i < a.cols && 0 <= j < a.rows
      ensures Quarter(h).data[i][j] == a.data[a.rows - 1 - j][i]
    {
      QuarterAt(h, i, j);
      HalfTurnAt(a, j, a.cols - 1 - i);
    }
  }

  /** A multiple of four quarter turns gives back the array. */
  lemma Rot90Identity(a: PixelArray, k: int)
    requires Valid(a) && k % 4 == 0
    ensures Rot90(a, k) == a
  {
  }

  lemma {:induction false} TurnsStep(a: PixelArray, n: nat)
    requires Valid(a)
    ensures Turns(Quarter(a), n) == Quarter(Turns(a, n))
  {
    if n > 0 {
      TurnsStep(a, n - 1);
    }
  }

  /** Turning by j and then by k quarters is turning by j + k. */
  lemma Rot90Compose(a: PixelArray, j: int, k: int)
    requires Valid(a)
    ensures Rot90(Rot90(a, j), k) == Rot90(a, j + k)
  {
    QuarterSum(j, k);
    TurnsMod(a, j % 4, k % 4);
  }

  /** Quarter turn counts below four add modulo four. */
  lemma TurnsMod(a: PixelArray, m: nat, n: nat)
    requires Valid(a) && m < 4 && n < 4
    ensures Turns(Turns(a, m), n) == Turns(a, (m + n) % 4)
  {
    TurnsAdd(a, m, n);
    SmallMod(m + n);
    if m + n >= 4 {
      FullTurn(a);
      TurnsFour(a, m + n - 4);
    }
  }

  lemma SmallMod(s: int)
    requires 0 <= s < 8
    ensures s % 4 == if s < 4 then s else s - 4
  {
    var q, r := s / 4, s % 4;
    assert s == 4 * q + r && 0 <= r < 4;
  }

  lemma {:induction false} TurnsAdd(a: PixelArray, m: nat, n: nat)
    requires Valid(a)
    ensures Turns(Turns(a, m), n) == Turns(a, m + n)
  {
    if n > 0 {
      TurnsAdd(a, m, n - 1);
    }
  }

  lemma TurnsFour(a: PixelArray, n: nat)
    requires Valid(a) && Quarter(Quarter(Quarter(Quarter(a)))) == a
    ensures Turns(a, n + 4) == Turns(a, n)
  {
    TurnsAdd(a, 4, n);
    TurnsUnfold(a);
  }

  /** Turning back by -k quarters undoes a turn by k. */
  lemma Rot90Inverse(a: PixelArray, k: int)
    requires Valid(a)
    ensures Rot90(Rot90(a, k), -k) == a
  {
    Rot90Compose(a, k, -k);
  }

  // ---------------------------------------------------------------------
  // a - b on integer arrays.

  /** numpy's broadcast of two extents: equal, or one of them 1. */
  function Broadcast(x: nat, y: nat): (r: Option<nat>)
    ensures r.Some? <==> x == y || x == 1 || y == 1
    ensures r.Some? && x == y ==> r.value == x
    ensures r.Some? && x == 1 ==> r.value == y
    ensures r.Some? && y == 1 ==> r.value == x
  {
    if x == y then Some(x) else if x == 1 then Some(y) else if y == 1 then Some(x) else None
  }

  /** The element of a that broadcasting places at (i, j): a unit extent repeats its one entry. */
  function At(a: PixelArray, i: int, j: int): int
    requires Valid(a)
    requires a.rows == 1 || 0 <= i < a.rows
    requires a.cols == 1 || 0 <= j < a.cols
  {
    a.data[if a.rows == 1 then 0 else i][if a.cols == 1 then 0 else j]
  }

  datatype ArrayError = ShapeMismatch | NoIntegerType

  /**
   * numpy's a - b: shapes broadcast, values promoted to a common dtype,
   * each difference stored modulo 2^bits of that dtype.
   */
  function Subtract(a: PixelArray, b: PixelArray): (r: Result<PixelArray, ArrayError>)
    requires Valid(a) && Valid(b)
    ensures r.Success? ==> Valid(r.value)
  {
    match (Broadcast(a.rows, b.rows), Broadcast(a.cols, b.cols))
    case (None, _) => Failure(ShapeMismatch)
    case (_, None) => Failure(ShapeMismatch)
    case (Some(rows), Some(cols)) =>
      match Promote(a.dtype, b.dtype)
      case None => Failure(NoIntegerType)
      case Some(t) =>
        Success(PixelArray(t, rows, cols,
          seq(rows, i requires 0 <= i < rows =>
            seq(cols, j requires 0 <= j < cols => Wrap(t, At(a, i, j) - At(b, i, j))))))
  }

  /** Subtraction fails exactly when the shapes do not broadcast or no integer dtype holds both. */
  lemma SubtractFails(a: PixelArray, b: PixelArray)
    requires Valid(a) && Valid(b)
    ensures Subtract(a, b).Failure? <==>
              || Broadcast(a.rows, b.rows).None? || Broadcast(a.cols, b.cols).None?
              || Promote(a.dtype, b.dtype).None?
  {
  }

  /** Element (i, j) of a difference of two arrays of one shape, as numpy stores it. */
  lemma SubtractAt(a: PixelArray, b: PixelArray, i: int, j: int)
    requires Valid(a) && Valid(b) && a.rows == b.rows && a.cols == b.cols
    requires Promote(a.dtype, b.dtype).Some?
    requires 0 <= i < a.rows && 0 <= j < a.cols
    ensures var r := Subtract(a, b);
            && r.Success? && r.value.dtype == Promote(a.dtype, b.dtype).value
            && r.value.rows == a.rows && r.value.cols == a.cols
            && r.value.data[i][j] == Wrap(r.value.dtype, a.data[i][j] - b.data[i][j])
  {
    assert At(a, i, j) == a.data[i][j];
    assert At(b, i, j) == b.data[i][j];
  }

  /**
   * The general broadcast case: the result has the broadcast extents and
   * the promoted dtype, and a unit extent of either operand repeats its one
   * row or column against every index of the other.
   */
  lemma SubtractBroadcast(a: PixelArray, b: PixelArray, i: int, j: int)
    requires Valid(a) && Valid(b) && Subtract(a, b).Success?
    requires 0 <= i < Subtract(a, b).value.rows && 0 <= j < Subtract(a, b).value.cols
    ensures var r := Subtract(a, b).value;
            && Broadcast(a.rows, b.rows) == Some(r.rows) && Broadcast(a.cols, b.cols) == Some(r.cols)
            && Promote(a.dtype, b.dtype) == Some(r.dtype)
            && (a.rows == 1 || i < a.rows) && (a.cols == 1 || j < a.cols)
            && (b.rows == 1 || i < b.rows) && (b.cols == 1 || j < b.cols)
            && r.data[i][j] == Wrap(r.dtype, At(a, i, j) - At(b, i, j))
  {
  }

  /** Wherever the exact difference fits the result dtype, the difference holds it. */
  lemma SubtractExact(a: PixelArray, b: PixelArray, i: int, j: int)
    requires Valid(a) && Valid(b) && a.rows == b.rows && a.cols == b.cols
    requires Promote(a.dtype, b.dtype).Some?
    requires 0 <= i < a.rows && 0 <= j < a.cols
    requires InRange(Promote(a.dtype, b.dtype).value, a.data[i][j] - b.data[i][j])
    ensures Subtract(a, b).value.data[i][j] == a.data[i][j] - b.data[i][j]
  {
    SubtractAt(a, b, i, j);
  }

  /** On unsigned arrays of one dtype a smaller minus a larger value wraps around to the top of the range. */
  lemma SubtractUnsignedWraps(a: PixelArray, b: PixelArray, i: int, j: int)
    requires Valid(a) && Valid(b) && a.rows == b.rows && a.cols == b.cols
    requires a.dtype == b.dtype && !a.dtype.signed
    requires 0 <= i < a.rows && 0 <= j < a.cols
    requires a.data[i][j] < b.data[i][j]
    ensures Subtract(a, b).value.data[i][j] == a.data[i][j] - b.data[i][j] + Modulus(a.dtype)
  {
    SubtractAt(a, b, i, j);
    assert InRange(a.dtype, a.data[i][j]) && InRange(a.dtype, b.data[i][j]);
  }

  /** An array minus itself is all zeros, in its own dtype. */
  lemma SubtractSelf(a: PixelArray, i: int, j: int)
    requires Valid(a) && 0 <= i < a.rows && 0 <= j < a.cols
    ensures Subtract(a, a).Success? && Subtract(a, a).value.dtype == a.dtype
    ensures Subtract(a, a).value.data[i][j] == 0
  {
    SubtractAt(a, a, i, j);
  }
}
