/** Values shared by every part of the model: bytes, 64-bit sizes and the result type. */
module Base {
  const MAX_U64: int := 0xFFFF_FFFF_FFFF_FFFF

  /** `std::uint64_t` and `std::size_t`; the subset type makes every wrap-around a proof obligation. */
  type U64 = x: int | 0 <= x < 0x1_0000_0000_0000_0000

  type Byte = x: int | 0 <= x < 256
  type Bytes = seq<Byte>

  datatype ErrorCode =
    | InvalidArgument
    | InvalidXisf
    | InvalidBlock
    | MalformedXml
    | UnsupportedFeature
    | ResourceLimit
    | Overflow
    | IoError
    | ChecksumMismatch
    | Cancelled
    | InvalidPreamble
    | InvalidSignature
    | HeaderTooLarge
    | InternalError

  datatype Option<+T> = None | Some(value: T) {
    function GetOr(default: T): T {
      if Some? then value else default
    }
  }

  datatype Result<+T> = Ok(value: T) | Err(error: ErrorCode) {
    predicate IsFailure() {
      Err?
    }

    function PropagateFailure<U>(): Result<U>
      requires Err?
    {
      Err(error)
    }

    function Extract(): T
      requires Ok?
    {
      value
    }
  }

  function Min(a: int, b: int): int {
    if a <= b then a else b
  }

  function CheckedAdd(left: U64, right: U64): Option<U64> {
    if right > MAX_U64 - left then None else Some(left + right)
  }

  /** The overflow test is the source's own division, so that no product is formed first. */
  function CheckedMultiply(left: U64, right: U64): Option<U64> {
    if left != 0 && right > MAX_U64 / left then None else Mul.Bounded(left, right); Some(left * right)
  }

  /** The division test refuses exactly the products that do not fit in 64 bits. */
  lemma CheckedMultiplyExact(left: U64, right: U64)
    ensures CheckedMultiply(left, right) == (if left * right <= MAX_U64 then Some(left * right) else None)
  {
    if left != 0 {
      Mul.QuotientBound(left, right, MAX_U64);
    }
  }

  import Mul
}

/** The few facts about products, quotients and remainders that the proofs need. */
module Mul {
  lemma Bounded(left: int, right: int)
    requires 0 <= left <= 0xFFFF_FFFF_FFFF_FFFF && 0 <= right
    requires left == 0 || right <= 0xFFFF_FFFF_FFFF_FFFF / left
    ensures 0 <= left * right <= 0xFFFF_FFFF_FFFF_FFFF
  {
    if left != 0 {
      QuotientBound(left, right, 0xFFFF_FFFF_FFFF_FFFF);
    }
  }

  lemma QuotientBound(left: int, right: int, limit: int)
    requires 0 < left && 0 <= right && 0 <= limit
    ensures right <= limit / left <==> left * right <= limit
    ensures 0 <= left * right
  {
    var q, r := limit / left, limit % left;
    assert limit == left * q + r;
    if right <= q {
      Monotone(right, q, left);
    } else {
      Monotone(q + 1, right, left);
      assert left * (q + 1) == left * q + left;
    }
  }

  lemma Monotone(a: int, b: int, n: int)
    requires a <= b && 0 <= n
    ensures a * n <= b * n
    ensures n * a <= n * b
  {
  }

  /** Quotient and remainder of a number given in the form q * n + r. */
  lemma DivMod(q: int, r: int, n: int)
    requires 0 <= r < n
    ensures (q * n + r) / n == q
    ensures (q * n + r) % n == r
  {
    var x := q * n + r;
    var d := x / n - q;
    assert x == n * (x / n) + x % n;
    assert n * d == r - x % n by {
      assert n * d == n * (x / n) - n * q;
    }
    if d >= 1 {
      Monotone(1, d, n);
    } else if d <= -1 {
      Monotone(d, -1, n);
    }
  }

  lemma Split(x: int, n: int)
    requires 0 <= x && 0 < n
    ensures x == (x / n) * n + x % n
    ensures 0 <= x / n && 0 <= x % n < n
  {
    assert x == n * (x / n) + x % n;
  }

  /** Row-major index of (i, r) in an m-by-n table. */
  lemma Index(i: int, r: int, m: int, n: int)
    requires 0 <= i < m && 0 <= r < n
    ensures 0 <= i * n + r < m * n
  {
    Monotone(i + 1, m, n);
    assert (i + 1) * n == i * n + n;
    Monotone(0, i, n);
  }

  /** Byte b of sample x of row r of plane c, numbered plane by plane or through the rows. */
  lemma PlaneByRows(c: int, r: int, x: int, b: int, w: int, h: int, s: int)
    ensures (c * (w * h) + (r * w + x)) * s + b == (c * h + r) * (w * s) + (x * s + b)
  {
    Spread(c * (w * h), r * w, x, s);
    assert (c * h + r) * (w * s) == c * h * (w * s) + r * (w * s);
    Regroup(c, w, h, s);
    assert r * w * s == r * (w * s);
  }

  lemma Spread(a: int, b: int, c: int, s: int)
    ensures (a + (b + c)) * s == a * s + b * s + c * s
  {
  }

  lemma Regroup(c: int, w: int, h: int, s: int)
    ensures c * (w * h) * s == c * h * (w * s)
  {
    assert c * (w * h) == c * h * w;
  }

  /** Byte b of channel c of pixel x of row r, numbered pixel by pixel or through the rows. */
  lemma PixelByRows(r: int, x: int, c: int, b: int, w: int, n: int, s: int)
    ensures ((r * w + x) * n + c) * s + b == r * (w * s * n) + ((x * n + c) * s + b)
  {
    assert (r * w + x) * n == r * w * n + x * n;
    Spread(r * w * n, x * n, c, s);
    assert (x * n + c) * s == x * n * s + c * s;
    assert w * s * n == w * (n * s);
    assert r * w * n * s == r * w * (n * s);
    assert r * (w * (n * s)) == r * w * (n * s);
  }

  /** Slice i of size n of a row of m such slices. */
  lemma Slice(i: int, m: int, n: int)
    requires 0 <= i < m && 0 <= n
    ensures 0 <= i * n && i * n + n <= m * n
  {
    Monotone(i + 1, m, n);
    assert (i + 1) * n == i * n + n;
    Monotone(0, i, n);
  }

  /** Where byte 0 of channel c of pixel x lies in a plane row, and in a row that holds n channels. */
  lemma Gather(x: int, c: int, w: int, n: int, s: int)
    requires 0 <= x < w && 0 <= c < n && 1 <= s
    ensures 0 <= x * s && x * s + s == (x + 1) * s <= w * s
    ensures 0 <= x * n + c <= (x * n + c) * s
    ensures (x * n + c) * s + s <= w * s * n
  {
    Slice(x, w, s);
    Index(x, c, w, n);
    Slice(x * n + c, w * n, s);
    Monotone(1, s, x * n + c);
    assert w * n * s == w * s * n;
  }

  /** If row i of n bytes ends within m rows, then i is below m. */
  lemma Behind(i: int, m: int, n: int)
    requires 0 < n && i * n + n <= m * n
    ensures i < m
  {
    if m <= i {
      Monotone(m, i, n);
    }
  }

  lemma Unique(i: int, r: int, m: int, n: int)
    requires 0 <= r < n && i * n + r == m * n
    ensures i == m && r == 0
  {
    DivMod(i, r, n);
    DivMod(m, 0, n);
  }

  lemma QuotientRange(x: int, m: int, n: int)
    requires 0 <= x < m * n && 0 < n
    ensures 0 <= x / n < m && 0 <= x % n < n
  {
    Split(x, n);
    if x / n >= m {
      Monotone(m, x / n, n);
    }
  }
}
