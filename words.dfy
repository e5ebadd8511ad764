/** Fixed-width integer encodings the ledger code goes through: 32-byte storage
    words, 256-bit balances (uint256.FromBig) and 64-bit Go integers. */
module Words {

  /** 2^256: storage words and balances are 256-bit unsigned integers. */
  const U256: int := 0x1_0000_0000_0000_0000_0000_0000_0000_0000_0000_0000_0000_0000_0000_0000_0000_0000

  /** 2^63 and 2^64: bounds of Go's int64 / int on a 64-bit platform. */
  const I64Bound: int := 0x8000_0000_0000_0000
  const U64: int := 0x1_0000_0000_0000_0000

  /** A Go int64 (and `int`, which is 64 bits on the platforms the client targets). */
  type Int64 = x: int | -I64Bound <= x < I64Bound

  function Abs(x: int): (r: nat)
    ensures r == x || r == -x
  {
    if x < 0 then -x else x
  }

  /** The word `common.BytesToHash(x.Bytes())` holds: `Bytes()` keeps only the
      magnitude of `x`, and `BytesToHash` keeps only the last 32 bytes. */
  function ToWord(x: int): (w: nat)
    ensures w < U256
    ensures 0 <= x < U256 ==> w == x
    ensures -U256 < x < 0 ==> w == -x
  {
    Abs(x) % U256
  }

  /** The pair returned by `uint256.FromBig(x)`: the low 256 bits of x in two's
      complement, and whether x needed more than 256 bits of magnitude. */
  datatype U256Conversion = U256Conversion(value: nat, overflow: bool)

  function FromBig(x: int): (r: U256Conversion)
    ensures r.value < U256
    ensures r.overflow <==> (x >= U256 || x <= -U256)
    ensures 0 <= x < U256 ==> r.value == x && !r.overflow
    ensures -U256 < x < 0 ==> r.value == U256 + x
  {
    U256Conversion(x % U256, Abs(x) >= U256)
  }

  /** `new(big.Int).SetBytes(word).Int64()`: the low 64 bits read as two's complement. */
  function Int64Of(w: nat): (r: Int64)
    ensures w < I64Bound ==> r == w
  {
    var low := w % U64;
    if low < I64Bound then low else low - U64
  }

  /** The result of a Go int64 subtraction (or addition), which wraps around. */
  function Wrap64(x: int): (r: Int64)
    ensures -I64Bound <= x < I64Bound ==> r == x
    ensures (r - x) % U64 == 0
  {
    var m := (x + I64Bound) % U64;
    m - I64Bound
  }

  /** A go-ethereum address: 20 bytes, read as a number. */
  type Address = a: nat | a < 0x1_0000_0000_0000_0000_0000_0000_0000_0000_0000_0000

  /** Whether every character of a string stands for one byte. */
  predicate IsByteString(s: string)
  {
    forall i :: 0 <= i < |s| ==> s[i] as int < 256
  }

  /** The number a byte string denotes when read big-endian, as `BytesToHash`
      reads it for strings shorter than 32 bytes. */
  function BigEndian(s: string): (r: nat)
    requires IsByteString(s)
    ensures s != [] ==> r % 256 == s[|s| - 1] as int
  {
    if s == [] then 0 else BigEndian(s[..|s| - 1]) * 256 + s[|s| - 1] as int
  }

  /** `common.BytesToHash([]byte(s))`, as a number. */
  function StringWord(s: string): (w: nat)
    requires IsByteString(s)
    ensures w < U256
  {
    BigEndian(s) % U256
  }
}
