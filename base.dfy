/** Values shared by the whole model: bytes (Go strings are byte strings and
    `len` counts bytes; the bot's fixed replies are their UTF-8 bytes), an
    optional value for Go's nil pointers, and the digits `%d` prints. */
module Base {

  newtype byte = b: int | 0 <= b < 256

  /** A Go pointer that may be nil. */
  datatype Option<T> = None | Some(value: T)

  const Newline: byte := 10
  const Space: byte := 32
  const Slash: byte := 47

  function Digit(d: int): (r: byte)
    requires 0 <= d < 10
  {
    (48 + d) as byte
  }

  ghost predicate IsDigits(s: seq<byte>) {
    forall i :: 0 <= i < |s| ==> 48 <= s[i] < 58
  }

  /** The number a string of ASCII digits reads as, most significant first. */
  ghost function DigitsValue(s: seq<byte>): nat
    requires IsDigits(s)
    decreases |s|
  {
    if s == [] then 0 else 10 * DigitsValue(s[..|s| - 1]) + (s[|s| - 1] as int - 48)
  }

  /** What `fmt.Sprintf("%d", n)` produces for a non-negative `n`: the
      digits that read back as `n`, with no leading zero. */
  function Decimal(n: nat): (r: seq<byte>)
    ensures 1 <= |r|
    ensures IsDigits(r)
    ensures DigitsValue(r) == n
    ensures |r| > 1 ==> r[0] != 48
    decreases n
  {
    if n < 10 then [Digit(n)]
    else
      var init := Decimal(n / 10);
      var r := init + [Digit(n % 10)];
      assert r[..|r| - 1] == init;
      r
  }
}
