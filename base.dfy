/** Vocabulary shared by both firmware crates: bytes, the Option/Result
    wrappers, esp-hal's GPIO `Level`, raw sensor readings and heapless'
    fixed-capacity strings. */
module Base {

  newtype uint8 = x: int | 0 <= x < 256

  datatype Option<T> = None | Some(value: T)

  datatype Result<T, E> = Ok(value: T) | Err(error: E)

  /** True if every character of `s` is 7-bit ASCII. */
  predicate IsAscii(s: string) {
    forall i :: 0 <= i < |s| ==> s[i] as int < 128
  }

  /** The bytes of an ASCII text, as `str::as_bytes` / a `b"..."` literal gives them. */
  function Ascii(s: string): (b: seq<uint8>)
    requires IsAscii(s)
    ensures |b| == |s|
  {
    seq(|s|, i requires 0 <= i < |s| => s[i] as int as uint8)
  }

  /** esp-hal's GPIO output level. */
  datatype Level = Low | High {
    /** `!level` */
    function Not(): Level {
      if this == High then Low else High
    }
    /** `bool::from(level)`: High reads as true. */
    function ToBool(): bool {
      this == High
    }
  }

  /** An `f32` sensor reading, kept as its raw IEEE-754 bits and never interpreted. */
  datatype Reading = Reading(bits: bv32)

  /** heapless' `CapacityError` (and `fmt::Error` for an overflowing `format!`). */
  datatype CapacityError = CapacityError

  /** The number of bytes UTF-8 encodes the character `c` in. */
  function Utf8Width(c: char): (n: nat)
    ensures 1 <= n <= 4
    ensures n == 1 <==> c as int < 0x80
  {
    if c as int < 0x80 then 1
    else if c as int < 0x800 then 2
    else if c as int < 0x1_0000 then 3
    else 4
  }

  /** The length in bytes of the UTF-8 encoding of `s`, which is what a
      heapless string's capacity counts. */
  function Utf8Length(s: string): (n: nat)
    ensures |s| <= n <= 4 * |s|
  {
    if s == [] then 0 else Utf8Width(s[0]) + Utf8Length(s[1..])
  }

  /** An ASCII text takes one byte per character. */
  lemma {:induction false} AsciiUtf8Length(s: string)
    requires IsAscii(s)
    ensures Utf8Length(s) == |s|
  {
    if s != [] {
      assert forall i :: 0 <= i < |s[1..]| ==> s[1..][i] == s[i + 1];
      AsciiUtf8Length(s[1..]);
    }
  }

  /** A heapless `String<capacity>` built from `s`: it fails exactly when
      the UTF-8 encoding of `s` is longer than `capacity` bytes. */
  function Bounded(s: string, capacity: nat): (r: Result<string, CapacityError>)
    ensures r.Ok? <==> Utf8Length(s) <= capacity
    ensures r.Ok? ==> r.value == s
  {
    if Utf8Length(s) <= capacity then Ok(s) else Err(CapacityError)
  }
}
