/** Types shared by every component: the ESP-IDF error codes the core returns,
    a nullable-pointer stand-in, and the 16-bit PCM sample. */
module Esp {

  /** The `esp_err_t` values the core returns. `Code` gives the numeric value. */
  datatype EspErr = EspOk | EspFail | ErrNoMem | ErrInvalidArg | ErrInvalidState | ErrTimeout
  {
    function Code(): int
    {
      match this
      case EspOk => 0
      case EspFail => -1
      case ErrNoMem => 0x101
      case ErrInvalidArg => 0x102
      case ErrInvalidState => 0x103
      case ErrTimeout => 0x107
    }
  }

  /** A C pointer that may be NULL. */
  datatype Option<+T> = None | Some(value: T)

  /** `int16_t`: one PCM sample. */
  newtype int16 = x: int | -0x8000 <= x < 0x8000

  /** A C string: the characters before the first NUL. */
  function CString(s: seq<char>): (r: seq<char>)
    ensures |r| <= |s| && r == s[..|r|]
    ensures '\0' !in r
    ensures |r| < |s| ==> s[|r|] == '\0'
  {
    if s == [] || s[0] == '\0' then [] else [s[0]] + CString(s[1..])
  }

  /** `strstr(s, pat) != NULL` for NUL-free strings. */
  predicate Contains(s: seq<char>, pat: seq<char>)
  {
    exists i :: 0 <= i <= |s| - |pat| && OccursAt(s, pat, i)
  }

  predicate OccursAt(s: seq<char>, pat: seq<char>, i: int)
    requires 0 <= i <= |s| - |pat|
  {
    s[i..i + |pat|] == pat
  }

  /** A NUL-free prefix followed by NULs reads back as that prefix. */
  lemma {:induction false} CStringOfPadded(a: seq<char>, n: nat)
    requires n < |a| && '\0' !in a[..n] && forall j :: n <= j < |a| ==> a[j] == '\0'
    ensures CString(a) == a[..n]
    decreases n
  {
    if n > 0 {
      assert a[0] == a[..n][0];
      assert a[1..][..n - 1] == a[..n][1..];
      CStringOfPadded(a[1..], n - 1);
    }
  }
}
