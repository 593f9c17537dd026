/**
 * reverseString from utils.go. Go strings are UTF-8 bytes: `len(s)` counts
 * bytes while `range s` visits characters, so the function allocates one slot
 * per byte, fills it from the back one character at a time and returns the
 * filled tail.
 */
module Utils {

  /** Number of bytes in the UTF-8 encoding of `c`. */
  function Utf8Size(c: char): (n: nat)
    ensures 1 <= n <= 4
    ensures n == 1 <==> c as int < 0x80
  {
    if c as int < 0x80 then 1
    else if c as int < 0x800 then 2
    else if c as int < 0x1_0000 then 3
    else 4
  }

  /** Go's `len(s)`: the number of bytes of the UTF-8 encoding of `s`. */
  function ByteLen(s: string): (n: nat)
    ensures n >= |s|
    ensures s == [] ==> n == 0
  {
    if s == [] then 0 else Utf8Size(s[0]) + ByteLen(s[1..])
  }

  /** One byte per character. */
  predicate IsAscii(s: string) { forall i :: 0 <= i < |s| ==> s[i] as int < 0x80 }

  /** For ASCII text Go's byte length and character count agree. */
  lemma {:induction false} AsciiByteLen(s: string)
    requires IsAscii(s)
    ensures ByteLen(s) == |s|
  {
    if s != [] {
      assert IsAscii(s[1..]) by {
        forall i | 0 <= i < |s| - 1 ensures s[1..][i] as int < 0x80 { assert s[1..][i] == s[i + 1]; }
      }
      AsciiByteLen(s[1..]);
    }
  }

  /** The characters of `s` in reverse order. */
  function Reversed(s: string): (r: string)
  {
    if s == [] then [] else Reversed(s[1..]) + [s[0]]
  }

  /** Position i of the reversal holds the i-th character from the end. */
  lemma {:induction false} ReversedAt(s: string)
    ensures |Reversed(s)| == |s|
    ensures forall i :: 0 <= i < |s| ==> Reversed(s)[i] == s[|s| - 1 - i]
  {
    if s != [] {
      ReversedAt(s[1..]);
    }
  }

  /** Reversing twice gives back the original. */
  lemma ReversedInvolutive(s: string)
    ensures Reversed(Reversed(s)) == s
  {
    ReversedAt(s);
    ReversedAt(Reversed(s));
  }

  /**
   * utils.go:8-18. `n` starts at the byte length and drops by one per
   * character, so it never goes below ByteLen(s) - |s| >= 0 and every write
   * is in bounds; the filled tail runes[n..] is the reversal.
   */
  method ReverseString(s: string) returns (r: string)
    ensures r == Reversed(s)
  {
    var n := ByteLen(s);
    var runes := new char[n];
    for i := 0 to |s|
      invariant n == ByteLen(s) - i
      invariant forall k :: n <= k < ByteLen(s) ==> runes[k] == s[ByteLen(s) - 1 - k]
    {
      n := n - 1;
      runes[n] := s[i];
    }
    r := runes[n..];
    ReversedAt(s);
    assert |r| == |s|;
    assert forall j :: 0 <= j < |s| ==> r[j] == runes[n + j];
  }
}
