/**
 * The three canonical string operations of the decoder and one step of the
 * rules loop (formats.go:180-193). A step that would make the Go code panic
 * (an index past the end) is outside `Applicable`.
 */
module Transform {
  import opened Utils

  /** The operations named in decodeTransformationList (formats.go:21-25). */
  datatype Op = Reverse | Slice | Swap

  /**
   * Whether the step runs without a runtime panic: `signature[index:]` needs
   * index <= len, and the swap reads `runes[0]` and writes `runes[index]`,
   * so it needs index < len (which also rules out the empty signature).
   */
  predicate Applicable(op: Op, index: nat, s: string)
  {
    match op
    case Reverse => true
    case Slice => index <= |s|
    case Swap => index < |s|
  }

  /** `s` with its first character and the character at `index` exchanged. */
  function Swapped(s: string, index: nat): (r: string)
    requires index < |s|
  {
    s[0 := s[index]][index := s[0]]
  }

  /** The effect of one rule on the signature. */
  function Apply(op: Op, index: nat, s: string): (r: string)
    requires Applicable(op, index, s)
  {
    match op
    case Reverse => Reversed(s)
    case Slice => s[index..]
    case Swap => Swapped(s, index)
  }

  /**
   * formats.go:187-192: copy to a rune array, save runes[0], overwrite it with
   * runes[index % len] and store the saved rune at runes[index].
   */
  method SwapRunes(s: string, index: nat) returns (r: string)
    requires index < |s|
    ensures |r| == |s|
    ensures r[0] == s[index] && r[index] == s[0]
    ensures forall i :: 0 < i < |s| && i != index ==> r[i] == s[i]
    ensures r == Swapped(s, index)
  {
    var runes := new char[|s|](i requires 0 <= i < |s| => s[i]);
    var c := runes[0];
    runes[0] := runes[index % runes.Length];
    runes[index] := c;
    r := runes[..];
  }

  /** Slice(n) drops exactly the first n characters. */
  lemma SliceDrops(s: string, n: nat)
    requires n <= |s|
    ensures |Apply(Slice, n, s)| == |s| - n
    ensures forall i :: 0 <= i < |s| - n ==> Apply(Slice, n, s)[i] == s[n + i]
  {
  }

  /** Slice(n) followed by Slice(m) is Slice(n + m). */
  lemma SliceSlice(s: string, n: nat, m: nat)
    requires n + m <= |s|
    ensures Applicable(Slice, m, Apply(Slice, n, s))
    ensures Apply(Slice, m, Apply(Slice, n, s)) == Apply(Slice, n + m, s)
  {
  }

  /** Swap(n) exchanges positions 0 and n and keeps the length and every other position. */
  lemma SwapExchanges(s: string, n: nat)
    requires n < |s|
    ensures |Apply(Swap, n, s)| == |s|
    ensures Apply(Swap, n, s)[0] == s[n] && Apply(Swap, n, s)[n] == s[0]
    ensures forall i :: 0 < i < |s| && i != n ==> Apply(Swap, n, s)[i] == s[i]
  {
  }

  /** Swap(n) applied twice restores the signature. */
  lemma SwapInvolutive(s: string, n: nat)
    requires n < |s|
    ensures Applicable(Swap, n, Apply(Swap, n, s))
    ensures Apply(Swap, n, Apply(Swap, n, s)) == s
  {
    var t := Apply(Swap, n, s);
    assert Apply(Swap, n, t) == s by {
      forall i | 0 <= i < |s| ensures Apply(Swap, n, t)[i] == s[i] { }
    }
  }

  /** Reverse applied twice restores the signature; the operand is ignored. */
  lemma ReverseInvolutive(s: string, n: nat, m: nat)
    ensures |Apply(Reverse, n, s)| == |s|
    ensures Apply(Reverse, m, Apply(Reverse, n, s)) == s
  {
    ReversedAt(s);
    ReversedInvolutive(s);
  }
}
