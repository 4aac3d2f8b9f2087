/** Text as the source holds it: Unicode code points, lone surrogates included. */
module Texts {

  newtype CodePoint = c: int | 0 <= c <= 0x10FFFF
  type Text = seq<CodePoint>

  function Chars(s: string): (t: Text)
    ensures |t| == |s|
  {
    seq(|s|, i requires 0 <= i < |s| => s[i] as CodePoint)
  }

  /** `separator.join(parts)`. */
  function Join(separator: Text, parts: seq<Text>): Text {
    if parts == [] then []
    else if |parts| == 1 then parts[0]
    else parts[0] + separator + Join(separator, parts[1..])
  }

  lemma Regroup(a: Text, b: Text, c: Text, d: Text)
    ensures a + b + c + d == a + (b + (c + d))
  {
  }
}
