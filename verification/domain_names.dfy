/**
 Reference definitions for domain names as the decoder sees them: the
 uncompressed wire form (length-prefixed labels ended by a zero byte, section
 3.1 of RFC 1035) and the dotted, lower-cased text the decoder produces.
 */
module DomainNames {

  /** The `.` placed between labels. */
  const Dot: bv8 := 0x2E

  predicate IsUpper(c: bv8)
  {
    0x41 <= c <= 0x5A
  }

  predicate NoUpper(s: seq<bv8>)
  {
    forall i :: 0 <= i < |s| ==> !IsUpper(s[i])
  }

  lemma NoUpperAppend(a: seq<bv8>, b: seq<bv8>)
    requires NoUpper(a) && NoUpper(b)
    ensures NoUpper(a + b)
  {}

  /** ASCII lower-casing of one byte; every other byte is kept. */
  function ToLower(c: bv8): (r: bv8)
    ensures !IsUpper(r)
    ensures IsUpper(c) <==> r != c
    ensures r as int - c as int in {0, 0x20}
  {
    if IsUpper(c) then c + 0x20 else c
  }

  /** A label with each byte lower-cased. */
  function LowerLabel(l: seq<bv8>): seq<bv8>
  {
    seq(|l|, i requires 0 <= i < |l| => ToLower(l[i]))
  }

  /** A lower-cased label has the same length and no upper-case byte. */
  lemma LowerLabelNoUpper(l: seq<bv8>)
    ensures |LowerLabel(l)| == |l| && NoUpper(LowerLabel(l))
  {}

  /** A label with no upper-case byte is its own lower-case form. */
  lemma LowerLabelKeeps(l: seq<bv8>)
    requires NoUpper(l)
    ensures LowerLabel(l) == l
  {}

  function LowerLabels(ls: seq<seq<bv8>>): (r: seq<seq<bv8>>)
    ensures |r| == |ls|
  {
    seq(|ls|, i requires 0 <= i < |ls| => LowerLabel(ls[i]))
  }

  /**
   A label the decoder reads as an ordinary label: not empty (a zero length
   ends the name) and with a length byte whose two top bits are not both set
   (that would be a pointer). Lengths 64 to 191 are accepted as the decoder
   accepts them.
   */
  predicate ValidLabel(l: seq<bv8>)
  {
    0 < |l| < 0xC0
  }

  predicate ValidLabels(ls: seq<seq<bv8>>)
  {
    forall i :: 0 <= i < |ls| ==> ValidLabel(ls[i])
  }

  lemma ValidLabelsTail(ls: seq<seq<bv8>>)
    requires ValidLabels(ls) && |ls| > 0
    ensures ValidLabels(ls[1..])
  {
    forall i | 0 <= i < |ls| - 1
      ensures ValidLabel(ls[1..][i])
    {
      assert ls[1..][i] == ls[i + 1];
    }
  }

  /**
   The byte whose value is `n`, built one increment at a time. This stands in
   for the cast `n as bv8`: the solver handles the cast's range proof poorly
   once the whole project is in scope, and the increments keep the encoder's
   proofs cheap.
   */
  function ByteOf(n: nat): (b: bv8)
    requires n < 256
    ensures b as int == n
  {
    if n == 0 then 0
    else
      var below := ByteOf(n - 1);
      Increment(below);
      below + 1
  }

  lemma Increment(x: bv8)
    requires x < 255
    ensures (x + 1) as int == x as int + 1
  {}

  /** Each label preceded by its one-byte length, with no terminator. */
  function EncodeLabels(ls: seq<seq<bv8>>): seq<bv8>
    requires ValidLabels(ls)
  {
    if |ls| == 0 then []
    else [ByteOf(|ls[0]|)] + ls[0] + EncodeLabels(ls[1..])
  }

  /** The uncompressed wire form of a name: its labels and a zero byte. */
  function EncodeName(ls: seq<seq<bv8>>): seq<bv8>
    requires ValidLabels(ls)
  {
    EncodeLabels(ls) + [0]
  }

  /** The labels separated by single dots, without a leading or trailing dot. */
  function Join(ls: seq<seq<bv8>>): seq<bv8>
  {
    if |ls| == 0 then []
    else if |ls| == 1 then ls[0]
    else Join(ls[..|ls| - 1]) + [Dot] + ls[|ls| - 1]
  }

  /** The text the decoder yields for a name with these labels. */
  function Dotted(ls: seq<seq<bv8>>): seq<bv8>
  {
    Join(LowerLabels(ls))
  }

  /** A dotted, lower-cased name never holds an upper-case byte. */
  lemma {:induction false} JoinKeepsNoUpper(ls: seq<seq<bv8>>)
    requires forall i :: 0 <= i < |ls| ==> NoUpper(ls[i])
    ensures NoUpper(Join(ls))
  {
    if |ls| > 1 {
      JoinKeepsNoUpper(ls[..|ls| - 1]);
    }
  }

  /** Adding a label on the right adds a dot only when labels came before. */
  lemma JoinSnoc(ls: seq<seq<bv8>>, l: seq<bv8>)
    ensures Join(ls + [l]) == if |ls| == 0 then l else Join(ls) + [Dot] + l
  {
    assert (ls + [l])[..|ls|] == ls;
  }

  lemma LowerLabelsSnoc(ls: seq<seq<bv8>>, l: seq<bv8>)
    ensures LowerLabels(ls + [l]) == LowerLabels(ls) + [LowerLabel(l)]
  {
  }

  /** Reading one more label extends the dotted text the way the decoder does. */
  lemma DottedSnoc(ls: seq<seq<bv8>>, l: seq<bv8>)
    ensures Dotted(ls + [l]) == if |ls| == 0 then LowerLabel(l) else Dotted(ls) + [Dot] + LowerLabel(l)
  {
    LowerLabelsSnoc(ls, l);
    JoinSnoc(LowerLabels(ls), LowerLabel(l));
  }

  /** The decoder's output is lower-case. */
  lemma DottedNoUpper(ls: seq<seq<bv8>>)
    ensures NoUpper(Dotted(ls))
  {
    JoinKeepsNoUpper(LowerLabels(ls));
  }
}
