/**
 * The texts handed to Plan.Encode: each is checked, then its segment is
 * written to one bit buffer, in order. The first text that fails its check
 * stops the encoding with an error.
 */
module Texts {
  import opened Arith
  import opened Tables
  import opened BitWriter
  import opened Encodings

  /**
   * A text in one of the four modes. Num, Alpha and Str hold the bytes of
   * the text; a Kanji text is given by its conversion to Shift-JIS (a
   * foreign codec): whether the conversion succeeded and the bytes it gave.
   */
  datatype Encoding = Num(s: seq<Byte>) | Alpha(s: seq<Byte>) | Str(s: seq<Byte>) | Kanji(converted: bool, k: seq<Byte>)

  /** The text is no longer than a machine word can count, as every Go string is. */
  predicate Sized(t: Encoding)
  {
    match t
    case Kanji(_, k) => |k| < 0x1_0000_0000_0000_0000
    case _ => |t.s| < 0x1_0000_0000_0000_0000
  }

  /** The check of each mode: digits, the 45-character alphabet, anything, a Shift-JIS conversion. */
  predicate Checks(t: Encoding)
  {
    match t
    case Num(s) => AllDigits(s)
    case Alpha(s) => AllAlpha(s)
    case Str(s) => StringCheck(s)
    case Kanji(converted, _) => converted
  }

  /** Encoding.Check: the error of a text, as a flag. */
  method Check(t: Encoding) returns (ok: bool)
    ensures ok <==> Checks(t)
  {
    match t
    case Num(s) => ok := NumCheck(s);
    case Alpha(s) => ok := AlphaCheck(s);
    case Str(s) => ok := StringCheck(s);
    case Kanji(converted, _) => ok := converted;
  }

  /** The segment a text writes for version v. */
  function TextStream(t: Encoding, v: int): seq<bool>
  {
    match t
    case Num(s) => NumStream(s, v)
    case Alpha(s) => AlphaStream(s, v)
    case Str(s) => StringStream(s, v)
    case Kanji(converted, k) => if KanjiGuardAsWritten(converted, k) == Proceed then KanjiStream(k, v) else []
  }

  /** The number of bits a text writes for version v, whatever its characters. */
  function TextBits(t: Encoding, v: int): (n: nat)
    ensures n == |TextStream(t, v)|
  {
    match t
    case Num(s) => NumBits(s, v)
    case Alpha(s) => AlphaBits(s, v)
    case Str(s) => StringBits(s, v)
    case Kanji(converted, k) => if KanjiGuardAsWritten(converted, k) == Proceed then |KanjiStream(k, v)| else 0
  }

  /**
   * The bits written are the segment: the characters are valid for the mode
   * and their count fits the count field (a longer count spills into the
   * bits already written).
   */
  predicate Fits(t: Encoding, v: int)
  {
    match t
    case Num(s) => NumFits(s, v)
    case Alpha(s) => AlphaFits(s, v)
    case Str(s) => |s| < Pow2(stringLen[SizeClass(v)])
    case Kanji(converted, k) =>
      KanjiGuardAsWritten(converted, k) == Proceed ==> AllKanji(k) && |k| / 2 < Pow2(kanjiLen[SizeClass(v)])
  }

  /** Encoding.Encode: appends the text's segment for version v. */
  method EncodeText(t: Encoding, b: Bits, v: int)
    requires b.Valid() && Sized(t)
    modifies b
    ensures b.Valid() && b.nbit == old(b.nbit) + TextBits(t, v)
    ensures Fits(t, v) ==> b.Contents() == old(b.Contents()) + TextStream(t, v)
  {
    match t
    case Num(s) => NumEncode(s, b, v);
    case Alpha(s) => AlphaEncode(s, b, v);
    case Str(s) => StringEncode(s, b, v);
    case Kanji(converted, k) =>
      KanjiEncode(converted, k, b, v);
      assert old(b.Contents()) + [] == old(b.Contents());
  }

  /** The index of the first text that fails its check, or the number of texts. */
  function FirstBad(ts: seq<Encoding>): (i: nat)
    ensures i <= |ts|
    ensures forall j :: 0 <= j < i ==> Checks(ts[j])
    ensures i < |ts| ==> !Checks(ts[i])
  {
    if |ts| == 0 then 0
    else if !Checks(ts[0]) then 0
    else 1 + FirstBad(ts[1..])
  }

  /** A text that passes its check before the first bad one moves the first bad one past it. */
  lemma Passes(ts: seq<Encoding>, i: int)
    requires 0 <= i <= FirstBad(ts) && i < |ts| && Checks(ts[i])
    ensures i + 1 <= FirstBad(ts)
  {
  }

  /** The segments of the texts, one after another. */
  function Streams(ts: seq<Encoding>, v: int): seq<bool>
  {
    if |ts| == 0 then [] else Streams(ts[..|ts| - 1], v) + TextStream(ts[|ts| - 1], v)
  }

  /** The number of bits the texts write together. */
  function TotalBits(ts: seq<Encoding>, v: int): (n: nat)
    ensures n == |Streams(ts, v)|
  {
    if |ts| == 0 then 0 else TotalBits(ts[..|ts| - 1], v) + TextBits(ts[|ts| - 1], v)
  }

  /** Every text's segment is written as it is. */
  predicate AllFit(ts: seq<Encoding>, v: int)
  {
    forall i :: 0 <= i < |ts| ==> Fits(ts[i], v)
  }

  /**
   * The text loop of Plan.Encode: the first text that fails its check stops
   * it (bad is its index); otherwise every segment is written in order.
   */
  method WriteTexts(ts: seq<Encoding>, v: int) returns (b: Bits, bad: nat)
    requires forall i :: 0 <= i < |ts| ==> Sized(ts[i])
    ensures fresh(b) && b.Valid()
    ensures bad == FirstBad(ts)
    ensures bad == |ts| ==> b.nbit == TotalBits(ts, v)
    ensures bad == |ts| && AllFit(ts, v) ==> b.Contents() == Streams(ts, v)
  {
    b := new Bits();
    for i := 0 to |ts|
      invariant fresh(b) && b.Valid()
      invariant i <= FirstBad(ts)
      invariant b.nbit == TotalBits(ts[..i], v)
      invariant AllFit(ts[..i], v) ==> b.Contents() == Streams(ts[..i], v)
    {
      var ok := Check(ts[i]);
      if !ok {
        return b, i;
      }
      Passes(ts, i);
      EncodeText(ts[i], b, v);
      PrefixNext(ts, i, v);
    }
    assert ts[..|ts|] == ts;
    bad := |ts|;
  }

  /** The first i + 1 texts write what the first i write, then text i. */
  lemma PrefixNext(ts: seq<Encoding>, i: int, v: int)
    requires 0 <= i < |ts|
    ensures TotalBits(ts[..i + 1], v) == TotalBits(ts[..i], v) + TextBits(ts[i], v)
    ensures Streams(ts[..i + 1], v) == Streams(ts[..i], v) + TextStream(ts[i], v)
    ensures AllFit(ts[..i + 1], v) <==> AllFit(ts[..i], v) && Fits(ts[i], v)
  {
    var s := ts[..i + 1];
    assert s[..|s| - 1] == ts[..i];
    assert s[|s| - 1] == ts[i];
    assert AllFit(s, v) <==> AllFit(ts[..i], v) && Fits(ts[i], v) by {
      if AllFit(ts[..i], v) && Fits(ts[i], v) {
        forall j | 0 <= j < |s|
          ensures Fits(s[j], v)
        {
          if j < i {
            assert s[j] == ts[..i][j];
          }
        }
      }
      if AllFit(s, v) {
        forall j | 0 <= j < i
          ensures Fits(ts[..i][j], v)
        {
          assert ts[..i][j] == s[j];
        }
      }
    }
  }
}
