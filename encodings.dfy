/**
 * The data segments of the QR encoder: numeric, alphanumeric and 8-bit byte
 * mode (sections 7.4.3, 7.4.4 and 7.4.5 of ISO/IEC 18004), and the packing of
 * Shift-JIS pairs of Kanji mode. Each mode has a character check, the number
 * of bits its segment takes, and an encoder that writes a 4-bit mode
 * indicator, a character count whose width depends on the version's size
 * class, and the packed characters.
 *
 * Texts are byte strings. The source ranges over runes in its checks; since
 * every character a check accepts is ASCII and every byte of a multi-byte or
 * malformed UTF-8 sequence is at least 0x80, checking the bytes accepts and
 * rejects the same texts.
 */
module Encodings {
  import opened Arith
  import opened Tables
  import opened BitWriter

  /** Go's conversion of an int to uint: the value modulo 2^64. */
  function Uint64(x: int): (r: Uint)
    ensures 0 <= x < 0x1_0000_0000_0000_0000 ==> r == x
  {
    x % 0x1_0000_0000_0000_0000
  }

  /** A bit string written as a mode indicator, a count and a payload. */
  function Segment(mode: nat, count: nat, width: nat, payload: seq<bool>): (r: seq<bool>)
    ensures |r| == 4 + width + |payload|
    ensures r[..4] == ValueBits(mode, 4) && r[4..4 + width] == ValueBits(count, width)
    ensures r[4 + width..] == payload
  {
    ValueBits(mode, 4) + ValueBits(count, width) + payload
  }

  /**
   * Bits.Write as the segment encoders use it: the buffer grows by count
   * bits, and a value that fits them is appended.
   */
  method WriteField(b: Bits, v: Uint, count: nat)
    requires b.Valid()
    modifies b
    ensures b.Valid() && b.nbit == old(b.nbit) + count
    ensures v < Pow2(count) ==> b.Contents() == old(b.Contents()) + ValueBits(v, count)
  {
    b.Write(v, count);
  }

  /**
   * The head of every segment: the 4-bit mode indicator and the character
   * count in the width of the version's size class. A count that fits its
   * width is written exactly.
   */
  method WriteHeader(b: Bits, mode: nat, count: nat, width: nat)
    requires b.Valid() && mode < 16 && count < 0x1_0000_0000_0000_0000
    modifies b
    ensures b.Valid() && b.nbit == old(b.nbit) + 4 + width
    ensures count < Pow2(width) ==> b.Contents() == old(b.Contents()) + ValueBits(mode, 4) + ValueBits(count, width)
  {
    Pow2Table();
    WriteField(b, mode, 4);
    WriteField(b, count, width);
  }

  /** A header written after c0, and a payload after it, make the segment. */
  lemma SegmentJoin(c0: seq<bool>, c1: seq<bool>, c2: seq<bool>, mode: nat, count: nat, width: nat, payload: seq<bool>)
    requires c1 == c0 + ValueBits(mode, 4) + ValueBits(count, width)
    requires c2 == c1 + payload
    ensures c2 == c0 + Segment(mode, count, width, payload)
  {
  }

  // ---------------------------------------------------------------- numeric

  predicate IsDigit(c: Byte)
  {
    '0' as int <= c <= '9' as int
  }

  predicate AllDigits(s: seq<Byte>)
  {
    forall i :: 0 <= i < |s| ==> IsDigit(s[i])
  }

  /** The numeric check: every character is a decimal digit. */
  method NumCheck(s: seq<Byte>) returns (ok: bool)
    ensures ok <==> AllDigits(s)
  {
    var i := 0;
    while i < |s|
      invariant 0 <= i <= |s|
      invariant forall j :: 0 <= j < i ==> IsDigit(s[j])
    {
      if s[i] < '0' as int || '9' as int < s[i] {
        return false;
      }
      i := i + 1;
    }
    return true;
  }

  /** The value of a digit character: Go's byte subtraction c - '0', which wraps. */
  function Digit(c: Byte): (d: Byte)
    ensures IsDigit(c) ==> d == c - '0' as int && d < 10
  {
    (c - '0' as int) % 256
  }

  /** The group of three digits starting at i, as a number. */
  function Triple(s: seq<Byte>, i: int): nat
    requires 0 <= i && i + 3 <= |s|
  {
    Digit(s[i]) * 100 + Digit(s[i + 1]) * 10 + Digit(s[i + 2])
  }

  /** The first q groups of three digits, 10 bits each. */
  function NumGroups(s: seq<Byte>, q: nat): (r: seq<bool>)
    requires 3 * q <= |s|
    ensures |r| == 10 * q
  {
    if q == 0 then [] else NumGroups(s, q - 1) + ValueBits(Triple(s, 3 * (q - 1)), 10)
  }

  /** The one or two digits left after the groups of three: 4 or 7 bits. */
  function NumTail(s: seq<Byte>): (r: seq<bool>)
    ensures |r| == (if |s| % 3 == 1 then 4 else if |s| % 3 == 2 then 7 else 0)
  {
    var i := 3 * (|s| / 3);
    if |s| - i == 1 then ValueBits(Digit(s[i]), 4)
    else if |s| - i == 2 then ValueBits(Digit(s[i]) * 10 + Digit(s[i + 1]), 7)
    else []
  }

  /** The numeric segment of s for version v: mode 1, the count, the groups. */
  function NumStream(s: seq<Byte>, v: int): seq<bool>
  {
    Segment(1, |s|, numLen[SizeClass(v)], NumGroups(s, |s| / 3) + NumTail(s))
  }

  /** The number of bits of the numeric segment: 10 bits per 3 digits, rounded as the source does. */
  function NumBits(s: seq<Byte>, v: int): (n: int)
    ensures n == |NumStream(s, v)|
  {
    NumLen(|s|);
    4 + numLen[SizeClass(v)] + (10 * |s| + 2) / 3
  }

  lemma NumLen(n: nat)
    ensures 10 * (n / 3) + (if n % 3 == 1 then 4 else if n % 3 == 2 then 7 else 0) == (10 * n + 2) / 3
  {
    var q, r := n / 3, n % 3;
    assert 10 * n + 2 == 3 * (10 * q) + (10 * r + 2);
  }

  /** When the text passes the check and its length fits the count field, every field fits its width. */
  predicate NumFits(s: seq<Byte>, v: int)
  {
    AllDigits(s) && |s| < Pow2(numLen[SizeClass(v)])
  }

  /** A group of three digits is below 1000 and fits its 10 bits. */
  lemma TripleFits(s: seq<Byte>, i: int)
    requires 0 <= i && i + 3 <= |s| && IsDigit(s[i]) && IsDigit(s[i + 1]) && IsDigit(s[i + 2])
    ensures Triple(s, i) < 1000 < Pow2(10)
  {
    Pow2Table();
  }

  /**
   * Writes the numeric segment of s. The segment always takes NumBits bits;
   * when the text is valid and its length fits the count field, the bits are
   * exactly NumStream.
   */
  method NumEncode(s: seq<Byte>, b: Bits, v: int)
    requires b.Valid() && |s| < 0x1_0000_0000_0000_0000
    modifies b
    ensures b.Valid()
    ensures b.nbit == old(b.nbit) + NumBits(s, v)
    ensures NumFits(s, v) ==> b.Contents() == old(b.Contents()) + NumStream(s, v)
  {
    ghost var c0 := b.Contents();
    WriteHeader(b, 1, |s|, numLen[SizeClass(v)]);
    ghost var c1 := b.Contents();
    NumBody(s, b);
    NumLen(|s|);
    if NumFits(s, v) {
      SegmentJoin(c0, c1, b.Contents(), 1, |s|, numLen[SizeClass(v)], NumGroups(s, |s| / 3) + NumTail(s));
    }
  }

  /** The groups of three digits and the one- or two-digit tail. */
  method NumBody(s: seq<Byte>, b: Bits)
    requires b.Valid()
    modifies b
    ensures b.Valid()
    ensures b.nbit == old(b.nbit) + 10 * (|s| / 3) + |NumTail(s)|
    ensures AllDigits(s) ==> b.Contents() == old(b.Contents()) + (NumGroups(s, |s| / 3) + NumTail(s))
  {
    Pow2Table();
    ghost var c1 := b.Contents();
    ghost var n1 := b.nbit;
    var i := 0;
    ghost var q := 0;
    while i + 3 <= |s|
      invariant b.Valid()
      invariant 0 <= i <= |s| && i == 3 * q
      invariant b.nbit == n1 + 10 * q
      invariant AllDigits(s) ==> b.Contents() == c1 + NumGroups(s, q)
    {
      var w := Triple(s, i);
      ghost var before := b.Contents();
      if AllDigits(s) {
        TripleFits(s, i);
      }
      WriteField(b, w, 10);
      if AllDigits(s) {
        GroupStep(c1, before, b.Contents(), NumGroups(s, q), ValueBits(w, 10));
      }
      i := i + 3;
      q := q + 1;
    }
    assert q == |s| / 3;
    ghost var c2 := b.Contents();
    NumTailWrite(s, i, b);
    if AllDigits(s) {
      GroupStep(c1, c2, b.Contents(), NumGroups(s, q), NumTail(s));
    }
  }

  /** The one or two digits left after the groups of three, from i on. */
  method NumTailWrite(s: seq<Byte>, i: int, b: Bits)
    requires b.Valid() && i == 3 * (|s| / 3)
    modifies b
    ensures b.Valid() && b.nbit == old(b.nbit) + |NumTail(s)|
    ensures AllDigits(s) ==> b.Contents() == old(b.Contents()) + NumTail(s)
  {
    Pow2Table();
    if |s| - i == 1 {
      var w := Digit(s[i]);
      WriteField(b, w, 4);
    } else if |s| - i == 2 {
      var w := Digit(s[i]) * 10 + Digit(s[i + 1]);
      WriteField(b, w, 7);
    }
  }

  /**
   * The bits written so far, pre + groups, followed by the bits of one more
   * group, are pre followed by the longer run of groups.
   */
  lemma GroupStep(pre: seq<bool>, before: seq<bool>, after: seq<bool>, groups: seq<bool>, next: seq<bool>)
    requires before == pre + groups && after == before + next
    ensures after == pre + (groups + next)
  {
  }

  // ----------------------------------------------------------- alphanumeric

  /**
   * The 45 characters of alphanumeric mode, in the order of their values:
   * the digits, the capital letters, and nine symbols.
   */
  const alphabet: string := digits + letters + symbols
  const digits: string := "0123456789"
  const letters: string := "ABCDEFGHIJKLMNOPQRSTUVWXYZ"
  const symbols: string := " $%*+-./:"

  /**
   * The value of an alphanumeric character, computed from its code: the
   * digits are 0 to 9, the letters 10 to 35, the symbols 36 to 44, and any
   * other character gives -1.
   */
  function AlphaIndex(c: int): (r: int)
    ensures -1 <= r < 45
  {
    if '0' as int <= c <= '9' as int then c - '0' as int
    else if 'A' as int <= c <= 'Z' as int then c - 'A' as int + 10
    else if c == ' ' as int then 36
    else if c == '$' as int then 37
    else if c == '%' as int then 38
    else if c == '*' as int then 39
    else if c == '+' as int then 40
    else if c == '-' as int then 41
    else if c == '.' as int then 42
    else if c == '/' as int then 43
    else if c == ':' as int then 44
    else -1
  }

  /** strings.IndexRune(t, c) from position k on: the first position that holds c, or -1. */
  function IndexFrom(t: string, c: int, k: nat): (r: int)
    requires k <= |t|
    ensures r == -1 || k <= r < |t|
    ensures r >= 0 ==> t[r] as int == c
    decreases |t| - k
  {
    if k == |t| then -1
    else if t[k] as int == c then k
    else IndexFrom(t, c, k + 1)
  }

  /**
   * The position found from k on is the first one that holds c, and -1 is
   * found exactly when no position from k on holds it.
   */
  lemma {:induction false} IndexFromFirst(t: string, c: int, k: nat)
    requires k <= |t|
    ensures IndexFrom(t, c, k) >= 0 ==> forall j :: k <= j < IndexFrom(t, c, k) ==> t[j] as int != c
    ensures IndexFrom(t, c, k) == -1 <==> forall j :: k <= j < |t| ==> t[j] as int != c
    decreases |t| - k
  {
    if k < |t| && t[k] as int != c {
      IndexFromFirst(t, c, k + 1);
    }
  }

  lemma DigitCodes(j: int)
    requires 0 <= j < |digits|
    ensures digits[j] as int == '0' as int + j
  {
  }

  lemma LetterCodes(j: int)
    requires 0 <= j < |letters|
    ensures letters[j] as int == 'A' as int + j
  {
  }

  lemma SymbolValues(j: int)
    requires 0 <= j < |symbols|
    ensures AlphaIndex(symbols[j] as int) == 36 + j
  {
    if j == 0 {
    } else if j == 1 {
    } else if j == 2 {
    } else if j == 3 {
    } else if j == 4 {
    } else if j == 5 {
    } else if j == 6 {
    } else if j == 7 {
    } else {
    }
  }

  /** Every character of the alphabet has its own position as its value. */
  lemma AlphabetValues(j: int)
    requires 0 <= j < |alphabet|
    ensures AlphaIndex(alphabet[j] as int) == j
  {
    if j < 10 {
      DigitCodes(j);
    } else if j < 36 {
      LetterCodes(j - 10);
    } else {
      SymbolValues(j - 36);
    }
  }

  /** A character with a value sits at that position of the alphabet. */
  lemma AlphaIndexChar(c: int)
    requires AlphaIndex(c) >= 0
    ensures alphabet[AlphaIndex(c)] as int == c
  {
    var j := AlphaIndex(c);
    if j < 10 {
      DigitCodes(j);
    } else if j < 36 {
      LetterCodes(j - 10);
    } else {
      SymbolValues(j - 36);
    }
  }

  /**
   * In a text whose every character has its own position as its value, and
   * that holds every character with a value at that position, the search
   * from k on finds c exactly when its value is at least k.
   */
  lemma {:induction false} IndexFromValue(t: string, c: int, k: nat)
    requires k <= |t|
    requires forall j :: 0 <= j < |t| ==> AlphaIndex(t[j] as int) == j
    requires AlphaIndex(c) >= 0 ==> AlphaIndex(c) < |t| && t[AlphaIndex(c)] as int == c
    ensures IndexFrom(t, c, k) == if AlphaIndex(c) >= k then AlphaIndex(c) else -1
    decreases |t| - k
  {
    if k < |t| && t[k] as int != c {
      IndexFromValue(t, c, k + 1);
    }
  }

  /** The value of a character is the position strings.IndexRune finds in the alphabet. */
  lemma AlphaIndexIsIndexRune(c: int)
    ensures AlphaIndex(c) == IndexFrom(alphabet, c, 0)
  {
    forall j | 0 <= j < |alphabet|
      ensures AlphaIndex(alphabet[j] as int) == j
    {
      AlphabetValues(j);
    }
    if AlphaIndex(c) >= 0 {
      AlphaIndexChar(c);
    }
    IndexFromValue(alphabet, c, 0);
  }

  /** c is one of the 45 characters: it has a value. */
  predicate InAlphabet(c: Byte)
  {
    AlphaIndex(c) >= 0
  }

  /** A character has a value exactly when some position of the alphabet holds it. */
  lemma AlphaIndexFound(c: Byte)
    ensures InAlphabet(c) <==> exists j :: 0 <= j < |alphabet| && alphabet[j] as int == c
  {
    if AlphaIndex(c) >= 0 {
      AlphaIndexChar(c);
    }
    if exists j :: 0 <= j < |alphabet| && alphabet[j] as int == c {
      var j :| 0 <= j < |alphabet| && alphabet[j] as int == c;
      AlphabetValues(j);
    }
  }

  predicate AllAlpha(s: seq<Byte>)
  {
    forall i :: 0 <= i < |s| ==> InAlphabet(s[i])
  }

  /** The alphanumeric check: every character is one of the 45. */
  method AlphaCheck(s: seq<Byte>) returns (ok: bool)
    ensures ok <==> AllAlpha(s)
  {
    var i := 0;
    while i < |s|
      invariant 0 <= i <= |s|
      invariant forall j :: 0 <= j < i ==> InAlphabet(s[j])
    {
      if AlphaIndex(s[i]) < 0 {
        return false;
      }
      i := i + 1;
    }
    return true;
  }

  /** The pair of characters starting at i, as 45 * first + second in unsigned words. */
  function Pair(s: seq<Byte>, i: int): Uint
    requires 0 <= i && i + 2 <= |s|
  {
    Uint64(Uint64(AlphaIndex(s[i])) * 45 + Uint64(AlphaIndex(s[i + 1])))
  }

  /** The first q pairs, 11 bits each. */
  function AlphaGroups(s: seq<Byte>, q: nat): (r: seq<bool>)
    requires 2 * q <= |s|
    ensures |r| == 11 * q
  {
    if q == 0 then [] else AlphaGroups(s, q - 1) + ValueBits(Pair(s, 2 * (q - 1)), 11)
  }

  /** The character left after the pairs of an odd-length text: 6 bits. */
  function AlphaTail(s: seq<Byte>): (r: seq<bool>)
    ensures |r| == (if |s| % 2 == 1 then 6 else 0)
  {
    if |s| % 2 == 1 then ValueBits(Uint64(AlphaIndex(s[|s| - 1])), 6) else []
  }

  /** The alphanumeric segment of s for version v: mode 2, the count, the pairs. */
  function AlphaStream(s: seq<Byte>, v: int): seq<bool>
  {
    Segment(2, |s|, alphaLen[SizeClass(v)], AlphaGroups(s, |s| / 2) + AlphaTail(s))
  }

  /** The number of bits of the alphanumeric segment: 11 bits per 2 characters, rounded as the source does. */
  function AlphaBits(s: seq<Byte>, v: int): (n: int)
    ensures n == |AlphaStream(s, v)|
  {
    AlphaLen(|s|);
    4 + alphaLen[SizeClass(v)] + (11 * |s| + 1) / 2
  }

  lemma AlphaLen(n: nat)
    ensures 11 * (n / 2) + (if n % 2 == 1 then 6 else 0) == (11 * n + 1) / 2
  {
    var q, r := n / 2, n % 2;
    assert 11 * n + 1 == 2 * (11 * q) + (11 * r + 1);
  }

  predicate AlphaFits(s: seq<Byte>, v: int)
  {
    AllAlpha(s) && |s| < Pow2(alphaLen[SizeClass(v)])
  }

  /** A pair of valid characters is 45 * i + j < 2025 and fits its 11 bits. */
  lemma PairFits(s: seq<Byte>, i: int)
    requires 0 <= i && i + 2 <= |s| && InAlphabet(s[i]) && InAlphabet(s[i + 1])
    ensures Pair(s, i) == 45 * AlphaIndex(s[i]) + AlphaIndex(s[i + 1]) < 2025 < Pow2(11)
  {
    Pow2Table();
  }

  /** A valid last character is below 45 and fits its 6 bits. */
  lemma TailFits(c: Byte)
    requires InAlphabet(c)
    ensures Uint64(AlphaIndex(c)) == AlphaIndex(c) < 45 < Pow2(6)
  {
    Pow2Table();
  }

  /**
   * Writes the alphanumeric segment of s. The segment always takes AlphaBits
   * bits; when the text is valid and its length fits the count field, the
   * bits are exactly AlphaStream.
   */
  method AlphaEncode(s: seq<Byte>, b: Bits, v: int)
    requires b.Valid() && |s| < 0x1_0000_0000_0000_0000
    modifies b
    ensures b.Valid()
    ensures b.nbit == old(b.nbit) + AlphaBits(s, v)
    ensures AlphaFits(s, v) ==> b.Contents() == old(b.Contents()) + AlphaStream(s, v)
  {
    ghost var c0 := b.Contents();
    WriteHeader(b, 2, |s|, alphaLen[SizeClass(v)]);
    ghost var c1 := b.Contents();
    AlphaBody(s, b);
    AlphaLen(|s|);
    if AlphaFits(s, v) {
      SegmentJoin(c0, c1, b.Contents(), 2, |s|, alphaLen[SizeClass(v)], AlphaGroups(s, |s| / 2) + AlphaTail(s));
    }
  }

  /** The pairs of characters and the last character of an odd-length text. */
  method AlphaBody(s: seq<Byte>, b: Bits)
    requires b.Valid()
    modifies b
    ensures b.Valid()
    ensures b.nbit == old(b.nbit) + 11 * (|s| / 2) + |AlphaTail(s)|
    ensures AllAlpha(s) ==> b.Contents() == old(b.Contents()) + (AlphaGroups(s, |s| / 2) + AlphaTail(s))
  {
    ghost var c1 := b.Contents();
    ghost var n1 := b.nbit;
    var i := 0;
    ghost var q := 0;
    while i + 2 <= |s|
      invariant b.Valid()
      invariant 0 <= i <= |s| && i == 2 * q
      invariant b.nbit == n1 + 11 * q
      invariant AllAlpha(s) ==> b.Contents() == c1 + AlphaGroups(s, q)
    {
      ghost var before := b.Contents();
      PairWrite(s, i, b);
      if AllAlpha(s) {
        GroupStep(c1, before, b.Contents(), AlphaGroups(s, q), ValueBits(Pair(s, i), 11));
      }
      i := i + 2;
      q := q + 1;
    }
    assert q == |s| / 2;
    ghost var c2 := b.Contents();
    AlphaTailWrite(s, i, b);
    if AllAlpha(s) {
      GroupStep(c1, c2, b.Contents(), AlphaGroups(s, q), AlphaTail(s));
    }
  }

  /** One pair of characters, from i on, in 11 bits. */
  method PairWrite(s: seq<Byte>, i: int, b: Bits)
    requires b.Valid() && 0 <= i && i + 2 <= |s|
    modifies b
    ensures b.Valid() && b.nbit == old(b.nbit) + 11
    ensures AllAlpha(s) ==> b.Contents() == old(b.Contents()) + ValueBits(Pair(s, i), 11)
  {
    var w := Uint64(AlphaIndex(s[i])) * 45 + Uint64(AlphaIndex(s[i + 1]));
    if AllAlpha(s) {
      PairFits(s, i);
    }
    WriteField(b, Uint64(w), 11);
  }

  /** The character left after the pairs, from i on. */
  method AlphaTailWrite(s: seq<Byte>, i: int, b: Bits)
    requires b.Valid() && i == 2 * (|s| / 2)
    modifies b
    ensures b.Valid() && b.nbit == old(b.nbit) + |AlphaTail(s)|
    ensures AllAlpha(s) ==> b.Contents() == old(b.Contents()) + AlphaTail(s)
  {
    if i < |s| {
      var w := Uint64(AlphaIndex(s[i]));
      if AllAlpha(s) {
        TailFits(s[i]);
      }
      WriteField(b, w, 6);
    }
  }

  // ------------------------------------------------------------- 8-bit byte

  /** The 8-bit check accepts every text. */
  function StringCheck(s: seq<Byte>): (ok: bool)
    ensures ok
  {
    true
  }

  /** The first i bytes, 8 bits each. */
  function ByteGroups(s: seq<Byte>, i: nat): (r: seq<bool>)
    requires i <= |s|
    ensures |r| == 8 * i
  {
    if i == 0 then [] else ByteGroups(s, i - 1) + ValueBits(s[i - 1], 8)
  }

  /** The byte segment of s for version v: mode 4, the count, the bytes. */
  function StringStream(s: seq<Byte>, v: int): seq<bool>
  {
    Segment(4, |s|, stringLen[SizeClass(v)], ByteGroups(s, |s|))
  }

  function StringBits(s: seq<Byte>, v: int): (n: int)
    ensures n == |StringStream(s, v)|
  {
    4 + stringLen[SizeClass(v)] + 8 * |s|
  }

  /** The payload of the byte segment is the text's own bits, most significant first. */
  lemma {:induction false} ByteGroupsAreBits(s: seq<Byte>, i: nat)
    requires i <= |s|
    ensures ByteGroups(s, i) == BitsOf(s, 8 * i)
  {
    if i > 0 {
      ByteGroupsAreBits(s, i - 1);
      var r := BitsOf(s, 8 * i);
      var g := ByteGroups(s, i);
      assert g == ByteGroups(s, i - 1) + ValueBits(s[i - 1], 8);
      forall t | 0 <= t < 8 * i
        ensures g[t] == r[t]
      {
        if t >= 8 * (i - 1) {
          var j := t - 8 * (i - 1);
          DivMod8(i - 1, j);
          assert g[t] == ValueBits(s[i - 1], 8)[j];
        } else {
          assert g[t] == BitsOf(s, 8 * (i - 1))[t];
        }
      }
    }
  }

  /**
   * Writes the byte segment of s. The segment always takes StringBits bits;
   * when the length fits the count field, the bits are exactly StringStream.
   */
  method StringEncode(s: seq<Byte>, b: Bits, v: int)
    requires b.Valid() && |s| < 0x1_0000_0000_0000_0000
    modifies b
    ensures b.Valid()
    ensures b.nbit == old(b.nbit) + StringBits(s, v)
    ensures |s| < Pow2(stringLen[SizeClass(v)]) ==> b.Contents() == old(b.Contents()) + StringStream(s, v)
  {
    ghost var c0 := b.Contents();
    WriteHeader(b, 4, |s|, stringLen[SizeClass(v)]);
    ghost var c1 := b.Contents();
    Pow2Table();
    ghost var n1 := b.nbit;
    var i := 0;
    while i < |s|
      invariant b.Valid()
      invariant 0 <= i <= |s|
      invariant b.nbit == n1 + 8 * i
      invariant b.Contents() == c1 + ByteGroups(s, i)
    {
      ghost var before := b.Contents();
      WriteField(b, s[i], 8);
      GroupStep(c1, before, b.Contents(), ByteGroups(s, i), ValueBits(s[i], 8));
      i := i + 1;
    }
    if |s| < Pow2(stringLen[SizeClass(v)]) {
      SegmentJoin(c0, c1, b.Contents(), 4, |s|, stringLen[SizeClass(v)], ByteGroups(s, |s|));
    }
  }

  // ------------------------------------------------------------------ kanji

  /** Width of the character-count field of Kanji mode, per size class. */
  const kanjiLen: seq<int> := [8, 10, 12]

  /** A double-byte Shift-JIS character in the ranges Kanji mode covers. */
  predicate KanjiChar(hi: Byte, lo: Byte)
  {
    && 0x40 <= lo <= 0xfc
    && ((0x81 <= hi <= 0x9f) || (0xe0 <= hi <= 0xea) || (hi == 0xeb && lo <= 0xbf))
  }

  /** The bytes of k from i on start such a character. */
  predicate KanjiAt(k: seq<Byte>, i: int)
  {
    0 <= i < |k| - 1 && KanjiChar(k[i], k[i + 1])
  }

  /** Every byte pair of k is such a character. */
  predicate AllKanji(k: seq<Byte>)
  {
    forall i :: 0 <= i < |k| - 1 && i % 2 == 0 ==> KanjiAt(k, i)
  }

  /**
   * The 13-bit value of a Shift-JIS double-byte character: the first byte
   * with its top two bits cleared (hi &^ 0xC0, which is hi % 64 for a byte),
   * times 0xC0, plus the second byte, less 0x100, in unsigned words.
   */
  function KanjiWord(hi: Byte, lo: Byte): Uint
  {
    Uint64((hi % 64) * 0xc0 + lo - 0x100)
  }

  /**
   * For the double-byte characters Kanji mode covers, the packing agrees with
   * the two-step rule of section 7.4.6 of ISO/IEC 18004: subtract 0x8140
   * (codes up to 0x9FFC) or 0xC140 (codes from 0xE040 to 0xEBBF), then take
   * the high byte times 0xC0 plus the low byte. The result fits 13 bits.
   */
  lemma KanjiWordStandard(hi: Byte, lo: Byte)
    requires KanjiChar(hi, lo)
    ensures var c := 256 * hi + lo - (if hi <= 0x9f then 0x8140 else 0xc140);
            KanjiWord(hi, lo) == (c / 256) * 0xc0 + c % 256
    ensures KanjiWord(hi, lo) < 8192 == Pow2(13)
  {
    Pow2Table();
    var h := if hi <= 0x9f then hi - 0x81 else hi - 0xc1;
    assert hi % 64 == h + 1;
    assert 0 <= h * 0xc0 + lo - 0x40 < 8192;
    var c := 256 * hi + lo - (if hi <= 0x9f then 0x8140 else 0xc140);
    assert c == 256 * h + (lo - 0x40);
  }

  /** The Shift-JIS bytes packed two at a time, 13 bits each. */
  function KanjiGroups(k: seq<Byte>, q: nat): (r: seq<bool>)
    requires 2 * q <= |k|
    ensures |r| == 13 * q
  {
    if q == 0 then [] else KanjiGroups(k, q - 1) + ValueBits(KanjiWord(k[2 * (q - 1)], k[2 * q - 1]), 13)
  }

  lemma KanjiGroupsNext(k: seq<Byte>, q: nat)
    requires 2 * q + 2 <= |k|
    ensures KanjiGroups(k, q + 1) == KanjiGroups(k, q) + ValueBits(KanjiWord(k[2 * q], k[2 * q + 1]), 13)
  {
  }

  /** The Kanji segment of the Shift-JIS bytes k: mode 8, the character count, the words. */
  function KanjiStream(k: seq<Byte>, v: int): seq<bool>
  {
    Segment(8, |k| / 2, kanjiLen[SizeClass(v)], KanjiGroups(k, |k| / 2))
  }

  /** What the guard of the Kanji encoder does with the result of the Shift-JIS conversion. */
  datatype KanjiGuard = Proceed | Skip | NilErrorPanic

  /**
   * The guard as the source writes it: a failed conversion or an odd number
   * of bytes skips the segment after printing err.Error(), and calling a
   * method on a nil error panics.
   */
  function KanjiGuardAsWritten(converted: bool, k: seq<Byte>): (g: KanjiGuard)
    ensures g == Proceed <==> converted && |k| % 2 == 0
    ensures g == NilErrorPanic <==> converted && |k| % 2 != 0
  {
    if !converted || |k| % 2 != 0 then
      (if converted then NilErrorPanic else Skip)
    else Proceed
  }

  /**
   * A text with an ASCII letter converts without error to Shift-JIS with an
   * odd number of bytes ("A" converts to the single byte 0x41), and the guard
   * then dereferences the nil error.
   */
  lemma KanjiGuardPanics()
    ensures KanjiGuardAsWritten(true, [0x41]) == NilErrorPanic
  {
  }

  /**
   * The Kanji encoder given the Shift-JIS conversion of the text (the
   * conversion is a foreign codec): a failed conversion or an odd byte count
   * writes nothing, as the guard evidently intends; otherwise the segment is
   * written and takes 4 + the count width + 13 bits per character.
   */
  method KanjiEncode(converted: bool, k: seq<Byte>, b: Bits, v: int)
    requires b.Valid() && |k| < 0x1_0000_0000_0000_0000
    modifies b
    ensures b.Valid()
    ensures KanjiGuardAsWritten(converted, k) != Proceed ==> b.nbit == old(b.nbit) && b.Contents() == old(b.Contents())
    ensures KanjiGuardAsWritten(converted, k) == Proceed ==> b.nbit == old(b.nbit) + |KanjiStream(k, v)|
    ensures KanjiGuardAsWritten(converted, k) == Proceed && AllKanji(k) && |k| / 2 < Pow2(kanjiLen[SizeClass(v)])
            ==> b.Contents() == old(b.Contents()) + KanjiStream(k, v)
  {
    if !converted || |k| % 2 != 0 {
      return;
    }
    ghost var c0 := b.Contents();
    WriteHeader(b, 8, |k| / 2, kanjiLen[SizeClass(v)]);
    ghost var c1 := b.Contents();
    KanjiBody(k, b, |k| / 2);
    if AllKanji(k) && |k| / 2 < Pow2(kanjiLen[SizeClass(v)]) {
      SegmentJoin(c0, c1, b.Contents(), 8, |k| / 2, kanjiLen[SizeClass(v)], KanjiGroups(k, |k| / 2));
    }
  }

  /** The characters of an even number of Shift-JIS bytes, 13 bits each. */
  method KanjiBody(k: seq<Byte>, b: Bits, ghost n: nat)
    requires b.Valid() && |k| == 2 * n
    modifies b
    ensures b.Valid() && b.nbit == old(b.nbit) + 13 * n
    ensures AllKanji(k) ==> b.Contents() == old(b.Contents()) + KanjiGroups(k, n)
  {
    ghost var c1 := b.Contents();
    ghost var n1 := b.nbit;
    var i := 0;
    ghost var q := 0;
    while i < |k|
      invariant KanjiSoFar(k, i, q, n, b, c1, n1)
    {
      KanjiStep(k, i, q, n, b, c1, n1);
      i := i + 2;
      q := q + 1;
    }
  }

  /** The state of the Kanji loop after q characters: the groups of the first q characters follow c1. */
  ghost predicate KanjiSoFar(k: seq<Byte>, i: int, q: int, n: int, b: Bits, c1: seq<bool>, n1: int)
    reads b
  {
    && b.Valid() && 0 <= q <= n && i == 2 * q && |k| == 2 * n && b.nbit == n1 + 13 * q
    && (AllKanji(k) ==> b.Contents() == c1 + KanjiGroups(k, q))
  }

  /** Round q of the Kanji loop: the characters so far are followed by character q. */
  method KanjiStep(k: seq<Byte>, i: int, ghost q: nat, ghost n: nat, b: Bits, ghost c1: seq<bool>, ghost n1: int)
    requires KanjiSoFar(k, i, q, n, b, c1, n1) && i < |k|
    modifies b
    ensures KanjiSoFar(k, i + 2, q + 1, n, b, c1, n1)
  {
    ghost var before := b.Contents();
    assert i % 2 == 0 && i + 2 <= |k|;
    KanjiWrite(k, i, b);
    if AllKanji(k) {
      GroupStep(c1, before, b.Contents(), KanjiGroups(k, q), ValueBits(KanjiWord(k[i], k[i + 1]), 13));
      KanjiGroupsNext(k, q);
    }
  }

  /** One double-byte character, from i on, in 13 bits. */
  method KanjiWrite(k: seq<Byte>, i: int, b: Bits)
    requires b.Valid() && 0 <= i && i + 2 <= |k| && i % 2 == 0
    modifies b
    ensures b.Valid() && b.nbit == old(b.nbit) + 13
    ensures AllKanji(k) ==> b.Contents() == old(b.Contents()) + ValueBits(KanjiWord(k[i], k[i + 1]), 13)
  {
    var w := Uint64((k[i] as int % 64) * 0xc0 + k[i + 1] as int - 0x100);
    if AllKanji(k) {
      assert KanjiAt(k, i);
      KanjiWordStandard(k[i], k[i + 1]);
    }
    WriteField(b, w, 13);
  }
}
