/** NMEA 0183 checksums: computation, formatting and verification. */
module Checksum {
  import opened Wrappers
  import opened Basics
  import opened Text

  const START_DELIMITER := '$'
  const ENCAPSULATION_DELIMITER := '!'
  const CHECKSUM_DELIMITER := '*'
  const MAX_LENGTH_WITHOUT_TERMINATOR := 80

  function Bit(a: nat, i: nat): bool {
    if i == 0 then a % 2 == 1 else Bit(a / 2, i - 1)
  }

  /** Exclusive or of two numbers; `XorBits` says what that means bit by bit. */
  function Xor(a: nat, b: nat): nat
    decreases a + b
  {
    if a == 0 && b == 0 then 0 else 2 * Xor(a / 2, b / 2) + (if a % 2 == b % 2 then 0 else 1)
  }

  lemma {:induction false} XorBits(a: nat, b: nat, i: nat)
    ensures Bit(Xor(a, b), i) <==> Bit(a, i) != Bit(b, i)
    decreases i
  {
    if i > 0 {
      XorBits(a / 2, b / 2, i - 1);
      assert Xor(a, b) / 2 == Xor(a / 2, b / 2);
    }
  }

  lemma {:induction false} XorCommutes(a: nat, b: nat)
    ensures Xor(a, b) == Xor(b, a)
    decreases a + b
  {
    if a + b > 0 {
      XorCommutes(a / 2, b / 2);
    }
  }

  lemma {:induction false} XorCancels(a: nat, b: nat, c: nat)
    requires Xor(a, c) == Xor(b, c)
    ensures a == b
    decreases a + b + c
  {
    if a + b + c > 0 {
      XorCancels(a / 2, b / 2, c / 2);
    }
  }

  lemma XorStaysByte(a: nat, b: nat)
    requires a < 256 && b < 256
    ensures Xor(a, b) < 256
  {
    XorWidth(a, b, 8, 256);
  }

  lemma {:induction false} XorWidth(a: nat, b: nat, bits: nat, limit: nat)
    requires limit == Pow2(bits) && a < limit && b < limit
    ensures Xor(a, b) < limit
    decreases bits
  {
    if bits > 0 {
      XorWidth(a / 2, b / 2, bits - 1, Pow2(bits - 1));
    }
  }

  /** The value of a character as the unsigned byte the checksum covers. */
  function ByteOf(c: char): (b: nat)
    ensures b < 256
  {
    c as int % 256
  }

  /** Exclusive or of all bytes of `body`. */
  function ChecksumOf(body: string): (sum: nat)
    ensures sum < 256
  {
    if body == [] then 0 else
      var n := |body| - 1;
      XorStaysByte(ChecksumOf(body[..n]), ByteOf(body[n]));
      Xor(ChecksumOf(body[..n]), ByteOf(body[n]))
  }

  method ComputeChecksum(body: string) returns (checksum: nat)
    ensures checksum == ChecksumOf(body)
  {
    checksum := 0;
    for i := 0 to |body|
      invariant checksum == ChecksumOf(body[..i])
    {
      checksum := Xor(checksum, ByteOf(body[i]));
      assert body[..i + 1][..i] == body[..i];
    }
    assert body[..|body|] == body;
  }

  /** Replacing one byte by a different one always changes the checksum. */
  lemma {:induction false} SubstitutionChangesChecksum(before: string, c: char, d: char, after: string)
    requires ByteOf(c) != ByteOf(d)
    ensures ChecksumOf(before + [c] + after) != ChecksumOf(before + [d] + after)
    decreases |after|
  {
    if after == [] {
      var sum := ChecksumOf(before);
      assert (before + [c] + after)[..|before|] == before == (before + [d] + after)[..|before|];
      if Xor(sum, ByteOf(c)) == Xor(sum, ByteOf(d)) {
        XorCommutes(sum, ByteOf(c));
        XorCommutes(sum, ByteOf(d));
        XorCancels(ByteOf(c), ByteOf(d), sum);
      }
    } else {
      var n := |after| - 1;
      SubstitutionChangesChecksum(before, c, d, after[..n]);
      var (s, t) := (before + [c] + after, before + [d] + after);
      assert s[..|s| - 1] == before + [c] + after[..n] && t[..|t| - 1] == before + [d] + after[..n];
      if ChecksumOf(s) == ChecksumOf(t) {
        XorCancels(ChecksumOf(s[..|s| - 1]), ChecksumOf(t[..|t| - 1]), ByteOf(after[n]));
      }
    }
  }

  const HEX_DIGITS := "0123456789ABCDEF"

  /** The value of a hexadecimal digit of either case. */
  function HexValue(c: char): (value: Option<nat>)
    ensures value.Some? ==> value.value < 16
  {
    if '0' <= c <= '9' then Some(c as int - 48)
    else if 'A' <= c <= 'F' then Some(c as int - 55)
    else if 'a' <= c <= 'f' then Some(c as int - 87)
    else None
  }

  function FormatChecksum(checksum: nat): string
    requires checksum < 256
  {
    [HEX_DIGITS[checksum / 16], HEX_DIGITS[checksum % 16]]
  }

  /** Two upper-case hexadecimal digits that read back as the checksum. */
  lemma FormatChecksumReadsBack(checksum: nat)
    requires checksum < 256
    ensures var text := FormatChecksum(checksum);
      && |text| == 2
      && (forall c <- text :: IsDigit(c) || 'A' <= c <= 'F')
      && HexValue(text[0]) == Some(checksum / 16) && HexValue(text[1]) == Some(checksum % 16)
  {
  }

  function AppendChecksum(sentence: string): string {
    sentence + [CHECKSUM_DELIMITER] + FormatChecksum(ChecksumOf(if sentence == [] then [] else sentence[1..]))
  }

  function StripTerminator(sentence: string): string {
    if sentence != [] && sentence[|sentence| - 1] in "\r\n" then StripTerminator(sentence[..|sentence| - 1]) else sentence
  }

  method StripLineTerminator(sentence: string) returns (view: string)
    ensures view == StripTerminator(sentence)
  {
    view := sentence;
    while view != [] && view[|view| - 1] in "\r\n"
      invariant StripTerminator(view) == StripTerminator(sentence)
    {
      view := view[..|view| - 1];
    }
  }

  predicate IsDelimiter(c: char) {
    c == START_DELIMITER || c == ENCAPSULATION_DELIMITER
  }

  predicate VerifyChecksum(line: string) {
    var sentence := StripTerminator(line);
    if |sentence| < 4 || !IsDelimiter(sentence[0]) then false else
    var star := IndexOf(sentence, CHECKSUM_DELIMITER);
    if star == |sentence| || star < 2 || star + 3 != |sentence| then false else
    var high := HexValue(sentence[star + 1]);
    var low := HexValue(sentence[star + 2]);
    high.Some? && low.Some? && ChecksumOf(sentence[1..star]) == high.value * 16 + low.value
  }

  /** A delimiter, a non-empty body without `*`, and the two digits of the body's checksum. */
  ghost predicate IsFramed(s: string, body: string, high: char, low: char) {
    && s != [] && IsDelimiter(s[0]) && s == [s[0]] + body + [CHECKSUM_DELIMITER, high, low]
    && body != [] && CHECKSUM_DELIMITER !in body
    && HexValue(high).Some? && HexValue(low).Some?
    && ChecksumOf(body) == HexValue(high).value * 16 + HexValue(low).value
  }

  /** What verification accepts, after any line terminator. */
  lemma VerifyChecksumMeans(line: string)
    ensures VerifyChecksum(line) <==>
      exists body: string, high: char, low: char :: IsFramed(StripTerminator(line), body, high, low)
  {
    var s := StripTerminator(line);
    IndexOfFinds(s, CHECKSUM_DELIMITER);
    if VerifyChecksum(line) {
      var star := IndexOf(s, CHECKSUM_DELIMITER);
      assert s == [s[0]] + s[1..star] + [CHECKSUM_DELIMITER, s[star + 1], s[star + 2]];
      assert IsFramed(s, s[1..star], s[star + 1], s[star + 2]);
    }
    forall body: string, high: char, low: char | IsFramed(s, body, high, low)
      ensures VerifyChecksum(line)
    {
      assert forall i :: 0 < i <= |body| ==> s[i] == body[i - 1];
      IndexOfIs(s, CHECKSUM_DELIMITER, 1 + |body|);
      assert s[1..1 + |body|] == body;
    }
  }

  /** An appended checksum verifies exactly when there is something to check and no earlier `*`. */
  lemma AppendedChecksumVerifies(sentence: string)
    ensures VerifyChecksum(AppendChecksum(sentence)) <==>
      |sentence| >= 2 && IsDelimiter(sentence[0]) && CHECKSUM_DELIMITER !in sentence
  {
    var framed := AppendChecksum(sentence);
    var sum := ChecksumOf(if sentence == [] then [] else sentence[1..]);
    FormatChecksumReadsBack(sum);
    assert framed[|framed| - 1] in FormatChecksum(sum);
    assert StripTerminator(framed) == framed;
    IndexOfFinds(framed, CHECKSUM_DELIMITER);
    var star := IndexOf(framed, CHECKSUM_DELIMITER);
    assert framed[|sentence|] == CHECKSUM_DELIMITER;
    if CHECKSUM_DELIMITER in sentence {
      var i :| 0 <= i < |sentence| && sentence[i] == CHECKSUM_DELIMITER;
      assert framed[i] == CHECKSUM_DELIMITER;
      assert star <= i;
    } else {
      IndexOfIs(framed, CHECKSUM_DELIMITER, |sentence|);
      if |sentence| >= 2 {
        assert framed[1..star] == sentence[1..];
      }
    }
  }


  // What the checksum is, bit by bit and piece by piece

  lemma {:induction false} ZeroHasNoBits(i: nat)
    ensures !Bit(0, i)
    decreases i
  {
    if i > 0 {
      ZeroHasNoBits(i - 1);
    }
  }

  /** How many bytes of `body` have bit `i` set. */
  function BytesWithBit(body: string, i: nat): nat {
    if body == [] then 0
    else BytesWithBit(body[1..], i) + if Bit(body[0] as int % 256, i) then 1 else 0
  }

  /** Bit `i` of the checksum is set exactly when an odd number of bytes have it set. */
  lemma {:induction false} ChecksumParity(body: string, i: nat)
    ensures Bit(ChecksumOf(body), i) <==> BytesWithBit(body, i) % 2 == 1
  {
    hide Bit;
    ZeroHasNoBits(i);
    if body != [] {
      ChecksumParity(body[1..], i);
      ChecksumConcat([body[0]], body[1..]);
      ChecksumOfOne(body[0]);
      assert [body[0]] + body[1..] == body;
      XorBits(ByteOf(body[0]), ChecksumOf(body[1..]), i);
    }
  }

  lemma {:induction false} XorAssociates(a: nat, b: nat, c: nat)
    ensures Xor(Xor(a, b), c) == Xor(a, Xor(b, c))
    decreases a + b + c
  {
    if a + b + c > 0 {
      XorAssociates(a / 2, b / 2, c / 2);
      XorHalves(a, b);
      XorHalves(b, c);
      XorHalves(Xor(a, b), c);
      XorHalves(a, Xor(b, c));
    }
  }

  lemma XorHalves(a: nat, b: nat)
    ensures Xor(a, b) / 2 == Xor(a / 2, b / 2) && Xor(a, b) % 2 == if a % 2 == b % 2 then 0 else 1
  {
    if a == 0 && b == 0 {
      assert Xor(0, 0) == 0;
    }
  }

  lemma {:induction false} XorZero(a: nat)
    ensures Xor(a, 0) == a && Xor(0, a) == a
  {
    if a > 0 {
      XorZero(a / 2);
    }
  }

  lemma ChecksumOfOne(c: char)
    ensures ChecksumOf("") == 0 && ChecksumOf([c]) == c as int % 256
  {
    assert [c][..0] == [];
    XorZero(ByteOf(c));
  }

  /** The checksum of a text is that of its pieces combined. */
  lemma {:induction false} ChecksumConcat(a: string, b: string)
    ensures ChecksumOf(a + b) == Xor(ChecksumOf(a), ChecksumOf(b))
    decreases |b|
  {
    if b == [] {
      assert a + b == a;
      XorZero(ChecksumOf(a));
    } else {
      var n := |b| - 1;
      ChecksumConcat(a, b[..n]);
      assert (a + b)[..|a + b| - 1] == a + b[..n];
      XorAssociates(ChecksumOf(a), ChecksumOf(b[..n]), ByteOf(b[n]));
    }
  }

  /** The hexadecimal digits, of either case, in order. */
  lemma HexValueMeans(c: char, value: nat)
    ensures HexValue(c) == Some(value) <==>
      value < 16 && (c == "0123456789ABCDEF"[value] || c == "0123456789abcdef"[value])
  {
  }

  /** Stripping removes all of the CR and LF at the end, and nothing else. */
  lemma {:induction false} StripTerminatorMeans(sentence: string)
    ensures var view := StripTerminator(sentence);
      && view <= sentence
      && (view != [] ==> view[|view| - 1] != '\r' && view[|view| - 1] != '\n')
      && forall i :: |view| <= i < |sentence| ==> sentence[i] == '\r' || sentence[i] == '\n'
  {
    if sentence != [] && sentence[|sentence| - 1] in "\r\n" {
      StripTerminatorMeans(sentence[..|sentence| - 1]);
    }
  }
}
