/** Bit packing, six-bit text and payload armouring for AIS messages. */
module SixBit {
  import opened Text
  import opened Basics

  /** The number a bit sequence stands for, most significant bit first. */
  function BitsValue(bits: seq<bool>): (value: nat)
    ensures value < Pow2(|bits|)
  {
    if bits == [] then 0
    else 2 * BitsValue(bits[..|bits| - 1]) + (if bits[|bits| - 1] then 1 else 0)
  }

  /** The low `width` bits of `value`. */
  function UnsignedBits(value: nat, width: nat): (bits: seq<bool>)
    ensures |bits| == width
  {
    if width == 0 then [] else UnsignedBits(value / 2, width - 1) + [value % 2 == 1]
  }

  /** Reading a field back gives the value's low bits, the whole value when it fits. */
  lemma {:induction false} UnsignedReadsBack(value: nat, width: nat)
    ensures BitsValue(UnsignedBits(value, width)) == value % Pow2(width)
    ensures value < Pow2(width) ==> BitsValue(UnsignedBits(value, width)) == value
  {
    var P := Pow2(width);
    if width > 0 {
      UnsignedReadsBack(value / 2, width - 1);
      assert UnsignedBits(value, width)[..width - 1] == UnsignedBits(value / 2, width - 1);
      ModDoubles(value, Pow2(width - 1));
    }
    if value < P {
      DivisionIsUnique(value, P, 0, value);
    }
  }

  lemma {:induction false} ModDoubles(value: nat, half: nat)
    requires half > 0
    ensures value % (2 * half) == 2 * ((value / 2) % half) + value % 2
  {
    var q, r := (value / 2) / half, (value / 2) % half;
    assert value / 2 == q * half + r;
    assert q * (2 * half) == 2 * (q * half);
    DivisionIsUnique(value, 2 * half, q, 2 * r + value % 2);
  }

  lemma {:induction false} BitsOfValue(bits: seq<bool>)
    ensures UnsignedBits(BitsValue(bits), |bits|) == bits
  {
    if bits != [] {
      BitsOfValue(bits[..|bits| - 1]);
      assert BitsValue(bits) / 2 == BitsValue(bits[..|bits| - 1]);
    }
  }

  lemma {:induction false} BitsValuePrepends(bit: bool, bits: seq<bool>)
    ensures BitsValue([bit] + bits) == (if bit then Pow2(|bits|) else 0) + BitsValue(bits)
  {
    if bits == [] {
      assert ([bit] + bits)[..0] == [];
    } else {
      BitsValuePrepends(bit, bits[..|bits| - 1]);
      assert ([bit] + bits)[..|bits|] == [bit] + bits[..|bits| - 1];
    }
  }

  /** Two's complement reading. */
  function SignedValue(bits: seq<bool>): int
    requires bits != []
  {
    if bits[0] then BitsValue(bits) - Pow2(|bits|) else BitsValue(bits)
  }

  lemma SignExtends(bits: seq<bool>)
    requires bits != []
    ensures SignedValue([bits[0]] + bits) == SignedValue(bits)
  {
    BitsValuePrepends(bits[0], bits);
  }

  lemma TopBit(bits: seq<bool>)
    requires bits != []
    ensures bits[0] <==> BitsValue(bits) >= Pow2(|bits| - 1)
  {
    BitsValuePrepends(bits[0], bits[1..]);
    assert [bits[0]] + bits[1..] == bits;
  }

  predicate IsUint32(value: int) {
    0 <= value < 0x1_0000_0000
  }

  predicate IsInt32(value: int) {
    -0x8000_0000 <= value < 0x8000_0000
  }

  lemma WordSize()
    ensures Pow2(31) == 0x8000_0000 && Pow2(32) == 0x1_0000_0000
  {
    assert Pow2(8) == 0x100;
    assert Pow2(16) == 0x1_0000;
    assert Pow2(24) == 0x100_0000;
  }

  predicate FitsSigned(value: int, width: nat)
    requires width >= 1
  {
    -(Pow2(width - 1) as int) <= value < Pow2(width - 1)
  }

  /** The two's complement code of a value that fits `width` bits. */
  function Complement(value: int, width: nat): (code: nat)
    requires width >= 1 && FitsSigned(value, width)
    ensures code < Pow2(width)
  {
    if value < 0 then value + Pow2(width) else value
  }

  lemma ComplementReadsBack(value: int, width: nat)
    requires width >= 1 && FitsSigned(value, width)
    ensures SignedValue(UnsignedBits(Complement(value, width), width)) == value
  {
    var code := Complement(value, width);
    UnsignedReadsBack(code, width);
    TopBit(UnsignedBits(code, width));
  }

  /** The bits of a 32-bit signed field value: clamped to the field, or sign-extended past 32 bits. */
  function SignedBits(value: int, width: int): (bits: seq<bool>)
    requires IsInt32(value)
    ensures |bits| == if width < 0 then 0 else width
  {
    WordSize();
    if width <= 0 then []
    else if width >= 32 then Copies(value < 0, width - 32) + UnsignedBits(Complement(value, 32), 32)
    else
      var limit: int := Pow2(width - 1);
      UnsignedBits(Complement(Clamp(value, -limit, limit - 1), width), width)
  }

  function Copies(bit: bool, n: nat): (bits: seq<bool>)
    ensures |bits| == n
  {
    if n == 0 then [] else [bit] + Copies(bit, n - 1)
  }

  lemma {:induction false} CopiesExtend(n: nat, bits: seq<bool>)
    requires bits != []
    ensures SignedValue(Copies(bits[0], n) + bits) == SignedValue(bits)
    ensures (Copies(bits[0], n) + bits)[0] == bits[0]
  {
    if n == 0 {
      assert Copies(bits[0], 0) + bits == bits;
    } else {
      CopiesExtend(n - 1, bits);
      var shorter := Copies(bits[0], n - 1) + bits;
      assert Copies(bits[0], n) + bits == [bits[0]] + shorter;
      SignExtends(shorter);
    }
  }

  /** Reading a signed field back gives the value clamped to the field's range. */
  lemma SignedReadsBack(value: int, width: nat)
    requires IsInt32(value) && width >= 1
    ensures SignedValue(SignedBits(value, width))
         == if width >= 32 then value else Clamp(value, -(Pow2(width - 1) as int), Pow2(width - 1) - 1)
  {
    WordSize();
    if width >= 32 {
      var low := UnsignedBits(Complement(value, 32), 32);
      ComplementReadsBack(value, 32);
      assert low[0] == (value < 0);
      CopiesExtend(width - 32, low);
    } else {
      ComplementReadsBack(Clamp(value, -(Pow2(width - 1) as int), Pow2(width - 1) - 1), width);
    }
  }

  // Six-bit text

  function SixBitCode(c: char): (code: nat)
    ensures code < 64
  {
    var upper := Upper(c);
    if '@' <= upper <= '_' then upper as int - 64
    else if ' ' <= upper <= '?' then upper as int
    else 63
  }

  /** The character a six-bit code stands for in AIS text (ITU-R M.1371-5, Annex 8). */
  function SixBitChar(code: nat): char
    requires code < 64
  {
    if code < 32 then (code + 64) as char else code as char
  }

  /** What a character is received as: upper-cased, or `?` outside the alphabet. */
  function Received(c: char): char {
    if ' ' <= Upper(c) <= '_' then Upper(c) else '?'
  }

  lemma SixBitReadsBack(c: char)
    ensures SixBitChar(SixBitCode(c)) == Received(c)
  {
  }

  function CharAt(text: string, i: nat): char {
    if i < |text| then text[i] else '@'
  }

  function TextBits(text: string, length: nat): (bits: seq<bool>)
    ensures |bits| == 6 * length
  {
    if length == 0 then []
    else TextBits(text, length - 1) + UnsignedBits(SixBitCode(CharAt(text, length - 1)), 6)
  }

  function TextValue(bits: seq<bool>): string {
    if |bits| < 6 then []
    else
      var n := |bits| - 6;
      assert Pow2(6) == 64;
      TextValue(bits[..n]) + [SixBitChar(BitsValue(bits[n..]))]
  }

  /** What a text field is received as: truncated or padded with `@`, in the six-bit alphabet. */
  function ReceivedText(text: string, length: nat): (received: string)
    ensures |received| == length
    ensures forall i :: 0 <= i < length ==> received[i] == Received(CharAt(text, i))
  {
    if length == 0 then [] else ReceivedText(text, length - 1) + [Received(CharAt(text, length - 1))]
  }

  lemma {:induction false} TextReadsBack(text: string, length: nat)
    ensures TextValue(TextBits(text, length)) == ReceivedText(text, length)
  {
    if length > 0 {
      TextReadsBack(text, length - 1);
      var c := CharAt(text, length - 1);
      var (head, last) := (TextBits(text, length - 1), UnsignedBits(SixBitCode(c), 6));
      assert TextValue(head + last) == TextValue(head) + [SixBitChar(BitsValue(last))] by {
        assert (head + last)[..|head|] == head && (head + last)[|head|..] == last;
      }
      CodeReadsBack(c);
    }
  }

  lemma CodeReadsBack(c: char)
    ensures SixBitChar(BitsValue(UnsignedBits(SixBitCode(c), 6))) == Received(c)
  {
    assert Pow2(6) == 64;
    UnsignedReadsBack(SixBitCode(c), 6);
  }

  // Packing

  /** `value >> shift`. */
  function ShiftedRight(value: nat, shift: nat): nat {
    if shift == 0 then value else ShiftedRight(value, shift - 1) / 2
  }

  lemma {:induction false} ShiftedOut(value: nat, width: nat, shift: nat)
    requires value < Pow2(width)
    ensures ShiftedRight(value, shift) < Pow2(if shift < width then width - shift else 0)
  {
    if shift > 0 {
      ShiftedOut(value, width, shift - 1);
    }
  }

  lemma NoBitsAboveWord(value: nat, bit: nat)
    requires IsUint32(value)
    ensures bit >= 32 ==> ShiftedRight(value, bit) == 0
  {
    WordSize();
    ShiftedOut(value, 32, bit);
  }

  class BitPacker {
    var bits: seq<bool>

    constructor ()
      ensures bits == []
    {
      bits := [];
    }

    method AppendUnsigned(value: nat, width: int)
      requires IsUint32(value)
      modifies this
      ensures bits == old(bits) + UnsignedBits(value, if width < 0 then 0 else width)
    {
      var bit := width - 1;
      while bit >= 0
        invariant width < 0 ==> bit < 0 && bits == old(bits)
        invariant width >= 0 ==> -1 <= bit < width
        invariant width >= 0 ==> bits == old(bits) + UnsignedBits(ShiftedRight(value, bit + 1), width - 1 - bit)
      {
        NoBitsAboveWord(value, bit);
        bits := bits + [bit < 32 && ShiftedRight(value, bit) % 2 == 1];
        bit := bit - 1;
      }
    }

    /** The loop of `AppendSigned` over the bits above a value's own 32. */
    method AppendSign(negative: bool, width: nat)
      requires width >= 32
      modifies this
      ensures bits == old(bits) + Copies(negative, width - 32)
    {
      var bit := width - 1;
      while bit >= 32
        invariant 31 <= bit < width
        invariant bits == old(bits) + Copies(negative, width - 1 - bit)
      {
        CopiesAppend(negative, width - 1 - bit);
        bits := bits + [negative];
        bit := bit - 1;
      }
    }

    method AppendSigned(value: int, width: int)
      requires IsInt32(value)
      modifies this
      ensures bits == old(bits) + SignedBits(value, width)
    {
      WordSize();
      hide Copies, UnsignedBits;
      if width <= 0 {
        return;
      }
      if width >= 32 {
        AppendSign(value < 0, width);
        AppendUnsigned(Complement(value, 32), 32);
        return;
      }
      var maximum: int := Pow2(width - 1) - 1;
      var minimum := -maximum - 1;
      Pow2Monotonic(width, 32);
      AppendUnsigned(Complement(Clamp(value, minimum, maximum), width), width);
    }

    method AppendText(text: string, length: nat)
      modifies this
      ensures bits == old(bits) + TextBits(text, length)
    {
      for i := 0 to length
        invariant bits == old(bits) + TextBits(text, i)
      {
        var c := if i < |text| then text[i] else '@';
        Associates(old(bits), TextBits(text, i), UnsignedBits(SixBitCode(c), 6));
        AppendUnsigned(SixBitCode(c), 6);
      }
    }

    method AppendBool(value: bool)
      modifies this
      ensures bits == old(bits) + [value]
    {
      bits := bits + [value];
    }
  }

  lemma {:induction false} CopiesAppend(bit: bool, n: nat)
    ensures Copies(bit, n) + [bit] == Copies(bit, n + 1)
  {
    if n > 0 {
      CopiesAppend(bit, n - 1);
    }
  }

  lemma {:induction false} Pow2Monotonic(m: nat, n: nat)
    requires m <= n
    ensures Pow2(m) <= Pow2(n)
    decreases n
  {
    if m < n {
      Pow2Monotonic(m, n - 1);
    }
  }

  // Armouring

  function ArmorChar(value: nat): char
    requires value < 64
  {
    if value < 40 then (value + 48) as char else (value + 56) as char
  }

  function Unarmor(c: char): int {
    if '0' <= c <= 'W' then c as int - 48
    else if '`' <= c <= 'w' then c as int - 56
    else -1
  }

  lemma UnarmorArmorChar(value: nat)
    requires value < 64
    ensures Unarmor(ArmorChar(value)) == value
  {
  }

  function Falses(n: nat): seq<bool> {
    Copies(false, n)
  }

  /** The next six bits, with zeros past the end. */
  function Group(bits: seq<bool>): (group: seq<bool>)
    ensures |group| == 6
  {
    if |bits| >= 6 then bits[..6] else bits + Falses(6 - |bits|)
  }

  function Remaining(bits: seq<bool>): seq<bool> {
    if |bits| >= 6 then bits[6..] else []
  }

  function GroupValue(bits: seq<bool>): (value: nat)
    ensures value < 64
  {
    assert Pow2(6) == 64;
    BitsValue(Group(bits))
  }

  function Armored(bits: seq<bool>): (text: string)
    ensures |text| == (|bits| + 5) / 6
    decreases |bits|
  {
    if bits == [] then [] else [ArmorChar(GroupValue(bits))] + Armored(Remaining(bits))
  }

  function FillBits(count: nat): (fill: nat)
    ensures fill < 6
  {
    (6 - count % 6) % 6
  }

  function Unarmored(text: string): (bits: seq<bool>)
    ensures |bits| == 6 * |text|
  {
    if text == [] then []
    else UnsignedBits(if Unarmor(text[0]) < 0 then 0 else Unarmor(text[0]), 6) + Unarmored(text[1..])
  }

  lemma UnarmoredStep(bits: seq<bool>)
    requires bits != []
    ensures Unarmored(Armored(bits)) == Group(bits) + Unarmored(Armored(Remaining(bits)))
  {
    UnarmorArmorChar(GroupValue(bits));
    BitsOfValue(Group(bits));
    assert Armored(bits)[1..] == Armored(Remaining(bits));
  }

  /** Un-armouring gives the bits back, followed by the fill bits. */
  lemma {:induction false} UnarmoredArmored(bits: seq<bool>)
    ensures Unarmored(Armored(bits)) == bits + Falses(FillBits(|bits|))
    decreases |bits|
  {
    if bits != [] {
      UnarmoredArmored(Remaining(bits));
      UnarmoredStep(bits);
    }
    Regroup(bits);
  }

  /** The first group and the padded rest are the padded whole. */
  lemma {:induction false} Regroup(bits: seq<bool>)
    ensures bits == [] ==> bits + Falses(FillBits(0)) == []
    ensures bits != [] ==>
      Group(bits) + (Remaining(bits) + Falses(FillBits(|Remaining(bits)|))) == bits + Falses(FillBits(|bits|))
  {
    FillBitsOfGroup(|bits|);
    FillBitsOfGroup(0);
    if 0 < |bits| < 6 {
      assert Remaining(bits) + Falses(0) == [];
    }
  }

  lemma FillBitsOfGroup(count: nat)
    ensures count > 0 ==> FillBits(count) == if count < 6 then 6 - count else FillBits(count - 6)
    ensures FillBits(0) == 0 && Falses(0) == []
  {
  }

  /** The armouring alphabet avoids every character the sentence builder would drop. */
  lemma {:induction false} ArmoredAlphabet(bits: seq<bool>)
    ensures forall c <- Armored(bits) :: '0' <= c <= 'W' || '`' <= c <= 'w'
    decreases |bits|
  {
    if bits != [] {
      ArmoredAlphabet(Remaining(bits));
    }
  }

  datatype Payload = Payload(text: string, fillBits: nat)

  /** The inner loop of `Armor`: six bits from `index` on, zeros past the end. */
  method PackGroup(bits: seq<bool>, index: nat) returns (value: nat)
    requires index < |bits|
    ensures value == GroupValue(bits[index..])
  {
    value := 0;
    ghost var group := Group(bits[index..]);
    for bit := 0 to 6
      invariant value == BitsValue(group[..bit])
    {
      assert group[..bit + 1][..bit] == group[..bit];
      GroupAt(bits[index..], bit);
      value := 2 * value;
      if index + bit < |bits| && bits[index + bit] {
        value := value + 1;
      }
    }
    assert group[..6] == group;
  }

  /** The bits from `index` on, none past the end. */
  function From(bits: seq<bool>, index: nat): seq<bool> {
    if index <= |bits| then bits[index..] else []
  }

  lemma ArmoredSteps(bits: seq<bool>, index: nat)
    requires index < |bits|
    ensures Armored(From(bits, index)) == [ArmorChar(GroupValue(bits[index..]))] + Armored(From(bits, index + 6))
  {
    assert Remaining(bits[index..]) == From(bits, index + 6);
  }

  lemma FromEnds(bits: seq<bool>)
    ensures From(bits, 0) == bits
    ensures forall index: nat :: index >= |bits| ==> Armored(From(bits, index)) == []
  {
  }

  method Armor(bits: seq<bool>) returns (payload: Payload)
    ensures payload == Payload(Armored(bits), FillBits(|bits|))
  {
    FromEnds(bits);
    hide Armored, GroupValue, From;
    var text := "";
    var index := 0;
    while index < |bits|
      invariant text + Armored(From(bits, index)) == Armored(bits)
    {
      ArmoredSteps(bits, index);
      var value := PackGroup(bits, index);
      Associates(text, [ArmorChar(value)], Armored(From(bits, index + 6)));
      text := text + [ArmorChar(value)];
      index := index + 6;
    }
    assert text + [] == text;
    payload := Payload(text, (6 - |bits| % 6) % 6);
  }

  lemma GroupAt(bits: seq<bool>, i: nat)
    requires i < 6
    ensures Group(bits)[i] == (i < |bits| && bits[i])
  {
    CopiesAt(false, 6, i);
    if |bits| < 6 && i >= |bits| {
      CopiesAt(false, 6 - |bits|, i - |bits|);
    }
  }

  lemma {:induction false} CopiesAt(bit: bool, n: nat, i: nat)
    requires i < n
    ensures Copies(bit, n)[i] == bit
  {
    if i > 0 {
      CopiesAt(bit, n - 1, i - 1);
    }
  }


  // The order of bits and the alphabets, character by character

  lemma ShiftDoubles(x: nat, power: nat)
    ensures x * (2 * power) == 2 * (x * power)
  {
  }

  /** The first bits weigh most: a sequence stands for its first part, shifted, plus its second. */
  lemma {:induction false} BitsConcat(a: seq<bool>, b: seq<bool>)
    ensures BitsValue(a + b) == BitsValue(a) * Pow2(|b|) + BitsValue(b)
    decreases |b|
  {
    if b == [] {
      assert a + b == a;
    } else {
      var n := |b| - 1;
      BitsConcat(a, b[..n]);
      BitsValueExtends(a + b[..n], b[n]);
      BitsValueExtends(b[..n], b[n]);
      assert a + b[..n] + [b[n]] == a + b && b[..n] + [b[n]] == b;
      ShiftDoubles(BitsValue(a), Pow2(n));
    }
  }

  lemma BitsValueExtends(bits: seq<bool>, bit: bool)
    ensures BitsValue(bits + [bit]) == 2 * BitsValue(bits) + (if bit then 1 else 0)
  {
    assert (bits + [bit])[..|bits|] == bits;
  }

  /** The two halves of the six-bit text alphabet, in the order of its codes. */
  const LETTERS := "@ABCDEFGHIJKLMNOPQRSTUVWXYZ[\\]^_"
  const SYMBOLS := " !\"#$%&'()*+,-./0123456789:;<=>?"

  lemma LettersMean(code: nat)
    requires code < 32
    ensures |LETTERS| == 32 && SixBitChar(code) == LETTERS[code] && SixBitCode(LETTERS[code]) == code
  {
  }

  lemma SymbolsMean(code: nat)
    requires code < 32
    ensures |SYMBOLS| == 32 && SixBitChar(code + 32) == SYMBOLS[code] && SixBitCode(SYMBOLS[code]) == code + 32
  {
  }

  /** A character is sent and received as its capital, or as `?` when the alphabet, blank to underscore, lacks it. */
  lemma SixBitCodeMeans(c: char)
    ensures SixBitCode(c) == SixBitCode(Upper(c))
    ensures ' ' <= Upper(c) <= '_' ==> Received(c) == Upper(c)
    ensures !(' ' <= Upper(c) <= '_') ==> SixBitCode(c) == 63 && Received(c) == '?'
  {
  }

  /** A shorter text is received with `@` behind it. */
  lemma PaddedWithAt(text: string, length: nat, i: nat)
    requires |text| <= i < length
    ensures ReceivedText(text, length)[i] == '@'
  {
  }

  /** The 64 armouring characters rise with their values and leave out those between `W` and the backquote. */
  lemma ArmorCharMeans(value: nat)
    requires value < 64
    ensures '0' <= ArmorChar(value) <= 'W' || '`' <= ArmorChar(value) <= 'w'
    ensures forall smaller: nat :: smaller < value ==> ArmorChar(smaller) < ArmorChar(value)
  {
  }

  /** Un-armouring refuses every other character. */
  lemma UnarmorMeans(c: char)
    ensures Unarmor(c) == -1 || (0 <= Unarmor(c) < 64 && ArmorChar(Unarmor(c)) == c)
    ensures Unarmor(c) == -1 <==> !('0' <= c <= 'W' || '`' <= c <= 'w')
  {
  }
}
