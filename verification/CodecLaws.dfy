/**
  Laws that relate the encoder, the decoder and the standards: the round trip, and agreement with UTF-8
  (RFC 3629) and UTF-16 (RFC 2781).
*/
module CodecLaws {
  import opened Units
  import opened Utf16to8
  import opened Utf8to16

  // ----- Decoding behind a prefix -----

  lemma {:induction false} GatherShift(a: seq<Byte>, t: seq<Byte>, p: nat, acc: nat, need: nat)
    requires p <= |t|
    ensures var r := Gather(t, p, acc, need);
            Gather(a + t, |a| + p, acc, need) == Scan(r.code, |a| + r.next)
    decreases need
  {
    if need != 0 && p < |t| && IsExtension(t[p]) {
      assert (a + t)[|a| + p] == t[p];
      GatherShift(a, t, p + 1, acc * 0x40 + t[p] % 0x40, need - 1);
    }
  }

  lemma DecodeOneShift(a: seq<Byte>, t: seq<Byte>, p: nat)
    requires p < |t|
    ensures var r := DecodeOne(t, p); DecodeOne(a + t, |a| + p) == Scan(r.code, |a| + r.next)
  {
    assert (a + t)[|a| + p] == t[p];
    if !IsExtension(t[p]) {
      GatherShift(a, t, p + 1, LeadBits(t[p]), SeqLength(t[p]) - 1);
    }
  }

  lemma {:induction false} DecodeShift(a: seq<Byte>, t: seq<Byte>, p: nat)
    requires p <= |t|
    ensures Decode(a + t, |a| + p) == Decode(t, p)
    ensures BrokenFours(a + t, |a| + p) == BrokenFours(t, p)
    decreases |t| - p
  {
    hide DecodeOne, Emit;
    if p < |t| {
      DecodeOneShift(a, t, p);
      DecodeShift(a, t, DecodeOne(t, p).next);
      DecodeShift(a, t, p + 1);
    }
  }

  // ----- The round trip -----

  lemma TwoByteForm(t: seq<Byte>, a: nat, b: nat)
    requires |t| >= 2 && a < 0x20 && b < 0x40 && t[0] == 0xc0 + a && t[1] == 0x80 + b
    ensures DecodeOne(t, 0) == Scan(a * 0x40 + b, 2)
  {
  }

  lemma ThreeByteForm(t: seq<Byte>, a: nat, b: nat, c: nat)
    requires |t| >= 3 && a < 0x10 && b < 0x40 && c < 0x40
    requires t[0] == 0xe0 + a && t[1] == 0x80 + b && t[2] == 0x80 + c
    ensures DecodeOne(t, 0) == Scan((a * 0x40 + b) * 0x40 + c, 3)
  {
  }

  lemma FourByteForm(t: seq<Byte>, a: nat, b: nat, c: nat, d: nat)
    requires |t| >= 4 && a < 0x08 && b < 0x40 && c < 0x40 && d < 0x40
    requires t[0] == 0xf0 + a && t[1] == 0x80 + b && t[2] == 0x80 + c && t[3] == 0x80 + d
    ensures DecodeOne(t, 0) == Scan(((a * 0x40 + b) * 0x40 + c) * 0x40 + d, 4)
  {
  }

  lemma EncodedUnitDecodes(uic: Unit, rest: seq<Byte>)
    ensures var b := EncodeUnit(uic); DecodeOne(b + rest, 0) == Scan(uic, |b|)
  {
    var t := EncodeUnit(uic) + rest;
    if uic > 0x07ff {
      ThreeByteForm(t, uic / 0x1000, uic / 0x40 % 0x40, uic % 0x40);
    } else if uic > 0x7f || uic == 0 {
      TwoByteForm(t, uic / 0x40, uic % 0x40);
    }
  }

  lemma {:induction false} NoFourByteLeads(t: seq<Byte>, p: nat)
    requires p <= |t| && forall i :: p <= i < |t| ==> t[i] < 0xf0
    ensures BrokenFours(t, p) == 0
    decreases |t| - p
  {
    if p < |t| {
      NoFourByteLeads(t, p + 1);
    }
  }

  lemma {:induction false} DecodeOfEncode(units: seq<Unit>)
    ensures Decode(Encode(units), 0) == units
  {
    if units != [] {
      var b, rest := EncodeUnit(units[0]), Encode(units[1..]);
      EncodedUnitDecodes(units[0], rest);
      DecodeShift(b, rest, 0);
      DecodeOfEncode(units[1..]);
    }
  }

  lemma ContentOfTerminated(t: seq<Byte>)
    requires forall i :: 0 <= i < |t| ==> t[i] != 0
    ensures 0 in t + [0] && Content(t + [0]) == t
  {
  }

  /**
    Every unit sequence, with embedded zeros and lone or reversed surrogates, comes back from its terminated
    encoding, and the length pass is exact on it: by their contracts `StrLen8to16` and `StrCpy8to16` on
    `Encode(units) + [0]` return `|units|` and write `units`.
  */
  lemma {:induction false} RoundTrip(units: seq<Unit>)
    ensures var m := Encode(units) + [0];
            && 0 in m
            && Decode(Content(m), 0) == units
            && |Decode(Content(m), 0)| + BrokenFours(Content(m), 0) == |units|
  {
    EncodeHasNoNulAndNoFourByteLead(units);
    ContentOfTerminated(Encode(units));
    NoFourByteLeads(Encode(units), 0);
    DecodeOfEncode(units);
  }

  // ----- RFC 3629 and RFC 2781 -----

  /** Unicode scalar values. */
  type Scalar = c: int | 0 <= c < 0xd800 || 0xe000 <= c < 0x11_0000

  /** Section 3 of RFC 3629. */
  function Utf8Char(c: Scalar): (b: seq<Byte>)
  {
    if c < 0x80 then [c]
    else if c < 0x800 then [0xc0 + c / 0x40, 0x80 + c % 0x40]
    else if c < 0x1_0000 then [0xe0 + c / 0x1000, 0x80 + c / 0x40 % 0x40, 0x80 + c % 0x40]
    else [0xf0 + c / 0x4_0000, 0x80 + c / 0x1000 % 0x40, 0x80 + c / 0x40 % 0x40, 0x80 + c % 0x40]
  }

  /** Section 2.1 of RFC 2781. */
  function Utf16Char(c: Scalar): (u: seq<Unit>)
  {
    if c < 0x1_0000 then [c]
    else [0xd800 + (c - 0x1_0000) / 0x400, 0xdc00 + (c - 0x1_0000) % 0x400]
  }

  function Utf8(cs: seq<Scalar>): (b: seq<Byte>)
  {
    if cs == [] then [] else Utf8Char(cs[0]) + Utf8(cs[1..])
  }

  function Utf16(cs: seq<Scalar>): (u: seq<Unit>)
  {
    if cs == [] then [] else Utf16Char(cs[0]) + Utf16(cs[1..])
  }

  /** What the decoder makes of a scalar value: the two above its limit are replaced. */
  function Clamp(c: Scalar): Scalar {
    if c <= UNICODE_UPPER_LIMIT then c else REPLACEMENT
  }

  function ClampAll(cs: seq<Scalar>): seq<Scalar> {
    if cs == [] then [] else [Clamp(cs[0])] + ClampAll(cs[1..])
  }

  function CountOverLimit(cs: seq<Scalar>): nat {
    if cs == [] then 0 else (if cs[0] > UNICODE_UPPER_LIMIT then 1 else 0) + CountOverLimit(cs[1..])
  }

  lemma FourParts(c: nat)
    ensures ((c / 0x4_0000 * 0x40 + c / 0x1000 % 0x40) * 0x40 + c / 0x40 % 0x40) * 0x40 + c % 0x40 == c
  {
    var q, h, a := c / 0x40, c / 0x1000, c / 0x4_0000;
    assert h == q / 0x40 && a == h / 0x40;
    assert c == q * 0x40 + c % 0x40 && q == h * 0x40 + q % 0x40 && h == a * 0x40 + h % 0x40;
  }

  lemma StandardFourBytesDecode(t: seq<Byte>, c: Scalar)
    requires c >= 0x1_0000 && Utf8Char(c) <= t
    ensures DecodeOne(t, 0) == Scan(c, 4)
  {
    FourByteForm(t, c / 0x4_0000, c / 0x1000 % 0x40, c / 0x40 % 0x40, c % 0x40);
    FourParts(c);
  }

  lemma StandardCharEmits(c: Scalar)
    ensures Emit(c) == Utf16Char(Clamp(c))
  {
  }

  lemma StandardCharDecodes(c: Scalar, rest: seq<Byte>)
    ensures var b := Utf8Char(c); DecodeOne(b + rest, 0) == Scan(c, |b|)
  {
    var t := Utf8Char(c) + rest;
    if c < 0x80 {
    } else if c < 0x800 {
      TwoByteForm(t, c / 0x40, c % 0x40);
    } else if c < 0x1_0000 {
      ThreeByteForm(t, c / 0x1000, c / 0x40 % 0x40, c % 0x40);
    } else {
      StandardFourBytesDecode(t, c);
    }
  }

  /** Continuation bytes and short leads count for nothing. */
  lemma {:induction false} BrokenFoursSkips(t: seq<Byte>, p: nat, q: nat)
    requires p <= q <= |t| && forall i :: p <= i < q ==> t[i] < 0xf0
    ensures BrokenFours(t, p) == BrokenFours(t, q)
    decreases q - p
  {
    if p < q {
      BrokenFoursSkips(t, p + 1, q);
    }
  }

  /** The two scalar values above U+10FFFD each become U+FFFD, and cost one unit too many in the length pass. */
  lemma TopCharactersAreReplaced(c: Scalar, rest: seq<Byte>)
    requires c > 0x10fffd
    ensures Decode(Utf8Char(c) + rest, 0) == [0xfffd] + Decode(rest, 0)
    ensures BrokenFours(Utf8Char(c) + rest, 0) == 1 + BrokenFours(rest, 0)
  {
    StandardCharInFront(c, rest);
  }

  /** The same for one character in front of `rest`. */
  lemma StandardCharInFront(c: Scalar, rest: seq<Byte>)
    ensures Decode(Utf8Char(c) + rest, 0) == Utf16Char(Clamp(c)) + Decode(rest, 0)
    ensures BrokenFours(Utf8Char(c) + rest, 0)
         == (if c > UNICODE_UPPER_LIMIT then 1 else 0) + BrokenFours(rest, 0)
  {
    hide DecodeOne, Emit, Clamp, Utf16Char;
    var b := Utf8Char(c);
    StandardCharDecodes(c, rest);
    StandardCharEmits(c);
    DecodeShift(b, rest, 0);
    BrokenFoursSkips(b + rest, 1, |b|);
  }

  /** Standard UTF-8 decodes to the standard UTF-16 of the clamped text, and the length pass overshoots by the
      number of clamped characters. */
  lemma {:induction false} StandardTextDecodes(cs: seq<Scalar>)
    ensures Decode(Utf8(cs), 0) == Utf16(ClampAll(cs))
    ensures BrokenFours(Utf8(cs), 0) == CountOverLimit(cs)
  {
    if cs != [] {
      StandardCharInFront(cs[0], Utf8(cs[1..]));
      StandardTextDecodes(cs[1..]);
      assert ClampAll(cs)[1..] == ClampAll(cs[1..]);
    }
    hide Utf8Char, Utf16Char, Clamp;
  }

  lemma {:induction false} ClampLosesUnits(cs: seq<Scalar>)
    ensures |Utf16(ClampAll(cs))| + CountOverLimit(cs) == |Utf16(cs)|
    ensures CountOverLimit(cs) == 0 ==> ClampAll(cs) == cs
  {
    if cs != [] {
      ClampLosesUnits(cs[1..]);
      assert ClampAll(cs)[1..] == ClampAll(cs[1..]);
    }
  }

  /**
    Agreement with the standards, exactly: on well-formed UTF-8 the decoder writes the standard's UTF-16, and
    the length pass returns its length, if and only if no character lies above U+10FFFD.
  */
  lemma DecoderMeetsTheStandards(cs: seq<Scalar>)
    ensures Decode(Utf8(cs), 0) == Utf16(cs) <==> forall i :: 0 <= i < |cs| ==> cs[i] <= 0x10fffd
    ensures |Decode(Utf8(cs), 0)| + BrokenFours(Utf8(cs), 0) == |Decode(Utf8(cs), 0)|
       <==> forall i :: 0 <= i < |cs| ==> cs[i] <= 0x10fffd
  {
    StandardTextDecodes(cs);
    ClampLosesUnits(cs);
    NoneOverLimit(cs);
  }

  lemma {:induction false} NoneOverLimit(cs: seq<Scalar>)
    ensures CountOverLimit(cs) == 0 <==> forall i :: 0 <= i < |cs| ==> cs[i] <= UNICODE_UPPER_LIMIT
  {
    if cs != [] {
      NoneOverLimit(cs[1..]);
      if CountOverLimit(cs) == 0 {
        assert forall i :: 1 <= i < |cs| ==> cs[i] == cs[1..][i - 1];
      }
      if forall i :: 0 <= i < |cs| ==> cs[i] <= UNICODE_UPPER_LIMIT {
        assert forall i :: 0 <= i < |cs[1..]| ==> cs[1..][i] == cs[i + 1];
      }
    }
  }

  // ----- Any bytes -----

  /** How many continuation bytes the byte at the head of a sequence asks for; one of 0x80 to 0xbf heads none. */
  ghost predicate Asks(b: Byte, need: nat) {
    if b < 0x80 then need == 0
    else if 0xc0 <= b < 0xe0 then need == 1
    else if 0xe0 <= b < 0xf0 then need == 2
    else 0xf0 <= b && need == 3
  }

  /** Bytes p + 1 to p + k continue the sequence at p. */
  predicate Continued(t: seq<Byte>, p: nat, k: nat) {
    p + k < |t| && forall i :: p < i <= p + k ==> 0x80 <= t[i] <= 0xbf
  }

  /** A continuation byte without a head is replaced on its own. */
  lemma StrayByteIsReplaced(t: seq<Byte>, p: nat)
    requires p < |t| && 0x80 <= t[p] <= 0xbf
    ensures Decode(t, p) == [0xfffd] + Decode(t, p + 1)
  {
  }

  lemma {:induction false} GatherBreaks(t: seq<Byte>, p: nat, acc: nat, need: nat, k: nat)
    requires k < need && p + k <= |t| && (forall i :: p <= i < p + k ==> 0x80 <= t[i] <= 0xbf)
    requires p + k == |t| || !(0x80 <= t[p + k] <= 0xbf)
    ensures Gather(t, p, acc, need) == Scan(0xfffd, p + k)
    decreases k
  {
    if k > 0 {
      GatherBreaks(t, p + 1, acc * 0x40 + t[p] % 0x40, need - 1, k - 1);
    }
  }

  /** A sequence that ends too early is replaced as a whole: its head and the k continuation bytes it has. */
  lemma BrokenSequenceIsReplaced(t: seq<Byte>, p: nat, need: nat, k: nat)
    requires p < |t| && Asks(t[p], need) && k < need && Continued(t, p, k)
    requires p + k + 1 == |t| || !(0x80 <= t[p + k + 1] <= 0xbf)
    ensures Decode(t, p) == [0xfffd] + Decode(t, p + k + 1)
  {
    GatherBreaks(t, p + 1, LeadBits(t[p]), need, k);
  }

  /** The bits of the head and of k continuation bytes behind it, six from each of those. */
  function Bits(t: seq<Byte>, p: nat, head: nat, k: nat): nat
    requires p + k < |t|
  {
    if k == 0 then head else Bits(t, p, head, k - 1) * 0x40 + t[p + k] % 0x40
  }

  /** The part of the head that counts: all of a single byte, else its low five, four or three bits. */
  function HeadBits(b: nat, need: nat): nat {
    match need
    case 0 => b
    case 1 => b % 0x20
    case 2 => b % 0x10
    case _ => b % 8
  }

  lemma {:induction false} GatherSkips(t: seq<Byte>, p: nat, head: nat, need: nat, k: nat)
    requires k <= need && Continued(t, p, need)
    ensures Gather(t, p + 1, head, need) == Gather(t, p + k + 1, Bits(t, p, head, k), need - k)
    decreases k
  {
    if k > 0 {
      GatherSkips(t, p, head, need, k - 1);
      assert IsExtension(t[p + k]);
    }
  }

  lemma WholeSequenceScans(t: seq<Byte>, p: nat, need: nat)
    requires p < |t| && Asks(t[p], need) && Continued(t, p, need)
    ensures DecodeOne(t, p) == Scan(Bits(t, p, HeadBits(t[p], need), need), p + need + 1)
  {
    GatherSkips(t, p, HeadBits(t[p], need), need, need);
    hide Bits;
  }

  /** UTF-16 of any code point, with U+10FFFE and everything above it replaced. */
  function Units16(code: nat): (units: seq<Unit>)
  {
    if code <= 0xffff then [code]
    else if code <= 0x10fffd then [0xd800 + (code - 0x1_0000) / 0x400, 0xdc00 + (code - 0x1_0000) % 0x400]
    else [0xfffd]
  }

  lemma EmitIsUnits16(code: nat)
    ensures Emit(code) == Units16(code)
  {
  }

  /**
    A whole sequence decodes to the code point that its bits make up, in the shortest form or not, surrogates
    included; a code point above U+10FFFD, which four bytes can reach, is replaced.
  */
  lemma WholeSequenceDecodes(t: seq<Byte>, p: nat, need: nat)
    requires p < |t| && Asks(t[p], need) && Continued(t, p, need)
    ensures Decode(t, p) == Units16(Bits(t, p, HeadBits(t[p], need), need)) + Decode(t, p + need + 1)
  {
    hide DecodeOne, Bits, HeadBits, Emit, Units16;
    WholeSequenceScans(t, p, need);
    EmitIsUnits16(Bits(t, p, HeadBits(t[p], need), need));
  }

  // ----- The grammar of section 4 of RFC 3629 -----

  predicate Tail(t: seq<Byte>, i: nat) {
    i < |t| && 0x80 <= t[i] <= 0xbf
  }

  /** UTF8-1 to UTF8-4: the length of the one form that starts at `p`, 0 if there is none. */
  function FormAt(t: seq<Byte>, p: nat): (n: nat)
    requires p < |t|
    ensures p + n <= |t|
  {
    var b := t[p];
    if b <= 0x7f then 1
    else if 0xc2 <= b <= 0xdf && Tail(t, p + 1) then 2
    else if 0xe0 <= b <= 0xef && Tail(t, p + 1) && Tail(t, p + 2)
            && (b == 0xe0 ==> t[p + 1] >= 0xa0) && (b == 0xed ==> t[p + 1] <= 0x9f) then 3
    else if 0xf0 <= b <= 0xf4 && Tail(t, p + 1) && Tail(t, p + 2) && Tail(t, p + 3)
            && (b == 0xf0 ==> t[p + 1] >= 0x90) && (b == 0xf4 ==> t[p + 1] <= 0x8f) then 4
    else 0
  }

  predicate WellFormed(t: seq<Byte>, p: nat)
    requires p <= |t|
    decreases |t| - p
  {
    p == |t| || (FormAt(t, p) != 0 && WellFormed(t, p + FormAt(t, p)))
  }

  function TwoBytes(a: nat, b: nat): nat {
    a * 0x40 + b
  }

  function ThreeBytes(a: nat, b: nat, c: nat): nat {
    TwoBytes(a, b) * 0x40 + c
  }

  function FourBytes(a: nat, b: nat, c: nat, d: nat): nat {
    ThreeBytes(a, b, c) * 0x40 + d
  }

  lemma BytesBack(a: nat, b: nat, c: nat, d: nat)
    requires b < 0x40 && c < 0x40 && d < 0x40
    ensures FourBytes(a, b, c, d) / 0x40 == ThreeBytes(a, b, c) && FourBytes(a, b, c, d) % 0x40 == d
    ensures ThreeBytes(a, b, c) / 0x40 == TwoBytes(a, b) && ThreeBytes(a, b, c) % 0x40 == c
    ensures TwoBytes(a, b) / 0x40 == a && TwoBytes(a, b) % 0x40 == b
    ensures FourBytes(a, b, c, d) / 0x1000 == TwoBytes(a, b) && FourBytes(a, b, c, d) / 0x4_0000 == a
    ensures ThreeBytes(a, b, c) / 0x1000 == a
  {
  }

  /** The character a form stands for. */
  function FormScalar(t: seq<Byte>, p: nat): (c: Scalar)
    requires p < |t| && FormAt(t, p) != 0
  {
    match FormAt(t, p)
    case 1 => t[p]
    case 2 => TwoBytes(t[p] % 0x20, t[p + 1] % 0x40)
    case 3 => ThreeBytes(t[p] % 0x10, t[p + 1] % 0x40, t[p + 2] % 0x40)
    case _ => FourBytes(t[p] % 0x08, t[p + 1] % 0x40, t[p + 2] % 0x40, t[p + 3] % 0x40)
  }

  function TextOf(t: seq<Byte>, p: nat): (cs: seq<Scalar>)
    requires p <= |t| && WellFormed(t, p)
    decreases |t| - p
  {
    if p == |t| then [] else [FormScalar(t, p)] + TextOf(t, p + FormAt(t, p))
  }

  lemma FormOfThree(b0: Byte, b1: Byte, b2: Byte)
    requires 0xe0 <= b0 < 0xf0 && 0x80 <= b1 < 0xc0 && 0x80 <= b2 < 0xc0
    requires (b0 == 0xe0 ==> b1 >= 0xa0) && (b0 == 0xed ==> b1 <= 0x9f)
    ensures Utf8Char(ThreeBytes(b0 % 0x10, b1 % 0x40, b2 % 0x40)) == [b0, b1, b2]
  {
    BytesBack(0, b0 % 0x10, b1 % 0x40, b2 % 0x40);
  }

  lemma FormOfFour(b0: Byte, b1: Byte, b2: Byte, b3: Byte)
    requires 0xf0 <= b0 <= 0xf4 && 0x80 <= b1 < 0xc0 && 0x80 <= b2 < 0xc0 && 0x80 <= b3 < 0xc0
    requires (b0 == 0xf0 ==> b1 >= 0x90) && (b0 == 0xf4 ==> b1 <= 0x8f)
    ensures Utf8Char(FourBytes(b0 % 0x08, b1 % 0x40, b2 % 0x40, b3 % 0x40)) == [b0, b1, b2, b3]
  {
    BytesBack(b0 % 0x08, b1 % 0x40, b2 % 0x40, b3 % 0x40);
  }

  lemma ShortForms(b0: Byte, b1: Byte)
    ensures b0 < 0x80 ==> Utf8Char(b0) == [b0]
    ensures 0xc2 <= b0 <= 0xdf && 0x80 <= b1 < 0xc0 ==> Utf8Char(TwoBytes(b0 % 0x20, b1 % 0x40)) == [b0, b1]
  {
  }

  /** A form is the encoding of its character. */
  lemma FormIsItsCharacter(t: seq<Byte>, p: nat)
    requires p < |t| && FormAt(t, p) != 0
    ensures Utf8Char(FormScalar(t, p)) == t[p..p + FormAt(t, p)]
  {
    hide Utf8Char, TwoBytes, ThreeBytes, FourBytes;
    match FormAt(t, p) {
      case 1 =>
        ShortForms(t[p], 0);
        assert t[p..p + 1] == [t[p]];
      case 2 =>
        ShortForms(t[p], t[p + 1]);
        assert t[p..p + 2] == [t[p], t[p + 1]];
      case 3 =>
        FormOfThree(t[p], t[p + 1], t[p + 2]);
        assert t[p..p + 3] == [t[p], t[p + 1], t[p + 2]];
      case _ =>
        FormOfFour(t[p], t[p + 1], t[p + 2], t[p + 3]);
        assert t[p..p + 4] == [t[p], t[p + 1], t[p + 2], t[p + 3]];
    }
  }

  /** An encoded character is a form. */
  lemma CharacterIsAForm(t: seq<Byte>, p: nat, c: Scalar)
    requires p < |t| && Utf8Char(c) <= t[p..]
    ensures FormAt(t, p) == |Utf8Char(c)|
  {
    var b := Utf8Char(c);
    assert forall i :: 0 <= i < |b| ==> b[i] == t[p..][i] == t[p + i];
    assert t[p] == b[0];
    if c >= 0x1_0000 {
      FourBytesAreAForm(t, p, c);
    }
  }

  lemma FourBytesAreAForm(t: seq<Byte>, p: nat, c: Scalar)
    requires c >= 0x1_0000 && p + 4 <= |t|
    requires forall i :: 0 <= i < 4 ==> t[p + i] == Utf8Char(c)[i]
    ensures FormAt(t, p) == 4
  {
    var b := Utf8Char(c);
    assert t[p + 0] == b[0] && t[p + 1] == b[1] && t[p + 2] == b[2] && t[p + 3] == b[3];
  }

  lemma Utf8Cons(c: Scalar, rest: seq<Scalar>)
    ensures Utf8([c] + rest) == Utf8Char(c) + Utf8(rest)
  {
  }

  lemma {:induction false} TextOfEncodes(t: seq<Byte>, p: nat)
    requires p <= |t| && WellFormed(t, p)
    ensures Utf8(TextOf(t, p)) == t[p..]
    decreases |t| - p
  {
    if p < |t| {
      hide FormAt, FormScalar, Utf8Char;
      var n := FormAt(t, p);
      TextOfEncodes(t, p + n);
      FormIsItsCharacter(t, p);
      var rest := TextOf(t, p + n);
      Utf8Cons(FormScalar(t, p), rest);
      hide TextOf, Utf8;
      assert t[p..p + n] + t[p + n..] == t[p..];
    }
  }

  lemma {:induction false} EncodedIsWellFormed(t: seq<Byte>, p: nat, cs: seq<Scalar>)
    requires p <= |t| && t[p..] == Utf8(cs)
    ensures WellFormed(t, p)
    decreases |cs|
  {
    if cs != [] {
      hide FormAt, Utf8Char, Utf8;
      var b, rest := Utf8Char(cs[0]), Utf8(cs[1..]);
      assert t[p..] == b + rest by {
        Utf8Cons(cs[0], cs[1..]);
        assert [cs[0]] + cs[1..] == cs;
      }
      CharacterIsAForm(t, p, cs[0]);
      Chunk(t, p, b, rest);
      EncodedIsWellFormed(t, p + |b|, cs[1..]);
    }
  }

  /** The grammar accepts exactly the encodings of scalar values. */
  lemma GrammarIsTheImage(t: seq<Byte>)
    ensures WellFormed(t, 0) <==> exists cs :: Utf8(cs) == t
    ensures WellFormed(t, 0) ==> Utf8(TextOf(t, 0)) == t
  {
    assert t[0..] == t;
    if WellFormed(t, 0) {
      TextOfEncodes(t, 0);
    }
    if cs :| Utf8(cs) == t {
      EncodedIsWellFormed(t, 0, cs);
    }
  }

  /** Any byte string the grammar accepts decodes to the standard UTF-16 of its text, clamped at U+10FFFD. */
  lemma {:induction false} WellFormedStringsDecode(t: seq<Byte>)
    requires WellFormed(t, 0)
    ensures Decode(t, 0) == Utf16(ClampAll(TextOf(t, 0)))
    ensures BrokenFours(t, 0) == CountOverLimit(TextOf(t, 0))
  {
    GrammarIsTheImage(t);
    StandardTextDecodes(TextOf(t, 0));
  }

  lemma Utf16Cons(c: Scalar, rest: seq<Unit>)
    ensures c < 0x1_0000 ==> Encode(Utf16Char(c) + rest) == EncodeUnit(c) + Encode(rest)
    ensures c >= 0x1_0000 ==> |Encode(Utf16Char(c) + rest)| == 6 + |Encode(rest)|
  {
    var u := Utf16Char(c);
    assert (u + rest)[1..] == u[1..] + rest;
    if c >= 0x1_0000 {
      assert (u + rest)[1..][1..] == rest;
      assert |Encode((u + rest)[1..])| == 3 + |Encode(rest)|;
    } else {
      assert u[1..] + rest == rest;
    }
  }

  predicate InBasicPlane(cs: seq<Scalar>) {
    forall i :: 0 <= i < |cs| ==> 0 < cs[i] < 0x1_0000
  }

  lemma {:induction false} EncodingIsNoShorter(cs: seq<Scalar>)
    ensures |Encode(Utf16(cs))| >= |Utf8(cs)|
    ensures |Encode(Utf16(cs))| == |Utf8(cs)| ==> InBasicPlane(cs)
    ensures InBasicPlane(cs) ==> Encode(Utf16(cs)) == Utf8(cs)
  {
    if cs != [] {
      EncodingIsNoShorter(cs[1..]);
      Utf16Cons(cs[0], Utf16(cs[1..]));
    }
  }

  /** The encoder writes standard UTF-8 if and only if the text has no zero and nothing above the basic plane. */
  lemma EncoderMeetsTheStandard(cs: seq<Scalar>)
    ensures Encode(Utf16(cs)) == Utf8(cs) <==> forall i :: 0 <= i < |cs| ==> 0 < cs[i] < 0x1_0000
  {
    EncodingIsNoShorter(cs);
  }
}
