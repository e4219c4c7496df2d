/**
  The NUL-terminated modified UTF-8 to UTF-16 decoder of libshims/strdup8to16.cpp.

  A C string is a memory `m` with a NUL in it; `Content(m)` is what comes before the first NUL.  The reference
  `Decode(t, p)` works sequence by sequence from byte `p` of that content.  `Count` is the byte-at-a-time
  counter of `strlen8to16`, which knows nothing about sequences.  `expected` is unbounded here.
*/
module Utf8to16 {
  import opened Units

  const REPLACEMENT: nat := 0xfffd
  const UNICODE_UPPER_LIMIT: nat := 0x10fffd

  /** Bytes starting with bits 10 continue a sequence. */
  predicate IsExtension(b: Byte) {
    0x80 <= b < 0xc0
  }

  /** The value of the macro UTF8_SEQ_LENGTH; BitIdentities.SequenceLengthTrick proves the bit trick. */
  function SeqLength(b: Byte): (n: nat)
    ensures 1 <= n <= 4
  {
    if b < 0xc0 then 1 else if b < 0xe0 then 2 else if b < 0xf0 then 3 else 4
  }

  /** The payload bits a leading byte contributes: `b & leaderMask[seq_len - 1]`. */
  function LeadBits(b: Byte): (bits: nat)
  {
    match SeqLength(b)
    case 1 => b
    case 2 => b % 0x20
    case 3 => b % 0x10
    case _ => b % 0x08
  }

  /** A code point and where the next sequence starts. */
  datatype Scan = Scan(code: nat, next: nat)

  /** `need` more continuation bytes are shifted into `acc`; anything else yields the replacement character. */
  function Gather(t: seq<Byte>, p: nat, acc: nat, need: nat): (r: Scan)
    requires p <= |t|
    ensures p <= r.next <= |t| && r.next <= p + need
    decreases need
  {
    if need == 0 then
      Scan(acc, p)
    else if p == |t| || !IsExtension(t[p]) then
      Scan(REPLACEMENT, p)
    else
      Gather(t, p + 1, acc * 0x40 + t[p] % 0x40, need - 1)
  }

  /** One call of `getUtf32FromUtf8` at byte `p` of a string whose content is `t`. */
  function DecodeOne(t: seq<Byte>, p: nat): (r: Scan)
    requires p < |t|
    ensures p < r.next <= |t| && r.next <= p + 4
  {
    if IsExtension(t[p]) then
      Scan(REPLACEMENT, p + 1)
    else
      Gather(t, p + 1, LeadBits(t[p]), SeqLength(t[p]) - 1)
  }

  /** Code points that become a surrogate pair. */
  predicate NeedsPair(code: nat) {
    0x1_0000 <= code <= UNICODE_UPPER_LIMIT
  }

  function Emit(code: nat): (units: seq<Unit>)
  {
    if code <= 0xffff then
      [code]
    else if code <= UNICODE_UPPER_LIMIT then
      [0xd800 + (code - 0x1_0000) / 0x400, 0xdc00 + (code - 0x1_0000) % 0x400]
    else
      [REPLACEMENT]
  }

  function Decode(t: seq<Byte>, p: nat): (units: seq<Unit>)
    requires p <= |t|
    decreases |t| - p
  {
    if p == |t| then
      []
    else
      var r := DecodeOne(t, p);
      Emit(r.code) + Decode(t, r.next)
  }

  /** The counter of `strlen8to16`, one byte at a time. */
  function Count(t: seq<Byte>, p: nat, expected: int): (len: nat)
    requires p <= |t|
    decreases |t| - p
  {
    if p == |t| then
      0
    else if IsExtension(t[p]) then
      (if expected - 1 < 0 then 1 else 0) + Count(t, p + 1, expected - 1)
    else
      var more := SeqLength(t[p]) - 1;
      (if more == 3 then 2 else 1) + Count(t, p + 1, more)
  }

  /** The leading bytes with high nibble F, from `p` on, whose sequence does not decode to a surrogate pair. */
  function BrokenFours(t: seq<Byte>, p: nat): (n: nat)
    requires p <= |t|
    decreases |t| - p
  {
    if p == |t| then
      0
    else
      (if t[p] >= 0xf0 && !NeedsPair(DecodeOne(t, p).code) then 1 else 0) + BrokenFours(t, p + 1)
  }

  // ----- The length pass against the converter -----

  lemma {:induction false} GatherTakesExtensions(t: seq<Byte>, p: nat, acc: nat, need: nat)
    requires p <= |t|
    ensures var next := Gather(t, p, acc, need).next;
            && (forall i :: p <= i < next ==> IsExtension(t[i]))
            && (next == p + need || next == |t| || !IsExtension(t[next]))
    decreases need
  {
    if need != 0 && p < |t| && IsExtension(t[p]) {
      GatherTakesExtensions(t, p + 1, acc * 0x40 + t[p] % 0x40, need - 1);
    }
  }

  /** All the bytes of a sequence but the first are continuation bytes. */
  lemma OnlyFirstByteLeads(t: seq<Byte>, p: nat)
    requires p < |t|
    ensures forall i :: p < i < DecodeOne(t, p).next ==> IsExtension(t[i])
  {
  }

  /** Only a four-byte form can reach past U+FFFF. */
  lemma ShortFormsStayInPlaneZero(t: seq<Byte>, p: nat)
    requires p < |t| && t[p] < 0xf0
    ensures DecodeOne(t, p).code <= 0xffff
  {
  }

  /** What is still expected does not matter when it is not positive, or when no continuation byte follows. */
  lemma {:induction false} CountForgets(t: seq<Byte>, p: nat, e: int)
    requires p <= |t| && (e <= 0 || p == |t| || !IsExtension(t[p]))
    ensures Count(t, p, e) == Count(t, p, 0)
    decreases |t| - p
  {
    if p < |t| && IsExtension(t[p]) {
      CountForgets(t, p + 1, e - 1);
      CountForgets(t, p + 1, -1);
    }
  }

  /** Expected continuation bytes are free. */
  lemma {:induction false} CountSkips(t: seq<Byte>, p: nat, q: nat, e: int)
    requires p <= q <= |t| && q - p <= e
    requires forall i :: p <= i < q ==> IsExtension(t[i])
    ensures Count(t, p, e) == Count(t, q, e - (q - p))
    ensures BrokenFours(t, p) == BrokenFours(t, q)
    decreases q - p
  {
    if p < q {
      CountSkips(t, p + 1, q, e - 1);
    }
  }

  /**
    The byte counter is exact up to the broken four-byte forms, on every byte string, well formed or not:
    each of them is counted as two units but decodes to one.
  */
  lemma {:induction false} LengthGap(t: seq<Byte>, p: nat)
    requires p <= |t|
    ensures Count(t, p, 0) == |Decode(t, p)| + BrokenFours(t, p)
    decreases |t| - p
  {
    if p < |t| {
      var next := DecodeOne(t, p).next;
      LengthGap(t, next);
      if IsExtension(t[p]) {
        CountForgets(t, p + 1, -1);
      } else {
        var more := SeqLength(t[p]) - 1;
        GatherTakesExtensions(t, p + 1, LeadBits(t[p]), more);
        CountSkips(t, p + 1, next, more);
        CountForgets(t, next, more - (next - (p + 1)));
        if t[p] < 0xf0 {
          ShortFormsStayInPlaneZero(t, p);
        }
      }
    }
  }

  // ----- C strings -----

  ghost predicate IsContent(t: seq<Byte>, m: seq<Byte>) {
    && |t| < |m| && m[|t|] == 0
    && forall i :: 0 <= i < |t| ==> t[i] == m[i] && t[i] != 0
  }

  /** Where the first NUL at or after `p` is. */
  ghost function Nul(m: seq<Byte>, p: nat): (n: nat)
    requires p <= |m| && 0 in m[p..]
    ensures p <= n < |m| && m[n] == 0 && forall i :: p <= i < n ==> m[i] != 0
    decreases |m| - p
  {
    if m[p] == 0 then p else Nul(m, p + 1)
  }

  ghost function Content(m: seq<Byte>): (t: seq<Byte>)
    requires 0 in m
    ensures IsContent(t, m)
  {
    assert m[0..] == m;
    m[..Nul(m, 0)]
  }

  /** `strlen8to16`. */
  method StrLen8to16(m: seq<Byte>) returns (len: nat)
    requires 0 in m
    ensures len == |Decode(Content(m), 0)| + BrokenFours(Content(m), 0)
  {
    ghost var t := Content(m);
    len := 0;
    var p, expected := 0, 0;
    while m[p] != 0
      invariant 0 <= p <= |t|
      invariant len + Count(t, p, expected) == Count(t, 0, 0)
      decreases |t| - p
    {
      var ic := m[p];
      p := p + 1;
      if IsExtension(ic) {
        expected := expected - 1;
        if expected < 0 {
          len := len + 1;
        }
      } else {
        len := len + 1;
        expected := SeqLength(ic) - 1;
        if expected == 3 {
          len := len + 1;
        }
      }
    }
    LengthGap(t, 0);
  }

  /**
    `getUtf32FromUtf8`: from a byte other than NUL it advances one to four bytes and never past the first NUL;
    at the NUL it does not advance.
  */
  method GetUtf32FromUtf8(m: seq<Byte>, p: nat, ghost t: seq<Byte>) returns (ret: nat, next: nat)
    requires IsContent(t, m) && p <= |t|
    ensures p == |t| ==> ret == 0 && next == p
    ensures p < |t| ==> p < next <= |t| && next <= p + 4 && Scan(ret, next) == DecodeOne(t, p)
  {
    next := p;
    if IsExtension(m[next]) {
      next := next + 1;
      return REPLACEMENT, next;
    }
    var seqLen := SeqLength(m[next]);
    ret := LeadBits(m[next]);
    if m[next] == 0 {
      return;
    }
    next := next + 1;
    var i := 1;
    while i < seqLen
      invariant 1 <= i <= seqLen && next == p + i <= |t|
      invariant DecodeOne(t, p) == Gather(t, next, ret, seqLen - i)
    {
      if m[next] == 0 {
        return REPLACEMENT, next;
      }
      if !IsExtension(m[next]) {
        return REPLACEMENT, next;
      }
      ret := ret * 0x40 + m[next] % 0x40;
      i, next := i + 1, next + 1;
    }
  }

  /** The branch shared by both converter loops: `*dest++ = ...` for one code point. */
  method PutCode(dest: array<Unit>, d: nat, ret: nat) returns (next: nat)
    requires d + |Emit(ret)| <= dest.Length
    modifies dest
    ensures next == d + |Emit(ret)|
    ensures forall i :: d <= i < next ==> dest[i] == Emit(ret)[i - d]
    ensures forall i :: 0 <= i < d || next <= i < dest.Length ==> dest[i] == old(dest[i])
  {
    next := d;
    if ret <= 0xffff {
      dest[next] := ret;
      next := next + 1;
    } else if ret <= UNICODE_UPPER_LIMIT {
      dest[next] := 0xd800 + (ret - 0x1_0000) / 0x400;
      next := next + 1;
      dest[next] := 0xdc00 + (ret - 0x1_0000) % 0x400;
      next := next + 1;
    } else {
      dest[next] := REPLACEMENT;
      next := next + 1;
    }
  }

  /** `strcpy8to16`: the buffer needs room for the decoded units only, and nothing else is written. */
  method StrCpy8to16(dest: array<Unit>, m: seq<Byte>) returns (outLen: nat)
    requires 0 in m && |Decode(Content(m), 0)| <= dest.Length
    modifies dest
    ensures outLen == |Decode(Content(m), 0)|
    ensures dest[..] == Decode(Content(m), 0) + old(dest[..])[outLen..]
  {
    hide Emit, DecodeOne;
    ghost var t, was := Content(m), dest[..];
    ghost var all := Decode(t, 0);
    var p := 0;
    outLen := 0;
    while m[p] != 0
      invariant 0 <= p <= |t|
      invariant outLen <= |all| && Decode(t, p) == all[outLen..]
      invariant forall i :: 0 <= i < outLen ==> dest[i] == all[i]
      invariant forall i :: outLen <= i < dest.Length ==> dest[i] == was[i]
      decreases |t| - p
    {
      var ret, next := GetUtf32FromUtf8(m, p, t);
      Chunk(all, outLen, Emit(ret), Decode(t, next));
      outLen := PutCode(dest, outLen, ret);
      p := next;
    }
    FrontAndRest(dest[..], all, was);
  }

  lemma DoubleFits(len: nat, sizeMax: nat)
    requires len != 0
    ensures sizeMax / len < 2 <==> sizeMax < 2 * len
  {
  }

  /** How `strdup8to16` ends: a null pointer, a buffer and its length, or a write through the null of `malloc`. */
  datatype Dup = NullPointer | Duplicate(buf: array<Unit>, outLen: nat) | NullWrite

  /**
    `strdup8to16` on a non-null string.  The counted length is always room enough.  The result of `malloc` is not
    looked at: when it fails, the converter writes through the null pointer, unless the string is empty.
  */
  method StrDup8to16(m: seq<Byte>, sizeMax: nat, mallocOk: bool) returns (ret: Dup)
    requires 0 in m
    ensures var t := Content(m);
            var overflows := 2 * (|Decode(t, 0)| + BrokenFours(t, 0)) > sizeMax;
            && (ret.NullPointer? <==> overflows || (!mallocOk && t == []))
            && (ret.NullWrite? <==> !overflows && !mallocOk && t != [])
    ensures ret.Duplicate? ==>
              && fresh(ret.buf) && ret.outLen == |Decode(Content(m), 0)| <= ret.buf.Length
              && ret.buf[..ret.outLen] == Decode(Content(m), 0)
  {
    var len := StrLen8to16(m);
    if len != 0 {
      DoubleFits(len, sizeMax);
      if sizeMax / len < 2 {
        return NullPointer;
      }
    }
    if !mallocOk {
      return if m[0] != 0 then NullWrite else NullPointer;
    }
    var buf := new Unit[len];
    var outLen := StrCpy8to16(buf, m);
    ret := Duplicate(buf, outLen);
  }

  // ----- The length-limited converter -----

  /** The first place at or after `k` where a sequence of `t` ends, starting from the sequence end `p`. */
  function CutPoint(t: seq<Byte>, p: nat, k: int): (cut: nat)
    requires p <= |t| && k <= |t|
    ensures p <= cut <= |t| && (k <= p ==> cut == p) && (p <= k ==> k <= cut < k + 4)
    decreases |t| - p
  {
    if k <= p then p else CutPoint(t, DecodeOne(t, p).next, k)
  }

  /** A limit at the end of the content or in front of a leading byte is a sequence end. */
  lemma {:induction false} CutsInFrontOfLeads(t: seq<Byte>, p: nat, k: nat)
    requires p <= k <= |t| && (k == |t| || !IsExtension(t[k]))
    ensures CutPoint(t, p, k) == k
    decreases |t| - p
  {
    if p < k {
      OnlyFirstByteLeads(t, p);
      CutsInFrontOfLeads(t, DecodeOne(t, p).next, k);
    }
  }

  lemma {:induction false} GatherLocal(t: seq<Byte>, p: nat, acc: nat, need: nat, k: nat)
    requires p <= k <= |t| && Gather(t, p, acc, need).next <= k
    ensures Gather(t[..k], p, acc, need) == Gather(t, p, acc, need)
    decreases need
  {
    if need != 0 && p < |t| && IsExtension(t[p]) {
      GatherLocal(t, p + 1, acc * 0x40 + t[p] % 0x40, need - 1, k);
    }
  }

  /** A sequence that ends within the first `k` bytes decodes alike when the string is cut there. */
  lemma DecodeOneLocal(t: seq<Byte>, p: nat, k: nat)
    requires p < |t| && DecodeOne(t, p).next <= k <= |t|
    ensures DecodeOne(t[..k], p) == DecodeOne(t, p)
  {
    if !IsExtension(t[p]) {
      GatherLocal(t, p + 1, LeadBits(t[p]), SeqLength(t[p]) - 1, k);
    }
  }

  /** Cutting at a sequence end splits the decoding. */
  lemma {:induction false} DecodeSplitsAtCut(t: seq<Byte>, p: nat, k: int)
    requires p <= |t| && k <= |t|
    ensures var cut := CutPoint(t, p, k); Decode(t, p) == Decode(t[..cut], p) + Decode(t, cut)
    decreases |t| - p
  {
    hide Emit, DecodeOne;
    if p < k {
      var r := DecodeOne(t, p);
      DecodeSplitsAtCut(t, r.next, k);
      DecodeOneLocal(t, p, CutPoint(t, p, k));
    }
  }

  /**
    `strcpylen8to16` on a range without NUL (it would never leave one): it converts the range extended to the
    next sequence end, exactly as `strcpy8to16` converts that prefix alone.
  */
  method StrCpyLen8to16(dest: array<Unit>, m: seq<Byte>, length: int) returns (outLen: nat)
    requires 0 in m && length <= |Content(m)|
    requires |Decode(Content(m)[..CutPoint(Content(m), 0, length)], 0)| <= dest.Length
    modifies dest
    ensures var t := Content(m);
            var prefix := t[..CutPoint(t, 0, length)];
            outLen == |Decode(prefix, 0)| && dest[..] == Decode(prefix, 0) + old(dest[..])[outLen..]
  {
    hide Emit, DecodeOne;
    ghost var t, was := Content(m), dest[..];
    ghost var cut := CutPoint(t, 0, length);
    ghost var all := Decode(t[..cut], 0);
    var p, end := 0, length;
    outLen := 0;
    while p < end
      invariant 0 <= p <= cut && CutPoint(t, p, length) == cut
      invariant outLen <= |all| && Decode(t[..cut], p) == all[outLen..]
      invariant forall i :: 0 <= i < outLen ==> dest[i] == all[i]
      invariant forall i :: outLen <= i < dest.Length ==> dest[i] == was[i]
    {
      var ret, next := GetUtf32FromUtf8(m, p, t);
      DecodeOneLocal(t, p, cut);
      Chunk(all, outLen, Emit(ret), Decode(t[..cut], next));
      outLen := PutCode(dest, outLen, ret);
      p := next;
    }
    FrontAndRest(dest[..], all, was);
  }
}
