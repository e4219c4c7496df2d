/**
  The UTF-16 to JNI "Modified UTF-8" encoder of libshims/strdup16to8.cpp.

  `Encode` is the reference: the bytes of a unit sequence, one unit at a time.  The three C routines are
  methods proved against it.  Shifts, masks and ors are written as division, remainder and sum; the module
  BitIdentities shows that these are the same machine operations.  `size_t` arithmetic wraps modulo
  `sizeMax + 1`, with SIZE_MAX a parameter.
*/
module Utf16to8 {
  import opened Units

  function EncodeUnit(uic: Unit): (bytes: seq<Byte>)
  {
    if uic > 0x07ff then
      [0xe0 + uic / 0x1000, 0x80 + uic / 0x40 % 0x40, 0x80 + uic % 0x40]
    else if uic > 0x7f || uic == 0 then
      [0xc0 + uic / 0x40, 0x80 + uic % 0x40]
    else
      [uic]
  }

  function Encode(units: seq<Unit>): (bytes: seq<Byte>)
  {
    if units == [] then [] else EncodeUnit(units[0]) + Encode(units[1..])
  }

  /** No byte of an encoding is NUL (so the terminator is the only one), and none starts a four-byte form. */
  lemma {:induction false} EncodeHasNoNulAndNoFourByteLead(units: seq<Unit>)
    ensures forall i :: 0 <= i < |Encode(units)| ==> Encode(units)[i] != 0 && Encode(units)[i] < 0xf0
  {
    if units != [] {
      EncodeHasNoNulAndNoFourByteLead(units[1..]);
    }
  }

  /** U+0000 takes the two-byte form 0xc0 0x80; every other unit the form its value needs, surrogates three bytes. */
  lemma EncodedForms(u: Unit)
    ensures u == 0 ==> Encode([u]) == [0xc0, 0x80]
    ensures |Encode([u])| == if 1 <= u <= 0x7f then 1 else if u <= 0x7ff then 2 else 3
  {
    assert Encode([]) == [];
  }

  lemma {:induction false} EncodeLengthBounds(units: seq<Unit>)
    ensures |units| <= |Encode(units)| <= 3 * |units|
  {
    if units != [] {
      EncodeLengthBounds(units[1..]);
    }
  }

  /** Unsigned addition of `size_t` values: modulo SIZE_MAX + 1. */
  function WrapAdd(a: nat, k: nat, sizeMax: nat): (r: nat)
    requires a <= sizeMax && k <= sizeMax
    ensures r == if a + k <= sizeMax then a + k else a + k - (sizeMax + 1)
  {
    assert a + k > sizeMax ==> (a + k) % (sizeMax + 1) == a + k - (sizeMax + 1) by {
      if a + k > sizeMax {
        ModOnce(a + k, sizeMax + 1);
      }
    }
    (a + k) % (sizeMax + 1)
  }

  lemma ModOnce(x: nat, m: nat)
    requires 0 < m <= x < 2 * m
    ensures x % m == x - m
  {
  }

  /**
    `strnlen16to8`: whatever SIZE_MAX is and whichever path runs, the result is the true encoded length,
    saturated at SIZE_MAX - 1.
  */
  method StrnLen16to8(units: seq<Unit>, sizeMax: nat) returns (utf8Len: nat)
    requires 3 <= sizeMax && |units| <= sizeMax
    ensures utf8Len == Min(|Encode(units)|, sizeMax - 1)
  {
    utf8Len := 0;
    var cur: nat, len: nat := 0, |units|;
    EncodeLengthBounds(units);
    if len < (sizeMax - 1) / 3 {
      while len != 0
        invariant cur + len == |units|
        invariant utf8Len + |Encode(units[cur..])| == |Encode(units)|
        decreases len
      {
        len := len - 1;
        var uic := units[cur];
        cur := cur + 1;
        assert units[cur - 1..][1..] == units[cur..];
        if uic > 0x07ff {
          utf8Len := WrapAdd(utf8Len, 3, sizeMax);
        } else if uic > 0x7f || uic == 0 {
          utf8Len := WrapAdd(utf8Len, 2, sizeMax);
        } else {
          utf8Len := WrapAdd(utf8Len, 1, sizeMax);
        }
      }
      return;
    }
    while len != 0
      invariant cur + len == |units|
      invariant utf8Len <= sizeMax
      invariant utf8Len + |Encode(units[cur..])| == |Encode(units)|
      decreases len
    {
      len := len - 1;
      var uic := units[cur];
      cur := cur + 1;
      assert units[cur - 1..][1..] == units[cur..];
      var utf8Cur := utf8Len;
      if uic > 0x07ff {
        utf8Len := WrapAdd(utf8Len, 3, sizeMax);
      } else if uic > 0x7f || uic == 0 {
        utf8Len := WrapAdd(utf8Len, 2, sizeMax);
      } else {
        utf8Len := WrapAdd(utf8Len, 1, sizeMax);
      }
      if utf8Len < utf8Cur {
        return sizeMax - 1;
      }
    }
    if utf8Len == sizeMax {
      utf8Len := sizeMax - 1;
    }
  }

  /** The body of the `strncpy16to8` loop: one unit's bytes go to `dest[at..]`; nothing else changes. */
  method PutUnit(dest: array<Byte>, at: nat, uic: Unit) returns (next: nat)
    requires at + |EncodeUnit(uic)| <= dest.Length
    modifies dest
    ensures next == at + |EncodeUnit(uic)|
    ensures forall i :: at <= i < next ==> dest[i] == EncodeUnit(uic)[i - at]
    ensures forall i :: 0 <= i < at || next <= i < dest.Length ==> dest[i] == old(dest[i])
  {
    next := at;
    if uic > 0x07ff {
      dest[next] := 0xe0 + uic / 0x1000;
      next := next + 1;
      dest[next] := 0x80 + uic / 0x40 % 0x40;
      next := next + 1;
      dest[next] := 0x80 + uic % 0x40;
      next := next + 1;
    } else if uic > 0x7f || uic == 0 {
      dest[next] := 0xc0 + uic / 0x40;
      next := next + 1;
      dest[next] := 0x80 + uic % 0x40;
      next := next + 1;
    } else {
      dest[next] := uic;
      next := next + 1;
    }
  }

  /**
    `strncpy16to8`: fills exactly the encoded length plus one byte of `dest`, the terminator.  (The C loop also
    breaks after writing a zero byte in its last branch; that branch is never taken with a zero unit.)
  */
  method StrnCpy16to8(dest: array<Byte>, units: seq<Unit>)
    requires dest.Length >= |Encode(units)| + 1
    modifies dest
    ensures dest[..] == Encode(units) + [0] + old(dest[..])[|Encode(units)| + 1..]
  {
    ghost var was, all := dest[..], Encode(units);
    var utf8cur: nat, cur: nat, len: nat := 0, 0, |units|;
    while len != 0
      invariant cur + len == |units|
      invariant utf8cur <= |all| && Encode(units[cur..]) == all[utf8cur..]
      invariant forall i :: 0 <= i < utf8cur ==> dest[i] == all[i]
      invariant forall i :: utf8cur <= i < dest.Length ==> dest[i] == was[i]
      decreases len
    {
      len := len - 1;
      var uic := units[cur];
      assert units[cur..][1..] == units[cur + 1..];
      cur := cur + 1;
      Chunk(all, utf8cur, EncodeUnit(uic), Encode(units[cur..]));
      utf8cur := PutUnit(dest, utf8cur, uic);
    }
    dest[utf8cur] := 0;
    assert |all| == utf8cur;
    FrontAndRest(dest[..], all + [0], was);
  }

  /**
    `strndup16to8` with a non-null string: it refuses exactly when the encoding does not fit below
    SIZE_MAX - 1 or `malloc` fails; what it returns is full, terminated, and holds no other NUL.
  */
  method StrnDup16to8(units: seq<Unit>, sizeMax: nat, mallocOk: bool) returns (ret: Option<array<Byte>>)
    requires 3 <= sizeMax && |units| <= sizeMax
    ensures ret.None? <==> |Encode(units)| >= sizeMax - 1 || !mallocOk
    ensures ret.Some? ==>
              && fresh(ret.value)
              && ret.value[..] == Encode(units) + [0]
              && forall i :: 0 <= i < ret.value.Length - 1 ==> ret.value[i] != 0
  {
    var len := StrnLen16to8(units, sizeMax);
    if len >= sizeMax - 1 {
      return None;
    }
    if !mallocOk {
      return None;
    }
    var buf := new Byte[len + 1];
    StrnCpy16to8(buf, units);
    EncodeHasNoNulAndNoFourByteLead(units);
    assert buf[..][..len] == Encode(units);
    ret := Some(buf);
  }
}
