/** The bit-packing contract every record layout relies on.

    A record is an ordered list of fields, each with a declared bit width.
    Fields are written most-significant-bit first and multi-byte values
    big-endian, so the whole record, read as a bit string, is one big-endian
    number in which the fields follow each other from the high end.  Packing
    works on that number: `Concat` builds it from the raw field values,
    `Split` takes it apart again, and `ToBytes`/`FromBytes` convert between
    the number and its big-endian bytes. */
module Packing {
  import opened Common

  function Pow2(n: nat): (r: nat)
    ensures r > 0
  {
    if n == 0 then 1 else 2 * Pow2(n - 1)
  }

  /** The field sizes the records use. */
  lemma Pow2Values()
    ensures Pow2(1) == 2 && Pow2(2) == 4 && Pow2(4) == 16 && Pow2(8) == 0x100
    ensures Pow2(12) == 0x1000 && Pow2(15) == 0x8000 && Pow2(16) == 0x1_0000
    ensures Pow2(24) == 0x100_0000 && Pow2(29) == 0x2000_0000
    ensures Pow2(64) == 0x1_0000_0000_0000_0000
  {
    Pow2Low();
    Pow2High();
  }

  lemma Pow2Low()
    ensures Pow2(1) == 2 && Pow2(2) == 4 && Pow2(4) == 16 && Pow2(8) == 0x100
    ensures Pow2(12) == 0x1000 && Pow2(15) == 0x8000 && Pow2(16) == 0x1_0000
  {
    assert Pow2(4) == 16;
    assert Pow2(8) == 0x100 by { Pow2Add(4, 4); }
    assert Pow2(12) == 0x1000 by { Pow2Add(8, 4); }
    assert Pow2(15) == 0x8000 by { Pow2Add(12, 3); }
    assert Pow2(16) == 0x1_0000 by { Pow2Add(8, 8); }
  }

  lemma Pow2High()
    ensures Pow2(24) == 0x100_0000 && Pow2(29) == 0x2000_0000
    ensures Pow2(32) == 0x1_0000_0000 && Pow2(64) == 0x1_0000_0000_0000_0000
  {
    Pow2Low();
    Pow2Add(16, 8);
    Pow2Add(24, 4);
    Pow2Add(28, 1);
    Pow2Add(16, 16);
    Pow2Add(32, 32);
  }

  lemma {:induction false} Pow2Add(a: nat, b: nat)
    ensures Pow2(a + b) == Pow2(a) * Pow2(b)
  {
    if b > 0 {
      Pow2Add(a, b - 1);
      assert Pow2(a + b) == 2 * Pow2(a + b - 1);
    }
  }

  lemma Pow2Byte(k: nat)
    ensures Pow2(8 * (k + 1)) == Pow2(8 * k) * 256
  {
    Pow2Add(8 * k, 8);
    assert Pow2(8) == 256;
  }

  lemma MulNonNegative(x: int, y: int)
    requires x >= 0 && y >= 0
    ensures x * y >= 0
  {}

  lemma MulDistributes(a: int, b: int, d: int)
    ensures (a - b) * d == a * d - b * d
  {}

  lemma DivMod(n: int, d: int)
    requires d > 0
    ensures (n / d) * d + n % d == n
  {}

  /** Division by a positive divisor is unique: the quotient and remainder of
      q * d + r with 0 <= r < d are q and r. */
  lemma DivModUnique(q: int, r: int, d: int)
    requires d > 0 && 0 <= r < d
    ensures (q * d + r) / d == q && (q * d + r) % d == r
  {
    var n := q * d + r;
    var q', r' := n / d, n % d;
    assert n == q' * d + r';
    MulDistributes(q, q', d);
    if q > q' {
      MulNonNegative(q - q' - 1, d);
      MulDistributes(q - q', 1, d);
    } else if q < q' {
      MulNonNegative(q' - q - 1, d);
      MulDistributes(q' - q, 1, d);
      MulDistributes(q', q, d);
    }
  }

  /** a * d + r stays below b * d when a < b and r < d. */
  lemma MulBound(a: nat, b: nat, r: nat, d: nat)
    requires a < b && r < d
    ensures a * d + r < b * d
  {
    MulNonNegative(b - a - 1, d);
    MulDistributes(b - a, 1, d);
    MulDistributes(b, a, d);
  }

  /** The bit width of each field of a record, in wire order. */
  type Layout = seq<nat>

  function TotalBits(layout: Layout): nat {
    if layout == [] then 0 else TotalBits(layout[..|layout| - 1]) + layout[|layout| - 1]
  }

  /** A flag as a one-bit raw value. */
  function Bit(b: bool): (v: nat)
    ensures v < 2 && (b <==> v == 1)
  {
    if b then 1 else 0
  }

  /** Every raw value fits its field. */
  predicate Fits(layout: Layout, values: seq<nat>) {
    |values| == |layout| && forall i | 0 <= i < |values| :: values[i] < Pow2(layout[i])
  }

  /** The record as one number: the fields follow each other from the most
      significant end; each value contributes its low `width` bits. */
  function Concat(layout: Layout, values: seq<nat>): (n: nat)
    requires |values| == |layout|
    ensures n < Pow2(TotalBits(layout))
  {
    if layout == [] then 0
    else
      var k := |layout| - 1;
      var front := Concat(layout[..k], values[..k]);
      var d := Pow2(layout[k]);
      DivModBounds(values[k], d);
      AppendBound(front, TotalBits(layout[..k]), values[k] % d, layout[k]);
      front * d + values[k] % d
  }

  /** Appending a `w`-bit field to a `t`-bit number gives a `t + w`-bit one. */
  lemma AppendBound(front: nat, t: nat, v: nat, w: nat)
    requires front < Pow2(t) && v < Pow2(w)
    ensures front * Pow2(w) + v < Pow2(t + w)
  {
    MulBound(front, Pow2(t), v, Pow2(w));
    Pow2Add(t, w);
  }

  /** The raw field values held in the number `n`, read back field by field
      from the least significant end. */
  function Split(layout: Layout, n: nat): (values: seq<nat>)
    ensures Fits(layout, values)
  {
    if layout == [] then []
    else
      var k := |layout| - 1;
      var d := Pow2(layout[k]);
      DivModBounds(n, d);
      var front := Split(layout[..k], n / d);
      FitsSnoc(layout, front, n % d);
      front + [n % d]
  }

  lemma DivModBounds(n: nat, d: nat)
    requires d > 0
    ensures n / d >= 0 && 0 <= n % d < d
  {}

  /** A record's raw values fit when those of all but its last field fit and
      the last value fits the last field. */
  lemma FitsSnoc(layout: Layout, front: seq<nat>, v: nat)
    requires layout != [] && Fits(layout[..|layout| - 1], front)
    requires v < Pow2(layout[|layout| - 1])
    ensures Fits(layout, front + [v])
  {
    var values := front + [v];
    forall i | 0 <= i < |values|
      ensures values[i] < Pow2(layout[i])
    {
      if i < |front| {
        assert values[i] == front[i];
        assert layout[..|layout| - 1][i] == layout[i];
      }
    }
  }

  lemma {:induction false} SplitConcat(layout: Layout, values: seq<nat>)
    requires Fits(layout, values)
    ensures Split(layout, Concat(layout, values)) == values
  {
    if layout != [] {
      var k := |layout| - 1;
      var d := Pow2(layout[k]);
      var front := Concat(layout[..k], values[..k]);
      var v := values[k];
      DivModUnique(0, v, d);
      assert v % d == v;
      var n := Concat(layout, values);
      assert n == front * d + v;
      DivModUnique(front, v, d);
      assert Split(layout, n) == Split(layout[..k], front) + [v];
      SplitConcat(layout[..k], values[..k]);
      assert values == values[..k] + [v];
    }
  }

  lemma {:induction false} ConcatSplit(layout: Layout, n: nat)
    requires n < Pow2(TotalBits(layout))
    ensures Concat(layout, Split(layout, n)) == n
  {
    if layout != [] {
      var k := |layout| - 1;
      var d := Pow2(layout[k]);
      DivModBounds(n, d);
      var q, r := n / d, n % d;
      var values := Split(layout, n);
      assert values == Split(layout[..k], q) + [r];
      assert values[..k] == Split(layout[..k], q);
      assert q < Pow2(TotalBits(layout[..k])) by {
        Pow2Add(TotalBits(layout[..k]), layout[k]);
        QuotientBound(n, d, Pow2(TotalBits(layout[..k])));
      }
      ConcatSplit(layout[..k], q);
      assert r % d == r by {
        DivModUnique(0, r, d);
      }
      assert Concat(layout, values) == q * d + r;
      DivMod(n, d);
    }
  }

  /** The quotient of a number below `p * d` by `d` is below `p`. */
  lemma QuotientBound(n: nat, d: nat, p: nat)
    requires d > 0 && n < p * d
    ensures n / d < p
  {
    DivMod(n, d);
    if n / d >= p {
      MulNonNegative(n / d - p, d);
      MulDistributes(n / d, p, d);
    }
  }

  /** The number held in a byte sequence, most significant byte first. */
  function FromBytes(s: seq<byte>): (n: nat)
    ensures n < Pow2(8 * |s|)
  {
    if s == [] then 0
    else
      var k := |s| - 1;
      Pow2Byte(k);
      MulBound(FromBytes(s[..k]), Pow2(8 * k), s[k] as nat, 256);
      FromBytes(s[..k]) * 256 + s[k] as nat
  }

  /** The low `len` bytes of `n`, most significant byte first. */
  function ToBytes(n: nat, len: nat): (s: seq<byte>)
    ensures |s| == len
  {
    if len == 0 then [] else ToBytes(n / 256, len - 1) + [(n % 256) as byte]
  }

  lemma {:induction false} FromToBytes(n: nat, len: nat)
    requires n < Pow2(8 * len)
    ensures FromBytes(ToBytes(n, len)) == n
  {
    if len > 0 {
      var s := ToBytes(n, len);
      assert s[..len - 1] == ToBytes(n / 256, len - 1);
      Pow2Byte(len - 1);
      FromToBytes(n / 256, len - 1);
    }
  }

  lemma {:induction false} ToFromBytes(s: seq<byte>)
    ensures ToBytes(FromBytes(s), |s|) == s
  {
    if s != [] {
      var k := |s| - 1;
      DivModUnique(FromBytes(s[..k]), s[k] as int, 256);
      ToFromBytes(s[..k]);
    }
  }

  /** The width of the first field that runs past the first `available`
      bits: the read that fails when the input is too short. */
  function ShortField(layout: Layout, available: nat): (w: nat)
    requires available < TotalBits(layout)
    ensures w in layout
  {
    var k := |layout| - 1;
    if available < TotalBits(layout[..k]) then ShortField(layout[..k], available) else layout[k]
  }

  /** A layout whose widths add up to whole bytes. */
  type ByteLayout = layout: Layout | TotalBits(layout) % 8 == 0 witness []

  /** The bytes of a record whose widths add up to whole bytes. */
  function Pack(layout: ByteLayout, values: seq<nat>): (bytes: seq<byte>)
    requires |values| == |layout|
    ensures 8 * |bytes| == TotalBits(layout)
  {
    ToBytes(Concat(layout, values), TotalBits(layout) / 8)
  }

  /** The raw field values at the start of `bytes`; fails with `Incomplete`
      when the input holds fewer bits than the layout declares. */
  function Unpack(layout: ByteLayout, bytes: seq<byte>): (r: Result<seq<nat>>)
    ensures r.Ok? <==> 8 * |bytes| >= TotalBits(layout)
    ensures r.Ok? ==> Fits(layout, r.value)
    ensures r.Err? ==> r.error.Incomplete? && r.error.bits in layout
  {
    if 8 * |bytes| < TotalBits(layout) then Err(Incomplete(ShortField(layout, 8 * |bytes|)))
    else Ok(Split(layout, FromBytes(bytes[..TotalBits(layout) / 8])))
  }

  /** Unpacking what was packed gives back the raw values, each cut to its
      field's width. */
  lemma UnpackPackTruncates(layout: ByteLayout, values: seq<nat>)
    requires |values| == |layout|
    ensures Unpack(layout, Pack(layout, values)).Ok?
    ensures forall i | 0 <= i < |values| ::
      Unpack(layout, Pack(layout, values)).value[i] == values[i] % Pow2(layout[i])
  {
    var n := Concat(layout, values);
    var bytes := Pack(layout, values);
    assert bytes[..TotalBits(layout) / 8] == bytes;
    FromToBytes(n, TotalBits(layout) / 8);
    var cut := seq(|values|, i requires 0 <= i < |values| => values[i] % Pow2(layout[i]));
    ConcatCut(layout, values, cut);
    SplitConcat(layout, cut);
  }

  /** Cutting every value to its width does not change the record's number. */
  lemma {:induction false} ConcatCut(layout: Layout, values: seq<nat>, cut: seq<nat>)
    requires |values| == |layout| == |cut|
    requires forall i | 0 <= i < |values| :: cut[i] == values[i] % Pow2(layout[i])
    ensures Concat(layout, values) == Concat(layout, cut)
  {
    if layout != [] {
      var k := |layout| - 1;
      ConcatCut(layout[..k], values[..k], cut[..k]);
      var d := Pow2(layout[k]);
      DivModUnique(0, values[k] % d, d);
    }
  }

  lemma UnpackPack(layout: ByteLayout, values: seq<nat>)
    requires Fits(layout, values)
    ensures Unpack(layout, Pack(layout, values)) == Ok(values)
  {
    var n := Concat(layout, values);
    var bytes := Pack(layout, values);
    assert bytes[..TotalBits(layout) / 8] == bytes;
    FromToBytes(n, TotalBits(layout) / 8);
    SplitConcat(layout, values);
  }

  /** Packing what was unpacked gives back the bytes the layout covers: the
      whole input when it has exactly the record's length. */
  lemma PackUnpack(layout: ByteLayout, bytes: seq<byte>)
    requires 8 * |bytes| >= TotalBits(layout)
    ensures Unpack(layout, bytes).Ok?
    ensures Pack(layout, Unpack(layout, bytes).value) == bytes[..TotalBits(layout) / 8]
  {
    var prefix := bytes[..TotalBits(layout) / 8];
    ConcatSplit(layout, FromBytes(prefix));
    ToFromBytes(prefix);
  }

  lemma {:induction false} TotalBitsAppend(a: Layout, b: Layout)
    ensures TotalBits(a + b) == TotalBits(a) + TotalBits(b)
  {
    if b != [] {
      var k := |b| - 1;
      assert (a + b)[..|a + b| - 1] == a + b[..k];
      TotalBitsAppend(a, b[..k]);
    } else {
      assert a + b == a;
    }
  }

  /** Concatenating two records: the first one's number shifted past the
      second one's bits, plus the second one's number. */
  lemma {:induction false} ConcatAppend(la: Layout, va: seq<nat>, lb: Layout, vb: seq<nat>)
    requires |va| == |la| && |vb| == |lb|
    ensures Concat(la + lb, va + vb) == Concat(la, va) * Pow2(TotalBits(lb)) + Concat(lb, vb)
  {
    if lb == [] {
      assert la + lb == la && va + vb == va;
    } else {
      var k := |lb| - 1;
      ConcatAppend(la, va, lb[..k], vb[..k]);
      ConcatAppendLast(la, va, lb, vb);
      ConcatLast(lb, vb);
      assert TotalBits(lb) == TotalBits(lb[..k]) + lb[k];
      Pow2Add(TotalBits(lb[..k]), lb[k]);
      Shift(Concat(la + lb[..k], va + vb[..k]), Concat(la, va), Pow2(TotalBits(lb[..k])),
        Concat(lb[..k], vb[..k]), Pow2(lb[k]), vb[k] % Pow2(lb[k]), Pow2(TotalBits(lb)));
    }
  }

  /** The last field of a joined record is the second record's last field. */
  lemma {:induction false} ConcatAppendLast(la: Layout, va: seq<nat>, lb: Layout, vb: seq<nat>)
    requires |va| == |la| && |vb| == |lb| && lb != []
    ensures var k := |lb| - 1;
      Concat(la + lb, va + vb)
      == Concat(la + lb[..k], va + vb[..k]) * Pow2(lb[k]) + vb[k] % Pow2(lb[k])
  {
    var k := |lb| - 1;
    var l, v := la + lb, va + vb;
    assert l[..|l| - 1] == la + lb[..k] && v[..|v| - 1] == va + vb[..k];
    assert l[|l| - 1] == lb[k] && v[|v| - 1] == vb[k];
    ConcatLast(l, v);
  }

  /** The arithmetic step of the append lemmas. */
  lemma Shift(front: int, a: int, p: int, c: int, d: int, r: int, pd: int)
    requires front == a * p + c && pd == p * d
    ensures front * d + r == a * pd + (c * d + r)
  {
    MulAssociates(a, p, c, d);
  }

  lemma {:induction false} ConcatLast(layout: Layout, values: seq<nat>)
    requires |values| == |layout| && layout != []
    ensures var k := |layout| - 1;
      Concat(layout, values)
      == Concat(layout[..k], values[..k]) * Pow2(layout[k]) + values[k] % Pow2(layout[k])
  {}

  lemma MulAssociates(a: int, p: int, c: int, d: int)
    ensures (a * p + c) * d == a * (p * d) + c * d
  {}

  /** Reading two byte strings one after the other. */
  lemma {:induction false} FromBytesAppend(a: seq<byte>, b: seq<byte>)
    ensures FromBytes(a + b) == FromBytes(a) * Pow2(8 * |b|) + FromBytes(b)
  {
    if b == [] {
      assert a + b == a;
    } else {
      var k := |b| - 1;
      assert (a + b)[..|a + b| - 1] == a + b[..k];
      FromBytesAppend(a, b[..k]);
      var x, p, c := FromBytes(a), Pow2(8 * k), FromBytes(b[..k]);
      var front := FromBytes(a + b[..k]);
      assert FromBytes(a + b) == front * 256 + b[k] as nat;
      assert FromBytes(b) == c * 256 + b[k] as nat;
      assert Pow2(8 * |b|) == p * 256 by {
        Pow2Byte(k);
      }
      Shift(front, x, p, c, 256, b[k] as nat, Pow2(8 * |b|));
    }
  }

  /** One more field at the end of a layout. */
  lemma TotalBitsSnoc(layout: Layout, w: nat)
    ensures TotalBits(layout + [w]) == TotalBits(layout) + w
  {
    assert (layout + [w])[..|layout|] == layout;
  }

  /** The widths of short layouts and of runs of equal fields add up. */
  lemma TotalBits2(a: nat, b: nat)
    ensures TotalBits([a, b]) == a + b
  {
    TotalBitsSnoc([a], b);
    assert [a] + [b] == [a, b];
  }

  lemma TotalBits3(a: nat, b: nat, c: nat)
    ensures TotalBits([a, b, c]) == a + b + c
  {
    TotalBits2(a, b);
    TotalBitsSnoc([a, b], c);
    assert [a, b] + [c] == [a, b, c];
  }

  lemma TotalBits4(a: nat, b: nat, c: nat, d: nat)
    ensures TotalBits([a, b, c, d]) == a + b + c + d
  {
    TotalBits3(a, b, c);
    TotalBitsSnoc([a, b, c], d);
    assert [a, b, c] + [d] == [a, b, c, d];
  }

  lemma {:induction false} TotalBitsRepeat(n: nat, w: nat)
    ensures TotalBits(seq(n, _ => w)) == n * w
  {
    if n > 0 {
      TotalBitsRepeat(n - 1, w);
      assert seq(n, _ => w)[..n - 1] == seq(n - 1, _ => w);
    }
  }

  /** Eight byte-wide fields, and eight one-bit fields.  The runs are
      written out as displays; the lemmas below give their other form. */
  const BYTES_8: Layout := [8, 8, 8, 8, 8, 8, 8, 8]
  const FLAGS_8: Layout := [1, 1, 1, 1, 1, 1, 1, 1]

  lemma Bytes8Bits()
    ensures BYTES_8 == seq(8, _ => 8) && TotalBits(BYTES_8) == 64
  {
    TotalBitsRepeat(8, 8);
  }

  lemma Flags8Bits()
    ensures FLAGS_8 == seq(8, _ => 1) && TotalBits(FLAGS_8) == 8
  {
    TotalBitsRepeat(8, 1);
  }

  /** Two byte-aligned pieces that each read as their fields read together as
      the joined fields: a long record is checked piece by piece. */
  lemma JoinPieces(la: Layout, va: seq<nat>, ba: seq<byte>, lb: Layout, vb: seq<nat>, bb: seq<byte>)
    requires |va| == |la| && |vb| == |lb| && TotalBits(lb) == 8 * |bb|
    requires FromBytes(ba) == Concat(la, va) && FromBytes(bb) == Concat(lb, vb)
    ensures FromBytes(ba + bb) == Concat(la + lb, va + vb)
  {
    FromBytesAppend(ba, bb);
    ConcatAppend(la, va, lb, vb);
  }

  /** A record whose bytes read as the number the raw values concatenate
      to: it unpacks to exactly those values and packs back to exactly those
      bytes.  This is how concrete records are checked. */
  lemma UnpackExact(layout: ByteLayout, values: seq<nat>, bytes: seq<byte>)
    requires Fits(layout, values) && 8 * |bytes| == TotalBits(layout)
    requires FromBytes(bytes) == Concat(layout, values)
    ensures Unpack(layout, bytes) == Ok(values)
    ensures Pack(layout, values) == bytes
  {
    assert bytes[..TotalBits(layout) / 8] == bytes;
    SplitConcat(layout, values);
    ToFromBytes(bytes);
  }

  /** A record of one field holds that field's value. */
  lemma ConcatOne(w: nat, x: nat)
    requires x < Pow2(w)
    ensures Concat([w], [x]) == x
  {
    var l, v := [w], [x];
    assert l[..0] == [] && v[..0] == [];
    assert Concat(l, v) == Concat(l[..0], v[..0]) * Pow2(w) + x % Pow2(w);
    DivModUnique(0, x, Pow2(w));
  }

  /** One more field at the high end of a record: its value lands above all
      the bits of the rest. */
  lemma ConcatCons(w: nat, x: nat, layout: Layout, values: seq<nat>)
    requires |values| == |layout| && x < Pow2(w)
    ensures Concat([w] + layout, [x] + values) == x * Pow2(TotalBits(layout)) + Concat(layout, values)
  {
    ConcatAppend([w], [x], layout, values);
    ConcatOne(w, x);
  }

  /** The first k + 1 one-bit fields hold the first k shifted by one bit,
      plus the next flag. */
  lemma FlagsStep(flags: seq<nat>, k: nat)
    requires k < |flags| && flags[k] < 2
    ensures Concat(seq(k + 1, _ => 1), flags[..k + 1]) == Concat(seq(k, _ => 1), flags[..k]) * 2 + flags[k]
  {
    var l, v := seq(k + 1, _ => 1), flags[..k + 1];
    assert l[..k] == seq(k, _ => 1) && v[..k] == flags[..k];
    ConcatLast(l, v);
    DivModUnique(0, flags[k], 2);
  }

  /** Eight one-bit fields make one byte, the first field the most
      significant bit. */
  lemma FlagsByte(flags: seq<nat>)
    requires |flags| == 8 && forall i | 0 <= i < 8 :: flags[i] < 2
    ensures Concat(seq(8, _ => 1), flags)
      == flags[0] * 128 + flags[1] * 64 + flags[2] * 32 + flags[3] * 16
       + flags[4] * 8 + flags[5] * 4 + flags[6] * 2 + flags[7]
  {
    FlagsNibble(flags);
    FlagsLowNibble(flags);
    assert flags[..8] == flags;
  }

  lemma FlagsLowNibble(flags: seq<nat>)
    requires |flags| == 8 && forall i | 0 <= i < 8 :: flags[i] < 2
    ensures Concat(seq(8, _ => 1), flags[..8])
      == Concat(seq(4, _ => 1), flags[..4]) * 16 + flags[4] * 8 + flags[5] * 4 + flags[6] * 2 + flags[7]
  {
    FlagsStep(flags, 4);
    FlagsStep(flags, 5);
    FlagsStep(flags, 6);
    FlagsStep(flags, 7);
  }

  lemma FlagsNibble(flags: seq<nat>)
    requires |flags| == 8 && forall i | 0 <= i < 8 :: flags[i] < 2
    ensures Concat(seq(4, _ => 1), flags[..4]) == flags[0] * 8 + flags[1] * 4 + flags[2] * 2 + flags[3]
  {
    assert Concat(seq(0, _ => 1), flags[..0]) == 0;
    FlagsStep(flags, 0);
    FlagsStep(flags, 1);
    FlagsStep(flags, 2);
    FlagsStep(flags, 3);
  }

  /** Two bytes read as a 16-bit number. */
  lemma FromBytes2(a: byte, b: byte)
    ensures FromBytes([a, b]) == a as nat * 0x100 + b as nat
  {
    assert [a, b][..1] == [a];
    assert [a][..0] == [];
  }
  /** A record whose first field is a whole byte: the field reads as the
      first byte of the input, and the other fields as what the other bytes
      hold. */
  lemma UnpackFirstByte(layout: ByteLayout, bytes: seq<byte>)
    requires |layout| > 0 && layout[0] == 8 && 8 <= TotalBits(layout) <= 8 * |bytes|
    ensures Unpack(layout, bytes).Ok?
    ensures Unpack(layout, bytes).value
      == [bytes[0] as nat] + Split(layout[1..], FromBytes(bytes[1..TotalBits(layout) / 8]))
  {
    var k := TotalBits(layout) / 8;
    var prefix := bytes[..k];
    assert prefix[1..] == bytes[1..k];
    FirstByteField(layout, prefix);
  }

  /** Writing another byte at the start of such a record changes the first
      field and nothing else. */
  lemma UnpackSetFirstByte(layout: ByteLayout, bytes: seq<byte>, b: byte)
    requires |layout| > 0 && layout[0] == 8 && 8 <= TotalBits(layout) <= 8 * |bytes|
    ensures Unpack(layout, bytes).Ok?
    ensures Unpack(layout, bytes[0 := b]) == Ok(Unpack(layout, bytes).value[0 := b as nat])
  {
    var k := TotalBits(layout) / 8;
    var tail := Split(layout[1..], FromBytes(bytes[1..k]));
    UnpackFirstByte(layout, bytes);
    UnpackFirstByte(layout, bytes[0 := b]);
    assert bytes[0 := b][1..k] == bytes[1..k];
    var updated := Unpack(layout, bytes).value[0 := b as nat];
    assert |updated| == |[b as nat] + tail|;
    assert forall i | 0 <= i < |updated| :: updated[i] == ([b as nat] + tail)[i];
    assert updated == [b as nat] + tail;
  }

  /** The split of the same: the first field is the first byte and the other
      fields hold the number the other bytes make. */
  lemma FirstByteField(layout: Layout, prefix: seq<byte>)
    requires |layout| > 0 && layout[0] == 8 && 8 * |prefix| == TotalBits(layout) && |prefix| > 0
    ensures Split(layout, FromBytes(prefix)) == [prefix[0] as nat] + Split(layout[1..], FromBytes(prefix[1..]))
  {
    var values := Split(layout, FromBytes(prefix));
    FirstByteParts(layout, prefix);
    FitsTail(layout, values);
    SplitConcat(layout[1..], values[1..]);
    assert values == [values[0]] + values[1..];
  }

  /** The arithmetic of the same: the high byte and the rest agree. */
  lemma FirstByteParts(layout: Layout, prefix: seq<byte>)
    requires |layout| > 0 && layout[0] == 8 && 8 * |prefix| == TotalBits(layout) && |prefix| > 0
    ensures Split(layout, FromBytes(prefix))[0] == prefix[0] as nat
    ensures Concat(layout[1..], Split(layout, FromBytes(prefix))[1..]) == FromBytes(prefix[1..])
  {
    var values := Split(layout, FromBytes(prefix));
    ConcatSplit(layout, FromBytes(prefix));
    FirstField(layout, values);
    FirstByte(prefix);
    var rest, t := layout[1..], TotalBits(layout[1..]);
    assert 8 * (|prefix| - 1) == t;
    var p := Pow2(t);
    assert FromBytes(prefix) == prefix[0] as nat * p + FromBytes(prefix[1..]);
    assert Concat(layout, values) == values[0] * p + Concat(rest, values[1..]);
    HighLow(values[0], Concat(rest, values[1..]), prefix[0] as nat, FromBytes(prefix[1..]), p);
  }

  /** The fields after the first fit the layout after the first. */
  lemma FitsTail(layout: Layout, values: seq<nat>)
    requires Fits(layout, values) && |layout| > 0
    ensures Fits(layout[1..], values[1..])
  {
    forall i | 0 <= i < |layout| - 1
      ensures values[1..][i] < Pow2(layout[1..][i])
    {
      assert values[1..][i] == values[i + 1] && layout[1..][i] == layout[i + 1];
    }
  }

  /** Two numbers written with the same low part size agree in both parts. */
  lemma HighLow(a: nat, c: nat, b: nat, f: nat, p: nat)
    requires c < p && f < p && a * p + c == b * p + f
    ensures a == b && c == f
  {
    DivModUnique(a, c, p);
    DivModUnique(b, f, p);
  }

  /** The first field of a record whose first field is a byte. */
  lemma FirstField(layout: Layout, values: seq<nat>)
    requires |layout| > 0 && layout[0] == 8 && |values| == |layout| && values[0] < 0x100
    ensures TotalBits(layout) == 8 + TotalBits(layout[1..])
    ensures Concat(layout, values) == values[0] * Pow2(TotalBits(layout[1..])) + Concat(layout[1..], values[1..])
  {
    assert layout == [8] + layout[1..];
    assert values == [values[0]] + values[1..];
    TotalBitsAppend([8], layout[1..]);
    assert TotalBits([8]) == 8 by {
      assert [8][..0] == [];
    }
    Pow2Low();
    ConcatCons(8, values[0], layout[1..], values[1..]);
  }

  /** The first byte of a byte string. */
  lemma FirstByte(s: seq<byte>)
    requires |s| > 0
    ensures FromBytes(s) == s[0] as nat * Pow2(8 * (|s| - 1)) + FromBytes(s[1..])
  {
    var h, t := s[..1], s[1..];
    assert h + t == s;
    FromBytesAppend(h, t);
    assert FromBytes(h) == s[0] as nat by {
      assert h[..0] == [];
    }
  }
  /** A byte string as the raw values of a run of byte-wide fields. */
  function ByteValues(s: seq<byte>): (r: seq<nat>)
    ensures |r| == |s| && forall i | 0 <= i < |s| :: r[i] == s[i] as nat
  {
    seq(|s|, i requires 0 <= i < |s| => s[i] as nat)
  }

  lemma ByteValuesInjective(a: seq<byte>, b: seq<byte>)
    requires ByteValues(a) == ByteValues(b)
    ensures a == b
  {
    assert forall i | 0 <= i < |a| :: a[i] as nat == ByteValues(a)[i];
  }

  /** The byte string whose values are the given raw values. */
  function ValuesBytes(r: seq<nat>): (s: seq<byte>)
    requires forall i | 0 <= i < |r| :: r[i] < 0x100
    ensures ByteValues(s) == r
  {
    var s := seq(|r|, i requires 0 <= i < |r| => r[i] as byte);
    assert ByteValues(s) == r;
    s
  }

  /** A run of byte-wide fields reads as the bytes it holds. */
  lemma {:induction false} ConcatBytes(s: seq<byte>)
    ensures Concat(seq(|s|, _ => 8), ByteValues(s)) == FromBytes(s)
  {
    if s != [] {
      var k := |s| - 1;
      var l, v := seq(|s|, _ => 8), ByteValues(s);
      assert l[..k] == seq(k, _ => 8) && v[..k] == ByteValues(s[..k]);
      ConcatBytes(s[..k]);
      Pow2Low();
      DivModUnique(0, s[k] as nat, 0x100);
    }
  }

  /** Fields that are all zero make the number zero, and so do zero bytes. */
  lemma {:induction false} ConcatZeros(layout: Layout, values: seq<nat>)
    requires |values| == |layout| && forall i | 0 <= i < |values| :: values[i] == 0
    ensures Concat(layout, values) == 0
  {
    if layout != [] {
      var k := |layout| - 1;
      ConcatZeros(layout[..k], values[..k]);
      DivModUnique(0, 0, Pow2(layout[k]));
    }
  }

  lemma {:induction false} FromBytesZeros(s: seq<byte>)
    requires forall i | 0 <= i < |s| :: s[i] == 0
    ensures FromBytes(s) == 0
  {
    if s != [] {
      FromBytesZeros(s[..|s| - 1]);
    }
  }

  /** One byte read as a number. */
  lemma FromBytes1(a: byte)
    ensures FromBytes([a]) == a as nat
  {
    assert [a][..0] == [];
  }

  /** Three bytes read as a 24-bit number. */
  lemma FromBytes3(a: byte, b: byte, c: byte)
    ensures FromBytes([a, b, c]) == a as nat * 0x1_0000 + b as nat * 0x100 + c as nat
  {
    assert [a, b, c][..2] == [a, b];
    FromBytes2(a, b);
  }

  /** A record of two fields holds the first shifted over the second. */
  lemma Concat2(w: nat, x: nat, v: nat, y: nat)
    requires x < Pow2(w) && y < Pow2(v)
    ensures Concat([w, v], [x, y]) == x * Pow2(v) + y
  {
    assert [w, v][..1] == [w] && [x, y][..1] == [x];
    ConcatOne(w, x);
    DivModUnique(0, y, Pow2(v));
  }

  /** Two records whose raw values fit their layouts fit the joined layout. */
  lemma FitsAppend(la: Layout, va: seq<nat>, lb: Layout, vb: seq<nat>)
    requires Fits(la, va) && Fits(lb, vb)
    ensures Fits(la + lb, va + vb)
  {
    forall i | 0 <= i < |va| + |vb|
      ensures (va + vb)[i] < Pow2((la + lb)[i])
    {
      if i >= |va| {
        assert (va + vb)[i] == vb[i - |va|] && (la + lb)[i] == lb[i - |la|];
      }
    }
  }
}
