/** Machine integers, casts and small helpers shared by the models. */
module Base {

  datatype Option<+T> = None | Some(value: T)

  const TWO_15 := 0x8000
  const TWO_31 := 0x8000_0000
  const TWO_32 := 0x1_0000_0000
  const TWO_63 := 0x8000_0000_0000_0000
  const TWO_64 := 0x1_0000_0000_0000_0000

  type I16 = n: int | -TWO_15 <= n < TWO_15
  type I32 = n: int | -TWO_31 <= n < TWO_31
  type U32 = n: int | 0 <= n < TWO_32
  type I64 = n: int | -TWO_63 <= n < TWO_63
  type U64 = n: int | 0 <= n < TWO_64

  const I64_MAX: I64 := TWO_63 - 1
  const U64_MAX: U64 := TWO_64 - 1

  type Byte = n: int | 0 <= n < 256

  /** Bound parameters that one SQLite statement may have. */
  const SQLITE_MAX_VARIABLES := 999

  function Min(a: int, b: int): int {
    if a <= b then a else b
  }

  function Max(a: int, b: int): int {
    if a <= b then b else a
  }

  /** Two's complement truncation: the value of an overflowing `i64` operation in a release build. */
  function WrapI64(n: int): (r: I64)
    ensures -TWO_63 <= n < TWO_63 ==> r == n
    ensures (r - n) % TWO_64 == 0
  {
    (n + TWO_63) % TWO_64 - TWO_63
  }

  /** `u64::cast_signed`. */
  function CastSigned64(n: U64): I64 {
    if n < TWO_63 then n else n - TWO_64
  }

  /** `i64::cast_unsigned`. */
  function CastUnsigned64(n: I64): U64 {
    if n < 0 then n + TWO_64 else n
  }

  /** `u32::cast_signed`. */
  function CastSigned32(n: U32): I32 {
    if n < TWO_31 then n else n - TWO_32
  }

  /** `i32::cast_unsigned`. */
  function CastUnsigned32(n: I32): U32 {
    if n < 0 then n + TWO_32 else n
  }

  function SaturatingAdd(a: U64, b: U64): U64 {
    Min(a + b, U64_MAX)
  }

  function SaturatingSub(a: U64, b: U64): U64 {
    Max(a - b, 0)
  }

  function SaturatingMul(a: U64, b: U64): (r: U64)
  {
    var p := a * b;
    assert p >= 0;
    if p < TWO_64 then p else U64_MAX
  }

  function Last<T>(s: seq<T>): T
    requires s != []
  {
    s[|s| - 1]
  }

  function Front<T>(s: seq<T>): seq<T>
    requires s != []
  {
    s[..|s| - 1]
  }

  function Concat<T>(ss: seq<seq<T>>): seq<T> {
    if ss == [] then [] else Concat(Front(ss)) + Last(ss)
  }

  function Elements<T>(s: seq<T>): set<T> {
    set x | x in s
  }

  /** The elements of `s` whose mask bit is set, in order. */
  function Kept<T>(s: seq<T>, mask: seq<bool>): seq<T>
    requires |s| == |mask|
  {
    if s == [] then []
    else Kept(Front(s), Front(mask)) + if Last(mask) then [Last(s)] else []
  }

  lemma KeptSnoc<T>(s: seq<T>, mask: seq<bool>, x: T, bit: bool)
    requires |s| == |mask|
    ensures Kept(s + [x], mask + [bit]) == Kept(s, mask) + if bit then [x] else []
  {
    assert Front(s + [x]) == s && Front(mask + [bit]) == mask;
  }

  lemma {:induction false} KeptAppend<T>(a: seq<T>, ma: seq<bool>, b: seq<T>, mb: seq<bool>)
    requires |a| == |ma| && |b| == |mb|
    ensures Kept(a + b, ma + mb) == Kept(a, ma) + Kept(b, mb)
  {
    if b == [] {
      assert a + b == a && ma + mb == ma;
    } else {
      KeptAppend(a, ma, Front(b), Front(mb));
      assert Front(a + b) == a + Front(b) && Front(ma + mb) == ma + Front(mb);
    }
  }

  lemma {:induction false} KeptConstant<T>(s: seq<T>, mask: seq<bool>, bit: bool)
    requires |s| == |mask|
    requires forall i :: 0 <= i < |mask| ==> mask[i] == bit
    ensures Kept(s, mask) == if bit then s else []
  {
    if s != [] {
      KeptConstant(Front(s), Front(mask), bit);
      assert Last(mask) == mask[|mask| - 1] == bit;
      assert s == Front(s) + [Last(s)];
    }
  }

  lemma {:induction false} KeptThreeParts<T>(a: seq<T>, ma: seq<bool>, b: seq<T>, mb: seq<bool>, c: seq<T>, mc: seq<bool>)
    requires |a| == |ma| && |b| == |mb| && |c| == |mc|
    requires forall j :: 0 <= j < |ma| ==> ma[j]
    requires forall j :: 0 <= j < |mb| ==> !mb[j]
    requires forall j :: 0 <= j < |mc| ==> mc[j]
    ensures Kept(a + b + c, ma + mb + mc) == a + c
  {
    var ab, mab := a + b, ma + mb;
    KeptAppend(a, ma, b, mb);
    KeptConstant(a, ma, true);
    KeptConstant(b, mb, false);
    assert Kept(ab, mab) == a + [] == a;
    KeptAppend(ab, mab, c, mc);
    KeptConstant(c, mc, true);
  }

  lemma AppendAssociative<T>(a: seq<T>, b: seq<T>, c: seq<T>)
    ensures a + (b + c) == a + b + c
  {
  }
}
