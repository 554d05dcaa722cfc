/** Base 128 varints as generated for the catalog messages (ledger-core/rms/proto_catalog.pb.go). */
module Varint {
  import opened Bytes

  const U32 := 0x1_0000_0000
  const U63 := 0x8000_0000_0000_0000
  const U64 := 0x1_0000_0000_0000_0000

  /** The bytes of v, seven bits each, least significant first. */
  function Encode(v: nat): (bs: seq<Byte>)
    ensures bs != []
  {
    if v < 128 then [v] else [128 + v % 128] + Encode(v / 128)
  }

  // ------------------------------------------------------------ size

  /** bits.Len64 */
  function Len64(x: nat): nat { if x == 0 then 0 else 1 + Len64(x / 2) }

  function OrOne(x: nat): nat { if x % 2 == 0 then x + 1 else x }

  /** sovProtoCatalog */
  function Sov(x: nat): nat { (Len64(OrOne(x)) + 6) / 7 }

  lemma {:induction false} Len64Shift(x: nat)
    requires x >= 128
    ensures Len64(x) == 7 + Len64(x / 128)
  {
    var a := x / 2;
    var b := a / 2;
    var c := b / 2;
    var d := c / 2;
    var e := d / 2;
    var f := e / 2;
    assert f / 2 == x / 128;
    assert Len64(x) == 1 + Len64(a) && Len64(a) == 1 + Len64(b) && Len64(b) == 1 + Len64(c);
    assert Len64(c) == 1 + Len64(d) && Len64(d) == 1 + Len64(e) && Len64(e) == 1 + Len64(f);
  }

  lemma {:induction false} Len64OrOne(x: nat)
    requires x >= 1
    ensures Len64(OrOne(x)) == Len64(x)
  {
  }

  lemma {:induction false} Len64Below(x: nat)
    requires 1 <= x < 128
    ensures 1 <= Len64(x) <= 7
  {
    var a := x / 2;
    var b := a / 2;
    var c := b / 2;
    var d := c / 2;
    var e := d / 2;
    var f := e / 2;
    assert f / 2 == 0;
    assert Len64(f) <= 1 && Len64(e) <= 2 && Len64(d) <= 3 && Len64(c) <= 4 && Len64(b) <= 5 && Len64(a) <= 6;
  }

  /** The size formula predicts the number of bytes exactly. */
  lemma {:induction false} SovIsLength(v: nat)
    ensures |Encode(v)| == Sov(v)
  {
    if v < 128 {
      Len64Below(OrOne(v));
    } else {
      SovIsLength(v / 128);
      Len64OrOne(v);
      Len64OrOne(v / 128);
      Len64Shift(v);
    }
  }

  function Pow128(k: nat): nat { if k == 0 then 1 else 128 * Pow128(k - 1) }

  lemma {:induction false} EncodeLength(v: nat, k: nat)
    requires k >= 1 && v < Pow128(k)
    ensures 1 <= |Encode(v)| <= k
  {
    if v >= 128 {
      assert v / 128 < Pow128(k - 1);
      EncodeLength(v / 128, k - 1);
    }
  }

  lemma {:induction false} Uint64Fits(v: nat)
    requires v < U64
    ensures 1 <= |Encode(v)| <= 10
    ensures v < U32 ==> |Encode(v)| <= 5
  {
    assert Pow128(10) == 128 * 128 * 128 * 128 * 128 * Pow128(5);
    assert Pow128(5) == 128 * 128 * 128 * 128 * 128;
    EncodeLength(v, 10);
    if v < U32 {
      EncodeLength(v, 5);
    }
  }

  // ------------------------------------------------------------ reading

  datatype Read = ReadOk(value: nat, count: nat) | TooLong | Eof

  /** At most k bytes of d as one varint, with no width limit on the value. */
  function Decode(d: seq<Byte>, k: nat): (r: Read)
    ensures r.ReadOk? ==> 1 <= r.count <= |d| && r.count <= k
    decreases |d|
  {
    if k == 0 then TooLong
    else if d == [] then Eof
    else if d[0] < 128 then ReadOk(d[0], 1)
    else match Decode(d[1..], k - 1)
         case ReadOk(v, n) => ReadOk(d[0] - 128 + 128 * v, n + 1)
         case TooLong => TooLong
         case Eof => Eof
  }

  // shifts 0, 7 .. 63 are below 64
  const MAX_VARINT: nat := 10

  datatype Width = Bits32 | Bits64

  /** The lower bits of v that fit the width. */
  function Cut(v: nat, width: Width): nat { if width.Bits32? then v % U32 else v % U64 }

  /** What the generated loops read into an unsigned field of the given width: the excess bits fall off. */
  function ReadVarint(d: seq<Byte>, width: Width): Read {
    CutRead(Decode(d, MAX_VARINT), width)
  }

  function CutRead(r: Read, width: Width): Read { if r.ReadOk? then ReadOk(Cut(r.value, width), r.count) else r }

  /** Reading back what was written, whatever follows it. */
  lemma {:induction false} DecodeEncode(v: nat, rest: seq<Byte>, k: nat)
    requires |Encode(v)| <= k
    ensures Decode(Encode(v) + rest, k) == ReadOk(v, |Encode(v)|)
  {
    var d := Encode(v) + rest;
    if v < 128 {
      assert d[0] == v;
    } else {
      assert d[1..] == Encode(v / 128) + rest;
      DecodeEncode(v / 128, rest, k - 1);
    }
  }

  lemma {:induction false} ReadEncode(v: nat, rest: seq<Byte>, width: Width)
    requires v < if width.Bits32? then U32 else U64
    ensures ReadVarint(Encode(v) + rest, width) == ReadOk(v, |Encode(v)|)
  {
    Uint64Fits(v);
    DecodeEncode(v, rest, MAX_VARINT);
  }

  /** A varint that was read stays the same whatever is appended. */
  lemma {:induction false} DecodeStable(d: seq<Byte>, e: seq<Byte>, k: nat)
    requires Decode(d, k).ReadOk?
    ensures Decode(d + e, k) == Decode(d, k)
  {
    assert (d + e)[0] == d[0];
    if d[0] >= 128 {
      assert (d + e)[1..] == d[1..] + e;
      DecodeStable(d[1..], e, k - 1);
    }
  }

  /** At most k bytes, all but the last with the continuation bit. */
  predicate IsVarintOf(bs: seq<Byte>, k: nat) {
    1 <= |bs| <= k && bs[|bs| - 1] < 128 && forall i :: 0 <= i < |bs| - 1 ==> bs[i] >= 128
  }

  predicate IsVarint(bs: seq<Byte>) { IsVarintOf(bs, MAX_VARINT) }

  /** Seven bits of each byte, the least significant first. */
  function VarintValue(bs: seq<Byte>): nat { if bs == [] then 0 else bs[0] % 128 + 128 * VarintValue(bs[1..]) }

  /** A varint reads as its value, whatever follows. */
  lemma {:induction false} VarintReads(bs: seq<Byte>, more: seq<Byte>, k: nat)
    requires IsVarintOf(bs, k)
    ensures Decode(bs + more, k) == ReadOk(VarintValue(bs), |bs|)
  {
    assert (bs + more)[0] == bs[0];
    if |bs| == 1 {
      assert VarintValue(bs[1..]) == 0;
    } else {
      assert (bs + more)[1..] == bs[1..] + more;
      VarintReads(bs[1..], more, k - 1);
    }
  }

  /** Exactly what is read from any bytes: a varint at their start, or none because the first k bytes all go on, or
      because there are fewer and all go on. */
  lemma {:induction false} DecodeExactly(d: seq<Byte>, k: nat)
    ensures match Decode(d, k)
            case ReadOk(v, n) => IsVarintOf(d[..n], k) && v == VarintValue(d[..n])
            case TooLong => k <= |d| && forall i :: 0 <= i < k ==> d[i] >= 128
            case Eof => |d| < k && forall i :: 0 <= i < |d| ==> d[i] >= 128
    decreases |d|
  {
    if k > 0 && d != [] && d[0] >= 128 {
      DecodeExactly(d[1..], k - 1);
      match Decode(d[1..], k - 1)
      case ReadOk(v, n) => assert d[..n + 1] == [d[0]] + d[1..][..n] && d[..n + 1][1..] == d[1..][..n];
      case TooLong => assert forall i :: 0 < i < k ==> d[i] == d[1..][i - 1];
      case Eof => assert forall i :: 0 < i < |d| ==> d[i] == d[1..][i - 1];
    } else if k > 0 && d != [] {
      assert d[..1][1..] == [];
    }
  }

  /** Every number is written as a varint of its value, without a last byte that adds nothing. */
  lemma {:induction false} EncodeExactly(v: nat)
    ensures IsVarintOf(Encode(v), |Encode(v)|) && VarintValue(Encode(v)) == v
    ensures |Encode(v)| > 1 ==> Encode(v)[|Encode(v)| - 1] != 0
  {
    if v >= 128 {
      EncodeExactly(v / 128);
      assert Encode(v)[1..] == Encode(v / 128);
    } else {
      assert Encode(v)[1..] == [];
    }
  }

  /** The excess bits of a value too wide for its field fall off. */
  lemma {:induction false} ReadCuts(bs: seq<Byte>, more: seq<Byte>)
    requires IsVarint(bs)
    ensures ReadVarint(bs + more, Bits32) == ReadOk(VarintValue(bs) % 0x1_0000_0000, |bs|)
    ensures ReadVarint(bs + more, Bits64) == ReadOk(VarintValue(bs) % 0x1_0000_0000_0000_0000, |bs|)
  {
    VarintReads(bs, more, MAX_VARINT);
  }

  // ------------------------------------------------------------ the loops

  lemma {:induction false} CutAdd(a: nat, y: nat, width: Width)
    ensures Cut(Cut(a, width) + y, width) == Cut(a + y, width)
  {
  }

  /** The reading loop: collect seven bits at a time until a byte without the continuation bit. */
  method ReadVarintLoop(d: seq<Byte>, start: nat, width: Width) returns (r: Read)
    requires start <= |d|
    ensures r == ReadVarint(d[start..], width)
  {
    r := CollectBits(d, start, width, Decode(d[start..], MAX_VARINT));
  }

  method CollectBits(d: seq<Byte>, start: nat, width: Width, ghost goal: Read) returns (r: Read)
    requires start <= |d| && goal == Decode(d[start..], MAX_VARINT)
    ensures r == CutRead(goal, width)
  {
    ResumeNone(goal);
    var value, shift, i := 0, 0, start;
    ghost var whole: nat := 0;  // the untruncated value
    while true
      invariant start <= i <= |d| && i - start <= MAX_VARINT && shift == 7 * (i - start)
      invariant Collected(d, start, i, whole, value, width, goal)
      decreases |d| - i
    {
      CollectedEnd(d, start, i, whole, value, width, goal);
      if shift >= 64 {
        return TooLong;
      }
      if i >= |d| {
        return Eof;
      }
      var b := d[i];
      CollectedTurn(d, start, i, whole, value, width, goal);
      i := i + 1;
      value := Accumulate(value, b, shift, width);
      whole := whole + Shifted(b % 128, shift);
      if b < 0x80 {
        return ReadOk(value, i - start);
      }
      shift := shift + 7;
    }
  }

  /** value |= (b & 0x7f) << shift, in the width of the field */
  function Accumulate(value: nat, b: Byte, shift: nat, width: Width): nat {
    Cut(value + Shifted(b % 128, shift), width)
  }

  /** What the loop knows at i: the value so far, and that reading on from here leads to the goal. */
  ghost predicate Collected(d: seq<Byte>, start: nat, i: nat, whole: nat, value: nat, width: Width, goal: Read) {
    start <= i <= |d| && i - start <= MAX_VARINT && value == Cut(whole, width) && goal == ResumeAt(d, start, i, whole)
  }

  lemma {:induction false} CollectedEnd(d: seq<Byte>, start: nat, i: nat, whole: nat, value: nat, width: Width,
                                        goal: Read)
    requires Collected(d, start, i, whole, value, width, goal)
    ensures i - start == MAX_VARINT ==> CutRead(goal, width) == TooLong
    ensures i - start < MAX_VARINT && i == |d| ==> CutRead(goal, width) == Eof
  {
    ResumeEnd(d, start, i, whole);
  }

  lemma {:induction false} CollectedTurn(d: seq<Byte>, start: nat, i: nat, whole: nat, value: nat, width: Width,
                                         goal: Read)
    requires Collected(d, start, i, whole, value, width, goal) && i < |d| && i - start < MAX_VARINT
    ensures var shift := 7 * (i - start);
            var value', whole' := Accumulate(value, d[i], shift, width), whole + Shifted(d[i] % 128, shift);
            if d[i] < 128 then CutRead(goal, width) == ReadOk(value', i + 1 - start)
            else Collected(d, start, i + 1, whole', value', width, goal)
  {
    var low: nat := d[i] % 128;
    assert low == if d[i] < 128 then d[i] else d[i] - 128;
    ResumeStepAt(d, start, i, whole);
    CutAdd(whole, Shifted(low, 7 * (i - start)), width);
  }

  /** x << shift, before it is cut to the width of the field */
  function Shifted(x: nat, shift: nat): nat { if shift == 0 then x else 2 * Shifted(x, shift - 1) }

  lemma {:induction false} ShiftedSum(x: nat, v: nat, shift: nat)
    ensures Shifted(x + 128 * v, shift) == Shifted(x, shift) + Shifted(v, shift + 7)
  {
    if shift == 0 {
      assert Shifted(v, 7) == 2 * Shifted(v, 6) == 4 * Shifted(v, 5) == 8 * Shifted(v, 4);
      assert Shifted(v, 4) == 2 * Shifted(v, 3) == 4 * Shifted(v, 2) == 8 * Shifted(v, 1) == 16 * Shifted(v, 0);
    } else {
      ShiftedSum(x, v, shift - 1);
    }
  }

  /** The outcome of a read of which j bytes, worth whole, are already done. */
  function Resume(whole: nat, j: nat, r: Read): Read {
    match r
    case ReadOk(v, n) => ReadOk(whole + Shifted(v, 7 * j), n + j)
    case TooLong => TooLong
    case Eof => Eof
  }

  lemma {:induction false} ResumeNone(r: Read)
    ensures Resume(0, 0, r) == r
  {
  }

  /** The outcome of a read from start that has reached i. */
  function ResumeAt(d: seq<Byte>, start: nat, i: nat, whole: nat): Read
    requires start <= i <= |d| && i - start <= MAX_VARINT
  {
    Resume(whole, i - start, Decode(d[i..], MAX_VARINT - (i - start)))
  }

  lemma {:induction false} ResumeEnd(d: seq<Byte>, start: nat, i: nat, whole: nat)
    requires start <= i <= |d| && i - start <= MAX_VARINT
    ensures i - start == MAX_VARINT ==> ResumeAt(d, start, i, whole) == TooLong
    ensures i - start < MAX_VARINT && i == |d| ==> ResumeAt(d, start, i, whole) == Eof
  {
  }

  lemma {:induction false} ResumeStepAt(d: seq<Byte>, start: nat, i: nat, whole: nat)
    requires start <= i < |d| && i - start < MAX_VARINT
    ensures d[i] < 128 ==> ResumeAt(d, start, i, whole) == ReadOk(whole + Shifted(d[i], 7 * (i - start)), i + 1 - start)
    ensures d[i] >= 128 ==>
              ResumeAt(d, start, i, whole) == ResumeAt(d, start, i + 1, whole + Shifted(d[i] - 128, 7 * (i - start)))
  {
    assert d[i..][0] == d[i] && d[i..][1..] == d[i + 1..];
    ResumeStep(whole, i - start, d[i..], MAX_VARINT - (i - start));
  }

  lemma {:induction false} ResumeStep(whole: nat, j: nat, d: seq<Byte>, k: nat)
    requires k > 0 && d != []
    ensures d[0] < 128 ==> Resume(whole, j, Decode(d, k)) == ReadOk(whole + Shifted(d[0], 7 * j), j + 1)
    ensures d[0] >= 128 ==>
              Resume(whole, j, Decode(d, k)) == Resume(whole + Shifted(d[0] - 128, 7 * j), j + 1, Decode(d[1..], k - 1))
  {
    if d[0] >= 128 && Decode(d[1..], k - 1).ReadOk? {
      ShiftedSum(d[0] - 128, Decode(d[1..], k - 1).value, 7 * j);
      assert 7 * j + 7 == 7 * (j + 1);
    }
  }

  /** encodeVarintProtoCatalog: v ends just before offset. */
  method EncodeTo(a: array<Byte>, offset: nat, v: nat) returns (base: nat)
    requires |Encode(v)| <= offset <= a.Length
    modifies a
    ensures base == offset - |Encode(v)| && Patched(old(a[..]), a[..], base, Encode(v))
  {
    SovIsLength(v);
    base := offset - Sov(v);
    EncodeFrom(a, base, v);
  }

  method EncodeFrom(a: array<Byte>, base: nat, v: nat)
    requires base + |Encode(v)| <= a.Length
    modifies a
    ensures Patched(old(a[..]), a[..], base, Encode(v))
  {
    var i, x := base, v;
    ghost var done: seq<Byte> := [];
    while x >= 128
      invariant i == base + |done| && Encode(v) == done + Encode(x)
      invariant Patched(old(a[..]), a[..], base, done)
    {
      EncodeTurn(done, x);
      a[i] := x % 128 + 128;
      done := done + [x % 128 + 128];
      x := x / 128;
      i := i + 1;
    }
    a[i] := x;
  }

  lemma {:induction false} EncodeTurn(done: seq<Byte>, x: nat)
    requires x >= 128
    ensures done + Encode(x) == done + [x % 128 + 128] + Encode(x / 128)
  {
  }
}
