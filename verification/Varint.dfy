/** Base-128 varints as the connector context parser reads them
    (Protocol Buffers Encoding, "Base 128 Varints"). */
module Varint {
  import opened Prelude

  type byte = b: int | 0 <= b < 256

  datatype Failure =
    | ContextFormat | ContextTruncated | ContextUnknownField | ContextDuplicateField
    | ContextWireType | ContextString | ContextMissingField

  function Pow2(n: nat): (p: nat)
    ensures p > 0
  {
    if n == 0 then 1 else 2 * Pow2(n - 1)
  }

  lemma {:induction false} Pow2Add(m: nat, n: nat)
    ensures Pow2(m + n) == Pow2(m) * Pow2(n)
  {
    if m != 0 {
      Pow2Add(m - 1, n);
      assert Pow2(m + n) == 2 * Pow2(m - 1 + n);
    }
  }

  lemma Pow2Seven(n: nat)
    ensures Pow2(n + 7) == 128 * Pow2(n)
  {
    Pow2Add(7, n);
    assert Pow2(7) == 128 by {
      assert Pow2(3) == 8;
      assert Pow2(5) == 32;
    }
  }

  // ----- bitwise or -----

  /** `a | b` on unbounded naturals. */
  function BitOr(a: nat, b: nat): nat
    decreases a + b
  {
    if a == 0 && b == 0 then 0
    else (if a % 2 == 1 || b % 2 == 1 then 1 else 0) + 2 * BitOr(a / 2, b / 2)
  }

  /** Or-ing in bits above `shift` is addition. */
  lemma {:induction false} BitOrDisjoint(a: nat, b: nat, shift: nat)
    requires a < Pow2(shift)
    ensures BitOr(a, b * Pow2(shift)) == a + b * Pow2(shift)
  {
    if shift == 0 {
      BitOrZero(b);
    } else {
      var high := b * Pow2(shift - 1);
      assert b * Pow2(shift) == 2 * high;
      BitOrDisjoint(a / 2, b, shift - 1);
    }
  }

  lemma {:induction false} BitOrZero(b: nat)
    ensures BitOr(0, b) == b
  {
    if b != 0 {
      BitOrZero(b / 2);
    }
  }

  // ----- reading -----

  /** The varint at `offset`, `k` of whose bytes have been read: its remaining value and where it ends. */
  function VarintFrom(data: seq<byte>, offset: nat, k: nat): (r: Result<(nat, nat), Failure>)
    requires k < 10
    ensures r.Ok? ==> offset < r.value.1 <= |data|
    decreases 10 - k
  {
    if offset >= |data| then Err(ContextTruncated)
    else
      var part := data[offset];
      if k == 9 && part > 1 then Err(ContextFormat)
      else if part < 128 then Ok((part, offset + 1))
      else
        var rest := VarintFrom(data, offset + 1, k + 1);
        if rest.Err? then rest else Ok((part - 128 + 128 * rest.value.0, rest.value.1))
  }

  function ReadVarint(data: seq<byte>, offset: nat): (r: Result<(nat, nat), Failure>)
    ensures r.Ok? ==> offset < r.value.1 <= |data|
  {
    VarintFrom(data, offset, 0)
  }

  /** What the whole varint is once `low`, of `shift` bits, has been read and the rest is `rest`. */
  function Resume(low: nat, shift: nat, rest: Result<(nat, nat), Failure>): Result<(nat, nat), Failure> {
    if rest.Err? then rest else Ok((low + rest.value.0 * Pow2(shift), rest.value.1))
  }

  lemma Fits(low: nat, digit: nat, weight: nat)
    requires low < weight && digit <= 127
    ensures low + digit * weight < 128 * weight
  {
  }

  /** `value` holds the first `k` bytes of the varint, `at` is the next byte. */
  ghost predicate Reading(data: seq<byte>, offset: nat, at: nat, value: nat, k: nat) {
    && k < 10 && value < Pow2(7 * k)
    && ReadVarint(data, offset) == Resume(value, 7 * k, VarintFrom(data, at, k))
  }

  lemma Regroup(low: nat, digit: nat, high: nat, weight: nat)
    ensures low + (digit + 128 * high) * weight == low + digit * weight + high * (128 * weight)
  {
  }

  /** `value | ((part & 0x7f) << shift)` */
  function Placed(value: nat, part: byte, shift: nat): nat { BitOr(value, (part % 128) * Pow2(shift)) }

  lemma ReadingEnds(data: seq<byte>, offset: nat, at: nat, value: nat, k: nat)
    requires Reading(data, offset, at, value, k) && at < |data| && data[at] < 128
    requires !(k == 9 && data[at] > 1)
    ensures ReadVarint(data, offset) == Ok((Placed(value, data[at], 7 * k), at + 1))
  {
    assert data[at] % 128 == data[at];
    BitOrDisjoint(value, data[at], 7 * k);
  }

  lemma ReadingContinues(data: seq<byte>, offset: nat, at: nat, value: nat, k: nat)
    requires Reading(data, offset, at, value, k) && at < |data| && data[at] >= 128
    requires !(k == 9 && data[at] > 1)
    ensures Reading(data, offset, at + 1, Placed(value, data[at], 7 * k), k + 1)
  {
    var digit, weight := data[at] - 128, Pow2(7 * k);
    assert data[at] % 128 == digit;
    BitOrDisjoint(value, digit, 7 * k);
    Pow2Seven(7 * k);
    assert Pow2(7 * (k + 1)) == 128 * weight by {
      assert 7 * k + 7 == 7 * (k + 1);
    }
    Fits(value, digit, weight);
    ResumeLater(value, digit, 7 * k, VarintFrom(data, at + 1, k + 1));
  }

  /** Seven more bits move from what is to come to what has been read. */
  lemma ResumeLater(low: nat, digit: nat, shift: nat, rest: Result<(nat, nat), Failure>)
    requires Pow2(shift + 7) == 128 * Pow2(shift)
    ensures Resume(low, shift, if rest.Err? then rest else Ok((digit + 128 * rest.value.0, rest.value.1)))
         == Resume(low + digit * Pow2(shift), shift + 7, rest)
  {
    if rest.Ok? {
      Regroup(low, digit, rest.value.0, Pow2(shift));
    }
  }

  /** The loop over the ten shifts returns within it: no varint leaves it by exhaustion. */
  method WireVarint(data: seq<byte>, offset: nat) returns (r: Result<(nat, nat), Failure>)
    ensures r == ReadVarint(data, offset)
  {
    var value: nat := 0;
    var at: nat := offset;
    var shift: nat := 0;
    ghost var k: nat := 0;
    while shift < 70
      invariant shift == 7 * k && Reading(data, offset, at, value, k)
      decreases 70 - shift
    {
      if at >= |data| {
        return Err(ContextTruncated);
      }
      var part := data[at];
      ghost var low := value;
      if shift == 63 && part > 1 {
        return Err(ContextFormat);
      }
      value, at := Placed(value, part, shift), at + 1;
      if part < 128 {
        ReadingEnds(data, offset, at - 1, low, k);
        return Ok((value, at));
      }
      ReadingContinues(data, offset, at - 1, low, k);
      shift, k := shift + 7, k + 1;
    }
    assert false;
  }

  // ----- which bytes are a varint -----

  function Payload(bytes: seq<byte>): nat {
    if bytes == [] then 0 else bytes[0] % 128 + 128 * Payload(bytes[1..])
  }

  /** `bytes` are the last bytes of a varint after `k` others: continuation bits on all but the last byte, at most
      ten bytes in all, the tenth carrying a single bit. */
  predicate IsTail(bytes: seq<byte>, k: nat) {
    && k < 10 && bytes != []
    && if |bytes| == 1 then bytes[0] < 128 && (k == 9 ==> bytes[0] <= 1)
       else bytes[0] >= 128 && IsTail(bytes[1..], k + 1)
  }

  lemma {:induction false} TailIsShort(bytes: seq<byte>, k: nat)
    requires IsTail(bytes, k)
    ensures 0 < |bytes| <= 10 - k
  {
    if |bytes| > 1 {
      TailIsShort(bytes[1..], k + 1);
    }
  }

  predicate IsVarint(bytes: seq<byte>, value: nat) {
    IsTail(bytes, 0) && value == Payload(bytes)
  }

  lemma {:induction false} TailIsRead(data: seq<byte>, offset: nat, bytes: seq<byte>, k: nat)
    requires IsTail(bytes, k)
    requires offset + |bytes| <= |data| && data[offset..offset + |bytes|] == bytes
    ensures VarintFrom(data, offset, k) == Ok((Payload(bytes), offset + |bytes|))
    decreases |bytes|
  {
    assert data[offset] == data[offset..offset + |bytes|][0];
    assert bytes[1..] == data[offset + 1..offset + |bytes|];
    if |bytes| > 1 {
      TailIsRead(data, offset + 1, bytes[1..], k + 1);
    } else {
      assert Payload(bytes[1..]) == 0;
    }
  }

  lemma {:induction false} ReadIsTail(data: seq<byte>, offset: nat, k: nat)
    requires k < 10 && VarintFrom(data, offset, k).Ok?
    ensures var (value, end) := VarintFrom(data, offset, k).value;
            IsTail(data[offset..end], k) && value == Payload(data[offset..end]) && value < Pow2(64 - 7 * k)
    decreases 10 - k
  {
    var (value, end) := VarintFrom(data, offset, k).value;
    var bytes := data[offset..end];
    assert bytes[0] == data[offset];
    if data[offset] < 128 {
      assert bytes == [data[offset]] && Payload(bytes[1..]) == 0;
      LastFits(data[offset], k);
    } else {
      assert bytes[1..] == data[offset + 1..end];
      ReadIsTail(data, offset + 1, k + 1);
      Pow2Seven(64 - 7 * (k + 1));
    }
  }

  lemma LastFits(part: byte, k: nat)
    requires k < 10 && part < 128 && (k == 9 ==> part <= 1)
    ensures part < Pow2(64 - 7 * k)
  {
    if k < 9 {
      var rest := 64 - 7 * k - 7;
      Pow2Seven(rest);
    }
  }

  /** A varint is read at `offset` with value `v`, ending at `end`, exactly when those bytes are a varint of that
      value; the value is then below 2^64 and takes at most ten bytes. */
  lemma ReadVarintExact(data: seq<byte>, offset: nat, v: nat, end: nat)
    ensures ReadVarint(data, offset) == Ok((v, end))
            <==> offset <= end <= |data| && IsVarint(data[offset..end], v)
    ensures ReadVarint(data, offset) == Ok((v, end)) ==> v < Pow2(64) && end - offset <= 10
  {
    if ReadVarint(data, offset) == Ok((v, end)) {
      ReadIsTail(data, offset, 0);
      TailIsShort(data[offset..end], 0);
    }
    if offset <= end <= |data| && IsVarint(data[offset..end], v) {
      TailIsRead(data, offset, data[offset..end], 0);
    }
  }

  // ----- the canonical encoding -----

  function EncodeVarint(n: nat): seq<byte> {
    if n < 128 then [n] else [n % 128 + 128] + EncodeVarint(n / 128)
  }

  lemma {:induction false} EncodedTail(n: nat, k: nat)
    requires k < 10 && n < Pow2(64 - 7 * k)
    ensures IsTail(EncodeVarint(n), k) && Payload(EncodeVarint(n)) == n
    decreases n
  {
    var bytes := EncodeVarint(n);
    assert Pow2(1) == 2;
    if n < 128 {
      assert bytes[1..] == [];
    } else {
      assert bytes[1..] == EncodeVarint(n / 128);
      Pow2Seven(64 - 7 * (k + 1));
      EncodedTail(n / 128, k + 1);
    }
  }

  lemma EncodedIsVarint(n: nat)
    requires n < Pow2(64)
    ensures IsVarint(EncodeVarint(n), n)
  {
    EncodedTail(n, 0);
  }
}
