/** Options, machine integers, byte strings and their order, and big-endian encoding. */
module Bytes {

  datatype Option<+T> = None | Some(value: T)

  type byte = x: int | 0 <= x < 256

  /** A Go string: a sequence of bytes. */
  type Text = seq<byte>

  /** An instant, in nanoseconds since the Unix epoch (unbounded). */
  type Time = int

  const TWO_32 := 0x1_0000_0000
  const TWO_63 := 0x8000_0000_0000_0000
  const TWO_64 := 0x1_0000_0000_0000_0000

  type int64 = x: int | -TWO_63 <= x < TWO_63
  type uint32 = x: int | 0 <= x < TWO_32
  type uint64 = x: int | 0 <= x < TWO_64

  const SECOND: Time := 1_000_000_000
  const DAY: Time := 86_400 * SECOND

  /** Go's zero time, January 1 of year 1 UTC. */
  const ZERO_TIME: Time := -62_135_596_800 * SECOND

  /** The UTC calendar day an instant falls on, counted from the epoch. */
  function DayOf(t: Time): int {
    t / DAY
  }

  /** The midnight that day began with. */
  function TruncateToDay(t: Time): Time {
    DayOf(t) * DAY
  }

  /** A day is 86 400 seconds of nanoseconds, before the epoch too. */
  lemma DaySpelledOut(t: Time)
    ensures TruncateToDay(t) % 86_400_000_000_000 == 0
    ensures TruncateToDay(t) <= t < TruncateToDay(t) + 86_400_000_000_000
    ensures TruncateToDay(t) == DayOf(t) * 86_400_000_000_000
  {
  }

  /** The time of a line or a name that may have none. */
  function OrZero(t: Option<Time>): Time {
    match t case None => ZERO_TIME case Some(time) => time
  }

  /** Reinterpretation as a signed 64-bit integer: int64 arithmetic wraps. */
  function ToInt64(x: int): (r: int64)
    ensures -TWO_63 <= x < TWO_63 ==> r == x
    ensures r % TWO_64 == x % TWO_64
  {
    (x + TWO_63) % TWO_64 - TWO_63
  }

  function ToUint64(x: int64): (r: uint64)
    ensures ToInt64(r) == x
  {
    x % TWO_64
  }

  /** A requested count, with its default and its limit. */
  function Clamped(requested: int, normal: nat, most: nat): (n: nat)
    requires 0 < normal <= most
    ensures 1 <= n <= most
  {
    if requested <= 0 then normal else if requested > most then most else requested
  }

  /** The page size of every log page, merged or not, and of index entries. */
  function PageSize(requested: int): (p: nat)
    ensures p == if requested <= 0 then 200 else if requested > 1000 then 1000 else requested
  {
    Clamped(requested, 200, 1000)
  }

  function Pow256(width: nat): (p: nat)
    ensures p > 0
  {
    if width == 0 then 1 else 256 * Pow256(width - 1)
  }

  function BigEndian(n: nat, width: nat): (b: Text)
    ensures |b| == width
  {
    if width == 0 then [] else BigEndian(n / 256, width - 1) + [n % 256]
  }

  function FromBigEndian(b: Text): (n: nat)
    ensures n < Pow256(|b|)
  {
    if b == [] then 0 else FromBigEndian(b[..|b| - 1]) * 256 + b[|b| - 1]
  }

  lemma {:induction false} BigEndianRoundTrip(n: nat, width: nat)
    requires n < Pow256(width)
    ensures FromBigEndian(BigEndian(n, width)) == n
  {
    if width > 0 {
      BigEndianRoundTrip(n / 256, width - 1);
      assert BigEndian(n, width)[..width - 1] == BigEndian(n / 256, width - 1);
    }
  }

  /** The most significant byte comes first. */
  lemma {:induction false} BigEndianSpelledOut(n: nat, width: nat, i: nat)
    requires i < width
    ensures BigEndian(n, width)[i] == n / Pow256(width - 1 - i) % 256
  {
    if i < width - 1 {
      BigEndianSpelledOut(n / 256, width - 1, i);
      DivideTwice(n, Pow256(width - 2 - i));
    }
  }

  lemma DivideTwice(n: nat, p: nat)
    requires 0 < p
    ensures n / 256 / p == n / (256 * p)
  {
    var d, q, r := 256 * p, n / 256 / p, n / 256 % p;
    assert n == q * d + (256 * r + n % 256);
    NoMultipleBetween(n / d - q, d, 256 * r + n % 256 - n % d);
  }

  lemma NoMultipleBetween(k: int, d: int, x: int)
    requires 0 < d && k * d == x && -d < x < d
    ensures k == 0
  {
    if k >= 1 {
      AtLeastOnce(k, d);
    } else if k <= -1 {
      AtLeastOnce(-k, d);
    }
  }

  lemma {:induction false} AtLeastOnce(k: int, d: int)
    requires 1 <= k && 0 < d
    ensures d <= k * d
  {
    if k > 1 {
      AtLeastOnce(k - 1, d);
      assert k * d == (k - 1) * d + d;
    }
  }

  lemma {:induction false} BigEndianInverse(b: Text)
    ensures BigEndian(FromBigEndian(b), |b|) == b
  {
    if b != [] {
      BigEndianInverse(b[..|b| - 1]);
    }
  }

  lemma WidthBounds()
    ensures Pow256(4) == TWO_32 && Pow256(8) == TWO_64
  {
  }

  /** Go's `<` on strings: bytewise, a proper prefix first. */
  predicate TextLess(a: Text, b: Text) {
    if b == [] then false
    else if a == [] then true
    else if a[0] != b[0] then a[0] < b[0]
    else TextLess(a[1..], b[1..])
  }

  /** It compares the first bytes that differ, a missing one being the least. */
  lemma {:induction false} TextLessSpelledOut(a: Text, b: Text)
    ensures TextLess(a, b)
       <==> exists k :: 0 <= k < |b| && k <= |a| && a[..k] == b[..k] && (k == |a| || a[k] < b[k])
  {
    if a != [] && b != [] {
      var u, v := a[1..], b[1..];
      TextLessSpelledOut(u, v);
      if a[0] == b[0] {
        if TextLess(u, v) {
          var k :| 0 <= k < |v| && k <= |u| && u[..k] == v[..k] && (k == |u| || u[k] < v[k]);
          assert a[..k + 1] == [a[0]] + u[..k] == b[..k + 1];
        }
        forall k | 0 < k < |b| && k <= |a| && a[..k] == b[..k]
          ensures u[..k - 1] == v[..k - 1]
        {
          assert a[..k][1..] == u[..k - 1] && b[..k][1..] == v[..k - 1];
        }
      } else {
        assert a[..0] == b[..0];
        forall k | 0 < k <= |a| && k <= |b|
          ensures a[..k] != b[..k]
        {
          assert a[..k][0] != b[..k][0];
        }
      }
    } else if b != [] {
      assert a[..0] == b[..0];
    }
  }

  lemma {:induction false} TextLessTotal(a: Text, b: Text)
    ensures !(TextLess(a, b) && TextLess(b, a))
    ensures a != b ==> TextLess(a, b) || TextLess(b, a)
    ensures !TextLess(a, a)
  {
    if a != [] {
      TextLessTotal(a[1..], a[1..]);
      if b != [] && a[0] == b[0] {
        TextLessTotal(a[1..], b[1..]);
        assert a == [a[0]] + a[1..] && b == [b[0]] + b[1..];
      }
    }
  }

  lemma {:induction false} TextLessTransitive(a: Text, b: Text, c: Text)
    requires TextLess(a, b) && TextLess(b, c)
    ensures TextLess(a, c)
  {
    if a != [] && a[0] == b[0] == c[0] {
      TextLessTransitive(a[1..], b[1..], c[1..]);
    }
  }
}
