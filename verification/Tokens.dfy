/** The token record, its cache key, and the image of its times that passes through JSON. */
module Tokens {
  newtype byte = x: int | 0 <= x < 256

  /******* Times, in nanoseconds since the start of year one *******/

  const SECOND := 1_000_000_000
  const ZERO_TIME := 0
  const YEAR_TWO := 365 * 86_400 * SECOND

  // The text of a time: empty up to the end of year one, otherwise a date and a whole second.
  datatype TimeText = Blank | DateTime(second: int)

  function MarshalTime(t: int): TimeText {
    if t < YEAR_TWO then Blank else DateTime(t / SECOND)
  }

  function UnmarshalTime(x: TimeText): int {
    if x.Blank? then ZERO_TIME else x.second * SECOND
  }

  function TimeImage(t: int): int {
    UnmarshalTime(MarshalTime(t))
  }

  // Going through JSON loses less than a second, never gains, and loses no more the second time.
  lemma TimeImageTruncates(t: int)
    ensures 365 * 86_400 * 1_000_000_000 <= t ==>
              TimeImage(t) <= t < TimeImage(t) + 1_000_000_000 && 365 * 86_400 * 1_000_000_000 <= TimeImage(t)
    ensures t < 365 * 86_400 * 1_000_000_000 ==> TimeImage(t) == ZERO_TIME
    ensures TimeImage(TimeImage(t)) == TimeImage(t)
  {
  }

  /******* The record *******/

  datatype Token = Token(id: int, userID: string, scope: string, hash: seq<byte>,
                         createdAt: int, updatedAt: int, expiredAt: int, reason: string)

  function Image(t: Token): Token {
    t.(createdAt := TimeImage(t.createdAt), updatedAt := TimeImage(t.updatedAt), expiredAt := TimeImage(t.expiredAt))
  }

  // A hit is the stored record in everything but the fractions of its times.
  lemma ImageKeeps(t: Token)
    ensures var r := Image(t);
            && r.id == t.id && r.userID == t.userID && r.scope == t.scope && r.hash == t.hash && r.reason == t.reason
            && r.createdAt == TimeImage(t.createdAt) && r.updatedAt == TimeImage(t.updatedAt)
            && r.expiredAt == TimeImage(t.expiredAt)
  {
  }

  /******* Keys *******/

  const HEX_DIGITS := "0123456789abcdef"

  function Hex(b: seq<byte>): string {
    if b == [] then "" else [HEX_DIGITS[b[0] as int / 16], HEX_DIGITS[b[0] as int % 16]] + Hex(b[1..])
  }

  function Digit(c: char): (d: int)
    ensures 0 <= d < 16
  {
    if '0' <= c <= '9' then c as int - '0' as int
    else if 'a' <= c <= 'f' then c as int - 'a' as int + 10
    else 0
  }

  function Unhex(s: string): seq<byte> {
    if |s| < 2 then [] else [(16 * Digit(s[0]) + Digit(s[1])) as byte] + Unhex(s[2..])
  }

  lemma DigitOfHex(d: int)
    requires 0 <= d < 16
    ensures Digit(HEX_DIGITS[d]) == d
  {
  }

  lemma {:induction false} HexRoundTrip(b: seq<byte>)
    ensures Unhex(Hex(b)) == b
    ensures Hex(b) == "" <==> b == []
  {
    if b != [] {
      var v := b[0] as int;
      DigitOfHex(v / 16);
      DigitOfHex(v % 16);
      var two := [HEX_DIGITS[v / 16], HEX_DIGITS[v % 16]];
      assert Hex(b) == two + Hex(b[1..]);
      assert Hex(b)[2..] == Hex(b[1..]);
      HexRoundTrip(b[1..]);
    }
  }

  function CacheKey(hash: seq<byte>): string {
    "TOKEN:" + Hex(hash)
  }

  lemma CacheKeyInjective(a: seq<byte>, b: seq<byte>)
    requires CacheKey(a) == CacheKey(b)
    ensures a == b
  {
    assert Hex(a) == CacheKey(a)[6..] && Hex(b) == CacheKey(b)[6..];
    HexRoundTrip(a);
    HexRoundTrip(b);
  }
}
