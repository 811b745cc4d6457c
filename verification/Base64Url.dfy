/** base64.RawURLEncoding: section 5 of RFC 4648 without padding, decoded as Go does
    (line breaks skipped, spare bits of the last character ignored). */
module Base64Url {
  import opened Text

  type byte = n: int | 0 <= n < 256
  type sextet = n: int | 0 <= n < 64

  function Symbol(n: sextet): (c: char)
    ensures IsSymbol(c)
  {
    if n < 26 then (n + 65) as char else if n < 52 then (n + 71) as char
    else if n < 62 then (n - 4) as char else if n == 62 then '-' else '_'
  }

  predicate IsSymbol(c: char) {
    'A' <= c <= 'Z' || 'a' <= c <= 'z' || '0' <= c <= '9' || c == '-' || c == '_'
  }

  function ValueOf(c: char): sextet
    requires IsSymbol(c)
  {
    var n := c as int;
    if 'A' <= c <= 'Z' then n - 65 else if 'a' <= c <= 'z' then n - 71
    else if '0' <= c <= '9' then n + 4 else if c == '-' then 62 else 63
  }

  lemma SymbolValue(n: sextet)
    ensures ValueOf(Symbol(n)) == n
  {}

  function ToSextets(b: seq<byte>): (v: seq<sextet>)
  {
    if |b| == 0 then []
    else if |b| == 1 then [b[0] / 4, b[0] % 4 * 16]
    else if |b| == 2 then [b[0] / 4, b[0] % 4 * 16 + b[1] / 16, b[1] % 16 * 4]
    else [b[0] / 4, b[0] % 4 * 16 + b[1] / 16, b[1] % 16 * 4 + b[2] / 64, b[2] % 64] + ToSextets(b[3..])
  }

  // The three bytes of four sextets.
  function First(p: int, q: int): int { p * 4 + q / 16 }
  function Second(q: int, r: int): int { q % 16 * 16 + r / 4 }
  function Third(r: int, s: int): int { r % 4 * 64 + s }

  lemma GroupBytes(x: byte, y: byte, z: byte)
    ensures First(x / 4, x % 4 * 16 + y / 16) == x && First(x / 4, x % 4 * 16) == x
    ensures Second(x % 4 * 16 + y / 16, y % 16 * 4 + z / 64) == y && Second(x % 4 * 16 + y / 16, y % 16 * 4) == y
    ensures Third(y % 16 * 4 + z / 64, z % 64) == z
  {
    assert (x % 4 * 16 + y / 16) % 16 == y / 16;
    assert (y % 16 * 4 + z / 64) % 4 == z / 64;
  }

  function FromSextets(v: seq<sextet>): Option<seq<byte>> {
    if |v| == 0 then Some([])
    else if |v| == 1 then None
    else if |v| == 2 then Some([First(v[0], v[1])])
    else if |v| == 3 then Some([First(v[0], v[1]), Second(v[1], v[2])])
    else
      var rest := FromSextets(v[4..]);
      if rest.None? then None
      else Some([First(v[0], v[1]), Second(v[1], v[2]), Third(v[2], v[3])] + rest.value)
  }

  function Encode(b: seq<byte>): (s: string)
    ensures forall c :: c in s ==> IsSymbol(c)
  {
    var v := ToSextets(b);
    seq(|v|, i requires 0 <= i < |v| => Symbol(v[i]))
  }

  function SkipBreaks(s: string): string {
    if s == [] then [] else if s[0] == '\r' || s[0] == '\n' then SkipBreaks(s[1..]) else [s[0]] + SkipBreaks(s[1..])
  }

  function Decode(s: string): Option<seq<byte>> {
    var t := SkipBreaks(s);
    if exists i :: 0 <= i < |t| && !IsSymbol(t[i]) then None
    else FromSextets(seq(|t|, i requires 0 <= i < |t| => ValueOf(t[i])))
  }

  lemma ShortGroups(x: byte, y: byte)
    ensures FromSextets([x / 4, x % 4 * 16]) == Some([x])
    ensures FromSextets([x / 4, x % 4 * 16 + y / 16, y % 16 * 4]) == Some([x, y])
  {
    GroupBytes(x, y, 0);
  }

  lemma FourSextets(p: sextet, q: sextet, r: sextet, t: sextet, rest: seq<byte>, v: seq<sextet>)
    requires FromSextets(v) == Some(rest)
    ensures FromSextets([p, q, r, t] + v) == Some([First(p, q), Second(q, r), Third(r, t)] + rest)
  {
    assert ([p, q, r, t] + v)[4..] == v;
  }

  lemma FullGroup(x: byte, y: byte, z: byte, rest: seq<byte>, v: seq<sextet>)
    requires FromSextets(v) == Some(rest)
    ensures FromSextets([x / 4, x % 4 * 16 + y / 16, y % 16 * 4 + z / 64, z % 64] + v) == Some([x, y, z] + rest)
  {
    hide FromSextets;
    FourSextets(x / 4, x % 4 * 16 + y / 16, y % 16 * 4 + z / 64, z % 64, rest, v);
    GroupBytes(x, y, z);
  }

  lemma {:induction false} SextetsRoundTrip(b: seq<byte>)
    ensures FromSextets(ToSextets(b)) == Some(b)
  {
    hide FromSextets;
    if |b| >= 3 {
      SextetsRoundTrip(b[3..]);
      FullGroup(b[0], b[1], b[2], b[3..], ToSextets(b[3..]));
      assert b == [b[0], b[1], b[2]] + b[3..];
    } else if |b| == 2 {
      ShortGroups(b[0], b[1]);
      assert b == [b[0], b[1]];
    } else if |b| == 1 {
      ShortGroups(b[0], 0);
      assert b == [b[0]];
    } else {
      EmptyGroup();
    }
  }

  lemma EmptyGroup()
    ensures FromSextets([]) == Some([])
  {}

  lemma {:induction false} NothingSkipped(s: string)
    requires forall c :: c in s ==> IsSymbol(c)
    ensures SkipBreaks(s) == s
  {
    if s != [] {
      assert IsSymbol(s[0]);
      NothingSkipped(s[1..]);
    }
  }

  /** Decoding an encoding gives the bytes back. */
  lemma RoundTrip(b: seq<byte>)
    ensures Decode(Encode(b)) == Some(b)
  {
    var v, s := ToSextets(b), Encode(b);
    NothingSkipped(s);
    forall i | 0 <= i < |v| ensures IsSymbol(s[i]) && ValueOf(s[i]) == v[i] { SymbolValue(v[i]); }
    assert seq(|s|, i requires 0 <= i < |s| => ValueOf(s[i])) == v;
    SextetsRoundTrip(b);
  }

  /** Encodings avoid the token separator, padding and white space. */
  lemma EncodeAvoids(b: seq<byte>, c: char)
    requires c == '.' || c == '=' || IsSpace(c)
    ensures c !in Encode(b)
  {}

  /** The alphabet of section 5 of RFC 4648. */
  lemma Alphabet(n: sextet)
    ensures n < 26 ==> Symbol(n) == ('A' as int + n) as char
    ensures 26 <= n < 52 ==> Symbol(n) == ('a' as int + n - 26) as char
    ensures 52 <= n < 62 ==> Symbol(n) == ('0' as int + n - 52) as char
    ensures (n == 62 ==> Symbol(n) == '-') && (n == 63 ==> Symbol(n) == '_')
  {}

  /** Sextets read as one number, most significant first. */
  function Number(v: seq<sextet>): int { if v == [] then 0 else Number(v[..|v| - 1]) * 64 + v[|v| - 1] }

  lemma NumberFour(p: sextet, q: sextet, r: sextet, t: sextet)
    ensures Number([p, q]) == p * 64 + q && Number([p, q, r]) == Number([p, q]) * 64 + r && Number([p, q, r, t]) == Number([p, q, r]) * 64 + t
  {
    assert [p][..0] == [] && [p, q][..1] == [p] && [p, q, r][..2] == [p, q] && [p, q, r, t][..3] == [p, q, r];
    assert Number([p]) == p;
  }

  /** Three bytes become four sextets of the same number; one and two bytes get their last sextet filled up with
      zeros. */
  lemma GroupMeans(x: byte, y: byte, z: byte, rest: seq<byte>)
    ensures var v := ToSextets([x, y, z] + rest);
            |v| >= 4 && Number(v[..4]) == x * 65536 + y * 256 + z && v[4..] == ToSextets(rest)
    ensures Number(ToSextets([x])) == x * 16 && Number(ToSextets([x, y])) == (x * 256 + y) * 4
  {
    var p: sextet, q: sextet, r: sextet, t: sextet := x / 4, x % 4 * 16 + y / 16, y % 16 * 4 + z / 64, z % 64;
    assert ([x, y, z] + rest)[3..] == rest;
    assert ToSextets([x, y, z] + rest)[..4] == [p, q, r, t];
    NumberFour(p, q, r, t);
    NumberFour(x / 4, x % 4 * 16, 0, 0);
    NumberFour(x / 4, q, y % 16 * 4, 0);
  }
}
