/** Base64, section 4 of RFC 4648. */
module Base64 {
  import opened Framing
  import opened Options

  function Symbol(n: int): (c: char)
    requires 0 <= n < 64
  {
    if n < 26 then (65 + n) as char
    else if n < 52 then (71 + n) as char
    else if n < 62 then (n - 4) as char
    else if n == 62 then '+'
    else '/'
  }

  function Value(c: char): (r: Option<int>)
    ensures r.Some? ==> 0 <= r.value < 64
  {
    if 'A' <= c <= 'Z' then Some(c as int - 65)
    else if 'a' <= c <= 'z' then Some(c as int - 71)
    else if '0' <= c <= '9' then Some(c as int + 4)
    else if c == '+' then Some(62)
    else if c == '/' then Some(63)
    else None
  }

  lemma ValueOfSymbol(n: int)
    requires 0 <= n < 64
    ensures Value(Symbol(n)) == Some(n) && Symbol(n) != '=' && Symbol(n) != ':' && Symbol(n) != '\n'
  {
  }

  /** One group of one to three bytes. */
  function EncodeGroup(g: seq<Byte>): (s: string)
    requires 1 <= |g| <= 3
    ensures |s| == 4
  {
    if |g| == 1 then [Symbol(g[0] / 4), Symbol(g[0] % 4 * 16), '=', '=']
    else if |g| == 2 then [Symbol(g[0] / 4), Symbol(g[0] % 4 * 16 + g[1] / 16), Symbol(g[1] % 16 * 4), '=']
    else [Symbol(g[0] / 4), Symbol(g[0] % 4 * 16 + g[1] / 16), Symbol(g[1] % 16 * 4 + g[2] / 64), Symbol(g[2] % 64)]
  }

  function Encode(b: seq<Byte>): (s: string)
    ensures |s| % 4 == 0
  {
    if b == [] then ""
    else if |b| <= 3 then EncodeGroup(b)
    else EncodeGroup(b[..3]) + Encode(b[3..])
  }

  function DecodeGroup(s: string): Option<seq<Byte>>
    requires |s| == 4
  {
    var (x, y, z, w) := (Value(s[0]), Value(s[1]), Value(s[2]), Value(s[3]));
    if x.None? || y.None? then None
    else
      var first: Byte := x.value * 4 + y.value / 16;
      if s[2] == '=' && s[3] == '=' then Some([first])
      else if z.None? then None
      else
        var second: Byte := y.value % 16 * 16 + z.value / 4;
        if s[3] == '=' then Some([first, second])
        else if w.None? then None
        else Some([first, second, z.value % 4 * 64 + w.value])
  }

  function Decode(s: string): Option<seq<Byte>> {
    if s == "" then Some([])
    else if |s| < 4 then None
    else
      var group := DecodeGroup(s[..4]);
      if group.None? then None
      else if |s| == 4 then group
      else if |group.value| < 3 then None
      else
        var later := Decode(s[4..]);
        if later.None? then None else Some(group.value + later.value)
  }

  lemma Sextets(a: Byte, b: Byte)
    ensures 0 <= a / 4 < 64 && 0 <= a % 4 * 16 + b / 16 < 64
    ensures a / 4 * 4 + (a % 4 * 16 + b / 16) / 16 == a
    ensures (a % 4 * 16 + b / 16) % 16 == b / 16
  {
    var hi, lo := a % 4, b / 16;
    assert 0 <= lo < 16;
    assert (hi * 16 + lo) / 16 == hi && (hi * 16 + lo) % 16 == lo;
  }

  lemma Nibbles(b: Byte, c: Byte)
    ensures 0 <= b % 16 * 4 + c / 64 < 64
    ensures b / 16 * 16 + (b % 16 * 4 + c / 64) / 4 == b
    ensures (b % 16 * 4 + c / 64) % 4 * 64 + c % 64 == c
  {
    var hi, lo := b % 16, c / 64;
    assert 0 <= lo < 4;
    assert (hi * 4 + lo) / 4 == hi && (hi * 4 + lo) % 4 == lo;
  }

  lemma GroupRoundTrip(g: seq<Byte>)
    requires 1 <= |g| <= 3
    ensures DecodeGroup(EncodeGroup(g)) == Some(g)
    ensures forall k :: 0 <= k < 4 ==> EncodeGroup(g)[k] != ':' && EncodeGroup(g)[k] != '\n'
  {
    var b: Byte, c: Byte := if |g| > 1 then g[1] else 0, if |g| > 2 then g[2] else 0;
    Sextets(g[0], b);
    Nibbles(b, c);
    ValueOfSymbol(g[0] / 4);
    ValueOfSymbol(g[0] % 4 * 16 + b / 16);
    ValueOfSymbol(b % 16 * 4 + c / 64);
    ValueOfSymbol(c % 64);
    hide Symbol, Value;
    if |g| == 1 {
      assert g == [g[0]] && EncodeGroup(g)[1] == Symbol(g[0] % 4 * 16 + b / 16);
    } else if |g| == 2 {
      assert g == [g[0], g[1]] && EncodeGroup(g)[2] == Symbol(b % 16 * 4 + c / 64);
    } else {
      assert g == [g[0], g[1], g[2]];
    }
  }

  /** Whatever was encoded is recovered, and the encoding holds no colon. */
  lemma {:induction false} RoundTrip(b: seq<Byte>)
    ensures Decode(Encode(b)) == Some(b)
    ensures forall k :: 0 <= k < |Encode(b)| ==> Encode(b)[k] != ':' && Encode(b)[k] != '\n'
  {
    if b == [] {
    } else if |b| <= 3 {
      GroupRoundTrip(b);
      assert Encode(b)[..4] == Encode(b);
      hide DecodeGroup, EncodeGroup;
    } else {
      GroupRoundTrip(b[..3]);
      RoundTrip(b[3..]);
      hide DecodeGroup, EncodeGroup;
      var s := Encode(b);
      assert s[..4] == EncodeGroup(b[..3]) && s[4..] == Encode(b[3..]);
      assert b == b[..3] + b[3..];
      assert b[3..] != [] && |s| > 4;
    }
  }
}
