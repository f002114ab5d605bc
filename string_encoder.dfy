/** Conversion between message text and the bytes a message carries (UTF-8). */
module StringEncoder {
  import opened Wrappers
  import opened Primitives

  predicate IsContinuation(b: uint8) {
    0x80 <= b < 0xC0
  }

  /** The UTF-8 encoding of one Unicode scalar value. */
  function CharBytes(ch: char): (r: Bytes)
    ensures 1 <= |r| <= 4
    ensures |r| == 1 <==> (ch as int) < 0x80
    ensures (ch as int) < 0x80 ==> r == [(ch as int) as uint8]
    ensures !IsContinuation(r[0])
    ensures forall i :: 1 <= i < |r| ==> IsContinuation(r[i])
  {
    var n := ch as int;
    if n < 0x80 then
      [n as uint8]
    else if n < 0x800 then
      [(0xC0 + n / 0x40) as uint8, (0x80 + n % 0x40) as uint8]
    else if n < 0x1_0000 then
      [(0xE0 + n / 0x1000) as uint8, (0x80 + (n / 0x40) % 0x40) as uint8, (0x80 + n % 0x40) as uint8]
    else
      [(0xF0 + n / 0x4_0000) as uint8, (0x80 + (n / 0x1000) % 0x40) as uint8,
       (0x80 + (n / 0x40) % 0x40) as uint8, (0x80 + n % 0x40) as uint8]
  }

  /** The UTF-8 bytes of a text: at least one and at most four bytes per character. */
  function GetBytes(s: string): (r: Bytes)
    ensures |s| <= |r| <= 4 * |s|
  {
    if s == [] then [] else CharBytes(s[0]) + GetBytes(s[1..])
  }

  /** The low six bits a continuation byte contributes to a code point. */
  function Low6(b: uint8): int {
    b as int % 0x40
  }

  /**
   * The first character of `b` and the number of bytes it takes, or None when
   * `b` does not start with a well-formed, shortest-form UTF-8 sequence.
   */
  function DecodeChar(b: Bytes): (r: Option<(char, nat)>)
    ensures r.Some? ==> 1 <= r.value.1 <= |b|
  {
    if |b| == 0 then None
    else if b[0] < 0x80 then Some(((b[0] as int) as char, 1))
    else if 0xC0 <= b[0] < 0xE0 && |b| >= 2 && IsContinuation(b[1]) then
      var n := (b[0] as int - 0xC0) * 0x40 + Low6(b[1]);
      if n < 0x80 then None else Some((n as char, 2))
    else if 0xE0 <= b[0] < 0xF0 && |b| >= 3 && IsContinuation(b[1]) && IsContinuation(b[2]) then
      var n := (b[0] as int - 0xE0) * 0x1000 + Low6(b[1]) * 0x40 + Low6(b[2]);
      if n < 0x800 || (0xD800 <= n < 0xE000) then None else Some((n as char, 3))
    else if 0xF0 <= b[0] < 0xF8 && |b| >= 4 && IsContinuation(b[1]) && IsContinuation(b[2]) && IsContinuation(b[3]) then
      var n := (b[0] as int - 0xF0) * 0x4_0000 + Low6(b[1]) * 0x1000 + Low6(b[2]) * 0x40 + Low6(b[3]);
      if n < 0x1_0000 || n > 0x10_FFFF then None else Some((n as char, 4))
    else None
  }

  /** The text whose UTF-8 bytes are `b`, or None when `b` is not well-formed UTF-8. */
  function GetString(b: Bytes): Option<string>
    decreases |b|
  {
    if b == [] then Some([])
    else
      match DecodeChar(b)
      case None => None
      case Some((ch, k)) =>
        match GetString(b[k..])
        case None => None
        case Some(rest) => Some([ch] + rest)
  }

  /** Decoding the bytes of one character, whatever follows them, gives that character back. */
  lemma DecodeCharBytes(ch: char, rest: Bytes)
    ensures DecodeChar(CharBytes(ch) + rest) == Some((ch, |CharBytes(ch)|))
  {
    var n := ch as int;
    var b := CharBytes(ch) + rest;
    if n < 0x80 {
    } else if n < 0x800 {
      assert Low6(b[1]) == n % 0x40;
    } else if n < 0x1_0000 {
      assert Low6(b[1]) == (n / 0x40) % 0x40 && Low6(b[2]) == n % 0x40;
      assert (n / 0x40) / 0x40 == n / 0x1000;
    } else {
      assert Low6(b[1]) == (n / 0x1000) % 0x40;
      assert Low6(b[2]) == (n / 0x40) % 0x40 && Low6(b[3]) == n % 0x40;
      assert (n / 0x40) / 0x40 == n / 0x1000;
      assert (n / 0x1000) / 0x40 == n / 0x4_0000;
    }
  }

  /** Round trip: the bytes of a text decode back to that text. */
  lemma {:induction false} GetStringGetBytes(s: string)
    ensures GetString(GetBytes(s)) == Some(s)
  {
    if s != [] {
      var head := CharBytes(s[0]);
      var b := GetBytes(s);
      assert b == head + GetBytes(s[1..]);
      DecodeCharBytes(s[0], GetBytes(s[1..]));
      assert b[|head|..] == GetBytes(s[1..]);
      GetStringGetBytes(s[1..]);
      assert [s[0]] + s[1..] == s;
    }
  }
}
