/** UTF-16LE names on the wire. */
module Utf16 {
  import opened Bytes

  /** The code units of one character. */
  function Units(c: char): (u: seq<u16>)
    ensures |u| == 1 || |u| == 2
  {
    var n := c as int;
    if n < 0x1_0000 then [n]
    else [0xD800 + (n - 0x1_0000) / 0x400, 0xDC00 + (n - 0x1_0000) % 0x400]
  }

  function Encode(s: string): (b: bytes)
  {
    if s == "" then []
    else if |Units(s[0])| == 1 then Put16(Units(s[0])[0]) + Encode(s[1..])
    else Put16(Units(s[0])[0]) + Put16(Units(s[0])[1]) + Encode(s[1..])
  }

  /** Lossy decoding: an odd length gives nothing, a stray surrogate the replacement character. */
  function Decode(b: bytes): string {
    if |b| % 2 != 0 || b == [] then ""
    else
      var u := Get16(b, 0);
      if u < 0xD800 || 0xE000 <= u then [u as char] + Decode(b[2..])
      else if u < 0xDC00 && |b| >= 4 && 0xDC00 <= Get16(b, 2) < 0xE000 then
        [(0x1_0000 + (u - 0xD800) * 0x400 + (Get16(b, 2) - 0xDC00)) as char] + Decode(b[4..])
      else ['\U{FFFD}'] + Decode(b[2..])
  }

  lemma PairSplit(n: nat)
    requires 0x1_0000 <= n < 0x11_0000
    ensures var h, l := (n - 0x1_0000) / 0x400, (n - 0x1_0000) % 0x400;
            h < 0x400 && 0x1_0000 + h * 0x400 + l == n
  {
  }

  lemma {:induction false} EncodeEven(s: string)
    ensures |Encode(s)| % 2 == 0
  {
    hide Put16;
    if s != "" {
      EncodeEven(s[1..]);
    }
  }

  /** Every name comes back from its encoding. */
  lemma {:induction false} DecodeEncode(s: string)
    ensures Decode(Encode(s)) == s
  {
    hide Put16, Get16;
    if s != "" {
      DecodeEncode(s[1..]);
      EncodeEven(s);
      var u, rest := Units(s[0]), Encode(s[1..]);
      var b := Encode(s);
      assert [s[0]] + s[1..] == s;
      if |u| == 1 {
        DropFirst(Put16(u[0]), rest);
        assert b[0..2] == Put16(u[0]);
        GetPut16(b, 0, u[0]);
      } else {
        PairSplit(s[0] as int);
        Assoc(Put16(u[0]), Put16(u[1]), rest);
        DropFirst(Put16(u[0]) + Put16(u[1]), rest);
        SliceFirst(Put16(u[0]) + Put16(u[1]), rest, 0, 2);
        SliceFirst(Put16(u[0]) + Put16(u[1]), rest, 2, 4);
        assert b[0..2] == Put16(u[0]) && b[2..4] == Put16(u[1]);
        GetPut16(b, 0, u[0]);
        GetPut16(b, 2, u[1]);
      }
    }
  }

  /** Two bytes, low first, for a character of the basic plane; the surrogate pair for one beyond. */
  lemma EncodesOne(c: char)
    ensures var n := c as int;
            n < 0x1_0000 ==> Encode([c]) == [n % 0x100, n / 0x100]
    ensures Encode(['\U{1F600}']) == [0x3D, 0xD8, 0x00, 0xDE]
  {
    LittleEndian(c as int % U16);
    assert [c][1..] == "" && Encode("") == [];
    var e := '\U{1F600}';
    assert [e][1..] == "" && Units(e) == [0xD83D, 0xDE00];
    LittleEndian(0xD83D);
    LittleEndian(0xDE00);
  }
}
