/** The `application/x-www-form-urlencoded` serialization that
    `URLSearchParams.prototype.toString` performs: each name and value is
    encoded as UTF-8, bytes outside `*-._0-9A-Za-z` become `%XY` (upper-case
    hex) and a space becomes `+`; pairs are written `name=value` and joined
    with `&`. */
module FormEncoding {
  import opened Strings

  /** A byte, as the numbers 0 to 255. */
  type Byte = b: nat | b < 256

  /** The bytes the serializer writes as themselves. */
  predicate IsFormSafe(b: nat) {
    b == 0x2A || b == 0x2D || b == 0x2E || b == 0x5F
    || (0x30 <= b <= 0x39) || (0x41 <= b <= 0x5A) || (0x61 <= b <= 0x7A)
  }

  /** A character that can appear in serialized output. */
  predicate IsFormChar(c: char) {
    c == '+' || c == '%' || IsFormSafe(c as nat)
  }

  function HexDigit(d: nat): (c: char)
    requires d < 16
    ensures IsFormSafe(c as nat)
  {
    if d < 10 then (0x30 + d) as char else (0x41 + d - 10) as char
  }

  predicate IsHexDigit(c: char) {
    ('0' <= c <= '9') || ('A' <= c <= 'F')
  }

  function HexValue(c: char): (d: nat)
    requires IsHexDigit(c)
    ensures d < 16
  {
    if c <= '9' then c as nat - 0x30 else c as nat - 0x41 + 10
  }

  /** The UTF-8 encoding of one character. */
  function Utf8(c: char): (bs: seq<Byte>)
    ensures 1 <= |bs| <= 4
  {
    var n := c as nat;
    if n < 0x80 then [n]
    else if n < 0x800 then [0xC0 + n / 0x40, 0x80 + n % 0x40]
    else if n < 0x1_0000 then [0xE0 + n / 0x1000, 0x80 + n / 0x40 % 0x40, 0x80 + n % 0x40]
    else [0xF0 + n / 0x4_0000 % 8, 0x80 + n / 0x1000 % 0x40, 0x80 + n / 0x40 % 0x40, 0x80 + n % 0x40]
  }

  function Utf8Of(s: string): seq<Byte>
    decreases |s|
  {
    if s == [] then [] else Utf8(s[0]) + Utf8Of(s[1..])
  }

  function EncodeByte(b: Byte): (r: string)
    ensures forall c :: c in r ==> IsFormChar(c)
  {
    if b == 0x20 then "+"
    else if IsFormSafe(b) then [b as char]
    else ['%', HexDigit(b / 16), HexDigit(b % 16)]
  }

  function EncodeBytes(bs: seq<Byte>): (r: string)
    ensures forall c :: c in r ==> IsFormChar(c)
    decreases |bs|
  {
    if bs == [] then [] else EncodeByte(bs[0]) + EncodeBytes(bs[1..])
  }

  /** The serialized form of one name or value. */
  function FormEncode(s: string): (r: string)
    ensures forall c :: c in r ==> IsFormChar(c)
  {
    EncodeBytes(Utf8Of(s))
  }

  /** The reverse of the byte serializer: `+` is a space, `%XY` the byte
      with that hex value, and any other character its own code. */
  function DecodeBytes(s: string): seq<nat>
    decreases |s|
  {
    if s == [] then []
    else if s[0] == '+' then [0x20] + DecodeBytes(s[1..])
    else if s[0] == '%' && |s| >= 3 && IsHexDigit(s[1]) && IsHexDigit(s[2]) then
      [HexValue(s[1]) * 16 + HexValue(s[2])] + DecodeBytes(s[3..])
    else [s[0] as nat] + DecodeBytes(s[1..])
  }

  lemma DecodeEncodeByte(b: Byte, t: string)
    ensures DecodeBytes(EncodeByte(b) + t) == [b] + DecodeBytes(t)
  {
    var s := EncodeByte(b) + t;
    if b == 0x20 {
      assert s[1..] == t;
    } else if IsFormSafe(b) {
      assert s[1..] == t;
    } else {
      assert s[3..] == t;
      assert s[1] == HexDigit(b / 16) && s[2] == HexDigit(b % 16);
    }
  }

  /** Percent-decoding the serialized bytes gives them back. */
  lemma {:induction false} DecodeEncode(bs: seq<Byte>)
    ensures DecodeBytes(EncodeBytes(bs)) == bs
    decreases |bs|
  {
    if bs != [] {
      DecodeEncodeByte(bs[0], EncodeBytes(bs[1..]));
      DecodeEncode(bs[1..]);
    }
  }

  /** Decoding a serialized name or value gives back its UTF-8 bytes. */
  lemma FormDecode(s: string)
    ensures DecodeBytes(FormEncode(s)) == Utf8Of(s)
  {
    DecodeEncode(Utf8Of(s));
  }

  /** ASCII letters, digits and `*-._` are written unchanged. */
  lemma {:induction false} SafeUnchanged(s: string)
    requires forall c :: c in s ==> IsFormSafe(c as nat)
    ensures FormEncode(s) == s
    decreases |s|
  {
    if s != [] {
      var c := s[0];
      assert forall d :: d in s[1..] ==> d in s;
      SafeUnchanged(s[1..]);
      assert c in s;
      assert Utf8(c) == [c as nat];
      var bs := Utf8Of(s);
      assert bs == [c as nat] + Utf8Of(s[1..]);
      assert bs[1..] == Utf8Of(s[1..]);
      assert (c as nat) as char == c;
      assert EncodeByte(c as nat) == [c];
      assert s == [c] + s[1..];
    }
  }

  /** `new URLSearchParams(params).toString()` */
  function Query(params: seq<(string, string)>): string {
    Join(Pairs(params), "&")
  }

  function Pairs(params: seq<(string, string)>): (r: seq<string>)
    ensures |r| == |params|
    ensures forall i :: 0 <= i < |params| ==> r[i] == FormEncode(params[i].0) + "=" + FormEncode(params[i].1)
  {
    seq(|params|, i requires 0 <= i < |params| => FormEncode(params[i].0) + "=" + FormEncode(params[i].1))
  }

  /** The query holds no character that serialization never writes. */
  lemma QueryFree(params: seq<(string, string)>, c: char)
    requires !IsFormChar(c) && c != '=' && c != '&'
    ensures c !in Query(params)
  {
    var ps := Pairs(params);
    forall p | p in ps
      ensures c !in p
    {
      var i :| 0 <= i < |ps| && ps[i] == p;
      assert p == FormEncode(params[i].0) + "=" + FormEncode(params[i].1);
    }
    JoinFree(ps, "&", c);
  }

  /** A name and value encoded and paired split back at the `=`. */
  lemma PairSplits(name: string, value: string)
    ensures Split(FormEncode(name) + "=" + FormEncode(value), '=') == [FormEncode(name), FormEncode(value)]
  {
    var a, b := FormEncode(name), FormEncode(value);
    SplitAfterPiece(a, '=', b);
    SplitNoSeparator(b, '=');
  }

  /** The query splits back into its pairs, and each pair into its encoded
      name and value: encoding never produces `&` or `=`. */
  lemma QuerySplits(params: seq<(string, string)>)
    requires params != []
    ensures Split(Query(params), '&') == Pairs(params)
    ensures forall i :: 0 <= i < |params| ==>
      Split(Pairs(params)[i], '=') == [FormEncode(params[i].0), FormEncode(params[i].1)]
  {
    var ps := Pairs(params);
    forall i | 0 <= i < |ps|
      ensures '&' !in ps[i]
      ensures Split(ps[i], '=') == [FormEncode(params[i].0), FormEncode(params[i].1)]
    {
      PairSplits(params[i].0, params[i].1);
    }
    SplitJoin(ps, '&');
  }
}
