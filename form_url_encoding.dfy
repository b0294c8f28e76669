/**
 * The `application/x-www-form-urlencoded` serializer of the WHATWG URL
 * Standard, which `URLSearchParams.prototype.toString` applies: each name and
 * value is UTF-8 encoded, every byte outside ASCII letters, digits and
 * `*-._` is written `%XX` in upper-case hex, a space becomes `+`, and the
 * `name=value` pairs are joined by `&`.
 */
module FormUrlEncoding {
  import Strings

  predicate Unreserved(c: char) {
    ('a' <= c <= 'z') || ('A' <= c <= 'Z') || ('0' <= c <= '9') || c == '*' || c == '-' || c == '.' || c == '_'
  }

  predicate HexDigit(c: char) {
    ('0' <= c <= '9') || ('A' <= c <= 'F')
  }

  /** The characters an encoded string is made of. */
  predicate EncodedChar(c: char) {
    Unreserved(c) || c == '+' || c == '%' || HexDigit(c)
  }

  predicate IsByte(b: int) { 0 <= b < 256 }

  /** The UTF-8 encoding of one code point. */
  function Utf8(c: char): (bytes: seq<int>)
    ensures 1 <= |bytes| <= 4
    ensures forall i :: 0 <= i < |bytes| ==> IsByte(bytes[i])
    ensures |bytes| == 1 <==> c as int < 0x80
    ensures |bytes| == 1 ==> bytes[0] == c as int
  {
    var cp := c as int;
    if cp < 0x80 then [cp]
    else if cp < 0x800 then [0xC0 + cp / 64, 0x80 + cp % 64]
    else if cp < 0x10000 then [0xE0 + cp / 4096, 0x80 + (cp / 64) % 64, 0x80 + cp % 64]
    else [0xF0 + cp / 262144, 0x80 + (cp / 4096) % 64, 0x80 + (cp / 64) % 64, 0x80 + cp % 64]
  }

  function Hex(d: int): (c: char)
    requires 0 <= d < 16
    ensures HexDigit(c)
  {
    "0123456789ABCDEF"[d]
  }

  function PercentBytes(bytes: seq<int>): (s: string)
    requires forall i :: 0 <= i < |bytes| ==> IsByte(bytes[i])
    ensures |s| == 3 * |bytes|
    ensures forall i :: 0 <= i < |s| ==> EncodedChar(s[i])
  {
    if |bytes| == 0 then ""
    else
      var b := bytes[0];
      assert IsByte(b);
      assert 0 <= b / 16 < 16;
      ['%', Hex(b / 16), Hex(b % 16)] + PercentBytes(bytes[1..])
  }

  function EncodeChar(c: char): (s: string)
    ensures forall i :: 0 <= i < |s| ==> EncodedChar(s[i])
    ensures Unreserved(c) ==> s == [c]
  {
    if Unreserved(c) then [c]
    else if c == ' ' then "+"
    else PercentBytes(Utf8(c))
  }

  /** The byte serializer applied to a whole name or value. */
  function Encode(s: string): (r: string)
    ensures forall i :: 0 <= i < |r| ==> EncodedChar(r[i])
    ensures (forall i :: 0 <= i < |s| ==> Unreserved(s[i])) ==> r == s
  {
    if |s| == 0 then ""
    else
      assert s == [s[0]] + s[1..];
      EncodeChar(s[0]) + Encode(s[1..])
  }

  function Pair(e: (string, string)): string {
    Encode(e.0) + "=" + Encode(e.1)
  }

  function Pairs(entries: seq<(string, string)>): seq<string> {
    seq(|entries|, i requires 0 <= i < |entries| => Pair(entries[i]))
  }

  /** `new URLSearchParams(entries).toString()`. */
  function Serialize(entries: seq<(string, string)>): (s: string)
    ensures s == "" <==> entries == []
  {
    var ps := Pairs(entries);
    Strings.JoinEmpty(ps, '&');
    assert |ps| >= 1 ==> '=' in ps[0];
    Strings.Join(ps, '&')
  }

  /** One encoded pair holds no `&`, and splits at `=` into its encoded name and value. */
  lemma PairSplits(e: (string, string))
    ensures '&' !in Pair(e)
    ensures Strings.Split(Pair(e), '=') == [Encode(e.0), Encode(e.1)]
  {
    var k := Encode(e.0);
    var v := Encode(e.1);
    NoSeparators(e.0);
    NoSeparators(e.1);
    assert Pair(e) == k + ['='] + v;
    Strings.SplitAfterSeparator(k, v, '=');
  }

  /** Encoded text never holds the `&` or `=` separators. */
  lemma NoSeparators(s: string)
    ensures '=' !in Encode(s) && '&' !in Encode(s)
  {
    var r := Encode(s);
    assert forall j :: 0 <= j < |r| ==> EncodedChar(r[j]);
  }

  /**
   * The serialized text splits back into the pairs at `&`, and each pair into
   * its encoded name and value at `=`: no encoded text holds either separator.
   */
  lemma SerializeSplits(entries: seq<(string, string)>)
    requires |entries| >= 1
    ensures Strings.Split(Serialize(entries), '&') == Pairs(entries)
    ensures forall i :: 0 <= i < |entries| ==>
      Strings.Split(Pairs(entries)[i], '=') == [Encode(entries[i].0), Encode(entries[i].1)]
  {
    var ps := Pairs(entries);
    forall i | 0 <= i < |entries|
      ensures '&' !in ps[i]
      ensures Strings.Split(ps[i], '=') == [Encode(entries[i].0), Encode(entries[i].1)]
    {
      PairSplits(entries[i]);
    }
    Strings.SplitJoin(ps, '&');
  }
}
