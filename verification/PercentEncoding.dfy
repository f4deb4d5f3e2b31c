/** Percent-encoding of remote paths, and what undoes it. */
module PercentEncoding {
  import opened ByteStrings
  import opened Options

  const SLASH: Byte := 47

  /** The unreserved characters of section 2.3 of RFC 3986. */
  predicate IsUnreserved(b: Byte) {
    65 <= b <= 90 || 97 <= b <= 122 || 48 <= b <= 57 || b == 45 || b == 95 || b == 46 || b == 126
  }

  function HexDigit(n: nat): char
    requires n < 16
  {
    if n < 10 then (48 + n) as char else (55 + n) as char
  }

  function HexValue(c: char): (r: Option<nat>)
    ensures r.Some? ==> r.value < 16
  {
    if '0' <= c <= '9' then Some(c as int - 48)
    else if 'A' <= c <= 'F' then Some(c as int - 55)
    else if 'a' <= c <= 'f' then Some(c as int - 87)
    else None
  }

  function EncodeByte(b: Byte): string {
    if IsUnreserved(b) then [b as char] else ['%', HexDigit(b / 16), HexDigit(b % 16)]
  }

  function Encode(s: seq<Byte>): string {
    if s == [] then "" else Encode(s[..|s| - 1]) + EncodeByte(s[|s| - 1])
  }

  method UrlencodingEncode(s: seq<Byte>) returns (out: string)
    ensures out == Encode(s)
  {
    out := "";
    for i := 0 to |s|
      invariant out == Encode(s[..i])
    {
      assert s[..i + 1][..i] == s[..i];
      var b := s[i];
      if IsUnreserved(b) {
        out := out + [b as char];
      } else {
        out := out + "%";
        out := out + [HexDigit(b / 16), HexDigit(b % 16)];
      }
    }
    assert s[..|s|] == s;
  }

  // ---- Paths ---------------------------------------------------------------------------------------------

  function Split(s: seq<Byte>): (r: seq<seq<Byte>>)
    ensures |r| > 0
  {
    if s == [] then [[]]
    else
      var rest, b := Split(s[..|s| - 1]), s[|s| - 1];
      if b == SLASH then rest + [[]] else rest[|rest| - 1 := rest[|rest| - 1] + [b]]
  }

  function EncodeAll(segments: seq<seq<Byte>>): seq<string> {
    seq(|segments|, i requires 0 <= i < |segments| => Encode(segments[i]))
  }

  function Join(segments: seq<string>): string
    requires |segments| > 0
  {
    if |segments| == 1 then segments[0]
    else Join(segments[..|segments| - 1]) + "/" + segments[|segments| - 1]
  }

  /** What the client puts in the URL: each segment encoded, the slashes kept. */
  function EncodePath(path: seq<Byte>): string {
    Join(EncodeAll(Split(path)))
  }

  /** The same, byte by byte. */
  function EncodeKeepingSlashes(path: seq<Byte>): string {
    if path == [] then ""
    else
      var b := path[|path| - 1];
      EncodeKeepingSlashes(path[..|path| - 1]) + if b == SLASH then "/" else EncodeByte(b)
  }

  lemma {:induction false} EncodePathByteByByte(path: seq<Byte>)
    ensures EncodePath(path) == EncodeKeepingSlashes(path)
  {
    if path == [] {
      assert EncodeAll([[]])[0] == "";
    } else {
      var n, b := |path| - 1, path[|path| - 1];
      var rest := Split(path[..n]);
      var k := |rest| - 1;
      EncodePathByteByByte(path[..n]);
      if b == SLASH {
        assert EncodeAll(rest + [[]]) == EncodeAll(rest) + [""];
      } else {
        var last := rest[k] + [b];
        assert last[..|rest[k]|] == rest[k];
        assert EncodeAll(rest[k := last]) == EncodeAll(rest)[k := Encode(rest[k]) + EncodeByte(b)];
        JoinLast(EncodeAll(rest), EncodeByte(b));
      }
    }
  }

  lemma JoinLast(segments: seq<string>, more: string)
    requires |segments| > 0
    ensures var k := |segments| - 1;
            Join(segments[k := segments[k] + more]) == Join(segments) + more
  {
    var k := |segments| - 1;
    assert segments[k := segments[k] + more][..k] == segments[..k];
  }

  // ---- Decoding --------------------------------------------------------------------------------------------

  /** Percent-decoding, section 2.1 of RFC 3986. */
  function Decode(s: string): Option<seq<Byte>>
    decreases |s|
  {
    if s == "" then Some([])
    else if s[0] == '%' then
      if |s| < 3 || HexValue(s[1]).None? || HexValue(s[2]).None? then None
      else
        var rest := Decode(s[3..]);
        if rest.None? then None else Some([HexValue(s[1]).value * 16 + HexValue(s[2]).value] + rest.value)
    else if s[0] as int >= 256 then None
    else
      var rest := Decode(s[1..]);
      if rest.None? then None else Some([s[0] as int] + rest.value)
  }

  function EncodeOne(b: Byte): string {
    if b == SLASH then "/" else EncodeByte(b)
  }

  lemma HexRoundTrips(n: nat)
    requires n < 16
    ensures HexValue(HexDigit(n)) == Some(n) && IsUpperHex(HexDigit(n))
  {
  }

  lemma DecodeOne(b: Byte, rest: string)
    ensures Decode(EncodeOne(b) + rest) ==
            if Decode(rest).None? then None else Some([b] + Decode(rest).value)
  {
    var s := EncodeOne(b) + rest;
    if b == SLASH || IsUnreserved(b) {
      assert s[0] as int == b && s[1..] == rest;
    } else {
      HexRoundTrips(b / 16);
      HexRoundTrips(b % 16);
      assert s[1] == HexDigit(b / 16) && s[2] == HexDigit(b % 16) && s[3..] == rest;
    }
  }

  lemma LastEncoded(path: seq<Byte>, rest: string)
    requires path != []
    ensures EncodeKeepingSlashes(path) + rest ==
            EncodeKeepingSlashes(path[..|path| - 1]) + (EncodeOne(path[|path| - 1]) + rest)
  {
  }

  lemma LastMovesOver(path: seq<Byte>, more: seq<Byte>)
    requires path != []
    ensures path[..|path| - 1] + ([path[|path| - 1]] + more) == path + more
  {
  }

  lemma {:induction false} DecodeEncoded(path: seq<Byte>, rest: string)
    ensures Decode(EncodeKeepingSlashes(path) + rest) ==
            if Decode(rest).None? then None else Some(path + Decode(rest).value)
  {
    if path == [] {
      assert "" + rest == rest;
      if Decode(rest).Some? { assert [] + Decode(rest).value == Decode(rest).value; }
    } else {
      var init, b := path[..|path| - 1], path[|path| - 1];
      LastEncoded(path, rest);
      DecodeOne(b, rest);
      DecodeEncoded(init, EncodeOne(b) + rest);
      if Decode(rest).Some? { LastMovesOver(path, Decode(rest).value); }
    }
  }

  /** Percent-decoding gives every path back, so no two paths share a URL. */
  lemma EncodePathRoundTrips(path: seq<Byte>, other: seq<Byte>)
    ensures Decode(EncodePath(path)) == Some(path)
    ensures EncodePath(path) == EncodePath(other) ==> path == other
  {
    EncodePathDecodes(path);
    EncodePathDecodes(other);
  }

  lemma EncodePathDecodes(path: seq<Byte>)
    ensures Decode(EncodePath(path)) == Some(path)
  {
    EncodePathByteByByte(path);
    DecodeEncoded(path, "");
    assert EncodeKeepingSlashes(path) + "" == EncodeKeepingSlashes(path);
    assert path + [] == path;
  }

  // ---- What the output is made of -----------------------------------------------------------------------------

  predicate IsUpperHex(c: char) {
    '0' <= c <= '9' || 'A' <= c <= 'F'
  }

  /** Only unreserved characters, upper-case percent triplets and slashes. */
  predicate UrlSafe(s: string)
    decreases |s|
  {
    s == "" ||
    (s[0] == '%' && |s| >= 3 && IsUpperHex(s[1]) && IsUpperHex(s[2]) && UrlSafe(s[3..])) ||
    (s[0] as int < 256 && (s[0] == '/' || IsUnreserved(s[0] as int)) && UrlSafe(s[1..]))
  }

  lemma {:induction false} SafeAppend(path: seq<Byte>, rest: string)
    requires UrlSafe(rest)
    ensures UrlSafe(EncodeKeepingSlashes(path) + rest)
  {
    if path == [] {
      assert "" + rest == rest;
    } else {
      var init, b := path[..|path| - 1], path[|path| - 1];
      SafeOne(b, rest);
      SafeAppend(init, EncodeOne(b) + rest);
      LastEncoded(path, rest);
    }
  }

  lemma SafeOne(b: Byte, rest: string)
    requires UrlSafe(rest)
    ensures UrlSafe(EncodeOne(b) + rest)
  {
    var s := EncodeOne(b) + rest;
    if b == SLASH || IsUnreserved(b) {
      assert s[0] as int == b && s[1..] == rest;
    } else {
      HexRoundTrips(b / 16);
      HexRoundTrips(b % 16);
      assert s[1] == HexDigit(b / 16) && s[2] == HexDigit(b % 16) && s[3..] == rest;
    }
  }

  /** What needs no encoding, as a character. */
  predicate IsPlain(c: char) {
    'A' <= c <= 'Z' || 'a' <= c <= 'z' || '0' <= c <= '9' || c == '-' || c == '.' || c == '_' || c == '~' || c == '/'
  }

  /** A plain character stands for itself, and any other byte becomes `%` and two upper-case hexadecimal digits. */
  lemma WhatAByteBecomes(b: Byte)
    ensures var e := EncodePath([b]);
            if IsPlain(b as char) then e == [b as char]
            else |e| == 3 && e[0] == '%' && IsUpperHex(e[1]) && IsUpperHex(e[2])
  {
    EncodePathByteByByte([b]);
    KeepingOne(b);
    if !IsPlain(b as char) {
      HexRoundTrips(b / 16);
      HexRoundTrips(b % 16);
    }
  }

  /** And a path is encoded byte by byte. */
  lemma PathsEncodeInPieces(a: seq<Byte>, b: Byte)
    ensures EncodePath(a + [b]) == EncodePath(a) + EncodePath([b])
  {
    EncodePathByteByByte(a + [b]);
    EncodePathByteByByte(a);
    EncodePathByteByByte([b]);
    KeepingOne(b);
    KeepingMore(a, b);
  }

  lemma KeepingMore(a: seq<Byte>, b: Byte)
    ensures EncodeKeepingSlashes(a + [b]) == EncodeKeepingSlashes(a) + EncodeOne(b)
  {
    assert (a + [b])[..|a|] == a;
  }

  lemma KeepingOne(b: Byte)
    ensures EncodeKeepingSlashes([b]) == EncodeOne(b)
  {
    KeepingMore([], b);
    assert [] + [b] == [b] && "" + EncodeOne(b) == EncodeOne(b);
  }

  /** Nothing in an encoded path can end it, start a query or stand for another byte. */
  lemma EncodePathIsSafe(path: seq<Byte>)
    ensures UrlSafe(EncodePath(path))
  {
    EncodePathByteByByte(path);
    SafeAppend(path, "");
    assert EncodeKeepingSlashes(path) + "" == EncodeKeepingSlashes(path);
  }
}
