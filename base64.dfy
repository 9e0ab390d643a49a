/**
 * The browser's `btoa` / `atob` pair, which the mock authentication layer
 * uses as its password "encryption". `Btoa` is the Base64 encoding of
 * section 4 of RFC 4648 applied to a string whose code units are bytes;
 * `Atob` is the forgiving decoder browsers implement (ASCII whitespace is
 * ignored, padding is optional, leftover bits are dropped).
 */
module Base64 {
  import opened Records

  const PAD: CodeUnit := '=' as int

  predicate IsLatin1(s: JsString) {
    forall i :: 0 <= i < |s| ==> s[i] < 256
  }

  /** The character of the Base64 alphabet (RFC 4648, table 1) for a 6-bit value. */
  function SextetChar(v: int): (c: CodeUnit)
    requires 0 <= v < 64
  {
    if v < 26 then 'A' as int + v
    else if v < 52 then 'a' as int + (v - 26)
    else if v < 62 then '0' as int + (v - 52)
    else if v == 62 then '+' as int
    else '/' as int
  }

  predicate InAlphabet(c: CodeUnit) {
    ('A' as int <= c <= 'Z' as int) || ('a' as int <= c <= 'z' as int) ||
    ('0' as int <= c <= '9' as int) || c == '+' as int || c == '/' as int
  }

  /** The 6-bit value an alphabet character stands for. */
  function SextetValue(c: CodeUnit): (v: int)
    requires InAlphabet(c)
    ensures 0 <= v < 64
    ensures SextetChar(v) == c
  {
    if 'A' as int <= c <= 'Z' as int then c - 'A' as int
    else if 'a' as int <= c <= 'z' as int then c - 'a' as int + 26
    else if '0' as int <= c <= '9' as int then c - '0' as int + 52
    else if c == '+' as int then 62
    else 63
  }

  lemma SextetCharInverse(v: int)
    requires 0 <= v < 64
    ensures InAlphabet(SextetChar(v)) && SextetValue(SextetChar(v)) == v
  {
  }

  predicate AllInAlphabet(s: JsString) {
    forall i :: 0 <= i < |s| ==> InAlphabet(s[i])
  }

  predicate AreSextets(v: seq<int>) {
    forall i :: 0 <= i < |v| ==> 0 <= v[i] < 64
  }

  /** Splits a group of one to three bytes into its 6-bit values, the last one zero-filled. */
  function SextetsOf(g: JsString): (v: seq<int>)
    requires 1 <= |g| <= 3 && IsLatin1(g)
    ensures |v| == |g| + 1 && AreSextets(v)
  {
    if |g| == 1 then [g[0] / 4, (g[0] % 4) * 16]
    else if |g| == 2 then [g[0] / 4, (g[0] % 4) * 16 + g[1] / 16, (g[1] % 16) * 4]
    else [g[0] / 4, (g[0] % 4) * 16 + g[1] / 16, (g[1] % 16) * 4 + g[2] / 64, g[2] % 64]
  }

  /** Joins two to four 6-bit values into bytes, dropping the bits left over. */
  function BytesOf(v: seq<int>): (g: JsString)
    requires 2 <= |v| <= 4 && AreSextets(v)
    ensures |g| == |v| - 1 && IsLatin1(g)
  {
    if |v| == 2 then [v[0] * 4 + v[1] / 16]
    else if |v| == 3 then [v[0] * 4 + v[1] / 16, (v[1] % 16) * 16 + v[2] / 4]
    else [v[0] * 4 + v[1] / 16, (v[1] % 16) * 16 + v[2] / 4, (v[2] % 4) * 64 + v[3]]
  }

  /** Packing a high part and a low part into one value, and taking them apart again. */
  lemma Unpack(hi: int, lo: int, k: int)
    requires k == 4 || k == 16 || k == 64
    requires 0 <= lo < k && 0 <= hi
    ensures (hi * k + lo) / k == hi && (hi * k + lo) % k == lo
  {
  }

  lemma GroupRoundTrip(g: JsString)
    requires 1 <= |g| <= 3 && IsLatin1(g)
    ensures BytesOf(SextetsOf(g)) == g
  {
    var v := SextetsOf(g);
    var b := BytesOf(v);
    Unpack(g[0] % 4, if |g| == 1 then 0 else g[1] / 16, 16);
    assert b[0] == g[0];
    if |g| >= 2 {
      Unpack(g[1] % 16, if |g| == 2 then 0 else g[2] / 64, 4);
      assert b[1] == g[1];
    }
    if |g| == 3 {
      assert b[2] == g[2];
    }
  }

  function ToChars(v: seq<int>): (t: JsString)
    requires AreSextets(v)
    ensures |t| == |v| && AllInAlphabet(t)
    ensures forall i :: 0 <= i < |t| ==> SextetValue(t[i]) == v[i]
  {
    var t := seq(|v|, i requires 0 <= i < |v| => SextetChar(v[i]));
    assert forall i :: 0 <= i < |t| ==> InAlphabet(t[i]) && SextetValue(t[i]) == v[i] by {
      forall i | 0 <= i < |t| ensures InAlphabet(t[i]) && SextetValue(t[i]) == v[i] {
        SextetCharInverse(v[i]);
      }
    }
    t
  }

  function ToValues(t: JsString): (v: seq<int>)
    requires AllInAlphabet(t)
    ensures |v| == |t| && AreSextets(v)
    ensures forall i :: 0 <= i < |v| ==> v[i] == SextetValue(t[i])
  {
    seq(|t|, i requires 0 <= i < |t| => SextetValue(t[i]))
  }

  /**
   * The encoding without its padding: four characters per full group of
   * three bytes, then two characters for one leftover byte or three for two.
   */
  function Unpadded(s: JsString): (r: JsString)
    requires IsLatin1(s)
    ensures AllInAlphabet(r)
    ensures |r| == |s| / 3 * 4 + (if |s| % 3 == 0 then 0 else |s| % 3 + 1)
    decreases |s|
  {
    if |s| == 0 then []
    else if |s| < 3 then ToChars(SextetsOf(s))
    else ToChars(SextetsOf(s[..3])) + Unpadded(s[3..])
  }

  /** The unpadded length plus the padding is a whole number of four-character groups. */
  lemma PaddedLength(n: nat, unpadded: nat, pad: nat)
    requires unpadded == n / 3 * 4 + (if n % 3 == 0 then 0 else n % 3 + 1)
    requires pad == if n % 3 == 1 then 2 else if n % 3 == 2 then 1 else 0
    ensures unpadded + pad == (n + 2) / 3 * 4 && (unpadded + pad) % 4 == 0
  {
    var q, r := n / 3, n % 3;
    assert n + 2 == 3 * (q + (if r == 0 then 0 else 1)) + (if r == 0 then 2 else r - 1);
    assert unpadded + pad == (q + (if r == 0 then 0 else 1)) * 4;
  }

  /** `btoa(s)`: `None` stands for the exception thrown on a code unit above 255. */
  function Btoa(s: JsString): (r: Option<JsString>)
    ensures r.Some? <==> IsLatin1(s)
    ensures r.Some? ==> |r.value| % 4 == 0 && |r.value| == (|s| + 2) / 3 * 4
  {
    if IsLatin1(s) then
      var u := Unpadded(s);
      var pad: JsString := if |s| % 3 == 1 then [PAD, PAD] else if |s| % 3 == 2 then [PAD] else [];
      PaddedLength(|s|, |u|, |pad|);
      Some(u + pad)
    else None
  }

  /** ASCII whitespace as the forgiving decoder defines it: TAB, LF, FF, CR, SPACE. */
  predicate IsAsciiWhitespace(c: CodeUnit) {
    c == 0x09 || c == 0x0A || c == 0x0C || c == 0x0D || c == 0x20
  }

  function StripWhitespace(s: JsString): (r: JsString)
    ensures |r| <= |s|
    ensures forall i :: 0 <= i < |r| ==> !IsAsciiWhitespace(r[i])
  {
    if s == [] then []
    else if IsAsciiWhitespace(s[0]) then StripWhitespace(s[1..])
    else [s[0]] + StripWhitespace(s[1..])
  }

  /** When the length is a multiple of four, one or two trailing `=` are dropped. */
  function DropPadding(s: JsString): (r: JsString)
    ensures r <= s
  {
    if |s| % 4 == 0 && |s| >= 2 && s[|s| - 1] == PAD && s[|s| - 2] == PAD then s[..|s| - 2]
    else if |s| % 4 == 0 && |s| >= 1 && s[|s| - 1] == PAD then s[..|s| - 1]
    else s
  }

  /** Decodes alphabet characters four at a time; a tail of two or three gives one or two bytes. */
  function DecodeSextets(t: JsString): (r: JsString)
    requires AllInAlphabet(t) && |t| % 4 != 1
    ensures IsLatin1(r)
    decreases |t|
  {
    if |t| == 0 then []
    else if |t| < 4 then BytesOf(ToValues(t))
    else BytesOf(ToValues(t[..4])) + DecodeSextets(t[4..])
  }

  /** `atob(s)`: `None` stands for the InvalidCharacterError it throws. */
  function Atob(s: JsString): (r: Option<JsString>)
    ensures r.Some? ==> IsLatin1(r.value)
  {
    var d := DropPadding(StripWhitespace(s));
    if |d| % 4 == 1 || !AllInAlphabet(d) then None
    else Some(DecodeSextets(d))
  }

  lemma {:induction false} StripWhitespaceKeeps(s: JsString)
    requires forall i :: 0 <= i < |s| ==> !IsAsciiWhitespace(s[i])
    ensures StripWhitespace(s) == s
  {
    if s != [] {
      StripWhitespaceKeeps(s[1..]);
    }
  }

  lemma {:induction false} DecodeUnpadded(s: JsString)
    requires IsLatin1(s)
    ensures DecodeSextets(Unpadded(s)) == s
    decreases |s|
  {
    var u := Unpadded(s);
    if 0 < |s| < 3 {
      assert ToValues(u) == SextetsOf(s);
      GroupRoundTrip(s);
    } else if |s| >= 3 {
      var c := ToChars(SextetsOf(s[..3]));
      assert u[..4] == c && u[4..] == Unpadded(s[3..]);
      assert ToValues(c) == SextetsOf(s[..3]);
      GroupRoundTrip(s[..3]);
      DecodeUnpadded(s[3..]);
      assert s == s[..3] + s[3..];
    }
  }

  /** The padding `btoa` appends is exactly what the decoder drops. */
  lemma DropPaddingOfEncoding(s: JsString)
    requires IsLatin1(s)
    ensures DropPadding(Btoa(s).value) == Unpadded(s)
  {
    var u := Unpadded(s);
    var e := Btoa(s).value;
    if |s| % 3 == 1 {
      assert e == u + [PAD, PAD];
      assert e[..|e| - 2] == u;
    } else if |s| % 3 == 2 {
      assert e == u + [PAD];
      assert InAlphabet(u[|u| - 1]);
      assert e[..|e| - 1] == u;
    } else {
      assert e == u;
      if |u| > 0 {
        assert InAlphabet(u[|u| - 1]);
      }
    }
  }

  lemma EncodingHasNoWhitespace(s: JsString)
    requires IsLatin1(s)
    ensures forall i :: 0 <= i < |Btoa(s).value| ==> !IsAsciiWhitespace(Btoa(s).value[i])
  {
    var u := Unpadded(s);
    var pad: JsString := if |s| % 3 == 1 then [PAD, PAD] else if |s| % 3 == 2 then [PAD] else [];
    var e := Btoa(s).value;
    assert e == u + pad;
    forall i | 0 <= i < |e| ensures !IsAsciiWhitespace(e[i]) {
      if i < |u| {
        assert InAlphabet(u[i]);
      } else {
        assert e[i] == pad[i - |u|];
      }
    }
  }

  lemma UnpaddedLength(s: JsString)
    requires IsLatin1(s)
    ensures |Unpadded(s)| % 4 != 1
  {
    Unpack(|s| / 3, if |s| % 3 == 0 then 0 else |s| % 3 + 1, 4);
  }

  /** Round trip: whatever `btoa` accepts, `atob` gives back unchanged. */
  lemma BtoaAtobRoundTrip(s: JsString)
    requires IsLatin1(s)
    ensures Btoa(s).Some? && Atob(Btoa(s).value) == Some(s)
  {
    EncodingHasNoWhitespace(s);
    StripWhitespaceKeeps(Btoa(s).value);
    DropPaddingOfEncoding(s);
    UnpaddedLength(s);
    DecodeUnpadded(s);
  }
}
