/** `hex_to_rgba(hexstr, opacity)`: strip every leading '#', cut the rest into
    chunks of width `int(hlen / 3)`, parse each chunk as a base-16 integer,
    and append the opacity. */
module HexColor {
  import opened Wrappers

  /** The parsed channels, followed in the tuple by the opacity. */
  datatype Rgba = Rgba(channels: seq<nat>, opacity: real)

  /** `s.lstrip("#")`: drops every leading '#'. */
  function LStripHash(s: string): (r: string)
    ensures |r| <= |s| && r == s[|s| - |r|..]
    ensures forall k :: 0 <= k < |s| - |r| ==> s[k] == '#'
    ensures r == [] || r[0] != '#'
    decreases |s|
  {
    if |s| > 0 && s[0] == '#' then LStripHash(s[1..]) else s
  }

  /** The value of one hexadecimal digit, either case; None for any other character. */
  function DigitValue(c: char): (d: Option<nat>)
    ensures d.Some? ==> d.value < 16
  {
    if '0' <= c <= '9' then Some(c as nat - '0' as nat)
    else if 'a' <= c <= 'f' then Some(c as nat - 'a' as nat + 10)
    else if 'A' <= c <= 'F' then Some(c as nat - 'A' as nat + 10)
    else None
  }

  function Pow16(n: nat): (p: nat)
    ensures p > 0
  {
    if n == 0 then 1 else 16 * Pow16(n - 1)
  }

  /** `int(s, 16)` for a non-empty string of hexadecimal digits; None otherwise
      (ValueError). The result has at most |s| hexadecimal digits. */
  function ParseHex(s: string): (r: Option<nat>)
    ensures r.Some? ==> r.value < Pow16(|s|)
    ensures r.Some? <==> |s| > 0 && forall k :: 0 <= k < |s| ==> DigitValue(s[k]).Some?
    decreases |s|
  {
    if |s| == 0 then None
    else
      var d := DigitValue(s[|s| - 1]);
      if d.None? then None
      else if |s| == 1 then Some(d.value)
      else
        match ParseHex(s[..|s| - 1])
        case None => None
        case Some(v) => Some(16 * v + d.value)
  }

  /** The positional value of `int(s, 16)`, read from the most significant
      digit: the first digit weighs 16 to the power of the digits after it. */
  lemma {:induction false} ParseHexFront(s: string)
    requires |s| > 0 && forall k :: 0 <= k < |s| ==> DigitValue(s[k]).Some?
    ensures ParseHex(s).value == DigitValue(s[0]).value * Pow16(|s| - 1) + (if |s| == 1 then 0 else ParseHex(s[1..]).value)
    decreases |s|
  {
    var n := |s|;
    if n == 2 {
      assert s[..1] == [s[0]] && s[1..] == [s[1]];
    } else if n > 2 {
      ParseHexFront(s[..n - 1]);
      assert s[..n - 1][0] == s[0];
      ParseHexFrontStep(s);
    }
  }

  /** The step of ParseHexFront: from the front reading of all digits but the
      last to the front reading of the whole string. */
  lemma ParseHexFrontStep(s: string)
    requires |s| > 2 && forall k :: 0 <= k < |s| ==> DigitValue(s[k]).Some?
    requires ParseHex(s[..|s| - 1]).value == DigitValue(s[0]).value * Pow16(|s| - 2) + ParseHex(s[..|s| - 1][1..]).value
    ensures ParseHex(s).value == DigitValue(s[0]).value * Pow16(|s| - 1) + ParseHex(s[1..]).value
  {
    var n := |s|;
    var init := s[..n - 1];
    var mid := ParseHex(init[1..]).value;
    var last := DigitValue(s[n - 1]).value;
    assert ParseHex(s).value == 16 * ParseHex(init).value + last;
    assert s[1..][..n - 2] == init[1..];
    assert s[1..][n - 2] == s[n - 1];
    assert ParseHex(s[1..]).value == 16 * mid + last;
    Regroup(ParseHex(s).value, ParseHex(init).value, ParseHex(s[1..]).value,
            DigitValue(s[0]).value, Pow16(n - 2), Pow16(n - 1), mid, last);
  }

  /** Shifting a front digit one place: the arithmetic step of ParseHexFront. */
  lemma Regroup(whole: nat, init: nat, rest: nat, d0: nat, p: nat, p1: nat, mid: nat, last: nat)
    requires init == d0 * p + mid && whole == 16 * init + last
    requires rest == 16 * mid + last && p1 == 16 * p
    ensures whole == d0 * p1 + rest
  {
    assert d0 * p1 == 16 * (d0 * p);
  }

  /** `[hexstr[i : i + w] for i in range(0, hlen, w)]`, for a width w > 0:
      consecutive chunks of w characters, the last one possibly shorter. */
  function Chunks(s: string, w: nat): (cs: seq<string>)
    requires w > 0
    ensures forall k :: 0 <= k < |cs| ==> 0 < |cs[k]| <= w
    ensures forall k :: 0 <= k < |cs| - 1 ==> |cs[k]| == w
    ensures Concat(cs) == s
    decreases |s|
  {
    if |s| == 0 then []
    else if |s| <= w then [s]
    else [s[..w]] + Chunks(s[w..], w)
  }

  /** There are `ceil(|s| / w)` chunks. */
  lemma {:induction false} ChunkCount(s: string, w: nat)
    requires w > 0
    ensures |s| > 0 ==> (|Chunks(s, w)| - 1) * w < |s| <= |Chunks(s, w)| * w
    ensures |s| == 0 ==> Chunks(s, w) == []
    decreases |s|
  {
    if |s| > w {
      ChunkCount(s[w..], w);
      var n := |Chunks(s[w..], w)|;
      assert |Chunks(s, w)| == n + 1;
      assert (n + 1) * w == n * w + w;
    }
  }

  function Concat(cs: seq<string>): (s: string)
    decreases |cs|
  {
    if |cs| == 0 then [] else cs[0] + Concat(cs[1..])
  }

  /** Parses every chunk, or fails on the first one `int` rejects. */
  function ParseAll(cs: seq<string>): (r: Option<seq<nat>>)
    ensures r.Some? ==> |r.value| == |cs| && forall k :: 0 <= k < |cs| ==> ParseHex(cs[k]) == Some(r.value[k])
    ensures r.None? ==> exists k :: 0 <= k < |cs| && ParseHex(cs[k]).None?
    decreases |cs|
  {
    if |cs| == 0 then Some([])
    else
      match ParseHex(cs[0])
      case None => None
      case Some(v) =>
        match ParseAll(cs[1..])
        case None => None
        case Some(vs) => Some([v] + vs)
  }

  /** Parsing the chunks fails exactly when one of them is not hexadecimal. */
  lemma ParseAllFailsIffSomeChunkFails(cs: seq<string>)
    ensures ParseAll(cs).None? <==> exists k :: 0 <= k < |cs| && ParseHex(cs[k]).None?
  {
  }

  /** `hex_to_rgba`. A width of 0 (fewer than three characters after the '#'s)
      makes `range` raise ValueError. */
  function HexToRgba(hexstr: string, opacity: real): (r: Result<Rgba>)
    ensures |LStripHash(hexstr)| < 3 <==> r == Err(ZeroRangeStep)
    ensures r.Ok? ==> r.value.opacity == opacity
    ensures r.Ok? ==> |r.value.channels| == |Chunks(LStripHash(hexstr), |LStripHash(hexstr)| / 3)|
  {
    var h := LStripHash(hexstr);
    var w := |h| / 3;
    if w == 0 then Err(ZeroRangeStep)
    else
      match ParseAll(Chunks(h, w))
      case None => Err(InvalidLiteral)
      case Some(vs) => Ok(Rgba(vs, opacity))
  }

  /** What the channels are: channel k is `int` of chunk k, and the call fails
      with ValueError from `int` exactly when some chunk is not hexadecimal. */
  lemma HexToRgbaChannels(hexstr: string, opacity: real)
    ensures var h := LStripHash(hexstr);
      HexToRgba(hexstr, opacity).Ok? ==>
        forall k :: 0 <= k < |HexToRgba(hexstr, opacity).value.channels| ==>
          ParseHex(Chunks(h, |h| / 3)[k]) == Some(HexToRgba(hexstr, opacity).value.channels[k])
    ensures var h := LStripHash(hexstr);
      |h| >= 3 ==>
        (HexToRgba(hexstr, opacity) == Err(InvalidLiteral) <==>
           exists k :: 0 <= k < |Chunks(h, |h| / 3)| && ParseHex(Chunks(h, |h| / 3)[k]).None?)
  {
    var h := LStripHash(hexstr);
    if |h| >= 3 {
      var cs := Chunks(h, |h| / 3);
      ParseAllFailsIffSomeChunkFails(cs);
    }
  }

  predicate AllHexDigits(s: string) {
    forall k :: 0 <= k < |s| ==> DigitValue(s[k]).Some?
  }

  /** A string of three times w characters falls into three chunks of w. */
  lemma ChunksOfThree(h: string, w: nat)
    requires w > 0 && |h| == 3 * w
    ensures Chunks(h, w) == [h[..w], h[w..2 * w], h[2 * w..]]
  {
    assert h[w..][w..] == h[2 * w..];
    assert h[w..][..w] == h[w..2 * w];
    assert Chunks(h[2 * w..], w) == [h[2 * w..]];
    assert Chunks(h[w..], w) == [h[w..2 * w], h[2 * w..]];
  }

  lemma ParseAllThree(a: string, b: string, c: string)
    requires ParseHex(a).Some? && ParseHex(b).Some? && ParseHex(c).Some?
    ensures ParseAll([a, b, c]) == Some([ParseHex(a).value, ParseHex(b).value, ParseHex(c).value])
  {
    var va, vb, vc := ParseHex(a).value, ParseHex(b).value, ParseHex(c).value;
    assert ParseAll([c]) == Some([vc]) by {
      assert [c][0] == c && [c][1..] == [];
      assert [vc] + [] == [vc];
    }
    assert ParseAll([b, c]) == Some([vb, vc]) by {
      assert [b, c][0] == b && [b, c][1..] == [c];
      assert [vb] + [vc] == [vb, vc];
    }
    assert [a, b, c][0] == a && [a, b, c][1..] == [b, c];
    assert [va] + [vb, vc] == [va, vb, vc];
  }

  lemma SliceOfHexDigits(h: string, i: nat, j: nat)
    requires i <= j <= |h| && AllHexDigits(h)
    ensures AllHexDigits(h[i..j])
  {
    assert forall k :: 0 <= k < j - i ==> h[i..j][k] == h[i + k];
  }

  /** With at least three characters after the '#'s, the result is the parse of the chunks. */
  lemma HexToRgbaOfParsed(hexstr: string, opacity: real, w: nat, vs: seq<nat>)
    requires w > 0 && |LStripHash(hexstr)| == 3 * w
    requires ParseAll(Chunks(LStripHash(hexstr), w)) == Some(vs)
    ensures HexToRgba(hexstr, opacity) == Ok(Rgba(vs, opacity))
  {
    assert |LStripHash(hexstr)| / 3 == w;
  }

  /** The base-16 value `16 * high + low` of a pair of hexadecimal digits: one byte. */
  function PairValue(hi: char, lo: char): (v: nat)
    requires DigitValue(hi).Some? && DigitValue(lo).Some?
    ensures v < 256
  {
    16 * DigitValue(hi).value + DigitValue(lo).value
  }

  /** Six hex digits give three channels in 0..255, each the base-16 value
      `16 * high + low` of its pair of digits. */
  lemma SixDigitsGiveBytes(hexstr: string, opacity: real)
    requires |LStripHash(hexstr)| == 6 && AllHexDigits(LStripHash(hexstr))
    ensures var h := LStripHash(hexstr);
      HexToRgba(hexstr, opacity) == Ok(Rgba([PairValue(h[0], h[1]), PairValue(h[2], h[3]), PairValue(h[4], h[5])], opacity))
  {
    var h := LStripHash(hexstr);
    SixDigitChunks(h);
    HexToRgbaOfParsed(hexstr, opacity, 2, [PairValue(h[0], h[1]), PairValue(h[2], h[3]), PairValue(h[4], h[5])]);
  }

  /** Six hex digits, cut into chunks of two, parse as three pairs. */
  lemma SixDigitChunks(h: string)
    requires |h| == 6 && AllHexDigits(h)
    ensures ParseAll(Chunks(h, 2)) == Some([PairValue(h[0], h[1]), PairValue(h[2], h[3]), PairValue(h[4], h[5])])
  {
    ThreeChunksParse(h, 2);
    var x, y, z := h[..2], h[2..4], h[4..];
    assert x[0] == h[0] && x[1] == h[1] && y[0] == h[2] && y[1] == h[3] && z[0] == h[4] && z[1] == h[5];
    ParseTwoDigits(x);
    ParseTwoDigits(y);
    ParseTwoDigits(z);
  }

  /** Two hex digits parse as `16 * high + low`. */
  lemma ParseTwoDigits(x: string)
    requires |x| == 2 && DigitValue(x[0]).Some? && DigitValue(x[1]).Some?
    ensures ParseHex(x) == Some(PairValue(x[0], x[1]))
  {
    assert x[1..] == [x[1]];
    ParseHexFront(x);
    assert Pow16(1) == 16;
  }

  /** A string of hex digits three times w long parses as its three chunks. */
  lemma ThreeChunksParse(h: string, w: nat)
    requires w > 0 && |h| == 3 * w && AllHexDigits(h)
    ensures ParseHex(h[..w]).Some? && ParseHex(h[w..2 * w]).Some? && ParseHex(h[2 * w..]).Some?
    ensures ParseAll(Chunks(h, w)) == Some([ParseHex(h[..w]).value, ParseHex(h[w..2 * w]).value, ParseHex(h[2 * w..]).value])
  {
    ChunksOfThree(h, w);
    SliceOfHexDigits(h, 0, w);
    SliceOfHexDigits(h, w, 2 * w);
    SliceOfHexDigits(h, 2 * w, 3 * w);
    assert h[0..w] == h[..w] && h[2 * w..3 * w] == h[2 * w..];
    ParseAllThree(h[..w], h[w..2 * w], h[2 * w..]);
  }

  /** Three hex digits give three channels in 0..15: each digit is read as
      it stands, not doubled as in CSS shorthand. */
  lemma ThreeDigitsAreNotDoubled(hexstr: string, opacity: real)
    requires |LStripHash(hexstr)| == 3 && AllHexDigits(LStripHash(hexstr))
    ensures var h := LStripHash(hexstr);
      && HexToRgba(hexstr, opacity) == Ok(Rgba([DigitValue(h[0]).value, DigitValue(h[1]).value, DigitValue(h[2]).value], opacity))
      && DigitValue(h[0]).value < 16 && DigitValue(h[1]).value < 16 && DigitValue(h[2]).value < 16
  {
    var h := LStripHash(hexstr);
    ThreeDigitChunks(h);
    HexToRgbaOfParsed(hexstr, opacity, 1, [DigitValue(h[0]).value, DigitValue(h[1]).value, DigitValue(h[2]).value]);
  }

  /** Three hex digits, cut into chunks of one, parse as their digit values. */
  lemma ThreeDigitChunks(h: string)
    requires |h| == 3 && AllHexDigits(h)
    ensures ParseAll(Chunks(h, 1)) == Some([DigitValue(h[0]).value, DigitValue(h[1]).value, DigitValue(h[2]).value])
    ensures DigitValue(h[0]).value < 16 && DigitValue(h[1]).value < 16 && DigitValue(h[2]).value < 16
  {
    ThreeChunksParse(h, 1);
    ParseOneDigit(h, 0);
    ParseOneDigit(h, 1);
    ParseOneDigit(h, 2);
    assert h[..1] == h[0..1] && h[2..] == h[2..3];
  }

  lemma ParseOneDigit(h: string, i: nat)
    requires i < |h| && DigitValue(h[i]).Some?
    ensures ParseHex(h[i..i + 1]) == DigitValue(h[i]) && DigitValue(h[i]).value < 16
  {
    assert h[i..i + 1][0] == h[i];
  }

  function HexDigitChar(d: nat): (c: char)
    requires d < 16
    ensures DigitValue(c) == Some(d)
  {
    if d < 10 then ('0' as nat + d) as char else ('a' as nat + d - 10) as char
  }

  /** Two lower-case hex digits for a byte. */
  function ByteToHex(b: nat): (s: string)
    requires b < 256
    ensures |s| == 2 && ParseHex(s) == Some(b)
  {
    var s := [HexDigitChar(b / 16), HexDigitChar(b % 16)];
    assert s[..1] == [s[0]];
    s
  }

  /** Formatting three bytes as "#rrggbb" and parsing it back gives the bytes. */
  lemma FormatThenParse(r: nat, g: nat, b: nat, opacity: real)
    requires r < 256 && g < 256 && b < 256
    ensures HexToRgba("#" + ByteToHex(r) + ByteToHex(g) + ByteToHex(b), opacity) == Ok(Rgba([r, g, b], opacity))
  {
    var body := ByteToHex(r) + ByteToHex(g) + ByteToHex(b);
    var s := "#" + body;
    assert "#" + ByteToHex(r) + ByteToHex(g) + ByteToHex(b) == s;
    assert s[1..] == body;
    assert DigitValue(body[0]).Some?;
    assert LStripHash(body) == body;
    assert LStripHash(s) == body;
    assert body[..2] == ByteToHex(r) && body[2..4] == ByteToHex(g) && body[4..] == ByteToHex(b);
    assert AllHexDigits(body) by {
      assert forall k :: 0 <= k < 2 ==> body[k] == ByteToHex(r)[k] && body[k + 2] == ByteToHex(g)[k] && body[k + 4] == ByteToHex(b)[k];
    }
    ThreeChunksParse(body, 2);
    HexToRgbaOfParsed(s, opacity, 2, [r, g, b]);
  }
}
