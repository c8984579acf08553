/**
 * The nearest-colour search behind the server profile-picture mosaic
 * (src/command_run/general/generate_image_pfp_server.rs): each pixel of the
 * guild icon is replaced by the member avatar whose average colour is closest
 * to it in squared RGB distance.
 */
module PfpServerColor {
  import opened Wrappers
  import Text
  import Arith

  /** A `u8` channel value. */
  type U8 = x: int | 0 <= x < 256

  /** A pixel of the guild icon and its `#rrggbb` text. */
  datatype Color = Color(r: U8, g: U8, b: U8, hex: string)

  /** A member's average colour with the avatar URL it was computed from. */
  datatype ColorWithUrl = ColorWithUrl(r: U8, g: U8, b: U8, hex: string, url: string)

  /** The target colour built from a pixel. */
  function PixelColor(r: U8, g: U8, b: U8): (c: Color)
    ensures c.r == r && c.g == g && c.b == b
    ensures |c.hex| == 7 && Text.ParseHex2(c.hex[1..3]) == Some(r as int)
      && Text.ParseHex2(c.hex[3..5]) == Some(g as int) && Text.ParseHex2(c.hex[5..7]) == Some(b as int)
  {
    Text.Hex2RoundTrip(r);
    Text.Hex2RoundTrip(g);
    Text.Hex2RoundTrip(b);
    Color(r, g, b, Text.HexColour(r, g, b))
  }

  /** The largest finite `f32`, the search's starting minimum. */
  const F32Max: int := 0xff_ffff * 0x1_0000_0000_0000_0000_0000_0000

  const MaxDistance: int := 3 * 255 * 255

  lemma SquareBounds(x: int)
    requires -255 <= x <= 255
    ensures 0 <= x * x <= 255 * 255
    ensures x * x == 0 <==> x == 0
  {
    var m: nat := if x >= 0 then x else -x;
    Arith.MulMonotone(m, 255, m);
    Arith.MulMonotone(m, 255, 255);
    assert m * 255 == 255 * m;
    if m > 0 {
      Arith.MulMonotone(1, m, m);
    }
    assert x * x == m * m;
  }

  /** The square of a difference of two channels, as `i32::pow(2)`. */
  function Square(x: int): (s: int)
    requires -255 <= x <= 255
    ensures 0 <= s <= 255 * 255
    ensures s == 0 <==> x == 0
  {
    SquareBounds(x);
    x * x
  }

  /**
   * `color_distance`: the squared Euclidean distance between the channels,
   * computed in `i32` (which cannot overflow: it is at most 3·255²) and cast
   * to `f32`, which represents every integer below 2²⁴ exactly.
   */
  function ColorDistance(c1: ColorWithUrl, c2: Color): (d: int)
    ensures 0 <= d <= MaxDistance
    ensures d == 0 <==> c1.r == c2.r && c1.g == c2.g && c1.b == c2.b
  {
    Square(c1.r - c2.r) + Square(c1.g - c2.g) + Square(c1.b - c2.b)
  }

  /** `k` is the first position of a colour nearest to `target`. */
  ghost predicate IsFirstClosest(colors: seq<ColorWithUrl>, target: Color, k: int) {
    0 <= k < |colors|
    && (forall j :: 0 <= j < |colors| ==> ColorDistance(colors[k], target) <= ColorDistance(colors[j], target))
    && (forall j :: 0 <= j < k ==> ColorDistance(colors[k], target) < ColorDistance(colors[j], target))
  }

  /** The first nearest position is unique, so it pins the search's answer. */
  lemma {:induction false} FirstClosestIsUnique(colors: seq<ColorWithUrl>, target: Color, k1: int, k2: int)
    requires IsFirstClosest(colors, target, k1) && IsFirstClosest(colors, target, k2)
    ensures k1 == k2
  {
    var d1 := ColorDistance(colors[k1], target);
    var d2 := ColorDistance(colors[k2], target);
    assert d1 <= d2 && d2 <= d1;
    assert k1 < k2 ==> d2 < d1;
    assert k2 < k1 ==> d1 < d2;
  }

  /**
   * `find_closest_color`: nothing for an empty list; otherwise a colour at
   * least as near as every other, and on a tie the earliest, since only a
   * strictly smaller distance replaces the current best.
   */
  method FindClosestColor(colors: seq<ColorWithUrl>, target: Color) returns (r: Option<ColorWithUrl>)
    ensures r.None? <==> colors == []
    ensures r.Some? ==> exists k :: IsFirstClosest(colors, target, k) && colors[k] == r.value
  {
    var minDistance := F32Max;
    var closest: Option<ColorWithUrl> := None;
    ghost var at := 0;
    var i := 0;
    while i < |colors|
      invariant 0 <= i <= |colors|
      invariant closest.None? <==> i == 0
      invariant closest.None? ==> minDistance == F32Max
      invariant closest.Some? ==> 0 <= at < i && closest.value == colors[at]
      invariant closest.Some? ==> minDistance == ColorDistance(colors[at], target)
      invariant closest.Some? ==> forall j :: 0 <= j < i ==> minDistance <= ColorDistance(colors[j], target)
      invariant closest.Some? ==> forall j :: 0 <= j < at ==> minDistance < ColorDistance(colors[j], target)
    {
      var distance := ColorDistance(colors[i], target);
      assert distance <= MaxDistance < F32Max;
      if distance < minDistance {
        minDistance := distance;
        closest := Some(colors[i]);
        at := i;
      }
      i := i + 1;
    }
    r := closest;
    if r.Some? {
      assert IsFirstClosest(colors, target, at);
    }
  }

  // ------------------------------------------------------ create_color_vector

  /** The three channels read from `hex[1..3]`, `hex[3..5]` and `hex[5..7]`
      by `parse`, which reads base 10. */
  function DecimalChannels(hex: string): Option<(U8, U8, U8)>
    requires |hex| >= 7
  {
    match (Text.ParseU8(hex[1..3]), Text.ParseU8(hex[3..5]), Text.ParseU8(hex[5..7]))
    case (Some(r), Some(g), Some(b)) => Some((r, g, b))
    case _ => None
  }

  /** Every entry has at least `#` and six characters to slice. */
  ghost predicate Sliceable(tuples: seq<(string, string)>) {
    forall i :: 0 <= i < |tuples| ==> |tuples[i].0| >= 7
  }

  /** One entry of `create_color_vector`'s `filter_map`, for a given channel
      reader. */
  function Convert(t: (string, string), channels: Option<(U8, U8, U8)>): seq<ColorWithUrl> {
    match channels
    case Some((r, g, b)) => [ColorWithUrl(r, g, b, t.0, t.1)]
    case None => []
  }

  /** `create_color_vector` as written: the entries whose three slices parse
      as decimal `u8`, in order, with their hex and url unchanged. */
  function CreateColorVector(tuples: seq<(string, string)>): (r: seq<ColorWithUrl>)
    requires Sliceable(tuples)
    ensures |r| <= |tuples|
  {
    if tuples == [] then []
    else Convert(tuples[0], DecimalChannels(tuples[0].0)) + CreateColorVector(tuples[1..])
  }

  /** The filter works entry by entry: converting a concatenation converts
      each part, so order is preserved. */
  lemma {:induction false} CreateColorVectorAppend(a: seq<(string, string)>, b: seq<(string, string)>)
    requires Sliceable(a) && Sliceable(b)
    ensures Sliceable(a + b)
    ensures CreateColorVector(a + b) == CreateColorVector(a) + CreateColorVector(b)
  {
    SliceableAppend(a, b);
    if a == [] {
      assert a + b == b;
    } else {
      var head := Convert(a[0], DecimalChannels(a[0].0));
      CreateColorVectorAppend(a[1..], b);
      ConsAppend(a, b);
      assert CreateColorVector(a + b) == head + CreateColorVector(a[1..] + b);
      assert CreateColorVector(a) == head + CreateColorVector(a[1..]);
      assert head + (CreateColorVector(a[1..]) + CreateColorVector(b))
        == (head + CreateColorVector(a[1..])) + CreateColorVector(b);
    }
  }

  lemma SliceableAppend(a: seq<(string, string)>, b: seq<(string, string)>)
    requires Sliceable(a) && Sliceable(b)
    ensures Sliceable(a + b)
  {
    forall i | 0 <= i < |a + b| ensures |(a + b)[i].0| >= 7 {
      if i >= |a| { assert (a + b)[i] == b[i - |a|]; }
    }
  }

  lemma ConsAppend(a: seq<(string, string)>, b: seq<(string, string)>)
    requires a != []
    ensures a + b != [] && (a + b)[0] == a[0] && (a + b)[1..] == a[1..] + b
  {
  }

  /** A single entry is kept, with its hex and url unchanged, exactly when
      each of its three two-character slices is two decimal digits or `+`
      and one digit. */
  lemma CreateColorVectorSingle(hex: string, url: string)
    requires |hex| >= 7
    ensures |CreateColorVector([(hex, url)])| <= 1
    ensures CreateColorVector([(hex, url)]) != [] <==>
      (forall k :: 0 <= k < 3 ==> var s := hex[2 * k + 1..2 * k + 3];
         Text.AllDigits(s) || (s[0] == '+' && Text.IsDigit(s[1])))
    ensures forall c :: c in CreateColorVector([(hex, url)]) ==> c.hex == hex && c.url == url
  {
    assert [(hex, url)][1..] == [];
    Text.ParseU8TwoChars(hex[1..3]);
    Text.ParseU8TwoChars(hex[3..5]);
    Text.ParseU8TwoChars(hex[5..7]);
    assert hex[2 * 0 + 1..2 * 0 + 3] == hex[1..3];
    assert hex[2 * 1 + 1..2 * 1 + 3] == hex[3..5];
    assert hex[2 * 2 + 1..2 * 2 + 3] == hex[5..7];
  }

  /** The colours this very program writes are misread: a hex digit a–f makes
      the entry vanish, and decimal-looking digits are read in base 10. */
  lemma DecimalParseMisreadsHex(url: string)
    ensures CreateColorVector([(Text.HexColour(0, 0, 255), url)]) == []
    ensures CreateColorVector([(Text.HexColour(16, 16, 16), url)]) == [ColorWithUrl(10, 10, 10, "#101010", url)]
  {
    BlueIsDropped(url);
    GreyReadInBaseTen(url);
  }

  lemma BlueIsDropped(url: string)
    ensures CreateColorVector([(Text.HexColour(0, 0, 255), url)]) == []
  {
    var blue := Text.HexColour(0, 0, 255);
    var ff := blue[5..7];
    assert ff == Text.Hex2(255) == ['f', 'f'];
    Text.ParseU8TwoChars(ff);
    assert !Text.IsDigit(ff[0]);
    assert DecimalChannels(blue) == None;
    assert [(blue, url)][1..] == [];
  }

  lemma GreyReadInBaseTen(url: string)
    ensures CreateColorVector([(Text.HexColour(16, 16, 16), url)]) == [ColorWithUrl(10, 10, 10, "#101010", url)]
  {
    var grey := Text.HexColour(16, 16, 16);
    var ten := Text.Hex2(16);
    assert ten == ['1', '0'];
    assert grey == "#101010";
    Text.ParseU8TwoChars(ten);
    assert Text.ParseU8(ten) == Some(10);
    assert DecimalChannels(grey) == Some((10, 10, 10));
    assert [(grey, url)][1..] == [];
  }

  /** The channels read in base 16, as the colour text is written. */
  function HexChannels(hex: string): Option<(U8, U8, U8)>
    requires |hex| >= 7
  {
    match (Text.ParseHex2(hex[1..3]), Text.ParseHex2(hex[3..5]), Text.ParseHex2(hex[5..7]))
    case (Some(r), Some(g), Some(b)) =>
      if r < 256 && g < 256 && b < 256 then Some((r, g, b)) else None
    case _ => None
  }

  /** `create_color_vector` reading the slices as hexadecimal. */
  function CreateColorVectorHex(tuples: seq<(string, string)>): (r: seq<ColorWithUrl>)
    requires Sliceable(tuples)
    ensures |r| <= |tuples|
  {
    if tuples == [] then []
    else Convert(tuples[0], HexChannels(tuples[0].0)) + CreateColorVectorHex(tuples[1..])
  }

  /** Read in base 16, every colour written as `#rrggbb` comes back with the
      channels it was written from. */
  lemma HexColourRoundTrip(r: U8, g: U8, b: U8, url: string)
    ensures CreateColorVectorHex([(Text.HexColour(r, g, b), url)])
      == [ColorWithUrl(r, g, b, Text.HexColour(r, g, b), url)]
  {
    Text.Hex2RoundTrip(r);
    Text.Hex2RoundTrip(g);
    Text.Hex2RoundTrip(b);
    assert [(Text.HexColour(r, g, b), url)][1..] == [];
  }

  /** The `(hex, url)` pairs a list of colours is stored as. */
  function Entries(cs: seq<ColorWithUrl>): (ts: seq<(string, string)>)
    ensures |ts| == |cs|
  {
    if cs == [] then [] else [(cs[0].hex, cs[0].url)] + Entries(cs[1..])
  }

  /** Colours whose text is their own `#rrggbb`. */
  ghost predicate WrittenAsHex(cs: seq<ColorWithUrl>) {
    forall i :: 0 <= i < |cs| ==> cs[i].hex == Text.HexColour(cs[i].r, cs[i].g, cs[i].b)
  }

  /** And so, over a whole list of written colours, nothing is dropped and
      every colour is read back exactly as it was stored. */
  lemma {:induction false} HexColoursAllKept(cs: seq<ColorWithUrl>)
    requires WrittenAsHex(cs)
    ensures Sliceable(Entries(cs))
    ensures CreateColorVectorHex(Entries(cs)) == cs
  {
    if cs != [] {
      assert WrittenAsHex(cs[1..]) by {
        forall i | 0 <= i < |cs[1..]| ensures cs[1..][i] == cs[i + 1] { }
      }
      HexColoursAllKept(cs[1..]);
      var c := cs[0];
      HexColourRoundTrip(c.r, c.g, c.b, c.url);
      assert Entries(cs)[1..] == Entries(cs[1..]);
      assert Entries(cs)[0] == (Text.HexColour(c.r, c.g, c.b), c.url);
      assert [(Text.HexColour(c.r, c.g, c.b), c.url)][1..] == [];
      assert cs == [c] + cs[1..];
    }
  }
}
