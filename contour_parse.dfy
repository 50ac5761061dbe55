/** The contour generator: a contour file holds one `x;y` pixel pair per
    line; the pairs are shifted so that the image center is the origin,
    scaled, and emitted as a sprite contour whose half sides are half the
    scaled image size. */
module ContourParse {
  import opened Wrappers
  import opened Geometry
  import opened Sequences
  import TextHelper
  import Spirits

  // ---- str.split ----

  function IsChar(c: char): char -> bool
  {
    x => x == c
  }

  /** `s.split(sep)`: the pieces between separators, in order; one more
      piece than there are separators. */
  function Split(s: string, sep: char): (r: seq<string>)
    ensures |r| >= 1
    ensures forall k :: 0 <= k < |r| ==> sep !in r[k]
    decreases |s|
  {
    match FirstIndex(s, IsChar(sep))
    case None => [s]
    case Some(i) =>
      assert sep !in s[..i] by {
        forall k | 0 <= k < i ensures s[..i][k] != sep {
          assert !IsChar(sep)(s[k]);
        }
      }
      [s[..i]] + Split(s[i + 1..], sep)
  }

  /** `sep.join(parts)`. */
  function Join(parts: seq<string>, sep: char): string
    decreases |parts|
  {
    if |parts| == 0 then ""
    else if |parts| == 1 then parts[0]
    else parts[0] + [sep] + Join(parts[1..], sep)
  }

  /** Joining the pieces back restores the text. */
  lemma {:induction false} SplitJoin(s: string, sep: char)
    ensures Join(Split(s, sep), sep) == s
    decreases |s|
  {
    match FirstIndex(s, IsChar(sep))
    case None =>
    case Some(i) =>
      var rest := Split(s[i + 1..], sep);
      SplitJoin(s[i + 1..], sep);
      assert Split(s, sep) == [s[..i]] + rest;
      assert s == s[..i] + [sep] + s[i + 1..];
  }

  /** Splitting a join of separator-free parts gives the parts back. */
  lemma {:induction false} JoinSplit(parts: seq<string>, sep: char)
    requires |parts| >= 1
    requires forall k :: 0 <= k < |parts| ==> sep !in parts[k]
    ensures Split(Join(parts, sep), sep) == parts
    decreases |parts|
  {
    var s := Join(parts, sep);
    if |parts| == 1 {
      NoMatch(s, sep);
    } else {
      var head, tail := parts[0], Join(parts[1..], sep);
      JoinSplit(parts[1..], sep);
      assert s == head + [sep] + tail;
      SeparatorAfter(head, sep, tail);
      assert s[..|head|] == head && s[|head| + 1..] == tail;
    }
  }

  /** In a text without the separator the scan finds none. */
  lemma NoMatch(s: string, c: char)
    requires c !in s
    ensures FirstIndex(s, IsChar(c)) == None
  {
    assert forall k :: 0 <= k < |s| ==> !IsChar(c)(s[k]);
  }

  /** The scan stops at the separator that follows a separator-free head. */
  lemma SeparatorAfter(head: string, c: char, tail: string)
    requires c !in head
    ensures FirstIndex(head + [c] + tail, IsChar(c)) == Some(|head|)
  {
    var s := head + [c] + tail;
    forall k | 0 <= k < |head| ensures !IsChar(c)(s[k]) {
      assert s[k] == head[k];
    }
    FirstIndexAt(s, IsChar(c), |head|);
  }

  // ---- get_pairs_from_content ----

  /** The text of newline-terminated lines. */
  function Terminated(lines: seq<string>): string
    decreases |lines|
  {
    if |lines| == 0 then "" else lines[0] + "\n" + Terminated(lines[1..])
  }

  lemma {:induction false} TerminatedIsJoin(lines: seq<string>)
    ensures Terminated(lines) == Join(lines + [""], '\n')
    decreases |lines|
  {
    if |lines| > 0 {
      TerminatedIsJoin(lines[1..]);
      assert (lines + [""])[1..] == lines[1..] + [""];
    }
  }

  /** `get_pairs_from_content`: the lines but the last piece, each split on
      `;`. The last piece is what follows the final newline. */
  function GetPairsFromContent(content: string): (r: seq<seq<string>>)
    ensures |r| == |Split(content, '\n')| - 1
  {
    var lines := Split(content, '\n');
    seq(|lines| - 1, i requires 0 <= i < |lines| - 1 => Split(lines[i], ';'))
  }

  /** k newline-terminated lines give k entries, each its line split on `;`,
      in line order. */
  lemma PairsFromLines(lines: seq<string>)
    requires forall k :: 0 <= k < |lines| ==> '\n' !in lines[k]
    ensures var r := GetPairsFromContent(Terminated(lines));
      |r| == |lines| && forall k :: 0 <= k < |lines| ==> r[k] == Split(lines[k], ';')
  {
    TerminatedIsJoin(lines);
    JoinSplit(lines + [""], '\n');
  }

  // ---- float ----

  function Pow10(n: nat): (r: real)
    ensures r >= 1.0
  {
    if n == 0 then 1.0 else 10.0 * Pow10(n - 1)
  }

  /** A possibly empty run of digits. */
  function DigitsValue(s: string): Option<nat>
  {
    if |s| == 0 then Some(0) else TextHelper.ParseNat(s)
  }

  /** Digits with an optional decimal point and digits on at least one side. */
  function ParseUnsigned(s: string): Option<real>
  {
    match FirstIndex(s, IsChar('.'))
    case None =>
      (match TextHelper.ParseNat(s)
       case None => None
       case Some(n) => Some(n as real))
    case Some(i) =>
      var whole, fraction := s[..i], s[i + 1..];
      if |whole| == 0 && |fraction| == 0 then None
      else
        match (DigitsValue(whole), DigitsValue(fraction))
        case (Some(w), Some(f)) => Some(w as real + f as real / Pow10(|fraction|))
        case _ => None
  }

  /** `float(text)` on decimal numerals with an optional leading minus. */
  function ParseNumber(s: string): Option<real>
  {
    if |s| > 0 && s[0] == '-' then
      match ParseUnsigned(s[1..])
      case None => None
      case Some(v) => Some(-v)
    else ParseUnsigned(s)
  }

  /** The numeral of a natural number reads back as that number. */
  lemma ParseNatDecimal(m: nat)
    ensures ParseUnsigned(TextHelper.NatDecimal(m)) == Some(m as real)
    ensures var d := TextHelper.NatDecimal(m); |d| > 0 && d[0] != '-' && ';' !in d && '\n' !in d
  {
    var digits := TextHelper.NatDecimal(m);
    TextHelper.NatDecimalShape(m);
    TextHelper.NatDecimalRoundTrip(m);
    assert forall k :: 0 <= k < |digits| ==> TextHelper.IsDigit(digits[k]);
    NoMatch(digits, '.');
  }

  /** The numeral of an integer reads back as that number. */
  lemma ParseDecimal(n: int)
    ensures ParseNumber(TextHelper.Decimal(n)) == Some(n as real)
    ensures ';' !in TextHelper.Decimal(n) && '\n' !in TextHelper.Decimal(n)
  {
    var m: nat := if n < 0 then -n else n;
    ParseNatDecimal(m);
    if n < 0 {
      var s := TextHelper.Decimal(n);
      assert s[1..] == TextHelper.NatDecimal(m);
    }
  }

  // ---- pairs_shifted ----

  /** Why an entry cannot be shifted: it does not have exactly two fields
      (the `[a, b]` unpacking fails), or a field is not a number. */
  datatype EntryError = FieldCount(fields: nat) | NotANumber(field: string)

  /** The first failing entry, by index. */
  datatype ParseError = ParseError(index: nat, reason: EntryError)

  /** One entry shifted by half the image size; the first field is
      converted before the second. */
  function ShiftEntry(entry: seq<string>, width: real, height: real): Result<Vector, EntryError>
  {
    if |entry| != 2 then Err(FieldCount(|entry|))
    else match ParseNumber(entry[0])
      case None => Err(NotANumber(entry[0]))
      case Some(a) =>
        match ParseNumber(entry[1])
        case None => Err(NotANumber(entry[1]))
        case Some(b) => Ok(Vector(a - width / 2.0, b - height / 2.0))
  }

  /** An entry the comprehension accepts: two numeric fields. */
  predicate WellFormedEntry(entry: seq<string>)
  {
    |entry| == 2 && ParseNumber(entry[0]).Some? && ParseNumber(entry[1]).Some?
  }

  /** `pairs_shifted`: the comprehension runs front to back and stops at the
      first entry it cannot unpack or convert. Otherwise length and order are
      kept and each pair is moved so that the image center becomes the
      origin. */
  function PairsShifted(pairs: seq<seq<string>>, width: real, height: real): (r: Result<seq<Vector>, ParseError>)
    ensures r.Ok? <==> forall k :: 0 <= k < |pairs| ==> WellFormedEntry(pairs[k])
    ensures r.Ok? ==> |r.value| == |pairs| && forall k :: 0 <= k < |pairs| ==>
      r.value[k] == Vector(ParseNumber(pairs[k][0]).value - width / 2.0, ParseNumber(pairs[k][1]).value - height / 2.0)
    ensures r.Err? ==>
      r.error.index < |pairs| && !WellFormedEntry(pairs[r.error.index]) &&
      (forall k :: 0 <= k < r.error.index ==> WellFormedEntry(pairs[k])) &&
      ShiftEntry(pairs[r.error.index], width, height) == Err(r.error.reason)
    decreases |pairs|
  {
    if |pairs| == 0 then Ok([])
    else match ShiftEntry(pairs[0], width, height)
      case Err(e) => Err(ParseError(0, e))
      case Ok(v) =>
        match PairsShifted(pairs[1..], width, height)
        case Err(e) => Err(ParseError(e.index + 1, e.reason))
        case Ok(vs) => Ok([v] + vs)
  }

  // ---- process_file ----

  /** The emitted contour before the two-decimal rounding: the shifted
      pairs scaled, and half the scaled image size. */
  function ProcessContour(points: seq<Vector>, width: real, height: real, scaler: real): (c: Contour)
    ensures c == ScaleContour(Contour(points, Vector(width / 2.0, height / 2.0)), scaler)
  {
    Contour(seq(|points|, k requires 0 <= k < |points| => Scale(points[k], scaler)),
            Vector(width * scaler / 2.0, height * scaler / 2.0))
  }

  /** The contour of a contour file's text, or the first bad entry. */
  function ProcessFile(content: string, width: real, height: real, scaler: real): Result<Contour, ParseError>
  {
    match PairsShifted(GetPairsFromContent(content), width, height)
    case Err(e) => Err(e)
    case Ok(points) => Ok(ProcessContour(points, width, height, scaler))
  }

  /** An entry made of the numerals of a pixel pair shifts by half the
      image size. */
  lemma ShiftPixel(pixel: (int, int), width: real, height: real)
    ensures ShiftEntry([TextHelper.Decimal(pixel.0), TextHelper.Decimal(pixel.1)], width, height) ==
      Ok(Vector(pixel.0 as real - width / 2.0, pixel.1 as real - height / 2.0))
  {
    ParseDecimal(pixel.0);
    ParseDecimal(pixel.1);
  }

  /** The image center maps to the origin. */
  lemma CenterMapsToOrigin(width: real, height: real, cx: int, cy: int)
    requires cx as real == width / 2.0 && cy as real == height / 2.0
    ensures ShiftEntry([TextHelper.Decimal(cx), TextHelper.Decimal(cy)], width, height) == Ok(Vector(0.0, 0.0))
  {
    ShiftPixel((cx, cy), width, height);
  }

  /** A contour file as the tracing step writes it: one `x;y` line per
      integer pixel pair. */
  function Render(pixels: seq<(int, int)>): string
  {
    Terminated(seq(|pixels|, k requires 0 <= k < |pixels| => RenderedLine(pixels[k])))
  }

  /** The pixel pairs moved so that the image center is the origin. */
  function Centered(pixels: seq<(int, int)>, width: real, height: real): seq<Vector>
  {
    seq(|pixels|, k requires 0 <= k < |pixels| =>
      Vector(pixels[k].0 as real - width / 2.0, pixels[k].1 as real - height / 2.0))
  }

  /** Reading a rendered file gives back every pixel pair, shifted, in
      order, and the contour scaled from them. */
  lemma RenderRoundTrip(pixels: seq<(int, int)>, width: real, height: real, scaler: real)
    ensures PairsShifted(GetPairsFromContent(Render(pixels)), width, height) == Ok(Centered(pixels, width, height))
    ensures ProcessFile(Render(pixels), width, height, scaler) ==
      Ok(ProcessContour(Centered(pixels, width, height), width, height, scaler))
  {
    var pairs := GetPairsFromContent(Render(pixels));
    RenderedEntries(pixels);
    forall k | 0 <= k < |pairs|
      ensures ShiftEntry(pairs[k], width, height) == Ok(Centered(pixels, width, height)[k])
    {
      ShiftPixel(pixels[k], width, height);
    }
    PairsShiftedAllOk(pairs, Centered(pixels, width, height), width, height);
  }

  /** A rendered file has one entry per pixel pair: its two numerals. */
  lemma RenderedEntries(pixels: seq<(int, int)>)
    ensures var pairs := GetPairsFromContent(Render(pixels));
      |pairs| == |pixels| && forall k :: 0 <= k < |pixels| ==>
        pairs[k] == [TextHelper.Decimal(pixels[k].0), TextHelper.Decimal(pixels[k].1)]
  {
    var lines := seq(|pixels|, k requires 0 <= k < |pixels| => RenderedLine(pixels[k]));
    forall k | 0 <= k < |lines|
      ensures '\n' !in lines[k]
      ensures Split(lines[k], ';') == [TextHelper.Decimal(pixels[k].0), TextHelper.Decimal(pixels[k].1)]
    {
      RenderedLineReadsBack(pixels[k]);
    }
    assert Render(pixels) == Terminated(lines);
    PairsFromLines(lines);
  }

  /** When every entry shifts, the whole list does, entry by entry. */
  lemma {:induction false} PairsShiftedAllOk(pairs: seq<seq<string>>, points: seq<Vector>, width: real, height: real)
    requires |pairs| == |points|
    requires forall k :: 0 <= k < |pairs| ==> ShiftEntry(pairs[k], width, height) == Ok(points[k])
    ensures PairsShifted(pairs, width, height) == Ok(points)
    decreases |pairs|
  {
    if |pairs| > 0 {
      PairsShiftedAllOk(pairs[1..], points[1..], width, height);
      assert points == [points[0]] + points[1..];
    }
  }

  /** One `x;y` line of a rendered contour file. */
  function RenderedLine(pixel: (int, int)): string
  {
    TextHelper.Decimal(pixel.0) + ";" + TextHelper.Decimal(pixel.1)
  }

  /** A rendered line has no newline and splits into two fields that read
      back as the pixel's coordinates. */
  lemma RenderedLineReadsBack(pixel: (int, int))
    ensures '\n' !in RenderedLine(pixel)
    ensures Split(RenderedLine(pixel), ';') == [TextHelper.Decimal(pixel.0), TextHelper.Decimal(pixel.1)]
    ensures ParseNumber(TextHelper.Decimal(pixel.0)) == Some(pixel.0 as real)
    ensures ParseNumber(TextHelper.Decimal(pixel.1)) == Some(pixel.1 as real)
  {
    var a, b := TextHelper.Decimal(pixel.0), TextHelper.Decimal(pixel.1);
    ParseDecimal(pixel.0);
    ParseDecimal(pixel.1);
    assert RenderedLine(pixel) == Join([a, b], ';');
    JoinSplit([a, b], ';');
  }

  /** The generator's three calls give the sprite data's half sides: those of
      the rocket and the asteroid exactly, that of the bullet's height as
      71.375, which the two-decimal rounding prints as 71.38. */
  lemma GeneratedHalfSides()
    ensures ProcessContour([], 128.0, 224.0, 0.5).halfOfSides == Spirits.ControllerData().contour.halfOfSides
    ensures ProcessContour([], 1000.0, 877.0, 0.1).halfOfSides == Spirits.AsteroidData().contour.halfOfSides
    ensures ProcessContour([], 102.0, 571.0, 0.25).halfOfSides == Vector(12.75, 71.375)
    ensures Spirits.BulletData().contour.halfOfSides == Vector(12.75, 71.375 + 0.005)
  {
  }
}
