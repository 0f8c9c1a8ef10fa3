/**
 * The decisions of the image converter page: which files it takes, the size
 * it scales an image to, the quality it hands the encoder, the size estimate
 * it reports, and the reset of the page. Pixels, canvas drawing and encoding
 * are outside the model; their results come in as parameters.
 */
module ImageConverter {
  import opened Wrappers
  import opened Text
  import opened Decimal

  /** 10 MiB, the largest file taken. */
  const MaxFileSize: nat := 10 * 1024 * 1024

  /** Length of "data:image/png;base64,", the prefix the size estimate discounts. */
  const DataUrlPrefixLength: int := 22

  /** What the page reads of a chosen file. */
  datatype File = File(name: string, mimeType: string, size: nat)

  datatype FileCheck = NotAnImage | TooLarge | Accepted

  /** The two checks of `handleFile`, type first, then size. */
  function CheckFile(f: File): (r: FileCheck)
    ensures r == Accepted <==> "image/" <= f.mimeType && f.size <= MaxFileSize
    ensures r == NotAnImage <==> !("image/" <= f.mimeType)
  {
    if !("image/" <= f.mimeType) then NotAnImage
    else if f.size > MaxFileSize then TooLarge
    else Accepted
  }

  /**
   * `parseInt(s)` in base ten: leading whitespace skipped, an optional sign,
   * then the longest run of digits; `None` stands for NaN.
   */
  function ParseInt(s: string): (r: Option<int>)
    ensures r.None? <==> LeadingDigits(SignedRest(TrimStart(s))) == []
  {
    var t := TrimStart(s);
    var d := LeadingDigits(SignedRest(t));
    if d == [] then None
    else
      var v: int := DigitsToNat(d);
      if t[0] == '-' then Some(-v) else Some(v)
  }

  /** What follows an optional leading sign. */
  function SignedRest(t: string): (r: string)
    ensures |r| <= |t|
  {
    if t != [] && (t[0] == '-' || t[0] == '+') then t[1..] else t
  }

  /** Digits alone parse as their value. */
  lemma ParseIntDigits(d: string)
    requires d != [] && AllDigits(d)
    ensures ParseInt(d) == Some(DigitsToNat(d) as int)
  {
    assert IsDigit(d[0]);
    TrimStartOfTrimmed(d);
    assert SignedRest(d) == d;
    LeadingDigitsOf(d, []);
    assert d + [] == d;
  }

  /** Digits after a minus sign parse as their negated value. */
  lemma ParseIntNegative(d: string)
    requires d != [] && AllDigits(d)
    ensures ParseInt(['-'] + d) == Some(-(DigitsToNat(d) as int))
  {
    var m := ['-'] + d;
    TrimStartOfTrimmed(m);
    assert SignedRest(m) == d;
    LeadingDigitsOf(d, []);
    assert d + [] == d;
  }

  /**
   * Whitespace, an optional sign, a run of digits, then anything that does not
   * go on with a digit: the digits' value, negated after a minus sign. So
   * "1e3" reads as 1, " 12px" as 12, "+5" as 5 and "007" as 7.
   */
  lemma {:induction false} ParseIntOf(ws: string, sign: string, d: string, rest: string)
    requires AllSpace(ws)
    requires sign == "" || sign == "+" || sign == "-"
    requires d != [] && AllDigits(d)
    requires rest == [] || !IsDigit(rest[0])
    ensures ParseInt(ws + sign + d + rest) == Some(if sign == "-" then -(DigitsToNat(d) as int) else DigitsToNat(d) as int)
  {
    var x := sign + d + rest;
    assert ws + sign + d + rest == ws + x;
    assert IsDigit(d[0]);
    assert x[0] == if sign == "" then d[0] else sign[0];
    TrimStartOfSpaces(ws, x);
    assert SignedRest(x) == d + rest;
    LeadingDigitsOf(d, rest);
  }

  /** A number written out in decimal, with or without a minus sign, parses back to itself. */
  lemma {:induction false} ParseIntRoundTrip(n: nat)
    ensures ParseInt(NatToString(n)) == Some(n)
    ensures ParseInt(['-'] + NatToString(n)) == Some(-(n as int))
  {
    var d := NatToString(n);
    assert DigitsToNat(d) == n by { DigitsRoundTrip(n); }
    assert ParseInt(d) == Some(n) by { ParseIntDigits(d); }
    assert ParseInt(['-'] + d) == Some(-(n as int)) by { ParseIntNegative(d); }
  }

  /** The form's values after `clearAll` read back as quality 90 and width limit 1920. */
  lemma {:induction false} DefaultFormValues()
    ensures ParseInt("90") == Some(90) && ParseInt("1920") == Some(1920)
  {
    assert NatToString(90) == "90" by {
      assert NatToString(9) == "9";
      assert NatToString(90) == NatToString(9) + [DigitChar(0)];
    }
    assert NatToString(1920) == "1920" by {
      assert NatToString(19) == "19" by {
        assert NatToString(1) == "1";
        assert NatToString(19) == NatToString(1) + [DigitChar(9)];
      }
      assert NatToString(192) == NatToString(19) + [DigitChar(2)] == "192";
      assert NatToString(1920) == NatToString(192) + [DigitChar(0)];
    }
    assert ParseInt("90") == Some(90) by { ParseIntRoundTrip(90); }
    assert ParseInt("1920") == Some(1920) by { ParseIntRoundTrip(1920); }
  }

  /** `parseInt(maxWidth) || null`: NaN and 0 mean no limit. */
  function WidthLimit(parsed: Option<int>): (r: Option<int>)
    ensures r.Some? ==> parsed == r && r.value != 0
    ensures r.None? <==> parsed.None? || parsed == Some(0)
  {
    if parsed.None? || parsed.value == 0 then None else parsed
  }

  /** `Math.round`: the nearest integer, halves rounded up. */
  function Round(x: real): (r: int)
    ensures x - 0.5 < r as real <= x + 0.5
  {
    (x + 0.5).Floor
  }

  /** Whether `(nw, nh)` is what `convertImage` draws an image of `w` by `h` at with `limit`. */
  predicate Scaled(w: int, h: int, limit: Option<int>, nw: int, nh: int)
    requires w >= 1
  {
    if limit.Some? && w > limit.value then nw == limit.value && nh == Round(h as real * (limit.value as real / w as real))
    else nw == w && nh == h
  }

  /**
   * The new dimensions of `convertImage`: an image wider than the limit is
   * scaled down to the limit's width, its height rounded to keep the aspect
   * ratio; any other image keeps its size.
   */
  method ScaleToLimit(w: int, h: nat, limit: Option<int>) returns (newWidth: int, newHeight: int)
    requires w >= 1
    ensures Scaled(w, h, limit, newWidth, newHeight)
    ensures limit.None? || w <= limit.value ==> newWidth == w && newHeight == h
    ensures limit.Some? && w > limit.value ==>
      newWidth == limit.value && newHeight <= h
      && 2 * h * limit.value - w < 2 * w * newHeight <= 2 * h * limit.value + w
  {
    newWidth := w;
    newHeight := h;
    if limit.Some? && newWidth > limit.value {
      var ratio := limit.value as real / newWidth as real;
      newWidth := limit.value;
      newHeight := Round(newHeight as real * ratio);
      ScaledBounds(w, h, limit.value, newHeight);
    }
  }

  lemma MulLeft(a: real, b: real, c: real)
    requires a < b && c > 0.0
    ensures a * c < b * c
  {
  }

  lemma MulLeftLe(a: real, b: real, c: real)
    requires a <= b && c > 0.0
    ensures a * c <= b * c
  {
  }

  /** `h * (m / w)` is `(h * m) / w` in exact arithmetic. */
  lemma RatioProduct(h: int, m: int, w: int)
    requires w >= 1
    ensures h as real * (m as real / w as real) == (h * m) as real / w as real
  {
  }

  /** Rounding `p / w` gives the integer `r` with `2 p - w < 2 w r <= 2 p + w`. */
  lemma RoundOfRatio(p: int, w: int)
    requires w >= 1
    ensures 2 * p - w < 2 * w * Round(p as real / w as real) <= 2 * p + w
  {
    var x := p as real / w as real;
    var r := Round(x);
    var c := (2 * w) as real;
    assert x * c == (2 * p) as real;
    MulLeft(x - 0.5, r as real, c);
    MulLeftLe(r as real, x + 0.5, c);
    assert r as real * c == (2 * w * r) as real;
  }

  lemma MulMono(a: int, b: int, c: nat)
    requires a <= b
    ensures a * c <= b * c
  {
  }

  /** The rounded height is the integer nearest to `h * m / w`, so it is no taller than `h`. */
  lemma ScaledBounds(w: int, h: nat, m: int, nh: int)
    requires w >= 1 && m < w
    requires nh == Round(h as real * (m as real / w as real))
    ensures 2 * h * m - w < 2 * w * nh <= 2 * h * m + w
    ensures nh <= h
  {
    RatioProduct(h, m, w);
    RoundOfRatio(h * m, w);
    MulMono(m, w - 1, h);
    if nh > h {
      MulMono(h + 1, nh, 2 * w);
    }
  }

  /** The quality argument of `toDataURL`. */
  datatype QualityArg = Omitted | Fraction(q: real) | NotANumber

  /** `parseInt(quality) / 100`, passed only when the format is not "png". */
  function QualityArgument(outputFormat: string, quality: string): (r: QualityArg)
    ensures r.Omitted? <==> outputFormat == "png"
    ensures outputFormat != "png" && ParseInt(quality).Some? ==> r == Fraction(ParseInt(quality).value as real / 100.0)
    ensures outputFormat != "png" && ParseInt(quality).None? ==> r == NotANumber
  {
    if outputFormat == "png" then Omitted
    else
      match ParseInt(quality)
      case Some(p) => Fraction(p as real / 100.0)
      case None => NotANumber
  }

  /** `Math.round(((length - 22) * 3) / 4)`: the bytes behind a base64 data URL of that length. */
  function EstimatedSize(length: int): (r: int)
    ensures 4 * r - 2 <= 3 * (length - DataUrlPrefixLength) < 4 * r + 2
  {
    Round(((length - DataUrlPrefixLength) * 3) as real / 4.0)
  }

  /** A payload of `k` whole base64 groups after the prefix is estimated at exactly `3 k` bytes. */
  lemma EstimatedSizeOfGroups(k: nat)
    ensures EstimatedSize(DataUrlPrefixLength + 4 * k) == 3 * k
  {
    var r := EstimatedSize(DataUrlPrefixLength + 4 * k);
    assert 4 * r - 2 <= 12 * k < 4 * r + 2;
  }

  /** The estimate grows with the length of the data URL. */
  lemma EstimatedSizeMonotone(a: int, b: int)
    requires a <= b
    ensures EstimatedSize(a) <= EstimatedSize(b)
  {
    var ra, rb := EstimatedSize(a), EstimatedSize(b);
    assert 4 * ra - 2 <= 3 * (a - DataUrlPrefixLength) <= 3 * (b - DataUrlPrefixLength) < 4 * rb + 2;
  }

  /** What `convertImage` does: refuse, or draw and encode with these settings. */
  datatype ConvertOutcome =
    | NoImageSelected
    | Converted(mimeType: string, width: int, height: int, quality: QualityArg, estimatedSize: int, fileName: string)

  /**
   * The page's state: the accepted file and its loaded data URL (module-level
   * variables), and the form controls the page reads and resets.
   */
  class Converter {
    var currentFile: Option<File>
    var originalImageData: Option<string>
    var outputFormat: string
    var quality: string
    var maxWidth: string
    var convertEnabled: bool

    /** The page as loaded: nothing selected, the form as the markup sets it. */
    constructor(outputFormat: string, quality: string, maxWidth: string, convertEnabled: bool)
      ensures currentFile == None && originalImageData == None
      ensures this.outputFormat == outputFormat && this.quality == quality && this.maxWidth == maxWidth
      ensures this.convertEnabled == convertEnabled
    {
      currentFile := None;
      originalImageData := None;
      this.outputFormat := outputFormat;
      this.quality := quality;
      this.maxWidth := maxWidth;
      this.convertEnabled := convertEnabled;
    }

    /**
     * Both `!currentFile` and `!originalImageData` are false: a file is
     * selected and its data URL has loaded. An empty data URL is falsy in
     * JavaScript, so it counts as no image.
     */
    predicate ImageReady()
      reads this
      ensures ImageReady() ==> currentFile.Some? && originalImageData.Some?
      ensures originalImageData == Some([]) ==> !ImageReady()
      ensures currentFile.Some? && originalImageData.Some? && originalImageData.value != [] ==> ImageReady()
    {
      currentFile.Some? && originalImageData.Some? && originalImageData.value != []
    }

    /**
     * `handleFile(file)`: a file that is not an image or is over 10 MiB is
     * refused and nothing changes; an accepted file becomes the current one and
     * enables conversion, while the data of the previous image stays until the
     * new one has loaded.
     */
    method HandleFile(file: File) returns (r: FileCheck)
      modifies this
      ensures r == CheckFile(file)
      ensures r == Accepted ==> currentFile == Some(file) && convertEnabled
      ensures r != Accepted ==> currentFile == old(currentFile) && convertEnabled == old(convertEnabled)
      ensures originalImageData == old(originalImageData)
      ensures outputFormat == old(outputFormat) && quality == old(quality) && maxWidth == old(maxWidth)
    {
      if !("image/" <= file.mimeType) {
        return NotAnImage;
      }
      if file.size > MaxFileSize {
        return TooLarge;
      }
      currentFile := Some(file);
      convertEnabled := true;
      r := Accepted;
    }

    /** The file reader's `onload` in `loadOriginalImage`: the data URL of the file. */
    method ImageLoaded(dataUrl: string)
      modifies this
      ensures originalImageData == Some(dataUrl)
      ensures currentFile == old(currentFile) && convertEnabled == old(convertEnabled)
      ensures outputFormat == old(outputFormat) && quality == old(quality) && maxWidth == old(maxWidth)
    {
      originalImageData := Some(dataUrl);
    }

    /**
     * `convertImage` for a decoded image of `imgWidth` by `imgHeight` whose
     * encoding comes back as a data URL of `encodedLength` characters.
     */
    method Convert(imgWidth: int, imgHeight: nat, encodedLength: nat) returns (r: ConvertOutcome)
      requires imgWidth >= 1
      ensures r.NoImageSelected? <==> !ImageReady()
      ensures r.Converted? ==>
        && r.mimeType == "image/" + outputFormat
        && Scaled(imgWidth, imgHeight, WidthLimit(ParseInt(maxWidth)), r.width, r.height)
        && r.height <= imgHeight
        && (r.quality.Omitted? <==> outputFormat == "png")
        && r.quality == QualityArgument(outputFormat, quality)
        && r.estimatedSize == EstimatedSize(encodedLength)
        && r.fileName == "converted-image." + outputFormat
    {
      if currentFile.None? || originalImageData.None? || originalImageData.value == [] {
        return NoImageSelected;
      }
      var limit := WidthLimit(ParseInt(maxWidth));
      var newWidth, newHeight := ScaleToLimit(imgWidth, imgHeight, limit);
      var q := QualityArgument(outputFormat, quality);
      r := Converted("image/" + outputFormat, newWidth, newHeight, q, EstimatedSize(encodedLength),
        "converted-image." + outputFormat);
    }

    /** `clearAll`: nothing selected, the form back to JPEG at quality 90 and width 1920, conversion disabled. */
    method ClearAll()
      modifies this
      ensures currentFile == None && originalImageData == None
      ensures outputFormat == "jpeg" && quality == "90" && maxWidth == "1920"
      ensures !convertEnabled && !ImageReady()
    {
      currentFile := None;
      originalImageData := None;
      outputFormat := "jpeg";
      quality := "90";
      maxWidth := "1920";
      convertEnabled := false;
    }
  }

  /** After a reset, the form's values read as a 0.9 JPEG quality and a 1920-pixel width limit. */
  lemma ClearedSettings(c: Converter)
    requires c.outputFormat == "jpeg" && c.quality == "90" && c.maxWidth == "1920"
    ensures QualityArgument(c.outputFormat, c.quality) == Fraction(0.9)
    ensures WidthLimit(ParseInt(c.maxWidth)) == Some(1920)
  {
    DefaultFormValues();
  }
}
