/** The decision logic of the OCR engine (`backend/ocr_engine.py`): routing by file extension,
    the keyword ranking, the crop rectangle around the content, the confidence filter, the
    choice of the best OCR result, the rotation line of the orientation report, and the page
    and length caps. Tesseract, OpenCV and pdf2image are not modelled: what they return is
    passed in. */
module Ocr {
  import opened Common
  import opened Text
  import Ranking

  /* ---- routing ---- */

  /** `os.path.splitext(path)[1]` on POSIX: from the last dot of the last path component to
      the end, provided that something other than dots stands before that dot in the
      component; otherwise empty. */
  function Extension(path: string): string {
    match LastIndex(path, '.')
    case None => ""
    case Some(dot) =>
      var start := match LastIndex(path, '/') case None => 0 case Some(sep) => sep + 1;
      if start <= dot && exists i :: start <= i < dot && path[i] != '.' then path[dot..] else ""
  }

  /** An extension is empty or a final segment of the path that starts with its only dot and
      crosses no `/`. */
  lemma ExtensionSpec(path: string)
    ensures var ext := Extension(path);
      ext == [] || (
        && |ext| <= |path| && path[|path| - |ext|..] == ext
        && ext[0] == '.' && '.' !in ext[1..] && '/' !in ext
        && exists i :: 0 <= i < |path| - |ext| && path[i] != '.' && '/' !in path[i..|path| - |ext|])
  {
    var ext := Extension(path);
    if ext != [] {
      var dot := LastIndex(path, '.').value;
      var start := match LastIndex(path, '/') case None => 0 case Some(sep) => sep + 1;
      assert ext == path[dot..];
      assert ext[1..] == path[dot + 1..];
      var i :| start <= i < dot && path[i] != '.';
      forall j | i <= j < |path| ensures path[j] != '/' {
        NoSlashAfter(path, j);
      }
      assert '/' !in path[i..dot];
    }
  }

  /** No `/` stands after the last one. */
  lemma NoSlashAfter(path: string, j: nat)
    requires j < |path|
    requires LastIndex(path, '/').Some? ==> LastIndex(path, '/').value < j
    ensures path[j] != '/'
  {
    if LastIndex(path, '/').Some? {
      var sep := LastIndex(path, '/').value;
      assert path[sep + 1..][j - sep - 1] == path[j];
    }
  }

  const ImageExtensions: seq<string> := [".png", ".jpg", ".jpeg", ".tiff", ".bmp"]

  /** Where `extract_text` sends a file. */
  datatype Route = PdfPath | ImagePath | UnsupportedType(ext: string) | FileNotFound

  /** `extract_text`'s dispatch: a missing file first, then the lower-cased extension. */
  function RouteOf(path: string, fileExists: bool): (r: Route)
    ensures r.UnsupportedType? ==> r.ext == Lower(Extension(path))
  {
    if !fileExists then FileNotFound
    else
      var ext := Lower(Extension(path));
      if ext == ".pdf" then PdfPath
      else if ext in ImageExtensions then ImagePath
      else UnsupportedType(ext)
  }

  /** A path routed to the PDF or image reader ends, in any letter case, in `.pdf` or in one of
      the image extensions; every other existing path is refused with its extension. */
  lemma RouteSpec(path: string)
    ensures RouteOf(path, true) == PdfPath ==> |path| >= 4 && Lower(path[|path| - 4..]) == ".pdf"
    ensures RouteOf(path, true) == ImagePath ==>
      exists e :: e in ImageExtensions && |e| <= |path| && Lower(path[|path| - |e|..]) == e
    ensures RouteOf(path, true).UnsupportedType? <==>
      Lower(Extension(path)) != ".pdf" && Lower(Extension(path)) !in ImageExtensions
  {
    var ext := Extension(path);
    ExtensionSuffix(path);
    if RouteOf(path, true) == PdfPath {
      assert path[|path| - 4..] == ext;
    } else if RouteOf(path, true) == ImagePath {
      var e := Lower(ext);
      assert e in ImageExtensions && |e| == |ext|;
      assert path[|path| - |e|..] == ext;
    }
  }

  lemma ExtensionSuffix(path: string)
    ensures |Extension(path)| <= |path| && path[|path| - |Extension(path)|..] == Extension(path)
  {
    ExtensionSpec(path);
  }

  /** `extract_text`: the text of the reader the file is routed to, or the exception raised. */
  function ExtractText(path: string, fileExists: bool, fromPdf: string, fromImage: string): (r: Result<string, string>)
    ensures r.Ok? <==> RouteOf(path, fileExists) in {PdfPath, ImagePath}
    ensures r == Err("FileNotFoundError") <==> !fileExists
  {
    match RouteOf(path, fileExists)
    case PdfPath => Ok(fromPdf)
    case ImagePath => Ok(fromImage)
    case UnsupportedType(_) => Err("ValueError")
    case FileNotFound => Err("FileNotFoundError")
  }

  /* ---- keywords ---- */

  /** The stop words of the OCR engine's keyword extractor. */
  const StopWords: set<string> := {
    "the", "a", "an", "and", "or", "but", "in", "on", "at", "to", "for",
    "of", "with", "by", "from", "as", "is", "was", "are", "been", "be",
    "this", "that", "these", "those", "i", "you", "he", "she", "it"}

  predicate Counted(w: string) {
    |w| > 3 && w !in StopWords
  }

  /** `text.lower().split()` */
  function Words(text: string): seq<string> {
    Tokens(Lower(text), NotSpace)
  }

  /** The words that are counted: tokens longer than three characters that are not stop words. */
  function CountedWords(text: string): seq<string> {
    Ranking.Filter(Words(text), Counted)
  }

  /** `extract_keywords(text, top_n)` as a value. */
  function Keywords(text: string, topN: nat): seq<string> {
    Ranking.Ranked(CountedWords(text), topN)
  }

  /** Each keyword is a counted word: a lower-cased token of the text, without white space,
      longer than three characters and not a stop word. */
  lemma KeywordsAreCountedWords(text: string, topN: nat)
    ensures forall i :: 0 <= i < |Keywords(text, topN)| ==>
      var w := Keywords(text, topN)[i];
      && w in Words(text) && Counted(w)
      && forall j :: 0 <= j < |w| ==> !IsSpace(w[j]) && !IsUpper(w[j])
  {
    var ws, r := CountedWords(text), Keywords(text, topN);
    Ranking.RankedFromInput(ws, topN);
    forall i | 0 <= i < |r|
      ensures r[i] in Words(text) && Counted(r[i]) && forall j :: 0 <= j < |r[i]| ==> !IsSpace(r[i][j]) && !IsUpper(r[i][j])
    {
      assert r[i] in ws;
      var k :| 0 <= k < |ws| && ws[k] == r[i];
      var low := Lower(text);
      TokensOfLower(low);
    }
  }

  /** The tokens of a lower-cased text have no upper-case letter. */
  lemma {:induction false} TokensOfLower(low: string)
    requires forall j :: 0 <= j < |low| ==> !IsUpper(low[j])
    ensures forall k :: 0 <= k < |Tokens(low, NotSpace)| ==>
      forall j :: 0 <= j < |Tokens(low, NotSpace)[k]| ==> !IsUpper(Tokens(low, NotSpace)[k][j])
    decreases |low|
  {
    if low != [] {
      if !NotSpace(low[0]) {
        TokensOfLower(low[1..]);
      } else {
        var n := RunLength(low, NotSpace);
        TokensOfLower(low[n..]);
        assert forall j :: 0 <= j < n ==> low[..n][j] == low[j];
      }
    }
  }

  /** The keywords are ranked by frequency among the counted words: at most `topN` of them,
      distinct, in non-increasing frequency, none left out more frequent than the last one
      kept, and words of equal frequency in the order of their first occurrence. */
  lemma KeywordsRanked(text: string, topN: nat)
    ensures Ranking.IsRanking(CountedWords(text), topN, Keywords(text, topN))
  {
    Ranking.RankedSpec(CountedWords(text), topN);
  }

  /* ---- the crop around the content ---- */

  /** A rectangle as `cv2.boundingRect` gives it: left, top, width, height. */
  datatype Rect = Rect(x: int, y: int, w: int, h: int)

  /** `r` lies inside an image of the given size. */
  predicate Within(r: Rect, width: int, height: int) {
    0 <= r.x && 0 <= r.y && 0 <= r.w && 0 <= r.h && r.x + r.w <= width && r.y + r.h <= height
  }

  /** `max(4, int(0.02 * extent))` */
  function Pad(extent: nat): (p: nat)
    ensures p >= 4 && p >= extent / 50
  {
    if extent / 50 > 4 then extent / 50 else 4
  }

  /** The bounding box grown by the padding on every side, then cut back to the image. A box
      inside the image gives a box inside the image that contains it with a margin of at
      least four pixels on each side, except where it meets the edge of the image. */
  function PaddedBox(width: nat, height: nat, b: Rect): (r: Rect)
    ensures Within(b, width, height) ==>
      && Within(r, width, height)
      && r.x <= b.x && r.y <= b.y && b.x + b.w <= r.x + r.w && b.y + b.h <= r.y + r.h
      && (r.x == 0 || r.x <= b.x - 4) && (r.y == 0 || r.y <= b.y - 4)
      && (r.x + r.w == width || r.x + r.w >= b.x + b.w + 4)
      && (r.y + r.h == height || r.y + r.h >= b.y + b.h + 4)
  {
    var padW, padH := Pad(width), Pad(height);
    var x := if b.x - padW > 0 then b.x - padW else 0;
    var y := if b.y - padH > 0 then b.y - padH else 0;
    var w := if width - x < b.w + 2 * padW then width - x else b.w + 2 * padW;
    var h := if height - y < b.h + 2 * padH then height - y else b.h + 2 * padH;
    Rect(x, y, w, h)
  }

  /** A grey-scale image: its rows of pixels, all `width` long (numpy shape `(|rows|, width)`). */
  datatype Image = Image(rows: seq<seq<int>>, width: nat)

  predicate WellFormed(img: Image) {
    forall i :: 0 <= i < |img.rows| ==> |img.rows[i]| == img.width
  }

  /** `img[r.y:r.y + r.h, r.x:r.x + r.w]` */
  function Crop(img: Image, r: Rect): (c: Image)
    requires WellFormed(img) && Within(r, img.width, |img.rows|)
    ensures WellFormed(c) && |c.rows| == r.h && c.width == r.w
    ensures forall i, j :: 0 <= i < r.h && 0 <= j < r.w ==> c.rows[i][j] == img.rows[r.y + i][r.x + j]
  {
    Image(seq(r.h, i requires 0 <= i < r.h => img.rows[r.y + i][r.x..r.x + r.w]), r.w)
  }

  /** `_crop_to_content`: `content` is what thresholding and `cv2.boundingRect` find — the box
      around the dark pixels, none when there is no dark pixel, or the error OpenCV raised.
      Without content, or when OpenCV fails, the image is returned as it is; otherwise the
      crop is no larger than the image and keeps every pixel of the bounding box, at the same
      place relative to one another. */
  function CropToContent(img: Image, content: Result<Option<Rect>, string>): (r: Image)
    requires WellFormed(img)
    requires content.Ok? && content.value.Some? ==> Within(content.value.value, img.width, |img.rows|)
    ensures WellFormed(r)
    ensures content.Err? || content.value.None? ==> r == img
    ensures content.Ok? && content.value.Some? ==>
      var b, p := content.value.value, PaddedBox(img.width, |img.rows|, content.value.value);
      && r.width == p.w <= img.width && |r.rows| == p.h <= |img.rows|
      && forall i, j :: b.y <= i < b.y + b.h && b.x <= j < b.x + b.w ==>
        r.rows[i - p.y][j - p.x] == img.rows[i][j]
  {
    match content
    case Err(_) => img
    case Ok(None) => img
    case Ok(Some(b)) => Crop(img, PaddedBox(img.width, |img.rows|, b))
  }

  /* ---- one OCR pass: the confidence filter ---- */

  /** An entry of the `conf` column of `image_to_data`: an integer, a float or a string. */
  datatype RawConf = IntConf(i: int) | FloatConf(f: real) | TextConf(s: string)

  /** Python's `int(f)` for a float: the integer part, rounded toward zero. */
  function Truncate(f: real): (n: int)
    ensures f >= 0.0 ==> n as real <= f < n as real + 1.0
    ensures f < 0.0 ==> n as real - 1.0 < f <= n as real
  {
    if f >= 0.0 then f.Floor else -((-f).Floor)
  }

  /** `int(c)`, or `None` where it raises. */
  function ConfValue(c: RawConf): Option<int> {
    match c
    case IntConf(i) => Some(i)
    case FloatConf(f) => Some(Truncate(f))
    case TextConf(s) => ParseInt(s)
  }

  /** A confidence `_ocr_text_and_conf` keeps: one that converts to a non-negative integer. */
  predicate Kept(c: RawConf) {
    ConfValue(c).Some? && ConfValue(c).value >= 0
  }

  /** The confidences kept, in order. */
  function KeptConfs(raw: seq<RawConf>): (r: seq<int>)
    ensures |r| <= |raw|
    ensures forall k :: 0 <= k < |r| ==> r[k] >= 0
    decreases |raw|
  {
    if raw == [] then []
    else
      var last := raw[|raw| - 1];
      KeptConfs(raw[..|raw| - 1]) + (if Kept(last) then [ConfValue(last).value] else [])
  }

  /** `v` is the value of an entry that is kept. */
  predicate KeptFrom(raw: seq<RawConf>, v: int) {
    exists j :: 0 <= j < |raw| && Kept(raw[j]) && ConfValue(raw[j]).value == v
  }

  /** Exactly the entries that convert to a non-negative integer are kept, as those integers:
      every kept value comes from such an entry and every such entry's value is kept. */
  lemma {:induction false} KeptConfsSpec(raw: seq<RawConf>)
    ensures forall k :: 0 <= k < |KeptConfs(raw)| ==> KeptFrom(raw, KeptConfs(raw)[k])
    ensures forall j :: 0 <= j < |raw| && Kept(raw[j]) ==> ConfValue(raw[j]).value in KeptConfs(raw)
    decreases |raw|
  {
    if raw != [] {
      var init, last := raw[..|raw| - 1], raw[|raw| - 1];
      KeptConfsSpec(init);
      assert forall j :: 0 <= j < |init| ==> raw[j] == init[j];
      var r, r0 := KeptConfs(raw), KeptConfs(init);
      assert r == r0 + (if Kept(last) then [ConfValue(last).value] else []);
      forall k | 0 <= k < |r| ensures KeptFrom(raw, r[k]) {
        if k < |r0| {
          assert r[k] == r0[k];
          var j :| 0 <= j < |init| && Kept(init[j]) && ConfValue(init[j]).value == r0[k];
          assert raw[j] == init[j];
        } else {
          assert Kept(last) && r[k] == ConfValue(last).value;
          assert raw[|raw| - 1] == last;
        }
      }
    }
  }

  /** What `image_to_data` gives: the `text` column (`None` for an entry that is not a string)
      and the `conf` column. */
  datatype OcrData = OcrData(text: seq<Option<string>>, conf: seq<RawConf>)

  /** The recognised words that are strings and not blank. */
  function DataWords(t: seq<Option<string>>): (r: seq<string>)
    ensures forall k :: 0 <= k < |r| ==> Strip(r[k]) != []
    decreases |t|
  {
    if t == [] then []
    else (if t[0].Some? && Strip(t[0].value) != [] then [t[0].value] else []) + DataWords(t[1..])
  }

  /** `_ocr_text_and_conf` on the outcome of `image_to_data` and of `image_to_string` (the
      error either raised) and the median function: the words joined by spaces and stripped,
      with the median of the kept confidences, or 0.0 when none is kept; the plain text when
      the words give nothing; the plain text with 0.0 when `image_to_data` fails; and
      `("", 0.0)` when `image_to_string` fails where it is needed. */
  function TextAndConf(data: Result<OcrData, string>, plain: Result<string, string>,
                       median: seq<int> -> real): (string, real)
  {
    match data
    case Ok(d) =>
      var confs := KeptConfs(d.conf);
      var conf := if confs == [] then 0.0 else median(confs);
      var text := Strip(Join(DataWords(d.text), " "));
      if text != [] then (text, conf)
      else if plain.Ok? then (Strip(plain.value), conf)
      else ("", 0.0)
    case Err(_) =>
      if plain.Ok? then (Strip(plain.value), 0.0) else ("", 0.0)
  }

  /** The text of an OCR pass is stripped: the words when they give something, otherwise the
      plain text, otherwise empty. Its confidence is the median of the kept confidences when
      `image_to_data` and the text succeed and some confidence is kept, and 0.0 otherwise,
      also when the words are blank and `image_to_string` fails. */
  lemma TextAndConfSpec(data: Result<OcrData, string>, plain: Result<string, string>, median: seq<int> -> real)
    ensures var (text, conf) := TextAndConf(data, plain, median);
      var words := if data.Ok? then Strip(Join(DataWords(data.value.text), " ")) else [];
      && (text == [] || (!IsSpace(text[0]) && !IsSpace(text[|text| - 1])))
      && (words != [] ==> text == words)
      && (words == [] && plain.Ok? ==> text == Strip(plain.value))
      && (words == [] && plain.Err? ==> text == [] && conf == 0.0)
      && (data.Ok? && KeptConfs(data.value.conf) != [] && (words != [] || plain.Ok?) ==>
           conf == median(KeptConfs(data.value.conf)))
      && (data.Err? || KeptConfs(data.value.conf) == [] ==> conf == 0.0)
  {
    if data.Ok? {
      TrimSpec(Join(DataWords(data.value.text), " "), IsSpace);
    }
    if plain.Ok? {
      TrimSpec(plain.value, IsSpace);
    }
  }

  /* ---- choosing the best OCR result ---- */

  /** The result of an OCR pass replaces the best so far when its confidence is higher, or
      equal with a longer text. */
  predicate Better(r: (string, real), best: (string, real)) {
    r.1 > best.1 || (r.1 == best.1 && |r.0| > |best.0|)
  }

  /** Before the search: no text, confidence -1.0. */
  const NoResult: (string, real) := ("", -1.0)

  /** The best of the results taken in order, as the candidate loop keeps it. */
  function BestOf(rs: seq<(string, real)>): (string, real)
    decreases |rs|
  {
    if rs == [] then NoResult
    else
      var b, last := BestOf(rs[..|rs| - 1]), rs[|rs| - 1];
      if Better(last, b) then last else b
  }

  /** The best result has the highest confidence, the longest text among those of that
      confidence, and is the first such result; no result is kept when none beats
      `NoResult`. */
  lemma {:induction false} BestOfSpec(rs: seq<(string, real)>)
    ensures var b := BestOf(rs);
      && (forall k :: 0 <= k < |rs| ==> !Better(rs[k], b))
      && (b == NoResult || exists k :: 0 <= k < |rs| && b == rs[k] && forall j :: 0 <= j < k ==> Better(rs[k], rs[j]))
      && (b == NoResult ==> forall k :: 0 <= k < |rs| ==> !Better(rs[k], NoResult))
    decreases |rs|
  {
    if rs != [] {
      var init, last := rs[..|rs| - 1], rs[|rs| - 1];
      BestOfSpec(init);
      var b0 := BestOf(init);
      assert forall k :: 0 <= k < |init| ==> rs[k] == init[k];
      if !Better(last, b0) && b0 != NoResult {
        var k :| 0 <= k < |init| && b0 == init[k] && forall j :: 0 <= j < k ==> Better(init[k], init[j]);
        assert b0 == rs[k];
      }
    }
  }

  /** The results of the candidate images, row by row, one entry per configuration. */
  function Flatten(rows: seq<seq<(string, real)>>): seq<(string, real)>
    decreases |rows|
  {
    if rows == [] then [] else Flatten(rows[..|rows| - 1]) + rows[|rows| - 1]
  }

  lemma BestOfStep(seen: seq<(string, real)>, r: (string, real))
    ensures BestOf(seen + [r]) == if Better(r, BestOf(seen)) then r else BestOf(seen)
  {
    assert (seen + [r])[..|seen|] == seen;
  }

  lemma FlattenStep(rows: seq<seq<(string, real)>>, i: nat)
    requires i < |rows|
    ensures Flatten(rows[..i + 1]) == Flatten(rows[..i]) + rows[i]
  {
    assert rows[..i + 1][..i] == rows[..i];
  }

  lemma SeenStep(before: seq<(string, real)>, row: seq<(string, real)>, j: nat)
    requires j < |row|
    ensures before + row[..j + 1] == (before + row[..j]) + [row[j]]
  {
    assert row[..j + 1] == row[..j] + [row[j]];
  }

  /* ---- the rotation line of the orientation report ---- */

  /** The line boundaries of `str.splitlines`. */
  predicate IsLineBreak(c: char) {
    c == '\n' || c == '\r' || c == '\U{0B}' || c == '\U{0C}' || c == '\U{1C}' || c == '\U{1D}'
    || c == '\U{1E}' || c == '\U{85}' || c == '\U{2028}' || c == '\U{2029}'
  }

  /** The lines of the report. Splitting at every boundary character also yields an empty
      line inside `\r\n` and after a final boundary; empty lines never start with
      `rotate:`, so the first line that does is the one `splitlines` gives. */
  function Lines(osd: string): seq<string> {
    Split(osd, IsLineBreak)
  }

  predicate StartsWith(s: string, p: string) {
    |p| <= |s| && s[..|p|] == p
  }

  predicate IsRotateLine(line: string) {
    StartsWith(Lower(line), "rotate:")
  }

  /** The first line that starts with `rotate:` in any letter case. */
  function FirstRotateLine(lines: seq<string>): (r: Option<nat>)
    ensures r.Some? ==> r.value < |lines| && IsRotateLine(lines[r.value])
    ensures r.Some? ==> forall k :: 0 <= k < r.value ==> !IsRotateLine(lines[k])
    ensures r.None? ==> forall k :: 0 <= k < |lines| ==> !IsRotateLine(lines[k])
    decreases |lines|
  {
    if lines == [] then None
    else if IsRotateLine(lines[0]) then Some(0)
    else match FirstRotateLine(lines[1..])
      case None => None
      case Some(k) => Some(k + 1)
  }

  /** `int(line.split(':')[1].strip())`, 0 where it raises. */
  function RotateValue(line: string): int {
    var pieces := Split(line, c => c == ':');
    if |pieces| < 2 then 0
    else match ParseInt(pieces[1])
      case Some(n) => n
      case None => 0
  }

  /** The rotation the report asks for: the value of its first `rotate:` line, 0 without one. */
  function Rotation(osd: string): int {
    var lines := Lines(osd);
    match FirstRotateLine(lines)
    case None => 0
    case Some(k) => RotateValue(lines[k])
  }

  /** A line `head:n` with `n` written in decimal gives `n`. */
  lemma RotateValueShow(head: string, n: int)
    requires ':' !in head
    ensures RotateValue(head + ":" + Show(n)) == n
  {
    var digits := if n < 0 then ShowNat(-n) else ShowNat(n);
    assert ':' !in Show(n) by {
      assert forall j :: 0 <= j < |digits| ==> IsDigit(digits[j]);
    }
    SplitAppend(head, ':', Show(n), c => c == ':');
    SplitNone(Show(n), c => c == ':');
    ParseShow(n);
  }

  /** How the image is turned before recognition. */
  datatype Turn = Upright | Clockwise90 | HalfTurn | Counterclockwise90

  /** Only 90, 180 and 270 turn the image; a failed orientation report leaves it as it is. */
  function TurnFor(osd: Result<string, string>): (t: Turn)
    ensures t != Upright <==> osd.Ok? && Rotation(osd.value) in {90, 180, 270}
  {
    if osd.Err? then Upright
    else
      var rot := Rotation(osd.value);
      if rot == 90 then Clockwise90
      else if rot == 180 then HalfTurn
      else if rot == 270 then Counterclockwise90
      else Upright
  }

  /* ---- the length and page caps ---- */

  const DefaultMaxChars := 1500
  const DefaultMaxPages := 1

  /** `int(v) if v else default`, and the default where `int` raises. */
  function EnvInt(env: Option<string>, default: int): (n: int)
    ensures env.None? || env.value == [] || ParseInt(env.value).None? ==> n == default
    ensures env.Some? && ParseInt(env.value).Some? ==> n == ParseInt(env.value).value
  {
    if env.None? || env.value == [] then default
    else match ParseInt(env.value)
      case Some(n) => n
      case None => default
  }

  /** `text[:max_chars]` when the text is longer than `max_chars`. */
  function Cap(text: string, maxChars: int): (r: string)
    ensures |r| <= |text| && r == text[..|r|]
    ensures maxChars >= 0 ==> |r| <= maxChars && (|text| <= maxChars ==> r == text)
    ensures maxChars < 0 ==> |r| == if |text| + maxChars > 0 then |text| + maxChars else 0
  {
    if |text| > maxChars then Prefix(text, maxChars) else text
  }

  /** The number of pages read: `len(pages[:max(1, max_pages)])`. */
  function PageCount(pages: nat, maxPages: int): (n: nat)
    ensures n <= pages && (pages > 0 ==> n >= 1)
    ensures maxPages >= 1 ==> n == if pages < maxPages then pages else maxPages
  {
    var m := if maxPages > 1 then maxPages else 1;
    if pages < m then pages else m
  }

  /** The non-empty pieces. */
  function NonEmpty(pieces: seq<string>): (r: seq<string>)
    ensures |r| <= |pieces|
    ensures forall k :: 0 <= k < |r| ==> r[k] != [] && r[k] in pieces
    ensures forall k :: 0 <= k < |pieces| && pieces[k] != [] ==> pieces[k] in r
    decreases |pieces|
  {
    if pieces == [] then []
    else (if pieces[0] != [] then [pieces[0]] else []) + NonEmpty(pieces[1..])
  }

  /** The text `extract_text_from_image` returns from the header, the best and the body
      passes: the non-empty ones joined by blank lines, stripped and capped. */
  function ImageText(header: string, best: string, body: string, maxCharsEnv: Option<string>): string {
    Cap(Strip(Join(NonEmpty([Strip(header), best, Strip(body)]), "\n\n")), EnvInt(maxCharsEnv, DefaultMaxChars))
  }

  /** The text of a PDF from the texts of its pages: the pages read joined by blank lines,
      stripped and capped; empty when the conversion fails. */
  function PdfText(pages: Result<seq<string>, string>, maxPagesEnv: Option<string>, maxCharsEnv: Option<string>): string {
    match pages
    case Err(_) => ""
    case Ok(ps) =>
      var n := PageCount(|ps|, EnvInt(maxPagesEnv, DefaultMaxPages));
      Cap(Strip(Join(ps[..n], "\n\n")), EnvInt(maxCharsEnv, DefaultMaxChars))
  }

  /* ---- the engine object ---- */

  class OcrEngine {
    /** The Tesseract language, `OCR_LANGUAGE` or `eng`. */
    var language: string

    constructor(languageEnv: Option<string>)
      ensures language == if languageEnv.Some? then languageEnv.value else "eng"
    {
      language := if languageEnv.Some? then languageEnv.value else "eng";
    }

    /** The confidence loop of `_ocr_text_and_conf`: converts each entry with `int` and keeps
        the non-negative ones. */
    static method FilterConfs(raw: seq<RawConf>) returns (confs: seq<int>)
      ensures confs == KeptConfs(raw)
    {
      confs := [];
      for i := 0 to |raw|
        invariant confs == KeptConfs(raw[..i])
      {
        assert raw[..i + 1][..i] == raw[..i];
        match ConfValue(raw[i]) {
          case Some(ci) =>
            if ci >= 0 {
              confs := confs + [ci];
            }
          case None =>
        }
      }
      assert raw[..|raw|] == raw;
    }

    /** `_ocr_text_and_conf` */
    method OcrTextAndConf(data: Result<OcrData, string>, plain: Result<string, string>,
                          median: seq<int> -> real) returns (text: string, conf: real)
      ensures (text, conf) == TextAndConf(data, plain, median)
    {
      if data.Err? {
        return if plain.Ok? then Strip(plain.value) else "", 0.0;
      }
      var confs := FilterConfs(data.value.conf);
      conf := if confs == [] then 0.0 else median(confs);
      text := Strip(Join(DataWords(data.value.text), " "));
      if text == [] {
        if plain.Err? {
          return "", 0.0;
        }
        text := Strip(plain.value);
      }
    }

    /** The candidate search of `extract_text_from_image`: for each candidate image and each
        configuration in turn, keeps the result when it is better than the best so far. */
    static method SelectBest(results: seq<seq<(string, real)>>) returns (bestText: string, bestConf: real)
      ensures (bestText, bestConf) == BestOf(Flatten(results))
    {
      bestText, bestConf := NoResult.0, NoResult.1;
      for i := 0 to |results|
        invariant (bestText, bestConf) == BestOf(Flatten(results[..i]))
      {
        var row := results[i];
        ghost var before := Flatten(results[..i]);
        assert before + row[..0] == before;
        for j := 0 to |row|
          invariant (bestText, bestConf) == BestOf(before + row[..j])
        {
          SeenStep(before, row, j);
          BestOfStep(before + row[..j], row[j]);
          var (text, conf) := row[j];
          if conf > bestConf || (conf == bestConf && |text| > |bestText|) {
            bestText, bestConf := text, conf;
          }
        }
        assert row[..|row|] == row;
        FlattenStep(results, i);
      }
      assert results[..|results|] == results;
    }

    /** `extract_text_from_pdf` on the texts `extract_text_from_image` gives for the pages (or
        the error the conversion raises): reads the first pages, then joins, strips and caps. */
    method ExtractTextFromPdf(pages: Result<seq<string>, string>, maxPagesEnv: Option<string>,
                              maxCharsEnv: Option<string>) returns (text: string)
      ensures text == PdfText(pages, maxPagesEnv, maxCharsEnv)
    {
      if pages.Err? {
        return "";
      }
      var maxPages := EnvInt(maxPagesEnv, DefaultMaxPages);
      var n := PageCount(|pages.value|, maxPages);
      var extracted: seq<string> := [];
      for i := 0 to n
        invariant extracted == pages.value[..i]
      {
        extracted := extracted + [pages.value[i]];
      }
      text := Cap(Strip(Join(extracted, "\n\n")), EnvInt(maxCharsEnv, DefaultMaxChars));
    }

    /** `extract_keywords`: counts the long non-stop tokens in a dict, sorts them by
        descending count (stably) and keeps the first `topN`. */
    method ExtractKeywords(text: string, topN: nat) returns (keywords: seq<string>)
      ensures keywords == Keywords(text, topN)
    {
      var words := Words(text);
      var keys, freq := Ranking.CountKept(words, Counted);
      Ranking.TopItemsOfCounts(CountedWords(text), keys, freq, topN);
      var sortedKeywords := Ranking.SortByCount(Ranking.Items(keys, freq));
      var top := if topN < |sortedKeywords| then sortedKeywords[..topN] else sortedKeywords;
      keywords := seq(|top|, i requires 0 <= i < |top| => top[i].0);
    }
  }
}
