/** The text-layout arithmetic of the backend's image utilities: the font
    chosen for an overlay, its size, and the greedy wrapping of the overlay
    text into lines. Rendering itself is not modelled; a font is known only
    through the width it gives a string. */
module ImageUtils {
  import opened Wrappers
  import opened PyStr
  import Config

  // ---------------------------------------------------------------------
  // Font loading
  // ---------------------------------------------------------------------

  /** A loaded font: a TrueType file at a given size, or Pillow's built-in
      default font. */
  datatype Font = TrueType(path: string, size: int) | DefaultFont

  /** `os.path.join(dir, file)` for a file name that is not absolute. */
  function JoinPath(dir: string, file: string): string {
    if dir == [] || EndsWith(dir, "/") then dir + file else dir + "/" + file
  }

  /** The bundled file a font key names, when the key is non-empty and in
      the font table. */
  function RequestedFontPath(fontKey: Option<string>, fontsDir: string): (p: Option<string>)
    ensures p.Some? <==> fontKey.Some? && fontKey.value in Config.FontKeys()
    ensures p.Some? ==> exists i :: (0 <= i < |Config.AvailableFonts|
      && Config.AvailableFonts[i].key == fontKey.value
      && p.value == JoinPath(fontsDir, Config.AvailableFonts[i].info.file))
  {
    if fontKey.Some? && fontKey.value != [] then
      match Config.LookupFont(fontKey.value)
      case Some(info) => Some(JoinPath(fontsDir, info.file))
      case None => None
    else None
  }

  /** Loads the requested bundled font if it opens; otherwise the first
      system fallback that opens, in list order; otherwise the default font.
      Whether a file opens is the abstract `opens`. */
  method LoadFont(fontKey: Option<string>, size: int, fontsDir: string, opens: string -> bool)
    returns (font: Font)
    ensures var req := RequestedFontPath(fontKey, fontsDir);
      req.Some? && opens(req.value) ==> font == TrueType(req.value, size)
    ensures var req := RequestedFontPath(fontKey, fontsDir);
      !(req.Some? && opens(req.value)) ==>
        (exists i :: 0 <= i < |Config.SystemFontFallbacks|
           && font == TrueType(Config.SystemFontFallbacks[i], size)
           && opens(Config.SystemFontFallbacks[i])
           && forall j :: 0 <= j < i ==> !opens(Config.SystemFontFallbacks[j]))
        || (font == DefaultFont
           && forall j :: 0 <= j < |Config.SystemFontFallbacks| ==> !opens(Config.SystemFontFallbacks[j]))
  {
    var req := RequestedFontPath(fontKey, fontsDir);
    if req.Some? && opens(req.value) {
      return TrueType(req.value, size);
    }
    var fallbacks := Config.SystemFontFallbacks;
    for i := 0 to |fallbacks|
      invariant forall j :: 0 <= j < i ==> !opens(fallbacks[j])
    {
      if opens(fallbacks[i]) {
        return TrueType(fallbacks[i], size);
      }
    }
    return DefaultFont;
  }

  // ---------------------------------------------------------------------
  // Dynamic font size
  // ---------------------------------------------------------------------

  const MinFontSize: int := 48
  const MaxFontSize: int := 250

  /** Python's `int()` of the quotient `a / b`: truncation toward zero. */
  function TruncDiv(a: int, b: int): (q: int)
    requires b > 0
    ensures a >= 0 ==> q * b <= a < (q + 1) * b
    ensures a < 0 ==> q <= 0 && -a < (-q + 1) * b && -q * b <= -a
  {
    if a >= 0 then a / b else -((-a) / b)
  }

  /** Truncation toward zero keeps the order of the dividends. */
  lemma TruncDivMonotone(a1: int, a2: int, b: int)
    requires b > 0 && a1 <= a2
    ensures TruncDiv(a1, b) <= TruncDiv(a2, b)
  {
    if a1 >= 0 {
      DivMonotone(a1, a2, b);
      assert TruncDiv(a1, b) == a1 / b && TruncDiv(a2, b) == a2 / b;
    } else if a2 >= 0 {
      DivMonotone(0, -a1, b);
      DivMonotone(0, a2, b);
      assert TruncDiv(a1, b) == -((-a1) / b) && TruncDiv(a2, b) == a2 / b;
    } else {
      DivMonotone(-a2, -a1, b);
      assert TruncDiv(a1, b) == -((-a1) / b) && TruncDiv(a2, b) == -((-a2) / b);
    }
  }

  lemma DivMonotone(a1: int, a2: int, b: int)
    requires b > 0 && 0 <= a1 <= a2
    ensures a1 / b <= a2 / b
  {
    var q1, q2 := a1 / b, a2 / b;
    if q1 > q2 {
      assert (q1 - q2 - 1) * b >= 0 by { MulNonNegative(q1 - q2 - 1, b); }
      assert false;
    }
  }

  lemma MulNonNegative(x: int, y: int)
    requires x >= 0 && y >= 0
    ensures x * y >= 0
  {
  }

  /** The unclamped size: 7% of the width for texts of at most six
      characters, 5.5% up to twelve, 4.5% beyond, truncated to an integer. */
  function BaseFontSize(imgWidth: int, textLen: int): (r: int)
    ensures textLen <= 6 ==> r == TruncDiv(imgWidth * 7, 100)
    ensures 6 < textLen <= 12 ==> r == TruncDiv(imgWidth * 55, 1000)
    ensures 12 < textLen ==> r == TruncDiv(imgWidth * 45, 1000)
  {
    if textLen <= 6 then TruncDiv(imgWidth * 7, 100)
    else if textLen <= 12 then TruncDiv(imgWidth * 55, 1000)
    else TruncDiv(imgWidth * 45, 1000)
  }

  /** The overlay font size for an image and a text length: the base size
      clamped to [48, 250]. Inside the band it is the base size itself. */
  function CalcDynamicFontSize(imgWidth: int, imgHeight: int, textLen: int): (size: int)
    ensures MinFontSize <= size <= MaxFontSize
    ensures MinFontSize < size < MaxFontSize ==> size == BaseFontSize(imgWidth, textLen)
    ensures size == MinFontSize ==> BaseFontSize(imgWidth, textLen) <= MinFontSize
    ensures size == MaxFontSize ==> BaseFontSize(imgWidth, textLen) >= MaxFontSize
  {
    var base := BaseFontSize(imgWidth, textLen);
    if base < MinFontSize then MinFontSize
    else if base > MaxFontSize then MaxFontSize
    else base
  }

  /** The image height never changes the size. */
  lemma FontSizeIgnoresHeight(imgWidth: int, h1: int, h2: int, textLen: int)
    ensures CalcDynamicFontSize(imgWidth, h1, textLen) == CalcDynamicFontSize(imgWidth, h2, textLen)
  {
  }

  /** For a fixed text length, a wider image never gets a smaller font. */
  lemma FontSizeMonotoneInWidth(w1: int, w2: int, h: int, textLen: int)
    requires w1 <= w2
    ensures CalcDynamicFontSize(w1, h, textLen) <= CalcDynamicFontSize(w2, h, textLen)
  {
    if textLen <= 6 {
      TruncDivMonotone(w1 * 7, w2 * 7, 100);
    } else if textLen <= 12 {
      TruncDivMonotone(w1 * 55, w2 * 55, 1000);
    } else {
      TruncDivMonotone(w1 * 45, w2 * 45, 1000);
    }
  }

  /** For a fixed width, a shorter text never gets a smaller font. */
  lemma FontSizeAntitoneInLength(w: int, h: int, n1: int, n2: int)
    requires n1 <= n2
    ensures CalcDynamicFontSize(w, h, n1) >= CalcDynamicFontSize(w, h, n2)
  {
    if w >= 0 {
      TruncDivMonotone(w * 45, w * 55, 1000);
      TruncDivMonotone(w * 55, w * 70, 1000);
      assert TruncDiv(w * 7, 100) == TruncDiv(w * 70, 1000);
    } else {
      TruncDivMonotone(w * 7, 0, 100);
      TruncDivMonotone(w * 55, 0, 1000);
      TruncDivMonotone(w * 45, 0, 1000);
    }
  }

  // ---------------------------------------------------------------------
  // Line wrapping
  // ---------------------------------------------------------------------

  /** The lines the wrapping loop emits for the rest `rest` of a paragraph
      when the line built so far is `current`: a character joins the current
      line when the widened line is at most `maxWidth` wide; otherwise the
      current line, if non-empty, is emitted and the character starts the
      next one. `width` is the rendered width the font gives a string. */
  function GreedyLines(width: string -> int, maxWidth: int, current: string, rest: string): seq<string>
    decreases |rest|
  {
    if rest == [] then
      if current != [] then [current] else []
    else
      var test := current + [rest[0]];
      if width(test) <= maxWidth then GreedyLines(width, maxWidth, test, rest[1..])
      else (if current != [] then [current] else []) + GreedyLines(width, maxWidth, [rest[0]], rest[1..])
  }

  /** The lines of one paragraph: a single empty line for a blank paragraph,
      the greedy lines otherwise. */
  function WrapParagraph(width: string -> int, maxWidth: int, paragraph: string): seq<string> {
    if Strip(paragraph) == [] then [""] else GreedyLines(width, maxWidth, "", paragraph)
  }

  /** The lines of the paragraphs, paragraph after paragraph. */
  function WrapParagraphs(width: string -> int, maxWidth: int, paragraphs: seq<string>): seq<string>
    decreases |paragraphs|
  {
    if paragraphs == [] then []
    else WrapParagraphs(width, maxWidth, paragraphs[..|paragraphs| - 1])
         + WrapParagraph(width, maxWidth, paragraphs[|paragraphs| - 1])
  }

  /** Wrapping a text whose paragraphs are `a` then `b` gives the lines of
      `a` followed by the lines of `b`: paragraphs keep their order. */
  lemma {:induction false} WrapParagraphsAppend(width: string -> int, maxWidth: int, a: seq<string>, b: seq<string>)
    ensures WrapParagraphs(width, maxWidth, a + b)
         == WrapParagraphs(width, maxWidth, a) + WrapParagraphs(width, maxWidth, b)
    decreases |b|
  {
    if b == [] {
      assert a + b == a;
    } else {
      var b', last := b[..|b| - 1], b[|b| - 1];
      var wa, wb', wl := WrapParagraphs(width, maxWidth, a), WrapParagraphs(width, maxWidth, b'),
        WrapParagraph(width, maxWidth, last);
      DropLastOfAppend(a, b);
      calc {
        WrapParagraphs(width, maxWidth, a + b);
        WrapParagraphs(width, maxWidth, a + b') + wl;
        { WrapParagraphsAppend(width, maxWidth, a, b'); }
        (wa + wb') + wl;
        { SeqAssociative(wa, wb', wl); }
        wa + (wb' + wl);
      }
    }
  }

  lemma DropLastOfAppend<T>(a: seq<T>, b: seq<T>)
    requires b != []
    ensures (a + b)[..|a + b| - 1] == a + b[..|b| - 1]
    ensures (a + b)[|a + b| - 1] == b[|b| - 1]
  {
  }

  lemma SeqAssociative<T>(x: seq<T>, y: seq<T>, z: seq<T>)
    ensures (x + y) + z == x + (y + z)
  {
  }

  /** The lines written one after the other. */
  function Concat(lines: seq<string>): string
    decreases |lines|
  {
    if lines == [] then [] else lines[0] + Concat(lines[1..])
  }

  predicate FitsOrSingle(width: string -> int, maxWidth: int, line: string) {
    width(line) <= maxWidth || |line| == 1
  }

  /** Each line is followed by a non-empty line whose first character would
      have made it too wide. */
  predicate Maximal(width: string -> int, maxWidth: int, lines: seq<string>) {
    forall i, j :: 0 <= i < |lines| - 1 && j == i + 1 ==>
      lines[j] != [] && width(lines[i] + [lines[j][0]]) > maxWidth
  }

  /** Splits the text on newlines and wraps every paragraph greedily to
      `maxWidth`, in paragraph order; a blank paragraph gives one empty line. */
  method WrapText(text: string, width: string -> int, maxWidth: int) returns (lines: seq<string>)
    ensures lines == WrapParagraphs(width, maxWidth, Split(text, '\n'))
  {
    lines := [];
    var paragraphs := Split(text, '\n');
    for i := 0 to |paragraphs|
      invariant lines == WrapParagraphs(width, maxWidth, paragraphs[..i])
    {
      var paragraph := paragraphs[i];
      WrapParagraphsStep(width, maxWidth, paragraphs, i);
      if Strip(paragraph) == [] {
        lines := lines + [""];
        continue;
      }
      var paragraphLines := WrapNonBlankParagraph(paragraph, width, maxWidth);
      lines := lines + paragraphLines;
    }
    assert paragraphs[..|paragraphs|] == paragraphs;
  }

  lemma WrapParagraphsStep(width: string -> int, maxWidth: int, paragraphs: seq<string>, i: nat)
    requires i < |paragraphs|
    ensures WrapParagraphs(width, maxWidth, paragraphs[..i + 1])
         == WrapParagraphs(width, maxWidth, paragraphs[..i]) + WrapParagraph(width, maxWidth, paragraphs[i])
  {
    assert paragraphs[..i + 1][..i] == paragraphs[..i];
    assert paragraphs[..i + 1][i] == paragraphs[i];
  }

  /** The inner loop of the wrapping: walks the paragraph character by
      character, extending the current line while the widened line fits and
      otherwise emitting it and starting over with the character. */
  method WrapNonBlankParagraph(paragraph: string, width: string -> int, maxWidth: int)
    returns (lines: seq<string>)
    ensures lines == GreedyLines(width, maxWidth, "", paragraph)
  {
    lines := [];
    var current := "";
    assert paragraph[0..] == paragraph;
    for j := 0 to |paragraph|
      invariant lines + GreedyLines(width, maxWidth, current, paragraph[j..])
             == GreedyLines(width, maxWidth, "", paragraph)
    {
      var c := paragraph[j];
      var testLine := current + [c];
      ghost var rest := paragraph[j..];
      assert rest[0] == c && rest[1..] == paragraph[j + 1..];
      if width(testLine) <= maxWidth {
        assert GreedyLines(width, maxWidth, current, rest) == GreedyLines(width, maxWidth, testLine, rest[1..]);
        current := testLine;
      } else {
        assert GreedyLines(width, maxWidth, current, rest)
            == (if current != [] then [current] else []) + GreedyLines(width, maxWidth, [c], rest[1..]);
        if current != [] {
          lines := lines + [current];
        }
        current := [c];
      }
    }
    assert paragraph[|paragraph|..] == [];
    if current != [] {
      lines := lines + [current];
    }
  }

  lemma {:induction false} ConcatAppend(a: seq<string>, b: seq<string>)
    ensures Concat(a + b) == Concat(a) + Concat(b)
    decreases |a|
  {
    if a == [] {
      assert a + b == b;
    } else {
      ConcatAppend(a[1..], b);
      assert (a + b)[1..] == a[1..] + b;
    }
  }

  /** The greedy lines spell out the current line followed by the rest of the
      paragraph: no character is lost, duplicated or moved. */
  lemma {:induction false} GreedyConcat(width: string -> int, maxWidth: int, current: string, rest: string)
    ensures Concat(GreedyLines(width, maxWidth, current, rest)) == current + rest
    decreases |rest|
  {
    if rest == [] {
      if current != [] {
        assert Concat([current]) == current + Concat([]);
      }
    } else {
      var test := current + [rest[0]];
      assert current + rest == test + rest[1..];
      if width(test) <= maxWidth {
        GreedyConcat(width, maxWidth, test, rest[1..]);
      } else {
        var head: seq<string> := if current != [] then [current] else [];
        GreedyConcat(width, maxWidth, [rest[0]], rest[1..]);
        ConcatAppend(head, GreedyLines(width, maxWidth, [rest[0]], rest[1..]));
        assert Concat(head) == current by {
          if current != [] { assert Concat([current]) == current + Concat([]); }
        }
      }
    }
  }

  /** No greedy line is empty. */
  lemma {:induction false} GreedyNonEmpty(width: string -> int, maxWidth: int, current: string, rest: string)
    ensures forall i :: 0 <= i < |GreedyLines(width, maxWidth, current, rest)| ==>
      GreedyLines(width, maxWidth, current, rest)[i] != []
    decreases |rest|
  {
    if rest != [] {
      var test := current + [rest[0]];
      if width(test) <= maxWidth {
        GreedyNonEmpty(width, maxWidth, test, rest[1..]);
      } else {
        GreedyNonEmpty(width, maxWidth, [rest[0]], rest[1..]);
      }
    }
  }

  /** A non-empty current line is the start of the first line emitted. */
  lemma {:induction false} GreedyStartsWith(width: string -> int, maxWidth: int, current: string, rest: string)
    requires current != []
    ensures |GreedyLines(width, maxWidth, current, rest)| > 0
    ensures current <= GreedyLines(width, maxWidth, current, rest)[0]
    decreases |rest|
  {
    if rest != [] {
      var test := current + [rest[0]];
      if width(test) <= maxWidth {
        GreedyStartsWith(width, maxWidth, test, rest[1..]);
      }
    }
  }

  /** Every line either fits `maxWidth` or is a single character that does
      not fit on its own. */
  lemma {:induction false} GreedyFits(width: string -> int, maxWidth: int, current: string, rest: string)
    requires current == [] || FitsOrSingle(width, maxWidth, current)
    ensures forall i :: 0 <= i < |GreedyLines(width, maxWidth, current, rest)| ==>
      FitsOrSingle(width, maxWidth, GreedyLines(width, maxWidth, current, rest)[i])
    decreases |rest|
  {
    if rest != [] {
      var test := current + [rest[0]];
      if width(test) <= maxWidth {
        GreedyFits(width, maxWidth, test, rest[1..]);
      } else {
        GreedyFits(width, maxWidth, [rest[0]], rest[1..]);
      }
    }
  }

  /** Greedy maximality: a line followed by another one would have been too
      wide with the next line's first character appended. */
  lemma {:induction false} GreedyMaximal(width: string -> int, maxWidth: int, current: string, rest: string)
    ensures Maximal(width, maxWidth, GreedyLines(width, maxWidth, current, rest))
    decreases |rest|
  {
    GreedyNonEmpty(width, maxWidth, current, rest);
    if rest != [] {
      var c := rest[0];
      var test := current + [c];
      if width(test) <= maxWidth {
        GreedyMaximal(width, maxWidth, test, rest[1..]);
      } else {
        var tail := GreedyLines(width, maxWidth, [c], rest[1..]);
        GreedyMaximal(width, maxWidth, [c], rest[1..]);
        GreedyStartsWith(width, maxWidth, [c], rest[1..]);
        if current != [] {
          var lines := GreedyLines(width, maxWidth, current, rest);
          assert lines == [current] + tail;
          assert lines[1][0] == c;
          forall i, j | 1 <= i && j == i + 1 && j < |lines|
            ensures lines[j] != [] && width(lines[i] + [lines[j][0]]) > maxWidth
          {
            assert lines[i] == tail[i - 1] && lines[j] == tail[j - 1];
          }
        }
      }
    }
  }

  /** What wrapping does to one paragraph: a blank paragraph gives exactly one
      empty line; any other gives non-empty lines that spell the paragraph
      back, each fitting `maxWidth` or a single character, each as long as the
      next line's first character allows. */
  lemma WrapParagraphSpec(width: string -> int, maxWidth: int, paragraph: string)
    ensures AllSpace(paragraph) ==> WrapParagraph(width, maxWidth, paragraph) == [""]
    ensures !AllSpace(paragraph) ==>
      var lines := WrapParagraph(width, maxWidth, paragraph);
      && |lines| >= 1
      && Concat(lines) == paragraph
      && (forall i :: 0 <= i < |lines| ==> lines[i] != [] && FitsOrSingle(width, maxWidth, lines[i]))
      && Maximal(width, maxWidth, lines)
  {
    StripEmptyIffAllSpace(paragraph);
    if !AllSpace(paragraph) {
      GreedyConcat(width, maxWidth, "", paragraph);
      GreedyNonEmpty(width, maxWidth, "", paragraph);
      GreedyFits(width, maxWidth, "", paragraph);
      GreedyMaximal(width, maxWidth, "", paragraph);
    }
  }
}
