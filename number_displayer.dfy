/**
 * The score display: integers drawn digit by digit from the right edge of a
 * base image of width WIDTH, each glyph centred vertically in the height of
 * the tallest digit image.
 */
module NumberDisplay {
  import opened JavaString

  /** Width of the window, and of the base image the digits are drawn on. */
  const WIDTH: int := 1200

  /** An image, reduced to its size. */
  datatype Glyph = Glyph(width: nat, height: nat)

  /** One drawImage call on the base image: the glyph and its top-left corner. */
  datatype Placement = Placement(glyph: Glyph, x: int, y: int)

  /** The largest height among the images, or 0 when there are none. */
  function MaxHeight(images: seq<Glyph>): (h: nat)
    ensures forall i :: 0 <= i < |images| ==> images[i].height <= h
    ensures images == [] ==> h == 0
    ensures images != [] ==> exists i :: 0 <= i < |images| && images[i].height == h
  {
    if images == [] then 0
    else
      var rest := MaxHeight(images[..|images| - 1]);
      var last := images[|images| - 1].height;
      if last > rest then last else rest
  }

  /** (int) (a / 2.0): the half of a, truncated toward zero. */
  function HalfTowardZero(a: int): (r: int)
    ensures a >= 0 ==> 0 <= r && 2 * r <= a <= 2 * r + 1
    ensures a < 0 ==> r <= 0 && a <= 2 * r <= a + 1
  {
    if a >= 0 then a / 2 else -((-a) / 2)
  }

  /** The summed width of the glyphs. */
  function TotalWidth(gs: seq<Glyph>): nat
  {
    if gs == [] then 0 else TotalWidth(gs[..|gs| - 1]) + gs[|gs| - 1].width
  }

  /** The placements that drawing gs one after the other from an empty
      image produces: each glyph right-aligned against the previous one. */
  function Layout(gs: seq<Glyph>, maxHeight: int): (ps: seq<Placement>)
    ensures |ps| == |gs|
  {
    if gs == [] then []
    else
      var prefix := gs[..|gs| - 1];
      var g := gs[|gs| - 1];
      Layout(prefix, maxHeight) + [Placement(g, WIDTH - TotalWidth(prefix) - g.width, HalfTowardZero(maxHeight - g.height))]
  }

  /** The layout keeps each glyph, and drawing one more glyph leaves the
      earlier placements as they were. */
  lemma {:induction false} LayoutPrefix(gs: seq<Glyph>, maxHeight: int, j: nat)
    requires j <= |gs|
    ensures Layout(gs, maxHeight)[..j] == Layout(gs[..j], maxHeight)
    ensures forall i :: 0 <= i < |gs| ==> Layout(gs, maxHeight)[i].glyph == gs[i]
  {
    if gs != [] {
      var prefix := gs[..|gs| - 1];
      if j < |gs| {
        assert prefix[..j] == gs[..j];
        LayoutPrefix(prefix, maxHeight, j);
      } else {
        assert gs[..j] == gs;
      }
      LayoutPrefix(prefix, maxHeight, |prefix|);
      assert forall i :: 0 <= i < |prefix| ==> gs[i] == prefix[i];
    }
  }

  /** Glyph i stands at WIDTH minus the widths of glyphs 0..i, so the run of
      glyphs ends at the right edge and neighbours abut, right to left. */
  lemma {:induction false} LayoutAbuts(gs: seq<Glyph>, maxHeight: int)
    ensures forall i :: 0 <= i < |gs| ==> Layout(gs, maxHeight)[i].x == WIDTH - TotalWidth(gs[..i + 1])
    ensures |gs| > 0 ==> Layout(gs, maxHeight)[0].x + gs[0].width == WIDTH
    ensures forall i :: 0 < i < |gs| ==> Layout(gs, maxHeight)[i].x + gs[i].width == Layout(gs, maxHeight)[i - 1].x
  {
    if gs != [] {
      var prefix := gs[..|gs| - 1];
      var ps := Layout(gs, maxHeight);
      LayoutAbuts(prefix, maxHeight);
      assert gs[..|gs|] == gs;
      forall i | 0 <= i < |gs| ensures ps[i].x == WIDTH - TotalWidth(gs[..i + 1]) {
        if i < |prefix| {
          assert gs[..i + 1] == prefix[..i + 1];
        }
      }
      forall i | 0 < i < |gs| ensures ps[i].x + gs[i].width == ps[i - 1].x {
        assert gs[..i + 1][..i] == gs[..i];
        assert gs[..i + 1] == gs[..i] + [gs[i]];
      }
      assert gs[..1][..0] == [];
    }
  }

  /** With every glyph at most maxHeight tall, each one lies within the base
      image vertically: its top at or below 0 and its bottom at or above
      maxHeight, centred up to a pixel. */
  lemma {:induction false} LayoutCentred(gs: seq<Glyph>, maxHeight: int)
    requires forall i :: 0 <= i < |gs| ==> gs[i].height <= maxHeight
    ensures forall i :: 0 <= i < |gs| ==>
      0 <= Layout(gs, maxHeight)[i].y <= maxHeight - gs[i].height
      && maxHeight - gs[i].height - 1 <= 2 * Layout(gs, maxHeight)[i].y <= maxHeight - gs[i].height
  {
    if gs != [] {
      var prefix := gs[..|gs| - 1];
      LayoutCentred(prefix, maxHeight);
      assert forall i :: 0 <= i < |prefix| ==> gs[i] == prefix[i];
    }
  }

  /** The digits of n > 0, least significant first. */
  function LeastFirst(n: nat): (ds: seq<int>)
    ensures IsDigitSeq(ds)
    ensures n > 0 ==> |ds| > 0 && ds[|ds| - 1] != 0
  {
    if n == 0 then [] else [n % 10] + LeastFirst(n / 10)
  }

  /** The digit images drawNumber(int) draws, in drawing order: a single 0
      for 0, nothing for a negative number, and the decimal digits least
      significant first otherwise. */
  function DrawnDigits(number: int): (ds: seq<int>)
    ensures IsDigitSeq(ds)
  {
    if number == 0 then [0] else if number < 0 then [] else LeastFirst(number)
  }

  /** Every entry is a decimal digit. */
  predicate IsDigitSeq(ds: seq<int>) { forall i :: 0 <= i < |ds| ==> 0 <= ds[i] <= 9 }

  function Reversed(s: seq<int>): (r: seq<int>)
    ensures |r| == |s| && (IsDigitSeq(s) ==> IsDigitSeq(r))
  {
    if s == [] then [] else Reversed(s[1..]) + [s[0]]
  }

  /** The decimal characters of the digits ds. */
  function DigitString(ds: seq<int>): string
    requires IsDigitSeq(ds)
  {
    if ds == [] then [] else DigitString(ds[..|ds| - 1]) + ['0' + ds[|ds| - 1] as char]
  }

  /** Zero is drawn as exactly one glyph, the 0 image; a negative number
      draws nothing. */
  lemma DrawnDigitsEdges(number: int)
    ensures number == 0 ==> DrawnDigits(number) == [0]
    ensures number < 0 ==> DrawnDigits(number) == []
    ensures number > 0 ==> DrawnDigits(number) != [] && DrawnDigits(number)[|DrawnDigits(number)| - 1] != 0
  {
  }

  /** Read in reverse, the drawn digits of n > 0 spell n in decimal, the
      text Integer.toString gives. */
  lemma {:induction false} DrawnDigitsSpellNumber(n: nat)
    requires n > 0
    ensures DigitString(Reversed(DrawnDigits(n))) == NatToString(n)
  {
    var ds := LeastFirst(n);
    var r := Reversed(ds);
    assert ds[1..] == LeastFirst(n / 10);
    assert r == Reversed(LeastFirst(n / 10)) + [n % 10];
    assert r[..|r| - 1] == Reversed(LeastFirst(n / 10));
    if n >= 10 {
      DrawnDigitsSpellNumber(n / 10);
    } else {
      assert LeastFirst(n / 10) == [];
    }
  }

  /** The glyphs of the digits ds. */
  function DigitGlyphs(images: seq<Glyph>, ds: seq<int>): (gs: seq<Glyph>)
    requires |images| >= 10 && IsDigitSeq(ds)
    ensures |gs| == |ds|
  {
    if ds == [] then [] else [images[ds[0]]] + DigitGlyphs(images, ds[1..])
  }

  /** Digit glyph i is the image of digit i, so no digit glyph is taller
      than the tallest digit image: the height precondition of drawLetter
      holds for every glyph drawNumber(int) draws. */
  lemma {:induction false} DigitGlyphsFit(images: seq<Glyph>, ds: seq<int>)
    requires |images| >= 10 && IsDigitSeq(ds)
    ensures forall i :: 0 <= i < |ds| ==> DigitGlyphs(images, ds)[i] == images[ds[i]]
    ensures forall i :: 0 <= i < |ds| ==> DigitGlyphs(images, ds)[i].height <= MaxHeight(images)
  {
    if ds != [] {
      DigitGlyphsFit(images, ds[1..]);
      var gs := DigitGlyphs(images, ds);
      forall i | 0 <= i < |ds| ensures gs[i] == images[ds[i]] {
        if i > 0 { assert gs[i] == DigitGlyphs(images, ds[1..])[i - 1]; }
      }
    }
  }

  lemma DigitGlyphsCons(images: seq<Glyph>, d: int, ds: seq<int>)
    requires |images| >= 10 && 0 <= d <= 9 && IsDigitSeq(ds)
    ensures DigitGlyphs(images, [d] + ds) == [images[d]] + DigitGlyphs(images, ds)
  {
    assert ([d] + ds)[1..] == ds;
  }

  /** Polling the last digit off the stack: it is the first glyph still to
      be drawn, and the rest of the stack holds digits. */
  lemma PollLast(images: seq<Glyph>, stack: seq<int>)
    requires |images| >= 10 && IsDigitSeq(stack) && stack != []
    ensures IsDigitSeq(stack[..|stack| - 1]) && 0 <= stack[|stack| - 1] <= 9
    ensures DigitGlyphs(images, Reversed(stack))
      == [images[stack[|stack| - 1]]] + DigitGlyphs(images, Reversed(stack[..|stack| - 1]))
  {
    ReversedSnoc(stack);
    DigitGlyphsCons(images, stack[|stack| - 1], Reversed(stack[..|stack| - 1]));
  }

  lemma AppendShift<T>(a: seq<T>, x: T, b: seq<T>)
    ensures (a + [x]) + b == a + ([x] + b)
  {
  }

  /** Pushing the last digit of n onto the front of the stack moves it from
      the digits still to come to the end of the digits read so far. */
  lemma PushDigit(n: nat, stack: seq<int>)
    requires n > 0 && IsDigitSeq(stack)
    ensures IsDigitSeq([n % 10] + stack)
    ensures Reversed(stack) + LeastFirst(n) == Reversed([n % 10] + stack) + LeastFirst(n / 10)
  {
    LeastFirstStep(n);
    ReversedCons(n % 10, stack);
    AppendShift(Reversed(stack), n % 10, LeastFirst(n / 10));
    var pushed := [n % 10] + stack;
    forall i | 0 <= i < |pushed| ensures 0 <= pushed[i] <= 9 {
      if i > 0 { assert pushed[i] == stack[i - 1]; }
    }
  }

  lemma LeastFirstStep(n: nat)
    requires n > 0
    ensures LeastFirst(n) == [n % 10] + LeastFirst(n / 10)
  {
  }

  lemma ReversedCons(x: int, s: seq<int>)
    ensures Reversed([x] + s) == Reversed(s) + [x]
  {
    assert ([x] + s)[1..] == s;
  }

  lemma {:induction false} ReversedSnoc(s: seq<int>)
    requires s != []
    ensures Reversed(s) == [s[|s| - 1]] + Reversed(s[..|s| - 1])
  {
    if |s| > 1 {
      ReversedSnoc(s[1..]);
      assert s[1..][..|s[1..]| - 1] == s[..|s| - 1][1..];
    } else {
      assert s[..|s| - 1] == [];
    }
  }

  lemma TotalWidthAppend(gs: seq<Glyph>, g: Glyph)
    ensures TotalWidth(gs + [g]) == TotalWidth(gs) + g.width
  {
    assert (gs + [g])[..|gs|] == gs;
  }

  lemma LayoutAppend(gs: seq<Glyph>, g: Glyph, maxHeight: int)
    ensures Layout(gs + [g], maxHeight)
      == Layout(gs, maxHeight) + [Placement(g, WIDTH - TotalWidth(gs) - g.width, HalfTowardZero(maxHeight - g.height))]
  {
    assert (gs + [g])[..|gs|] == gs;
  }

  /** The first half of drawNumber(int): the digits of number pushed onto
      the front of a stack, so that polling from the far end yields them
      least significant first. */
  method DigitStack(number: int) returns (stack: seq<int>)
    ensures IsDigitSeq(stack) && Reversed(stack) == DrawnDigits(number)
  {
    stack := [];
    var n := number;
    if n == 0 {
      stack := [0] + stack;
    } else {
      while n > 0
        invariant number > 0 ==> n >= 0
        invariant number < 0 ==> n == number
        invariant IsDigitSeq(stack)
        invariant number > 0 ==> LeastFirst(number) == Reversed(stack) + LeastFirst(n)
        invariant number < 0 ==> stack == []
      {
        PushDigit(n, stack);
        stack := [n % 10] + stack;
        n := n / 10;
      }
      assert number > 0 ==> LeastFirst(n) == [];
    }
  }

  class NumberDisplayer {
    /** The digit images 0 to 9. */
    const numberImages: seq<Glyph>
    /** The height of the tallest digit image. */
    const maxHeight: int
    /** Width drawn so far, measured from the right edge. */
    var currentRenderedWidth: int
    /** The drawImage calls on the base image since it was last cleared. */
    var canvas: seq<Placement>

    /** The glyphs drawn since the last clear, in drawing order. */
    ghost var drawn: seq<Glyph>

    ghost predicate Valid()
      reads this
    {
      && maxHeight == MaxHeight(numberImages)
      && currentRenderedWidth == TotalWidth(drawn)
      && canvas == Layout(drawn, maxHeight)
    }

    /** A displayer over the given digit images, with nothing drawn. */
    constructor (images: seq<Glyph>)
      ensures Valid() && numberImages == images && drawn == [] && canvas == []
      ensures maxHeight == MaxHeight(images)
    {
      numberImages := images;
      currentRenderedWidth := 0;
      var max := 0;
      var i := 0;
      while i < |images|
        invariant 0 <= i <= |images|
        invariant max == MaxHeight(images[..i])
      {
        assert images[..i + 1][..i] == images[..i];
        max := if images[i].height > max then images[i].height else max;
        i := i + 1;
      }
      assert images[..i] == images;
      maxHeight := max;
      canvas := [];
      drawn := [];
    }

    /** Draws letter against the glyphs drawn so far, centred vertically. */
    method DrawLetter(letter: Glyph)
      requires Valid()
      modifies this`currentRenderedWidth, this`canvas, this`drawn
      ensures Valid()
      ensures drawn == old(drawn) + [letter]
      ensures canvas == old(canvas) + [Placement(letter, WIDTH - old(currentRenderedWidth) - letter.width,
                                                 HalfTowardZero(maxHeight - letter.height))]
      ensures currentRenderedWidth == old(currentRenderedWidth) + letter.width
    {
      var x := WIDTH - currentRenderedWidth - letter.width;
      var y := HalfTowardZero(maxHeight - letter.height);
      canvas := canvas + [Placement(letter, x, y)];
      currentRenderedWidth := currentRenderedWidth + letter.width;
      LayoutAppend(drawn, letter, maxHeight);
      TotalWidthAppend(drawn, letter);
      drawn := drawn + [letter];
    }

    /** drawNumber(int): the digits pushed onto a stack, then polled from
        its far end and drawn one by one. */
    method DrawNumber(number: int)
      requires Valid() && |numberImages| >= 10
      modifies this`currentRenderedWidth, this`canvas, this`drawn
      ensures Valid()
      ensures drawn == old(drawn) + DigitGlyphs(numberImages, DrawnDigits(number))
    {
      var stack := DigitStack(number);
      ghost var before := drawn;
      while stack != []
        invariant Valid()
        invariant IsDigitSeq(stack)
        invariant before + DigitGlyphs(numberImages, DrawnDigits(number))
          == drawn + DigitGlyphs(numberImages, Reversed(stack))
        decreases |stack|
      {
        var digit := stack[|stack| - 1];
        ghost var pending := DigitGlyphs(numberImages, Reversed(stack));
        PollLast(numberImages, stack);
        stack := stack[..|stack| - 1];
        ghost var rest := DigitGlyphs(numberImages, Reversed(stack));
        ghost var done := drawn;
        DrawLetter(numberImages[digit]);
        AppendShift(done, numberImages[digit], rest);
      }
      assert DigitGlyphs(numberImages, Reversed(stack)) == [];
      assert drawn + [] == drawn;
    }

    /** clear: empties the image and starts again at the right edge. */
    method Clear()
      requires Valid()
      modifies this`currentRenderedWidth, this`canvas, this`drawn
      ensures Valid() && drawn == [] && canvas == [] && currentRenderedWidth == 0
    {
      canvas := [];
      currentRenderedWidth := 0;
      drawn := [];
    }
  }
}
