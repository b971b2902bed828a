/**
 * Tile address resolution of `AirMapUrlTile.Wrapper`: the optional row flip
 * from XYZ ("slippy map") numbering to bottom-origin TMS numbering, the
 * substitution of `{x}`, `{y}` and `{z}` in the URL template, and the zoom
 * gate that decides whether a URL is produced at all.
 */
module TileUrl {
  import opened JavaInt
  import opened Text
  import opened Decimal

  const X_PLACEHOLDER: string := "{x}"
  const Y_PLACEHOLDER: string := "{y}"
  const Z_PLACEHOLDER: string := "{z}"

  /**
   * The zoom bounds of the layer. The source keeps them as `float` fields and
   * only compares them with the integer zoom; a bound that is not positive
   * is no bound.
   */
  datatype ZoomPolicy = ZoomPolicy(minimumZ: real, maximumZ: real)

  /**
   * What `getUrl` hands back: `null`, a parsed URL, or the `AssertionError`
   * it throws when `new URL` rejects the substituted text.
   */
  datatype UrlOutcome = NoUrl | Url(text: string) | MalformedUrl(text: string)

  /** `(1 << zoom) - y - 1` in Java `int` arithmetic. */
  function FlipRow(y: Int32, zoom: Int32): Int32
  {
    Wrap(ShiftLeftOne(zoom) - y - 1)
  }

  /** `getTileUrl`: three chained `String.replace` calls. */
  function TileUrl(x: Int32, y: Int32, zoom: Int32, template: string): string
  {
    Replace(Replace(Replace(template, X_PLACEHOLDER, DecimalText(x)),
                    Y_PLACEHOLDER, DecimalText(y)),
            Z_PLACEHOLDER, DecimalText(zoom))
  }

  predicate AboveMaximum(zoom: Int32, policy: ZoomPolicy)
  {
    policy.maximumZ > 0.0 && zoom as real > policy.maximumZ
  }

  predicate BelowMinimum(zoom: Int32, policy: ZoomPolicy)
  {
    policy.minimumZ > 0.0 && zoom as real < policy.minimumZ
  }

  /**
   * `getUrl`. The row is flipped first, the text is substituted, then the
   * zoom gate decides, and only a zoom that passes the gate reaches the URL
   * parser, given here as `validUrl`.
   */
  function GetUrl(x: Int32, y: Int32, zoom: Int32, template: string, flipY: bool,
                  policy: ZoomPolicy, validUrl: string -> bool): (r: UrlOutcome)
    ensures r.NoUrl? <==> AboveMaximum(zoom, policy) || BelowMinimum(zoom, policy)
    ensures !r.NoUrl? ==> r.text == TileUrl(x, if flipY then FlipRow(y, zoom) else y, zoom, template)
    ensures !r.NoUrl? ==> (r.Url? <==> validUrl(r.text))
  {
    var row := if flipY then FlipRow(y, zoom) else y;
    var s := TileUrl(x, row, zoom, template);
    if policy.maximumZ > 0.0 && zoom as real > policy.maximumZ then NoUrl
    else if policy.minimumZ > 0.0 && zoom as real < policy.minimumZ then NoUrl
    else if validUrl(s) then Url(s)
    else MalformedUrl(s)
  }

  // ---------------------------------------------------------------------
  // The row flip

  /** Flipping twice gives back the row, for every `int` row and zoom. */
  lemma FlipRowInvolution(y: Int32, zoom: Int32)
    ensures FlipRow(FlipRow(y, zoom), zoom) == y
  {
    var s := ShiftLeftOne(zoom);
    var n := s - y - 1;
    var k := (n + TWO_31) / TWO_32;
    WrapOffset(n);
    assert FlipRow(y, zoom) == n - TWO_32 * k;
    WrapCongruent(s - FlipRow(y, zoom) - 1, y, k);
  }

  /** On the rows of a zoom level up to 30 the flip is exact and stays on the level. */
  lemma FlipRowInRange(y: Int32, zoom: Int32)
    requires 0 <= zoom <= 30 && 0 <= y < Pow2(zoom)
    ensures FlipRow(y, zoom) == Pow2(zoom) - y - 1
    ensures 0 <= FlipRow(y, zoom) < Pow2(zoom)
  {
    ShiftLeftOneExact(zoom);
  }

  /** At zoom 31 the shift overflows to `Integer.MIN_VALUE` and row 0 flips to `Integer.MAX_VALUE`. */
  lemma FlipRowOverflowsAtZoom31()
    ensures ShiftLeftOne(31) == -TWO_31
    ensures FlipRow(0, 31) == TWO_31 - 1
  {
    Pow2Thirty();
    assert Pow2(31) == 2 * Pow2(30);
  }

  // ---------------------------------------------------------------------
  // Template substitution

  lemma DecimalTextIsPlain(n: int)
    ensures '{' !in DecimalText(n)
    ensures SharesNoChar(X_PLACEHOLDER, DecimalText(n))
    ensures SharesNoChar(Y_PLACEHOLDER, DecimalText(n))
    ensures SharesNoChar(Z_PLACEHOLDER, DecimalText(n))
  {
  }

  /** No placeholder survives in the URL, whatever the template holds. */
  lemma TileUrlHasNoPlaceholder(x: Int32, y: Int32, zoom: Int32, template: string)
    ensures !Contains(TileUrl(x, y, zoom, template), X_PLACEHOLDER)
    ensures !Contains(TileUrl(x, y, zoom, template), Y_PLACEHOLDER)
    ensures !Contains(TileUrl(x, y, zoom, template), Z_PLACEHOLDER)
  {
    DecimalTextIsPlain(x);
    DecimalTextIsPlain(y);
    DecimalTextIsPlain(zoom);
    var s1 := Replace(template, X_PLACEHOLDER, DecimalText(x));
    var s2 := Replace(s1, Y_PLACEHOLDER, DecimalText(y));
    ReplaceRemovesAll(template, X_PLACEHOLDER, DecimalText(x));
    ReplaceRemovesAll(s1, Y_PLACEHOLDER, DecimalText(y));
    ReplaceCreatesNothing(s1, Y_PLACEHOLDER, DecimalText(y), X_PLACEHOLDER);
    ReplaceRemovesAll(s2, Z_PLACEHOLDER, DecimalText(zoom));
    ReplaceCreatesNothing(s2, Z_PLACEHOLDER, DecimalText(zoom), X_PLACEHOLDER);
    ReplaceCreatesNothing(s2, Z_PLACEHOLDER, DecimalText(zoom), Y_PLACEHOLDER);
  }

  /** A template without placeholders is the URL itself. */
  lemma TileUrlOfFixedTemplate(x: Int32, y: Int32, zoom: Int32, template: string)
    requires !Contains(template, X_PLACEHOLDER)
    requires !Contains(template, Y_PLACEHOLDER)
    requires !Contains(template, Z_PLACEHOLDER)
    ensures TileUrl(x, y, zoom, template) == template
  {
    ReplaceAbsent(template, X_PLACEHOLDER, DecimalText(x));
    ReplaceAbsent(template, Y_PLACEHOLDER, DecimalText(y));
    ReplaceAbsent(template, Z_PLACEHOLDER, DecimalText(zoom));
  }

  /** Every character of the URL is a template character, a digit or a minus sign. */
  lemma TileUrlChars(x: Int32, y: Int32, zoom: Int32, template: string)
    ensures forall i :: 0 <= i < |TileUrl(x, y, zoom, template)| ==>
      var c := TileUrl(x, y, zoom, template)[i];
      c in template || IsDigit(c) || c == '-'
  {
    var s1 := Replace(template, X_PLACEHOLDER, DecimalText(x));
    var s2 := Replace(s1, Y_PLACEHOLDER, DecimalText(y));
    ReplaceChars(template, X_PLACEHOLDER, DecimalText(x));
    ReplaceChars(s1, Y_PLACEHOLDER, DecimalText(y));
    ReplaceChars(s2, Z_PLACEHOLDER, DecimalText(zoom));
  }

  /**
   * The three substitutions done in one pass: at each position a `{x}`, `{y}`
   * or `{z}` is replaced by the decimal text of x, y or zoom, and any other
   * character is copied.
   */
  function SubstituteAll(t: string, x: Int32, y: Int32, zoom: Int32): string
    decreases |t|
  {
    if |t| == 0 then ""
    else if OccursAt(t, X_PLACEHOLDER, 0) then DecimalText(x) + SubstituteAll(t[3..], x, y, zoom)
    else if OccursAt(t, Y_PLACEHOLDER, 0) then DecimalText(y) + SubstituteAll(t[3..], x, y, zoom)
    else if OccursAt(t, Z_PLACEHOLDER, 0) then DecimalText(zoom) + SubstituteAll(t[3..], x, y, zoom)
    else [t[0]] + SubstituteAll(t[1..], x, y, zoom)
  }

  /**
   * For every template, the three chained replaces give the one-pass
   * substitution: the placeholders cannot overlap one another, and the
   * number texts hold no brace that could start a new one.
   */
  lemma {:induction false} TileUrlIsSubstituteAll(x: Int32, y: Int32, zoom: Int32, t: string)
    ensures TileUrl(x, y, zoom, t) == SubstituteAll(t, x, y, zoom)
    decreases |t|
  {
    DecimalTextIsPlain(x);
    DecimalTextIsPlain(y);
    DecimalTextIsPlain(zoom);
    var xs, ys, zs := DecimalText(x), DecimalText(y), DecimalText(zoom);
    if |t| == 0 {
    } else if OccursAt(t, X_PLACEHOLDER, 0) {
      var v := t[3..];
      TileUrlIsSubstituteAll(x, y, zoom, v);
      assert t == X_PLACEHOLDER + v;
      ReplaceAtHead(v, X_PLACEHOLDER, xs);
      var v1 := Replace(v, X_PLACEHOLDER, xs);
      ReplaceSkipsPrefix(xs, v1, Y_PLACEHOLDER, ys);
      var v2 := Replace(v1, Y_PLACEHOLDER, ys);
      ReplaceSkipsPrefix(xs, v2, Z_PLACEHOLDER, zs);
    } else if OccursAt(t, Y_PLACEHOLDER, 0) {
      var v := t[3..];
      TileUrlIsSubstituteAll(x, y, zoom, v);
      assert t == Y_PLACEHOLDER + v;
      ReplaceSkipsOther(Y_PLACEHOLDER, v, X_PLACEHOLDER, xs);
      var v1 := Replace(v, X_PLACEHOLDER, xs);
      ReplaceAtHead(v1, Y_PLACEHOLDER, ys);
      var v2 := Replace(v1, Y_PLACEHOLDER, ys);
      ReplaceSkipsPrefix(ys, v2, Z_PLACEHOLDER, zs);
    } else if OccursAt(t, Z_PLACEHOLDER, 0) {
      var v := t[3..];
      TileUrlIsSubstituteAll(x, y, zoom, v);
      assert t == Z_PLACEHOLDER + v;
      ReplaceSkipsOther(Z_PLACEHOLDER, v, X_PLACEHOLDER, xs);
      var v1 := Replace(v, X_PLACEHOLDER, xs);
      ReplaceSkipsOther(Z_PLACEHOLDER, v1, Y_PLACEHOLDER, ys);
      var v2 := Replace(v1, Y_PLACEHOLDER, ys);
      ReplaceAtHead(v2, Z_PLACEHOLDER, zs);
    } else {
      TileUrlIsSubstituteAll(x, y, zoom, t[1..]);
      ReplaceNoMatchAtHead(t, X_PLACEHOLDER, xs);
      var w1 := Replace(t, X_PLACEHOLDER, xs);
      OccurrenceAtHead(t, X_PLACEHOLDER, xs, Y_PLACEHOLDER);
      OccurrenceAtHead(t, X_PLACEHOLDER, xs, Z_PLACEHOLDER);
      ReplaceNoMatchAtHead(w1, Y_PLACEHOLDER, ys);
      var w2 := Replace(w1, Y_PLACEHOLDER, ys);
      assert w1[1..] == Replace(t[1..], X_PLACEHOLDER, xs);
      OccurrenceAtHead(w1, Y_PLACEHOLDER, ys, Z_PLACEHOLDER);
      ReplaceNoMatchAtHead(w2, Z_PLACEHOLDER, zs);
      assert w2[1..] == Replace(Replace(t[1..], X_PLACEHOLDER, xs), Y_PLACEHOLDER, ys);
    }
  }

  /** A brace before a placeholder is kept: `{{x}` becomes `{3` for x 3. */
  lemma TileUrlKeepsStrayBrace()
    ensures TileUrl(3, 5, 4, "{{x}") == "{3"
  {
    TileUrlIsSubstituteAll(3, 5, 4, "{{x}");
    assert DecimalText(3) == "3";
    assert SubstituteAll("{x}", 3, 5, 4) == "3" + SubstituteAll("", 3, 5, 4);
    assert !OccursAt("{{x}", X_PLACEHOLDER, 0);
    assert !OccursAt("{{x}", Y_PLACEHOLDER, 0);
    assert !OccursAt("{{x}", Z_PLACEHOLDER, 0);
    assert "{{x}"[1..] == "{x}";
  }

  // A template seen as literal text and placeholders. A literal piece holds no
  // `{`; a placeholder is `{`, one other character and `}`.

  predicate IsPlaceholder(q: string)
  {
    |q| == 3 && q[0] == '{' && q[1] != '{' && q[2] == '}'
  }

  predicate IsPiece(q: string)
  {
    '{' !in q || IsPlaceholder(q)
  }

  predicate WellFormed(pieces: seq<string>)
  {
    forall i :: 0 <= i < |pieces| ==> IsPiece(pieces[i])
  }

  function Join(pieces: seq<string>): string
  {
    if pieces == [] then "" else pieces[0] + Join(pieces[1..])
  }

  /** The pieces with every copy of `target` replaced by `value`. */
  function Fill(pieces: seq<string>, target: string, value: string): (r: seq<string>)
    ensures |r| == |pieces|
  {
    if pieces == [] then []
    else [if pieces[0] == target then value else pieces[0]] + Fill(pieces[1..], target, value)
  }

  /** The pieces with each of the three placeholders replaced by its number's text. */
  function Substitute(pieces: seq<string>, x: Int32, y: Int32, zoom: Int32): seq<string>
  {
    if pieces == [] then []
    else
      var q := pieces[0];
      var v := if q == X_PLACEHOLDER then DecimalText(x)
               else if q == Y_PLACEHOLDER then DecimalText(y)
               else if q == Z_PLACEHOLDER then DecimalText(zoom)
               else q;
      [v] + Substitute(pieces[1..], x, y, zoom)
  }

  /** On a template made of pieces, `String.replace` works piece by piece. */
  lemma {:induction false} ReplaceJoin(pieces: seq<string>, target: string, value: string)
    requires IsPlaceholder(target) && WellFormed(pieces)
    ensures Replace(Join(pieces), target, value) == Join(Fill(pieces, target, value))
  {
    if pieces != [] {
      var q := pieces[0];
      var rest := Join(pieces[1..]);
      assert WellFormed(pieces[1..]) by {
        forall i | 0 <= i < |pieces[1..]| ensures IsPiece(pieces[1..][i]) {
          assert pieces[1..][i] == pieces[i + 1];
        }
      }
      ReplaceJoin(pieces[1..], target, value);
      assert IsPiece(pieces[0]);
      if q == target {
        ReplaceAtHead(rest, target, value);
      } else if IsPlaceholder(q) {
        assert q[1..] == [q[1], q[2]];
        ReplaceSkipsOther(q, rest, target, value);
      } else {
        ReplaceSkipsPrefix(q, rest, target, value);
      }
    }
  }

  lemma {:induction false} FillKeepsWellFormed(pieces: seq<string>, target: string, value: string)
    requires WellFormed(pieces) && '{' !in value
    ensures WellFormed(Fill(pieces, target, value))
  {
    if pieces != [] {
      assert WellFormed(pieces[1..]) by {
        forall i | 0 <= i < |pieces[1..]| ensures IsPiece(pieces[1..][i]) {
          assert pieces[1..][i] == pieces[i + 1];
        }
      }
      FillKeepsWellFormed(pieces[1..], target, value);
      assert IsPiece(pieces[0]);
      var r := Fill(pieces, target, value);
      forall i | 0 <= i < |r| ensures IsPiece(r[i]) {
        if i > 0 {
          assert r[i] == Fill(pieces[1..], target, value)[i - 1];
        }
      }
    }
  }

  lemma {:induction false} FillThree(pieces: seq<string>, x: Int32, y: Int32, zoom: Int32)
    ensures Fill(Fill(Fill(pieces, X_PLACEHOLDER, DecimalText(x)), Y_PLACEHOLDER, DecimalText(y)),
                 Z_PLACEHOLDER, DecimalText(zoom))
            == Substitute(pieces, x, y, zoom)
  {
    if pieces != [] {
      FillThree(pieces[1..], x, y, zoom);
      DecimalTextIsPlain(x);
      DecimalTextIsPlain(y);
      assert DecimalText(x) != Y_PLACEHOLDER && DecimalText(x) != Z_PLACEHOLDER;
      assert DecimalText(y) != Z_PLACEHOLDER;
      var f1 := Fill(pieces, X_PLACEHOLDER, DecimalText(x));
      var f2 := Fill(f1, Y_PLACEHOLDER, DecimalText(y));
      assert f1[1..] == Fill(pieces[1..], X_PLACEHOLDER, DecimalText(x));
      assert f2[1..] == Fill(f1[1..], Y_PLACEHOLDER, DecimalText(y));
    }
  }

  /**
   * For a template made of literal text and placeholders, the URL is the
   * template with each `{x}`, `{y}` and `{z}` replaced by the decimal text of
   * x, y and zoom, wherever and however often it appears, and every other
   * piece left as it is.
   */
  lemma TileUrlSubstitutes(pieces: seq<string>, x: Int32, y: Int32, zoom: Int32)
    requires WellFormed(pieces)
    ensures TileUrl(x, y, zoom, Join(pieces)) == Join(Substitute(pieces, x, y, zoom))
  {
    DecimalTextIsPlain(x);
    DecimalTextIsPlain(y);
    var f1 := Fill(pieces, X_PLACEHOLDER, DecimalText(x));
    var f2 := Fill(f1, Y_PLACEHOLDER, DecimalText(y));
    ReplaceJoin(pieces, X_PLACEHOLDER, DecimalText(x));
    FillKeepsWellFormed(pieces, X_PLACEHOLDER, DecimalText(x));
    ReplaceJoin(f1, Y_PLACEHOLDER, DecimalText(y));
    FillKeepsWellFormed(f1, Y_PLACEHOLDER, DecimalText(y));
    ReplaceJoin(f2, Z_PLACEHOLDER, DecimalText(zoom));
    FillThree(pieces, x, y, zoom);
  }

  /** The usual slippy-map template, filled in for tile (3, 5) at zoom 4. */
  lemma TileUrlExample()
    ensures TileUrl(3, 5, 4, "https://tile.example/{z}/{x}/{y}.png") == "https://tile.example/4/3/5.png"
  {
    var pieces := ExamplePieces();
    ExampleJoin();
    ExampleWellFormed();
    ExampleSubstitute();
    TileUrlSubstitutes(pieces, 3, 5, 4);
  }

  function ExamplePieces(): seq<string>
  {
    ["https://tile.example/", Z_PLACEHOLDER, "/", X_PLACEHOLDER, "/", Y_PLACEHOLDER, ".png"]
  }

  lemma ExampleJoin()
    ensures Join(ExamplePieces()) == "https://tile.example/{z}/{x}/{y}.png"
  {
    var pieces := ExamplePieces();
    assert Join(pieces[6..]) == ".png";
    assert Join(pieces[5..]) == "{y}.png";
    assert Join(pieces[4..]) == "/{y}.png";
    assert Join(pieces[3..]) == "{x}/{y}.png";
    assert Join(pieces[2..]) == "/{x}/{y}.png";
    assert Join(pieces[1..]) == "{z}/{x}/{y}.png";
  }

  lemma ExampleWellFormed()
    ensures WellFormed(ExamplePieces())
  {
    var pieces := ExamplePieces();
    forall i | 0 <= i < |pieces| ensures IsPiece(pieces[i]) {
      assert '{' !in "https://tile.example/";
      assert '{' !in ".png";
    }
  }

  lemma ExampleSubstitute()
    ensures Join(Substitute(ExamplePieces(), 3, 5, 4)) == "https://tile.example/4/3/5.png"
  {
    var pieces := ExamplePieces();
    assert DecimalText(3) == "3" && DecimalText(5) == "5" && DecimalText(4) == "4";
    var filled := ["https://tile.example/", "4", "/", "3", "/", "5", ".png"];
    assert Substitute(pieces[6..], 3, 5, 4) == filled[6..];
    assert Substitute(pieces[5..], 3, 5, 4) == filled[5..];
    assert Substitute(pieces[4..], 3, 5, 4) == filled[4..];
    assert Substitute(pieces[3..], 3, 5, 4) == filled[3..];
    assert Substitute(pieces[2..], 3, 5, 4) == filled[2..];
    assert Substitute(pieces[1..], 3, 5, 4) == filled[1..];
    assert Substitute(pieces, 3, 5, 4) == filled;
    ExampleFilledJoin(filled);
  }

  lemma ExampleFilledJoin(filled: seq<string>)
    requires filled == ["https://tile.example/", "4", "/", "3", "/", "5", ".png"]
    ensures Join(filled) == "https://tile.example/4/3/5.png"
  {
    assert Join(filled[6..]) == ".png";
    assert Join(filled[5..]) == "5.png";
    assert Join(filled[4..]) == "/5.png";
    assert Join(filled[3..]) == "3/5.png";
    assert Join(filled[2..]) == "/3/5.png";
    assert Join(filled[1..]) == "4/3/5.png";
  }

  // ---------------------------------------------------------------------
  // The zoom gate

  /** With whole-number bounds, the gate passes exactly the zooms in `[lo, hi]`; both ends count. */
  lemma ZoomGateInclusive(x: Int32, y: Int32, zoom: Int32, template: string, flipY: bool,
                          lo: nat, hi: nat, validUrl: string -> bool)
    requires 0 < lo && 0 < hi
    ensures GetUrl(x, y, zoom, template, flipY, ZoomPolicy(lo as real, hi as real), validUrl).NoUrl?
            <==> zoom < lo || zoom > hi
  {
  }

  /** A bound of zero, or below, switches its check off; with both off every zoom is served. */
  lemma ZoomGateUnbounded(x: Int32, y: Int32, zoom: Int32, template: string, flipY: bool,
                          policy: ZoomPolicy, validUrl: string -> bool)
    requires policy.minimumZ <= 0.0 && policy.maximumZ <= 0.0
    ensures !GetUrl(x, y, zoom, template, flipY, policy, validUrl).NoUrl?
  {
  }

  /**
   * The gate runs before the URL parser: an excluded zoom yields no URL even
   * for a malformed template, and an admitted zoom never yields "no URL".
   */
  lemma GateBeforeParse(x: Int32, y: Int32, zoom: Int32, template: string, flipY: bool,
                        policy: ZoomPolicy, validUrl: string -> bool, otherParser: string -> bool)
    ensures AboveMaximum(zoom, policy) || BelowMinimum(zoom, policy) ==>
      GetUrl(x, y, zoom, template, flipY, policy, validUrl) == NoUrl &&
      GetUrl(x, y, zoom, template, flipY, policy, otherParser) == NoUrl
    ensures !(AboveMaximum(zoom, policy) || BelowMinimum(zoom, policy)) ==>
      var s := TileUrl(x, if flipY then FlipRow(y, zoom) else y, zoom, template);
      GetUrl(x, y, zoom, template, flipY, policy, validUrl) ==
        (if validUrl(s) then Url(s) else MalformedUrl(s))
  {
  }

  /** The flip flag only changes the row that is substituted. */
  lemma FlipOnlyChangesRow(x: Int32, y: Int32, zoom: Int32, template: string,
                           policy: ZoomPolicy, validUrl: string -> bool)
    ensures GetUrl(x, y, zoom, template, true, policy, validUrl)
         == GetUrl(x, FlipRow(y, zoom), zoom, template, false, policy, validUrl)
  {
  }
}
