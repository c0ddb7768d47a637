/**
 * The text handling of `animateMetrics` (js/main.js:126-154): the digits that
 * `finalValue.replace(/[^0-9.]/g, '')` keeps, whether `parseFloat` of them
 * is a number (otherwise the element is left alone), and how the unit
 * markers of the original text are put around each formatted frame. The
 * frame numbers themselves (`toFixed` of a floating-point count) are left
 * abstract: Decorate takes the formatted number as a string.
 */
module Metrics {

  predicate IsDigit(c: char) { '0' <= c <= '9' }

  /** The characters `[0-9.]` that the filter keeps. */
  predicate IsNumberChar(c: char) { IsDigit(c) || c == '.' }

  /** `s.replace(/[^0-9.]/g, '')`. */
  function DigitFilter(s: string): (r: string)
    ensures |r| <= |s|
    ensures forall i :: 0 <= i < |r| ==> IsNumberChar(r[i])
    ensures forall i :: 0 <= i < |r| ==> r[i] in s
    decreases |s|
  {
    if |s| == 0 then ""
    else (if IsNumberChar(s[0]) then [s[0]] else "") + DigitFilter(s[1..])
  }

  /** The filter works character by character, in order. */
  lemma {:induction false} DigitFilterAppend(a: string, b: string)
    ensures DigitFilter(a + b) == DigitFilter(a) + DigitFilter(b)
    decreases |a|
  {
    if |a| == 0 {
      assert a + b == b;
    } else {
      assert (a + b)[1..] == a[1..] + b;
      DigitFilterAppend(a[1..], b);
    }
  }

  /** A string of digits and dots passes unchanged. */
  lemma {:induction false} DigitFilterKeeps(s: string)
    requires forall i :: 0 <= i < |s| ==> IsNumberChar(s[i])
    ensures DigitFilter(s) == s
    decreases |s|
  {
    if |s| > 0 {
      DigitFilterKeeps(s[1..]);
      assert [s[0]] + s[1..] == s;
    }
  }

  /** A string without digits or dots is removed entirely. */
  lemma {:induction false} DigitFilterDrops(s: string)
    requires forall i :: 0 <= i < |s| ==> !IsNumberChar(s[i])
    ensures DigitFilter(s) == ""
    decreases |s|
  {
    if |s| > 0 {
      DigitFilterDrops(s[1..]);
    }
  }

  lemma DigitFilterIdempotent(s: string)
    ensures DigitFilter(DigitFilter(s)) == DigitFilter(s)
  {
    DigitFilterKeeps(DigitFilter(s));
  }

  /** Every digit and dot is kept, as often as it occurs; nothing else is. */
  lemma {:induction false} DigitFilterCounts(s: string, c: char)
    ensures multiset(DigitFilter(s))[c] == if IsNumberChar(c) then multiset(s)[c] else 0
    decreases |s|
  {
    if |s| > 0 {
      DigitFilterCounts(s[1..], c);
      assert s == [s[0]] + s[1..];
      assert multiset(s) == multiset([s[0]]) + multiset(s[1..]);
    }
  }

  /** `parseFloat(f)` is not NaN, for a string `f` of digits and dots: it
      begins with a digit, or with a dot followed by a digit. */
  predicate ParsesAsNumber(f: string): (b: bool)
    ensures |f| > 0 && IsDigit(f[0]) ==> b
    ensures b ==> exists i :: 0 <= i < |f| && i < 2 && IsDigit(f[i])
  {
    |f| > 0 && (IsDigit(f[0]) || (f[0] == '.' && |f| > 1 && IsDigit(f[1])))
  }

  /** Whether `animateMetrics` starts a count-up for an element whose text is
      `finalValue`; when it does not, the element is left untouched. */
  function Animates(finalValue: string): (b: bool)
    ensures b ==> exists i :: 0 <= i < |finalValue| && IsDigit(finalValue[i])
  {
    ParsesAsNumber(DigitFilter(finalValue))
  }

  /** A digit is not enough: dots before it make `parseFloat` give NaN. */
  lemma DotsBeforeDigitsDoNotAnimate()
    ensures !Animates("..5")
  {
    DigitFilterKeeps("..5");
  }

  lemma PercentAnimates()
    ensures Animates("95%")
  {
    assert "95%" == "95" + "%";
    DigitFilterAppend("95", "%");
    DigitFilterKeeps("95");
    DigitFilterDrops("%");
  }

  // ----------------------------------------------------------- unit markers

  /** `text.includes(p)`. */
  predicate Includes(text: string, p: string): (b: bool)
    ensures b ==> |p| <= |text|
    ensures |p| <= |text| && text[..|p|] == p ==> b
    decreases |text|
  {
    |p| <= |text| && (text[..|p|] == p || Includes(text[1..], p))
  }

  /** `p` occurs in `text` starting at position `i`. */
  predicate OccursAt(text: string, p: string, i: int)
  {
    0 <= i <= |text| - |p| && text[i..i + |p|] == p
  }

  /** `Includes` finds `p` exactly when `p` occurs at some position of `text`. */
  lemma {:induction false} IncludesOccurs(text: string, p: string)
    ensures Includes(text, p) <==> exists i :: OccursAt(text, p, i)
    decreases |text|
  {
    if |p| <= |text| {
      if text[..|p|] == p {
        assert OccursAt(text, p, 0);
      } else {
        IncludesOccurs(text[1..], p);
        forall i | 0 <= i
          ensures OccursAt(text[1..], p, i) <==> OccursAt(text, p, i + 1)
        {
          if i <= |text[1..]| - |p| {
            assert text[1..][i..i + |p|] == text[i + 1..i + 1 + |p|];
          }
        }
        if Includes(text[1..], p) {
          var i :| OccursAt(text[1..], p, i);
          assert OccursAt(text, p, i + 1);
        } else {
          forall i: int
            ensures !OccursAt(text, p, i)
          {
            if i > 0 {
              assert !OccursAt(text[1..], p, i - 1);
            }
          }
        }
      }
    }
  }

  /** For one character, `includes` is membership. */
  lemma IncludesChar(text: string, c: char)
    ensures Includes(text, [c]) <==> c in text
  {
    IncludesOccurs(text, [c]);
    forall i | 0 <= i < |text|
      ensures OccursAt(text, [c], i) <==> text[i] == c
    {
      assert text[i..i + 1] == [text[i]];
    }
  }

  /** Which markers `animateMetrics` detects in the original text. */
  datatype Markers = Markers(dollar: bool, percent: bool, ms: bool, times: bool, thousands: bool)

  function MarkersOf(finalValue: string): (m: Markers)
    ensures m.dollar <==> '$' in finalValue
    ensures m.percent <==> '%' in finalValue
    ensures m.times <==> 'x' in finalValue
    ensures m.thousands <==> 'K' in finalValue
    ensures m.ms <==> exists i :: OccursAt(finalValue, "ms", i)
  {
    IncludesChar(finalValue, '$');
    IncludesChar(finalValue, '%');
    IncludesChar(finalValue, 'x');
    IncludesChar(finalValue, 'K');
    IncludesOccurs(finalValue, "ms");
    Markers(Includes(finalValue, "$"), Includes(finalValue, "%"), Includes(finalValue, "ms"),
            Includes(finalValue, "x"), Includes(finalValue, "K"))
  }

  /** One frame's text (the body of the timer callback after `toFixed`): the
      formatted number with the markers of `finalValue` applied in the order
      of the source. `finalValue` never changes, so its markers are detected
      once. */
  function Decorate(finalValue: string, formatted: string): (r: string)
    ensures r == Canonical(formatted, MarkersOf(finalValue))
  {
    DecoratedWith(MarkersOf(finalValue), formatted);
    DecorateWith(MarkersOf(finalValue), formatted)
  }

  /** `%`, `ms` and `x` appended, `$` prepended, `K` appended last. */
  function DecorateWith(m: Markers, formatted: string): string
  {
    var d1 := if m.percent then formatted + "%" else formatted;
    var d2 := if m.ms then d1 + "ms" else d1;
    var d3 := if m.times then d2 + "x" else d2;
    var d4 := if m.dollar then "$" + d3 else d3;
    if m.thousands then d4 + "K" else d4
  }

  /** The text with markers `m`, written as `$`, number, `%`, `ms`, `x`, `K`. */
  function Canonical(formatted: string, m: Markers): string
  {
    Opt(m.dollar, "$") + formatted + Opt(m.percent, "%") + Opt(m.ms, "ms") + Opt(m.times, "x") +
    Opt(m.thousands, "K")
  }

  /** `marker` when `present`, else nothing. */
  function Opt(present: bool, marker: string): string
  {
    if present then marker else ""
  }

  lemma DecoratedWith(m: Markers, formatted: string)
    ensures DecorateWith(m, formatted) == Canonical(formatted, m)
  {
  }

  lemma {:induction false} IncludesFirstChar(text: string, p: string)
    requires |p| > 0 && Includes(text, p)
    ensures p[0] in text
    decreases |text|
  {
    if text[..|p|] == p {
      assert text[0] == p[0];
    } else {
      IncludesFirstChar(text[1..], p);
    }
  }

  lemma {:induction false} IncludesPiece(a: string, p: string, b: string)
    ensures Includes(a + p + b, p)
    decreases |a|
  {
    var t := a + p + b;
    if |a| == 0 {
      assert t[..|p|] == p;
    } else {
      assert t[1..] == a[1..] + p + b;
      IncludesPiece(a[1..], p, b);
    }
  }

  /** Filtering a canonically written text gives back its number: no marker
      character is a digit or a dot. */
  lemma FilterCanonical(formatted: string, m: Markers)
    requires forall i :: 0 <= i < |formatted| ==> IsNumberChar(formatted[i])
    ensures DigitFilter(Canonical(formatted, m)) == formatted
  {
    var pre, s1, s2, s3, s4 := Opt(m.dollar, "$"), Opt(m.percent, "%"), Opt(m.ms, "ms"),
                                Opt(m.times, "x"), Opt(m.thousands, "K");
    DropsMarker(m.dollar, "$");
    DropsMarker(m.percent, "%");
    DropsMarker(m.ms, "ms");
    DropsMarker(m.times, "x");
    DropsMarker(m.thousands, "K");
    DigitFilterKeeps(formatted);
    var t0 := pre + formatted;
    DigitFilterAppend(pre, formatted);
    assert DigitFilter(t0) == formatted;
    var t1 := t0 + s1;
    DigitFilterAppend(t0, s1);
    assert DigitFilter(t1) == formatted;
    var t2 := t1 + s2;
    DigitFilterAppend(t1, s2);
    assert DigitFilter(t2) == formatted;
    var t3 := t2 + s3;
    DigitFilterAppend(t2, s3);
    assert DigitFilter(t3) == formatted;
    DigitFilterAppend(t3, s4);
    assert Canonical(formatted, m) == t3 + s4;
  }

  lemma DropsMarker(present: bool, marker: string)
    requires marker in {"$", "%", "ms", "x", "K"}
    ensures DigitFilter(Opt(present, marker)) == ""
  {
    var o := Opt(present, marker);
    forall i | 0 <= i < |o| ensures !IsNumberChar(o[i]) {
    }
    DigitFilterDrops(o);
  }

  /** Decorating a frame and filtering it again gives back the frame's number. */
  lemma FilterUndoesDecorate(finalValue: string, formatted: string)
    requires forall i :: 0 <= i < |formatted| ==> IsNumberChar(formatted[i])
    ensures DigitFilter(Decorate(finalValue, formatted)) == formatted
  {
    FilterCanonical(formatted, MarkersOf(finalValue));
  }

  /** A marker whose first character occurs nowhere else is detected exactly
      when it is present. */
  lemma DetectsPiece(before: string, present: bool, marker: string, after: string)
    requires |marker| > 0 && marker[0] !in before && marker[0] !in after
    ensures Includes(before + Opt(present, marker) + after, marker) == present
  {
    if present {
      IncludesPiece(before, marker, after);
    } else if Includes(before + Opt(present, marker) + after, marker) {
      assert before + Opt(present, marker) + after == before + after;
      IncludesFirstChar(before + after, marker);
      assert false;
    }
  }

  /** The markers read back from a canonically written text are the ones it
      was written with. */
  lemma MarkersOfCanonical(formatted: string, m: Markers)
    requires forall i :: 0 <= i < |formatted| ==> IsNumberChar(formatted[i])
    ensures MarkersOf(Canonical(formatted, m)) == m
  {
    NoMarkerInNumber(formatted);
    DetectsDollar(formatted, m);
    DetectsPercent(formatted, m);
    DetectsMs(formatted, m);
    DetectsTimes(formatted, m);
    DetectsThousands(formatted, m);
    MarkersFromDetection(Canonical(formatted, m), m);
  }

  lemma NoMarkerInNumber(formatted: string)
    requires forall i :: 0 <= i < |formatted| ==> IsNumberChar(formatted[i])
    ensures '$' !in formatted && '%' !in formatted && 'm' !in formatted
    ensures 'x' !in formatted && 'K' !in formatted
  {
  }

  lemma DetectsDollar(formatted: string, m: Markers)
    requires '$' !in formatted
    ensures Includes(Canonical(formatted, m), "$") == m.dollar
  {
    var rest := formatted + Opt(m.percent, "%") + Opt(m.ms, "ms") + Opt(m.times, "x") +
                Opt(m.thousands, "K");
    assert Canonical(formatted, m) == "" + Opt(m.dollar, "$") + rest;
    DetectsPiece("", m.dollar, "$", rest);
  }

  lemma DetectsPercent(formatted: string, m: Markers)
    requires '%' !in formatted
    ensures Includes(Canonical(formatted, m), "%") == m.percent
  {
    var before := Opt(m.dollar, "$") + formatted;
    var after := Opt(m.ms, "ms") + Opt(m.times, "x") + Opt(m.thousands, "K");
    assert Canonical(formatted, m) == before + Opt(m.percent, "%") + after;
    DetectsPiece(before, m.percent, "%", after);
  }

  lemma DetectsMs(formatted: string, m: Markers)
    requires 'm' !in formatted
    ensures Includes(Canonical(formatted, m), "ms") == m.ms
  {
    var before := Opt(m.dollar, "$") + formatted + Opt(m.percent, "%");
    var after := Opt(m.times, "x") + Opt(m.thousands, "K");
    assert Canonical(formatted, m) == before + Opt(m.ms, "ms") + after;
    DetectsPiece(before, m.ms, "ms", after);
  }

  lemma DetectsTimes(formatted: string, m: Markers)
    requires 'x' !in formatted
    ensures Includes(Canonical(formatted, m), "x") == m.times
  {
    var before := Opt(m.dollar, "$") + formatted + Opt(m.percent, "%") + Opt(m.ms, "ms");
    var after := Opt(m.thousands, "K");
    assert Canonical(formatted, m) == before + Opt(m.times, "x") + after;
    DetectsPiece(before, m.times, "x", after);
  }

  lemma DetectsThousands(formatted: string, m: Markers)
    requires 'K' !in formatted
    ensures Includes(Canonical(formatted, m), "K") == m.thousands
  {
    var before := Opt(m.dollar, "$") + formatted + Opt(m.percent, "%") + Opt(m.ms, "ms") +
                  Opt(m.times, "x");
    assert Canonical(formatted, m) == before + Opt(m.thousands, "K") + "";
    DetectsPiece(before, m.thousands, "K", "");
  }

  lemma MarkersFromDetection(t: string, m: Markers)
    requires Includes(t, "$") == m.dollar && Includes(t, "%") == m.percent
    requires Includes(t, "ms") == m.ms && Includes(t, "x") == m.times
    requires Includes(t, "K") == m.thousands
    ensures MarkersOf(t) == m
  {
  }

  /** The last frame restores the original text when that text is the number
      with its markers in canonical order and the number formats to itself. */
  lemma FinalFrameRestoresCanonicalText(formatted: string, m: Markers)
    requires forall i :: 0 <= i < |formatted| ==> IsNumberChar(formatted[i])
    ensures Decorate(Canonical(formatted, m), formatted) == Canonical(formatted, m)
    ensures DigitFilter(Canonical(formatted, m)) == formatted
  {
    MarkersOfCanonical(formatted, m);
    DecoratedWith(m, formatted);
    FilterCanonical(formatted, m);
  }

  /** For the text "95%", the first and last frames read "2%" and "95%": the
      first tick adds the increment 95 / 50 before formatting, and
      `(1.9).toFixed(0)` is "2"; "0%" is never shown. */
  lemma PercentFrames()
    ensures Decorate("95%", "2") == "2%"
    ensures Decorate("95%", "95") == "95%"
  {
    var m := Markers(false, true, false, false, false);
    assert Canonical("95", m) == "95%";
    MarkersOfCanonical("95", m);
    DecoratedWith(m, "2");
    DecoratedWith(m, "95");
  }

  /** Markers out of canonical order come back reordered: "5K%" ends as "5%K". */
  lemma NonCanonicalOrderIsReordered()
    ensures Decorate("5K%", "5") == "5%K"
  {
    IncludesPiece("5K", "%", "");
    assert "5K" + "%" + "" == "5K%";
    IncludesPiece("5", "K", "%");
    assert "5" + "K" + "%" == "5K%";
    if Includes("5K%", "ms") { IncludesFirstChar("5K%", "ms"); assert false; }
    if Includes("5K%", "x") { IncludesFirstChar("5K%", "x"); assert false; }
    if Includes("5K%", "$") { IncludesFirstChar("5K%", "$"); assert false; }
  }

  /** Markers are found anywhere in the text, also inside words: a label
      "24 Teams" gets an "ms" suffix. */
  lemma MarkerInsideWord()
    ensures Decorate("24 Teams", "24") == "24ms"
  {
    TeamsMarkers();
    DecoratedWith(Markers(false, false, true, false, false), "24");
  }

  lemma TeamsMarkers()
    ensures MarkersOf("24 Teams") == Markers(false, false, true, false, false)
  {
    IncludesPiece("24 Tea", "ms", "");
    assert "24 Tea" + "ms" + "" == "24 Teams";
    if Includes("24 Teams", "%") { IncludesFirstChar("24 Teams", "%"); assert false; }
    if Includes("24 Teams", "x") { IncludesFirstChar("24 Teams", "x"); assert false; }
    if Includes("24 Teams", "$") { IncludesFirstChar("24 Teams", "$"); assert false; }
    if Includes("24 Teams", "K") { IncludesFirstChar("24 Teams", "K"); assert false; }
  }
}
