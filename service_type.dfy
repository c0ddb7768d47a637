/**
 * `getServiceType` (js/main.js:309-312): the service a diagram element stands
 * for, read from its class attribute. The attribute is split on single
 * spaces, the first piece other than "aws-service" is taken, and a missing
 * or empty piece becomes "unknown".
 */
module ServiceType {
  import opened Wrappers

  const Marker: string := "aws-service"
  const Unknown: string := "unknown"

  /** `s.split(sep)` for a one-character separator: the pieces between
      separators, empty ones included; the empty string gives [""]. */
  function Split(s: string, sep: char): (r: seq<string>)
    ensures |r| >= 1
    ensures forall k :: 0 <= k < |r| ==> sep !in r[k]
    decreases |s|
  {
    if |s| == 0 then [""]
    else if s[0] == sep then [""] + Split(s[1..], sep)
    else
      var rest := Split(s[1..], sep);
      [[s[0]] + rest[0]] + rest[1..]
  }

  /** `pieces.join(sep)`. */
  function Join(pieces: seq<string>, sep: char): string
    decreases |pieces|
  {
    if |pieces| == 0 then ""
    else if |pieces| == 1 then pieces[0]
    else pieces[0] + [sep] + Join(pieces[1..], sep)
  }

  lemma JoinConsHead(c: char, pieces: seq<string>, sep: char)
    requires |pieces| >= 1
    ensures Join([[c] + pieces[0]] + pieces[1..], sep) == [c] + Join(pieces, sep)
  {
    var q := [[c] + pieces[0]] + pieces[1..];
    assert q[1..] == pieces[1..];
  }

  /** Joining the pieces back gives the original string. */
  lemma {:induction false} JoinSplit(s: string, sep: char)
    ensures Join(Split(s, sep), sep) == s
    decreases |s|
  {
    if |s| == 0 {
    } else if s[0] == sep {
      JoinSplit(s[1..], sep);
      var rest := Split(s[1..], sep);
      assert ([""] + rest)[1..] == rest;
      assert s == [sep] + s[1..];
    } else {
      JoinSplit(s[1..], sep);
      JoinConsHead(s[0], Split(s[1..], sep), sep);
      assert s == [s[0]] + s[1..];
    }
  }

  lemma {:induction false} SplitAfterPiece(a: string, b: string, sep: char)
    requires sep !in a
    ensures Split(a + [sep] + b, sep) == [a] + Split(b, sep)
    decreases |a|
  {
    if |a| == 0 {
      assert a + [sep] + b == [sep] + b;
      assert ([sep] + b)[1..] == b;
    } else {
      var s := a + [sep] + b;
      assert s[0] == a[0];
      assert s[1..] == a[1..] + [sep] + b;
      SplitAfterPiece(a[1..], b, sep);
      assert [a[0]] + a[1..] == a;
    }
  }

  lemma {:induction false} SplitPiece(a: string, sep: char)
    requires sep !in a
    ensures Split(a, sep) == [a]
    decreases |a|
  {
    if |a| > 0 {
      SplitPiece(a[1..], sep);
      assert [a[0]] + a[1..] == a;
    }
  }

  /** Splitting a join of separator-free pieces gives the pieces back, so a
      split is the only way to cut a string into such pieces. */
  lemma {:induction false} SplitJoin(pieces: seq<string>, sep: char)
    requires |pieces| >= 1
    requires forall k :: 0 <= k < |pieces| ==> sep !in pieces[k]
    ensures Split(Join(pieces, sep), sep) == pieces
    decreases |pieces|
  {
    if |pieces| == 1 {
      SplitPiece(pieces[0], sep);
    } else {
      SplitJoin(pieces[1..], sep);
      SplitAfterPiece(pieces[0], Join(pieces[1..], sep), sep);
      assert [pieces[0]] + pieces[1..] == pieces;
    }
  }

  /** Index of the first piece other than `marker`; |pieces| when there is none
      (what `Array.prototype.find` scans for). */
  function FirstOtherThan(pieces: seq<string>, marker: string): (k: nat)
    ensures k <= |pieces|
    ensures forall j :: 0 <= j < k ==> pieces[j] == marker
    ensures k < |pieces| ==> pieces[k] != marker
    decreases |pieces|
  {
    if |pieces| == 0 || pieces[0] != marker then 0
    else 1 + FirstOtherThan(pieces[1..], marker)
  }

  /** `i` is where `find` stops: the first piece that is not the marker. */
  ghost predicate FirstNonMarkerAt(pieces: seq<string>, i: int)
  {
    0 <= i < |pieces| && pieces[i] != Marker &&
    forall j :: 0 <= j < i ==> pieces[j] == Marker
  }

  /** `classes.find(cls => cls !== 'aws-service')`. */
  function Find(pieces: seq<string>): (r: Option<string>)
    ensures r.None? <==> forall j :: 0 <= j < |pieces| ==> pieces[j] == Marker
    ensures r.Some? ==> r.value != Marker && r.value in pieces
    ensures r.Some? ==>
      FirstOtherThan(pieces, Marker) < |pieces| && r.value == pieces[FirstOtherThan(pieces, Marker)]
  {
    var k := FirstOtherThan(pieces, Marker);
    if k < |pieces| then Some(pieces[k]) else None
  }

  /** `getServiceType` on an element whose class attribute is `className`. */
  function GetServiceType(className: string): (r: string)
    ensures r != "" && r != Marker
    ensures var pieces := Split(className, ' ');
      || ((forall j :: 0 <= j < |pieces| ==> pieces[j] == Marker) && r == Unknown)
      || (exists i :: FirstNonMarkerAt(pieces, i) &&
                     r == (if pieces[i] == "" then Unknown else pieces[i]))
  {
    var found := Find(Split(className, ' '));
    if found.None? || found.value == "" then Unknown else found.value
  }

  /** A leading space makes the first piece empty, so the result is "unknown"
      whatever follows. */
  lemma LeadingSpaceIsUnknown(className: string)
    requires |className| > 0 && className[0] == ' '
    ensures GetServiceType(className) == Unknown
  {
    assert Split(className, ' ')[0] == "";
  }

  /** A doubled space after the marker also yields an empty piece first. */
  lemma DoubledSpaceIsUnknown(rest: string)
    ensures GetServiceType(Marker + "  " + rest) == Unknown
  {
    assert ' ' !in Marker;
    SplitAfterPiece(Marker, " " + rest, ' ');
    assert Marker + "  " + rest == Marker + [' '] + (" " + rest);
    assert Split(" " + rest, ' ')[0] == "";
  }

  /** For a class attribute written as single-space-separated names, the result is
      the first name after any leading markers, unless that name is missing. */
  lemma {:induction false} ServiceTypeOfNames(names: seq<string>, i: nat)
    requires |names| >= 1
    requires forall k :: 0 <= k < |names| ==> ' ' !in names[k]
    requires i < |names| && names[i] != "" && names[i] != Marker
    requires forall j :: 0 <= j < i ==> names[j] == Marker
    ensures GetServiceType(Join(names, ' ')) == names[i]
  {
    SplitJoin(names, ' ');
    var k := FirstOtherThan(names, Marker);
    assert k == i;
  }

  lemma ServiceTypeOfTypicalElement()
    ensures GetServiceType("aws-service lambda") == "lambda"
  {
    var names := [Marker, "lambda"];
    assert names[1..] == ["lambda"];
    assert Join(names, ' ') == Marker + [' '] + "lambda";
    assert Marker + [' '] + "lambda" == "aws-service lambda";
    ServiceTypeOfNames(names, 1);
  }

  lemma ServiceTypeOfMarkerOnly()
    ensures GetServiceType(Marker) == Unknown
  {
    SplitPiece(Marker, ' ');
  }

  lemma ServiceTypeOfEmptyClass()
    ensures GetServiceType("") == Unknown
  {
  }
}
