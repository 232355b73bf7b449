/**
 * The string operations behind a comma-separated single key:
 * `text.Split(',').Select(p => p.Trim()).Where(p => p.Length > 0)`.
 */
module Text {

  /** Char.IsWhiteSpace: U+0009..U+000D, U+0020, U+0085, U+00A0, U+1680, U+2000..U+200A,
      U+2028, U+2029, U+202F, U+205F and U+3000. */
  predicate IsWhiteSpace(c: char) {
    var n := c as int;
    (9 <= n <= 13) || n == 0x20 || n == 0x85 || n == 0xA0 || n == 0x1680
    || (0x2000 <= n <= 0x200A) || n == 0x2028 || n == 0x2029 || n == 0x202F
    || n == 0x205F || n == 0x3000
  }

  predicate AllWhiteSpace(s: string) {
    forall i :: 0 <= i < |s| ==> IsWhiteSpace(s[i])
  }

  /** True of a string that String.Trim leaves as it is. */
  predicate Trimmed(s: string) {
    s == [] || (!IsWhiteSpace(s[0]) && !IsWhiteSpace(s[|s| - 1]))
  }

  /** String.TrimStart(): drops the leading white space, and only that. */
  function TrimStart(s: string): (r: string)
    ensures |r| <= |s| && r == s[|s| - |r|..]
    ensures r == [] || !IsWhiteSpace(r[0])
    ensures AllWhiteSpace(s[..|s| - |r|])
  {
    if |s| > 0 && IsWhiteSpace(s[0]) then
      var r := TrimStart(s[1..]);
      assert s[..|s| - |r|] == [s[0]] + s[1..][..|s[1..]| - |r|];
      AllWhiteSpaceAppend([s[0]], s[1..][..|s[1..]| - |r|]);
      r
    else s
  }

  /** String.TrimEnd(): drops the trailing white space, and only that. */
  function TrimEnd(s: string): (r: string)
    ensures |r| <= |s| && r == s[..|r|]
    ensures r == [] || !IsWhiteSpace(r[|r| - 1])
    ensures AllWhiteSpace(s[|r|..])
  {
    if |s| > 0 && IsWhiteSpace(s[|s| - 1]) then
      var r := TrimEnd(s[..|s| - 1]);
      assert s[|r|..] == s[..|s| - 1][|r|..] + [s[|s| - 1]];
      AllWhiteSpaceAppend(s[..|s| - 1][|r|..], [s[|s| - 1]]);
      r
    else s
  }

  /** String.Trim(): the infix left once white space is dropped at both ends. */
  function Trim(s: string): (r: string)
  {
    TrimEnd(TrimStart(s))
  }

  /** Trim yields an infix of its input with white space outside it. */
  lemma TrimIsInfix(s: string)
    ensures exists i, j ::
      && 0 <= i <= j <= |s| && Trim(s) == s[i..j]
      && AllWhiteSpace(s[..i]) && AllWhiteSpace(s[j..])
  {
    var a := TrimStart(s);
    var b := TrimEnd(a);
    var i := |s| - |a|;
    var j := i + |b|;
    assert Trim(s) == s[i..j] by {
      assert a == s[i..] && b == a[..|b|];
    }
    assert AllWhiteSpace(s[j..]) by {
      assert a == s[i..] && s[j..] == a[|b|..];
    }
    assert AllWhiteSpace(s[..i]);
  }

  /** Trim leaves no white space at either end. */
  lemma TrimIsTrimmed(s: string)
    ensures Trimmed(Trim(s))
  {
    var a := TrimStart(s);
    var b := TrimEnd(a);
    if b != [] {
      assert b[0] == a[0];
    }
  }

  /** A string is trimmed to nothing exactly when it is all white space. */
  lemma TrimEmpty(s: string)
    ensures Trim(s) == [] <==> AllWhiteSpace(s)
  {
    var a := TrimStart(s);
    assert s == s[..|s| - |a|] + a;
    AllWhiteSpaceAppend(s[..|s| - |a|], a);
  }

  lemma AllWhiteSpaceAppend(x: string, y: string)
    ensures AllWhiteSpace(x + y) <==> AllWhiteSpace(x) && AllWhiteSpace(y)
  {
    if AllWhiteSpace(x + y) {
      forall i | 0 <= i < |x| ensures IsWhiteSpace(x[i]) {
        assert (x + y)[i] == x[i];
      }
      forall i | 0 <= i < |y| ensures IsWhiteSpace(y[i]) {
        assert (x + y)[|x| + i] == y[i];
      }
    }
    if AllWhiteSpace(x) && AllWhiteSpace(y) {
      forall i | 0 <= i < |x + y| ensures IsWhiteSpace((x + y)[i]) {
        if i < |x| {
          assert (x + y)[i] == x[i];
        } else {
          assert (x + y)[i] == y[i - |x|];
        }
      }
    }
  }

  /** Trimming a trimmed string changes nothing. */
  lemma TrimTrimmed(s: string)
    requires Trimmed(s)
    ensures Trim(s) == s
  {
  }

  /**
   * String.Split(sep): the pieces between separators, empty pieces included;
   * a string without the separator is one piece.
   */
  function Split(s: string, sep: char): (parts: seq<string>)
    ensures |parts| >= 1
  {
    if s == [] then [""]
    else
      var rest := Split(s[1..], sep);
      if s[0] == sep then [""] + rest else [[s[0]] + rest[0]] + rest[1..]
  }

  /** String.Join(sep, parts). */
  function Join(parts: seq<string>, sep: char): string
  {
    if parts == [] then ""
    else if |parts| == 1 then parts[0]
    else parts[0] + [sep] + Join(parts[1..], sep)
  }

  /** Joining the pieces of a split restores the original string. */
  lemma {:induction false} JoinSplit(s: string, sep: char)
    ensures Join(Split(s, sep), sep) == s
  {
    if s != [] {
      var rest := Split(s[1..], sep);
      JoinSplit(s[1..], sep);
      if s[0] == sep {
        assert Split(s, sep) == [""] + rest;
      } else {
        var parts := Split(s, sep);
        assert parts == [[s[0]] + rest[0]] + rest[1..];
        if |rest| == 1 {
          assert Join(parts, sep) == [s[0]] + rest[0];
        } else {
          assert parts[1..] == rest[1..];
          assert Join(rest, sep) == rest[0] + [sep] + Join(rest[1..], sep);
        }
      }
    }
  }

  /** No piece of a split contains the separator. */
  lemma {:induction false} SplitPiecesFree(s: string, sep: char)
    ensures forall k :: 0 <= k < |Split(s, sep)| ==> sep !in Split(s, sep)[k]
  {
    if s != [] {
      SplitPiecesFree(s[1..], sep);
    }
  }

  /** Splitting a string without the separator gives that string back as the only piece. */
  lemma {:induction false} SplitFree(s: string, sep: char)
    requires sep !in s
    ensures Split(s, sep) == [s]
  {
    if s != [] {
      assert s[0] in s;
      SplitFree(s[1..], sep);
      assert [s[0]] + s[1..] == s;
    }
  }

  /** A piece free of the separator, then the separator: the piece comes off on its own. */
  lemma {:induction false} SplitCons(p: string, sep: char, t: string)
    requires sep !in p
    ensures Split(p + [sep] + t, sep) == [p] + Split(t, sep)
  {
    if p != [] {
      assert p[0] in p;
      assert forall c :: c in p[1..] ==> c in p;
      SplitCons(p[1..], sep, t);
      assert (p + [sep] + t)[1..] == p[1..] + [sep] + t;
      assert [p[0]] + p[1..] == p;
    } else {
      assert p + [sep] + t == [sep] + t;
    }
  }

  /** Splitting a join of separator-free pieces returns those pieces. */
  lemma {:induction false} SplitJoin(parts: seq<string>, sep: char)
    requires |parts| >= 1
    requires forall k :: 0 <= k < |parts| ==> sep !in parts[k]
    ensures Split(Join(parts, sep), sep) == parts
  {
    if |parts| == 1 {
      SplitFree(parts[0], sep);
    } else {
      SplitJoin(parts[1..], sep);
      SplitCons(parts[0], sep, Join(parts[1..], sep));
    }
  }

  function TrimAll(parts: seq<string>): (r: seq<string>)
    ensures |r| == |parts|
    ensures forall k :: 0 <= k < |parts| ==> r[k] == Trim(parts[k])
  {
    seq(|parts|, k requires 0 <= k < |parts| => Trim(parts[k]))
  }

  function NonEmpty(parts: seq<string>): seq<string>
  {
    if parts == [] then [] else if parts[0] == "" then NonEmpty(parts[1..]) else [parts[0]] + NonEmpty(parts[1..])
  }

  /** The non-empty trimmed comma-separated segments of a single key string, in order. */
  function KeySegments(text: string): seq<string>
  {
    NonEmpty(TrimAll(Split(text, ',')))
  }

  /** The empty string names no key. */
  lemma NoSegmentsOfEmpty()
    ensures KeySegments("") == []
  {
    calc {
      KeySegments("");
      NonEmpty(TrimAll(Split("", ',')));
      { assert Split("", ',') == [""]; }
      NonEmpty(TrimAll([""]));
      { assert TrimStart("") == "" && TrimEnd("") == ""; assert TrimAll([""]) == [""]; }
      NonEmpty([""]);
      [];
    }
  }

  /** A segment as KeySegments produces it: non-empty, trimmed and free of commas. */
  predicate Segment(s: string) {
    s != "" && Trimmed(s) && ',' !in s
  }

  lemma {:induction false} NonEmptyKeeps(parts: seq<string>, P: string -> bool)
    requires forall k :: 0 <= k < |parts| ==> P(parts[k])
    ensures forall k :: 0 <= k < |NonEmpty(parts)| ==> P(NonEmpty(parts)[k]) && NonEmpty(parts)[k] != ""
  {
    if parts != [] {
      NonEmptyKeeps(parts[1..], P);
    }
  }

  /** Trimming never brings in a comma. */
  lemma TrimFree(s: string, c: char)
    requires c !in s
    ensures c !in Trim(s)
  {
    TrimIsInfix(s);
    var i, j :| 0 <= i <= j <= |s| && Trim(s) == s[i..j];
    var t := Trim(s);
    forall k | 0 <= k < |t|
      ensures t[k] != c
    {
      assert t[k] == s[i + k];
    }
  }

  /** Every segment of a key string is non-empty, trimmed and free of commas. */
  lemma SegmentsWellFormed(text: string)
    ensures forall k :: 0 <= k < |KeySegments(text)| ==> Segment(KeySegments(text)[k])
  {
    var pieces := Split(text, ',');
    SplitPiecesFree(text, ',');
    var trimmed := TrimAll(pieces);
    forall k | 0 <= k < |trimmed| ensures Trimmed(trimmed[k]) && ',' !in trimmed[k] {
      TrimIsTrimmed(pieces[k]);
      TrimFree(pieces[k], ',');
    }
    NonEmptyKeeps(trimmed, s => Trimmed(s) && ',' !in s);
  }

  /** Well-formed segments written with commas between them are read back unchanged. */
  lemma SegmentsRoundTrip(segments: seq<string>)
    requires |segments| >= 1
    requires forall k :: 0 <= k < |segments| ==> Segment(segments[k])
    ensures KeySegments(Join(segments, ',')) == segments
  {
    SplitJoin(segments, ',');
    assert TrimAll(segments) == segments by {
      forall k | 0 <= k < |segments| ensures Trim(segments[k]) == segments[k] {
        TrimTrimmed(segments[k]);
      }
    }
    NonEmptyAll(segments);
  }

  lemma {:induction false} NonEmptyAll(parts: seq<string>)
    requires forall k :: 0 <= k < |parts| ==> parts[k] != ""
    ensures NonEmpty(parts) == parts
  {
    if parts != [] {
      NonEmptyAll(parts[1..]);
    }
  }

  /** True of a string made only of commas and white space. */
  predicate Blank(s: string) {
    forall i :: 0 <= i < |s| ==> s[i] == ',' || IsWhiteSpace(s[i])
  }

  lemma {:induction false} NonEmptyNone(parts: seq<string>)
    ensures NonEmpty(parts) == [] <==> forall k :: 0 <= k < |parts| ==> parts[k] == ""
  {
    if parts != [] {
      NonEmptyNone(parts[1..]);
      if NonEmpty(parts) == [] {
        forall k | 0 <= k < |parts| ensures parts[k] == "" {
          if k > 0 { assert parts[k] == parts[1..][k - 1]; }
        }
      }
      if forall k :: 0 <= k < |parts| ==> parts[k] == "" {
        assert forall k :: 0 <= k < |parts[1..]| ==> parts[1..][k] == parts[k + 1];
      }
    }
  }

  predicate AllPiecesWhite(parts: seq<string>) {
    forall k :: 0 <= k < |parts| ==> AllWhiteSpace(parts[k])
  }

  lemma AllPiecesWhiteCons(p: string, parts: seq<string>)
    ensures AllPiecesWhite([p] + parts) <==> AllWhiteSpace(p) && AllPiecesWhite(parts)
  {
    var all := [p] + parts;
    if AllPiecesWhite(all) {
      assert all[0] == p;
      forall k | 0 <= k < |parts| ensures AllWhiteSpace(parts[k]) {
        assert all[k + 1] == parts[k];
      }
    }
    if AllWhiteSpace(p) && AllPiecesWhite(parts) {
      forall k | 0 <= k < |all| ensures AllWhiteSpace(all[k]) {
        if k > 0 {
          assert all[k] == parts[k - 1];
        }
      }
    }
  }

  /** Every piece of a split of `s` is white space exactly when `s` is blank. */
  lemma {:induction false} SplitWhite(s: string)
    ensures AllPiecesWhite(Split(s, ',')) <==> Blank(s)
  {
    if s != [] {
      SplitWhite(s[1..]);
      var rest := Split(s[1..], ',');
      assert Blank(s) <==> (s[0] == ',' || IsWhiteSpace(s[0])) && Blank(s[1..]) by {
        assert forall i :: 0 < i < |s| ==> s[i] == s[1..][i - 1];
      }
      if s[0] == ',' {
        assert Split(s, ',') == [""] + rest;
        AllPiecesWhiteCons("", rest);
      } else {
        assert rest == [rest[0]] + rest[1..];
        assert Split(s, ',') == [[s[0]] + rest[0]] + rest[1..];
        assert AllWhiteSpace([s[0]]) <==> IsWhiteSpace(s[0]) by {
          assert [s[0]][0] == s[0];
        }
        AllPiecesWhiteCons(rest[0], rest[1..]);
        AllPiecesWhiteCons([s[0]] + rest[0], rest[1..]);
        AllWhiteSpaceAppend([s[0]], rest[0]);
      }
    }
  }

  /** A key string has no segment exactly when it is made only of commas and white space. */
  lemma NoSegmentsIffBlank(text: string)
    ensures KeySegments(text) == [] <==> Blank(text)
  {
    var pieces := Split(text, ',');
    var trimmed := TrimAll(pieces);
    NonEmptyNone(trimmed);
    forall k | 0 <= k < |pieces| ensures trimmed[k] == [] <==> AllWhiteSpace(pieces[k]) {
      TrimEmpty(pieces[k]);
    }
    SplitWhite(text);
  }
}
