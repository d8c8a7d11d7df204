/** Text primitives the conflict parser relies on: Python's whitespace set and
    `str.strip`, line-ending normalisation, and `split("\n")` / `"\n".join`.
    Strings are sequences of Unicode scalar values. */
module Text {

  /** The characters Python's `str.strip()` (and the `\s` regex class) treat as
      whitespace: U+0009..U+000D, U+001C..U+0020, U+0085, U+00A0, U+1680,
      U+2000..U+200A, U+2028, U+2029, U+202F, U+205F and U+3000. */
  predicate IsSpace(c: char) {
    || ('\t' <= c <= '\r')
    || ('\U{1C}' <= c <= ' ')
    || c == '\U{85}' || c == '\U{A0}' || c == '\U{1680}'
    || ('\U{2000}' <= c <= '\U{200A}')
    || c == '\U{2028}' || c == '\U{2029}' || c == '\U{202F}' || c == '\U{205F}'
    || c == '\U{3000}'
  }

  predicate AllSpace(s: string) {
    forall k :: 0 <= k < |s| ==> IsSpace(s[k])
  }

  /** Drops leading whitespace. */
  function TrimStart(s: string): string
    decreases |s|
  {
    if |s| > 0 && IsSpace(s[0]) then TrimStart(s[1..]) else s
  }

  /** Drops trailing whitespace. */
  function TrimEnd(s: string): string
    decreases |s|
  {
    if |s| > 0 && IsSpace(s[|s| - 1]) then TrimEnd(s[..|s| - 1]) else s
  }

  /** Python's `s.strip()`. */
  function Strip(s: string): string {
    TrimEnd(TrimStart(s))
  }

  /** `TrimStart` removes exactly the leading run of whitespace. */
  lemma {:induction false} TrimStartSpec(s: string)
    ensures var r := TrimStart(s);
            |r| <= |s| && r == s[|s| - |r|..] && AllSpace(s[..|s| - |r|])
            && (|r| > 0 ==> !IsSpace(r[0]))
    decreases |s|
  {
    if |s| > 0 && IsSpace(s[0]) {
      var t := s[1..];
      TrimStartSpec(t);
      var r := TrimStart(t);
      assert TrimStart(s) == r;
      assert r == s[|s| - |r|..];
      forall k | 0 <= k < |s| - |r|
        ensures IsSpace(s[k])
      {
        if k > 0 {
          assert s[k] == t[..|t| - |r|][k - 1];
        }
      }
    }
  }

  /** `TrimEnd` removes exactly the trailing run of whitespace. */
  lemma {:induction false} TrimEndSpec(s: string)
    ensures var r := TrimEnd(s);
            |r| <= |s| && r == s[..|r|] && AllSpace(s[|r|..])
            && (|r| > 0 ==> !IsSpace(r[|r| - 1]))
    decreases |s|
  {
    if |s| > 0 && IsSpace(s[|s| - 1]) {
      var t := s[..|s| - 1];
      TrimEndSpec(t);
      var r := TrimEnd(t);
      assert TrimEnd(s) == r;
      assert r == s[..|r|];
      forall k | |r| <= k < |s|
        ensures IsSpace(s[k])
      {
        if k < |s| - 1 {
          assert s[k] == t[|r|..][k - |r|];
        }
      }
    }
  }

  /** Where the stripped text starts: after the leading whitespace run. */
  function StripStart(s: string): nat {
    TrimStartSpec(s);
    |s| - |TrimStart(s)|
  }

  /** `Strip` keeps the infix of `s` at `StripStart(s)`, which neither starts
      nor ends with whitespace, everything cut away on either side being
      whitespace. */
  lemma StripAt(s: string)
    ensures var a := StripStart(s);
            var r := Strip(s);
            a + |r| <= |s| && r == s[a..a + |r|]
            && AllSpace(s[..a]) && AllSpace(s[a + |r|..])
            && (|r| > 0 ==> !IsSpace(r[0]) && !IsSpace(r[|r| - 1]))
  {
    var t := TrimStart(s);
    TrimStartSpec(s);
    TrimEndSpec(t);
    var r := TrimEnd(t);
    var a := |s| - |t|;
    assert t == s[a..];
    assert r == s[a..a + |r|];
    assert s[a + |r|..] == t[|r|..];
    if |r| > 0 {
      assert r[0] == t[0];
    }
  }

  /** `Strip` keeps an infix of `s` that neither starts nor ends with
      whitespace, everything cut away on either side being whitespace. */
  lemma StripSpec(s: string)
    ensures var r := Strip(s);
            exists a :: 0 <= a && a + |r| <= |s| && r == s[a..a + |r|]
                        && AllSpace(s[..a]) && AllSpace(s[a + |r|..])
    ensures var r := Strip(s);
            |r| > 0 ==> !IsSpace(r[0]) && !IsSpace(r[|r| - 1])
  {
    StripAt(s);
    var a := StripStart(s);
    var r := Strip(s);
    assert 0 <= a && a + |r| <= |s| && r == s[a..a + |r|]
           && AllSpace(s[..a]) && AllSpace(s[a + |r|..]);
  }

  /** A string strips to nothing exactly when it is all whitespace. */
  lemma StripEmptyIffAllSpace(s: string)
    ensures Strip(s) == [] <==> AllSpace(s)
  {
    StripSpec(s);
    var r := Strip(s);
    var a :| 0 <= a && a + |r| <= |s| && r == s[a..a + |r|]
              && AllSpace(s[..a]) && AllSpace(s[a + |r|..]);
    if r == [] {
      forall k | 0 <= k < |s| ensures IsSpace(s[k]) {
        if k < a { assert s[..a][k] == s[k]; } else { assert s[a..][k - a] == s[k]; }
      }
    } else {
      assert r[0] == s[a];
    }
  }

  /** Stripping is idempotent. */
  lemma StripIdempotent(s: string)
    ensures Strip(Strip(s)) == Strip(s)
  {
    StripSpec(s);
    var r := Strip(s);
    if |r| > 0 {
      StripUnchanged(r);
    } else {
      assert TrimStart(r) == r;
    }
  }

  // ---------------------------------------------------------------------------
  // Line-ending normalisation
  // ---------------------------------------------------------------------------

  /** Python's `s.replace("\r\n", "\n")`: non-overlapping, left to right. */
  function ReplaceCrLf(s: string): string
    decreases |s|
  {
    if |s| == 0 then []
    else if |s| >= 2 && s[0] == '\r' && s[1] == '\n' then ['\n'] + ReplaceCrLf(s[2..])
    else [s[0]] + ReplaceCrLf(s[1..])
  }

  /** Python's `s.replace("\r", "\n")`: no CR is left, every other character
      stays where it was, and LF stands exactly where the input had a line
      break of either kind. */
  function CrToLf(s: string): (r: string)
    ensures |r| == |s|
    ensures '\r' !in r
    ensures forall k :: 0 <= k < |s| && s[k] != '\r' ==> r[k] == s[k]
    ensures forall k :: 0 <= k < |s| ==> (r[k] == '\n' <==> s[k] == '\r' || s[k] == '\n')
  {
    seq(|s|, k requires 0 <= k < |s| => if s[k] == '\r' then '\n' else s[k])
  }

  /** The normalisation the parser applies first: CRLF, then lone CR, become LF. */
  function Normalize(s: string): (r: string)
    ensures '\r' !in r
  {
    CrToLf(ReplaceCrLf(s))
  }

  /** Reference reading of the normalisation: one pass in which each line
      break, whether CRLF, lone CR or LF, becomes a single LF. */
  function UniversalNewlines(s: string): string
    decreases |s|
  {
    if |s| == 0 then []
    else if |s| >= 2 && s[0] == '\r' && s[1] == '\n' then ['\n'] + UniversalNewlines(s[2..])
    else if s[0] == '\r' then ['\n'] + UniversalNewlines(s[1..])
    else [s[0]] + UniversalNewlines(s[1..])
  }

  /** Number of line breaks, a CRLF pair counting once. */
  function LineBreaks(s: string): nat
    decreases |s|
  {
    if |s| == 0 then 0
    else if |s| >= 2 && s[0] == '\r' && s[1] == '\n' then 1 + LineBreaks(s[2..])
    else if s[0] == '\r' || s[0] == '\n' then 1 + LineBreaks(s[1..])
    else LineBreaks(s[1..])
  }

  lemma CrToLfAppend(a: string, b: string)
    ensures CrToLf(a + b) == CrToLf(a) + CrToLf(b)
  {
  }

  /** Each CR becomes one more LF, so splitting on LF afterwards sees one
      piece per line break of either kind. */
  lemma {:induction false} CrToLfLineBreaks(s: string)
    ensures CountChar(CrToLf(s), '\n') == CountChar(s, '\n') + CountChar(s, '\r')
    decreases |s|
  {
    if |s| > 0 {
      assert s == [s[0]] + s[1..];
      CrToLfAppend([s[0]], s[1..]);
      CrToLfLineBreaks(s[1..]);
      var r := CrToLf(s);
      assert r == CrToLf([s[0]]) + CrToLf(s[1..]);
      assert r[1..] == CrToLf(s[1..]);
    }
  }

  /** The two chained replacements agree with the one-pass reading. */
  lemma {:induction false} NormalizeIsUniversalNewlines(s: string)
    ensures Normalize(s) == UniversalNewlines(s)
    decreases |s|
  {
    if |s| == 0 {
    } else if |s| >= 2 && s[0] == '\r' && s[1] == '\n' {
      var rest := ReplaceCrLf(s[2..]);
      assert ReplaceCrLf(s) == ['\n'] + rest;
      CrToLfAppend(['\n'], rest);
      assert CrToLf(['\n']) == ['\n'];
      NormalizeIsUniversalNewlines(s[2..]);
      assert Normalize(s) == ['\n'] + Normalize(s[2..]);
    } else {
      var rest := ReplaceCrLf(s[1..]);
      assert ReplaceCrLf(s) == [s[0]] + rest;
      CrToLfAppend([s[0]], rest);
      assert CrToLf([s[0]]) == [if s[0] == '\r' then '\n' else s[0]];
      NormalizeIsUniversalNewlines(s[1..]);
      assert Normalize(s) == [if s[0] == '\r' then '\n' else s[0]] + Normalize(s[1..]);
    }
  }

  /** Normalisation leaves a text that has no CR untouched. */
  lemma {:induction false} NormalizeWithoutCr(s: string)
    requires '\r' !in s
    ensures Normalize(s) == s
    decreases |s|
  {
    NormalizeIsUniversalNewlines(s);
    UniversalWithoutCr(s);
  }

  lemma {:induction false} UniversalWithoutCr(s: string)
    requires '\r' !in s
    ensures UniversalNewlines(s) == s
    decreases |s|
  {
    if |s| > 0 {
      assert s == [s[0]] + s[1..];
      UniversalWithoutCr(s[1..]);
    }
  }

  // ---------------------------------------------------------------------------
  // Splitting on and joining with LF
  // ---------------------------------------------------------------------------

  function CountChar(s: string, c: char): nat
    decreases |s|
  {
    if |s| == 0 then 0 else (if s[0] == c then 1 else 0) + CountChar(s[1..], c)
  }

  /** Python's `s.split("\n")`: always at least one piece, none holding LF,
      one more piece than there are LF characters. */
  function Split(s: string): (r: seq<string>)
    ensures |r| == CountChar(s, '\n') + 1
    decreases |s|
  {
    if |s| == 0 then [[]]
    else
      var rest := Split(s[1..]);
      if s[0] == '\n' then [[]] + rest
      else [[s[0]] + rest[0]] + rest[1..]
  }

  /** No piece of a split holds LF. */
  lemma {:induction false} SplitHasNoNewline(s: string)
    ensures forall j :: 0 <= j < |Split(s)| ==> '\n' !in Split(s)[j]
    decreases |s|
  {
    if |s| > 0 {
      SplitHasNoNewline(s[1..]);
    }
  }

  /** Python's `"\n".join(ls)`. */
  function Join(ls: seq<string>): string
    decreases |ls|
  {
    if |ls| == 0 then []
    else if |ls| == 1 then ls[0]
    else ls[0] + "\n" + Join(ls[1..])
  }

  /** Joining the pieces of a split gives back the text. */
  lemma {:induction false} JoinSplit(s: string)
    ensures Join(Split(s)) == s
    decreases |s|
  {
    if |s| > 0 {
      var rest := Split(s[1..]);
      JoinSplit(s[1..]);
      if s[0] == '\n' {
        assert Split(s) == [[]] + rest;
        assert ([[]] + rest)[1..] == rest;
      } else {
        var r := [[s[0]] + rest[0]] + rest[1..];
        assert Split(s) == r;
        if |rest| == 1 {
        } else {
          assert r[1..] == rest[1..];
          assert Join(rest) == rest[0] + "\n" + Join(rest[1..]);
        }
      }
    }
  }

  /** Splitting a join of LF-free lines gives back the lines. */
  lemma {:induction false} SplitJoin(ls: seq<string>)
    requires |ls| >= 1
    requires forall j :: 0 <= j < |ls| ==> '\n' !in ls[j]
    ensures Split(Join(ls)) == ls
    decreases |ls|, |ls[0]|
  {
    if |ls[0]| == 0 {
      if |ls| > 1 {
        var t := Join(ls[1..]);
        assert Join(ls) == "\n" + t;
        assert ("\n" + t)[1..] == t;
        SplitJoin(ls[1..]);
      }
    } else {
      var c := ls[0][0];
      var ls' := [ls[0][1..]] + ls[1..];
      assert Join(ls) == [c] + Join(ls');
      assert ([c] + Join(ls'))[1..] == Join(ls');
      SplitJoin(ls');
      assert [c] + ls'[0] == ls[0];
      assert ls'[1..] == ls[1..];
      assert ls == [[c] + ls'[0]] + ls'[1..];
    }
  }

  /** A text is all whitespace exactly when each of its lines is. */
  lemma {:induction false} AllSpaceJoin(ls: seq<string>)
    ensures AllSpace(Join(ls)) <==> forall j :: 0 <= j < |ls| ==> AllSpace(ls[j])
    decreases |ls|
  {
    if |ls| > 1 {
      AllSpaceJoin(ls[1..]);
      AllSpaceAppend(ls[0] + "\n", Join(ls[1..]));
      AllSpaceAppend(ls[0], "\n");
      assert forall j :: 1 <= j < |ls| ==> ls[j] == ls[1..][j - 1];
    }
  }

  /** A text that neither starts nor ends with whitespace is its own strip. */
  lemma StripUnchanged(s: string)
    requires |s| > 0 && !IsSpace(s[0]) && !IsSpace(s[|s| - 1])
    ensures Strip(s) == s
  {
    assert TrimStart(s) == s;
    assert TrimEnd(s) == s;
  }

  /** Whitespace in front of a string is cut away by `TrimStart`. */
  lemma {:induction false} TrimStartAfterSpace(pad: string, s: string)
    requires AllSpace(pad)
    ensures TrimStart(pad + s) == TrimStart(s)
    decreases |pad|
  {
    if |pad| > 0 {
      assert (pad + s)[0] == pad[0] && IsSpace(pad[0]);
      assert (pad + s)[1..] == pad[1..] + s;
      TrimStartAfterSpace(pad[1..], s);
    } else {
      assert pad + s == s;
    }
  }

  /** Whitespace after a string is cut away by `TrimEnd`. */
  lemma {:induction false} TrimEndBeforeSpace(s: string, pad: string)
    requires AllSpace(pad)
    ensures TrimEnd(s + pad) == TrimEnd(s)
    decreases |pad|
  {
    if |pad| > 0 {
      assert (s + pad)[|s + pad| - 1] == pad[|pad| - 1] && IsSpace(pad[|pad| - 1]);
      assert (s + pad)[..|s + pad| - 1] == s + pad[..|pad| - 1];
      TrimEndBeforeSpace(s, pad[..|pad| - 1]);
    } else {
      assert s + pad == s;
    }
  }

  /** Stripping a padded string that neither starts nor ends with whitespace
      gives back the string. */
  lemma StripPadded(pad: string, s: string, pad2: string)
    requires AllSpace(pad) && AllSpace(pad2)
    requires |s| > 0 && !IsSpace(s[0]) && !IsSpace(s[|s| - 1])
    ensures Strip(pad + s + pad2) == s
  {
    assert pad + s + pad2 == pad + (s + pad2);
    TrimStartAfterSpace(pad, s + pad2);
    assert TrimStart(s + pad2) == s + pad2 by {
      assert (s + pad2)[0] == s[0];
    }
    TrimEndBeforeSpace(s, pad2);
  }

  /** The join of lines starts with the first character of the first line
      and ends with the last character of the last line. */
  lemma {:induction false} JoinEnds(ls: seq<string>)
    requires |ls| >= 1 && forall j :: 0 <= j < |ls| ==> ls[j] != []
    ensures var s := Join(ls);
            |s| > 0 && s[0] == ls[0][0] && s[|s| - 1] == ls[|ls| - 1][|ls[|ls| - 1]| - 1]
    decreases |ls|
  {
    if |ls| > 1 {
      JoinEnds(ls[1..]);
      assert ls[1..][|ls| - 2] == ls[|ls| - 1];
      assert Join(ls) == ls[0] + "\n" + Join(ls[1..]);
    }
  }
  /** Lines that are not empty, joined, start and end where the first and
      last line do: when those ends are not whitespace, the text strips to
      itself and is not blank. */
  lemma JoinStripped(ls: seq<string>)
    requires |ls| >= 1 && forall j :: 0 <= j < |ls| ==> ls[j] != []
    requires !IsSpace(ls[0][0]) && !IsSpace(ls[|ls| - 1][|ls[|ls| - 1]| - 1])
    ensures Strip(Join(ls)) == Join(ls)
    ensures !AllSpace(Join(ls))
  {
    var s := Join(ls);
    JoinEnds(ls);
    StripUnchanged(s);
  }


  lemma AllSpaceAppend(a: string, b: string)
    ensures AllSpace(a + b) <==> AllSpace(a) && AllSpace(b)
  {
    if AllSpace(a) && AllSpace(b) {
      forall k | 0 <= k < |a + b| ensures IsSpace((a + b)[k]) {
        if k >= |a| { assert (a + b)[k] == b[k - |a|]; }
      }
    }
    if AllSpace(a + b) {
      assert forall k :: 0 <= k < |b| ==> (a + b)[|a| + k] == b[k];
      assert forall k :: 0 <= k < |a| ==> (a + b)[k] == a[k];
    }
  }

  /** The number of lines the parser sees is one more than the number of
      line breaks in the raw text, whatever their flavour. */
  lemma {:induction false} LineCountAfterNormalize(s: string)
    ensures |Split(Normalize(s))| == LineBreaks(s) + 1
  {
    NormalizeIsUniversalNewlines(s);
    CountUniversal(s);
  }

  lemma {:induction false} CountUniversal(s: string)
    ensures CountChar(UniversalNewlines(s), '\n') == LineBreaks(s)
    decreases |s|
  {
    if |s| == 0 {
    } else if |s| >= 2 && s[0] == '\r' && s[1] == '\n' {
      CountUniversal(s[2..]);
      assert (['\n'] + UniversalNewlines(s[2..]))[1..] == UniversalNewlines(s[2..]);
    } else {
      CountUniversal(s[1..]);
      var c := if s[0] == '\r' then '\n' else s[0];
      assert ([c] + UniversalNewlines(s[1..]))[1..] == UniversalNewlines(s[1..]);
    }
  }
}
