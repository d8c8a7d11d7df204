/** The marker scanner of `parse_conflicts.py`: one forward pass over the
    normalised lines that cuts out every region between an opening marker
    and the next closing marker, and sorts the lines inside it into the
    ours, base and theirs sections. */
module Scanner {
  import opened Text
  import opened Blocks

  // ---------------------------------------------------------------------------
  // Marker lines
  // ---------------------------------------------------------------------------

  /** A marker line is seven copies of the marker character, alone or
      followed by a space and a label. */
  predicate IsMarker(line: string, c: char) {
    && |line| >= 7
    && line[0] == c && line[1] == c && line[2] == c && line[3] == c
    && line[4] == c && line[5] == c && line[6] == c
    && (|line| == 7 || line[7] == ' ')
  }

  predicate IsOpenMarker(line: string) { IsMarker(line, '<') }
  predicate IsBaseMarker(line: string) { IsMarker(line, '|') }
  predicate IsCloseMarker(line: string) { IsMarker(line, '>') }

  /** The separator is exactly seven `=`; it has no label form. */
  predicate IsSeparator(line: string) {
    |line| == 7 && IsMarker(line, '=')
  }

  const SeparatorLine: string := "======="

  /** The lines that switch the current section. */
  predicate IsSectionMarker(line: string) {
    IsBaseMarker(line) || IsSeparator(line)
  }

  /** The character test agrees with the textual definition: the bare
      glyph, or the glyph followed by a space. */
  lemma MarkerIsGlyphOrGlyphSpace(line: string, c: char)
    ensures IsMarker(line, c) <==> line == [c, c, c, c, c, c, c] || [c, c, c, c, c, c, c, ' '] <= line
  {
    var g := [c, c, c, c, c, c, c];
    if IsMarker(line, c) && |line| == 7 { assert line == g; }
    if IsMarker(line, c) && |line| > 7 { assert line[..8] == g + [' ']; }
  }

  lemma SeparatorIsSeparatorLine(line: string)
    ensures IsSeparator(line) <==> line == SeparatorLine
  {
    if IsSeparator(line) { assert line == SeparatorLine; }
  }

  /** The label after an opening or closing glyph: the rest of the line, stripped.
      It is a stretch of the line after the glyph that neither starts nor ends
      with whitespace, and only whitespace lies between it and the glyph or
      the end of the line. */
  function MarkerLabel(line: string): (r: string)
    requires |line| >= 7
    ensures exists a :: 7 <= a && a + |r| <= |line| && r == line[a..a + |r|]
                        && AllSpace(line[7..a]) && AllSpace(line[a + |r|..])
    ensures |r| > 0 ==> !IsSpace(r[0]) && !IsSpace(r[|r| - 1])
    ensures |line| == 7 ==> r == []
  {
    StripAfter(line, 7);
    Strip(line[7..])
  }

  /** `StripSpec` for the part of a line after its first `n` characters. */
  lemma StripAfter(line: string, n: nat)
    requires n <= |line|
    ensures var r := Strip(line[n..]);
            exists a :: n <= a && a + |r| <= |line| && r == line[a..a + |r|]
                        && AllSpace(line[n..a]) && AllSpace(line[a + |r|..])
    ensures var r := Strip(line[n..]);
            |r| > 0 ==> !IsSpace(r[0]) && !IsSpace(r[|r| - 1])
  {
    var rest := line[n..];
    StripAt(rest);
    var r := Strip(rest);
    var a := StripStart(rest);
    SliceOfDrop(line, n, a, a + |r|);
    assert n <= n + a && n + a + |r| <= |line| && r == line[n + a..n + a + |r|]
           && AllSpace(line[n..n + a]) && AllSpace(line[n + a + |r|..]);
  }

  /** Slicing the part of `s` after `n` is slicing `s` shifted by `n`. */
  lemma SliceOfDrop<T>(s: seq<T>, n: nat, i: nat, j: nat)
    requires n <= |s| && i <= j <= |s| - n
    ensures s[n..][i..j] == s[n + i..n + j]
    ensures s[n..][..i] == s[n..n + i]
    ensures s[n..][j..] == s[n + j..]
  {
  }

  // ---------------------------------------------------------------------------
  // Inside a block
  // ---------------------------------------------------------------------------

  datatype Section = Ours | Base | Theirs

  /** What the scanner has gathered so far inside one block. */
  datatype Sections = Sections(
    section: Section,
    ours: seq<string>,
    base: seq<string>,
    theirs: seq<string>,
    hasBase: bool)

  /** The state right after an opening marker. */
  const Fresh: Sections := Sections(Ours, [], [], [], false)

  /** The effect of one line that is not a closing marker: a base marker
      selects the base section and records that one was seen, the separator
      selects theirs, any other line joins the current section. */
  function Step(acc: Sections, line: string): Sections {
    if IsBaseMarker(line) then acc.(section := Base, hasBase := true)
    else if IsSeparator(line) then acc.(section := Theirs)
    else match acc.section
      case Ours => acc.(ours := acc.ours + [line])
      case Base => acc.(base := acc.base + [line])
      case Theirs => acc.(theirs := acc.theirs + [line])
  }

  /** Where the inner loop stopped (the closing marker, if any) and what it gathered. */
  datatype BodyScan = BodyScan(close: Option<nat>, acc: Sections)

  /** The inner loop: starting at line `i`, test each line for a base
      marker, then the separator, then a closing marker, in that order.
      An opening marker is not tested for, so it is ordinary content. */
  function ScanBody(lines: seq<string>, i: nat, acc: Sections): (r: BodyScan)
    ensures r.close.Some? ==> i <= r.close.value < |lines| && IsCloseMarker(lines[r.close.value])
    decreases |lines| - i
  {
    if i >= |lines| then BodyScan(None, acc)
    else if IsSectionMarker(lines[i]) then
      ScanBody(lines, i + 1, Step(acc, lines[i]))
    else if IsCloseMarker(lines[i]) then BodyScan(Some(i), acc)
    else ScanBody(lines, i + 1, Step(acc, lines[i]))
  }

  /** The inner loop stops at the first closing marker at or after `i`,
      and runs off the end exactly when there is none. */
  lemma {:induction false} ScanBodyStopsAtFirstClose(lines: seq<string>, i: nat, acc: Sections)
    ensures var r := ScanBody(lines, i, acc);
            && (r.close.Some? ==> forall k :: i <= k < r.close.value ==> !IsCloseMarker(lines[k]))
            && (r.close.None? ==> forall k :: i <= k < |lines| ==> !IsCloseMarker(lines[k]))
    decreases |lines| - i
  {
    if i < |lines| && !(IsCloseMarker(lines[i]) && !IsSectionMarker(lines[i])) {
      ScanBodyStopsAtFirstClose(lines, i + 1, Step(acc, lines[i]));
    }
  }

  // ---------------------------------------------------------------------------
  // Reference description of the sections, position by position
  // ---------------------------------------------------------------------------

  /** The section in force at position `p` of a block interior `w`: the one
      chosen by the nearest section marker before `p`, or ours if none. */
  function SectionAt(w: seq<string>, p: nat): Section
    requires p <= |w|
    decreases p
  {
    if p == 0 then Ours
    else if IsBaseMarker(w[p - 1]) then Base
    else if IsSeparator(w[p - 1]) then Theirs
    else SectionAt(w, p - 1)
  }

  /** The lines of `w` that are not section markers and fall in section `sec`, in order. */
  function Select(w: seq<string>, sec: Section): seq<string>
    decreases |w|
  {
    if |w| == 0 then []
    else
      var p := |w| - 1;
      Select(w[..p], sec) + (if !IsSectionMarker(w[p]) && SectionAt(w, p) == sec then [w[p]] else [])
  }

  /** The section marker lines of `w`, in order. */
  function SectionMarkers(w: seq<string>): seq<string>
    decreases |w|
  {
    if |w| == 0 then []
    else SectionMarkers(w[..|w| - 1]) + (if IsSectionMarker(w[|w| - 1]) then [w[|w| - 1]] else [])
  }

  predicate HasBaseMarker(w: seq<string>) {
    exists p :: 0 <= p < |w| && IsBaseMarker(w[p])
  }

  /** What a block interior `w` should leave the scanner holding. */
  function Expected(w: seq<string>): Sections {
    Sections(SectionAt(w, |w|), Select(w, Ours), Select(w, Base), Select(w, Theirs), HasBaseMarker(w))
  }

  lemma {:induction false} SectionAtPrefix(w: seq<string>, n: nat, p: nat)
    requires p <= n <= |w|
    ensures SectionAt(w[..n], p) == SectionAt(w, p)
    decreases p
  {
    if p > 0 {
      assert w[..n][p - 1] == w[p - 1];
      SectionAtPrefix(w, n, p - 1);
    }
  }

  /** Appending one line to an interior appends it to at most one selection. */
  lemma SelectSnoc(v: seq<string>, x: string, sec: Section)
    ensures Select(v + [x], sec)
            == Select(v, sec) + (if !IsSectionMarker(x) && SectionAt(v, |v|) == sec then [x] else [])
    ensures SectionMarkers(v + [x]) == SectionMarkers(v) + (if IsSectionMarker(x) then [x] else [])
  {
    var w := v + [x];
    assert w[..|v|] == v;
    SectionAtPrefix(w, |v|, |v|);
  }

  lemma HasBaseMarkerSnoc(v: seq<string>, x: string)
    ensures HasBaseMarker(v + [x]) <==> HasBaseMarker(v) || IsBaseMarker(x)
  {
    var w := v + [x];
    if HasBaseMarker(w) && !IsBaseMarker(x) {
      var p :| 0 <= p < |w| && IsBaseMarker(w[p]);
      assert v[p] == w[p];
    }
    if HasBaseMarker(v) {
      var p :| 0 <= p < |v| && IsBaseMarker(v[p]);
      assert w[p] == v[p];
    }
    if IsBaseMarker(x) { assert w[|v|] == x; }
  }

  /** Extending the interior by one non-closing line is one `Step`. */
  lemma ExpectedStep(w: seq<string>, x: string)
    ensures Expected(w + [x]) == Step(Expected(w), x)
  {
    SelectSnoc(w, x, Ours);
    SelectSnoc(w, x, Base);
    SelectSnoc(w, x, Theirs);
    HasBaseMarkerSnoc(w, x);
  }

  /** The inner loop computes the reference description of the interior it
      walks over, whatever part of the interior it has already seen. */
  lemma {:induction false} ScanBodyMeetsExpected(lines: seq<string>, i0: nat, i: nat)
    requires i0 <= i <= |lines|
    requires forall k :: i0 <= k < i ==> !IsCloseMarker(lines[k])
    ensures var r := ScanBody(lines, i, Expected(lines[i0..i]));
            var k := if r.close.Some? then r.close.value else |lines|;
            i <= k <= |lines| && r.acc == Expected(lines[i0..k])
    decreases |lines| - i
  {
    if i < |lines| && !(IsCloseMarker(lines[i]) && !IsSectionMarker(lines[i])) {
      assert lines[i0..i + 1] == lines[i0..i] + [lines[i]];
      ExpectedStep(lines[i0..i], lines[i]);
      ScanBodyMeetsExpected(lines, i0, i + 1);
    }
  }

  lemma AddOne<T>(a: multiset<T>, b: multiset<T>, c: multiset<T>, d: multiset<T>, e: multiset<T>,
                  m: multiset<T>, which: nat)
    requires a + b + c + d == m
    ensures which == 0 ==> (a + e) + b + c + d == m + e
    ensures which == 1 ==> a + (b + e) + c + d == m + e
    ensures which == 2 ==> a + b + (c + e) + d == m + e
    ensures which == 3 ==> a + b + c + (d + e) == m + e
  {
  }

  /** The three sections and the section markers of `w`, taken together. */
  ghost function Parts(w: seq<string>): multiset<string> {
    multiset(Select(w, Ours)) + multiset(Select(w, Base)) + multiset(Select(w, Theirs))
    + multiset(SectionMarkers(w))
  }

  lemma SelectSnocCount(v: seq<string>, x: string, sec: Section)
    ensures multiset(Select(v + [x], sec)) == multiset(Select(v, sec))
              + (if !IsSectionMarker(x) && SectionAt(v, |v|) == sec then multiset{x} else multiset{})
    ensures multiset(SectionMarkers(v + [x])) == multiset(SectionMarkers(v))
              + (if IsSectionMarker(x) then multiset{x} else multiset{})
  {
    SelectSnoc(v, x, sec);
  }

  /** One more interior line is one more element of exactly one part. */
  lemma PartsSnoc(v: seq<string>, x: string)
    ensures Parts(v + [x]) == Parts(v) + multiset{x}
  {
    var w := v + [x];
    SelectSnocCount(v, x, Ours);
    SelectSnocCount(v, x, Base);
    SelectSnocCount(v, x, Theirs);
    var a, b, c, d := multiset(Select(v, Ours)), multiset(Select(v, Base)),
                      multiset(Select(v, Theirs)), multiset(SectionMarkers(v));
    var a2, b2, c2, d2 := multiset(Select(w, Ours)), multiset(Select(w, Base)),
                          multiset(Select(w, Theirs)), multiset(SectionMarkers(w));
    assert Parts(v) == a + b + c + d;
    assert Parts(w) == a2 + b2 + c2 + d2;
    var e := multiset{x};
    if IsSectionMarker(x) {
      assert a2 == a && b2 == b && c2 == c && d2 == d + e;
      AddOne(a, b, c, d, e, Parts(v), 3);
    } else {
      match SectionAt(v, |v|)
      case Ours =>
        assert a2 == a + e && b2 == b && c2 == c && d2 == d;
        AddOne(a, b, c, d, e, Parts(v), 0);
      case Base =>
        assert a2 == a && b2 == b + e && c2 == c && d2 == d;
        AddOne(a, b, c, d, e, Parts(v), 1);
      case Theirs =>
        assert a2 == a && b2 == b && c2 == c + e && d2 == d;
        AddOne(a, b, c, d, e, Parts(v), 2);
    }
  }

  lemma PartsLast(w: seq<string>)
    requires |w| > 0
    ensures Parts(w) == Parts(w[..|w| - 1]) + multiset{w[|w| - 1]}
  {
    assert w == w[..|w| - 1] + [w[|w| - 1]];
    PartsSnoc(w[..|w| - 1], w[|w| - 1]);
  }

  lemma MultisetLast<T>(w: seq<T>)
    requires |w| > 0
    ensures multiset(w) == multiset(w[..|w| - 1]) + multiset{w[|w| - 1]}
  {
    assert w == w[..|w| - 1] + [w[|w| - 1]];
  }

  /** Every interior line is a section marker or lands in exactly one of
      the three sections: nothing is lost and nothing is counted twice. */
  lemma {:induction false} SectionsPartition(w: seq<string>)
    ensures Parts(w) == multiset(w)
    decreases |w|
  {
    if |w| > 0 {
      var v, x := w[..|w| - 1], w[|w| - 1];
      SectionsPartition(v);
      PartsLast(w);
      MultisetLast(w);
    }
  }

  lemma {:induction false} SectionAtOneSeparator(w: seq<string>, q: nat, p: nat)
    requires q < |w| && IsSeparator(w[q]) && p <= |w|
    requires forall k :: 0 <= k < |w| && k != q ==> !IsSeparator(w[k]) && !IsBaseMarker(w[k])
    ensures SectionAt(w, p) == if p <= q then Ours else Theirs
    decreases p
  {
    if p > 0 {
      if p - 1 != q { SectionAtOneSeparator(w, q, p - 1); }
    }
  }

  lemma {:induction false} SelectOneSeparator(w: seq<string>, q: nat, n: nat)
    requires q < |w| && IsSeparator(w[q]) && n <= |w|
    requires forall k :: 0 <= k < |w| && k != q ==> !IsSeparator(w[k]) && !IsBaseMarker(w[k])
    ensures Select(w[..n], Ours) == w[..if n <= q then n else q]
    ensures Select(w[..n], Theirs) == if n <= q + 1 then [] else w[q + 1..n]
    ensures Select(w[..n], Base) == []
    decreases n
  {
    if n > 0 {
      var v, x := w[..n - 1], w[n - 1];
      assert w[..n] == v + [x];
      SelectOneSeparator(w, q, n - 1);
      SelectSnoc(v, x, Ours);
      SelectSnoc(v, x, Base);
      SelectSnoc(v, x, Theirs);
      SectionAtPrefix(w, n - 1, n - 1);
      SectionAtOneSeparator(w, q, n - 1);
      if n - 1 < q {
        assert !IsSectionMarker(x) && SectionAt(v, |v|) == Ours;
      } else if n - 1 == q {
        assert IsSectionMarker(x);
      } else if n - 1 == q + 1 {
        assert !IsSectionMarker(x) && SectionAt(v, |v|) == Theirs;
        assert w[q + 1..n] == [x];
      } else {
        assert !IsSectionMarker(x) && SectionAt(v, |v|) == Theirs;
        assert w[q + 1..n] == w[q + 1..n - 1] + [x];
      }
    }
  }

  /** Round trip: an interior with one separator and no base marker is
      exactly ours, the separator, then theirs. */
  lemma OneSeparatorRoundTrip(w: seq<string>, q: nat)
    requires q < |w| && IsSeparator(w[q])
    requires forall k :: 0 <= k < |w| && k != q ==> !IsSeparator(w[k]) && !IsBaseMarker(w[k])
    ensures Select(w, Ours) + [w[q]] + Select(w, Theirs) == w
    ensures Select(w, Base) == []
  {
    SelectOneSeparator(w, q, |w|);
    assert w[..|w|] == w;
    assert Select(w, Ours) == w[..q];
    assert Select(w, Theirs) == w[q + 1..];
    SplitAround(w, q);
  }

  lemma SplitAround<T>(w: seq<T>, q: nat)
    requires q < |w|
    ensures w[..q] + [w[q]] + w[q + 1..] == w
  {
  }

  /** What is selected from the start of an interior is the start of what is
      selected from the whole interior. */
  lemma {:induction false} SelectPrefix(w: seq<string>, n: nat, sec: Section)
    requires n <= |w|
    ensures Select(w[..n], sec) <= Select(w, sec)
    decreases |w| - n
  {
    if n < |w| {
      var m := |w| - 1;
      assert w[..m][..n] == w[..n];
      SelectPrefix(w[..m], n, sec);
    } else {
      assert w[..n] == w;
    }
  }

  /** A line after a base marker joins base and nothing else. */
  lemma BaseLineAfterMarker(u: seq<string>, x: string)
    requires |u| > 0 && IsBaseMarker(u[|u| - 1]) && !IsSectionMarker(x)
    ensures Select(u + [x], Base) == Select(u, Base) + [x]
    ensures Select(u + [x], Theirs) == Select(u, Theirs)
    ensures Select(u + [x], Ours) == Select(u, Ours)
  {
    assert SectionAt(u, |u|) == Base;
    SelectSnoc(u, x, Base);
    SelectSnoc(u, x, Theirs);
    SelectSnoc(u, x, Ours);
  }

  /** A base marker switches to the base section wherever it stands, even
      after the separator: the line after it, unless it is itself a section
      marker, is a base line. */
  lemma BaseMarkerAlwaysSwitches(w: seq<string>, p: nat)
    requires p + 1 < |w| && IsBaseMarker(w[p]) && !IsSectionMarker(w[p + 1])
    ensures w[p + 1] in Select(w, Base)
    ensures Select(w[..p + 2], Theirs) == Select(w[..p + 1], Theirs)
    ensures Select(w[..p + 2], Ours) == Select(w[..p + 1], Ours)
  {
    var u := w[..p + 1];
    var x := w[p + 1];
    TakeSnoc(w, p + 1);
    assert u[|u| - 1] == w[p];
    BaseLineAfterMarker(u, x);
    SelectPrefix(w, p + 2, Base);
    LastOfPrefixIn(Select(u, Base), x, Select(w, Base));
  }

  lemma TakeSnoc<T>(w: seq<T>, n: nat)
    requires n < |w|
    ensures w[..n] + [w[n]] == w[..n + 1]
  {
  }

  lemma LastOfPrefixIn<T>(a: seq<T>, x: T, b: seq<T>)
    requires a + [x] <= b
    ensures x in b
  {
    assert b[|a|] == (a + [x])[|a|];
  }

  // ---------------------------------------------------------------------------
  // The outer loop
  // ---------------------------------------------------------------------------

  /** One conflict region found by the outer loop: the index of its opening
      marker, the index of its closing marker if there is one, and what the
      inner loop gathered in between. */
  datatype Region = Region(open: nat, close: Option<nat>, acc: Sections)

  /** The region starts at an opening marker and ends at a later closing marker, if any. */
  predicate WellPlaced(lines: seq<string>, r: Region) {
    && r.open < |lines| && IsOpenMarker(lines[r.open])
    && (r.close.Some? ==> r.open < r.close.value < |lines| && IsCloseMarker(lines[r.close.value]))
  }

  /** The outer loop from line index `i`: skip lines up to an opening
      marker, run the inner loop after it, and go on after its closing
      marker; with no closing marker the inner loop has consumed the rest
      of the text and the scan ends. */
  function Regions(lines: seq<string>, i: nat): (rs: seq<Region>)
    ensures forall j :: 0 <= j < |rs| ==> i <= rs[j].open && WellPlaced(lines, rs[j])
    decreases |lines| - i
  {
    if i >= |lines| then []
    else if IsOpenMarker(lines[i]) then
      var body := ScanBody(lines, i + 1, Fresh);
      match body.close
      case Some(k) => [Region(i, Some(k), body.acc)] + Regions(lines, k + 1)
      case None => [Region(i, None, body.acc)]
    else Regions(lines, i + 1)
  }

  // ---------------------------------------------------------------------------
  // Building the block records
  // ---------------------------------------------------------------------------

  /** The record for an opening marker at index `s` closed at index `k`,
      with up to three context lines on each side, clamped to the text. */
  function Closed(lines: seq<string>, index: nat, s: nat, k: nat, acc: Sections): Block
    requires s < k < |lines| && IsOpenMarker(lines[s]) && IsCloseMarker(lines[k])
  {
    var before := if s >= 3 then s - 3 else 0;
    var after := if k + 4 <= |lines| then k + 4 else |lines|;
    Block(index, s + 1, k + 1,
          MarkerLabel(lines[s]), MarkerLabel(lines[k]),
          Join(acc.ours), Join(acc.theirs),
          if acc.hasBase then Some(Join(acc.base)) else None,
          acc.hasBase,
          Join(lines[before..s]), Join(lines[k + 1..after]),
          None, None)
  }

  /** The record for an opening marker at index `s` that is never closed.
      It carries no base text even when a base marker was seen. */
  function Unclosed(lines: seq<string>, index: nat, s: nat, acc: Sections): Block
    requires s < |lines| && IsOpenMarker(lines[s])
  {
    Block(index, s + 1, |lines|,
          MarkerLabel(lines[s]), "",
          Join(acc.ours), Join(acc.theirs),
          None, acc.hasBase,
          "", "",
          Some(IncompleteMessage), Some(Complex))
  }

  function ToBlock(lines: seq<string>, index: nat, r: Region): Block
    requires WellPlaced(lines, r)
  {
    match r.close
    case Some(k) => Closed(lines, index, r.open, k, r.acc)
    case None => Unclosed(lines, index, r.open, r.acc)
  }

  /** One block per region, numbered in the order the regions were found. */
  function Assemble(lines: seq<string>, rs: seq<Region>): (bs: seq<Block>)
    requires forall j :: 0 <= j < |rs| ==> WellPlaced(lines, rs[j])
    ensures |bs| == |rs|
  {
    seq(|rs|, j requires 0 <= j < |rs| => ToBlock(lines, j, rs[j]))
  }

  /** The blocks of a text already split into lines. */
  function ScanLines(lines: seq<string>): seq<Block> {
    Assemble(lines, Regions(lines, 0))
  }

  /** The lines the scanner walks over. */
  function Lines(content: string): (r: seq<string>)
    ensures |r| >= 1
    ensures forall j :: 0 <= j < |r| ==> '\r' !in r[j] && '\n' !in r[j]
  {
    var n := Normalize(content);
    var r := Split(n);
    JoinSplit(n);
    SplitHasNoNewline(n);
    forall j | 0 <= j < |r| ensures '\r' !in r[j] {
      LineOfJoin(r, j);
      assert multiset(n)['\r'] == 0;
    }
    r
  }

  lemma {:induction false} LineOfJoin(ls: seq<string>, j: nat)
    requires j < |ls|
    ensures multiset(ls[j]) <= multiset(Join(ls))
    decreases |ls|
  {
    if |ls| > 1 {
      if j > 0 { LineOfJoin(ls[1..], j - 1); assert ls[1..][j - 1] == ls[j]; }
    }
  }

  /** `parse_conflict_blocks`: normalise, split, scan. */
  function ParseConflictBlocks(content: string): seq<Block> {
    ScanLines(Lines(content))
  }

  // ---------------------------------------------------------------------------
  // What the regions satisfy
  // ---------------------------------------------------------------------------

  /** The line index where a region's interior ends. */
  function InteriorEnd(lines: seq<string>, r: Region): nat {
    if r.close.Some? then r.close.value else |lines|
  }

  /** A region ends at the first closing marker after its opening marker,
      or runs to the end when there is none, and holds what its interior
      calls for. */
  predicate RegionOf(lines: seq<string>, r: Region) {
    && WellPlaced(lines, r)
    && InteriorEnd(lines, r) <= |lines|
    && (forall k :: r.open < k < InteriorEnd(lines, r) ==> !IsCloseMarker(lines[k]))
    && r.acc == Expected(lines[r.open + 1..InteriorEnd(lines, r)])
  }

  predicate AllRegionsOf(lines: seq<string>, rs: seq<Region>) {
    forall j :: 0 <= j < |rs| ==> RegionOf(lines, rs[j])
  }

  lemma AllRegionsOfCons(lines: seq<string>, r: Region, rest: seq<Region>)
    requires RegionOf(lines, r) && AllRegionsOf(lines, rest)
    ensures AllRegionsOf(lines, [r] + rest)
  {
    forall j | 1 <= j < 1 + |rest| ensures ([r] + rest)[j] == rest[j - 1] { }
  }

  lemma RegionAtOpening(lines: seq<string>, i: nat)
    requires i < |lines| && IsOpenMarker(lines[i])
    ensures var body := ScanBody(lines, i + 1, Fresh);
            RegionOf(lines, Region(i, body.close, body.acc))
  {
    assert lines[i + 1..i + 1] == [];
    ScanBodyMeetsExpected(lines, i + 1, i + 1);
    ScanBodyStopsAtFirstClose(lines, i + 1, Fresh);
  }

  /** One turn of the outer loop. */
  lemma RegionsStep(lines: seq<string>, i: nat)
    requires i < |lines|
    ensures !IsOpenMarker(lines[i]) ==> Regions(lines, i) == Regions(lines, i + 1)
    ensures IsOpenMarker(lines[i]) ==>
              var body := ScanBody(lines, i + 1, Fresh);
              Regions(lines, i) == [Region(i, body.close, body.acc)]
                + (if body.close.Some? then Regions(lines, body.close.value + 1) else [])
  {
  }

  /** Every region the outer loop finds is faithful to the lines. */
  lemma {:induction false} RegionsFaithful(lines: seq<string>, i: nat)
    ensures AllRegionsOf(lines, Regions(lines, i))
    decreases |lines| - i
  {
    if i < |lines| {
      RegionsStep(lines, i);
      if IsOpenMarker(lines[i]) {
        var body := ScanBody(lines, i + 1, Fresh);
        var r := Region(i, body.close, body.acc);
        RegionAtOpening(lines, i);
        if body.close.Some? {
          RegionsFaithful(lines, body.close.value + 1);
          AllRegionsOfCons(lines, r, Regions(lines, body.close.value + 1));
        } else {
          AllRegionsOfCons(lines, r, []);
        }
      } else {
        RegionsFaithful(lines, i + 1);
      }
    }
  }

  /** Only the last region can lack a closing marker, and each region
      opens after the previous one closes. */
  predicate Sequential(rs: seq<Region>) {
    forall j :: 0 <= j < |rs| - 1 ==> rs[j].close.Some? && rs[j].close.value < rs[j + 1].open
  }

  lemma SequentialCons(r: Region, rest: seq<Region>)
    requires Sequential(rest) && r.close.Some?
    requires |rest| > 0 ==> r.close.value < rest[0].open
    ensures Sequential([r] + rest)
  {
    var rs := [r] + rest;
    forall j | 0 <= j < |rs| - 1
      ensures rs[j].close.Some? && rs[j].close.value < rs[j + 1].open
    {
      if j > 0 {
        assert rs[j] == rest[j - 1] && rs[j + 1] == rest[j];
      }
    }
  }

  lemma {:induction false} RegionsSequential(lines: seq<string>, i: nat)
    ensures Sequential(Regions(lines, i))
    decreases |lines| - i
  {
    if i < |lines| {
      if IsOpenMarker(lines[i]) {
        var body := ScanBody(lines, i + 1, Fresh);
        if body.close.Some? {
          var k := body.close.value;
          var r, rest := Region(i, body.close, body.acc), Regions(lines, k + 1);
          assert Regions(lines, i) == [r] + rest by {
            RegionsStep(lines, i);
          }
          RegionsSequential(lines, k + 1);
          assert |rest| > 0 ==> k < rest[0].open;
          SequentialCons(r, rest);
        } else {
          assert |Regions(lines, i)| == 1 by {
            RegionsStep(lines, i);
          }
        }
      } else {
        assert Regions(lines, i) == Regions(lines, i + 1) by {
          RegionsStep(lines, i);
        }
        RegionsSequential(lines, i + 1);
      }
    }
  }

  /** Line `p` lies within one of the regions, closing marker included. */
  predicate Covered(lines: seq<string>, rs: seq<Region>, p: nat) {
    exists j :: 0 <= j < |rs| && rs[j].open <= p < InteriorEnd(lines, rs[j]) + 1
  }

  lemma CoveredCons(lines: seq<string>, r: Region, rest: seq<Region>, p: nat)
    requires Covered(lines, rest, p) || r.open <= p < InteriorEnd(lines, r) + 1
    ensures Covered(lines, [r] + rest, p)
  {
    var rs := [r] + rest;
    if r.open <= p < InteriorEnd(lines, r) + 1 {
      assert rs[0] == r;
    } else {
      var j :| 0 <= j < |rest| && rest[j].open <= p < InteriorEnd(lines, rest[j]) + 1;
      assert rs[j + 1] == rest[j];
    }
  }

  /** Every opening marker at or after `i` lies within some region. */
  lemma {:induction false} RegionsCover(lines: seq<string>, i: nat, p: nat)
    requires i <= p < |lines| && IsOpenMarker(lines[p])
    ensures Covered(lines, Regions(lines, i), p)
    decreases |lines| - i
  {
    RegionsStep(lines, i);
    if IsOpenMarker(lines[i]) {
      var body := ScanBody(lines, i + 1, Fresh);
      var r := Region(i, body.close, body.acc);
      if body.close.None? {
        assert Regions(lines, i) == [r] + [];
        assert InteriorEnd(lines, r) == |lines|;
        CoveredCons(lines, r, [], p);
      } else {
        var k := body.close.value;
        var rest := Regions(lines, k + 1);
        assert Regions(lines, i) == [r] + rest;
        if k < p {
          RegionsCover(lines, k + 1, p);
        } else {
          assert InteriorEnd(lines, r) == k;
        }
        CoveredCons(lines, r, rest, p);
      }
    } else {
      assert Regions(lines, i) == Regions(lines, i + 1);
      RegionsCover(lines, i + 1, p);
    }
  }

  lemma {:induction false} NoOpenerNoRegions(lines: seq<string>, i: nat)
    requires forall p :: i <= p < |lines| ==> !IsOpenMarker(lines[p])
    ensures Regions(lines, i) == []
    decreases |lines| - i
  {
    if i < |lines| { NoOpenerNoRegions(lines, i + 1); }
  }

  // ---------------------------------------------------------------------------
  // What the blocks satisfy
  // ---------------------------------------------------------------------------

  /** The up to three lines right before 1-based line `start`, clamped at the top. */
  predicate ContextBeforeOf(lines: seq<string>, start: nat, ctx: string)
    requires 1 <= start <= |lines|
  {
    var m := if start - 1 < 3 then start - 1 else 3;
    ctx == Join(lines[start - 1 - m..start - 1])
  }

  /** The up to three lines right after 1-based line `end`, clamped at the bottom. */
  predicate ContextAfterOf(lines: seq<string>, end: nat, ctx: string)
    requires 1 <= end <= |lines|
  {
    var m := if |lines| - end < 3 then |lines| - end else 3;
    ctx == Join(lines[end..end + m])
  }

  /** A closed block: opened and closed by marker lines, closed at the first
      closing marker after the opening one, its sections and labels those of
      the interior lines, its context the neighbouring lines. */
  predicate ClosedBlockOf(lines: seq<string>, b: Block) {
    && b.error.None?
    && b.classification.None?
    && 1 <= b.startLine < b.endLine <= |lines|
    && IsOpenMarker(lines[b.startLine - 1])
    && IsCloseMarker(lines[b.endLine - 1])
    && (forall k :: b.startLine <= k < b.endLine - 1 ==> !IsCloseMarker(lines[k]))
    && |lines[b.startLine - 1]| >= 7 && |lines[b.endLine - 1]| >= 7
    && b.oursLabel == MarkerLabel(lines[b.startLine - 1])
    && b.theirsLabel == MarkerLabel(lines[b.endLine - 1])
    && var w := lines[b.startLine..b.endLine - 1];
       && b.ours == Join(Select(w, Ours))
       && b.theirs == Join(Select(w, Theirs))
       && b.hasBase == HasBaseMarker(w)
       && b.base == (if b.hasBase then Some(Join(Select(w, Base))) else None)
  }

  /** A closed block's context is the up to three lines on either side of
      it, clamped to the text; an unclosed block has none. */
  predicate ContextOf(lines: seq<string>, b: Block) {
    && 1 <= b.startLine <= b.endLine <= |lines|
    && if b.error.None? then
         && ContextBeforeOf(lines, b.startLine, b.contextBefore)
         && ContextAfterOf(lines, b.endLine, b.contextAfter)
       else b.contextBefore == [] && b.contextAfter == []
  }

  /** A block whose opening marker has no closing marker after it: it runs
      to the last line, has no context, no closing label and no base text,
      carries the error and is already classified `Complex`. */
  predicate UnclosedBlockOf(lines: seq<string>, b: Block) {
    && b.error == Some(IncompleteMessage)
    && b.classification == Some(Complex)
    && 1 <= b.startLine <= b.endLine == |lines|
    && IsOpenMarker(lines[b.startLine - 1])
    && (forall k :: b.startLine <= k < |lines| ==> !IsCloseMarker(lines[k]))
    && |lines[b.startLine - 1]| >= 7
    && b.oursLabel == MarkerLabel(lines[b.startLine - 1])
    && b.theirsLabel == []
    && var w := lines[b.startLine..];
       && b.ours == Join(Select(w, Ours))
       && b.theirs == Join(Select(w, Theirs))
       && b.hasBase == HasBaseMarker(w)
       && b.base.None?
  }

  lemma ClosedBlockFaithful(lines: seq<string>, index: nat, r: Region)
    requires RegionOf(lines, r) && r.close.Some?
    ensures ClosedBlockOf(lines, ToBlock(lines, index, r))
  {
  }

  /** The context kept before an opening marker at index `s`. */
  lemma ContextBeforeClamped(lines: seq<string>, s: nat, ctx: string)
    requires s < |lines|
    requires ctx == Join(lines[(if s >= 3 then s - 3 else 0)..s])
    ensures ContextBeforeOf(lines, s + 1, ctx)
  {
  }

  /** The context kept after a closing marker at index `k`. */
  lemma ContextAfterClamped(lines: seq<string>, k: nat, ctx: string)
    requires k < |lines|
    requires ctx == Join(lines[k + 1..if k + 4 <= |lines| then k + 4 else |lines|])
    ensures ContextAfterOf(lines, k + 1, ctx)
  {
  }

  lemma ClosedBlockContext(lines: seq<string>, index: nat, r: Region)
    requires WellPlaced(lines, r) && r.close.Some?
    ensures ContextOf(lines, ToBlock(lines, index, r))
  {
    var s, k := r.open, r.close.value;
    var before := if s >= 3 then s - 3 else 0;
    var after := if k + 4 <= |lines| then k + 4 else |lines|;
    var b := ToBlock(lines, index, r);
    assert && b.startLine == s + 1 && b.endLine == k + 1 && b.error.None?
           && b.contextBefore == Join(lines[before..s]) && b.contextAfter == Join(lines[k + 1..after]) by {
      assert b == Closed(lines, index, s, k, r.acc);
    }
    ContextBeforeClamped(lines, s, b.contextBefore);
    ContextAfterClamped(lines, k, b.contextAfter);
  }

  lemma UnclosedBlockFaithful(lines: seq<string>, index: nat, r: Region)
    requires RegionOf(lines, r) && r.close.None?
    ensures UnclosedBlockOf(lines, ToBlock(lines, index, r))
    ensures ContextOf(lines, ToBlock(lines, index, r))
  {
    assert lines[r.open + 1..|lines|] == lines[r.open + 1..];
  }

  /** Block `j` carries index `j`, its context as described, and is a
      faithful closed block, or else the last block and a faithful unclosed one. */
  lemma BlockFaithful(lines: seq<string>, j: nat)
    requires j < |ScanLines(lines)|
    ensures var bs := ScanLines(lines);
            && bs[j].index == j
            && ContextOf(lines, bs[j])
            && (ClosedBlockOf(lines, bs[j]) || (j == |bs| - 1 && UnclosedBlockOf(lines, bs[j])))
  {
    var rs := Regions(lines, 0);
    RegionsFaithful(lines, 0);
    RegionsSequential(lines, 0);
    assert RegionOf(lines, rs[j]);
    if rs[j].close.Some? {
      ClosedBlockFaithful(lines, j, rs[j]);
      ClosedBlockContext(lines, j, rs[j]);
    } else {
      UnclosedBlockFaithful(lines, j, rs[j]);
    }
  }

  /** Blocks do not overlap: each starts after the previous one ends. */
  lemma BlocksDisjoint(lines: seq<string>, j: nat)
    requires j + 1 < |ScanLines(lines)|
    ensures var bs := ScanLines(lines);
            bs[j].error.None? && bs[j].startLine < bs[j].endLine < bs[j + 1].startLine
  {
    RegionsSequential(lines, 0);
  }

  /** The scan misses no opening marker: each lies within some block's span. */
  lemma BlocksCover(lines: seq<string>, p: nat)
    requires p < |lines| && IsOpenMarker(lines[p])
    ensures var bs := ScanLines(lines);
            exists j :: 0 <= j < |bs| && bs[j].startLine - 1 <= p < bs[j].endLine
  {
    var rs := Regions(lines, 0);
    RegionsCover(lines, 0, p);
    var j :| 0 <= j < |rs| && rs[j].open <= p < InteriorEnd(lines, rs[j]) + 1;
    var bs := ScanLines(lines);
    assert bs[j].startLine - 1 <= p < bs[j].endLine;
  }

  /** A text yields no block exactly when none of its lines is an opening marker. */
  lemma NoBlocksIffNoOpeningMarker(content: string)
    ensures var lines := Lines(content);
            ParseConflictBlocks(content) == [] <==> forall p :: 0 <= p < |lines| ==> !IsOpenMarker(lines[p])
  {
    var lines := Lines(content);
    if exists p :: 0 <= p < |lines| && IsOpenMarker(lines[p]) {
      var p :| 0 <= p < |lines| && IsOpenMarker(lines[p]);
      BlocksCover(lines, p);
    } else {
      NoOpenerNoRegions(lines, 0);
    }
  }

  // ---------------------------------------------------------------------------
  // The quirks, on concrete inputs
  // ---------------------------------------------------------------------------

  const NestedExample: seq<string> := ["<<<<<<< a", "x", "<<<<<<< b", "y", "=======", "z", ">>>>>>> c"]

  lemma NestedExampleRegions()
    ensures Regions(NestedExample, 0)
            == [Region(0, Some(6), Sections(Theirs, ["x", "<<<<<<< b", "y"], [], ["z"], false))]
  {
    var lines := NestedExample;
    var a1 := Sections(Ours, ["x"], [], [], false);
    var a2 := Sections(Ours, ["x", "<<<<<<< b"], [], [], false);
    var a3 := Sections(Ours, ["x", "<<<<<<< b", "y"], [], [], false);
    var a4 := a3.(section := Theirs);
    var a5 := a4.(theirs := ["z"]);
    assert ScanBody(lines, 6, a5) == BodyScan(Some(6), a5);
    assert ScanBody(lines, 5, a4) == ScanBody(lines, 6, a5);
    assert ScanBody(lines, 4, a3) == ScanBody(lines, 5, a4);
    assert ScanBody(lines, 3, a2) == ScanBody(lines, 4, a3);
    assert ScanBody(lines, 2, a1) == ScanBody(lines, 3, a2);
    assert ScanBody(lines, 1, Fresh) == ScanBody(lines, 2, a1);
    assert Regions(lines, 7) == [];
  }

  /** A second opening marker inside an open block is ordinary ours content. */
  lemma NestedOpeningMarkerIsContent()
    ensures var bs := ScanLines(NestedExample);
            |bs| == 1 && bs[0].ours == Join(["x", "<<<<<<< b", "y"]) && bs[0].theirs == "z"
            && bs[0].startLine == 1 && bs[0].endLine == 7 && !bs[0].hasBase
  {
    var lines := NestedExample;
    var a := Sections(Theirs, ["x", "<<<<<<< b", "y"], [], ["z"], false);
    NestedExampleRegions();
    var bs := ScanLines(lines);
    assert bs[0] == ToBlock(lines, 0, Region(0, Some(6), a));
    assert bs[0].ours == Join(a.ours) && bs[0].theirs == Join(a.theirs);
  }

  /** A base marker after the separator moves the following lines from theirs to base. */
  lemma BaseAfterSeparatorExample()
    ensures var bs := ScanLines(["<<<<<<<", "a", "=======", "b", "|||||||", "c", ">>>>>>>"]);
            |bs| == 1 && bs[0].ours == "a" && bs[0].theirs == "b" && bs[0].base == Some("c") && bs[0].hasBase
  {
    var lines := ["<<<<<<<", "a", "=======", "b", "|||||||", "c", ">>>>>>>"];
    var a1 := Sections(Ours, ["a"], [], [], false);
    var a2 := a1.(section := Theirs);
    var a3 := a2.(theirs := ["b"]);
    var a4 := a3.(section := Base, hasBase := true);
    var a5 := a4.(base := ["c"]);
    assert ScanBody(lines, 6, a5) == BodyScan(Some(6), a5);
    assert ScanBody(lines, 5, a4) == ScanBody(lines, 6, a5);
    assert ScanBody(lines, 4, a3) == ScanBody(lines, 5, a4);
    assert ScanBody(lines, 3, a2) == ScanBody(lines, 4, a3);
    assert ScanBody(lines, 2, a1) == ScanBody(lines, 3, a2);
    assert ScanBody(lines, 1, Fresh) == ScanBody(lines, 2, a1);
    assert Regions(lines, 7) == [];
    assert Regions(lines, 0) == [Region(0, Some(6), a5)];
  }

  const AdjacentExample: seq<string> := ["<<<<<<<", "=======", ">>>>>>>", "<<<<<<<", "=======", ">>>>>>>"]

  lemma AdjacentExampleRegions()
    ensures var a := Sections(Theirs, [], [], [], false);
            Regions(AdjacentExample, 0) == [Region(0, Some(2), a), Region(3, Some(5), a)]
  {
    var lines := AdjacentExample;
    var a := Fresh.(section := Theirs);
    assert ScanBody(lines, 2, a) == BodyScan(Some(2), a);
    assert ScanBody(lines, 1, Fresh) == ScanBody(lines, 2, a);
    assert ScanBody(lines, 5, a) == BodyScan(Some(5), a);
    assert ScanBody(lines, 4, Fresh) == ScanBody(lines, 5, a);
    assert Regions(lines, 6) == [];
    RegionsStep(lines, 3);
    RegionsStep(lines, 0);
  }

  /** Context lines are plain slices: when two blocks are adjacent, the
      context after the first is the marker lines of the second. */
  lemma ContextMayHoldMarkers()
    ensures var bs := ScanLines(AdjacentExample);
            && |bs| == 2 && bs[0].endLine == 3 && bs[1].startLine == 4
            && bs[0].contextAfter == Join(["<<<<<<<", "=======", ">>>>>>>"])
  {
    var lines := AdjacentExample;
    var a := Sections(Theirs, [], [], [], false);
    AdjacentExampleRegions();
    var bs := ScanLines(lines);
    assert bs[0] == ToBlock(lines, 0, Region(0, Some(2), a));
    assert bs[1] == ToBlock(lines, 1, Region(3, Some(5), a));
    assert bs[0].contextAfter == Join(lines[3..6]);
    assert lines[3..6] == ["<<<<<<<", "=======", ">>>>>>>"];
  }

  /** An opening marker with nothing closing it yields one `Complex` block
      that runs to the last line. */
  lemma UnclosedExample()
    ensures var bs := ScanLines(["x", "<<<<<<< HEAD", "y"]);
            && |bs| == 1 && bs[0].startLine == 2 && bs[0].endLine == 3 && bs[0].ours == "y"
            && bs[0].oursLabel == "HEAD" && bs[0].classification == Some(Complex) && bs[0].error.Some?
  {
    var lines := ["x", "<<<<<<< HEAD", "y"];
    var a1 := Sections(Ours, ["y"], [], [], false);
    assert ScanBody(lines, 3, a1) == BodyScan(None, a1);
    assert ScanBody(lines, 2, Fresh) == ScanBody(lines, 3, a1);
    assert Regions(lines, 1) == [Region(1, None, a1)];
    assert Regions(lines, 0) == Regions(lines, 1);
    assert lines[1][7..] == " HEAD";
    assert TrimStart(" HEAD") == TrimStart("HEAD");
    assert TrimEnd("HEAD") == "HEAD";
  }
}
