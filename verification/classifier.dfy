/** The heuristic classifier of `classify_conflict`: a pure function from a
    block to one of the ten tags, trying its rules in a fixed order. */
module Classifier {
  import opened Text
  import opened Blocks
  import opened Patterns

  /** Each line stripped, blank ones dropped, in order. */
  function StripNonBlank(ls: seq<string>): (r: seq<string>)
    ensures |r| <= |ls|
    ensures forall j :: 0 <= j < |r| ==> r[j] != []
  {
    if |ls| == 0 then []
    else
      var t := Strip(ls[0]);
      (if t == [] then [] else [t]) + StripNonBlank(ls[1..])
  }

  /** The trimmed non-blank lines of a side of a conflict. */
  function NonBlankLines(text: string): seq<string> {
    StripNonBlank(Split(text))
  }

  predicate AllImport(ls: seq<string>) {
    forall j :: 0 <= j < |ls| ==> IsImportLine(ls[j])
  }

  predicate AllVersion(ls: seq<string>) {
    forall j :: 0 <= j < |ls| ==> IsVersionLine(ls[j])
  }

  /** The superset size guard: the larger side has at most 1.3 times the
      lines of the smaller plus 5, in exact arithmetic. */
  predicate WithinGrowth(larger: nat, smaller: nat) {
    10 * larger <= 13 * smaller + 50
  }

  /** The classification of a block, rule by rule in the order of the source. */
  function Classify(b: Block): Tag {
    if b.error.Some? then Complex
    else if Strip(b.ours) == [] && Strip(b.theirs) == [] then BothEmpty
    else if Strip(b.ours) == Strip(b.theirs) then Whitespace
    else
      var o := NonBlankLines(b.ours);
      var t := NonBlankLines(b.theirs);
      if o == [] then OursDeleted
      else if t == [] then TheirsDeleted
      else if AllImport(o) && AllImport(t) then ImportOrder
      else
        var oursIsSub := multiset(o) <= multiset(t);
        var theirsIsSub := multiset(t) <= multiset(o);
        if oursIsSub && !theirsIsSub && WithinGrowth(|t|, |o|) then TheirsSuperset
        else if theirsIsSub && !oursIsSub && WithinGrowth(|o|, |t|) then OursSuperset
        else if multiset(o) == multiset(t) then Reorder
        else if AllVersion(o) && AllVersion(t) then VersionDiff
        else Complex
  }

  // ---------------------------------------------------------------------
  // Non-blank lines

  lemma {:induction false} StripNonBlankEmpty(ls: seq<string>)
    ensures StripNonBlank(ls) == [] <==> forall j :: 0 <= j < |ls| ==> AllSpace(ls[j])
  {
    if |ls| > 0 {
      StripNonBlankEmpty(ls[1..]);
      StripEmptyIffAllSpace(ls[0]);
      assert forall j :: 1 <= j < |ls| ==> ls[1..][j - 1] == ls[j];
    }
  }

  /** One line is kept, stripped, exactly when it is not all whitespace. */
  lemma StripNonBlankSingle(l: string)
    ensures StripNonBlank([l]) == if AllSpace(l) then [] else [Strip(l)]
  {
    StripEmptyIffAllSpace(l);
    assert [l][1..] == [];
  }

  /** The lines are filtered one by one: the kept lines of two stretches of
      lines, in order, are the kept lines of their concatenation. Together
      with `StripNonBlankSingle` this fixes the result for every input. */
  lemma {:induction false} StripNonBlankAppend(a: seq<string>, b: seq<string>)
    ensures StripNonBlank(a + b) == StripNonBlank(a) + StripNonBlank(b)
    decreases |a|
  {
    if |a| > 0 {
      assert (a + b)[0] == a[0];
      assert (a + b)[1..] == a[1..] + b;
      StripNonBlankAppend(a[1..], b);
    } else {
      assert a + b == b;
    }
  }

  /** A side has no non-blank lines exactly when it is all whitespace. */
  lemma NonBlankEmptyIffAllSpace(text: string)
    ensures NonBlankLines(text) == [] <==> AllSpace(text)
  {
    StripNonBlankEmpty(Split(text));
    JoinSplit(text);
    AllSpaceJoin(Split(text));
  }

  /** Every kept line is stripped: stripping it again changes nothing. */
  lemma {:induction false} StripNonBlankStripped(ls: seq<string>)
    ensures forall j :: 0 <= j < |StripNonBlank(ls)| ==> Strip(StripNonBlank(ls)[j]) == StripNonBlank(ls)[j]
  {
    if |ls| > 0 {
      StripNonBlankStripped(ls[1..]);
      StripIdempotent(ls[0]);
    }
  }

  /** The non-blank lines of text joined from LF-free lines are those lines,
      stripped, blank ones dropped. */
  lemma NonBlankLinesOfJoin(ls: seq<string>)
    requires |ls| >= 1
    requires forall j :: 0 <= j < |ls| ==> '\n' !in ls[j]
    ensures NonBlankLines(Join(ls)) == StripNonBlank(ls)
  {
    SplitJoin(ls);
  }

  // ---------------------------------------------------------------------
  // The rule table

  /** One heuristic: whether its condition holds, and the tag it gives. */
  datatype Rule = Rule(holds: bool, tag: Tag)

  /** The tag of the first rule that holds; `Complex` when none does. */
  function FirstMatch(rules: seq<Rule>): (r: Tag)
    ensures r == Complex || exists i :: 0 <= i < |rules| && rules[i].holds && rules[i].tag == r
  {
    if |rules| == 0 then Complex
    else if rules[0].holds then rules[0].tag
    else
      var r := FirstMatch(rules[1..]);
      assert r != Complex ==> exists i :: 1 <= i < |rules| && rules[i].holds && rules[i].tag == r by {
        if r != Complex {
          var i :| 0 <= i < |rules[1..]| && rules[1..][i].holds && rules[1..][i].tag == r;
          assert rules[i + 1] == rules[1..][i];
        }
      }
      r
  }

  lemma {:induction false} FirstMatchAt(rules: seq<Rule>, i: nat)
    requires i < |rules| && rules[i].holds
    requires forall j :: 0 <= j < i ==> !rules[j].holds
    ensures FirstMatch(rules) == rules[i].tag
  {
    if i > 0 {
      assert forall j :: 0 <= j < i - 1 ==> rules[1..][j] == rules[j + 1];
      FirstMatchAt(rules[1..], i - 1);
    }
  }

  /** The conditions the rules test, evaluated for one block. */
  datatype Facts = Facts(
    malformed: bool,
    bothBlank: bool,
    sameStripped: bool,
    oursNone: bool,
    theirsNone: bool,
    importsOnly: bool,
    theirsGrows: bool,
    oursGrows: bool,
    sameLines: bool,
    versionsOnly: bool)

  /** The conditions, each stated on its own: all-whitespace
      sides, equal stripped sides, a side with no non-blank lines, import lines
      only, proper multiset inclusion within the size guard, equal multisets,
      version lines only. */
  function FactsOf(b: Block): Facts {
    var o := NonBlankLines(b.ours);
    var t := NonBlankLines(b.theirs);
    Facts(
      b.Malformed(),
      AllSpace(b.ours) && AllSpace(b.theirs),
      Strip(b.ours) == Strip(b.theirs),
      o == [],
      t == [],
      AllImport(o) && AllImport(t),
      multiset(o) < multiset(t) && WithinGrowth(|t|, |o|),
      multiset(t) < multiset(o) && WithinGrowth(|o|, |t|),
      multiset(o) == multiset(t),
      AllVersion(o) && AllVersion(t))
  }

  /** The classification table: each condition with its tag, most specific
      first, ending with the default. */
  function Table(f: Facts): seq<Rule> {
    [ Rule(f.malformed, Complex),
      Rule(f.bothBlank, BothEmpty),
      Rule(f.sameStripped, Whitespace),
      Rule(f.oursNone, OursDeleted),
      Rule(f.theirsNone, TheirsDeleted),
      Rule(f.importsOnly, ImportOrder),
      Rule(f.theirsGrows, TheirsSuperset),
      Rule(f.oursGrows, OursSuperset),
      Rule(f.sameLines, Reorder),
      Rule(f.versionsOnly, VersionDiff),
      Rule(true, Complex) ]
  }

  function Rules(b: Block): seq<Rule> {
    Table(FactsOf(b))
  }

  /** `A <= B && !(B <= A)` is proper inclusion. */
  lemma ProperSubset<T>(a: multiset<T>, b: multiset<T>)
    ensures (a <= b && !(b <= a)) <==> a < b
  {
  }

  /** The table's first match, read as a chain of conditions. */
  lemma TableFirstMatch(f: Facts)
    ensures FirstMatch(Table(f)) ==
      if f.malformed then Complex
      else if f.bothBlank then BothEmpty
      else if f.sameStripped then Whitespace
      else if f.oursNone then OursDeleted
      else if f.theirsNone then TheirsDeleted
      else if f.importsOnly then ImportOrder
      else if f.theirsGrows then TheirsSuperset
      else if f.oursGrows then OursSuperset
      else if f.sameLines then Reorder
      else if f.versionsOnly then VersionDiff
      else Complex
  {
    var rs := Table(f);
    if f.malformed { FirstMatchAt(rs, 0); }
    else if f.bothBlank { FirstMatchAt(rs, 1); }
    else if f.sameStripped { FirstMatchAt(rs, 2); }
    else if f.oursNone { FirstMatchAt(rs, 3); }
    else if f.theirsNone { FirstMatchAt(rs, 4); }
    else if f.importsOnly { FirstMatchAt(rs, 5); }
    else if f.theirsGrows { FirstMatchAt(rs, 6); }
    else if f.oursGrows { FirstMatchAt(rs, 7); }
    else if f.sameLines { FirstMatchAt(rs, 8); }
    else if f.versionsOnly { FirstMatchAt(rs, 9); }
    else { FirstMatchAt(rs, 10); }
  }

  /** The classifier gives the tag of the first rule of the table that holds. */
  lemma ClassifyIsFirstMatch(b: Block)
    ensures Classify(b) == FirstMatch(Rules(b))
  {
    var o := NonBlankLines(b.ours);
    var t := NonBlankLines(b.theirs);
    StripEmptyIffAllSpace(b.ours);
    StripEmptyIffAllSpace(b.theirs);
    ProperSubset(multiset(o), multiset(t));
    ProperSubset(multiset(t), multiset(o));
    TableFirstMatch(FactsOf(b));
  }

  // ---------------------------------------------------------------------
  // What each tag guarantees

  /** Each tag carries the facts the rules before it leave standing: a
      deletion tag means one side is blank and the other is not, a superset
      tag means proper multiset inclusion within the size guard, and so on. */
  lemma ClassifySound(b: Block)
    ensures b.Malformed() ==> Classify(b) == Complex
    ensures Classify(b) == BothEmpty <==> !b.Malformed() && AllSpace(b.ours) && AllSpace(b.theirs)
    ensures Classify(b) == Whitespace <==>
      && !b.Malformed() && !(AllSpace(b.ours) && AllSpace(b.theirs))
      && Strip(b.ours) == Strip(b.theirs)
    ensures Classify(b) == OursDeleted ==>
      NonBlankLines(b.ours) == [] && NonBlankLines(b.theirs) != []
    ensures Classify(b) == TheirsDeleted ==>
      NonBlankLines(b.theirs) == [] && NonBlankLines(b.ours) != []
    ensures Classify(b) == ImportOrder ==>
      && NonBlankLines(b.ours) != [] && NonBlankLines(b.theirs) != []
      && AllImport(NonBlankLines(b.ours)) && AllImport(NonBlankLines(b.theirs))
    ensures Classify(b) == TheirsSuperset ==>
      && multiset(NonBlankLines(b.ours)) < multiset(NonBlankLines(b.theirs))
      && NonBlankLines(b.ours) != []
      && WithinGrowth(|NonBlankLines(b.theirs)|, |NonBlankLines(b.ours)|)
    ensures Classify(b) == OursSuperset ==>
      && multiset(NonBlankLines(b.theirs)) < multiset(NonBlankLines(b.ours))
      && NonBlankLines(b.theirs) != []
      && WithinGrowth(|NonBlankLines(b.ours)|, |NonBlankLines(b.theirs)|)
    ensures Classify(b) == Reorder ==>
      && multiset(NonBlankLines(b.ours)) == multiset(NonBlankLines(b.theirs))
      && |NonBlankLines(b.ours)| == |NonBlankLines(b.theirs)| > 0
      && Strip(b.ours) != Strip(b.theirs)
    ensures Classify(b) == VersionDiff ==>
      && AllVersion(NonBlankLines(b.ours)) && AllVersion(NonBlankLines(b.theirs))
      && multiset(NonBlankLines(b.ours)) != multiset(NonBlankLines(b.theirs))
  {
    ClassifyIsFirstMatch(b);
    TableFirstMatch(FactsOf(b));
    NonBlankEmptyIffAllSpace(b.ours);
    NonBlankEmptyIffAllSpace(b.theirs);
    var o := NonBlankLines(b.ours);
    var t := NonBlankLines(b.theirs);
    if Classify(b) == Reorder {
      assert |multiset(o)| == |o| && |multiset(t)| == |t|;
    }
  }

  // ---------------------------------------------------------------------
  // Symmetry

  /** The block with the two sides exchanged. */
  function Swap(b: Block): Block {
    b.(ours := b.theirs, theirs := b.ours, oursLabel := b.theirsLabel, theirsLabel := b.oursLabel)
  }

  /** The tag that names the other side. */
  function Mirror(t: Tag): Tag {
    match t
    case OursDeleted => TheirsDeleted
    case TheirsDeleted => OursDeleted
    case OursSuperset => TheirsSuperset
    case TheirsSuperset => OursSuperset
    case _ => t
  }

  /** Exchanging the sides exchanges the one-sided conditions and leaves
      the symmetric ones alone. */
  lemma FactsOfSwap(b: Block)
    ensures var f := FactsOf(b);
            FactsOf(Swap(b)) == f.(oursNone := f.theirsNone, theirsNone := f.oursNone,
                                   theirsGrows := f.oursGrows, oursGrows := f.theirsGrows)
  {
  }

  /** Reading the table with the one-sided conditions exchanged exchanges
      the side the tag names, given that two blank sides are caught first
      and that the sides cannot both grow. */
  lemma MirrorTable(f: Facts)
    requires f.oursNone && f.theirsNone ==> f.bothBlank
    requires !(f.theirsGrows && f.oursGrows)
    ensures FirstMatch(Table(f.(oursNone := f.theirsNone, theirsNone := f.oursNone,
                                theirsGrows := f.oursGrows, oursGrows := f.theirsGrows)))
            == Mirror(FirstMatch(Table(f)))
  {
    var g := f.(oursNone := f.theirsNone, theirsNone := f.oursNone,
                theirsGrows := f.oursGrows, oursGrows := f.theirsGrows);
    TableFirstMatch(f);
    TableFirstMatch(g);
  }

  /** The classifier treats the sides alike: exchanging them only exchanges
      the side named by the tag. */
  lemma ClassifySwap(b: Block)
    ensures Classify(Swap(b)) == Mirror(Classify(b))
  {
    ClassifyIsFirstMatch(b);
    ClassifyIsFirstMatch(Swap(b));
    NonBlankEmptyIffAllSpace(b.ours);
    NonBlankEmptyIffAllSpace(b.theirs);
    FactsOfSwap(b);
    MirrorTable(FactsOf(b));
  }

  // ---------------------------------------------------------------------
  // Examples

  /** A closed block with the given sides. */
  function Sides(ours: string, theirs: string): Block {
    Block(0, 1, 5, "HEAD", "feature", ours, theirs, None, false, "", "", None, None)
  }

  /** Lines as the classifier keeps them: LF-free, non-blank and stripped. */
  predicate Plain(ls: seq<string>) {
    forall j :: 0 <= j < |ls| ==> '\n' !in ls[j] && ls[j] != [] && Strip(ls[j]) == ls[j]
  }

  lemma {:induction false} PlainKept(ls: seq<string>)
    requires Plain(ls)
    ensures StripNonBlank(ls) == ls
  {
    if |ls| > 0 {
      PlainKept(ls[1..]);
    }
  }

  /** Text joined from plain lines has exactly those lines as its non-blank
      lines. */
  lemma PlainJoinLines(ls: seq<string>)
    requires |ls| >= 1 && Plain(ls)
    ensures NonBlankLines(Join(ls)) == ls
  {
    NonBlankLinesOfJoin(ls);
    PlainKept(ls);
  }

  /** Text joined from plain lines is its own strip and is not blank. */
  lemma PlainJoinStripped(ls: seq<string>)
    requires |ls| >= 1 && Plain(ls)
    ensures Strip(Join(ls)) == Join(ls)
    ensures !AllSpace(Join(ls))
  {
    assert forall j :: 0 <= j < |ls| ==> ls[j] != [];
    StrippedEnds(ls[0]);
    StrippedEnds(ls[|ls| - 1]);
    JoinStripped(ls);
  }

  lemma StrippedEnds(l: string)
    requires l != [] && Strip(l) == l
    ensures !IsSpace(l[0]) && !IsSpace(l[|l| - 1])
  {
    StripSpec(l);
  }

  lemma PlainJoin(ls: seq<string>)
    requires |ls| >= 1 && Plain(ls)
    ensures NonBlankLines(Join(ls)) == ls
    ensures Strip(Join(ls)) == Join(ls)
    ensures !AllSpace(Join(ls))
  {
    PlainJoinLines(ls);
    PlainJoinStripped(ls);
  }

  /** Texts joined from different plain lines differ. */
  lemma PlainJoinInjective(ls: seq<string>, ms: seq<string>)
    requires |ls| >= 1 && |ms| >= 1 && Plain(ls) && Plain(ms) && ls != ms
    ensures Join(ls) != Join(ms)
  {
    SplitJoin(ls);
    SplitJoin(ms);
  }

  /** Appending a line to one side makes that side a superset, whatever the
      lines and however many duplicates they hold, unless every line of both
      sides is an import: n + 1 lines are always within the size guard of n. */
  lemma AddedLineIsTheirsSuperset(ls: seq<string>, extra: string)
    requires |ls| >= 1 && Plain(ls + [extra]) && !AllImport(ls + [extra])
    ensures Classify(Sides(Join(ls), Join(ls + [extra]))) == TheirsSuperset
  {
    var ms := ls + [extra];
    assert Plain(ls) by {
      assert forall j :: 0 <= j < |ls| ==> ls[j] == ms[j];
    }
    PlainJoin(ls);
    PlainJoin(ms);
    PlainJoinInjective(ls, ms);
    assert multiset(ms) == multiset(ls) + multiset{extra};
    var b := Sides(Join(ls), Join(ms));
    var f := FactsOf(b);
    assert !f.malformed && !f.bothBlank && !f.sameStripped && !f.oursNone && !f.theirsNone;
    assert !f.importsOnly && f.theirsGrows;
    ClassifyIsFirstMatch(b);
    TableFirstMatch(f);
  }

  /** A superset past the size guard is not a superset: it falls through to
      `Complex` unless its lines are imports or version lines. */
  lemma GuardRejectsRewrite(ls: seq<string>, ms: seq<string>)
    requires |ls| >= 1 && Plain(ls) && Plain(ms)
    requires multiset(ls) < multiset(ms) && !WithinGrowth(|ms|, |ls|)
    requires !AllImport(ls) && !AllVersion(ls)
    ensures Classify(Sides(Join(ls), Join(ms))) == Complex
  {
    assert |ms| >= 1 by {
      assert |multiset(ms)| > |multiset(ls)|;
    }
    PlainJoin(ls);
    PlainJoin(ms);
    assert ls != ms;
    PlainJoinInjective(ls, ms);
    var b := Sides(Join(ls), Join(ms));
    ClassifyIsFirstMatch(b);
    TableFirstMatch(FactsOf(b));
  }

  /** The same plain lines in another order are a reorder, unless every
      line is an import: the import rule comes first. */
  lemma PermutedLinesAreReorder(ls: seq<string>, ms: seq<string>)
    requires |ls| >= 1 && Plain(ls) && Plain(ms)
    requires multiset(ls) == multiset(ms) && ls != ms && !AllImport(ls)
    ensures Classify(Sides(Join(ls), Join(ms))) == Reorder
  {
    assert |ms| == |ls| by {
      assert |multiset(ms)| == |multiset(ls)|;
    }
    PlainJoin(ls);
    PlainJoin(ms);
    PlainJoinInjective(ls, ms);
    var b := Sides(Join(ls), Join(ms));
    ClassifyIsFirstMatch(b);
    TableFirstMatch(FactsOf(b));
  }

  /** The same plain lines in another order, all of them imports, are an
      import reordering: the import rule fires before the reorder rule. */
  lemma PermutedImportsAreImportOrder(ls: seq<string>, ms: seq<string>)
    requires |ls| >= 1 && Plain(ls) && Plain(ms)
    requires multiset(ls) == multiset(ms) && ls != ms && AllImport(ls)
    ensures Classify(Sides(Join(ls), Join(ms))) == ImportOrder
  {
    assert |ms| == |ls| by {
      assert |multiset(ms)| == |multiset(ls)|;
    }
    forall j | 0 <= j < |ms|
      ensures IsImportLine(ms[j])
    {
      assert ms[j] in multiset(ls);
      var i :| 0 <= i < |ls| && ls[i] == ms[j];
    }
    PlainJoin(ls);
    PlainJoin(ms);
    PlainJoinInjective(ls, ms);
    var b := Sides(Join(ls), Join(ms));
    ClassifyIsFirstMatch(b);
    TableFirstMatch(FactsOf(b));
  }

  /** Sides whose non-blank lines agree, in the same order, but whose text
      differs by more than surrounding whitespace (a blank line or trailing
      spaces inside the block) are tagged reorder, unless every line is an
      import: the import rule comes first. */
  lemma SameLinesInOrderIsReorder(b: Block)
    requires !b.Malformed() && Strip(b.ours) != Strip(b.theirs)
    requires NonBlankLines(b.ours) == NonBlankLines(b.theirs) != []
    requires !AllImport(NonBlankLines(b.ours))
    ensures Classify(b) == Reorder
  {
    ClassifyIsFirstMatch(b);
    TableFirstMatch(FactsOf(b));
  }

  /** Lines of one letter each are plain. */
  lemma LettersArePlain(ls: seq<string>)
    requires forall j :: 0 <= j < |ls| ==> |ls[j]| == 1 && 'a' <= ls[j][0] <= 'z'
    ensures Plain(ls)
  {
    forall j | 0 <= j < |ls|
      ensures '\n' !in ls[j] && ls[j] != [] && Strip(ls[j]) == ls[j]
    {
      StripUnchanged(ls[j]);
    }
  }

  /** Adding a line to two duplicated ones is a superset: four lines are
      within 1.3 times three plus five. */
  lemma SupersetCountsDuplicates()
    ensures Classify(Sides(Join(["a", "a", "b"]), Join(["a", "a", "b", "c"]))) == TheirsSuperset
  {
    var ls := ["a", "a", "b"];
    var ms := ls + ["c"];
    assert ms == ["a", "a", "b", "c"];
    LettersArePlain(ms);
    assert !IsImportLine(ms[0]);
    AddedLineIsTheirsSuperset(ls, "c");
  }

  /** One line against itself plus six or more others exceeds the size
      guard (7 > 1 × 1.3 + 5): the block is complex, not a superset, unless
      the line is an import or a version line. */
  lemma OneAgainstSevenIsComplex(l: string, extra: seq<string>)
    requires Plain([l] + extra) && |extra| >= 6
    requires !IsImportLine(l) && !IsVersionLine(l)
    ensures Classify(Sides(Join([l]), Join([l] + extra))) == Complex
  {
    var ms := [l] + extra;
    assert Plain([l]) by {
      assert ms[0] == l;
    }
    assert multiset(ms) == multiset([l]) + multiset(extra);
    assert extra[0] in multiset(extra);
    GuardRejectsRewrite([l], ms);
  }

  /** Two lines in swapped order are a reorder. */
  lemma SwappedLinesAreReorder()
    ensures Classify(Sides(Join(["a", "b"]), Join(["b", "a"]))) == Reorder
  {
    LettersArePlain(["a", "b"]);
    LettersArePlain(["b", "a"]);
    assert !IsImportLine("a");
    assert multiset(["a", "b"]) == multiset(["b", "a"]);
    PermutedLinesAreReorder(["a", "b"], ["b", "a"]);
  }

  /** Whitespace around a line is a whitespace difference, however much
      of it there is on either end. */
  lemma PaddingIsWhitespace(pad: string, s: string, pad2: string)
    requires AllSpace(pad) && AllSpace(pad2)
    requires |s| > 0 && !IsSpace(s[0]) && !IsSpace(s[|s| - 1])
    ensures Classify(Sides(pad + s + pad2, s)) == Whitespace
  {
    StripPadded(pad, s, pad2);
    StripUnchanged(s);
  }

  /** Surrounding whitespace alone is a whitespace difference. */
  lemma SurroundingSpaceIsWhitespace()
    ensures Classify(Sides("  foo  ", "foo")) == Whitespace
  {
    assert "  foo  " == "  " + "foo" + "  ";
    PaddingIsWhitespace("  ", "foo", "  ");
  }

  /** A blank side against one that is not blank is a deletion of the
      blank side, whichever side it is; two blank sides are both empty. */
  lemma BlankSideIsDeleted(blank: string, text: string)
    requires AllSpace(blank)
    ensures !AllSpace(text) ==> Classify(Sides(blank, text)) == OursDeleted
    ensures !AllSpace(text) ==> Classify(Sides(text, blank)) == TheirsDeleted
    ensures AllSpace(text) ==> Classify(Sides(blank, text)) == BothEmpty
  {
    StripEmptyIffAllSpace(blank);
    StripEmptyIffAllSpace(text);
    NonBlankEmptyIffAllSpace(blank);
    NonBlankEmptyIffAllSpace(text);
    ClassifyIsFirstMatch(Sides(blank, text));
    TableFirstMatch(FactsOf(Sides(blank, text)));
    ClassifyIsFirstMatch(Sides(text, blank));
    TableFirstMatch(FactsOf(Sides(text, blank)));
  }

  /** An empty side against a non-blank one is a deletion of that side. */
  lemma EmptySideIsDeleted()
    ensures Classify(Sides("", "line1")) == OursDeleted
    ensures Classify(Sides("line1", "")) == TheirsDeleted
    ensures Classify(Sides("", " ")) == BothEmpty
  {
    assert !AllSpace("line1") by {
      assert !IsSpace("line1"[0]);
    }
    BlankSideIsDeleted("", "line1");
    BlankSideIsDeleted("", " ");
  }
}
