/** The per-file part of the report: every parsed block gets a classification
    unless it already has one, and the blocks are counted as resolvable
    mechanically or as needing a decision. */
module Report {
  import opened Text
  import opened Blocks
  import opened Scanner
  import opened Classifier

  /** The tags whose blocks can be resolved without a decision. Deletions,
      version changes and complex blocks are left to the user. */
  predicate IsAuto(t: Tag) {
    t == Whitespace || t == ImportOrder || t == OursSuperset || t == TheirsSuperset
    || t == Reorder || t == BothEmpty
  }

  /** The automatic tags as the report spells them. */
  const AutoNames: set<string> :=
    {"whitespace", "import_order", "ours_superset", "theirs_superset", "reorder", "both_empty"}

  /** Testing a tag's spelling against the set of automatic names, as the
      report does, is testing the tag itself: no other tag is spelled like an
      automatic one. */
  lemma IsAutoByName(t: Tag)
    ensures IsAuto(t) <==> TagName(t) in AutoNames
  {
    if TagName(t) in AutoNames {
      var n := TagName(t);
      if n == "whitespace" { TagNameInjective(t, Whitespace); }
      else if n == "import_order" { TagNameInjective(t, ImportOrder); }
      else if n == "ours_superset" { TagNameInjective(t, OursSuperset); }
      else if n == "theirs_superset" { TagNameInjective(t, TheirsSuperset); }
      else if n == "reorder" { TagNameInjective(t, Reorder); }
      else { TagNameInjective(t, BothEmpty); }
    }
  }

  /** The block with its classification filled in. A block that arrives
      classified (an unclosed one) keeps its tag. */
  function Classified(b: Block): (r: Block)
    ensures r.classification.Some?
    ensures r.(classification := b.classification) == b
    ensures b.classification.Some? ==> r == b
    ensures b.classification.None? ==> r.classification == Some(Classify(b))
  {
    if b.classification.Some? then b else b.(classification := Some(Classify(b)))
  }

  predicate AllClassified(bs: seq<Block>) {
    forall j :: 0 <= j < |bs| ==> bs[j].classification.Some?
  }

  function Tags(bs: seq<Block>): (ts: seq<Tag>)
    requires AllClassified(bs)
    ensures |ts| == |bs|
  {
    seq(|bs|, j requires 0 <= j < |bs| => bs[j].classification.value)
  }

  /** How many of the tags are automatic, counted tag by tag. */
  function AutoTotal(m: multiset<Tag>): nat {
    m[Whitespace] + m[ImportOrder] + m[OursSuperset] + m[TheirsSuperset] + m[Reorder] + m[BothEmpty]
  }

  /** How many of the tags need a decision, counted tag by tag. */
  function ReviewTotal(m: multiset<Tag>): nat {
    m[Complex] + m[OursDeleted] + m[TheirsDeleted] + m[VersionDiff]
  }

  /** One more tag adds one to exactly one of the two totals. */
  lemma CountsAddOne(m: multiset<Tag>, t: Tag)
    ensures AutoTotal(m + multiset{t}) == AutoTotal(m) + (if IsAuto(t) then 1 else 0)
    ensures ReviewTotal(m + multiset{t}) == ReviewTotal(m) + (if IsAuto(t) then 0 else 1)
  {
    match t
    case Complex =>
    case BothEmpty =>
    case Whitespace =>
    case OursDeleted =>
    case TheirsDeleted =>
    case ImportOrder =>
    case TheirsSuperset =>
    case OursSuperset =>
    case Reorder =>
    case VersionDiff =>
  }

  /** Every tag is counted exactly once, on one side or the other. */
  lemma {:induction false} TotalsPartition(ts: seq<Tag>)
    ensures AutoTotal(multiset(ts)) + ReviewTotal(multiset(ts)) == |ts|
  {
    if |ts| > 0 {
      var init := ts[..|ts| - 1];
      TotalsPartition(init);
      assert ts == init + [ts[|ts| - 1]];
      CountsAddOne(multiset(init), ts[|ts| - 1]);
    }
  }

  /** Fills in the classification of every block, keeping preset ones. */
  function ClassifyAll(blocks: seq<Block>): (r: seq<Block>)
    ensures |r| == |blocks| && AllClassified(r)
    ensures forall j :: 0 <= j < |blocks| ==>
              r[j].(classification := blocks[j].classification) == blocks[j]
    ensures forall j :: 0 <= j < |blocks| ==>
              r[j].classification.value ==
                if blocks[j].classification.Some? then blocks[j].classification.value
                else Classify(blocks[j])
  {
    seq(|blocks|, j requires 0 <= j < |blocks| => Classified(blocks[j]))
  }

  /** Counts the automatic tags one by one. */
  method CountAuto(ts: seq<Tag>) returns (autoCount: nat)
    ensures autoCount == AutoTotal(multiset(ts))
    ensures autoCount <= |ts|
  {
    autoCount := 0;
    var i := 0;
    while i < |ts|
      invariant 0 <= i <= |ts|
      invariant autoCount == AutoTotal(multiset(ts[..i]))
    {
      assert ts[..i + 1] == ts[..i] + [ts[i]];
      CountsAddOne(multiset(ts[..i]), ts[i]);
      if IsAuto(ts[i]) {
        autoCount := autoCount + 1;
      }
      i := i + 1;
    }
    assert ts[..i] == ts;
    TotalsPartition(ts);
  }

  /** Classifies the blocks of one file and counts them: the automatic count
      goes tag by tag, the other count is what remains, and that remainder is
      exactly the number of blocks with a tag that needs a decision. */
  method Tally(blocks: seq<Block>) returns (classified: seq<Block>, autoCount: nat, complexCount: nat)
    ensures classified == ClassifyAll(blocks)
    ensures autoCount == AutoTotal(multiset(Tags(classified)))
    ensures complexCount == ReviewTotal(multiset(Tags(classified)))
    ensures autoCount + complexCount == |blocks|
  {
    classified := ClassifyAll(blocks);
    var ts := Tags(classified);
    autoCount := CountAuto(ts);
    TotalsPartition(ts);
    complexCount := |blocks| - autoCount;
  }

  /** What one text file contributes to the report. */
  datatype FileReport = FileReport(blocks: seq<Block>, totalLines: nat, autoCount: nat, complexCount: nat)

  /** Parses, classifies and counts the conflicts of one file's text. The
      line total is taken from the text as given. The file is read in text
      mode, so its line endings are already LF; for such a text the total is
      exactly the number of lines the scanner walks. */
  method AnalyzeText(content: string) returns (r: FileReport)
    ensures r.blocks == ClassifyAll(ParseConflictBlocks(content))
    ensures |r.blocks| == |ParseConflictBlocks(content)| && AllClassified(r.blocks)
    ensures forall j :: 0 <= j < |r.blocks| && r.blocks[j].Malformed() ==>
              r.blocks[j].classification == Some(Complex)
    ensures r.totalLines == CountChar(content, '\n') + 1
    ensures '\r' !in content ==> r.totalLines == |Lines(content)|
    ensures r.autoCount == AutoTotal(multiset(Tags(r.blocks)))
    ensures r.complexCount == ReviewTotal(multiset(Tags(r.blocks)))
    ensures r.autoCount + r.complexCount == |r.blocks|
  {
    var parsed := ParseConflictBlocks(content);
    var classified, autoCount, complexCount := Tally(parsed);
    forall j | 0 <= j < |classified| && classified[j].Malformed()
      ensures classified[j].classification == Some(Complex)
    {
      BlockFaithful(Lines(content), j);
    }
    if '\r' !in content {
      NormalizeWithoutCr(content);
    }
    r := FileReport(classified, |Split(content)|, autoCount, complexCount);
  }
}
