/** The records the parser produces: one conflict block per marker-delimited
    region, and the closed set of classification tags attached to it. */
module Blocks {

  datatype Option<T> = None | Some(value: T)

  /** The ten classification tags, in the order the classifier tries them. */
  datatype Tag =
    | Complex
    | BothEmpty
    | Whitespace
    | OursDeleted
    | TheirsDeleted
    | ImportOrder
    | TheirsSuperset
    | OursSuperset
    | Reorder
    | VersionDiff

  /** The spelling of each tag in the report. */
  function TagName(t: Tag): string {
    match t
    case Complex => "complex"
    case BothEmpty => "both_empty"
    case Whitespace => "whitespace"
    case OursDeleted => "ours_deleted"
    case TheirsDeleted => "theirs_deleted"
    case ImportOrder => "import_order"
    case TheirsSuperset => "theirs_superset"
    case OursSuperset => "ours_superset"
    case Reorder => "reorder"
    case VersionDiff => "version_diff"
  }

  /** Distinct tags are reported under distinct names. */
  lemma TagNameInjective(t: Tag, u: Tag)
    ensures TagName(t) == TagName(u) ==> t == u
  {
    if TagName(t) == TagName(u) {
      match t
      case Complex => assert TagName(u)[0] == 'c';
      case BothEmpty => assert TagName(u)[0] == 'b';
      case Whitespace => assert TagName(u)[0] == 'w';
      case OursDeleted => assert TagName(u)[..5] == "ours_"; assert TagName(u)[5] == 'd';
      case TheirsDeleted => assert TagName(u)[..7] == "theirs_"; assert TagName(u)[7] == 'd';
      case ImportOrder => assert TagName(u)[0] == 'i';
      case TheirsSuperset => assert TagName(u)[..7] == "theirs_"; assert TagName(u)[7] == 's';
      case OursSuperset => assert TagName(u)[..5] == "ours_"; assert TagName(u)[5] == 's';
      case Reorder => assert TagName(u)[0] == 'r';
      case VersionDiff => assert TagName(u)[0] == 'v';
    }
  }

  /** One conflict region. Line numbers are 1-based. `ours`, `theirs`,
      `base` and the two contexts are LF-joined text. `base` is present only
      on a closed block that met a base marker; `error` is present only on a
      block whose closing marker is missing, and such a block is born with
      the classification `Complex`. */
  datatype Block = Block(
    index: nat,
    startLine: nat,
    endLine: nat,
    oursLabel: string,
    theirsLabel: string,
    ours: string,
    theirs: string,
    base: Option<string>,
    hasBase: bool,
    contextBefore: string,
    contextAfter: string,
    error: Option<string>,
    classification: Option<Tag>)
  {
    predicate Malformed() { error.Some? }
  }

  /** The error text attached to a block without a closing marker
      ("conflict markers incomplete: missing >>>>>>> closing marker"). */
  const IncompleteMessage: string := "冲突标记不完整：缺少 >>>>>>> 结束标记"
}
