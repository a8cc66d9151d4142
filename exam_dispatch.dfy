/**
 * `GetExamParser` (pkg/parse/exam.go): the text before the first "." of a
 * tag picks the package, and the whole tag is looked up in that package's
 * table.
 */
module ExamDispatch {
  import opened Wrappers
  import GoStrings
  import EnvRegistry
  import FileRegistry

  /** A parser found by the dispatch, named by the kind it builds. */
  datatype Parser = EnvParser(envKind: EnvRegistry.Kind) | FileParser(fileKind: FileRegistry.Kind)

  /** The `before` part of `strings.Cut(ty, ".")`: everything up to the first ".", or all of it. */
  function Category(ty: string): (c: string)
    ensures c <= ty && '.' !in c
    ensures c == ty || ty[|c|] == '.'
  {
    match GoStrings.IndexOf(ty, '.')
    case None => ty
    case Some(i) => ty[..i]
  }

  /** The category of `a + "." + b` is `a` when `a` has no dot. */
  lemma CategoryOfDotted(a: string, b: string)
    requires '.' !in a
    ensures Category(a + "." + b) == a
  {
    GoStrings.IndexOfFirst(a, '.', b);
    assert (a + "." + b)[..|a|] == a;
  }

  /**
   * `GetExamParser`: the "env" category is looked up in the env table and
   * the "file" category in the file table, each with the whole tag; any
   * other category finds nothing.
   */
  function GetExamParser(ty: string, notEmptyWins: bool): (r: Option<Parser>)
    ensures ty in EnvRegistry.Parsers ==> r == Some(EnvParser(EnvRegistry.Parsers[ty]))
    ensures ty in FileRegistry.Parsers(notEmptyWins) ==>
              r == Some(FileParser(FileRegistry.Parsers(notEmptyWins)[ty]))
    ensures ty !in EnvRegistry.Parsers && ty !in FileRegistry.Parsers(notEmptyWins) ==> r == None
  {
    EnvKeyCategory(ty);
    FileKeyCategory(ty, notEmptyWins);
    match Category(ty)
    case "env" =>
      (match EnvRegistry.GetParser(ty) case Some(k) => Some(EnvParser(k)) case None => None)
    case "file" =>
      (match FileRegistry.GetParser(ty, notEmptyWins) case Some(k) => Some(FileParser(k)) case None => None)
    case _ => None
  }

  /** Every `env.*` tag sits in the "env" category. */
  lemma EnvTagCategory(k: EnvRegistry.Kind)
    ensures Category(EnvRegistry.TypeOf(k)) == "env"
  {
    var t := EnvRegistry.TypeOf(k);
    assert t == "env" + "." + t[4..] by {
      match k
      case IsSetKind =>
      case NotEmptyKind =>
      case RegexKind =>
      case OptionKind =>
      case IntKind =>
      case IntRangeKind =>
      case FloatKind =>
      case FloatRangeKind =>
      case FileKind =>
      case DirKind =>
      case Ipv4Kind =>
      case Ipv6Kind =>
      case IpKind =>
      case HostnameKind =>
    }
    CategoryOfDotted("env", t[4..]);
  }

  /** Every key of the env table sits in the "env" category. */
  lemma EnvKeyCategory(ty: string)
    ensures ty in EnvRegistry.Parsers ==> Category(ty) == "env"
  {
    if ty in EnvRegistry.Parsers {
      EnvRegistry.TableIsExact();
      EnvTagCategory(EnvRegistry.Parsers[ty]);
    }
  }

  /** Every key of the file table sits in the "file" category. */
  lemma FileKeyCategory(ty: string, notEmptyWins: bool)
    ensures ty in FileRegistry.Parsers(notEmptyWins) ==> Category(ty) == "file"
  {
    if ty in FileRegistry.Parsers(notEmptyWins) {
      FileRegistry.FourKeys(notEmptyWins);
      assert ty == "file" + "." + ty[5..];
      CategoryOfDotted("file", ty[5..]);
    }
  }

  /** The whole tag is looked up, not the part after the category. */
  lemma FullTagLookedUp(notEmptyWins: bool)
    ensures GetExamParser("env.is-set", notEmptyWins) == Some(EnvParser(EnvRegistry.IsSetKind))
  {
    CategoryOfDotted("env", "is-set");
    assert "env" + "." + "is-set" == "env.is-set";
    EnvRegistry.GetParserExamples();
  }

  /** A tag without a dot is its own category, which is neither "env" nor "file". */
  lemma SuffixAloneNotFound(notEmptyWins: bool)
    ensures GetExamParser("is-set", notEmptyWins) == None
  {
    assert GoStrings.IndexOf("is-set", '.') == None;
    assert Category("is-set") == "is-set";
  }

  /** An unknown category finds nothing, whatever follows it. */
  lemma UnknownCategoryNotFound(notEmptyWins: bool)
    ensures GetExamParser("inexistent.is-set", notEmptyWins) == None
  {
    CategoryOfDotted("inexistent", "is-set");
    assert "inexistent" + "." + "is-set" == "inexistent.is-set";
  }
}
