/**
 * The `env.*` tag table and its lookup (`parsers` and `GetParser` in
 * pkg/exams/env/env.go). A parser is identified by the kind it builds.
 * The float, float-range, IPv6 and hostname kinds are registered under
 * their tags but their exams are not part of this model.
 */
module EnvRegistry {
  import opened Wrappers
  import EnvIsSet
  import EnvNotEmpty
  import EnvRegex
  import EnvOption
  import EnvInt
  import EnvIntRange
  import EnvFile
  import EnvDir
  import EnvIpv4
  import EnvIp

  datatype Kind =
    | IsSetKind | NotEmptyKind | RegexKind | OptionKind | IntKind | IntRangeKind | FloatKind
    | FloatRangeKind | FileKind | DirKind | Ipv4Kind | Ipv6Kind | IpKind | HostnameKind

  /** Each kind's `Type()`. */
  function TypeOf(k: Kind): string
  {
    match k
    case IsSetKind => EnvIsSet.IsSet.Type()
    case NotEmptyKind => EnvNotEmpty.NotEmpty.Type()
    case RegexKind => EnvRegex.Regex.Type()
    case OptionKind => EnvOption.Option.Type()
    case IntKind => EnvInt.Int.Type()
    case IntRangeKind => EnvIntRange.IntRange.Type()
    case FloatKind => "env.float"
    case FloatRangeKind => "env.float-range"
    case FileKind => EnvFile.File.Type()
    case DirKind => EnvDir.Dir.Type()
    case Ipv4Kind => EnvIpv4.Ipv4.Type()
    case Ipv6Kind => "env.ipv6"
    case IpKind => EnvIp.Ip.Type()
    case HostnameKind => "env.hostname"
  }

  /** The `parsers` literal: every kind under its own tag. */
  const Parsers: map<string, Kind> := map[
    TypeOf(IsSetKind) := IsSetKind, TypeOf(NotEmptyKind) := NotEmptyKind,
    TypeOf(RegexKind) := RegexKind, TypeOf(OptionKind) := OptionKind,
    TypeOf(IntKind) := IntKind, TypeOf(IntRangeKind) := IntRangeKind,
    TypeOf(FloatKind) := FloatKind, TypeOf(FloatRangeKind) := FloatRangeKind,
    TypeOf(FileKind) := FileKind, TypeOf(DirKind) := DirKind,
    TypeOf(Ipv4Kind) := Ipv4Kind, TypeOf(Ipv6Kind) := Ipv6Kind,
    TypeOf(IpKind) := IpKind, TypeOf(HostnameKind) := HostnameKind]

  /** `GetParser`: the kind registered under `ty`, if any. */
  function GetParser(ty: string): (r: Option<Kind>)
    ensures r.Some? <==> ty in Parsers
    ensures r.Some? ==> r.value == Parsers[ty]
  {
    if ty in Parsers then Some(Parsers[ty]) else None
  }

  /** The kind a tag names, read off the tag text, by its length first. */
  function KindOfTag(t: string): Option<Kind>
  {
    if |t| == 6 then (if t == "env.ip" then Some(IpKind) else None)
    else if |t| == 7 then
      (if t == "env.int" then Some(IntKind) else if t == "env.dir" then Some(DirKind) else None)
    else if |t| == 8 then
      (if t == "env.file" then Some(FileKind) else if t == "env.ipv4" then Some(Ipv4Kind)
       else if t == "env.ipv6" then Some(Ipv6Kind) else None)
    else if |t| == 9 then
      (if t == "env.regex" then Some(RegexKind) else if t == "env.float" then Some(FloatKind) else None)
    else if |t| == 10 then (if t == "env.is-set" then Some(IsSetKind) else None)
    else if |t| == 11 then (if t == "env.options" then Some(OptionKind) else None)
    else if |t| == 12 then (if t == "env.hostname" then Some(HostnameKind) else None)
    else if |t| == 13 then
      (if t == "env.not-empty" then Some(NotEmptyKind) else if t == "env.int-range" then Some(IntRangeKind) else None)
    else if |t| == 15 then (if t == "env.float-range" then Some(FloatRangeKind) else None)
    else None
  }

  /** Every kind's tag names that kind. */
  lemma KindOfOwnTag(k: Kind)
    ensures KindOfTag(TypeOf(k)) == Some(k)
  {
    match k
    case IsSetKind =>
    case NotEmptyKind =>
    case RegexKind =>
    case OptionKind =>
    case IntKind =>
    case IntRangeKind =>
      assert "env.int-range"[4] != "env.not-empty"[4];
    case FloatKind =>
      assert "env.float"[4] != "env.regex"[4];
    case FloatRangeKind =>
    case FileKind =>
    case DirKind =>
      assert "env.dir"[4] != "env.int"[4];
    case Ipv4Kind =>
      assert "env.ipv4"[4] != "env.file"[4];
    case Ipv6Kind =>
      assert "env.ipv6"[4] != "env.file"[4];
      assert "env.ipv6"[7] != "env.ipv4"[7];
    case IpKind =>
    case HostnameKind =>
  }

  /** No two kinds share a tag. */
  lemma TagsDistinct()
    ensures forall a: Kind, b: Kind :: TypeOf(a) == TypeOf(b) ==> a == b
  {
    forall a: Kind, b: Kind | TypeOf(a) == TypeOf(b)
      ensures a == b
    {
      KindOfOwnTag(a);
      KindOfOwnTag(b);
    }
  }

  /** Each kind is registered under its own tag. */
  lemma RegisteredUnderOwnTag(k: Kind)
    ensures TypeOf(k) in Parsers && Parsers[TypeOf(k)] == k
  {
    TagsDistinct();
    match k
    case IsSetKind =>
    case NotEmptyKind =>
    case RegexKind =>
    case OptionKind =>
    case IntKind =>
    case IntRangeKind =>
    case FloatKind =>
    case FloatRangeKind =>
    case FileKind =>
    case DirKind =>
    case Ipv4Kind =>
    case Ipv6Kind =>
    case IpKind =>
    case HostnameKind =>
  }

  /** The keys are exactly the tags, and each key leads to the kind with that tag. */
  lemma TableIsExact()
    ensures forall k: Kind :: TypeOf(k) in Parsers && Parsers[TypeOf(k)] == k
    ensures forall ty | ty in Parsers :: TypeOf(Parsers[ty]) == ty
  {
    forall k: Kind
      ensures TypeOf(k) in Parsers && Parsers[TypeOf(k)] == k
    {
      RegisteredUnderOwnTag(k);
    }
  }

  lemma GetParserExamples()
    ensures GetParser("inexistent") == None
    ensures GetParser("env.is-set") == Some(IsSetKind)
  {
    TableIsExact();
    assert TypeOf(IsSetKind) == "env.is-set";
  }
}
