/**
 * The relation strings of the join serializer, "source-type-target[:custom]"
 * (backend/utils/serializers.py).
 */
module RelationText {
  import opened Wrappers
  import opened Strings

  datatype Kind = OneToMany | ManyToOne | OneToOne | ManyToMany

  /** What one string says; the two malformed forms are skipped with a warning. */
  datatype Entry =
    | Malformed
    | UnknownKind
    | Relation(src: string, kind: Kind, dst: string, custom: string)

  function KindName(kind: Kind): string {
    match kind
    case OneToMany => "o2m"
    case ManyToOne => "m2o"
    case OneToOne => "o2o"
    case ManyToMany => "m2m"
  }

  function KindOf(name: string): Option<Kind> {
    if name == "o2m" then Some(OneToMany)
    else if name == "m2o" then Some(ManyToOne)
    else if name == "o2o" then Some(OneToOne)
    else if name == "m2m" then Some(ManyToMany)
    else None
  }

  function ParseEntry(text: string): Entry {
    var (relation, custom) := SplitOnce(text, ':');
    var info := Split(Strip(relation), '-');
    if |info| != 3 then Malformed
    else
      match KindOf(Lower(info[1]))
      case None => UnknownKind
      case Some(kind) =>
        Relation(Lower(info[0]), kind, Lower(info[2]), if custom.Some? then Strip(custom.value) else "")
  }

  function FormatEntry(src: string, kind: Kind, dst: string, custom: string): string {
    src + "-" + KindName(kind) + "-" + dst + if custom == "" then "" else ":" + custom
  }

  predicate IsModel(name: string) {
    name != "" && Trimmed(name) && '-' !in name && ':' !in name
  }

  lemma KindNames(kind: Kind)
    ensures KindOf(Lower(KindName(kind))) == Some(kind)
    ensures '-' !in KindName(kind) && ':' !in KindName(kind)
  {
    assert Lower(KindName(kind)) == KindName(kind);
  }

  lemma SplitRelation(src: string, kind: Kind, dst: string)
    requires IsModel(src) && IsModel(dst)
    ensures Strip(src + "-" + KindName(kind) + "-" + dst) == src + "-" + KindName(kind) + "-" + dst
    ensures Split(src + "-" + KindName(kind) + "-" + dst, '-') == [src, KindName(kind), dst]
  {
    var text, parts := src + "-" + KindName(kind) + "-" + dst, [src, KindName(kind), dst];
    assert text[0] == src[0] && text[|text| - 1] == dst[|dst| - 1];
    StripTrims(text);
    KindNames(kind);
    assert parts[1..] == [KindName(kind), dst] && parts[1..][1..] == [dst];
    assert Join(parts[1..], '-') == KindName(kind) + ['-'] + dst;
    assert Join(parts, '-') == src + ['-'] + (KindName(kind) + ['-'] + dst) == text;
    SplitJoin(parts, '-');
  }

  /** Parsing undoes formatting, up to the case of the model names. */
  lemma ParseFormat(src: string, kind: Kind, dst: string, custom: string)
    requires IsModel(src) && IsModel(dst) && Trimmed(custom)
    ensures ParseEntry(FormatEntry(src, kind, dst, custom)) == Relation(Lower(src), kind, Lower(dst), custom)
  {
    var relation, text := src + "-" + KindName(kind) + "-" + dst, FormatEntry(src, kind, dst, custom);
    KindNames(kind);
    SplitRelation(src, kind, dst);
    assert ':' !in relation;
    if custom == "" {
      assert text == relation;
    } else {
      assert text == relation + [':'] + custom;
      SplitOnceAt(relation, ':', custom);
      StripTrims(custom);
    }
  }

  /** The text consists of three parts between two dashes. */
  ghost predicate ThreeParts(text: string, a: string, b: string, c: string) {
    text == a + "-" + b + "-" + c && '-' !in a && '-' !in b && '-' !in c
  }

  lemma PartsAreSplit(text: string, a: string, b: string, c: string)
    ensures ThreeParts(text, a, b, c) <==> Split(text, '-') == [a, b, c]
  {
    var parts := [a, b, c];
    assert parts[1..] == [b, c] && parts[1..][1..] == [c];
    assert Join(parts[1..], '-') == b + ['-'] + c;
    assert Join(parts, '-') == a + ['-'] + (b + ['-'] + c) == a + "-" + b + "-" + c;
    assert '-' !in a && '-' !in b && '-' !in c <==> Without(parts, '-') by {
      assert parts[0] == a && parts[1] == b && parts[2] == c;
    }
    if ThreeParts(text, a, b, c) {
      SplitJoin(parts, '-');
    }
    JoinSplit(text, '-');
  }

  /**
   * What any text means, malformed or not: before the first colon, without outer
   * white space, it must have three parts, the second a kind in any letter case.
   */
  lemma ParseIsExact(text: string, a: string, b: string, c: string)
    ensures var relation := Strip(SplitOnce(text, ':').0);
      && (ParseEntry(text).Malformed? ==> !ThreeParts(relation, a, b, c))
      && (ThreeParts(relation, a, b, c) ==>
           && (ParseEntry(text).UnknownKind? <==> Lower(b) !in {"o2m", "m2o", "o2o", "m2m"})
           && (ParseEntry(text).Relation? ==>
                && ParseEntry(text).src == Lower(a) && ParseEntry(text).dst == Lower(c)
                && KindName(ParseEntry(text).kind) == Lower(b)))
  {
    PartsAreSplit(Strip(SplitOnce(text, ':').0), a, b, c);
  }

  lemma ParsedHasParts(text: string) returns (a: string, b: string, c: string)
    requires !ParseEntry(text).Malformed?
    ensures ThreeParts(Strip(SplitOnce(text, ':').0), a, b, c)
  {
    var info := Split(Strip(SplitOnce(text, ':').0), '-');
    a, b, c := info[0], info[1], info[2];
    PartsAreSplit(Strip(SplitOnce(text, ':').0), a, b, c);
  }
}
