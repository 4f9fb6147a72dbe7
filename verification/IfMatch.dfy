/** `If-Match` on a write, reduced to the row versions it names. */
module IfMatch {
  import opened Options
  import opened Numerals
  import opened HttpText
  import opened EntityTags

  const MAX_VERSION: nat := 2_147_483_647

  datatype Precondition = AnyVersion | Versions(versions: seq<nat>)

  datatype IfMatchResult = Ok(precondition: Precondition) | NotAList | WeakTag

  function FormatETag(version: nat): Option<string> {
    if 1 <= version <= MAX_VERSION then Some([QUOTE] + Decimal(version) + [QUOTE]) else None
  }

  /** The tag a row at this version carries. */
  function RowTag(version: nat): EntityTag {
    EntityTag(false, Decimal(version))
  }

  /** The version a tag names: one to ten digits, no leading zero, not above the largest version. */
  function ToVersion(value: string): Option<nat> {
    if 1 <= |value| <= 10 && AllDigits(value) && value[0] != '0' && Value(value) <= MAX_VERSION then Some(Value(value))
    else None
  }

  function VersionsOf(tags: seq<EntityTag>): seq<nat> {
    if tags == [] then []
    else
      var init, last := VersionsOf(tags[..|tags| - 1]), ToVersion(tags[|tags| - 1].value);
      if last.Some? then init + [last.value] else init
  }

  predicate SomeWeak(tags: seq<EntityTag>) {
    exists k :: 0 <= k < |tags| && tags[k].weak
  }

  function Parse(header: string): IfMatchResult {
    var trimmed := Trim(header);
    if trimmed == "*" then Ok(AnyVersion)
    else match TagList(trimmed)
      case None => NotAList
      case Some(tags) => if SomeWeak(tags) then WeakTag else Ok(Versions(VersionsOf(tags)))
  }

  method ParseIfMatch(header: string) returns (r: IfMatchResult)
    ensures r == Parse(header)
  {
    hide TagList, Trim, ToVersion;
    var trimmed := Trim(header);
    if trimmed == "*" {
      return Ok(AnyVersion);
    }
    var parsed := ParseEntityTagList(trimmed);
    if parsed.None? {
      return NotAList;
    }
    var tags := parsed.value;
    for i := 0 to |tags|
      invariant forall k :: 0 <= k < i ==> !tags[k].weak
    {
      if tags[i].weak {
        return WeakTag;
      }
    }
    var versions: seq<nat> := [];
    for i := 0 to |tags|
      invariant versions == VersionsOf(tags[..i])
    {
      assert tags[..i + 1][..i] == tags[..i];
      var version := ToVersion(tags[i].value);
      if version.Some? {
        versions := versions + [version.value];
      }
    }
    assert tags[..|tags|] == tags;
    return Ok(Versions(versions));
  }

  /** A tag names a version exactly when it is the very text that version is written as. */
  lemma ToVersionIsOctetEquality(value: string, version: nat)
    ensures ToVersion(value) == Some(version) <==> 1 <= version <= 2_147_483_647 && value == Decimal(version)
  {
    if ToVersion(value) == Some(version) {
      DecimalOfValue(value);
    }
    if 1 <= version <= MAX_VERSION && value == Decimal(version) {
      TenDigits();
      DecimalLength(version, 10);
      ValueOfDecimal(version);
      DecimalHasNoLeadingZero(version);
    }
  }

  lemma TenDigits()
    ensures Pow10(10) == 10_000_000_000
  {
    assert Pow10(5) == 100_000;
  }

  lemma {:induction false} VersionsOfMeans(tags: seq<EntityTag>, version: nat)
    ensures version in VersionsOf(tags) <==> exists k :: 0 <= k < |tags| && ToVersion(tags[k].value) == Some(version)
  {
    hide ToVersion;
    if tags != [] {
      var init, last := tags[..|tags| - 1], |tags| - 1;
      VersionsOfMeans(init, version);
      assert forall k :: 0 <= k < last ==> init[k] == tags[k];
      if version in VersionsOf(tags) && version !in VersionsOf(init) {
        assert ToVersion(tags[last].value) == Some(version);
      }
    }
  }

  /**
   * A header that is a list of strong tags lets a write through for a row at
   * `version` exactly when one of them matches that row's own tag by strong
   * comparison; it names no version a row cannot have.
   */
  lemma MatchesByStrongComparison(header: string, tags: seq<EntityTag>, version: nat)
    requires Writes(Trim(header), tags) && !SomeWeak(tags)
    ensures Parse(header).Ok? && Parse(header).precondition.Versions?
    ensures version in Parse(header).precondition.versions <==>
      1 <= version <= MAX_VERSION && exists k :: 0 <= k < |tags| && StrongMatch(tags[k], RowTag(version))
  {
    hide ToVersion, TagList, Writes, Decimal;
    ListIsInverseOfRendering(Trim(header), tags);
    StarIsNoList(tags);
    VersionsOfMeans(tags, version);
    forall k | 0 <= k < |tags|
      ensures ToVersion(tags[k].value) == Some(version) <==>
        1 <= version <= MAX_VERSION && tags[k].value == Decimal(version)
    {
      ToVersionIsOctetEquality(tags[k].value, version);
    }
  }

  lemma StarIsNoList(tags: seq<EntityTag>)
    ensures TagList("*") != Some(tags)
  {
  }

  /** A header is refused exactly when it is neither `*` nor a list, or holds a weak tag. */
  lemma RefusedIff(header: string)
    ensures Parse(header) == NotAList <==> Trim(header) != "*" && forall tags :: !Writes(Trim(header), tags)
    ensures Parse(header) == WeakTag <==> exists tags :: Writes(Trim(header), tags) && SomeWeak(tags)
  {
    hide TagList, Writes, Trim;
    forall tags
      ensures TagList(Trim(header)) == Some(tags) <==> Writes(Trim(header), tags)
      ensures TagList("*") != Some(tags)
    {
      ListIsInverseOfRendering(Trim(header), tags);
      StarIsNoList(tags);
    }
    if TagList(Trim(header)).Some? {
      assert Writes(Trim(header), TagList(Trim(header)).value);
    }
  }

  /** A tag on its own is a list of one. */
  lemma OneTagIsAList(tag: EntityTag)
    requires IsTag(tag)
    ensures Writes(Format(tag), [tag])
  {
    hide Format, IsTag;
    var seps, tags := ["", ""], [tag];
    assert seps[1..] == [""] && tags[1..] == [];
    assert Render(seps[1..], tags[1..]) == "";
    assert Render(seps, tags) == "" + Format(tag) + "" == Format(tag);
    assert Separate(seps);
    assert WrittenWith(Format(tag), tags, seps);
  }

  lemma RowTagIsATag(version: nat)
    ensures IsTag(RowTag(version)) && Trim(Format(RowTag(version))) == Format(RowTag(version))
  {
    var text := Format(RowTag(version));
    assert text[0] == QUOTE && text[|text| - 1] == QUOTE;
    TrimOfTight(text);
  }

  /** The tag a representation is served with makes the next write conditional on that one version. */
  lemma ServedTagRoundTrip(version: nat)
    requires 1 <= version <= MAX_VERSION
    ensures Parse(FormatETag(version).value) == Ok(Versions([version]))
  {
    hide Trim, TagList, IsTag, ToVersion, Decimal, Writes;
    var tag := RowTag(version);
    assert FormatETag(version).value == Format(tag) by {
      assert "" + [QUOTE] == [QUOTE];
    }
    hide Format;
    RowTagIsATag(version);
    OneTagIsAList(tag);
    ListIsInverseOfRendering(Format(tag), [tag]);
    StarIsNoList([tag]);
    ToVersionIsOctetEquality(tag.value, version);
    assert [tag][..0] == [] && [tag][0] == tag && VersionsOf([tag]) == [] + [version] == [version];
    assert !SomeWeak([tag]);
    assert Format(tag) != "*" by {
      assert TagList(Format(tag)) == Some([tag]);
    }
  }
}
