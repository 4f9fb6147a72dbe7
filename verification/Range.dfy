/** Byte ranges (section 14 of RFC 9110): the `Range` field and what it means for a representation of known size. */
module ByteRanges {
  import opened Options
  import opened Numerals
  import opened HttpText

  /** The largest integer a JavaScript number holds exactly. */
  const MAX_SAFE_INTEGER: nat := 9_007_199_254_740_991

  const MAX_POSITION_DIGITS: nat := 15

  /** The first number with more digits than that. */
  const LIMIT: nat := 1_000_000_000_000_000

  datatype RangeSpec = Interval(first: nat, last: Option<nat>) | Suffix(length: nat)

  datatype Resolution = Ignore | Unsatisfiable | Serve(start: nat, end: nat)

  /** How positions are read: as the program reads them, or with unbounded integers. */
  datatype Reader = AsCoded | Exact

  /** The digits without leading zeros, of which the last one stays. */
  function Strip(digits: string): string {
    if |digits| >= 2 && digits[0] == '0' then Strip(digits[1..]) else digits
  }

  lemma {:induction false} StripKeepsDigits(digits: string)
    requires AllDigits(digits) && digits != []
    ensures AllDigits(Strip(digits)) && Strip(digits) != []
    ensures |Strip(digits)| == 1 || Strip(digits)[0] != '0'
    ensures Value(Strip(digits)) == Value(digits)
  {
    if |digits| >= 2 && digits[0] == '0' {
      LeadingZero(digits);
      StripKeepsDigits(digits[1..]);
    }
  }

  lemma {:induction false} LeadingZero(digits: string)
    requires AllDigits(digits) && digits != [] && digits[0] == '0'
    ensures Value(digits[1..]) == Value(digits)
  {
    if |digits| == 1 {
      assert digits[..0] == [];
    } else {
      var init := digits[..|digits| - 1];
      LeadingZero(init);
      assert digits[1..][..|digits| - 2] == init[1..];
    }
  }

  lemma {:induction false} ValueAtLeast(digits: string)
    requires AllDigits(digits) && digits != [] && digits[0] != '0'
    ensures Value(digits) >= Pow10(|digits| - 1)
  {
    var init := digits[..|digits| - 1];
    if |digits| == 1 {
      assert init == [];
    } else {
      ValueAtLeast(init);
    }
  }

  lemma {:induction false} Pow10Grows(a: nat, b: nat)
    requires a <= b
    ensures Pow10(a) <= Pow10(b)
    decreases b - a
  {
    if a < b {
      Pow10Grows(a, b - 1);
    }
  }

  lemma LimitIsPow10()
    ensures Pow10(MAX_POSITION_DIGITS) == LIMIT
  {
    assert Pow10(5) == 100_000;
    assert Pow10(10) == 100_000 * 100_000;
  }

  function Position(how: Reader, text: string): Option<nat> {
    if text == [] || !AllDigits(text) then None
    else if how.Exact? then Some(Value(text))
    else
      StripKeepsDigits(text);
      if |Strip(text)| > MAX_POSITION_DIGITS then Some(MAX_SAFE_INTEGER) else Some(Value(Strip(text)))
  }

  function Clamp(n: nat): nat {
    if n < LIMIT then n else MAX_SAFE_INTEGER
  }

  /** A position is read exactly below the limit, and as one larger number from the limit on. */
  lemma PositionIsClamped(text: string)
    ensures Position(AsCoded, text) ==
      match Position(Exact, text) case None => None case Some(n) => Some(Clamp(n))
  {
    if text != [] && AllDigits(text) {
      StripKeepsDigits(text);
      LimitIsPow10();
      var d := Strip(text);
      ValueBound(d);
      if |d| > MAX_POSITION_DIGITS {
        ValueAtLeast(d);
        Pow10Grows(MAX_POSITION_DIGITS, |d| - 1);
      } else {
        Pow10Grows(|d|, MAX_POSITION_DIGITS);
      }
    }
  }

  function Spec(how: Reader, part: string): Option<RangeSpec> {
    var hyphen := IndexOf(part, '-');
    if hyphen == |part| then None
    else
      var before, after := part[..hyphen], part[hyphen + 1..];
      if before == "" then
        match Position(how, after) case None => None case Some(length) => Some(Suffix(length))
      else if Position(how, before).None? then None
      else
        var first := Position(how, before).value;
        if after == "" then Some(Interval(first, None))
        else match Position(how, after)
          case None => None
          case Some(last) => if last < first then None else Some(Interval(first, Some(last)))
  }

  /** `String.prototype.split` on one character. */
  function SplitOn(s: string, c: char): seq<string> {
    var k := IndexOf(s, c);
    if k == |s| then [s] else [s[..k]] + SplitOn(s[k + 1..], c)
  }

  /** The members of the list that are not blank, trimmed. */
  function Members(parts: seq<string>): seq<string> {
    if parts == [] then []
    else
      var init, last := Members(parts[..|parts| - 1]), Trim(parts[|parts| - 1]);
      if last == "" then init else init + [last]
  }

  function SpecsOf(how: Reader, members: seq<string>): Option<seq<RangeSpec>> {
    if members == [] then Some([])
    else
      var init, last := SpecsOf(how, members[..|members| - 1]), Spec(how, members[|members| - 1]);
      if init.None? || last.None? then None else Some(init.value + [last.value])
  }

  /** The members a header lists, if its unit is bytes. */
  function Listed(header: string): Option<seq<string>> {
    var equals := IndexOf(header, '=');
    if equals == |header| || Lower(Trim(header[..equals])) != "bytes" then None
    else Some(Members(SplitOn(header[equals + 1..], ',')))
  }

  function Specs(how: Reader, header: string): Option<seq<RangeSpec>> {
    match Listed(header)
    case None => None
    case Some(members) => if members == [] then None else SpecsOf(how, members)
  }

  method ParseRangeHeader(header: string) returns (r: Option<seq<RangeSpec>>)
    ensures r == Specs(AsCoded, header)
  {
    hide Lower, Trim, Spec;
    var equals := IndexOf(header, '=');
    if equals == |header| || Lower(Trim(header[..equals])) != "bytes" {
      return None;
    }
    var parts := SplitOn(header[equals + 1..], ',');
    var specs: seq<RangeSpec> := [];
    NoParts(parts);
    for i := 0 to |parts|
      invariant SpecsOf(AsCoded, Members(parts[..i])) == Some(specs) && |specs| == |Members(parts[..i])|
    {
      hide Members, SpecsOf;
      OnePartMore(AsCoded, parts, i);
      var part := Trim(parts[i]);
      if part != "" {
        var spec := Spec(AsCoded, part);
        if spec.None? {
          FailureStays(AsCoded, parts, i + 1);
          return None;
        }
        specs := specs + [spec.value];
      }
    }
    assert parts[..|parts|] == parts;
    return if |specs| > 0 then Some(specs) else None;
  }

  lemma NoParts(parts: seq<string>)
    ensures Members(parts[..0]) == [] && SpecsOf(AsCoded, []) == Some([])
  {
  }

  lemma OnePartMore(how: Reader, parts: seq<string>, i: nat)
    requires i < |parts|
    ensures var now, next, part := Members(parts[..i]), Members(parts[..i + 1]), Trim(parts[i]);
      if part == "" then next == now
      else
        && next == now + [part]
        && (SpecsOf(how, next) ==
              if SpecsOf(how, now).None? || Spec(how, part).None? then None
              else Some(SpecsOf(how, now).value + [Spec(how, part).value]))
  {
    hide Trim, Spec;
    var now, part := Members(parts[..i]), Trim(parts[i]);
    assert parts[..i + 1][..i] == parts[..i];
    assert (now + [part])[..|now|] == now;
  }

  lemma {:induction false} FailureStays(how: Reader, parts: seq<string>, i: nat)
    requires i <= |parts| && SpecsOf(how, Members(parts[..i])).None?
    ensures SpecsOf(how, Members(parts)).None?
    decreases |parts| - i
  {
    hide Trim, Spec, Members, SpecsOf;
    if i < |parts| {
      OnePartMore(how, parts, i);
      FailureStays(how, parts, i + 1);
    } else {
      assert parts[..i] == parts;
    }
  }

  /** What the ranges asked for mean; `None` where the program throws on the size. */
  function ResolveRange(specs: seq<RangeSpec>, size: int): Option<Resolution> {
    if size < 0 || size > MAX_SAFE_INTEGER then None else Some(Resolve(specs, size))
  }

  function Resolve(specs: seq<RangeSpec>, size: nat): Resolution {
    if |specs| != 1 then Ignore
    else match specs[0]
      case Suffix(length) =>
        if length == 0 || size == 0 then Unsatisfiable
        else Serve(if size > length then size - length else 0, size - 1)
      case Interval(first, last) =>
        if first >= size then Unsatisfiable
        else Serve(first, if last.None? || last.value > size - 1 then size - 1 else last.value)
  }

  /** The answer to a request with this header: one that cannot be read is ignored. */
  function Answer(how: Reader, header: string, size: nat): Resolution {
    match Specs(how, header)
    case None => Ignore
    case Some(specs) => Resolve(specs, size)
  }

  // ---------------------------------------------------------------------------
  // What is served
  // ---------------------------------------------------------------------------

  /** The range asks for byte `b` of a representation of `size` bytes. */
  ghost predicate Asks(spec: RangeSpec, size: nat, b: nat) {
    match spec
    case Suffix(length) => size - length <= b
    case Interval(first, last) => first <= b && (last.Some? ==> b <= last.value)
  }

  lemma SpecsAreProper(how: Reader, members: seq<string>)
    requires SpecsOf(how, members).Some?
    ensures |SpecsOf(how, members).value| == |members|
    ensures forall k :: 0 <= k < |members| ==> Some(SpecsOf(how, members).value[k]) == Spec(how, members[k])
  {
    hide Spec;
    if members != [] {
      SpecsAreProper(how, members[..|members| - 1]);
    }
  }

  /**
   * The bytes served are those asked for that exist; it is refused exactly when
   * there are none. The program throws exactly on a size that is no safe integer
   * or below zero.
   */
  lemma ServesWhatIsAsked(how: Reader, header: string, size: int, spec: RangeSpec)
    requires Specs(how, header) == Some([spec])
    ensures match ResolveRange([spec], size)
      case None => size < 0 || size > MAX_SAFE_INTEGER
      case Some(Ignore) => false
      case Some(Unsatisfiable) =>
        0 <= size <= MAX_SAFE_INTEGER && forall b: nat :: b < size ==> !Asks(spec, size, b)
      case Some(Serve(start, end)) =>
        && start <= end < size <= MAX_SAFE_INTEGER
        && forall b: nat :: b < size ==> (Asks(spec, size, b) <==> start <= b <= end)
    ensures 0 <= size <= MAX_SAFE_INTEGER ==> ResolveRange([spec], size) == Some(Answer(how, header, size))
  {
    SpecsAreProper(how, Listed(header).value);
    assert [spec][0] == spec;
    assert Spec(how, Listed(header).value[0]) == Some(spec);
  }

  // ---------------------------------------------------------------------------
  // The program's positions against exact ones
  // ---------------------------------------------------------------------------

  /** The member's bounds are both past the limit, and the wrong way round. */
  predicate Inverted(member: string) {
    var hyphen := IndexOf(member, '-');
    && hyphen < |member|
    && Position(Exact, member[..hyphen]).Some? && Position(Exact, member[hyphen + 1..]).Some?
    && LIMIT <= Position(Exact, member[hyphen + 1..]).value < Position(Exact, member[..hyphen]).value
  }

  /** The header's one member has such bounds. */
  predicate Lost(header: string) {
    Listed(header).Some? && |Listed(header).value| == 1 && Inverted(Listed(header).value[0])
  }

  function ClampSpec(spec: RangeSpec): RangeSpec {
    match spec
    case Suffix(length) => Suffix(Clamp(length))
    case Interval(first, last) => Interval(Clamp(first), if last.None? then None else Some(Clamp(last.value)))
  }

  lemma SpecIsClamped(part: string)
    ensures Spec(Exact, part).Some? ==> Spec(AsCoded, part) == Some(ClampSpec(Spec(Exact, part).value))
    ensures Spec(Exact, part).None? ==>
      Spec(AsCoded, part) ==
        if Inverted(part) then Some(Interval(MAX_SAFE_INTEGER, Some(MAX_SAFE_INTEGER))) else None
    ensures Inverted(part) ==> Spec(Exact, part).None?
  {
    hide Position;
    var hyphen := IndexOf(part, '-');
    if hyphen < |part| {
      PositionIsClamped(part[..hyphen]);
      PositionIsClamped(part[hyphen + 1..]);
      NoDigitsNoPosition();
    }
  }

  lemma NoDigitsNoPosition()
    ensures Position(Exact, "").None? && Position(AsCoded, "").None?
  {
  }

  lemma {:induction false} SpecsAreClamped(members: seq<string>)
    ensures SpecsOf(Exact, members).Some? ==>
      && SpecsOf(AsCoded, members).Some?
      && |SpecsOf(AsCoded, members).value| == |SpecsOf(Exact, members).value| == |members|
      && forall k :: 0 <= k < |members| ==>
           SpecsOf(AsCoded, members).value[k] == ClampSpec(SpecsOf(Exact, members).value[k])
    ensures SpecsOf(AsCoded, members).Some? ==> |SpecsOf(AsCoded, members).value| == |members|
    ensures SpecsOf(AsCoded, members).Some? && SpecsOf(Exact, members).None? ==>
      exists k :: 0 <= k < |members| && Inverted(members[k])
  {
    hide Spec, Inverted, ClampSpec;
    if members != [] {
      SpecsAreClamped(members[..|members| - 1]);
      SpecIsClamped(members[|members| - 1]);
    }
  }

  /** A position of the range lies past the limit and still inside the representation, where it matters. */
  predicate Misread(spec: RangeSpec, size: nat) {
    match spec
    case Suffix(length) => LIMIT <= length < size
    case Interval(first, last) =>
      || LIMIT <= first < size
      || (first < LIMIT && last.Some? && LIMIT <= last.value < size - 1)
  }

  lemma ClampedResolvesAlikeIff(spec: RangeSpec, size: nat)
    requires size <= MAX_SAFE_INTEGER
    ensures Resolve([ClampSpec(spec)], size) == Resolve([spec], size) <==> !Misread(spec, size)
  {
  }

  /** The header's one range is inverted past the limit, or misread at this size. */
  predicate Affected(header: string, size: nat) {
    || Lost(header)
    || (&& Listed(header).Some? && |Listed(header).value| == 1
        && Spec(Exact, Listed(header).value[0]).Some? && Misread(Spec(Exact, Listed(header).value[0]).value, size))
  }

  /**
   * For every size the program accepts, it answers as exact arithmetic would
   * unless the header is one range with both bounds past 10^15 and the wrong way
   * round, or with a position past 10^15 that falls inside the representation.
   * The first kind exact arithmetic ignores and the program refuses.
   */
  lemma AnswersExactlyIff(header: string, size: nat)
    requires size <= MAX_SAFE_INTEGER
    ensures Answer(AsCoded, header, size) == Answer(Exact, header, size) <==> !Affected(header, size)
    ensures Lost(header) ==> Answer(AsCoded, header, size) == Unsatisfiable && Answer(Exact, header, size) == Ignore
  {
    hide Spec, Inverted, Misread, Resolve, SpecsOf;
    if Listed(header).Some? && Listed(header).value != [] {
      var members := Listed(header).value;
      MembersAnswer(members, size);
    }
  }

  ghost function Response(how: Reader, members: seq<string>, size: nat): Resolution {
    match SpecsOf(how, members) case None => Ignore case Some(specs) => Resolve(specs, size)
  }

  lemma OneSpec(how: Reader, member: string)
    ensures SpecsOf(how, [member]) == match Spec(how, member) case None => None case Some(spec) => Some([spec])
  {
    hide Spec;
    assert [member][..0] == [];
    assert forall spec: RangeSpec :: [] + [spec] == [spec];
  }

  lemma MembersAnswer(members: seq<string>, size: nat)
    requires size <= MAX_SAFE_INTEGER && members != []
    ensures Response(AsCoded, members, size) == Response(Exact, members, size) <==>
      !(|members| == 1 && (Inverted(members[0])
                           || (Spec(Exact, members[0]).Some? && Misread(Spec(Exact, members[0]).value, size))))
    ensures |members| == 1 && Inverted(members[0]) ==>
      Response(AsCoded, members, size) == Unsatisfiable && Response(Exact, members, size) == Ignore
  {
    hide Spec, Inverted, ClampSpec, Misread;
    SpecsAreClamped(members);
    if |members| == 1 {
      SpecIsClamped(members[0]);
      OneSpec(AsCoded, members[0]);
      OneSpec(Exact, members[0]);
      assert members == [members[0]];
      if SpecsOf(Exact, members).Some? {
        var spec := SpecsOf(Exact, members).value[0];
        ClampedResolvesAlikeIff(spec, size);
        assert SpecsOf(Exact, members).value == [spec];
        assert SpecsOf(AsCoded, members).value == [ClampSpec(spec)];
      }
    }
  }

  // ---------------------------------------------------------------------------
  // What a written range reads as
  // ---------------------------------------------------------------------------

  lemma UnitIsBytes()
    ensures Lower(Trim("bytes")) == "bytes"
  {
    TrimOfTight("bytes");
  }

  lemma IndexIs(s: string, c: char, k: nat)
    requires k <= |s| && (forall i :: 0 <= i < k ==> s[i] != c) && (k < |s| ==> s[k] == c)
    ensures IndexOf(s, c) == k
  {
  }

  /** A header with one member made of digits and hyphens lists that member. */
  lemma OneMemberIsListed(member: string)
    requires member != "" && forall i :: 0 <= i < |member| ==> IsDigit(member[i]) || member[i] == '-'
    ensures Listed("bytes=" + member) == Some([member])
  {
    hide Lower, Trim, IndexOf;
    var header := "bytes=" + member;
    IndexIs(header, '=', 5);
    assert header[..5] == "bytes" && header[6..] == member;
    UnitIsBytes();
    IndexIs(member, ',', |member|);
    TrimOfTight(member);
    assert SplitOn(member, ',') == [member];
    assert [member][..0] == [] && Members([member]) == [] + [member] == [member];
  }

  // ---------------------------------------------------------------------------
  // A list of ranges
  // ---------------------------------------------------------------------------

  /** One place of the list: white space around a member, which may be missing. */
  datatype Item = Item(before: string, member: string, after: string)

  predicate IsItem(item: Item) {
    && IsPad(item.before) && IsPad(item.after) && ',' !in item.member
    && (item.member != "" ==> !IsSpace(item.member[0]) && !IsSpace(item.member[|item.member| - 1]))
  }

  ghost predicate AreItems(items: seq<Item>) {
    items != [] && forall k :: 0 <= k < |items| ==> IsItem(items[k])
  }

  function Texts(items: seq<Item>): (texts: seq<string>)
    ensures |texts| == |items|
  {
    seq(|items|, k requires 0 <= k < |items| => items[k].before + items[k].member + items[k].after)
  }

  /** The members that are there, in order. */
  function Present(items: seq<Item>): seq<string> {
    if items == [] then []
    else if items[0].member == "" then Present(items[1..])
    else [items[0].member] + Present(items[1..])
  }

  lemma ItemIs(item: Item)
    requires IsItem(item)
    ensures Trim(item.before + item.member + item.after) == item.member
    ensures ',' !in item.before + item.member + item.after
  {
    hide Trim;
    assert forall c :: c in item.before + item.member + item.after ==>
      c in item.before || c in item.member || c in item.after;
    if item.member == "" {
      assert item.before + item.member + item.after == item.before + item.after;
      TrimOfBlank(item.before + item.after);
    } else {
      TrimOfPadded(item.before, item.member, item.after);
    }
  }

  lemma {:induction false} SplitOfJoin(texts: seq<string>)
    requires texts != [] && forall k :: 0 <= k < |texts| ==> ',' !in texts[k]
    ensures SplitOn(Join(texts, ','), ',') == texts
  {
    hide IndexOf;
    var s, first := Join(texts, ','), texts[0];
    IndexIs(s, ',', |first|);
    if |texts| == 1 {
      assert texts == [first];
    } else {
      assert s[..|first|] == first && s[|first| + 1..] == Join(texts[1..], ',');
      SplitOfJoin(texts[1..]);
    }
  }

  lemma {:induction false} MembersOfCons(first: string, rest: seq<string>)
    ensures Members([first] + rest) == (if Trim(first) == "" then [] else [Trim(first)]) + Members(rest)
    decreases |rest|
  {
    hide Trim;
    var all := [first] + rest;
    if rest == [] {
      assert all[..0] == [];
    } else {
      MembersOfCons(first, rest[..|rest| - 1]);
      assert all[..|all| - 1] == [first] + rest[..|rest| - 1];
    }
  }

  lemma {:induction false} MembersArePresent(items: seq<Item>)
    requires forall k :: 0 <= k < |items| ==> IsItem(items[k])
    ensures Members(Texts(items)) == Present(items)
  {
    hide Trim, IsItem;
    if items != [] {
      MembersArePresent(items[1..]);
      ItemIs(items[0]);
      assert Texts(items) == [Texts(items)[0]] + Texts(items[1..]);
      MembersOfCons(Texts(items)[0], Texts(items[1..]));
    }
  }

  /** A list in bytes, with any spacing and any empty places, lists the members that are there. */
  lemma ListIs(unit: string, items: seq<Item>)
    requires '=' !in unit && Lower(Trim(unit)) == "bytes" && AreItems(items)
    ensures Listed(unit + "=" + Join(Texts(items), ',')) == Some(Present(items))
  {
    hide Lower, Trim, IndexOf, Members, SplitOn, Join, IsItem;
    var list := Join(Texts(items), ',');
    var header := unit + "=" + list;
    IndexIs(header, '=', |unit|);
    assert header[..|unit|] == unit && header[|unit| + 1..] == list;
    forall k | 0 <= k < |items|
      ensures ',' !in Texts(items)[k]
    {
      ItemIs(items[k]);
    }
    SplitOfJoin(Texts(items));
    MembersArePresent(items);
  }

  /** One member is answered as if it stood alone, however the list is spaced; none and several are ignored. */
  lemma ListIsAnswered(how: Reader, unit: string, items: seq<Item>, size: nat)
    requires '=' !in unit && Lower(Trim(unit)) == "bytes" && AreItems(items)
    ensures Answer(how, unit + "=" + Join(Texts(items), ','), size) ==
      if |Present(items)| != 1 then Ignore
      else match Spec(how, Present(items)[0]) case None => Ignore case Some(spec) => Resolve([spec], size)
  {
    hide Lower, Trim, IndexOf, Spec, Join, IsItem, Listed;
    ListIs(unit, items);
    var members := Present(items);
    if |members| == 1 {
      OneSpec(how, members[0]);
      assert members == [members[0]];
    } else if SpecsOf(how, members).Some? {
      SpecsAreProper(how, members);
    }
  }

  function LastText(last: Option<nat>): string {
    if last.None? then "" else Decimal(last.value)
  }

  ghost predicate ReadExactly(how: Reader, n: nat) {
    how.Exact? || n < LIMIT
  }

  lemma NumeralReads(how: Reader, n: nat)
    requires ReadExactly(how, n)
    ensures Position(how, Decimal(n)) == Some(n)
  {
    ValueOfDecimal(n);
    PositionIsClamped(Decimal(n));
  }

  /** What a written range with a hyphen between two numerals, or after one, is made of. */
  lemma WrittenMember(first: nat, last: Option<nat>)
    ensures var digits, after := Decimal(first), LastText(last);
      var member := digits + "-" + after;
      && Listed("bytes=" + member) == Some([member]) && IndexOf(member, '-') == |digits|
      && member[..|digits|] == digits && member[|digits| + 1..] == after
  {
    hide Listed, IndexOf, Decimal;
    var digits, after := Decimal(first), LastText(last);
    var member := digits + "-" + after;
    forall i | 0 <= i < |member|
      ensures IsDigit(member[i]) || member[i] == '-'
    {
      assert i > |digits| ==> member[i] == after[i - |digits| - 1];
    }
    OneMemberIsListed(member);
    assert forall i :: 0 <= i < |digits| ==> IsDigit(digits[i]);
    IndexIs(member, '-', |digits|);
  }

  /** `bytes=first-last` and `bytes=first-` ask for those bytes; bounds the wrong way round are no range. */
  lemma WrittenRangeReads(how: Reader, first: nat, last: Option<nat>)
    requires ReadExactly(how, first) && (last.Some? ==> ReadExactly(how, last.value))
    ensures Specs(how, "bytes=" + (Decimal(first) + "-" + LastText(last))) ==
      if last.Some? && last.value < first then None else Some([Interval(first, last)])
  {
    hide Listed, IndexOf, Decimal, Position;
    var member := Decimal(first) + "-" + LastText(last);
    WrittenMember(first, last);
    NumeralReads(how, first);
    if last.Some? {
      NumeralReads(how, last.value);
    }
    OneSpec(how, member);
  }

  /** `bytes=-length` asks for the last `length` bytes. */
  lemma WrittenSuffixReads(how: Reader, length: nat)
    requires ReadExactly(how, length)
    ensures Specs(how, "bytes=" + ("-" + Decimal(length))) == Some([Suffix(length)])
  {
    hide Listed, IndexOf, Decimal, Position;
    var member := "-" + Decimal(length);
    assert forall i :: 1 <= i < |member| ==> member[i] == Decimal(length)[i - 1];
    OneMemberIsListed(member);
    IndexIs(member, '-', 0);
    assert member[..0] == "" && member[1..] == Decimal(length);
    NumeralReads(how, length);
    OneSpec(how, member);
  }

  /** A header that asks for everything from byte 10^15 on. */
  function PastLimit(): string {
    "bytes=" + (Decimal(LIMIT) + "-" + "")
  }

  /** A header whose bounds, both past 10^15, are the wrong way round. */
  function InvertedPastLimit(): string {
    "bytes=" + (Decimal(LIMIT + 1) + "-" + Decimal(LIMIT))
  }

  /** There are such headers: exact arithmetic ignores this one, the program answers 416 at every size. */
  lemma InvertedIsLost(size: nat)
    requires size <= MAX_SAFE_INTEGER
    ensures Lost(InvertedPastLimit())
    ensures Answer(Exact, InvertedPastLimit(), size) == Ignore
    ensures Answer(AsCoded, InvertedPastLimit(), size) == Unsatisfiable
  {
    assert Lost(InvertedPastLimit()) by {
      hide Listed, IndexOf, Decimal, Position;
      WrittenMember(LIMIT + 1, Some(LIMIT));
      NumeralReads(Exact, LIMIT + 1);
      NumeralReads(Exact, LIMIT);
    }
    hide Lost, InvertedPastLimit, Answer;
    AnswersExactlyIff(InvertedPastLimit(), size);
  }

  lemma PastLimitAnswers(size: nat)
    requires LIMIT < size <= MAX_SAFE_INTEGER
    ensures !Lost(PastLimit())
    ensures Answer(Exact, PastLimit(), size) == Serve(LIMIT, size - 1)
    ensures Answer(AsCoded, PastLimit(), size) == Unsatisfiable
  {
    hide Listed, IndexOf, Decimal, Position;
    var digits := Decimal(LIMIT);
    var member := digits + "-" + "";
    WrittenMember(LIMIT, None);
    NoDigitsNoPosition();
    WrittenRangeReads(Exact, LIMIT, None);
    NumeralReads(Exact, LIMIT);
    PositionIsClamped(digits);
    OneSpec(AsCoded, member);
  }

  /**
   * The exact answer is given, to every header but the inverted ones, for the
   * sizes up to 10^15 and for no other: past it a range that starts at byte
   * 10^15 is refused although the representation has that byte.
   */
  lemma ExactUpToTheLimit(size: nat)
    requires size <= MAX_SAFE_INTEGER
    ensures size <= LIMIT <==>
      forall header :: !Lost(header) ==> Answer(AsCoded, header, size) == Answer(Exact, header, size)
  {
    if size <= LIMIT {
      forall header | !Lost(header)
        ensures Answer(AsCoded, header, size) == Answer(Exact, header, size)
      {
        AnswersExactlyIff(header, size);
      }
    } else {
      PastLimitAnswers(size);
    }
  }
}
