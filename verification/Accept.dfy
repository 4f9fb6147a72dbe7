/**
 * Proactive negotiation on the `Accept` field (sections 12.5.1, 12.4.2, 5.6.2
 * and 5.6.4 of RFC 9110).
 */
module AcceptSplit {
  import opened Options
  import opened HttpText

  const BACKSLASH: char := '\\'

  /** The splitting loop from character `i` on. */
  function SplitFrom(field: string, d: char, i: nat, start: nat, quoted: bool, parts: seq<string>): Option<seq<string>>
    requires start <= |field| && start <= i
    decreases |field| - i
  {
    if i >= |field| then (if quoted then None else Some(parts + [field[start..]]))
    else if quoted then
      if field[i] == BACKSLASH then SplitFrom(field, d, i + 2, start, true, parts)
      else SplitFrom(field, d, i + 1, start, field[i] != QUOTE, parts)
    else if field[i] == QUOTE then SplitFrom(field, d, i + 1, start, true, parts)
    else if field[i] == d then SplitFrom(field, d, i + 1, i + 1, false, parts + [field[start..i]])
    else SplitFrom(field, d, i + 1, start, false, parts)
  }

  function Split(field: string, d: char): Option<seq<string>> {
    SplitFrom(field, d, 0, 0, false, [])
  }

  /** From `i` on, quotes are balanced and no delimiter stands outside them. */
  predicate CleanFrom(s: string, d: char, i: nat, quoted: bool)
    decreases |s| - i
  {
    if i >= |s| then !quoted
    else if quoted then
      if s[i] == BACKSLASH then CleanFrom(s, d, i + 2, true) else CleanFrom(s, d, i + 1, s[i] != QUOTE)
    else if s[i] == QUOTE then CleanFrom(s, d, i + 1, true)
    else s[i] != d && CleanFrom(s, d, i + 1, false)
  }

  /** One member: quotes balanced, no delimiter outside quotes. */
  predicate IsMember(s: string, d: char) {
    CleanFrom(s, d, 0, false)
  }

  ghost predicate AllMembers(parts: seq<string>, d: char) {
    forall k :: 0 <= k < |parts| ==> IsMember(parts[k], d)
  }

  method SplitUnquoted(field: string, d: char) returns (r: Option<seq<string>>)
    ensures r == Split(field, d)
  {
    var parts: seq<string> := [];
    var start, quoted := 0, false;
    var i := 0;
    while i < |field|
      invariant start <= |field| && start <= i
      invariant Split(field, d) == SplitFrom(field, d, i, start, quoted, parts)
      decreases |field| - i
    {
      var c := field[i];
      if quoted {
        if c == BACKSLASH {
          i := i + 1;
        } else if c == QUOTE {
          quoted := false;
        }
      } else if c == QUOTE {
        quoted := true;
      } else if c == d {
        parts := parts + [field[start..i]];
        start := i + 1;
      }
      i := i + 1;
    }
    if quoted {
      return None;
    }
    return Some(parts + [field[start..]]);
  }

  // ---------------------------------------------------------------------------
  // Splitting is the inverse of joining
  // ---------------------------------------------------------------------------

  /** The loop passes over a member that stands at `start` without cutting it. */
  lemma {:induction false} PassOver(
    field: string, d: char, start: nat, m: string, i: nat, quoted: bool, parts: seq<string>)
    requires start + |m| <= |field| && field[start..start + |m|] == m
    requires i <= |m| && CleanFrom(m, d, i, quoted)
    ensures SplitFrom(field, d, start + i, start, quoted, parts) == SplitFrom(field, d, start + |m|, start, false, parts)
    decreases |m| - i
  {
    if i < |m| {
      assert field[start + i] == m[i];
      if quoted && m[i] == BACKSLASH {
        assert i + 2 <= |m|;
        PassOver(field, d, start, m, i + 2, true, parts);
      } else if quoted {
        PassOver(field, d, start, m, i + 1, m[i] != QUOTE, parts);
      } else {
        PassOver(field, d, start, m, i + 1, m[i] == QUOTE, parts);
      }
    }
  }

  lemma {:induction false} SplitRest(field: string, d: char, start: nat, ms: seq<string>, parts: seq<string>)
    requires start <= |field| && field[start..] == Join(ms, d) && d != QUOTE
    requires ms != [] && AllMembers(ms, d)
    ensures SplitFrom(field, d, start, start, false, parts) == Some(parts + ms)
    decreases |ms|
  {
    var m := ms[0];
    var end := start + |m|;
    var rest := ms[1..];
    if |ms| == 1 {
      assert field[start..end] == m;
      PassOver(field, d, start, m, 0, false, parts);
      assert field[start..] == m && parts + [m] == parts + ms;
    } else {
      assert field[start..] == m + [d] + Join(rest, d);
      assert field[start..end] == field[start..][..|m|] == m;
      assert field[end] == field[start..][|m|] == d;
      assert field[end + 1..] == field[start..][|m| + 1..] == Join(rest, d);
      PassOver(field, d, start, m, 0, false, parts);
      SplitRest(field, d, end + 1, rest, parts + [m]);
      assert parts + [m] + rest == parts + ms;
    }
  }

  /** Splitting a join gives the members back, whatever they hold inside quotes. */
  lemma SplitOfJoin(ms: seq<string>, d: char)
    requires ms != [] && AllMembers(ms, d) && d != QUOTE
    ensures Split(Join(ms, d), d) == Some(ms)
  {
    var field := Join(ms, d);
    assert field[0..] == field;
    SplitRest(field, d, 0, ms, []);
    assert [] + ms == ms;
  }

  /** What has been read of the current part, from `start` to `i`, leaves the scanner in state `quoted`. */
  ghost predicate Reading(field: string, d: char, start: nat, i: nat, quoted: bool)
    requires start <= i <= |field|
  {
    forall end :: i <= end <= |field| && CleanFrom(field[start..end], d, i - start, quoted) ==>
      IsMember(field[start..end], d)
  }

  lemma {:induction false} JoinSnoc(parts: seq<string>, p: string, d: char)
    ensures Join(parts + [p], d) == if parts == [] then p else Join(parts, d) + [d] + p
  {
    if |parts| == 1 {
      assert parts + [p] == [parts[0], p];
      assert Join([p], d) == p;
    } else if |parts| > 1 {
      JoinSnoc(parts[1..], p, d);
      assert (parts + [p])[1..] == parts[1..] + [p];
      assert Join(parts + [p], d) == parts[0] + [d] + (Join(parts[1..], d) + [d] + p);
      assert Join(parts, d) + [d] + p == parts[0] + [d] + (Join(parts[1..], d) + [d] + p);
    }
  }

  /** The text consumed before `start`, given the parts already cut. */
  ghost predicate Consumed(field: string, d: char, start: nat, parts: seq<string>)
    requires start <= |field|
  {
    && AllMembers(parts, d)
    && (if parts == [] then start == 0 else start > 0 && field[..start] == Join(parts, d) + [d])
  }

  lemma {:induction false} CutOne(field: string, d: char, start: nat, i: nat, parts: seq<string>)
    requires start <= i < |field| && field[i] == d && Consumed(field, d, start, parts)
    requires IsMember(field[start..i], d)
    ensures Consumed(field, d, i + 1, parts + [field[start..i]])
  {
    JoinSnoc(parts, field[start..i], d);
    assert field[..i + 1] == field[..start] + field[start..i] + [d];
    if parts == [] {
      assert field[..start] == [];
    }
  }

  lemma {:induction false} ReadOn(field: string, d: char, start: nat, i: nat, quoted: bool, next: nat, after: bool)
    requires start <= i < next <= |field| && Reading(field, d, start, i, quoted)
    requires
      if quoted && field[i] == BACKSLASH then next == i + 2 && after
      else next == i + 1 && after == (if quoted then field[i] != QUOTE else field[i] == QUOTE)
    requires !quoted ==> field[i] != d || d == QUOTE
    ensures Reading(field, d, start, next, after)
  {
    forall end | next <= end <= |field| && CleanFrom(field[start..end], d, next - start, after)
      ensures IsMember(field[start..end], d)
    {
      assert field[start..end][i - start] == field[i];
      assert CleanFrom(field[start..end], d, i - start, quoted);
    }
  }

  lemma {:induction false} SplitSound(
    field: string, d: char, i: nat, start: nat, quoted: bool, parts: seq<string>, r: seq<string>)
    requires start <= i <= |field| && d != QUOTE
    requires Consumed(field, d, start, parts) && Reading(field, d, start, i, quoted)
    requires SplitFrom(field, d, i, start, quoted, parts) == Some(r)
    ensures r != [] && AllMembers(r, d) && Join(r, d) == field
    decreases |field| - i
  {
    if i == |field| {
      assert IsMember(field[start..i], d);
      assert field[start..i] == field[start..];
      JoinSnoc(parts, field[start..], d);
      assert field == field[..start] + field[start..];
    } else if !quoted && field[i] == d {
      assert IsMember(field[start..i], d);
      CutOne(field, d, start, i, parts);
      SplitSound(field, d, i + 1, i + 1, false, parts + [field[start..i]], r);
    } else if quoted && field[i] == BACKSLASH {
      ReadOn(field, d, start, i, true, i + 2, true);
      SplitSound(field, d, i + 2, start, true, parts, r);
    } else {
      var after := if quoted then field[i] != QUOTE else field[i] == QUOTE;
      ReadOn(field, d, start, i, quoted, i + 1, after);
      SplitSound(field, d, i + 1, start, after, parts, r);
    }
  }

  /** The parts are the one way to write the field as members with delimiters between. */
  lemma SplitIsInverseOfJoin(field: string, d: char, ms: seq<string>)
    requires d != QUOTE
    ensures Split(field, d) == Some(ms) <==> ms != [] && AllMembers(ms, d) && Join(ms, d) == field
  {
    if ms != [] && AllMembers(ms, d) && Join(ms, d) == field {
      SplitOfJoin(ms, d);
    }
    if Split(field, d) == Some(ms) {
      assert field[..0] == [];
      SplitSound(field, d, 0, 0, false, [], ms);
    }
  }
}

module AcceptRanges {
  import opened Options
  import opened Numerals
  import opened HttpText
  import opened AcceptSplit

  /** A media range. The weight is held in thousandths. */
  datatype MediaRange = MediaRange(
    mainType: string, subtype: string, parameters: map<string, string>, quality: nat, weighted: bool)

  // ---------------------------------------------------------------------------
  // Reading one media range
  // ---------------------------------------------------------------------------

  /** The characters of a quoted string from `i` on, once `value` has been read. */
  function UnquoteFrom(raw: string, i: nat, value: string): Option<string>
    decreases |raw| - i
  {
    if i >= |raw| then None
    else if raw[i] == BACKSLASH then
      if i + 1 >= |raw| then None else UnquoteFrom(raw, i + 2, value + [raw[i + 1]])
    else if raw[i] == QUOTE then (if i == |raw| - 1 then Some(value) else None)
    else UnquoteFrom(raw, i + 1, value + [raw[i]])
  }

  function ParameterValue(raw: string): Option<string> {
    if raw != [] && raw[0] == QUOTE then UnquoteFrom(raw, 1, [])
    else if IsToken(raw) then Some(raw)
    else None
  }

  method ParseParameterValue(raw: string) returns (r: Option<string>)
    ensures r == ParameterValue(raw)
  {
    if raw == [] || raw[0] != QUOTE {
      return if IsToken(raw) then Some(raw) else None;
    }
    var value := [];
    var i := 1;
    while i < |raw|
      invariant 1 <= i
      invariant ParameterValue(raw) == UnquoteFrom(raw, i, value)
      decreases |raw| - i
    {
      var c := raw[i];
      if c == BACKSLASH {
        if i + 1 >= |raw| {
          return None;
        }
        value := value + [raw[i + 1]];
        i := i + 2;
      } else if c == QUOTE {
        return if i == |raw| - 1 then Some(value) else None;
      } else {
        value := value + [c];
        i := i + 1;
      }
    }
    return None;
  }

  /** The value with a backslash before each quote and backslash. */
  function Escape(value: string): string {
    if value == [] then []
    else (if value[0] == QUOTE || value[0] == BACKSLASH then [BACKSLASH, value[0]] else [value[0]]) + Escape(value[1..])
  }

  lemma {:induction false} UnquoteEscaped(before: string, read: string, value: string)
    ensures UnquoteFrom(before + Escape(value) + [QUOTE], |before|, read) == Some(read + value)
    decreases |value|
  {
    var raw := before + Escape(value) + [QUOTE];
    if value == [] {
      assert read + value == read;
    } else {
      var head := if value[0] == QUOTE || value[0] == BACKSLASH then [BACKSLASH, value[0]] else [value[0]];
      UnquoteEscaped(before + head, read + [value[0]], value[1..]);
      assert raw == (before + head) + Escape(value[1..]) + [QUOTE];
      assert read + [value[0]] + value[1..] == read + value;
      assert raw[|before|] == head[0];
      if |head| == 2 {
        assert raw[|before| + 1] == head[1];
      }
    }
  }

  /** Any text at all survives being written as a quoted string and read back. */
  lemma QuotedRoundTrip(value: string)
    ensures ParameterValue([QUOTE] + Escape(value) + [QUOTE]) == Some(value)
  {
    UnquoteEscaped([QUOTE], [], value);
    assert [] + value == value;
  }

  /** A weight: 0 or 1, with up to three decimals, all zero after a 1. In thousandths. */
  function Quality(v: string): (q: Option<nat>)
    ensures q.Some? ==> q.value <= 1000
  {
    if v == "0" then Some(0)
    else if v == "1" then Some(1000)
    else if 3 <= |v| <= 5 && v[1] == '.' && AllDigits(v[2..]) then
      var decimals := (v[2..] + "00")[..3];
      ValueBound(decimals);
      if v[0] == '0' then Some(Value(decimals))
      else if v[0] == '1' && Value(decimals) == 0 then Some(1000)
      else None
    else None
  }

  /** What has been read of a range's parameters and weight. */
  datatype Reading = Reading(parameters: map<string, string>, quality: nat, weighted: bool)

  /** One `name=value` segment after the media type. */
  function ReadSegment(got: Reading, segment: string): Option<Reading> {
    var equals := IndexOf(segment, '=');
    if equals == |segment| then None
    else
      var name := Lower(Trim(segment[..equals]));
      var raw := Trim(segment[equals + 1..]);
      if !IsToken(name) then None
      else if name == "q" then
        if Quality(raw).None? || got.weighted then None
        else Some(got.(quality := Quality(raw).value, weighted := true))
      else if got.weighted then Some(got)
      else if ParameterValue(raw).None? || name in got.parameters then None
      else Some(got.(parameters := got.parameters[name := ParameterValue(raw).value]))
  }

  function ReadSegments(got: Reading, segments: seq<string>): Option<Reading>
    decreases |segments|
  {
    if segments == [] then Some(got)
    else match ReadSegment(got, segments[0])
      case None => None
      case Some(next) => ReadSegments(next, segments[1..])
  }

  predicate TypesAllowed(mainType: string, subtype: string) {
    IsToken(mainType) && IsToken(subtype) && (mainType == "*" ==> subtype == "*")
  }

  function Range(member: string): Option<MediaRange> {
    match Split(member, ';')
    case None => None
    case Some(segments) =>
      if segments == [] then None else
      var slash := IndexOf(segments[0], '/');
      if slash == |segments[0]| then None else
      var mainType := Lower(Trim(segments[0][..slash]));
      var subtype := Lower(Trim(segments[0][slash + 1..]));
      if !TypesAllowed(mainType, subtype) then None
      else match ReadSegments(Reading(map[], 1000, false), segments[1..])
        case None => None
        case Some(got) => Some(MediaRange(mainType, subtype, got.parameters, got.quality, got.weighted))
  }

  method ParseMediaRange(member: string) returns (r: Option<MediaRange>)
    ensures r == Range(member)
  {
    var split := SplitUnquoted(member, ';');
    if split.None? || split.value == [] {
      return None;
    }
    var mediaType, rest := split.value[0], split.value[1..];
    var slash := IndexOf(mediaType, '/');
    if slash == |mediaType| {
      return None;
    }
    var mainType := Lower(Trim(mediaType[..slash]));
    var subtype := Lower(Trim(mediaType[slash + 1..]));
    if !(mainType == "*" || IsToken(mainType)) || !(subtype == "*" || IsToken(subtype)) {
      return None;
    }
    if mainType == "*" && subtype != "*" {
      return None;
    }
    var got := Reading(map[], 1000, false);
    ghost var wanted := ReadSegments(got, rest);
    for i := 0 to |rest|
      invariant wanted == ReadSegments(got, rest[i..])
    {
      var one := ReadOneSegment(got, rest[i]);
      assert rest[i..][1..] == rest[i + 1..];
      if one.None? {
        return None;
      }
      got := one.value;
    }
    return Some(MediaRange(mainType, subtype, got.parameters, got.quality, got.weighted));
  }

  method ReadOneSegment(got: Reading, segment: string) returns (r: Option<Reading>)
    ensures r == ReadSegment(got, segment)
  {
    var equals := IndexOf(segment, '=');
    if equals == |segment| {
      return None;
    }
    var name := Lower(Trim(segment[..equals]));
    var raw := Trim(segment[equals + 1..]);
    if !IsToken(name) {
      return None;
    }
    if name == "q" {
      var parsed := Quality(raw);
      if parsed.None? || got.weighted {
        return None;
      }
      return Some(got.(quality := parsed.value, weighted := true));
    }
    if got.weighted {
      return Some(got);
    }
    var value := ParseParameterValue(raw);
    if value.None? || name in got.parameters {
      return None;
    }
    return Some(got.(parameters := got.parameters[name := value.value]));
  }

  /** A member that is blank once trimmed says nothing; one that cannot be read spoils the field. */
  predicate Blank(member: string) {
    Trim(member) == ""
  }

  predicate Readable(member: string) {
    Blank(member) || Range(Trim(member)).Some?
  }

  function RangesOf(members: seq<string>): Option<seq<MediaRange>> {
    if members == [] then Some([])
    else if Blank(members[0]) then RangesOf(members[1..])
    else if Range(Trim(members[0])).None? then None
    else After([Range(Trim(members[0])).value], RangesOf(members[1..]))
  }

  function Accepted(header: string): Option<seq<MediaRange>> {
    match Split(header, ',')
    case None => None
    case Some(members) => RangesOf(members)
  }

  method ParseAccept(header: string) returns (r: Option<seq<MediaRange>>)
    ensures r == Accepted(header)
  {
    var members := SplitUnquoted(header, ',');
    if members.None? {
      return None;
    }
    r := ReadMembers(members.value);
  }

  method ReadMembers(members: seq<string>) returns (r: Option<seq<MediaRange>>)
    ensures r == RangesOf(members)
  {
    hide Trim, Range;
    var ranges: seq<MediaRange> := [];
    assert members[0..] == members;
    assert RangesOf(members).Some? ==> [] + RangesOf(members).value == RangesOf(members).value;
    for i := 0 to |members|
      invariant RangesOf(members) == After(ranges, RangesOf(members[i..]))
    {
      assert members[i..][1..] == members[i + 1..];
      var trimmed := Trim(members[i]);
      if trimmed != "" {
        var range := ParseMediaRange(trimmed);
        if range.None? {
          return None;
        }
        AfterOneMore(ranges, range.value, RangesOf(members[i + 1..]));
        ranges := ranges + [range.value];
      }
    }
    assert members[|members|..] == [] && ranges + [] == ranges;
    return Some(ranges);
  }

  /** The ranges already read, with those still to come after them. */
  function After(ranges: seq<MediaRange>, rest: Option<seq<MediaRange>>): Option<seq<MediaRange>> {
    if rest.None? then None else Some(ranges + rest.value)
  }

  lemma AfterOneMore(ranges: seq<MediaRange>, r: MediaRange, rest: Option<seq<MediaRange>>)
    ensures After(ranges, After([r], rest)) == After(ranges + [r], rest)
  {
    if rest.Some? {
      assert ranges + ([r] + rest.value) == (ranges + [r]) + rest.value;
    }
  }

  // ---------------------------------------------------------------------------
  // Which range speaks for an offer
  // ---------------------------------------------------------------------------

  function Breadth(r: MediaRange): nat {
    if r.mainType == "*" then 0 else if r.subtype == "*" then 1 else 2
  }

  predicate MoreSpecific(candidate: MediaRange, incumbent: MediaRange) {
    if Breadth(candidate) != Breadth(incumbent) then Breadth(candidate) > Breadth(incumbent)
    else if |candidate.parameters| != |incumbent.parameters| then |candidate.parameters| > |incumbent.parameters|
    else candidate.quality < incumbent.quality
  }

  predicate Matches(r: MediaRange, offer: MediaRange) {
    && (r.mainType != "*" ==> r.mainType == offer.mainType && (r.subtype != "*" ==> r.subtype == offer.subtype))
    && forall name :: name in r.parameters ==> name in offer.parameters && offer.parameters[name] == r.parameters[name]
  }

  /**
   * The weight `q` is the one that applies to the offer: of a matching range no
   * other matching range is more specific than, or 0 when none matches.
   */
  ghost predicate Applies(ranges: set<MediaRange>, offer: MediaRange, q: nat) {
    || (q == 0 && forall r :: r in ranges ==> !Matches(r, offer))
    || exists best :: best in ranges && Speaks(ranges, offer, best) && best.quality == q
  }

  ghost predicate Speaks(ranges: set<MediaRange>, offer: MediaRange, best: MediaRange) {
    Matches(best, offer) && forall r :: r in ranges && Matches(r, offer) ==> !MoreSpecific(r, best)
  }

  /** Some range always speaks for an offer that any range matches. */
  lemma {:induction false} WeightExists(ranges: set<MediaRange>, offer: MediaRange)
    ensures exists q :: Applies(ranges, offer, q)
  {
    hide Matches, MoreSpecific;
    if forall r :: r in ranges ==> !Matches(r, offer) {
      assert Applies(ranges, offer, 0);
    } else {
      var r :| r in ranges && Matches(r, offer);
      var rest := ranges - {r};
      WeightExists(rest, offer);
      var q :| Applies(rest, offer, q);
      if exists b :: b in rest && Speaks(rest, offer, b) && b.quality == q {
        var b :| b in rest && Speaks(rest, offer, b) && b.quality == q;
        var best := if MoreSpecific(r, b) then r else b;
        BestOfTwo(ranges, offer, r, b);
        assert Applies(ranges, offer, best.quality);
      } else {
        assert Speaks(ranges, offer, r) by { NotAboveItself(r); }
        assert Applies(ranges, offer, r.quality);
      }
    }
  }

  lemma NotAboveItself(r: MediaRange)
    ensures !MoreSpecific(r, r)
  {
  }

  lemma BestOfTwo(ranges: set<MediaRange>, offer: MediaRange, r: MediaRange, b: MediaRange)
    requires r in ranges && Matches(r, offer) && Speaks(ranges - {r}, offer, b)
    ensures Speaks(ranges, offer, if MoreSpecific(r, b) then r else b)
  {
    hide Matches;
  }

  /** The weight that applies to an offer, as a function of the set of ranges. */
  ghost function Weight(ranges: set<MediaRange>, offer: MediaRange): (q: nat)
    ensures Applies(ranges, offer, q)
  {
    WeightExists(ranges, offer);
    var q :| Applies(ranges, offer, q);
    q
  }

  /** Whichever ranges speak for an offer, they agree on its weight. */
  lemma WeightIsUnique(ranges: set<MediaRange>, offer: MediaRange, q: nat)
    requires Applies(ranges, offer, q)
    ensures q == Weight(ranges, offer)
  {
    hide Matches;
  }

  ghost function SetOf(ranges: seq<MediaRange>): set<MediaRange> {
    set r | r in ranges
  }

  method QualityFor(ranges: seq<MediaRange>, offer: MediaRange) returns (q: nat)
    ensures q == Weight(SetOf(ranges), offer)
  {
    hide *;
    var best: Option<MediaRange> := None;
    NoneLeads(ranges, offer);
    for i := 0 to |ranges|
      invariant Leads(SetOf(ranges[..i]), offer, best)
    {
      var r := ranges[i];
      OneRangeMore(ranges, offer, i, best);
      if Matches(r, offer) && (best.None? || MoreSpecific(r, best.value)) {
        best := Some(r);
      }
    }
    assert ranges[..|ranges|] == ranges;
    q := if best.Some? then best.value.quality else 0;
    LeadsAlone(SetOf(ranges), offer, best);
  }

  /** The range kept so far speaks for the offer, or none of those seen matches. */
  ghost predicate Leads(seen: set<MediaRange>, offer: MediaRange, best: Option<MediaRange>) {
    match best
    case None => forall r :: r in seen ==> !Matches(r, offer)
    case Some(leader) => leader in seen && Speaks(seen, offer, leader)
  }

  lemma NoneLeads(ranges: seq<MediaRange>, offer: MediaRange)
    ensures Leads(SetOf(ranges[..0]), offer, None)
  {
  }

  lemma OneRangeMore(ranges: seq<MediaRange>, offer: MediaRange, i: nat, best: Option<MediaRange>)
    requires i < |ranges| && Leads(SetOf(ranges[..i]), offer, best)
    ensures var r := ranges[i];
      Leads(SetOf(ranges[..i + 1]), offer,
            if Matches(r, offer) && (best.None? || MoreSpecific(r, best.value)) then Some(r) else best)
  {
    hide Matches;
    var r := ranges[i];
    assert ranges[..i + 1] == ranges[..i] + [r];
    assert SetOf(ranges[..i + 1]) == SetOf(ranges[..i]) + {r};
  }

  lemma LeadsAlone(ranges: set<MediaRange>, offer: MediaRange, best: Option<MediaRange>)
    requires Leads(ranges, offer, best)
    ensures Weight(ranges, offer) == if best.Some? then best.value.quality else 0
  {
    hide Matches;
    WeightIsUnique(ranges, offer, if best.Some? then best.value.quality else 0);
  }
}

module AcceptSelection {
  import opened Options
  import opened HttpText
  import opened AcceptSplit
  import opened AcceptRanges

  /** An offer is a concrete media type without a weight. */
  function Offer(offer: string): Option<MediaRange> {
    match Range(offer)
    case None => None
    case Some(r) => if r.mainType == "*" || r.subtype == "*" || r.weighted then None else Some(r)
  }

  /** The weight an offer gets; one that is no media type gets none. */
  ghost function Level(ranges: set<MediaRange>, offer: string): nat {
    match Offer(offer)
    case None => 0
    case Some(parsed) => Weight(ranges, parsed)
  }

  /** The choice among the offers so far, with its weight. */
  ghost function Pick(ranges: set<MediaRange>, offered: seq<string>): (Option<string>, nat) {
    if offered == [] then (None, 0)
    else
      var last := offered[|offered| - 1];
      var so := Pick(ranges, offered[..|offered| - 1]);
      if Level(ranges, last) > so.1 then (Some(last), Level(ranges, last)) else so
  }

  function First(offered: seq<string>): Option<string> {
    if offered == [] then None else Some(offered[0])
  }

  ghost function Select(header: Option<string>, offered: seq<string>): Option<string> {
    if header.None? || Accepted(header.value).None? then First(offered)
    else Pick(SetOf(Accepted(header.value).value), offered).0
  }

  method SelectMediaType(header: Option<string>, offered: seq<string>) returns (r: Option<string>)
    ensures r == Select(header, offered)
  {
    hide Range, Accepted, Weight, SetOf;
    if header.None? {
      return First(offered);
    }
    var ranges := ParseAccept(header.value);
    if ranges.None? {
      return First(offered);
    }
    var chosen: Option<string> := None;
    var chosenQuality := 0;
    for i := 0 to |offered|
      invariant (chosen, chosenQuality) == Pick(SetOf(ranges.value), offered[..i])
    {
      assert offered[..i + 1][..i] == offered[..i];
      var parsed := ParseOffer(offered[i]);
      if parsed.Some? {
        var quality := QualityFor(ranges.value, parsed.value);
        if quality > chosenQuality {
          chosen, chosenQuality := Some(offered[i]), quality;
        }
      }
    }
    assert offered[..|offered|] == offered;
    return chosen;
  }

  method ParseOffer(offer: string) returns (r: Option<MediaRange>)
    ensures r == Offer(offer)
  {
    var parsed := ParseMediaRange(offer);
    if parsed.None? {
      return None;
    }
    if parsed.value.mainType == "*" || parsed.value.subtype == "*" || parsed.value.weighted {
      return None;
    }
    return parsed;
  }

  // ---------------------------------------------------------------------------
  // The server's choice
  // ---------------------------------------------------------------------------

  /**
   * An offer is chosen exactly when some offer has a weight above zero, and then
   * it is the first of those with the highest weight.
   */
  lemma {:induction false} PickIsFirstBest(ranges: set<MediaRange>, offered: seq<string>) returns (k: nat)
    ensures Pick(ranges, offered).0.None? <==> Pick(ranges, offered).1 == 0
    ensures forall j :: 0 <= j < |offered| ==> Level(ranges, offered[j]) <= Pick(ranges, offered).1
    ensures Pick(ranges, offered).0.Some? ==>
      && k < |offered| && Pick(ranges, offered) == (Some(offered[k]), Level(ranges, offered[k]))
      && forall j :: 0 <= j < k ==> Level(ranges, offered[j]) < Level(ranges, offered[k])
  {
    hide Level;
    k := 0;
    if offered != [] {
      var init, last := offered[..|offered| - 1], offered[|offered| - 1];
      k := PickIsFirstBest(ranges, init);
      assert forall j :: 0 <= j < |init| ==> offered[j] == init[j];
      if Level(ranges, last) > Pick(ranges, init).1 {
        k := |init|;
      }
    }
  }

  // ---------------------------------------------------------------------------
  // The field is a set of statements
  // ---------------------------------------------------------------------------

  ghost predicate Says(member: string, r: MediaRange) {
    !Blank(member) && Range(Trim(member)) == Some(r)
  }

  /** The ranges of a list of members are those its members say, in no order. */
  lemma {:induction false} RangesOfMeans(ms: seq<string>)
    ensures RangesOf(ms).Some? <==> forall m :: m in ms ==> Readable(m)
    ensures RangesOf(ms).Some? ==>
      forall r :: r in RangesOf(ms).value <==> exists m :: m in ms && Says(m, r)
  {
    hide Blank, Range, Trim;
    if ms != [] {
      var rest := ms[1..];
      RangesOfMeans(rest);
      assert forall m :: m in ms <==> m == ms[0] || m in rest;
      assert (forall m :: m in ms ==> Readable(m)) <==> Readable(ms[0]) && forall m :: m in rest ==> Readable(m) by {
        hide Readable;
      }
      assert RangesOf(ms).Some? <==> Readable(ms[0]) && RangesOf(rest).Some?;
      if RangesOf(rest).Some? && Range(Trim(ms[0])).Some? && !Blank(ms[0]) {
        var first := Range(Trim(ms[0])).value;
        assert Says(ms[0], first) && RangesOf(ms).value == [first] + RangesOf(rest).value;
      }
    }
  }

  /**
   * Whatever order the members of the field are written in, and however often
   * each is repeated, the server's answer is the same.
   */
  lemma OrderDoesNotMatter(ms: seq<string>, others: seq<string>, offered: seq<string>)
    requires ms != [] && AllMembers(ms, ',')
    requires others != [] && AllMembers(others, ',')
    requires forall m :: m in ms <==> m in others
    ensures Select(Some(Join(ms, ',')), offered) == Select(Some(Join(others, ',')), offered)
  {
    hide Range, Pick, Readable, Says, Join, AllMembers;
    SplitOfJoin(ms, ',');
    SplitOfJoin(others, ',');
    RangesOfMeans(ms);
    RangesOfMeans(others);
    if RangesOf(ms).Some? {
      assert SetOf(RangesOf(ms).value) == SetOf(RangesOf(others).value);
    }
  }
}
