/** What a media range says: it can be written down, in any case and spacing, and read back. */
module AcceptMeaning {
  import opened Options
  import opened Numerals
  import opened HttpText
  import opened AcceptSplit
  import opened AcceptRanges

  // ---------------------------------------------------------------------------
  // Writing a media range
  // ---------------------------------------------------------------------------

  /** The optional white space before and after the two halves of a segment. */
  datatype Pads = Pads(a: string, b: string, c: string, d: string)

  /** A parameter: its name in any case, its value, and the spacing it is written with. */
  datatype Parameter = Parameter(name: string, value: string, pads: Pads)

  /** The name of a weight, in any case, its thousandths, and the spacing it is written with. */
  datatype Weighing = Weighing(name: string, quality: nat, pads: Pads)

  datatype Written = Written(
    mainType: string, subtype: string, pads: Pads, parameters: seq<Parameter>, weight: Option<Weighing>)

  predicate ArePads(p: Pads) {
    IsPad(p.a) && IsPad(p.b) && IsPad(p.c) && IsPad(p.d)
  }

  function Spread(p: Pads, left: string, sep: char, right: string): string {
    (p.a + left + p.b) + [sep] + (p.c + right + p.d)
  }

  function Quoted(value: string): string {
    [QUOTE] + Escape(value) + [QUOTE]
  }

  /** A weight in thousandths, written with three decimals unless it is one. */
  function QualityText(q: nat): string
    requires q <= 1000
  {
    if q == 1000 then "1" else "0." + [DigitChar(q / 100), DigitChar(q / 10 % 10), DigitChar(q % 10)]
  }

  function ParameterText(p: Parameter): string {
    Spread(p.pads, p.name, '=', Quoted(p.value))
  }

  function ParameterTexts(parameters: seq<Parameter>): (texts: seq<string>)
    ensures |texts| == |parameters|
  {
    seq(|parameters|, i requires 0 <= i < |parameters| => ParameterText(parameters[i]))
  }

  function WeightTexts(weight: Option<Weighing>): seq<string>
    requires weight.Some? ==> weight.value.quality <= 1000
  {
    if weight.None? then []
    else [Spread(weight.value.pads, weight.value.name, '=', QualityText(weight.value.quality))]
  }

  function SegmentsOf(w: Written): seq<string>
    requires w.weight.Some? ==> w.weight.value.quality <= 1000
  {
    [Spread(w.pads, w.mainType, '/', w.subtype)] + ParameterTexts(w.parameters) + WeightTexts(w.weight)
  }

  function TextOf(w: Written): string
    requires w.weight.Some? ==> w.weight.value.quality <= 1000
  {
    Join(SegmentsOf(w), ';')
  }

  /** The parameter names are tokens, none of them the weight's, all different whatever their case. */
  ghost predicate AreParameters(parameters: seq<Parameter>) {
    && (forall i :: 0 <= i < |parameters| ==>
          IsToken(parameters[i].name) && Lower(parameters[i].name) != "q" && ArePads(parameters[i].pads))
    && (forall i, j :: 0 <= i < j < |parameters| ==> Lower(parameters[i].name) != Lower(parameters[j].name))
  }

  ghost predicate IsWeight(weight: Option<Weighing>) {
    weight.Some? ==>
      && weight.value.quality <= 1000 && ArePads(weight.value.pads)
      && (weight.value.name == "q" || weight.value.name == "Q")
  }

  ghost predicate CanWrite(w: Written) {
    && IsToken(w.mainType) && IsToken(w.subtype) && (w.mainType == "*" ==> w.subtype == "*") && ArePads(w.pads)
    && AreParameters(w.parameters) && IsWeight(w.weight)
  }

  function ParameterMap(parameters: seq<Parameter>): map<string, string> {
    if parameters == [] then map[]
    else
      var init, last := parameters[..|parameters| - 1], parameters[|parameters| - 1];
      ParameterMap(init)[Lower(last.name) := last.value]
  }

  /** The range that was written: names in lower case, values as they are. */
  function RangeOf(w: Written): MediaRange {
    MediaRange(Lower(w.mainType), Lower(w.subtype), ParameterMap(w.parameters),
               if w.weight.Some? then w.weight.value.quality else 1000, w.weight.Some?)
  }

  lemma {:induction false} ParameterMapHas(parameters: seq<Parameter>, name: string)
    ensures name in ParameterMap(parameters) <==> exists i :: 0 <= i < |parameters| && Lower(parameters[i].name) == name
  {
    hide Lower;
    if parameters != [] {
      var init, n := parameters[..|parameters| - 1], |parameters| - 1;
      ParameterMapHas(init, name);
      assert forall i :: 0 <= i < n ==> init[i] == parameters[i];
    }
  }

  // ---------------------------------------------------------------------------
  // Case and spacing do not matter
  // ---------------------------------------------------------------------------

  function UpperChar(c: char): char {
    if 'a' <= c <= 'z' then (c as int - 32) as char else c
  }

  /** A letter reads the same in either case, and a token is a token in either case. */
  lemma CaseDoesNotMatter(c: char)
    requires IsTokenChar(c)
    ensures LowerChar(UpperChar(c)) == LowerChar(c) && IsTokenChar(UpperChar(c)) && IsTokenChar(LowerChar(c))
    ensures 'A' <= c <= 'Z' ==> LowerChar(c) as int == c as int + 32
    ensures !('A' <= c <= 'Z') ==> LowerChar(c) == c
  {
  }

  lemma LowerOfToken(s: string)
    requires IsToken(s)
    ensures IsToken(Lower(s)) && (Lower(s) == "*" <==> s == "*")
  {
    forall k | 0 <= k < |s|
      ensures IsTokenChar(Lower(s)[k])
    {
      assert IsTokenChar(s[k]);
      CaseDoesNotMatter(s[k]);
    }
    if Lower(s) == "*" {
      assert Lower(s)[0] == LowerChar(s[0]) && s == [s[0]];
    }
  }

  /** A token is made of visible ASCII characters other than the delimiters. */
  lemma TokenCharIs(c: char)
    ensures IsTokenChar(c) <==> '!' <= c <= '~' && c !in "(),/:;<=>?@[\\]{}\""
  {
  }

  // ---------------------------------------------------------------------------
  // Each segment is a member of its own, of a range and of a field
  // ---------------------------------------------------------------------------

  /** From `i` to `j` nothing is a quote or the delimiter. */
  lemma {:induction false} CleanRun(s: string, d: char, i: nat, j: nat)
    requires i <= j <= |s| && forall k :: i <= k < j ==> s[k] != QUOTE && s[k] != d
    ensures CleanFrom(s, d, i, false) == CleanFrom(s, d, j, false)
    decreases j - i
  {
    if i < j {
      CleanRun(s, d, i + 1, j);
    }
  }

  lemma {:induction false} CleanEscaped(before: string, value: string, d: char)
    ensures CleanFrom(before + Escape(value) + [QUOTE], d, |before|, true)
    decreases |value|
  {
    var s := before + Escape(value) + [QUOTE];
    if value != [] {
      var head := if value[0] == QUOTE || value[0] == BACKSLASH then [BACKSLASH, value[0]] else [value[0]];
      CleanEscaped(before + head, value[1..], d);
      assert s == (before + head) + Escape(value[1..]) + [QUOTE];
      assert s[|before|] == head[0];
    }
  }

  lemma PlainIsMember(s: string, d: char)
    requires forall k :: 0 <= k < |s| ==> s[k] != QUOTE && s[k] != d
    ensures IsMember(s, d)
  {
    CleanRun(s, d, 0, |s|);
  }

  lemma QuotedIsMember(value: string, d: char)
    requires d != QUOTE
    ensures IsMember(Quoted(value), d)
  {
    CleanEscaped([QUOTE], value, d);
  }

  lemma {:induction false} CleanPrefix(a: string, b: string, d: char, i: nat, quoted: bool)
    requires i <= |a| && CleanFrom(a, d, i, quoted)
    ensures CleanFrom(a + b, d, i, quoted) == CleanFrom(a + b, d, |a|, false)
    decreases |a| - i
  {
    if i < |a| {
      assert (a + b)[i] == a[i];
      if quoted && a[i] == BACKSLASH {
        assert i + 2 <= |a|;
        CleanPrefix(a, b, d, i + 2, true);
      } else if quoted {
        CleanPrefix(a, b, d, i + 1, a[i] != QUOTE);
      } else {
        CleanPrefix(a, b, d, i + 1, a[i] == QUOTE);
      }
    }
  }

  lemma {:induction false} CleanSuffix(a: string, b: string, d: char, j: nat, quoted: bool)
    ensures CleanFrom(a + b, d, |a| + j, quoted) == CleanFrom(b, d, j, quoted)
    decreases |b| - j
  {
    if j < |b| {
      assert (a + b)[|a| + j] == b[j];
      if quoted && b[j] == BACKSLASH {
        CleanSuffix(a, b, d, j + 2, true);
      } else if quoted {
        CleanSuffix(a, b, d, j + 1, b[j] != QUOTE);
      } else {
        CleanSuffix(a, b, d, j + 1, b[j] == QUOTE);
      }
    }
  }

  lemma ConcatIsMember(a: string, b: string, d: char)
    requires IsMember(a, d) && IsMember(b, d)
    ensures IsMember(a + b, d)
  {
    CleanPrefix(a, b, d, 0, false);
    CleanSuffix(a, b, d, 0, false);
  }

  lemma {:induction false} JoinIsMember(parts: seq<string>, sep: char, d: char)
    requires sep != d && sep != QUOTE && AllMembers(parts, d)
    ensures IsMember(Join(parts, sep), d)
  {
    hide IsMember;
    if parts == [] {
      PlainIsMember("", d);
    } else if |parts| > 1 {
      JoinIsMember(parts[1..], sep, d);
      PlainIsMember([sep], d);
      ConcatIsMember(parts[0], [sep], d);
      ConcatIsMember(parts[0] + [sep], Join(parts[1..], sep), d);
    }
  }

  predicate IsDelimiter(d: char) {
    d == ',' || d == ';'
  }

  lemma TokenIsPlain(s: string)
    requires IsToken(s)
    ensures forall k :: 0 <= k < |s| ==>
      s[k] != QUOTE && s[k] != ';' && s[k] != ',' && s[k] != '=' && s[k] != '/' && !IsSpace(s[k])
  {
    forall k | 0 <= k < |s|
      ensures s[k] != QUOTE && s[k] != ';' && s[k] != ',' && s[k] != '=' && s[k] != '/' && !IsSpace(s[k])
    {
      assert IsTokenChar(s[k]);
    }
  }

  lemma SpreadIsMember(p: Pads, left: string, sep: char, right: string, d: char)
    requires ArePads(p) && IsToken(left) && (sep == '=' || sep == '/') && IsDelimiter(d) && IsMember(right, d)
    ensures IsMember(Spread(p, left, sep, right), d)
  {
    hide IsToken, IsMember;
    TokenIsPlain(left);
    var first := p.a + left + p.b + [sep];
    PlainIsMember(first, d);
    PlainIsMember(p.c, d);
    PlainIsMember(p.d, d);
    ConcatIsMember(p.c, right, d);
    ConcatIsMember(p.c + right, p.d, d);
    ConcatIsMember(first, p.c + right + p.d, d);
    assert Spread(p, left, sep, right) == first + (p.c + right + p.d);
  }

  lemma QualityIsTight(q: nat)
    requires q <= 1000
    ensures forall k :: 0 <= k < |QualityText(q)| ==>
      QualityText(q)[k] != QUOTE && QualityText(q)[k] != ',' && QualityText(q)[k] != ';' && !IsSpace(QualityText(q)[k])
    ensures |QualityText(q)| > 0
  {
    var text := QualityText(q);
    forall k | 0 <= k < |text|
      ensures text[k] != QUOTE && text[k] != ',' && text[k] != ';' && !IsSpace(text[k])
    {
      assert q < 1000 && k >= 2 ==> IsDigit(text[k]);
    }
  }

  lemma SegmentsAreMembers(w: Written, d: char)
    requires CanWrite(w) && IsDelimiter(d)
    ensures AllMembers(SegmentsOf(w), d)
  {
    hide IsToken, IsMember, Quoted, QualityText, Spread;
    var segments := SegmentsOf(w);
    forall k | 0 <= k < |segments|
      ensures IsMember(segments[k], d)
    {
      if k == 0 {
        TokenIsPlain(w.subtype);
        PlainIsMember(w.subtype, d);
        SpreadIsMember(w.pads, w.mainType, '/', w.subtype, d);
      } else if k <= |w.parameters| {
        var p := w.parameters[k - 1];
        QuotedIsMember(p.value, d);
        SpreadIsMember(p.pads, p.name, '=', Quoted(p.value), d);
      } else {
        var v := w.weight.value;
        QualityIsTight(v.quality);
        PlainIsMember(QualityText(v.quality), d);
        WeightNameIsToken(v.name);
        SpreadIsMember(v.pads, v.name, '=', QualityText(v.quality), d);
      }
    }
  }

  lemma WeightNameIsToken(name: string)
    requires name == "q" || name == "Q"
    ensures IsToken(name) && Lower(name) == "q"
  {
  }

  // ---------------------------------------------------------------------------
  // Each segment reads as what it was written for
  // ---------------------------------------------------------------------------

  /** A segment comes apart at its separator into its two halves. */
  lemma SpreadReads(p: Pads, left: string, sep: char, right: string)
    requires ArePads(p) && IsToken(left) && (sep == '=' || sep == '/')
    requires right != "" && !IsSpace(right[0]) && !IsSpace(right[|right| - 1])
    ensures var s := Spread(p, left, sep, right);
      var k := IndexOf(s, sep);
      k < |s| && Trim(s[..k]) == left && Trim(s[k + 1..]) == right
  {
    hide IsToken, Trim, IsSpace;
    var before, after := p.a + left + p.b, p.c + right + p.d;
    var s := Spread(p, left, sep, right);
    TokenIsPlain(left);
    assert left != "" by { TokensAreNotEmpty(left); }
    assert sep !in before;
    assert s[|before|] == sep && forall i :: 0 <= i < |before| ==> s[i] == before[i];
    assert IndexOf(s, sep) == |before|;
    assert s[..|before|] == before && s[|before| + 1..] == after;
    TrimOfPadded(p.a, left, p.b);
    TrimOfPadded(p.c, right, p.d);
  }

  lemma TokensAreNotEmpty(s: string)
    requires IsToken(s)
    ensures s != ""
  {
  }

  lemma ParameterReads(got: Reading, p: Parameter)
    requires IsToken(p.name) && Lower(p.name) != "q" && ArePads(p.pads)
    requires Lower(p.name) !in got.parameters && !got.weighted
    ensures ReadSegment(got, ParameterText(p)) == Some(got.(parameters := got.parameters[Lower(p.name) := p.value]))
  {
    hide Lower, Trim, IsToken, ParameterValue, IndexOf, Quality, Spread;
    SpreadReads(p.pads, p.name, '=', Quoted(p.value));
    LowerOfToken(p.name);
    QuotedRoundTrip(p.value);
  }

  lemma QualityReads(q: nat)
    requires q <= 1000
    ensures Quality(QualityText(q)) == Some(q)
  {
    if q < 1000 {
      var text := QualityText(q);
      var digits := text[2..];
      var a, b, c := q / 100, q / 10 % 10, q % 10;
      assert text[0] == '0' && text[1] == '.' && digits == [DigitChar(a), DigitChar(b), DigitChar(c)];
      assert (digits + "00")[..3] == digits;
      assert digits[..2] == [DigitChar(a), DigitChar(b)] && digits[..2][..1] == [DigitChar(a)];
      assert digits[..2][..1][..0] == [];
      assert Value(digits[..2][..1]) == a;
      assert Value(digits[..2]) == 10 * a + b;
      assert Value(digits) == 10 * (10 * a + b) + c == q;
    }
  }

  lemma WeightReads(got: Reading, v: Weighing)
    requires IsWeight(Some(v))
    ensures ReadSegment(got, WeightTexts(Some(v))[0]) ==
      if got.weighted then None else Some(got.(quality := v.quality, weighted := true))
  {
    hide Lower, Trim, IsToken, IsSpace, Quality, IndexOf, QualityText, Spread;
    WeightNameIsToken(v.name);
    LowerOfToken(v.name);
    QualityIsTight(v.quality);
    QualityReads(v.quality);
    SpreadReads(v.pads, v.name, '=', QualityText(v.quality));
  }

  lemma {:induction false} SegmentsSplit(got: Reading, a: seq<string>, b: seq<string>)
    ensures ReadSegments(got, a + b) ==
      match ReadSegments(got, a) case None => None case Some(next) => ReadSegments(next, b)
    decreases |a|
  {
    hide ReadSegment;
    if a == [] {
      assert a + b == b;
    } else {
      assert (a + b)[1..] == a[1..] + b && (a + b)[0] == a[0];
      if ReadSegment(got, a[0]).Some? {
        SegmentsSplit(ReadSegment(got, a[0]).value, a[1..], b);
      }
    }
  }

  lemma OneSegment(got: Reading, segment: string)
    ensures ReadSegments(got, [segment]) == ReadSegment(got, segment)
  {
    hide ReadSegment;
    assert [segment][1..] == [];
  }

  lemma {:induction false} ParametersRead(parameters: seq<Parameter>)
    requires AreParameters(parameters)
    ensures ReadSegments(Reading(map[], 1000, false), ParameterTexts(parameters)) ==
      Some(Reading(ParameterMap(parameters), 1000, false))
  {
    hide ReadSegment, IsToken, Lower, ParameterText, ArePads;
    if parameters != [] {
      var n := |parameters| - 1;
      var init, last := parameters[..n], parameters[n];
      ParametersRead(init);
      ParameterMapHas(init, Lower(last.name));
      var got := Reading(ParameterMap(init), 1000, false);
      assert ParameterTexts(parameters) == ParameterTexts(init) + [ParameterText(last)];
      SegmentsSplit(Reading(map[], 1000, false), ParameterTexts(init), [ParameterText(last)]);
      ParameterReads(got, last);
      OneSegment(got, ParameterText(last));
    }
  }

  lemma RestReads(parameters: seq<Parameter>, weight: Option<Weighing>)
    requires AreParameters(parameters) && IsWeight(weight)
    ensures ReadSegments(Reading(map[], 1000, false), ParameterTexts(parameters) + WeightTexts(weight)) ==
      Some(Reading(ParameterMap(parameters), if weight.Some? then weight.value.quality else 1000, weight.Some?))
  {
    hide ReadSegment, ParameterTexts, AreParameters, QualityText, Spread;
    var got := Reading(ParameterMap(parameters), 1000, false);
    ParametersRead(parameters);
    SegmentsSplit(Reading(map[], 1000, false), ParameterTexts(parameters), WeightTexts(weight));
    if weight.Some? {
      WeightReads(got, weight.value);
      OneSegment(got, WeightTexts(weight)[0]);
    }
  }

  /**
   * Any media range, in any letter case and spacing and whatever its parameters
   * hold, can be written down, and what is written reads as that range, with its
   * names in lower case, and as no other.
   */
  lemma MediaRangeRoundTrip(w: Written)
    requires CanWrite(w)
    ensures Range(TextOf(w)) == Some(RangeOf(w))
  {
    hide Lower, Trim, IsToken, ReadSegments, IndexOf, Join, Split, AllMembers, Spread, AreParameters, ArePads;
    var segments := SegmentsOf(w);
    var rest := ParameterTexts(w.parameters) + WeightTexts(w.weight);
    SegmentsAreMembers(w, ';');
    SplitOfJoin(segments, ';');
    assert segments == [segments[0]] + rest && segments[1..] == rest;
    assert !IsSpace(w.subtype[0]) && !IsSpace(w.subtype[|w.subtype| - 1]) by {
      TokensAreNotEmpty(w.subtype);
      TokenIsPlain(w.subtype);
    }
    SpreadReads(w.pads, w.mainType, '/', w.subtype);
    LowerOfToken(w.mainType);
    LowerOfToken(w.subtype);
    RestReads(w.parameters, w.weight);
  }

  // ---------------------------------------------------------------------------
  // What spoils a range, and what is passed over
  // ---------------------------------------------------------------------------

  /** A range with this segment after those it is written with. */
  function WithSegment(w: Written, segment: string): string
    requires w.weight.Some? ==> w.weight.value.quality <= 1000
  {
    Join(SegmentsOf(w) + [segment], ';')
  }

  lemma OneSegmentMore(w: Written, segment: string)
    requires CanWrite(w) && IsMember(segment, ';')
    ensures Range(WithSegment(w, segment)) ==
      match ReadSegment(
              Reading(RangeOf(w).parameters, RangeOf(w).quality, RangeOf(w).weighted), segment)
      case None => None
      case Some(got) => Some(RangeOf(w).(parameters := got.parameters, quality := got.quality, weighted := got.weighted))
  {
    hide Lower, Trim, IsToken, ReadSegment, IndexOf, Join, Split, IsMember, Spread, AreParameters, ArePads;
    var start := Reading(map[], 1000, false);
    var segments := SegmentsOf(w) + [segment];
    var rest := ParameterTexts(w.parameters) + WeightTexts(w.weight);
    SegmentsAreMembers(w, ';');
    SplitOfJoin(segments, ';');
    assert segments[0] == SegmentsOf(w)[0] && segments[1..] == rest + [segment];
    assert !IsSpace(w.subtype[0]) && !IsSpace(w.subtype[|w.subtype| - 1]) by {
      TokensAreNotEmpty(w.subtype);
      TokenIsPlain(w.subtype);
    }
    SpreadReads(w.pads, w.mainType, '/', w.subtype);
    LowerOfToken(w.mainType);
    LowerOfToken(w.subtype);
    RestReads(w.parameters, w.weight);
    SegmentsSplit(start, rest, [segment]);
    OneSegment(Reading(RangeOf(w).parameters, RangeOf(w).quality, RangeOf(w).weighted), segment);
  }

  /**
   * After the weight a further parameter is an extension and changes nothing;
   * before it, a parameter named again in any case spoils the range.
   */
  lemma FurtherParameter(w: Written, p: Parameter)
    requires CanWrite(w) && IsToken(p.name) && Lower(p.name) != "q" && ArePads(p.pads)
    ensures w.weight.Some? ==> Range(WithSegment(w, ParameterText(p))) == Some(RangeOf(w))
    ensures w.weight.None? && Lower(p.name) in RangeOf(w).parameters ==> Range(WithSegment(w, ParameterText(p))).None?
  {
    assert IsMember(ParameterText(p), ';') by {
      QuotedIsMember(p.value, ';');
      SpreadIsMember(p.pads, p.name, '=', Quoted(p.value), ';');
    }
    assert RangeOf(w).(parameters := RangeOf(w).parameters) == RangeOf(w);
    hide Lower, Trim, IsToken, ParameterValue, IndexOf, Quality, Spread, IsMember, CanWrite, Range, WithSegment;
    OneSegmentMore(w, ParameterText(p));
    SpreadReads(p.pads, p.name, '=', Quoted(p.value));
    LowerOfToken(p.name);
  }

  /** A second weight spoils the range. */
  lemma SecondWeight(w: Written, v: Weighing)
    requires CanWrite(w) && w.weight.Some? && IsWeight(Some(v))
    ensures Range(WithSegment(w, WeightTexts(Some(v))[0])).None?
  {
    assert IsMember(WeightTexts(Some(v))[0], ';') by {
      QualityIsTight(v.quality);
      PlainIsMember(QualityText(v.quality), ';');
      WeightNameIsToken(v.name);
      SpreadIsMember(v.pads, v.name, '=', QualityText(v.quality), ';');
    }
    hide IsMember, CanWrite, Range, WithSegment, ReadSegment, WeightTexts;
    OneSegmentMore(w, WeightTexts(Some(v))[0]);
    WeightReads(Reading(RangeOf(w).parameters, RangeOf(w).quality, RangeOf(w).weighted), v);
  }

  // ---------------------------------------------------------------------------
  // The most precise range decides
  // ---------------------------------------------------------------------------

  /** The range names the offer itself, with every one of its parameters. */
  predicate Names(r: MediaRange, offer: MediaRange) {
    r.mainType == offer.mainType && r.subtype == offer.subtype && r.parameters == offer.parameters
  }

  lemma FewerParameters(r: MediaRange, offer: MediaRange)
    requires Matches(r, offer)
    ensures |r.parameters| <= |offer.parameters|
    ensures |r.parameters| == |offer.parameters| ==> r.parameters == offer.parameters
  {
    assert r.parameters.Keys <= offer.parameters.Keys;
    SubsetSizes(r.parameters.Keys, offer.parameters.Keys);
    if |r.parameters| == |offer.parameters| {
      assert r.parameters.Keys == offer.parameters.Keys;
    }
  }

  lemma {:induction false} SubsetSizes(a: set<string>, b: set<string>)
    requires a <= b
    ensures |a| <= |b| && (|a| == |b| ==> a == b)
  {
    assert b == a + (b - a) && |b| == |a| + |b - a|;
  }

  /**
   * When some ranges name a concrete offer exactly, the smallest of their weights
   * is the offer's, whatever wildcards and partial ranges the field also holds:
   * an exact refusal is never overridden.
   */
  lemma ExactRangeDecides(ranges: set<MediaRange>, offer: MediaRange, exact: MediaRange)
    requires offer.mainType != "*" && offer.subtype != "*"
    requires exact in ranges && Names(exact, offer)
    requires forall r :: r in ranges && Names(r, offer) ==> exact.quality <= r.quality
    ensures Weight(ranges, offer) == exact.quality
  {
    assert Speaks(ranges, offer, exact) by {
      forall r | r in ranges && Matches(r, offer)
        ensures !MoreSpecific(r, exact)
      {
        FewerParameters(r, offer);
      }
    }
    assert Applies(ranges, offer, exact.quality);
    WeightIsUnique(ranges, offer, exact.quality);
  }
}
