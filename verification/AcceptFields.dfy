/** Whole `Accept` fields: any list of media ranges can be written, and what each kind of range decides. */
module AcceptFields {
  import opened Options
  import opened Numerals
  import opened HttpText
  import opened AcceptSplit
  import opened AcceptRanges
  import opened AcceptSelection
  import opened AcceptMeaning

  // ---------------------------------------------------------------------------
  // Weights as written
  // ---------------------------------------------------------------------------

  lemma AppendZero(digits: string)
    requires AllDigits(digits)
    ensures AllDigits(digits + "0") && Value(digits + "0") == 10 * Value(digits)
  {
    assert (digits + "0")[..|digits|] == digits;
  }

  /** The digits of a weight are worth the same with zeros after them. */
  lemma PaddedDecimals(digits: string)
    requires AllDigits(digits) && 1 <= |digits| <= 3
    ensures var padded := (digits + "00")[..3];
      AllDigits(padded) && Value(padded) * Pow10(|digits|) == Value(digits) * 1000
  {
    AppendZero(digits);
    AppendZero(digits + "0");
    assert Pow10(1) == 10 && Pow10(2) == 100 && Pow10(3) == 1000;
    if |digits| == 1 {
      assert (digits + "00")[..3] == digits + "0" + "0";
    } else if |digits| == 2 {
      assert (digits + "00")[..3] == digits + "0";
    } else {
      assert (digits + "00")[..3] == digits;
    }
  }

  /** Zero or one, alone or with a point and one to three decimals, none of them above zero after a one. */
  predicate IsQualityText(v: string) {
    || v == "0" || v == "1"
    || (&& 3 <= |v| <= 5 && (v[0] == '0' || v[0] == '1') && v[1] == '.' && AllDigits(v[2..])
        && (v[0] == '1' ==> forall k :: 2 <= k < |v| ==> v[k] == '0'))
  }

  lemma {:induction false} ZeroIffZeros(digits: string)
    requires AllDigits(digits)
    ensures Value(digits) == 0 <==> forall k :: 0 <= k < |digits| ==> digits[k] == '0'
  {
    if digits != "" {
      ZeroIffZeros(digits[..|digits| - 1]);
    }
  }

  /** A weight is read exactly when it is written so, and as what its decimals are worth in thousandths. */
  lemma QualityIs(v: string)
    ensures Quality(v).Some? <==> IsQualityText(v)
    ensures Quality(v).Some? && v[0] == '1' ==> Quality(v).value == 1000
    ensures v == "0" ==> Quality(v) == Some(0)
    ensures Quality(v).Some? && v[0] == '0' && |v| > 1 ==>
      Quality(v).value * Pow10(|v| - 2) == Value(v[2..]) * 1000
  {
    if 3 <= |v| <= 5 && v[1] == '.' && AllDigits(v[2..]) {
      PaddedDecimals(v[2..]);
      ZeroIffZeros(v[2..]);
      assert forall k :: 2 <= k < |v| ==> v[k] == v[2..][k - 2];
      assert Pow10(|v| - 2) > 0;
    }
  }

  /** A token may be written bare or quoted; both read as the token. */
  lemma BareOrQuoted(token: string)
    requires IsToken(token)
    ensures ParameterValue(token) == Some(token) && ParameterValue(Quoted(token)) == Some(token)
  {
    TokenIsPlain(token);
    QuotedRoundTrip(token);
  }

  // ---------------------------------------------------------------------------
  // A whole field
  // ---------------------------------------------------------------------------

  /** Nothing stands outside the range: white space around it belongs to the field. */
  ghost predicate IsTight(w: Written) {
    && w.pads.a == ""
    && (if w.weight.Some? then w.weight.value.pads.d == ""
        else if w.parameters != [] then w.parameters[|w.parameters| - 1].pads.d == ""
        else w.pads.d == "")
  }

  /** One member of a field: a range with white space around it. */
  datatype Member = Member(before: string, w: Written, after: string)

  ghost predicate CanWriteMember(m: Member) {
    IsPad(m.before) && IsPad(m.after) && CanWrite(m.w) && IsTight(m.w)
  }

  ghost predicate CanWriteAll(ms: seq<Member>) {
    forall k :: 0 <= k < |ms| ==> CanWriteMember(ms[k])
  }

  ghost function MemberText(m: Member): string
    requires CanWriteMember(m)
  {
    m.before + TextOf(m.w) + m.after
  }

  ghost function TextsOf(ms: seq<Member>): (texts: seq<string>)
    requires CanWriteAll(ms)
    ensures |texts| == |ms| && forall k :: 0 <= k < |ms| ==> texts[k] == MemberText(ms[k])
  {
    seq(|ms|, k requires 0 <= k < |ms| => MemberText(ms[k]))
  }

  function RangeSeq(ms: seq<Member>): (ranges: seq<MediaRange>)
    ensures |ranges| == |ms| && forall k :: 0 <= k < |ms| ==> ranges[k] == RangeOf(ms[k].w)
  {
    seq(|ms|, k requires 0 <= k < |ms| => RangeOf(ms[k].w))
  }

  lemma MemberIsMember(m: Member)
    requires CanWriteMember(m)
    ensures IsMember(MemberText(m), ',')
  {
    hide IsMember, IsToken, AreParameters, TextOf, IsTight;
    assert IsMember(TextOf(m.w), ',') by { WrittenIsMember(m.w); }
    PlainIsMember(m.before, ',');
    PlainIsMember(m.after, ',');
    ConcatIsMember(m.before, TextOf(m.w), ',');
    ConcatIsMember(m.before + TextOf(m.w), m.after, ',');
  }

  lemma WrittenIsMember(w: Written)
    requires CanWrite(w)
    ensures IsMember(TextOf(w), ',')
  {
    SegmentsAreMembers(w, ',');
    JoinIsMember(SegmentsOf(w), ';', ',');
  }

  lemma {:induction false} JoinEnds(parts: seq<string>, sep: char)
    requires parts != [] && forall k :: 0 <= k < |parts| ==> parts[k] != ""
    ensures var s := Join(parts, sep);
      s != "" && s[0] == parts[0][0] && s[|s| - 1] == parts[|parts| - 1][|parts[|parts| - 1]| - 1]
  {
    if |parts| > 1 {
      JoinEnds(parts[1..], sep);
    }
  }

  lemma SpreadEnds(p: Pads, left: string, sep: char, right: string)
    requires right != ""
    ensures Spread(p, left, sep, right) != ""
    ensures p.a == "" && left != "" ==> Spread(p, left, sep, right)[0] == left[0]
    ensures p.d == "" ==> Spread(p, left, sep, right)[|Spread(p, left, sep, right)| - 1] == right[|right| - 1]
  {
  }

  lemma WrittenIsTight(w: Written)
    requires CanWrite(w) && IsTight(w)
    ensures var s := TextOf(w); s != "" && !IsSpace(s[0]) && !IsSpace(s[|s| - 1])
  {
    hide IsToken, Join, QualityText, Spread, Quoted;
    var segments := SegmentsOf(w);
    TokenIsPlain(w.mainType);
    TokenIsPlain(w.subtype);
    TokensAreNotEmpty(w.mainType);
    TokensAreNotEmpty(w.subtype);
    SpreadEnds(w.pads, w.mainType, '/', w.subtype);
    forall k | 0 < k <= |w.parameters|
      ensures segments[k] != ""
      ensures w.parameters[k - 1].pads.d == "" ==> !IsSpace(segments[k][|segments[k]| - 1])
    {
      var p := w.parameters[k - 1];
      QuotedEnds(p.value);
      SpreadEnds(p.pads, p.name, '=', Quoted(p.value));
    }
    if w.weight.Some? {
      var v := w.weight.value;
      QualityIsTight(v.quality);
      SpreadEnds(v.pads, v.name, '=', QualityText(v.quality));
    }
    JoinEnds(segments, ';');
  }

  lemma QuotedEnds(value: string)
    ensures Quoted(value) != "" && Quoted(value)[|Quoted(value)| - 1] == QUOTE && !IsSpace(QUOTE)
  {
  }

  lemma MemberReads(m: Member)
    requires CanWriteMember(m)
    ensures !Blank(MemberText(m)) && Range(Trim(MemberText(m))) == Some(RangeOf(m.w))
  {
    hide Range, Trim, IsToken, AreParameters, TextOf, IsTight, IsSpace;
    WrittenIsTight(m.w);
    TrimOfPadded(m.before, TextOf(m.w), m.after);
    MediaRangeRoundTrip(m.w);
  }

  lemma {:induction false} MembersRead(ms: seq<Member>)
    requires CanWriteAll(ms)
    ensures RangesOf(TextsOf(ms)) == Some(RangeSeq(ms))
  {
    hide Trim, Range, CanWriteMember, MemberText, Blank;
    if ms != [] {
      assert CanWriteMember(ms[0]);
      MemberReads(ms[0]);
      MembersRead(ms[1..]);
      assert TextsOf(ms)[1..] == TextsOf(ms[1..]);
      assert RangeSeq(ms) == [RangeOf(ms[0].w)] + RangeSeq(ms[1..]);
    }
  }

  /** Any list of media ranges, written with commas and white space between them, reads back as those ranges. */
  lemma FieldRoundTrip(ms: seq<Member>)
    requires ms != [] && CanWriteAll(ms)
    ensures Accepted(Join(TextsOf(ms), ',')) == Some(RangeSeq(ms))
  {
    hide Range, Trim, Join, Split, MemberText, CanWriteMember, IsMember;
    var texts := TextsOf(ms);
    forall k | 0 <= k < |texts|
      ensures IsMember(texts[k], ',')
    {
      MemberIsMember(ms[k]);
    }
    SplitOfJoin(texts, ',');
    MembersRead(ms);
  }

  /** The answer to a written field is the choice by its ranges. */
  lemma SelectByWritten(ms: seq<Member>, offered: seq<string>)
    requires ms != [] && CanWriteAll(ms)
    ensures Select(Some(Join(TextsOf(ms), ',')), offered) == Pick(SetOf(RangeSeq(ms)), offered).0
  {
    hide Accepted, Join, CanWriteMember, Pick;
    FieldRoundTrip(ms);
  }

  // ---------------------------------------------------------------------------
  // What each kind of range decides
  // ---------------------------------------------------------------------------

  function Everything(q: nat): MediaRange {
    MediaRange("*", "*", map[], q, true)
  }

  function AllOf(mainType: string, q: nat): MediaRange {
    MediaRange(mainType, "*", map[], q, true)
  }

  function Only(mainType: string, subtype: string, parameters: map<string, string>, q: nat): MediaRange {
    MediaRange(mainType, subtype, parameters, q, true)
  }

  /** The offer has all of these parameters, with these values. */
  predicate HasAll(offer: MediaRange, parameters: map<string, string>) {
    forall name :: name in parameters ==> name in offer.parameters && offer.parameters[name] == parameters[name]
  }

  /** A full wildcard on its own gives its weight to every offer. */
  lemma WildcardAcceptsAll(q: nat, weighted: bool, offer: MediaRange)
    ensures Weight({MediaRange("*", "*", map[], q, weighted)}, offer) == q
  {
    var r := MediaRange("*", "*", map[], q, weighted);
    assert Speaks({r}, offer, r);
    assert Applies({r}, offer, q);
    WeightIsUnique({r}, offer, q);
  }

  /**
   * Beside one another, a full wildcard, a wildcard of one type, a media type and
   * the same with parameters each decide what no more precise one covers: the
   * offers with those parameters, the other offers of that media type, the other
   * offers of that type, and the rest.
   */
  lemma PrecedenceOfRanges(
    t: string, s: string, parameters: map<string, string>, any: nat, ofType: nat, plain: nat, precise: nat,
    offer: MediaRange)
    requires t != "*" && s != "*" && parameters != map[]
    ensures Weight({Everything(any), AllOf(t, ofType), Only(t, s, map[], plain), Only(t, s, parameters, precise)}, offer)
      == if offer.mainType != t then any
         else if offer.subtype != s then ofType
         else if HasAll(offer, parameters) then precise
         else plain
  {
    var e, a, o, p := Everything(any), AllOf(t, ofType), Only(t, s, map[], plain), Only(t, s, parameters, precise);
    var ranges := {e, a, o, p};
    var best :=
      if offer.mainType != t then e else if offer.subtype != s then a else if HasAll(offer, parameters) then p else o;
    assert |parameters| > 0 by {
      var name :| name in parameters;
      assert name in parameters.Keys;
    }
    assert Speaks(ranges, offer, best);
    assert best in ranges && Applies(ranges, offer, best.quality);
    WeightIsUnique(ranges, offer, best.quality);
  }

  /** Beside a full wildcard, a wildcard of one type decides for the offers of that type and for no other. */
  lemma TypeBesideEverything(t: string, any: nat, ofType: nat, offer: MediaRange)
    requires t != "*"
    ensures Weight({Everything(any), AllOf(t, ofType)}, offer) == if offer.mainType == t then ofType else any
  {
    var ranges := {Everything(any), AllOf(t, ofType)};
    var best := if offer.mainType == t then AllOf(t, ofType) else Everything(any);
    assert Speaks(ranges, offer, best);
    assert best in ranges && Applies(ranges, offer, best.quality);
    WeightIsUnique(ranges, offer, best.quality);
  }

  /** The range is about something else: another type, another subtype, or a parameter the offer does not have so. */
  ghost predicate IsElsewhere(r: MediaRange, offer: MediaRange) {
    || (r.mainType != "*" && r.mainType != offer.mainType)
    || (r.mainType != "*" && r.subtype != "*" && r.subtype != offer.subtype)
    || (exists name :: name in r.parameters
          && (name !in offer.parameters || offer.parameters[name] != r.parameters[name]))
  }

  /** An offer that every range is about something else than is refused. */
  lemma ElsewhereIsRefused(ranges: set<MediaRange>, offer: MediaRange)
    requires forall r :: r in ranges ==> IsElsewhere(r, offer)
    ensures Weight(ranges, offer) == 0
  {
    assert Applies(ranges, offer, 0);
    WeightIsUnique(ranges, offer, 0);
  }

  /** A range that is about nothing else than the offer covers it: alone, it gives its weight. */
  lemma CoveringRangeDecides(r: MediaRange, offer: MediaRange)
    requires !IsElsewhere(r, offer)
    ensures Weight({r}, offer) == r.quality
  {
    assert Speaks({r}, offer, r);
    assert Applies({r}, offer, r.quality);
    WeightIsUnique({r}, offer, r.quality);
  }

  // ---------------------------------------------------------------------------
  // The commonest field there is
  // ---------------------------------------------------------------------------

  /** The first offer that is a media type this server can name. */
  function FirstNamed(offered: seq<string>): Option<string> {
    if offered == [] then None
    else if FirstNamed(offered[..|offered| - 1]).Some? then FirstNamed(offered[..|offered| - 1])
    else if Offer(offered[|offered| - 1]).Some? then Some(offered[|offered| - 1])
    else None
  }

  function StarText(): Written {
    Written("*", "*", Pads("", "", "", ""), [], None)
  }

  lemma StarIsRead()
    ensures Accepted("*/*") == Some([MediaRange("*", "*", map[], 1000, false)])
  {
    var w := StarText();
    var m := Member("", w, "");
    assert IsToken("*") && Lower("*") == "*";
    assert CanWrite(w) && IsTight(w);
    assert Spread(w.pads, "*", '/', "*") == ("" + "*" + "") + "/" + ("" + "*" + "") == "*/*";
    assert SegmentsOf(w) == ["*/*"] + [] + [] == ["*/*"];
    assert MemberText(m) == "" + "*/*" + "" == "*/*";
    assert TextsOf([m]) == ["*/*"];
    assert Join(["*/*"], ',') == "*/*";
    FieldRoundTrip([m]);
    assert RangeSeq([m]) == [MediaRange("*", "*", map[], 1000, false)];
  }

  lemma {:induction false} PickOfEqual(ranges: set<MediaRange>, offered: seq<string>, q: nat)
    requires q > 0 && forall offer :: Offer(offer).Some? ==> Level(ranges, offer) == q
    ensures Pick(ranges, offered) == (FirstNamed(offered), if FirstNamed(offered).Some? then q else 0)
  {
    hide Offer;
    if offered != [] {
      PickOfEqual(ranges, offered[..|offered| - 1], q);
    }
  }

  /** A client that accepts anything gets the server's first choice that is a media type at all. */
  lemma AnythingGetsTheFirst(offered: seq<string>)
    ensures Select(Some("*/*"), offered) == FirstNamed(offered)
  {
    hide Offer, Accepted, Weight, Pick, FirstNamed;
    StarIsRead();
    var r := MediaRange("*", "*", map[], 1000, false);
    var ranges := SetOf([r]);
    assert ranges == {r};
    forall offer | Offer(offer).Some?
      ensures Level(ranges, offer) == 1000
    {
      WildcardAcceptsAll(1000, false, Offer(offer).value);
    }
    PickOfEqual(ranges, offered, 1000);
  }

  /** A written range is an offer exactly when it names a type and a subtype and has no weight. */
  lemma OfferOfWritten(w: Written)
    requires CanWrite(w)
    ensures Offer(TextOf(w)) ==
      if w.mainType == "*" || w.subtype == "*" || w.weight.Some? then None else Some(RangeOf(w))
  {
    hide IsToken, AreParameters, IsWeight, Range, Lower;
    MediaRangeRoundTrip(w);
    LowerOfToken(w.mainType);
    LowerOfToken(w.subtype);
  }

  /** One member that cannot be read spoils the field: the client is answered as if it had sent none. */
  lemma SpoiltFieldIsAbsent(ms: seq<string>, k: nat, offered: seq<string>)
    requires k < |ms| && AllMembers(ms, ',') && !Readable(ms[k])
    ensures Select(Some(Join(ms, ',')), offered) == Select(None, offered)
  {
    hide Readable, Join, AllMembers, RangesOf;
    SplitOfJoin(ms, ',');
    RangesOfMeans(ms);
    assert ms[k] in ms;
  }
}
