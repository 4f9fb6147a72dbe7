/** Entity-tags (section 8.8.3 of RFC 9110): the scanner for one tag and for a list of them. */
module EntityTags {
  import opened Options
  import opened HttpText

  datatype EntityTag = EntityTag(weak: bool, value: string)

  predicate StrongMatch(a: EntityTag, b: EntityTag) {
    !a.weak && !b.weak && a.value == b.value
  }

  function Format(tag: EntityTag): string {
    (if tag.weak then "W/" else "") + [QUOTE] + tag.value + [QUOTE]
  }

  predicate IsEtagChar(c: char) {
    c as int == 0x21 || 0x23 <= c as int <= 0x7e || 0x80 <= c as int <= 0xff
  }

  predicate IsTag(tag: EntityTag) {
    forall k :: 0 <= k < |tag.value| ==> IsEtagChar(tag.value[k])
  }

  /** A tag that was read, and the place after it. */
  datatype TagRead = TagRead(tag: EntityTag, next: nat)

  // ---------------------------------------------------------------------------
  // One tag
  // ---------------------------------------------------------------------------

  /** The place where a run of tag characters that starts at `i` ends. */
  function RunEnd(h: string, i: nat): (n: nat)
    requires i <= |h|
    ensures i <= n <= |h|
    decreases |h| - i
  {
    if i < |h| && IsEtagChar(h[i]) then RunEnd(h, i + 1) else i
  }

  predicate StartsWeak(h: string, i: nat) {
    i + 2 <= |h| && h[i] == 'W' && h[i + 1] == '/'
  }

  /** The tag that starts at `start`, and the place after it. */
  function ReadTag(h: string, start: nat): (r: Option<TagRead>)
    ensures r.Some? ==> start < r.value.next <= |h|
  {
    var open := if StartsWeak(h, start) then start + 2 else start;
    if open >= |h| || h[open] != QUOTE then None
    else
      var end := RunEnd(h, open + 1);
      if end < |h| && h[end] == QUOTE then Some(TagRead(EntityTag(StartsWeak(h, start), h[open + 1..end]), end + 1))
      else None
  }

  method ReadEntityTag(h: string, start: nat) returns (r: Option<TagRead>)
    ensures r == ReadTag(h, start)
  {
    var i := start;
    var weak := false;
    if StartsWeak(h, i) {
      weak := true;
      i := i + 2;
    }
    if i >= |h| || h[i] != QUOTE {
      return None;
    }
    i := i + 1;
    var valueStart := i;
    while i < |h| && h[i] != QUOTE
      invariant valueStart <= i <= |h|
      invariant RunEnd(h, i) == RunEnd(h, valueStart)
    {
      if !IsEtagChar(h[i]) {
        return None;
      }
      i := i + 1;
    }
    if i >= |h| {
      return None;
    }
    return Some(TagRead(EntityTag(weak, h[valueStart..i]), i + 1));
  }

  lemma {:induction false} RunEndIs(h: string, i: nat, n: nat)
    requires i <= n <= |h|
    ensures RunEnd(h, i) == n <==>
      (forall k :: i <= k < n ==> IsEtagChar(h[k])) && (n < |h| ==> !IsEtagChar(h[n]))
    decreases |h| - i
  {
    hide IsEtagChar;
    if i < |h| && IsEtagChar(h[i]) && i < n {
      RunEndIs(h, i + 1, n);
    } else if i < |h| && IsEtagChar(h[i]) {
      assert i == n;
    }
  }

  /** Reading a tag at a place succeeds exactly when a tag is written there, and returns that tag. */
  lemma ReadIsInverseOfFormat(h: string, start: nat, tag: EntityTag, next: nat)
    ensures ReadTag(h, start) == Some(TagRead(tag, next)) <==>
      IsTag(tag) && next == start + |Format(tag)| && next <= |h| && h[start..next] == Format(tag)
  {
    hide IsTag, Format, ReadTag;
    if ReadTag(h, start) == Some(TagRead(tag, next)) {
      ReadsFormatted(h, start, tag, next);
    }
    if IsTag(tag) && next == start + |Format(tag)| && next <= |h| && h[start..next] == Format(tag) {
      FormattedReads(h, start, tag, next);
    }
  }

  lemma SpelledOut(h: string, start: nat, open: nat, next: nat)
    requires start <= open < next - 1 < |h| && open <= start + 2
    ensures open == start ==> h[start..next] == [h[open]] + h[open + 1..next - 1] + [h[next - 1]]
    ensures open == start + 2 ==>
      h[start..next] == [h[start], h[start + 1]] + [h[open]] + h[open + 1..next - 1] + [h[next - 1]]
  {
  }

  lemma ReadsFormatted(h: string, start: nat, tag: EntityTag, next: nat)
    requires ReadTag(h, start) == Some(TagRead(tag, next))
    ensures IsTag(tag) && next == start + |Format(tag)| && h[start..next] == Format(tag)
  {
    hide IsEtagChar;
    var open := if tag.weak then start + 2 else start;
    var end := next - 1;
    assert tag.value == h[open + 1..end] && h[open] == QUOTE && h[end] == QUOTE;
    RunEndIs(h, open + 1, end);
    forall k | 0 <= k < |tag.value|
      ensures IsEtagChar(tag.value[k])
    {
      assert tag.value[k] == h[open + 1 + k];
    }
    SpelledOut(h, start, open, next);
  }

  /** What the characters of a written tag are. */
  lemma FormatAt(h: string, start: nat, tag: EntityTag, next: nat)
    requires next == start + |Format(tag)| && next <= |h| && h[start..next] == Format(tag)
    ensures var open := if tag.weak then start + 2 else start;
      && open + 1 < next && h[open] == QUOTE && h[next - 1] == QUOTE && h[open + 1..next - 1] == tag.value
      && StartsWeak(h, start) == tag.weak
  {
    var f := h[start..next];
    var skip := if tag.weak then 2 else 0;
    assert h[start + skip] == f[skip] == QUOTE;
    assert h[next - 1] == f[|f| - 1] == QUOTE;
    SliceOfSlice(h, start, next, skip + 1, |f| - 1);
    assert f[skip + 1..|f| - 1] == tag.value;
    assert h[start] == f[0] && h[start + 1] == f[1];
  }

  lemma FormattedReads(h: string, start: nat, tag: EntityTag, next: nat)
    requires IsTag(tag) && next == start + |Format(tag)| && next <= |h| && h[start..next] == Format(tag)
    ensures ReadTag(h, start) == Some(TagRead(tag, next))
  {
    assert !IsEtagChar(QUOTE);
    hide IsEtagChar, Format, StartsWeak;
    FormatAt(h, start, tag, next);
    var open := if tag.weak then start + 2 else start;
    forall k | open + 1 <= k < next - 1
      ensures IsEtagChar(h[k])
    {
      assert h[k] == h[open + 1..next - 1][k - open - 1];
    }
    RunEndIs(h, open + 1, next - 1);
  }

  /** A written tag reads back exactly when it holds no quote, no space, no control character and nothing past U+00FF. */
  lemma WrittenTagReads(tag: EntityTag)
    ensures ReadTag(Format(tag), 0) == Some(TagRead(tag, |Format(tag)|)) <==>
      forall k :: 0 <= k < |tag.value| ==>
        ' ' < tag.value[k] <= '\U{FF}' && tag.value[k] != '"' && tag.value[k] != '\U{7F}'
  {
    hide ReadTag, Format;
    var h := Format(tag);
    assert h[0..|h|] == h;
    ReadIsInverseOfFormat(h, 0, tag, |h|);
  }

  /** A header is one tag exactly when it is that tag's written form, give or take outer white space. */
  method ParseEntityTag(header: string) returns (r: Option<EntityTag>)
    ensures forall tag :: r == Some(tag) <==> IsTag(tag) && Trim(header) == Format(tag)
  {
    var trimmed := Trim(header);
    var read := ReadEntityTag(trimmed, 0);
    forall tag
      ensures ReadTag(trimmed, 0) == Some(TagRead(tag, |trimmed|)) <==> IsTag(tag) && trimmed == Format(tag)
    {
      assert trimmed[0..|trimmed|] == trimmed;
      ReadIsInverseOfFormat(trimmed, 0, tag, |trimmed|);
    }
    if read.None? || read.value.next != |trimmed| {
      return None;
    }
    return Some(read.value.tag);
  }

  // ---------------------------------------------------------------------------
  // A list of tags
  // ---------------------------------------------------------------------------

  predicate IsOws(c: char) {
    c == ' ' || c == '\t'
  }

  predicate IsSeparator(c: char) {
    IsOws(c) || c == ','
  }

  function SkipOws(h: string, i: nat): (n: nat)
    requires i <= |h|
    ensures i <= n <= |h|
    ensures forall k :: i <= k < n ==> IsOws(h[k])
    ensures n < |h| ==> !IsOws(h[n])
    decreases |h| - i
  {
    if i < |h| && IsOws(h[i]) then SkipOws(h, i + 1) else i
  }

  function SkipSeparators(h: string, i: nat): (n: nat)
    requires i <= |h|
    ensures i <= n <= |h|
    ensures forall k :: i <= k < n ==> IsSeparator(h[k])
    ensures n < |h| ==> !IsSeparator(h[n])
    decreases |h| - i
  {
    var j := SkipOws(h, i);
    if j < |h| && h[j] == ',' then SkipSeparators(h, j + 1) else j
  }

  /** The rest of the list, from a place where a tag is due, after the tags already read. */
  function ListFrom(h: string, i: nat, tags: seq<EntityTag>): Option<seq<EntityTag>>
    requires i <= |h|
    decreases |h| - i
  {
    if i >= |h| then (if tags == [] then None else Some(tags))
    else match ReadTag(h, i)
      case None => None
      case Some(TagRead(tag, next)) =>
        var j := SkipOws(h, next);
        if j >= |h| then Some(tags + [tag])
        else if h[j] != ',' then None
        else ListFrom(h, SkipSeparators(h, j), tags + [tag])
  }

  function TagList(h: string): Option<seq<EntityTag>> {
    ListFrom(h, SkipSeparators(h, 0), [])
  }

  method DoSkipOws(h: string, start: nat) returns (i: nat)
    requires start <= |h|
    ensures i == SkipOws(h, start)
  {
    i := start;
    while i < |h| && (h[i] == ' ' || h[i] == '\t')
      invariant i <= |h| && SkipOws(h, i) == SkipOws(h, start)
    {
      i := i + 1;
    }
  }

  method DoSkipSeparators(h: string, start: nat) returns (i: nat)
    requires start <= |h|
    ensures i == SkipSeparators(h, start)
  {
    i := DoSkipOws(h, start);
    while i < |h| && h[i] == ','
      invariant i <= |h| && (i < |h| ==> !IsOws(h[i]))
      invariant SkipSeparators(h, i) == SkipSeparators(h, start)
      decreases |h| - i
    {
      i := DoSkipOws(h, i + 1);
    }
  }

  method ParseEntityTagList(header: string) returns (r: Option<seq<EntityTag>>)
    ensures r == TagList(header)
  {
    var tags: seq<EntityTag> := [];
    var i := DoSkipSeparators(header, 0);
    while i < |header|
      invariant i <= |header|
      invariant TagList(header) == ListFrom(header, i, tags)
      decreases |header| - i
    {
      var read := ReadEntityTag(header, i);
      if read.None? {
        return None;
      }
      tags := tags + [read.value.tag];
      i := DoSkipOws(header, read.value.next);
      if i >= |header| {
        return Some(tags);
      }
      if header[i] != ',' {
        return None;
      }
      i := DoSkipSeparators(header, i);
    }
    return if |tags| > 0 then Some(tags) else None;
  }

  // ---------------------------------------------------------------------------
  // What a list is
  // ---------------------------------------------------------------------------

  predicate AllSeparators(s: string) {
    forall k :: 0 <= k < |s| ==> s[k] == ' ' || s[k] == '\t' || s[k] == ','
  }

  /** The tags written out with a separator before each and one after the last. */
  function Render(seps: seq<string>, tags: seq<EntityTag>): string
    requires |seps| == |tags| + 1
  {
    if tags == [] then seps[0] else seps[0] + Format(tags[0]) + Render(seps[1..], tags[1..])
  }

  /** Separators are white space and commas; between two tags there is a comma at least. */
  ghost predicate Separate(seps: seq<string>) {
    && (forall k :: 0 <= k < |seps| ==> AllSeparators(seps[k]))
    && (forall k :: 0 < k < |seps| - 1 ==> ',' in seps[k])
  }

  ghost predicate AllTags(tags: seq<EntityTag>) {
    forall k :: 0 <= k < |tags| ==> IsTag(tags[k])
  }

  /** The header is this list of tags, with some separators around them. */
  ghost predicate Writes(h: string, tags: seq<EntityTag>) {
    tags != [] && AllTags(tags) && exists seps :: WrittenWith(h, tags, seps)
  }

  ghost predicate WrittenWith(h: string, tags: seq<EntityTag>, seps: seq<string>) {
    |seps| == |tags| + 1 && Separate(seps) && h == Render(seps, tags)
  }

  /** Skipping passes over exactly the separators written at a place. */
  lemma SkipsTo(h: string, i: nat, n: nat)
    requires i <= n <= |h| && AllSeparators(h[i..n]) && (n < |h| ==> !IsSeparator(h[n]))
    ensures SkipSeparators(h, i) == n
  {
    assert forall k :: i <= k < n ==> h[k] == h[i..n][k - i];
    assert SkipSeparators(h, i) >= n;
  }

  /** After a tag, white space leads to the end, or to a comma, or to neither. */
  lemma SkipFromComma(h: string, next: nat)
    requires next <= |h| && SkipOws(h, next) < |h| && h[SkipOws(h, next)] == ','
    ensures SkipSeparators(h, SkipOws(h, next)) == SkipSeparators(h, next)
  {
    assert SkipOws(h, SkipOws(h, next)) == SkipOws(h, next);
  }

  lemma FormatStartsNoSeparator(tag: EntityTag)
    ensures |Format(tag)| >= 2 && !IsSeparator(Format(tag)[0])
  {
  }

  /** What follows the first tag, where the rendering of a list stands at `i`. */
  lemma {:induction false} FirstOfRendered(h: string, i: nat, seps: seq<string>, tags: seq<EntityTag>)
    requires i <= |h| && tags != [] && |seps| == |tags| + 1
    requires Separate(seps) && AllTags(tags) && h[i..] == Render(seps, tags)
    ensures SkipSeparators(h, i) == i + |seps[0]| < |h|
    ensures var next := i + |seps[0]| + |Format(tags[0])|;
      next <= |h| && ReadTag(h, i + |seps[0]|) == Some(TagRead(tags[0], next)) && h[next..] == Render(seps[1..], tags[1..])
  {
    hide Format, ReadTag, SkipSeparators, IsSeparator;
    var at, f := i + |seps[0]|, Format(tags[0]);
    var next := at + |f|;
    FormatStartsNoSeparator(tags[0]);
    var all := seps[0] + f + Render(seps[1..], tags[1..]);
    assert h[i..at] == all[..|seps[0]|] == seps[0];
    assert h[at] == all[|seps[0]|] == f[0];
    assert h[at..next] == all[|seps[0]|..|seps[0]| + |f|] == f;
    assert h[next..] == all[|seps[0]| + |f|..];
    SkipsTo(h, i, at);
    ReadIsInverseOfFormat(h, at, tags[0], next);
  }

  /** Where separators are written, white space leads to their first comma, or past them all. */
  lemma {:induction false} OwsLeadsToComma(h: string, next: nat, seps: seq<string>, tags: seq<EntityTag>)
    requires next <= |h| && |seps| == |tags| + 1 && h[next..] == Render(seps, tags)
    requires forall k :: 0 <= k < |seps| ==> AllSeparators(seps[k])
    requires tags != [] ==> ',' in seps[0]
    ensures var j := SkipOws(h, next); if j == |h| then tags == [] else h[j] == ','
  {
    hide Format;
    var j := SkipOws(h, next);
    var s := seps[0];
    assert next + |s| <= |h|;
    assert forall k :: 0 <= k < |s| ==> h[next + k] == h[next..][k] == s[k];
    if ',' in s {
      var k :| 0 <= k < |s| && s[k] == ',';
      assert !IsOws(h[next + k]);
      assert j <= next + k;
      assert h[j] == s[j - next];
    } else {
      assert |h| == next + |s|;
      if j < |h| {
        assert h[j] == s[j - next];
      }
    }
  }

  lemma SeparateTail(seps: seq<string>)
    requires Separate(seps) && |seps| > 1
    ensures Separate(seps[1..]) && (|seps| > 2 ==> ',' in seps[1])
  {
    assert forall k :: 0 <= k < |seps| - 1 ==> seps[1..][k] == seps[k + 1];
  }

  lemma {:induction false} RenderedReads(
    h: string, i: nat, seps: seq<string>, tags: seq<EntityTag>, read: seq<EntityTag>)
    requires i <= |h| && |seps| == |tags| + 1
    requires Separate(seps) && AllTags(tags) && h[i..] == Render(seps, tags) && read + tags != []
    ensures ListFrom(h, SkipSeparators(h, i), read) == Some(read + tags)
    decreases |tags|
  {
    hide Format, ReadTag, SkipSeparators, SkipOws, AllSeparators, IsSeparator, IsTag, ListFrom;
    if tags == [] {
      assert h[i..|h|] == h[i..] && AllSeparators(seps[0]);
      SkipsTo(h, i, |h|);
      assert read + tags == read;
      ListAtEnd(h, read);
    } else {
      hide Render;
      FirstOfRendered(h, i, seps, tags);
      SeparateTail(seps);
      var at, next := i + |seps[0]|, i + |seps[0]| + |Format(tags[0])|;
      OwsLeadsToComma(h, next, seps[1..], tags[1..]);
      ListGoesOn(h, at, read, tags[0], next);
      assert read + [tags[0]] + tags[1..] == read + tags;
      if SkipOws(h, next) < |h| {
        assert AllTags(tags[1..]);
        RenderedReads(h, next, seps[1..], tags[1..], read + [tags[0]]);
      } else {
        assert read + [tags[0]] + [] == read + [tags[0]];
      }
    }
  }

  /** One tag of the list, with what follows it. */
  lemma ListGoesOn(h: string, at: nat, read: seq<EntityTag>, tag: EntityTag, next: nat)
    requires at < |h| && ReadTag(h, at) == Some(TagRead(tag, next))
    ensures ListFrom(h, at, read) ==
      if SkipOws(h, next) == |h| then Some(read + [tag])
      else if h[SkipOws(h, next)] != ',' then None
      else ListFrom(h, SkipSeparators(h, next), read + [tag])
  {
    hide ReadTag, SkipOws, SkipSeparators;
    if SkipOws(h, next) < |h| && h[SkipOws(h, next)] == ',' {
      SkipFromComma(h, next);
    }
  }

  lemma SkippedSeparates(h: string, i: nat)
    requires i <= |h|
    ensures AllSeparators(h[i..SkipSeparators(h, i)])
  {
  }

  /** The separators the scanner passed over on its way to a successful end. */
  lemma {:induction false} ReadsRendered(h: string, i: nat, read: seq<EntityTag>, r: seq<EntityTag>)
    returns (seps: seq<string>, tags: seq<EntityTag>)
    requires i <= |h| && ListFrom(h, SkipSeparators(h, i), read) == Some(r)
    ensures r == read + tags && AllTags(tags) && WrittenWith(h[i..], tags, seps)
    ensures tags != [] ==> seps[0] == h[i..SkipSeparators(h, i)]
    decreases |h| - i
  {
    hide Format, ReadTag, SkipOws, SkipSeparators, IsSeparator, IsTag, ListFrom, Separate, Render;
    var at := SkipSeparators(h, i);
    if at == |h| {
      seps, tags := [h[i..]], [];
      JustSeparators(h, i);
      assert r == read by { ListAtEnd(h, read); }
    } else {
      var tag, next := TagDue(h, at, read);
      ReadIsInverseOfFormat(h, at, tag, next);
      ListGoesOn(h, at, read, tag, next);
      var restSeps, rest := [h[next..]], [];
      if SkipOws(h, next) < |h| {
        restSeps, rest := ReadsRendered(h, next, read + [tag], r);
        CommaSkipped(h, next);
      } else {
        OwsSeparates(h, next);
      }
      seps, tags := [h[i..at]] + restSeps, [tag] + rest;
      SkippedSeparates(h, i);
      PrependTag(h, i, at, tag, next, restSeps, rest);
      assert read + [tag] + rest == read + tags;
    }
  }

  lemma ListAtEnd(h: string, read: seq<EntityTag>)
    ensures ListFrom(h, |h|, read) == if read == [] then None else Some(read)
  {
  }

  lemma TagDue(h: string, at: nat, read: seq<EntityTag>) returns (tag: EntityTag, next: nat)
    requires at < |h| && ListFrom(h, at, read).Some?
    ensures ReadTag(h, at) == Some(TagRead(tag, next))
  {
    tag, next := ReadTag(h, at).value.tag, ReadTag(h, at).value.next;
  }

  lemma JustSeparators(h: string, i: nat)
    requires i <= |h| && SkipSeparators(h, i) == |h|
    ensures WrittenWith(h[i..], [], [h[i..]])
  {
  }

  lemma CommaSkipped(h: string, next: nat)
    requires next <= |h| && SkipOws(h, next) < |h| && h[SkipOws(h, next)] == ','
    ensures ',' in h[next..SkipSeparators(h, next)]
  {
    var j := SkipOws(h, next);
    assert j < SkipSeparators(h, next);
    assert h[next..SkipSeparators(h, next)][j - next] == ',';
  }

  lemma OwsSeparates(h: string, next: nat)
    requires next <= |h| && SkipOws(h, next) == |h|
    ensures WrittenWith(h[next..], [], [h[next..]])
  {
  }

  lemma PrependTag(h: string, i: nat, at: nat, tag: EntityTag, next: nat, seps: seq<string>, tags: seq<EntityTag>)
    requires i <= at <= next <= |h| && AllSeparators(h[i..at]) && h[at..next] == Format(tag)
    requires WrittenWith(h[next..], tags, seps) && (tags != [] ==> ',' in seps[0])
    ensures WrittenWith(h[i..], [tag] + tags, [h[i..at]] + seps)
  {
    hide Format, AllSeparators;
    var allSeps, all := [h[i..at]] + seps, [tag] + tags;
    assert allSeps[1..] == seps && all[1..] == tags;
    assert h[i..] == h[i..at] + h[at..next] + h[next..];
    assert forall k :: 0 < k < |allSeps| ==> allSeps[k] == seps[k - 1];
  }

  /** A header reads as a list of tags exactly when it is those tags written as a list. */
  lemma ListIsInverseOfRendering(h: string, tags: seq<EntityTag>)
    ensures TagList(h) == Some(tags) <==> Writes(h, tags)
  {
    hide Render, Separate, AllTags, SkipSeparators;
    assert h[0..] == h;
    if Writes(h, tags) {
      var seps :| WrittenWith(h, tags, seps);
      RenderedReads(h, 0, seps, tags, []);
      assert [] + tags == tags;
    }
    if TagList(h) == Some(tags) {
      var seps, found := ReadsRendered(h, 0, [], tags);
      assert [] + found == found;
      NoEmptyList(h, SkipSeparators(h, 0), []);
    }
  }

  lemma {:induction false} NoEmptyList(h: string, i: nat, read: seq<EntityTag>)
    requires i <= |h|
    ensures ListFrom(h, i, read) != Some([])
    decreases |h| - i
  {
    hide ReadTag, SkipOws, SkipSeparators;
    if i < |h| && ReadTag(h, i).Some? {
      var TagRead(tag, next) := ReadTag(h, i).value;
      var j := SkipOws(h, next);
      if j < |h| && h[j] == ',' {
        NoEmptyList(h, SkipSeparators(h, j), read + [tag]);
      }
    }
  }
}
