/** Listing a group's pending entries by pages. */
module StreamPaging {
  import opened Options
  import opened Numerals
  import opened StreamModel

  datatype PendingEntry = PendingEntry(id: EntryId, consumer: string, idleMs: int, deliveryCount: nat)

  function IdText(id: EntryId): string {
    Decimal(id.ms) + "-" + Decimal(id.num)
  }

  /** Strings in the order JavaScript compares them. */
  predicate TextLess(a: string, b: string) {
    if b == "" then false
    else if a == "" then true
    else a[0] < b[0] || (a[0] == b[0] && TextLess(a[1..], b[1..]))
  }

  /** The two agree before place `k`, where the first ends or has the smaller character. */
  predicate FirstDiffersAt(a: string, b: string, k: nat) {
    k <= |a| && k < |b| && a[..k] == b[..k] && (k == |a| || a[k] < b[k])
  }

  /** The order is that of the first place where the two differ; a text comes before all it begins. */
  lemma {:induction false} TextLessIs(a: string, b: string)
    ensures TextLess(a, b) <==> exists k: nat :: FirstDiffersAt(a, b, k)
  {
    if b == "" {
    } else if a == "" {
      assert FirstDiffersAt(a, b, 0);
    } else if a[0] < b[0] {
      assert FirstDiffersAt(a, b, 0);
    } else if a[0] == b[0] {
      TextLessIs(a[1..], b[1..]);
      if TextLess(a, b) {
        var k: nat :| FirstDiffersAt(a[1..], b[1..], k);
        assert a[..k + 1] == [a[0]] + a[1..][..k] && b[..k + 1] == [b[0]] + b[1..][..k];
        assert FirstDiffersAt(a, b, k + 1);
      }
      forall k: nat | FirstDiffersAt(a, b, k)
        ensures k > 0 && FirstDiffersAt(a[1..], b[1..], k - 1)
      {
        assert a[1..][..k - 1] == a[..k][1..] && b[1..][..k - 1] == b[..k][1..];
      }
    } else {
      forall k: nat | 0 < k <= |a| && k <= |b|
        ensures a[..k] != b[..k]
      {
        assert a[..k][0] != b[..k][0];
      }
    }
  }

  lemma {:induction false} TextLessTransitive(a: string, b: string, c: string)
    requires TextLess(a, b) && TextLess(b, c)
    ensures TextLess(a, c)
  {
    if a != "" && a[0] == b[0] == c[0] {
      TextLessTransitive(a[1..], b[1..], c[1..]);
    }
  }

  /** Whether an id is past the place a page starts at: the two are compared as strings. */
  predicate PastText(after: Option<EntryId>, id: EntryId) {
    after.None? || TextLess(IdText(after.value), IdText(id))
  }

  predicate Idle(group: Group, minIdle: int, now: nat, id: EntryId) {
    id in group.pending && now - group.pending[id].deliveredAt >= minIdle
  }

  /** The first `count` of the ids past the place, in the order of their numbers. */
  ghost predicate IsPage(ids: set<EntryId>, after: Option<EntryId>, count: nat, page: seq<EntryId>) {
    && |page| <= count && Sorted(page)
    && (forall i :: 0 <= i < |page| ==> page[i] in ids && PastText(after, page[i]))
    && (forall id :: id in ids && PastText(after, id) && id !in page ==>
         |page| == count && forall i :: 0 <= i < |page| ==> Before(page[i], id))
  }

  function IdsOf(entries: seq<PendingEntry>): (ids: seq<EntryId>)
    ensures |ids| == |entries|
  {
    seq(|entries|, i requires 0 <= i < |entries| => entries[i].id)
  }

  ghost function IdleIds(group: Group, minIdle: int, now: nat): set<EntryId> {
    set id | id in group.pending && Idle(group, minIdle, now, id)
  }

  /** `XPENDING` with a range: the idle entries past the place, sorted, cut to the count. */
  method PendingEntries(group: Group, minIdle: int, now: nat, count: nat, after: Option<EntryId>)
    returns (entries: seq<PendingEntry>)
    ensures IsPage(IdleIds(group, minIdle, now), after, count, IdsOf(entries))
    ensures forall i :: 0 <= i < |entries| ==>
      && entries[i].id in group.pending
      && var held := group.pending[entries[i].id];
         entries[i] == PendingEntry(entries[i].id, held.consumer, now - held.deliveredAt, held.deliveryCount)
    ensures forall i :: 0 <= i < |entries| ==> entries[i].idleMs >= minIdle
    ensures |entries| < count ==> forall id ::
      id in group.pending && now - group.pending[id].deliveredAt >= minIdle && PastText(after, id) ==> id in IdsOf(entries)
  {
    hide PastText, IsPage, Sorted;
    var sorted := SortedMatches(group, minIdle, now, after);
    var kept := if |sorted| > count then sorted[..count] else sorted;
    CutIsPage(IdleIds(group, minIdle, now), after, count, sorted, kept);
    entries := [];
    for i := 0 to |kept|
      invariant |entries| == i && forall k :: 0 <= k < i ==>
        && kept[k] in group.pending
        && entries[k] == PendingEntry(kept[k], group.pending[kept[k]].consumer,
                                      now - group.pending[kept[k]].deliveredAt, group.pending[kept[k]].deliveryCount)
    {
      assert kept[i] in sorted;
      var held := group.pending[kept[i]];
      entries := entries + [PendingEntry(kept[i], held.consumer, now - held.deliveredAt, held.deliveryCount)];
    }
    assert IdsOf(entries) == kept;
    forall i | 0 <= i < |entries|
      ensures entries[i].idleMs >= minIdle
    {
      assert kept[i] in sorted && kept[i] in IdleIds(group, minIdle, now);
    }
  }

  method SortedMatches(group: Group, minIdle: int, now: nat, after: Option<EntryId>) returns (sorted: seq<EntryId>)
    ensures Sorted(sorted)
    ensures forall id :: id in sorted <==> id in IdleIds(group, minIdle, now) && PastText(after, id)
  {
    hide PastText, Sorted;
    sorted := [];
    assert Sorted(sorted) by { NoneSorted(sorted); }
    var left := group.pending.Keys;
    while left != {}
      invariant left <= group.pending.Keys && Sorted(sorted)
      invariant forall id :: id in sorted <==>
        id !in left && Idle(group, minIdle, now, id) && PastText(after, id)
      decreases |left|
    {
      var id :| id in left;
      if Idle(group, minIdle, now, id) && PastText(after, id) {
        sorted := Insert(sorted, id);
      }
      left := left - {id};
    }
  }

  lemma NoneSorted(ids: seq<EntryId>)
    requires ids == []
    ensures Sorted(ids)
  {
  }

  lemma CutIsPage(ids: set<EntryId>, after: Option<EntryId>, count: nat, sorted: seq<EntryId>, kept: seq<EntryId>)
    requires Sorted(sorted) && kept == if |sorted| > count then sorted[..count] else sorted
    requires forall id :: id in sorted <==> id in ids && PastText(after, id)
    ensures IsPage(ids, after, count, kept)
  {
    hide PastText;
    forall id | id in ids && PastText(after, id) && id !in kept
      ensures |kept| == count && forall i :: 0 <= i < |kept| ==> Before(kept[i], id)
    {
      var k :| 0 <= k < |sorted| && sorted[k] == id;
      assert forall i :: 0 <= i < |kept| ==> kept[i] == sorted[i];
      assert k >= |kept|;
    }
  }

  method Insert(sorted: seq<EntryId>, id: EntryId) returns (r: seq<EntryId>)
    requires Sorted(sorted) && id !in sorted
    ensures Sorted(r) && forall x :: x in r <==> x in sorted || x == id
  {
    hide Sorted, Before;
    var k := 0;
    while k < |sorted| && Before(sorted[k], id)
      invariant k <= |sorted| && forall i :: 0 <= i < k ==> Before(sorted[i], id)
    {
      k := k + 1;
    }
    r := sorted[..k] + [id] + sorted[k..];
    InsertedIsSorted(sorted, id, k);
    assert sorted == sorted[..k] + sorted[k..];
  }

  lemma InsertedIsSorted(sorted: seq<EntryId>, id: EntryId, k: nat)
    requires Sorted(sorted) && id !in sorted && k <= |sorted| && forall i :: 0 <= i < k ==> Before(sorted[i], id)
    requires k < |sorted| ==> !Before(sorted[k], id)
    ensures Sorted(sorted[..k] + [id] + sorted[k..])
  {
    var r := sorted[..k] + [id] + sorted[k..];
    forall i, j | 0 <= i < j < |r|
      ensures Before(r[i], r[j])
    {
      assert r[i] == if i < k then sorted[i] else if i == k then id else sorted[i - 1];
      assert r[j] == if j < k then sorted[j] else if j == k then id else sorted[j - 1];
      assert k < |sorted| ==> sorted[k] != id;
    }
  }

  // ---------------------------------------------------------------------------
  // Walking all pages
  // ---------------------------------------------------------------------------

  function AfterPage(pages: seq<seq<EntryId>>, k: nat): Option<EntryId>
    requires k <= |pages| && forall i :: 0 <= i < k ==> pages[i] != []
  {
    if k == 0 then None else Some(pages[k - 1][|pages[k - 1]| - 1])
  }

  /** Each page starts past the last id of the one before; the walk ends on an empty page. */
  ghost predicate IsPaging(ids: set<EntryId>, count: nat, pages: seq<seq<EntryId>>) {
    && count > 0 && |pages| > 0
    && (forall k :: 0 <= k < |pages| ==> (pages[k] == [] <==> k == |pages| - 1))
    && (forall k :: 0 <= k < |pages| ==> IsPage(ids, AfterPage(pages, k), count, pages[k]))
  }

  function IdSetOf(page: seq<EntryId>): set<EntryId> {
    set id | id in page
  }

  /** The ids on the pages before page `k`. */
  function ShownBefore(pages: seq<seq<EntryId>>, k: nat): set<EntryId>
    requires k <= |pages|
  {
    if k == 0 then {} else ShownBefore(pages, k - 1) + IdSetOf(pages[k - 1])
  }

  /** Page `k` shows nothing that an earlier page has shown. */
  ghost predicate AllNew(pages: seq<seq<EntryId>>, k: nat)
    requires k < |pages|
  {
    IdSetOf(pages[k]) !! ShownBefore(pages, k)
  }

  /** The walk shows every id, and none on two pages. */
  ghost predicate ShowsEachOnce(ids: set<EntryId>, pages: seq<seq<EntryId>>) {
    && ShownBefore(pages, |pages|) == ids
    && forall k :: 0 <= k < |pages| ==> AllNew(pages, k)
  }

  ghost function UpTo(ids: set<EntryId>, last: EntryId): set<EntryId> {
    set id | id in ids && !Before(last, id)
  }

  /** What is past a page's last id as text is what is past it by number. */
  ghost predicate OrdersAgreeAt(ids: set<EntryId>, last: EntryId) {
    forall id :: id in ids ==> (PastText(Some(last), id) <==> Before(last, id))
  }

  /** A page that takes up where those before it left off extends what is shown up to its own end. */
  lemma NextPage(ids: set<EntryId>, after: Option<EntryId>, count: nat, page: seq<EntryId>, shown: set<EntryId>)
    requires IsPage(ids, after, count, page) && page != [] && shown <= ids
    requires forall id :: id in ids ==> (id in shown <==> !PastText(after, id))
    requires forall id, i :: id in shown && 0 <= i < |page| ==> Before(id, page[i])
    ensures shown !! IdSetOf(page) && shown + IdSetOf(page) == UpTo(ids, page[|page| - 1])
  {
    hide PastText;
    var last := page[|page| - 1];
    forall id | id in ids
      ensures id in shown + IdSetOf(page) <==> !Before(last, id)
    {
      if id in page {
        var i :| 0 <= i < |page| && page[i] == id;
        assert i == |page| - 1 || Before(id, last);
      }
    }
  }

  /** While the orders agree, the pages so far show exactly what is not past the last one's end. */
  lemma {:induction false} ShownSoFar(ids: set<EntryId>, count: nat, pages: seq<seq<EntryId>>, n: nat)
    requires IsPaging(ids, count, pages) && 0 < n < |pages|
    requires forall k :: 0 < k < n ==> OrdersAgreeAt(ids, AfterPage(pages, k).value)
    ensures ShownBefore(pages, n) == UpTo(ids, AfterPage(pages, n).value)
    ensures forall k :: 0 <= k < n ==> AllNew(pages, k)
  {
    hide PastText, IsPage, IdSetOf, UpTo, Before, OrdersAgreeAt, AllNew, ShownBefore;
    assert IsPage(ids, AfterPage(pages, n - 1), count, pages[n - 1]);
    OnePageMore(pages, n - 1);
    if n > 1 {
      ShownSoFar(ids, count, pages, n - 1);
      AgreedPage(ids, AfterPage(pages, n - 1).value, count, pages[n - 1]);
    } else {
      FirstPage(ids, count, pages[0]);
    }
  }

  lemma OnePageMore(pages: seq<seq<EntryId>>, k: nat)
    requires k < |pages|
    ensures ShownBefore(pages, k + 1) == ShownBefore(pages, k) + IdSetOf(pages[k])
    ensures AllNew(pages, k) <==> IdSetOf(pages[k]) !! ShownBefore(pages, k)
    ensures k == 0 ==> ShownBefore(pages, k) == {}
  {
  }

  lemma FirstPage(ids: set<EntryId>, count: nat, page: seq<EntryId>)
    requires IsPage(ids, None, count, page) && page != []
    ensures {} + IdSetOf(page) == UpTo(ids, page[|page| - 1])
  {
    NextPage(ids, None, count, page, {});
  }

  lemma AgreedPage(ids: set<EntryId>, last: EntryId, count: nat, page: seq<EntryId>)
    requires OrdersAgreeAt(ids, last) && IsPage(ids, Some(last), count, page) && page != []
    ensures IdSetOf(page) !! UpTo(ids, last) && UpTo(ids, last) + IdSetOf(page) == UpTo(ids, page[|page| - 1])
  {
    AgreedStart(ids, last, count, page);
    NextPage(ids, Some(last), count, page, UpTo(ids, last));
  }

  lemma NothingShown(ids: set<EntryId>)
    ensures forall id :: id in ids ==> PastText(None, id)
  {
  }

  lemma AgreedStart(ids: set<EntryId>, last: EntryId, count: nat, page: seq<EntryId>)
    requires OrdersAgreeAt(ids, last) && IsPage(ids, Some(last), count, page)
    ensures forall id :: id in ids ==> (id in UpTo(ids, last) <==> !PastText(Some(last), id))
    ensures forall id, i :: id in UpTo(ids, last) && 0 <= i < |page| ==> Before(id, page[i])
  {
    hide PastText;
  }

  /** A walk shows every pending id exactly once just when the orders agree at the end of each of its pages. */
  lemma CompleteIffPageEndsAgree(ids: set<EntryId>, count: nat, pages: seq<seq<EntryId>>)
    requires IsPaging(ids, count, pages)
    ensures ShowsEachOnce(ids, pages) <==>
      forall k :: 0 < k < |pages| ==> OrdersAgreeAt(ids, AfterPage(pages, k).value)
  {
    hide PastText, IsPage, IdSetOf, OrdersAgreeAt;
    if forall k :: 0 < k < |pages| ==> OrdersAgreeAt(ids, AfterPage(pages, k).value) {
      AgreementSuffices(ids, count, pages);
    } else {
      var k :| 0 < k < |pages| && !OrdersAgreeAt(ids, AfterPage(pages, k).value);
      var n := FirstDisagreement(ids, count, pages, k);
      DisagreementShows(ids, count, pages, n);
    }
  }

  lemma AgreementSuffices(ids: set<EntryId>, count: nat, pages: seq<seq<EntryId>>)
    requires IsPaging(ids, count, pages)
    requires forall k :: 0 < k < |pages| ==> OrdersAgreeAt(ids, AfterPage(pages, k).value)
    ensures ShowsEachOnce(ids, pages)
  {
    hide PastText, IdSetOf, IsPage, Before, UpTo, OrdersAgreeAt, AllNew, ShownBefore;
    var n := |pages| - 1;
    OnePageMore(pages, n);
    assert IsPage(ids, AfterPage(pages, n), count, pages[n]) && pages[n] == [];
    EmptyPage(pages[n]);
    if n == 0 {
      NothingLeft(ids, count, None);
    } else {
      ShownSoFar(ids, count, pages, n);
      NothingLeft(ids, count, AfterPage(pages, n));
    }
  }

  lemma NothingLeft(ids: set<EntryId>, count: nat, after: Option<EntryId>)
    requires IsPage(ids, after, count, []) && count > 0 && (after.Some? ==> OrdersAgreeAt(ids, after.value))
    ensures ids == if after.None? then {} else UpTo(ids, after.value)
  {
    NothingShown(ids);
    hide PastText;
  }

  lemma EmptyPage(page: seq<EntryId>)
    requires page == []
    ensures IdSetOf(page) == {}
  {
  }

  lemma {:induction false} FirstDisagreement(ids: set<EntryId>, count: nat, pages: seq<seq<EntryId>>, k: nat)
    returns (n: nat)
    requires IsPaging(ids, count, pages) && 0 < k < |pages| && !OrdersAgreeAt(ids, AfterPage(pages, k).value)
    ensures 0 < n < |pages| && !OrdersAgreeAt(ids, AfterPage(pages, n).value)
    ensures forall m :: 0 < m < n ==> OrdersAgreeAt(ids, AfterPage(pages, m).value)
  {
    hide IsPage, OrdersAgreeAt;
    if m :| 0 < m < k && !OrdersAgreeAt(ids, AfterPage(pages, m).value) {
      n := FirstDisagreement(ids, count, pages, m);
    } else {
      n := k;
    }
  }

  /** An id that the first bad page end wrongly lets by is shown again; one it wrongly stops is never shown. */
  lemma DisagreementShows(ids: set<EntryId>, count: nat, pages: seq<seq<EntryId>>, n: nat)
    requires IsPaging(ids, count, pages) && 0 < n < |pages| && !OrdersAgreeAt(ids, AfterPage(pages, n).value)
    requires forall m :: 0 < m < n ==> OrdersAgreeAt(ids, AfterPage(pages, m).value)
    ensures !ShowsEachOnce(ids, pages)
  {
    hide PastText, IsPage, IdSetOf, ShownBefore;
    var last := AfterPage(pages, n).value;
    ShownSoFar(ids, count, pages, n);
    assert IsPage(ids, Some(last), count, pages[n]);
    var id :| id in ids && !(PastText(Some(last), id) <==> Before(last, id));
    if PastText(Some(last), id) {
      ShownTwice(ids, last, count, pages[n], id);
      assert !AllNew(pages, n);
    } else {
      NeverShown(ids, count, pages, n, |pages|, id);
      assert id !in ShownBefore(pages, n);
    }
  }

  lemma ShownTwice(ids: set<EntryId>, last: EntryId, count: nat, page: seq<EntryId>, id: EntryId)
    requires IsPage(ids, Some(last), count, page) && count > 0
    requires id in ids && PastText(Some(last), id) && !Before(last, id)
    ensures !(IdSetOf(page) !! UpTo(ids, last))
  {
    hide PastText;
    assert page != [];
    if id in page {
      assert id in IdSetOf(page) && id in UpTo(ids, last);
    } else {
      assert Before(page[0], id);
      assert page[0] in page && page[0] in IdSetOf(page) && page[0] in UpTo(ids, last);
    }
  }

  /** As text the page ends only ever advance, so an id not past one of them is on no later page. */
  lemma {:induction false} NeverShown(
    ids: set<EntryId>, count: nat, pages: seq<seq<EntryId>>, n: nat, m: nat, id: EntryId)
    requires IsPaging(ids, count, pages) && 0 < n <= m <= |pages| && n < |pages|
    requires !PastText(AfterPage(pages, n), id)
    ensures m < |pages| ==> !PastText(AfterPage(pages, m), id)
    ensures id in ShownBefore(pages, m) ==> id in ShownBefore(pages, n)
    decreases m
  {
    hide PastText, IsPage, ShownBefore;
    if m > n {
      OnePageMore(pages, m - 1);
      NeverShown(ids, count, pages, n, m - 1, id);
      var start, page := AfterPage(pages, m - 1), pages[m - 1];
      assert IsPage(ids, start, count, page);
      StillNotPast(ids, start.value, count, page, id);
    }
  }

  lemma StillNotPast(ids: set<EntryId>, start: EntryId, count: nat, page: seq<EntryId>, id: EntryId)
    requires IsPage(ids, Some(start), count, page) && !PastText(Some(start), id)
    ensures id !in page
    ensures page != [] ==> !PastText(Some(page[|page| - 1]), id)
  {
    if page != [] && PastText(Some(page[|page| - 1]), id) {
      TextLessTransitive(IdText(start), IdText(page[|page| - 1]), IdText(id));
    }
  }

  // ---------------------------------------------------------------------------
  // When a walk will be complete, from the ids and the count alone
  // ---------------------------------------------------------------------------

  /** Where page `k` would end if the sorted ids were cut every `count` places. */
  function Cut(total: nat, count: nat, k: nat): (end: nat)
    ensures end <= total
  {
    if k * count < total then k * count else total
  }

  lemma CutSteps(total: nat, count: nat, k: nat)
    ensures Cut(total, count, 0) == 0
    ensures Cut(total, count, k + 1) ==
      if Cut(total, count, k) + count < total then Cut(total, count, k) + count else total
  {
    assert (k + 1) * count == k * count + count;
  }

  lemma {:induction false} CutStaysFull(total: nat, count: nat, k: nat, m: nat)
    requires k <= m && Cut(total, count, k) == total
    ensures Cut(total, count, m) == total
    decreases m - k
  {
    hide Cut;
    if k < m {
      CutSteps(total, count, m - 1);
      CutStaysFull(total, count, k, m - 1);
    }
  }

  /** At every cut of the sorted ids the order as text agrees with the order as numbers. */
  ghost predicate CutsAgree(sorted: seq<EntryId>, count: nat) {
    forall k :: 0 < k && Cut(|sorted|, count, k - 1) < |sorted| ==> AgreesAtCut(sorted, count, k)
  }

  ghost predicate AgreesAtCut(sorted: seq<EntryId>, count: nat, k: nat) {
    Cut(|sorted|, count, k) > 0 ==> OrdersAgreeAt(IdSetOf(sorted), sorted[Cut(|sorted|, count, k) - 1])
  }

  /** The ids past a place are those of a tail of the sorted list. */
  ghost predicate PastIsTail(sorted: seq<EntryId>, after: Option<EntryId>, start: nat)
    requires start <= |sorted|
  {
    forall i :: 0 <= i < |sorted| ==> (PastText(after, sorted[i]) <==> i >= start)
  }

  lemma {:induction false} PageFollowsTail(
    sorted: seq<EntryId>, after: Option<EntryId>, start: nat, count: nat, page: seq<EntryId>, n: nat)
    requires Sorted(sorted) && start <= |sorted| && PastIsTail(sorted, after, start)
    requires IsPage(IdSetOf(sorted), after, count, page) && n <= |page|
    ensures start + n <= |sorted| && page[..n] == sorted[start..start + n]
  {
    hide PastText;
    if n > 0 {
      var j := n - 1;
      PageFollowsTail(sorted, after, start, count, page, j);
      assert page[j] in IdSetOf(sorted);
      var m :| 0 <= m < |sorted| && sorted[m] == page[j];
      assert m >= start;
      assert forall i :: 0 <= i < j ==> page[i] == sorted[start..start + j][i];
      NotFollowedYet(sorted, page, start, j, m);
      NextOfTail(sorted, after, start, count, page, j, m);
      assert page[..n] == page[..j] + [page[j]];
      assert sorted[start..start + n] == sorted[start..start + j] + [sorted[start + j]];
    }
  }

  lemma NotFollowedYet(sorted: seq<EntryId>, page: seq<EntryId>, start: nat, j: nat, m: nat)
    requires Sorted(page) && j < |page| && start + j <= |sorted| && start <= m < |sorted| && page[j] == sorted[m]
    requires forall i :: 0 <= i < j ==> page[i] == sorted[start + i]
    ensures m >= start + j
  {
    assert forall i :: 0 <= i < j ==> page[i] != page[j];
    assert forall i :: start <= i < start + j ==> sorted[i] == page[i - start];
  }

  /** The id after those a page has followed so far is the page's next one. */
  lemma NextOfTail(
    sorted: seq<EntryId>, after: Option<EntryId>, start: nat, count: nat, page: seq<EntryId>, j: nat, m: nat)
    requires Sorted(sorted) && start + j <= m < |sorted| && PastIsTail(sorted, after, start)
    requires IsPage(IdSetOf(sorted), after, count, page) && j < |page| && page[j] == sorted[m]
    requires forall i :: 0 <= i < j ==> page[i] == sorted[start + i]
    ensures m == start + j
  {
    hide PastText;
    var x := sorted[start + j];
    assert x in IdSetOf(sorted) && PastText(after, x);
    if x in page {
      var i :| 0 <= i < |page| && page[i] == x;
      assert i >= j;
    }
  }

  lemma PageIsSlice(
    sorted: seq<EntryId>, after: Option<EntryId>, start: nat, count: nat, page: seq<EntryId>)
    requires Sorted(sorted) && start <= |sorted| && PastIsTail(sorted, after, start)
    requires IsPage(IdSetOf(sorted), after, count, page)
    ensures var end := if start + count < |sorted| then start + count else |sorted|; page == sorted[start..end]
  {
    hide PastText;
    var n := |page|;
    PageFollowsTail(sorted, after, start, count, page, n);
    assert page[..n] == page;
    if start + n < |sorted| {
      var x := sorted[start + n];
      assert x in IdSetOf(sorted) && PastText(after, x);
      assert forall i :: 0 <= i < n ==> page[i] == sorted[start + i] && Before(page[i], x);
    }
  }

  /** While the orders agree, each page is the next cut of the sorted ids. */
  lemma {:induction false} PageEndsAreCuts(sorted: seq<EntryId>, count: nat, pages: seq<seq<EntryId>>, n: nat)
    requires Sorted(sorted) && IsPaging(IdSetOf(sorted), count, pages) && 0 < n < |pages|
    requires forall k :: 0 < k < n ==> OrdersAgreeAt(IdSetOf(sorted), AfterPage(pages, k).value)
    ensures Cut(|sorted|, count, n - 1) < |sorted| && Cut(|sorted|, count, n) > 0
    ensures AfterPage(pages, n) == Some(sorted[Cut(|sorted|, count, n) - 1])
  {
    hide PastText, IsPage, PastIsTail, OrdersAgreeAt, Cut, IdSetOf, Sorted, Before;
    var start := Cut(|sorted|, count, n - 1);
    var after := AfterPage(pages, n - 1);
    CutSteps(|sorted|, count, n - 1);
    if n > 1 {
      PageEndsAreCuts(sorted, count, pages, n - 1);
      AgreedTail(sorted, start);
    } else {
      WholeIsTail(sorted);
    }
    assert IsPage(IdSetOf(sorted), after, count, pages[n - 1]);
    PageIsSlice(sorted, after, start, count, pages[n - 1]);
  }

  lemma AgreedTail(sorted: seq<EntryId>, start: nat)
    requires Sorted(sorted) && 0 < start <= |sorted| && OrdersAgreeAt(IdSetOf(sorted), sorted[start - 1])
    ensures PastIsTail(sorted, Some(sorted[start - 1]), start)
  {
    hide PastText;
    assert forall i :: 0 <= i < |sorted| ==> sorted[i] in IdSetOf(sorted);
    assert forall i :: start <= i < |sorted| ==> Before(sorted[start - 1], sorted[i]);
    assert forall i :: 0 <= i < start - 1 ==> Before(sorted[i], sorted[start - 1]);
  }

  lemma WholeIsTail(sorted: seq<EntryId>)
    ensures PastIsTail(sorted, None, 0)
  {
  }

  lemma {:induction false} CutsMakePagesAgree(sorted: seq<EntryId>, count: nat, pages: seq<seq<EntryId>>, n: nat)
    requires Sorted(sorted) && IsPaging(IdSetOf(sorted), count, pages) && n < |pages| && CutsAgree(sorted, count)
    ensures forall k :: 0 < k <= n ==> OrdersAgreeAt(IdSetOf(sorted), AfterPage(pages, k).value)
  {
    hide OrdersAgreeAt, IsPage, Cut, IdSetOf;
    if n > 0 {
      CutsMakePagesAgree(sorted, count, pages, n - 1);
      PageEndsAreCuts(sorted, count, pages, n);
      assert AgreesAtCut(sorted, count, n);
    }
  }

  /** A walk that is complete has made every cut. */
  lemma AllCutsMade(sorted: seq<EntryId>, count: nat, pages: seq<seq<EntryId>>)
    requires Sorted(sorted) && IsPaging(IdSetOf(sorted), count, pages)
    requires forall k :: 0 < k < |pages| ==> OrdersAgreeAt(IdSetOf(sorted), AfterPage(pages, k).value)
    ensures Cut(|sorted|, count, |pages| - 1) == |sorted|
  {
    hide PastText, OrdersAgreeAt, Cut;
    var n := |pages| - 1;
    var end := Cut(|sorted|, count, n);
    CutSteps(|sorted|, count, n);
    if n > 0 {
      PageEndsAreCuts(sorted, count, pages, n);
      AgreedTail(sorted, end);
    } else {
      WholeIsTail(sorted);
    }
    assert IsPage(IdSetOf(sorted), AfterPage(pages, n), count, pages[n]) && pages[n] == [];
    PageIsSlice(sorted, AfterPage(pages, n), end, count, pages[n]);
  }

  /**
   * Every walk by pages of `count` over these ids shows each of them exactly once,
   * if and only if the order as text agrees with the order as numbers at every
   * `count`th id and at the last. The condition is on the ids and the count: it
   * can be settled before the first page is asked for.
   */
  lemma PagingIsCompleteIff(sorted: seq<EntryId>, count: nat, pages: seq<seq<EntryId>>)
    requires Sorted(sorted) && IsPaging(IdSetOf(sorted), count, pages)
    ensures ShowsEachOnce(IdSetOf(sorted), pages) <==> CutsAgree(sorted, count)
  {
    hide PastText, IsPage, OrdersAgreeAt, Cut, IdSetOf, ShowsEachOnce, Sorted;
    CompleteIffPageEndsAgree(IdSetOf(sorted), count, pages);
    if CutsAgree(sorted, count) {
      CutsMakePagesAgree(sorted, count, pages, |pages| - 1);
    }
    if ShowsEachOnce(IdSetOf(sorted), pages) {
      AllCutsMade(sorted, count, pages);
      forall k | 0 < k && Cut(|sorted|, count, k - 1) < |sorted|
        ensures AgreesAtCut(sorted, count, k)
      {
        if k >= |pages| {
          CutStaysFull(|sorted|, count, |pages| - 1, k - 1);
        } else {
          PageEndsAreCuts(sorted, count, pages, k);
        }
      }
    }
  }

  // ---------------------------------------------------------------------------
  // Ids that are always shown, and ids that are not
  // ---------------------------------------------------------------------------

  lemma {:induction false} TextLessOfJoin(x: string, u: string, y: string, v: string)
    requires |x| == |y|
    ensures TextLess(x + u, y + v) <==> TextLess(x, y) || (x == y && TextLess(u, v))
  {
    if x == "" {
      assert x + u == u && y + v == v;
    } else {
      assert (x + u)[1..] == x[1..] + u && (y + v)[1..] == y[1..] + v;
      TextLessOfJoin(x[1..], u, y[1..], v);
      assert x == [x[0]] + x[1..] && y == [y[0]] + y[1..];
    }
  }

  /** Numerals of one width compare as text the way they compare as numbers. */
  lemma {:induction false} SameWidthOrder(x: string, y: string)
    requires |x| == |y| && AllDigits(x) && AllDigits(y)
    ensures TextLess(x, y) <==> Value(x) < Value(y)
    ensures x == y <==> Value(x) == Value(y)
  {
    if x != "" {
      var n := |x| - 1;
      SameWidthOrder(x[..n], y[..n]);
      TextLessOfJoin(x[..n], [x[n]], y[..n], [y[n]]);
      assert x == x[..n] + [x[n]] && y == y[..n] + [y[n]];
      assert TextLess([x[n]], [y[n]]) <==> x[n] < y[n];
    }
  }

  predicate SameWidths(a: EntryId, b: EntryId) {
    |Decimal(a.ms)| == |Decimal(b.ms)| && |Decimal(a.num)| == |Decimal(b.num)|
  }

  lemma SameWidthsAgree(a: EntryId, b: EntryId)
    requires SameWidths(a, b)
    ensures TextLess(IdText(a), IdText(b)) <==> Before(a, b)
  {
    hide TextLess, Decimal;
    var x, y, u, v := Decimal(a.ms), Decimal(b.ms), Decimal(a.num), Decimal(b.num);
    SameWidthOrder(x, y);
    SameWidthOrder(u, v);
    ValueOfDecimal(a.ms);
    ValueOfDecimal(b.ms);
    ValueOfDecimal(a.num);
    ValueOfDecimal(b.num);
    assert IdText(a) == x + ("-" + u) && IdText(b) == y + ("-" + v);
    TextLessOfJoin(x, "-" + u, y, "-" + v);
    TextLessOfJoin("-", u, "-", v);
    assert !TextLess("-", "-") by { NotBelowItself("-"); }
  }

  lemma {:induction false} NotBelowItself(s: string)
    ensures !TextLess(s, s)
  {
    if s != "" {
      NotBelowItself(s[1..]);
    }
  }

  /** Ids whose clock readings, and whose counters, all have one width are shown by every walk. */
  lemma SameWidthsAreShown(sorted: seq<EntryId>, count: nat, pages: seq<seq<EntryId>>)
    requires Sorted(sorted) && IsPaging(IdSetOf(sorted), count, pages)
    requires forall i, j :: 0 <= i < |sorted| && 0 <= j < |sorted| ==> SameWidths(sorted[i], sorted[j])
    ensures ShowsEachOnce(IdSetOf(sorted), pages)
  {
    hide Cut, SameWidths, IsPaging, ShowsEachOnce, Sorted;
    forall k | 0 < k && Cut(|sorted|, count, k - 1) < |sorted|
      ensures AgreesAtCut(sorted, count, k)
    {
      var end := Cut(|sorted|, count, k);
      if end > 0 {
        forall id | id in IdSetOf(sorted)
          ensures PastText(Some(sorted[end - 1]), id) <==> Before(sorted[end - 1], id)
        {
          var i :| 0 <= i < |sorted| && sorted[i] == id;
          SameWidthsAgree(sorted[end - 1], sorted[i]);
        }
      }
    }
    PagingIsCompleteIff(sorted, count, pages);
  }

  /** The orders do part: the tenth entry of one millisecond is not past the ninth as text. */
  lemma TenthIsNotPastNinth(ms: nat)
    ensures Before(EntryId(ms, 9), EntryId(ms, 10))
    ensures !PastText(Some(EntryId(ms, 9)), EntryId(ms, 10)) && PastText(Some(EntryId(ms, 10)), EntryId(ms, 9))
  {
    assert Decimal(9) == "9" && Decimal(10) == "10" by {
      assert Decimal(1) == "1" && "1" + "0" == "10";
    }
    var prefix := Decimal(ms) + "-";
    TextLessOfJoin(prefix, "9", prefix, "10");
    TextLessOfJoin(prefix, "10", prefix, "9");
    NotBelowItself(prefix);
  }

  /** So a walk of single-entry pages over those two ends without having shown the tenth. */
  lemma TenthIsNeverShown(ms: nat)
    ensures var ids, pages := {EntryId(ms, 9), EntryId(ms, 10)}, [[EntryId(ms, 9)], []];
      IsPaging(ids, 1, pages) && !ShowsEachOnce(ids, pages)
  {
    hide PastText;
    var a, b := EntryId(ms, 9), EntryId(ms, 10);
    var ids, pages := {a, b}, [[a], []];
    TenthIsNotPastNinth(ms);
    NothingShown(ids);
    assert AfterPage(pages, 1) == Some(a);
    assert !PastText(Some(a), a) by { NinthIsNotPastItself(a); }
    assert IsPage(ids, AfterPage(pages, 0), 1, pages[0]);
    assert IsPage(ids, AfterPage(pages, 1), 1, pages[1]);
    assert ShownBefore(pages, 2) == {a} by {
      assert ShownBefore(pages, 1) == {a};
      assert IdSetOf(pages[1]) == {};
    }
    assert b !in ShownBefore(pages, 2);
  }

  lemma NinthIsNotPastItself(id: EntryId)
    ensures !PastText(Some(id), id)
  {
    NotBelowItself(IdText(id));
  }
}
