/** The focus blocker: a list of blocked sites and an optional end time for a
    blocking session. The URL parser and the id generator are parameters:
    `originOf` is `new URL(s).origin` (`None` when the constructor throws)
    and `freshId` the value `crypto.randomUUID()` returns. Times are
    milliseconds since the epoch. */
module FocusBlocker {
  import opened Common
  import opened Text

  datatype BlockItem = BlockItem(id: string, url: string)

  const InvalidSiteNotice: string := "Enter a valid website (e.g., youtube.com)"
  const DuplicateSiteNotice: string := "That site is already on the block list."
  const EmptyListNotice: string := "Add at least one website to block."

  /** What `normalizeUrl` hands to the URL parser: the input itself when it
      starts with `http`, else the input behind `https://`. */
  function UrlCandidate(input: string): (r: string)
    ensures StartsWith(r, "http")
    ensures StartsWith(input, "http") ==> r == input
    ensures !StartsWith(input, "http") ==> r == "https://" + input
  {
    if StartsWith(input, "http") then input
    else
      assert ("https://" + input)[..4] == "http";
      "https://" + input
  }

  /** `normalizeUrl`: the origin of the candidate URL. */
  function NormalizeUrl(input: string, originOf: string -> Option<string>): Option<string> {
    originOf(UrlCandidate(input))
  }

  predicate HasUrl(items: seq<BlockItem>, url: string) {
    exists i :: 0 <= i < |items| && items[i].url == url
  }

  /** No site is on the list twice. */
  predicate UniqueUrls(items: seq<BlockItem>) {
    forall i, j :: 0 <= i < j < |items| ==> items[i].url != items[j].url
  }

  function IdIsNot(id: string): BlockItem -> bool {
    (it: BlockItem) => it.id != id
  }

  lemma UniqueSnoc(s: seq<BlockItem>, x: BlockItem)
    ensures UniqueUrls(s + [x]) <==> UniqueUrls(s) && !HasUrl(s, x.url)
  {
    var t := s + [x];
    if UniqueUrls(t) {
      forall i | 0 <= i < |s|
        ensures s[i].url != x.url
      {
        assert t[i] == s[i] && t[|s|] == x;
      }
      forall i, j | 0 <= i < j < |s|
        ensures s[i].url != s[j].url
      {
        assert t[i] == s[i] && t[j] == s[j];
      }
    }
  }

  lemma UniqueCons(x: BlockItem, s: seq<BlockItem>)
    ensures UniqueUrls([x] + s) <==> UniqueUrls(s) && !HasUrl(s, x.url)
  {
    var t := [x] + s;
    if UniqueUrls(t) {
      forall i | 0 <= i < |s|
        ensures s[i].url != x.url
      {
        assert t[i + 1] == s[i] && t[0] == x;
      }
      forall i, j | 0 <= i < j < |s|
        ensures s[i].url != s[j].url
      {
        assert t[i + 1] == s[i] && t[j + 1] == s[j];
      }
    }
    if UniqueUrls(s) && !HasUrl(s, x.url) {
      forall i, j | 0 <= i < j < |t|
        ensures t[i].url != t[j].url
      {
        assert t[j] == s[j - 1];
        if i > 0 {
          assert t[i] == s[i - 1];
        }
      }
    }
  }

  /** A site on a filtered list is on the list. */
  lemma FilterHasUrl(s: seq<BlockItem>, p: BlockItem -> bool, u: string)
    requires HasUrl(Filter(s, p), u)
    ensures HasUrl(s, u)
  {
    var f := Filter(s, p);
    var i :| 0 <= i < |f| && f[i].url == u;
    FilterMembership(s, p, f[i]);
  }

  /** A filtered list keeps the sites unique. */
  lemma {:induction false} FilterKeepsUnique(items: seq<BlockItem>, p: BlockItem -> bool)
    requires UniqueUrls(items)
    ensures UniqueUrls(Filter(items, p))
    decreases |items|
  {
    if |items| > 0 {
      var init, x := items[..|items| - 1], items[|items| - 1];
      assert items == init + [x];
      UniqueSnoc(init, x);
      FilterKeepsUnique(init, p);
      FilterSnoc(init, x, p);
      if HasUrl(Filter(init, p), x.url) {
        FilterHasUrl(init, p, x.url);
      }
      UniqueSnoc(Filter(init, p), x);
    }
  }

  /** Blocking is on at clock `now`: an end time is set (and is not 0) and
      has not passed. This is what the banner and the link guard are meant
      to show; the component computes it only when `endAt` changes (see
      `Blocker`). */
  predicate Active(endAt: Option<int>, now: int) {
    endAt.Some? && endAt.value != 0 && now < endAt.value
  }

  /** `timeLeft` at clock `now`: the remaining minutes, rounded half up and
      never below zero. */
  function TimeLeft(endAt: Option<int>, now: int): (r: int)
    ensures r >= 0
  {
    if endAt.None? || endAt.value == 0 then 0
    else
      var rounded := RoundDiv(endAt.value - now, 60000);
      if rounded < 0 then 0 else rounded
  }

  /** Read at the clock of the moment, nothing is left once the end time has
      passed, and while blocking is on the value is the remaining time to
      the nearest minute. */
  lemma TimeLeftSpec(endAt: Option<int>, now: int)
    ensures endAt.Some? && endAt.value != 0 && !Active(endAt, now) ==> TimeLeft(endAt, now) == 0
    ensures Active(endAt, now) ==>
      var left := endAt.value - now;
      TimeLeft(endAt, now) * 60000 - 30000 <= left < TimeLeft(endAt, now) * 60000 + 30000
  {
  }

  /** The component's state. `active` and `timeLeft` are the two memoised
      values: they are computed, with the clock of that render, only when
      `endAt` changes, and are read as they were stored until it changes
      again. */
  class Blocker {
    var items: seq<BlockItem>
    var input: string
    var minutes: int
    var endAt: Option<int>
    var status: Option<string>
    var blockedUrl: Option<string>
    var active: bool
    var timeLeft: int

    /** With no end time the memoised values are off and zero. */
    ghost predicate Valid()
      reads this
    {
      endAt.None? ==> !active && timeLeft == 0
    }

    constructor ()
      ensures Valid()
      ensures items == [] && input == "" && minutes == 50 && endAt == None && status == None && blockedUrl == None
      ensures !active && timeLeft == 0
    {
      items := [];
      input := "";
      minutes := 50;
      endAt := None;
      status := None;
      blockedUrl := None;
      active := false;
      timeLeft := 0;
    }

    /** `setEndAt(v)` followed by the render: the memoised values are
        recomputed at clock `now` when the value changed, and kept
        otherwise. */
    method SetEndAt(v: Option<int>, now: int)
      requires Valid()
      modifies this
      ensures Valid() && endAt == v
      ensures v != old(endAt) ==> active == Active(v, now) && timeLeft == TimeLeft(v, now)
      ensures v == old(endAt) ==> active == old(active) && timeLeft == old(timeLeft)
      ensures items == old(items) && input == old(input) && minutes == old(minutes)
      ensures status == old(status) && blockedUrl == old(blockedUrl)
    {
      if v != endAt {
        active := Active(v, now);
        timeLeft := TimeLeft(v, now);
      }
      endAt := v;
    }

    /** `addItem`: a valid site that is not yet listed goes to the front of
        the list and the input is cleared; otherwise the notice says why and
        the list stays. */
    method AddItem(originOf: string -> Option<string>, freshId: string)
      requires Valid()
      modifies this
      ensures Valid()
      ensures var normalized := NormalizeUrl(Trim(old(input)), originOf);
        if !Truthy(normalized) then
          items == old(items) && input == old(input) && status == Some(InvalidSiteNotice)
        else if HasUrl(old(items), normalized.value) then
          items == old(items) && input == old(input) && status == Some(DuplicateSiteNotice)
        else
          items == [BlockItem(freshId, normalized.value)] + old(items) && input == "" && status == None
      ensures UniqueUrls(old(items)) ==> UniqueUrls(items)
      ensures endAt == old(endAt) && minutes == old(minutes) && blockedUrl == old(blockedUrl)
      ensures active == old(active) && timeLeft == old(timeLeft)
    {
      var normalized := NormalizeUrl(Trim(input), originOf);
      if !Truthy(normalized) {
        status := Some(InvalidSiteNotice);
      } else if HasUrl(items, normalized.value) {
        status := Some(DuplicateSiteNotice);
      } else {
        var item := BlockItem(freshId, normalized.value);
        UniqueCons(item, items);
        items := [item] + items;
        input := "";
        status := None;
      }
    }

    /** `removeItem`: drops the items with this id and keeps the others in
        order. */
    method RemoveItem(id: string)
      requires Valid()
      modifies this
      ensures Valid()
      ensures items == Filter(old(items), IdIsNot(id))
      ensures UniqueUrls(old(items)) ==> UniqueUrls(items)
      ensures input == old(input) && endAt == old(endAt) && status == old(status) && minutes == old(minutes)
      ensures blockedUrl == old(blockedUrl) && active == old(active) && timeLeft == old(timeLeft)
    {
      if UniqueUrls(items) {
        FilterKeepsUnique(items, IdIsNot(id));
      }
      items := Filter(items, IdIsNot(id));
    }

    /** `startBlock`: with no sites the notice asks for one; otherwise the
        session ends `minutes` minutes from now, and the memoised values are
        those of that moment. */
    method StartBlock(now: int)
      requires Valid()
      modifies this
      ensures Valid()
      ensures |old(items)| == 0 ==>
        endAt == old(endAt) && status == Some(EmptyListNotice) && active == old(active) && timeLeft == old(timeLeft)
      ensures |old(items)| > 0 ==>
        var end := now + old(minutes) * 60000;
        && endAt == Some(end) && status == None
        && (Some(end) != old(endAt) ==> active == Active(Some(end), now) && timeLeft == TimeLeft(Some(end), now))
        && (Some(end) == old(endAt) ==> active == old(active) && timeLeft == old(timeLeft))
      ensures items == old(items) && input == old(input) && minutes == old(minutes) && blockedUrl == old(blockedUrl)
    {
      if |items| == 0 {
        status := Some(EmptyListNotice);
        return;
      }
      SetEndAt(Some(now + minutes * 60 * 1000), now);
      status := None;
    }

    /** `stopBlock`: no end time, so blocking is off and nothing is left. */
    method StopBlock()
      requires Valid()
      modifies this
      ensures Valid()
      ensures endAt == None && !active && timeLeft == 0
      ensures items == old(items) && input == old(input) && status == old(status)
      ensures minutes == old(minutes) && blockedUrl == old(blockedUrl)
    {
      SetEndAt(None, 0);
    }

    /** `onOpen`: while the memoised `active` is on, following a listed link
        is stopped and the overlay names the site. Returns whether the link
        was stopped. */
    method OnOpen(url: string) returns (prevented: bool)
      requires Valid()
      modifies this
      ensures Valid()
      ensures prevented == old(active)
      ensures blockedUrl == if prevented then Some(url) else old(blockedUrl)
      ensures items == old(items) && endAt == old(endAt) && status == old(status)
      ensures input == old(input) && minutes == old(minutes) && active == old(active) && timeLeft == old(timeLeft)
    {
      if !active {
        return false;
      }
      blockedUrl := Some(url);
      return true;
    }
  }

  /** The memoised values never expire: a 50-minute block started at clock 0
      still stops a link clicked at any later clock, even after the end
      time, and the banner still reads 50 minutes, where `Active` and
      `TimeLeft` at the clock of the click say that blocking is over. */
  method StaleBlockAfterEnd(clickAt: int) returns (prevented: bool, shownLeft: int, endAt: Option<int>)
    requires clickAt >= 3000000
    ensures endAt == Some(3000000) && !Active(endAt, clickAt) && TimeLeft(endAt, clickAt) == 0
    ensures prevented && shownLeft == 50
  {
    var b := new Blocker();
    b.input := "youtube.com";
    b.AddItem(_ => Some("https://youtube.com"), "site-1");
    b.StartBlock(0);
    prevented := b.OnOpen("https://youtube.com");
    shownLeft := b.timeLeft;
    endAt := b.endAt;
  }
}
