/**
 * The video page (src/components/VideoPlayer.tsx): finding the YouTube id in
 * a video URL, building the embed URL, and the page's completion state.
 */
module VideoPlayer {
  import opened Wrappers
  import opened Schema
  import opened Replies
  import VideoTutorial

  const WatchPrefix: string := "youtube.com/watch?v="
  const ShortPrefix: string := "youtu.be/"
  const EmbedPrefix: string := "https://www.youtube.com/embed/"

  /** The characters `[^&\n?#]` excludes: they end an id. */
  predicate IsStop(c: char) {
    c == '&' || c == '\n' || c == '?' || c == '#'
  }

  predicate PrefixAt(url: string, p: nat, prefix: string) {
    p + |prefix| <= |url| && url[p..p + |prefix|] == prefix
  }

  /**
   * The pattern matches at `p` with its id starting at `start`: one of the
   * two prefixes begins at `p`, ends at `start`, and an id character follows.
   */
  predicate PatternAt(url: string, p: nat, start: nat) {
    ((PrefixAt(url, p, WatchPrefix) && start == p + |WatchPrefix|)
     || (PrefixAt(url, p, ShortPrefix) && start == p + |ShortPrefix|))
    && start < |url| && !IsStop(url[start])
  }

  /** The end of the maximal run of id characters starting at `start`. */
  function RunEnd(url: string, start: nat): (e: nat)
    requires start <= |url|
    ensures start <= e <= |url|
    ensures forall i :: start <= i < e ==> !IsStop(url[i])
    ensures e == |url| || IsStop(url[e])
    decreases |url| - start
  {
    if start == |url| || IsStop(url[start]) then start else RunEnd(url, start + 1)
  }

  /**
   * The leftmost match at or after `p`: where the prefix starts and where
   * the captured id starts.
   */
  function FirstMatch(url: string, p: nat): (r: Option<(nat, nat)>)
    requires p <= |url|
    ensures r.None? <==> forall q: nat, s: nat :: p <= q ==> !PatternAt(url, q, s)
    ensures r.Some? ==> p <= r.value.0 && PatternAt(url, r.value.0, r.value.1)
    ensures r.Some? ==> forall q: nat, s: nat :: p <= q < r.value.0 ==> !PatternAt(url, q, s)
    decreases |url| - p
  {
    if p == |url| then None
    else if PatternAt(url, p, p + |WatchPrefix|) then Some((p, p + |WatchPrefix|))
    else if PatternAt(url, p, p + |ShortPrefix|) then Some((p, p + |ShortPrefix|))
    else FirstMatch(url, p + 1)
  }

  /**
   * `getVideoId` (lines 69-73): the id after the leftmost occurrence of
   * either prefix that an id character follows, or `None` without one.
   */
  function GetVideoId(url: string): (r: Option<string>)
    ensures r.None? <==> forall q: nat, s: nat :: !PatternAt(url, q, s)
    ensures r.Some? ==>
              exists q: nat, s: nat :: PatternAt(url, q, s) &&
                (forall q': nat, s': nat :: q' < q ==> !PatternAt(url, q', s')) &&
                r.value == url[s..RunEnd(url, s)]
    ensures r.Some? ==> |r.value| > 0 && forall i :: 0 <= i < |r.value| ==> !IsStop(r.value[i])
  {
    match FirstMatch(url, 0)
    case None => None
    case Some((q, s)) =>
      var id := url[s..RunEnd(url, s)];
      assert forall i :: 0 <= i < |id| ==> id[i] == url[s + i];
      Some(id)
  }

  /** Line 75-76: the embed URL for a found id, otherwise the URL itself. */
  function EmbedUrl(url: string): (e: string)
    ensures GetVideoId(url).Some? ==> e == EmbedPrefix + GetVideoId(url).value
    ensures GetVideoId(url).None? ==> e == url
  {
    match GetVideoId(url)
    case Some(id) => EmbedPrefix + id
    case None => url
  }

  predicate IsId(id: string) {
    |id| > 0 && forall i :: 0 <= i < |id| ==> !IsStop(id[i])
  }

  lemma RunEndOfSuffix(head: string, id: string)
    requires IsId(id)
    ensures RunEnd(head + id, |head|) == |head + id|
  {
    var url := head + id;
    forall i | |head| <= i < |url| ensures !IsStop(url[i]) {
      assert url[i] == id[i - |head|];
    }
  }

  /** No match can start inside a head without a `y`, since both prefixes start with one. */
  lemma NoMatchInHead(head: string, url: string)
    requires head <= url
    requires forall i :: 0 <= i < |head| ==> head[i] != 'y'
    ensures forall q: nat, s: nat :: q < |head| ==> !PatternAt(url, q, s)
  {
    forall q: nat, s: nat | q < |head| ensures !PatternAt(url, q, s) {
      assert url[q] == head[q];
    }
  }

  /** The two prefixes cannot both start at one position: they differ in their sixth character. */
  lemma PrefixesExclusive(url: string, p: nat)
    ensures !(PrefixAt(url, p, WatchPrefix) && PrefixAt(url, p, ShortPrefix))
  {
    if PrefixAt(url, p, WatchPrefix) {
      assert url[p + 5] == url[p..p + |WatchPrefix|][5] == 'b';
    }
  }

  /** The id comes from the first position where the pattern matches. */
  lemma FirstMatchDecides(url: string, p: nat, s: nat)
    requires PatternAt(url, p, s)
    requires forall q: nat, s': nat :: q < p ==> !PatternAt(url, q, s')
    ensures GetVideoId(url) == Some(url[s..RunEnd(url, s)])
  {
    var r := GetVideoId(url);
    var q: nat, s': nat :| PatternAt(url, q, s') &&
      (forall q': nat, s'': nat :: q' < q ==> !PatternAt(url, q', s'')) &&
      r.value == url[s'..RunEnd(url, s')];
    assert q == p;
    PrefixesExclusive(url, p);
  }

  /** The id from a standard watch URL comes back, and its embed URL is built from it. */
  lemma WatchUrlRoundTrip(id: string)
    requires IsId(id)
    ensures GetVideoId("https://www." + WatchPrefix + id) == Some(id)
    ensures EmbedUrl("https://www." + WatchPrefix + id) == EmbedPrefix + id
  {
    var head := "https://www." + WatchPrefix;
    var url := head + id;
    assert url == "https://www." + WatchPrefix + id;
    assert url[12..|head|] == WatchPrefix;
    assert url[|head|] == id[0];
    NoMatchInHead("https://www.", url);
    RunEndOfSuffix(head, id);
    FirstMatchDecides(url, 12, |head|);
    assert url[|head|..|url|] == id;
  }

  /** The id from a short link comes back, and its embed URL is built from it. */
  lemma ShortUrlRoundTrip(id: string)
    requires IsId(id)
    ensures GetVideoId("https://" + ShortPrefix + id) == Some(id)
    ensures EmbedUrl("https://" + ShortPrefix + id) == EmbedPrefix + id
  {
    var head := "https://" + ShortPrefix;
    var url := head + id;
    assert url == "https://" + ShortPrefix + id;
    assert url[8..|head|] == ShortPrefix;
    assert url[|head|] == id[0];
    NoMatchInHead("https://", url);
    RunEndOfSuffix(head, id);
    FirstMatchDecides(url, 8, |head|);
    assert url[|head|..|url|] == id;
  }

  /** The id stops at the first query separator or fragment after it. */
  lemma IdStopsAtSeparator(id: string, rest: string)
    requires IsId(id) && |rest| > 0 && IsStop(rest[0])
    ensures GetVideoId("https://" + ShortPrefix + id + rest) == Some(id)
  {
    var head := "https://" + ShortPrefix;
    var url := head + id + rest;
    assert url == "https://" + ShortPrefix + id + rest;
    assert url[8..|head|] == ShortPrefix;
    assert url[|head|] == id[0];
    NoMatchInHead("https://", url);
    forall i | |head| <= i < |head| + |id| ensures !IsStop(url[i]) {
      assert url[i] == id[i - |head|];
    }
    assert url[|head| + |id|] == rest[0];
    FirstMatchDecides(url, 8, |head|);
    assert url[|head|..|head| + |id|] == id;
  }

  /** A URL with neither prefix is embedded as it is. */
  lemma NoPrefixKeepsUrl(url: string)
    requires forall q: nat :: !PrefixAt(url, q, WatchPrefix) && !PrefixAt(url, q, ShortPrefix)
    ensures GetVideoId(url).None? && EmbedUrl(url) == url
  {
  }

  /** The video page's completion state; `None` is a null `completed` column copied in. */
  class Player {
    const videoId: Id
    var isCompleted: Option<bool>

    constructor (videoId: Id)
      ensures this.videoId == videoId && isCompleted == Some(false)
    {
      this.videoId := videoId;
      isCompleted := Some(false);
    }

    /**
     * `checkVideoProgress` (lines 33-46): `.single()` yields data only for
     * an answered read that finds the row; otherwise the state is kept.
     */
    method CheckVideoProgress(user: Option<Id>, table: VideoTutorial.Table, outcome: Outcome)
      modifies this
      ensures user.Some? && outcome.Answered? && (user.value, videoId) in table ==>
        isCompleted == table[(user.value, videoId)].completed
      ensures !(user.Some? && outcome.Answered? && (user.value, videoId) in table) ==>
        isCompleted == old(isCompleted)
    {
      if user.Some? && outcome.Answered? && (user.value, videoId) in table {
        isCompleted := table[(user.value, videoId)].completed;
      }
    }

    /**
     * `markAsCompleted` (lines 48-67): on a write without error the page
     * shows "Completed!" and the parent is told (`notified`); otherwise
     * nothing changes.
     */
    method MarkAsCompleted(user: Option<Id>, writeOk: bool) returns (notified: bool)
      modifies this
      ensures notified <==> user.Some? && writeOk
      ensures isCompleted == if notified then Some(true) else old(isCompleted)
      ensures notified ==> !OffersMark()
    {
      notified := user.Some? && writeOk;
      if notified {
        isCompleted := Some(true);
      }
    }

    /** "Mark as Completed" is offered while `isCompleted` is falsy (line 133). */
    predicate OffersMark()
      reads this
    {
      !OrFalse(isCompleted)
    }
  }
}
