/**
 * components/resources/VideoModal.tsx: `getEmbedUrl`, which turns a
 * YouTube watch or short link into an embeddable player URL.
 */
module VideoEmbed {
  import opened Wrappers
  import opened Strings

  const EmbedPrefix: string := "https://www.youtube.com/embed/"
  const WatchMarker: string := "youtube.com/watch"
  const ShortMarker: string := "youtu.be/"

  /** `url.split('v=')[1]?.split('&')[0]`: absent when the URL has no "v=". */
  function WatchVideoId(url: string): (r: Option<string>)
    ensures r.None? <==> !Contains(url, "v=")
    ensures r.Some? ==> !Contains(r.value, "&") && !Contains(r.value, "v=")
  {
    var pieces := Split(url, "v=");
    if |pieces| > 1 then
      var id := Split(pieces[1], "&")[0];
      assert !Contains(id, "v=") by {
        if Contains(id, "v=") {
          SplitHeadIsPrefix(pieces[1], "&");
          ContainsInfix(pieces[1], 0, |id|, "v=");
        }
      }
      Some(id)
    else None
  }

  /** The first piece of a split is a prefix of the string. */
  lemma SplitHeadIsPrefix(s: string, sep: string)
    requires |sep| > 0
    ensures |Split(s, sep)[0]| <= |s| && Split(s, sep)[0] == s[..|Split(s, sep)[0]|]
  {
  }

  /** `url.split('youtu.be/')[1]?.split('?')[0]`. */
  function ShortVideoId(url: string): (r: Option<string>)
    ensures r.None? <==> !Contains(url, ShortMarker)
    ensures r.Some? ==> !Contains(r.value, "?")
  {
    var pieces := Split(url, ShortMarker);
    if |pieces| > 1 then Some(Split(pieces[1], "?")[0]) else None
  }

  /** The template literal `${videoId}`, which prints a missing id as "undefined". */
  function Interpolate(id: Option<string>): string
  {
    match id
    case None => "undefined"
    case Some(v) => v
  }

  /** `getEmbedUrl`: watch links first, then short links; anything else is returned unchanged. */
  function GetEmbedUrl(url: string): (r: string)
    ensures Contains(url, WatchMarker) && Contains(url, "v=") ==> r == EmbedPrefix + WatchVideoId(url).value
    ensures Contains(url, WatchMarker) && !Contains(url, "v=") ==> r == EmbedPrefix + "undefined"
    ensures !Contains(url, WatchMarker) && Contains(url, ShortMarker) ==> r == EmbedPrefix + ShortVideoId(url).value
    ensures !Contains(url, WatchMarker) && !Contains(url, ShortMarker) ==> r == url
  {
    if Contains(url, WatchMarker) then EmbedPrefix + Interpolate(WatchVideoId(url))
    else if Contains(url, ShortMarker) then EmbedPrefix + Interpolate(ShortVideoId(url))
    else url
  }

  /** In `pre + "v=" + t` with no "v=" inside `pre`, the first "v=" is the one after `pre`. */
  lemma FirstVParam(pre: string, t: string)
    requires !Contains(pre, "v=")
    ensures IndexOfFrom(pre + "v=" + t, "v=", 0) == Some(|pre|)
  {
    var s := pre + "v=" + t;
    assert StartsAt(s, |pre|, "v=") by { assert s[|pre|..|pre| + 2] == "v="; }
    forall j | 0 <= j < |pre|
      ensures !StartsAt(s, j, "v=")
    {
      NoVInside(pre, t, j);
    }
    IndexOfFromFirst(s, "v=", 0, |pre|);
  }

  /** No "v=" starts inside `pre` in `pre + "v=" + t` when `pre` has none of its own. */
  lemma NoVInside(pre: string, t: string, j: nat)
    requires !Contains(pre, "v=") && j < |pre|
    ensures !StartsAt(pre + "v=" + t, j, "v=")
  {
    var s := pre + "v=" + t;
    if j + 2 <= |pre| {
      assert s[j..j + 2] == pre[j..j + 2];
      ContainsIff(pre, "v=");
      assert !StartsAt(pre, j, "v=");
    } else {
      assert j + 1 == |pre| && s[j + 1] == 'v';
      if j + 2 <= |s| {
        assert s[j..j + 2][1] == s[j + 1];
      }
    }
  }

  /** Cutting at the first one-character `sep` keeps the part before it. */
  lemma CutAtFirst(id: string, sep: string, tail: string)
    requires |sep| == 1 && !Contains(id, sep)
    requires tail == [] || tail[..1] == sep
    ensures Split(id + tail, sep)[0] == id
  {
    if tail == [] {
      assert id + tail == id;
    } else {
      assert id + tail == id + sep + tail[1..];
      FirstSeparator(id, sep, tail[1..]);
      SplitAfterFirst(id, sep, tail[1..]);
    }
  }

  /**
   * A watch link whose only "v=" introduces the video id embeds that id,
   * whatever parameters follow it.
   */
  lemma WatchLinkEmbedsId(pre: string, id: string, tail: string)
    requires Contains(pre, WatchMarker) && !Contains(pre, "v=")
    requires !Contains(id + tail, "v=") && !Contains(id, "&")
    requires tail == [] || tail[0] == '&'
    ensures GetEmbedUrl(pre + "v=" + id + tail) == EmbedPrefix + id
  {
    var url := pre + "v=" + id + tail;
    assert url == pre + "v=" + (id + tail);
    assert url == pre + ("v=" + id + tail);
    ContainsPrefix(pre, "v=" + id + tail, WatchMarker);
    assert Contains(url, "v=") by {
      assert url[|pre|..|pre| + 2] == "v=";
      assert StartsAt(url, |pre|, "v=");
      ContainsIff(url, "v=");
    }
    FirstVParam(pre, id + tail);
    SplitAfterFirst(pre, "v=", id + tail);
    assert Split(url, "v=")[1] == id + tail;
    if tail != [] {
      assert tail[..1] == "&";
    }
    CutAtFirst(id, "&", tail);
    assert WatchVideoId(url) == Some(id);
  }

  /**
   * A short link embeds the text between its first "youtu.be/" and the
   * first "?" after it.
   */
  lemma ShortLinkEmbedsId(pre: string, id: string, tail: string)
    requires var url := pre + ShortMarker + id + tail;
      IndexOfFrom(url, ShortMarker, 0) == Some(|pre|) && !Contains(url, WatchMarker)
    requires !Contains(id + tail, ShortMarker) && !Contains(id, "?")
    requires tail == [] || tail[0] == '?'
    ensures GetEmbedUrl(pre + ShortMarker + id + tail) == EmbedPrefix + id
  {
    var url := pre + ShortMarker + id + tail;
    assert url == pre + ShortMarker + (id + tail);
    SplitAfterFirst(pre, ShortMarker, id + tail);
    assert Split(url, ShortMarker)[1] == id + tail;
    if tail != [] {
      assert tail[..1] == "?";
    }
    CutAtFirst(id, "?", tail);
    assert ShortVideoId(url) == Some(id);
  }

  /** A pattern inside a prefix is inside the whole string. */
  lemma ContainsPrefix(a: string, b: string, pat: string)
    requires Contains(a, pat)
    ensures Contains(a + b, pat)
  {
    var i := IndexOfFrom(a, pat, 0).value;
    assert (a + b)[i..i + |pat|] == a[i..i + |pat|];
    assert StartsAt(a + b, i, pat);
    ContainsIff(a + b, pat);
  }
}
