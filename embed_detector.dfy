/**
 * Recognising YouTube, Twitter/X and Reddit links. Each anchored pattern is a chain of
 * prefix matchers; each is proved to accept exactly the strings of the pattern's shape,
 * with the captured id that the shape determines.
 */
module EmbedDetectors {
  import opened Wrappers

  datatype EmbedInfo =
    | YouTube(videoId: string, url: string)
    | Twitter(tweetId: string, url: string)
    | Reddit(url: string)

  // ---------------------------------------------------------------------------
  // Character classes

  /** `\w` without Unicode character classes. */
  predicate IsWord(c: char) {
    ('a' <= c <= 'z') || ('A' <= c <= 'Z') || ('0' <= c <= '9') || c == '_'
  }

  predicate IsDigit(c: char) {
    '0' <= c <= '9'
  }

  predicate AllWord(s: string) {
    forall i :: 0 <= i < |s| ==> IsWord(s[i])
  }

  predicate AllDigits(s: string) {
    forall i :: 0 <= i < |s| ==> IsDigit(s[i])
  }

  /** `[\w-]`. */
  predicate AllWordOrDash(s: string) {
    forall i :: 0 <= i < |s| ==> IsWord(s[i]) || s[i] == '-'
  }

  /** The length of the longest prefix of word characters. */
  function WordRun(s: string): (n: nat)
    ensures n <= |s| && AllWord(s[..n]) && (n < |s| ==> !IsWord(s[n]))
  {
    if s == [] || !IsWord(s[0]) then 0 else 1 + WordRun(s[1..])
  }

  /** The length of the longest prefix of digits. */
  function DigitRun(s: string): (n: nat)
    ensures n <= |s| && AllDigits(s[..n]) && (n < |s| ==> !IsDigit(s[n]))
  {
    if s == [] || !IsDigit(s[0]) then 0 else 1 + DigitRun(s[1..])
  }

  /** A maximal run is the only split into a run and a rest that does not continue it. */
  lemma WordRunOfSplit(run: string, rest: string)
    requires AllWord(run)
    requires rest == [] || !IsWord(rest[0])
    ensures WordRun(run + rest) == |run|
    decreases |run|
  {
    if run != [] {
      assert (run + rest)[1..] == run[1..] + rest;
      WordRunOfSplit(run[1..], rest);
    } else {
      assert run + rest == rest;
    }
  }

  lemma DigitRunOfSplit(run: string, rest: string)
    requires AllDigits(run)
    requires rest == [] || !IsDigit(rest[0])
    ensures DigitRun(run + rest) == |run|
    decreases |run|
  {
    if run != [] {
      assert (run + rest)[1..] == run[1..] + rest;
      DigitRunOfSplit(run[1..], rest);
    } else {
      assert run + rest == rest;
    }
  }

  // ---------------------------------------------------------------------------
  // Prefix matchers, one per pattern piece

  /** `https?://`. */
  function AfterHttpScheme(s: string): Option<string> {
    if "https://" <= s then Some(s[8..])
    else if "http://" <= s then Some(s[7..])
    else None
  }

  /** `(?:https?://)?`. */
  function AfterOptionalScheme(s: string): string {
    AfterHttpScheme(s).GetOr(s)
  }

  /** `(?:www\.)?`. */
  function AfterWww(s: string): string {
    if "www." <= s then s[4..] else s
  }

  /** `(?:www\.|m\.)?`. */
  function AfterWwwOrM(s: string): string {
    if "www." <= s then s[4..] else if "m." <= s then s[2..] else s
  }

  /** `(?:youtube\.com/(?:watch\?v=|embed/|shorts/)|youtu\.be/)`. */
  function AfterYouTubePath(s: string): Option<string> {
    if "youtube.com/watch?v=" <= s then Some(s[20..])
    else if "youtube.com/embed/" <= s then Some(s[18..])
    else if "youtube.com/shorts/" <= s then Some(s[19..])
    else if "youtu.be/" <= s then Some(s[9..])
    else None
  }

  /** `(?:twitter\.com|x\.com)/`. */
  function AfterTwitterHost(s: string): Option<string> {
    if "twitter.com/" <= s then Some(s[12..])
    else if "x.com/" <= s then Some(s[6..])
    else None
  }

  /** `\w+` followed by `sep`. */
  function AfterWordThen(s: string, sep: string): Option<string> {
    var n := WordRun(s);
    if n > 0 && sep <= s[n..] then Some(s[n + |sep|..]) else None
  }

  // ---------------------------------------------------------------------------
  // The three patterns

  /** The YouTube pattern's capture: the eleven id characters after the path. */
  function YouTubeVideoId(url: string): Option<string> {
    match AfterYouTubePath(AfterWwwOrM(AfterOptionalScheme(url)))
    case None => None
    case Some(r) => if |r| >= 11 && AllWordOrDash(r[..11]) then Some(r[..11]) else None
  }

  /** The Twitter pattern's capture: the whole run of digits after `status/`. */
  function TweetId(url: string): Option<string> {
    match AfterHttpScheme(url)
    case None => None
    case Some(s1) =>
      match AfterTwitterHost(AfterWww(s1))
      case None => None
      case Some(s2) =>
        match AfterWordThen(s2, "/status/")
        case None => None
        case Some(s3) => if DigitRun(s3) > 0 then Some(s3[..DigitRun(s3)]) else None
  }

  /** Whether the Reddit pattern matches at the start. */
  predicate IsRedditPost(url: string) {
    match AfterHttpScheme(url)
    case None => false
    case Some(s1) =>
      var s2 := AfterWww(s1);
      "reddit.com/r/" <= s2
      && match AfterWordThen(s2[13..], "/comments/")
         case None => false
         case Some(s3) => WordRun(s3) > 0
  }

  /** `detectEmbed`: the first pattern that matches, in the order YouTube, Twitter, Reddit. */
  function DetectEmbed(url: string): Option<EmbedInfo> {
    if YouTubeVideoId(url).Some? then Some(YouTube(YouTubeVideoId(url).value, url))
    else if TweetId(url).Some? then Some(Twitter(TweetId(url).value, url))
    else if IsRedditPost(url) then Some(Reddit(url))
    else None
  }

  // ---------------------------------------------------------------------------
  // The shapes each pattern describes

  predicate IsOptionalScheme(p: string) { p == "https://" || p == "http://" || p == "" }
  predicate IsHttpScheme(p: string) { p == "https://" || p == "http://" }
  predicate IsWwwOrM(p: string) { p == "www." || p == "m." || p == "" }
  predicate IsOptionalWww(p: string) { p == "www." || p == "" }
  predicate IsYouTubePath(p: string) {
    p == "youtube.com/watch?v=" || p == "youtube.com/embed/" || p == "youtube.com/shorts/" || p == "youtu.be/"
  }
  predicate IsTwitterHost(p: string) { p == "twitter.com/" || p == "x.com/" }

  /** `url` is scheme, subdomain, path and an eleven-character id, then anything. */
  predicate YouTubeShape(url: string, scheme: string, sub: string, path: string, id: string, rest: string) {
    && IsOptionalScheme(scheme) && IsWwwOrM(sub) && IsYouTubePath(path)
    && |id| == 11 && AllWordOrDash(id)
    && url == scheme + (sub + (path + (id + rest)))
  }

  /** `url` is a tweet link whose id is the maximal digit run after `status/`. */
  predicate TwitterShape(url: string, scheme: string, sub: string, host: string, user: string, id: string,
                         rest: string)
  {
    && IsHttpScheme(scheme) && IsOptionalWww(sub) && IsTwitterHost(host)
    && |user| > 0 && AllWord(user)
    && |id| > 0 && AllDigits(id) && (rest == [] || !IsDigit(rest[0]))
    && url == scheme + (sub + (host + (user + ("/status/" + (id + rest)))))
  }

  /** `url` is a Reddit comments link. */
  predicate RedditShape(url: string, scheme: string, sub: string, subreddit: string, post: string, rest: string) {
    && IsHttpScheme(scheme) && IsOptionalWww(sub)
    && |subreddit| > 0 && AllWord(subreddit)
    && |post| > 0 && AllWord(post)
    && url == scheme + (sub + ("reddit.com/r/" + (subreddit + ("/comments/" + (post + rest)))))
  }

  // ---------------------------------------------------------------------------
  // Stage lemmas, forwards: each matcher strips exactly its piece

  lemma PrefixThen(p: string, t: string)
    ensures p <= p + t && (p + t)[|p|..] == t
  {
    assert (p + t)[..|p|] == p;
  }

  lemma OptionalSchemeStage(scheme: string, t: string)
    requires IsOptionalScheme(scheme)
    requires t != [] && t[0] != 'h'
    ensures AfterOptionalScheme(scheme + t) == t
  {
    PrefixThen(scheme, t);
    if scheme == "" {
      assert scheme + t == t;
      assert !("https://" <= t) && !("http://" <= t) by { assert t[0] != "h"[0]; }
    } else if scheme == "http://" {
      assert !("https://" <= scheme + t) by { assert (scheme + t)[4] == ':'; }
    }
  }

  lemma HttpSchemeStage(scheme: string, t: string)
    requires IsHttpScheme(scheme)
    ensures AfterHttpScheme(scheme + t) == Some(t)
  {
    PrefixThen(scheme, t);
    if scheme == "http://" {
      assert !("https://" <= scheme + t) by { assert (scheme + t)[4] == ':'; }
    }
  }

  lemma WwwOrMStage(sub: string, t: string)
    requires IsWwwOrM(sub)
    requires t != [] && t[0] != 'w' && t[0] != 'm'
    ensures AfterWwwOrM(sub + t) == t
  {
    PrefixThen(sub, t);
    if sub == "" {
      assert sub + t == t;
      assert !("www." <= t) by { assert t[0] != "www."[0]; }
      assert !("m." <= t) by { assert t[0] != "m."[0]; }
    } else if sub == "m." {
      assert !("www." <= sub + t) by { assert (sub + t)[0] == 'm'; }
    }
  }

  lemma WwwStage(sub: string, t: string)
    requires IsOptionalWww(sub)
    requires t != [] && t[0] != 'w'
    ensures AfterWww(sub + t) == t
  {
    PrefixThen(sub, t);
    if sub == "" {
      assert sub + t == t;
      assert !("www." <= t) by { assert t[0] != "www."[0]; }
    }
  }

  lemma YouTubePathStage(path: string, t: string)
    requires IsYouTubePath(path)
    ensures AfterYouTubePath(path + t) == Some(t)
  {
    PrefixThen(path, t);
    var s := path + t;
    if path == "youtube.com/embed/" {
      assert !("youtube.com/watch?v=" <= s) by { assert s[12] == 'e'; }
    } else if path == "youtube.com/shorts/" {
      assert !("youtube.com/watch?v=" <= s) by { assert s[12] == 's'; }
      assert !("youtube.com/embed/" <= s) by { assert s[12] == 's'; }
    } else if path == "youtu.be/" {
      assert !("youtube.com/watch?v=" <= s) && !("youtube.com/embed/" <= s) && !("youtube.com/shorts/" <= s)
        by { assert s[5] == '.'; }
    }
  }

  lemma TwitterHostStage(host: string, t: string)
    requires IsTwitterHost(host)
    ensures AfterTwitterHost(host + t) == Some(t)
  {
    PrefixThen(host, t);
    if host == "x.com/" {
      assert !("twitter.com/" <= host + t) by { assert (host + t)[0] == 'x'; }
    }
  }

  lemma WordThenStage(word: string, sep: string, t: string)
    requires |word| > 0 && AllWord(word)
    requires sep != [] && !IsWord(sep[0])
    ensures AfterWordThen(word + (sep + t), sep) == Some(t)
  {
    var s := word + (sep + t);
    WordRunOfSplit(word, sep + t);
    assert s[|word|..] == sep + t;
    PrefixThen(sep, t);
    assert s[|word| + |sep|..] == t;
  }

  // ---------------------------------------------------------------------------
  // Stage lemmas, backwards: what a matcher strips is one of its pattern's pieces

  /** The text that the optional scheme matcher strips. */
  function SchemeOf(s: string): string {
    if "https://" <= s then "https://" else if "http://" <= s then "http://" else ""
  }

  lemma SchemeSplit(s: string)
    ensures IsOptionalScheme(SchemeOf(s)) && s == SchemeOf(s) + AfterOptionalScheme(s)
    ensures AfterHttpScheme(s).Some? ==>
              IsHttpScheme(SchemeOf(s)) && AfterHttpScheme(s).value == AfterOptionalScheme(s)
  {
    var p := SchemeOf(s);
    if p != "" {
      assert s[..|p|] == p;
      assert s == s[..|p|] + s[|p|..];
    } else {
      assert s == "" + s;
    }
  }

  /** The text that the `www.`/`m.` matcher strips. */
  function WwwOrMOf(s: string): string {
    if "www." <= s then "www." else if "m." <= s then "m." else ""
  }

  lemma WwwOrMSplit(s: string)
    ensures IsWwwOrM(WwwOrMOf(s)) && s == WwwOrMOf(s) + AfterWwwOrM(s)
  {
    var p := WwwOrMOf(s);
    if p != "" {
      assert s[..|p|] == p;
      assert s == s[..|p|] + s[|p|..];
    } else {
      assert s == "" + s;
    }
  }

  /** The text that the `www.` matcher strips. */
  function WwwOf(s: string): string {
    if "www." <= s then "www." else ""
  }

  lemma WwwSplit(s: string)
    ensures IsOptionalWww(WwwOf(s)) && s == WwwOf(s) + AfterWww(s)
  {
    if "www." <= s {
      assert s[..4] == "www.";
      assert s == s[..4] + s[4..];
    } else {
      assert s == "" + s;
    }
  }

  /** The path that the YouTube path matcher strips. */
  function YouTubePathOf(s: string): string {
    if "youtube.com/watch?v=" <= s then "youtube.com/watch?v="
    else if "youtube.com/embed/" <= s then "youtube.com/embed/"
    else if "youtube.com/shorts/" <= s then "youtube.com/shorts/"
    else "youtu.be/"
  }

  lemma YouTubePathSplit(s: string)
    requires AfterYouTubePath(s).Some?
    ensures IsYouTubePath(YouTubePathOf(s)) && s == YouTubePathOf(s) + AfterYouTubePath(s).value
  {
    var p := YouTubePathOf(s);
    assert s[..|p|] == p;
    assert s == s[..|p|] + s[|p|..];
  }

  /** Every YouTube path starts with `y`. */
  lemma YouTubePathStartsWithY(s: string)
    requires AfterYouTubePath(s).Some?
    ensures s != [] && s[0] == 'y'
  {
    YouTubePathSplit(s);
    assert s[0] == YouTubePathOf(s)[0];
  }

  /** The host that the Twitter host matcher strips. */
  function TwitterHostOf(s: string): string {
    if "twitter.com/" <= s then "twitter.com/" else "x.com/"
  }

  lemma TwitterHostSplit(s: string)
    requires AfterTwitterHost(s).Some?
    ensures IsTwitterHost(TwitterHostOf(s)) && s == TwitterHostOf(s) + AfterTwitterHost(s).value
  {
    var p := TwitterHostOf(s);
    assert s[..|p|] == p;
    assert s == s[..|p|] + s[|p|..];
  }

  lemma WordThenSplit(s: string, sep: string)
    requires AfterWordThen(s, sep).Some?
    ensures var n := WordRun(s);
      && n > 0 && AllWord(s[..n])
      && s == s[..n] + (sep + AfterWordThen(s, sep).value)
  {
    var n := WordRun(s);
    var t := s[n..];
    assert t[..|sep|] == sep;
    assert t == sep + t[|sep|..];
    assert s == s[..n] + t;
  }

  lemma DigitSplit(s: string)
    ensures var d := DigitRun(s);
      && s == s[..d] + s[d..] && (s[d..] == [] || !IsDigit(s[d..][0]))
  {
  }

  // ---------------------------------------------------------------------------
  // Soundness and completeness of each matcher

  /** The scheme and subdomain the YouTube matcher strips, and what it goes on with. */
  lemma YouTubeHead(url: string) returns (scheme: string, sub: string, s2: string)
    ensures IsOptionalScheme(scheme) && IsWwwOrM(sub)
    ensures s2 == AfterWwwOrM(AfterOptionalScheme(url))
    ensures url == scheme + (sub + s2)
  {
    var s1 := AfterOptionalScheme(url);
    SchemeSplit(url);
    WwwOrMSplit(s1);
    scheme, sub, s2 := SchemeOf(url), WwwOrMOf(s1), AfterWwwOrM(s1);
  }

  /** The path and id the YouTube matcher reads after the subdomain. */
  lemma YouTubeTail(s2: string) returns (path: string, id: string, rest: string)
    requires AfterYouTubePath(s2).Some?
    requires var r := AfterYouTubePath(s2).value; |r| >= 11 && AllWordOrDash(r[..11])
    ensures IsYouTubePath(path) && |id| == 11 && AllWordOrDash(id)
    ensures id == AfterYouTubePath(s2).value[..11]
    ensures s2 == path + (id + rest)
  {
    var r := AfterYouTubePath(s2).value;
    YouTubePathSplit(s2);
    path, id, rest := YouTubePathOf(s2), r[..11], r[11..];
    assert r == id + rest;
  }

  /** A captured YouTube id comes from a decomposition of the URL in the pattern's shape. */
  lemma YouTubeSound(url: string)
    requires YouTubeVideoId(url).Some?
    ensures exists scheme, sub, path, rest ::
      YouTubeShape(url, scheme, sub, path, YouTubeVideoId(url).value, rest)
  {
    var scheme, sub, s2 := YouTubeHead(url);
    var path, id, rest := YouTubeTail(s2);
    assert YouTubeShape(url, scheme, sub, path, id, rest);
  }


  /** Any URL of the YouTube shape is matched, with the id of the shape. */
  lemma YouTubeComplete(url: string, scheme: string, sub: string, path: string, id: string, rest: string)
    requires YouTubeShape(url, scheme, sub, path, id, rest)
    ensures YouTubeVideoId(url) == Some(id)
  {
    var t2 := path + (id + rest);
    var t1 := sub + t2;
    assert t2[0] == path[0] == 'y';
    WwwOrMStage(sub, t2);
    assert t1[0] == 'w' || t1[0] == 'm' || t1[0] == 'y';
    OptionalSchemeStage(scheme, t1);
    YouTubePathStage(path, id + rest);
    assert (id + rest)[..11] == id;
  }

  /** The YouTube shape fixes the id: no URL decomposes with two different ids. */
  lemma YouTubeIdUnique(url: string, s1: string, u1: string, p1: string, id1: string, r1: string,
                        s2: string, u2: string, p2: string, id2: string, r2: string)
    requires YouTubeShape(url, s1, u1, p1, id1, r1)
    requires YouTubeShape(url, s2, u2, p2, id2, r2)
    ensures id1 == id2
  {
    YouTubeComplete(url, s1, u1, p1, id1, r1);
    YouTubeComplete(url, s2, u2, p2, id2, r2);
  }

  /** Anything may follow the id: a longer URL keeps the same id. */
  lemma YouTubeSuffixInvariant(url: string, suffix: string)
    requires YouTubeVideoId(url).Some?
    ensures YouTubeVideoId(url + suffix) == YouTubeVideoId(url)
  {
    YouTubeSound(url);
    var id := YouTubeVideoId(url).value;
    var scheme, sub, path, rest :| YouTubeShape(url, scheme, sub, path, id, rest);
    AppendAssoc5(scheme, sub, path, id, rest, suffix);
    YouTubeComplete(url + suffix, scheme, sub, path, id, rest + suffix);
  }

  /** Appending to a right-nested concatenation appends to its last part. */
  lemma AppendAssoc5(a: string, b: string, c: string, d: string, e: string, f: string)
    ensures (a + (b + (c + (d + e)))) + f == a + (b + (c + (d + (e + f))))
  {
  }

  /** The scheme, subdomain and host the tweet matcher strips, and what it goes on with. */
  lemma TwitterHead(url: string) returns (scheme: string, sub: string, host: string, s2: string)
    requires AfterHttpScheme(url).Some?
    requires AfterTwitterHost(AfterWww(AfterHttpScheme(url).value)).Some?
    ensures IsHttpScheme(scheme) && IsOptionalWww(sub) && IsTwitterHost(host)
    ensures s2 == AfterTwitterHost(AfterWww(AfterHttpScheme(url).value)).value
    ensures url == scheme + (sub + (host + s2))
  {
    var s1 := AfterHttpScheme(url).value;
    SchemeSplit(url);
    var w := AfterWww(s1);
    WwwSplit(s1);
    TwitterHostSplit(w);
    scheme, sub, host, s2 := SchemeOf(url), WwwOf(s1), TwitterHostOf(w), AfterTwitterHost(w).value;
  }

  /** The user, `/status/` and maximal digit run the tweet matcher reads after the host. */
  lemma TwitterTail(s2: string) returns (user: string, id: string, rest: string)
    requires AfterWordThen(s2, "/status/").Some?
    requires DigitRun(AfterWordThen(s2, "/status/").value) > 0
    ensures |user| > 0 && AllWord(user)
    ensures |id| > 0 && AllDigits(id) && (rest == [] || !IsDigit(rest[0]))
    ensures var s3 := AfterWordThen(s2, "/status/").value; id == s3[..DigitRun(s3)]
    ensures s2 == user + ("/status/" + (id + rest))
  {
    var s3 := AfterWordThen(s2, "/status/").value;
    WordThenSplit(s2, "/status/");
    DigitSplit(s3);
    user, id, rest := s2[..WordRun(s2)], s3[..DigitRun(s3)], s3[DigitRun(s3)..];
  }

  /** A captured tweet id comes from a decomposition of the URL in the pattern's shape. */
  lemma TwitterSound(url: string)
    requires TweetId(url).Some?
    ensures exists scheme, sub, host, user, rest ::
      TwitterShape(url, scheme, sub, host, user, TweetId(url).value, rest)
  {
    var scheme, sub, host, s2 := TwitterHead(url);
    var user, id, rest := TwitterTail(s2);
    assert TwitterShape(url, scheme, sub, host, user, id, rest);
  }


  /** Any URL of the tweet shape is matched, with the shape's (maximal) digit run as id. */
  lemma TwitterComplete(url: string, scheme: string, sub: string, host: string, user: string, id: string,
                        rest: string)
    requires TwitterShape(url, scheme, sub, host, user, id, rest)
    ensures TweetId(url) == Some(id)
  {
    var t3 := id + rest;
    var t2 := user + ("/status/" + t3);
    var t1 := host + t2;
    var t0 := sub + t1;
    HttpSchemeStage(scheme, t0);
    assert t1[0] == host[0];
    WwwStage(sub, t1);
    TwitterHostStage(host, t2);
    WordThenStage(user, "/status/", t3);
    DigitRunOfSplit(id, rest);
    assert t3[..|id|] == id;
  }

  /** A stray suffix that does not start with a digit leaves the tweet id as it is. */
  lemma TwitterSuffixInvariant(url: string, suffix: string)
    requires TweetId(url).Some?
    requires suffix == [] || !IsDigit(suffix[0])
    ensures TweetId(url + suffix) == TweetId(url)
  {
    TwitterSound(url);
    var id := TweetId(url).value;
    var scheme, sub, host, user, rest :| TwitterShape(url, scheme, sub, host, user, id, rest);
    AppendAssoc7(scheme, sub, host, user, "/status/", id, rest, suffix);
    if rest == [] {
      assert rest + suffix == suffix;
    } else {
      assert (rest + suffix)[0] == rest[0];
    }
    TwitterComplete(url + suffix, scheme, sub, host, user, id, rest + suffix);
  }

  lemma AppendAssoc7(a: string, b: string, c: string, d: string, e: string, f: string, g: string, h: string)
    ensures (a + (b + (c + (d + (e + (f + g)))))) + h == a + (b + (c + (d + (e + (f + (g + h))))))
  {
  }

  /** After `reddit.com/r/` the matcher continues on the remaining text. */
  lemma RedditPrefixSplit(s: string)
    requires "reddit.com/r/" <= s
    ensures s == "reddit.com/r/" + s[13..]
  {
    assert s[..13] == "reddit.com/r/";
  }

  lemma WordSplit(s: string)
    ensures var m := WordRun(s); s == s[..m] + s[m..]
  {
  }

  /** The scheme, subdomain and `reddit.com/r/` the Reddit matcher strips, and what follows. */
  lemma RedditHead(url: string) returns (scheme: string, sub: string, t: string)
    requires AfterHttpScheme(url).Some?
    requires "reddit.com/r/" <= AfterWww(AfterHttpScheme(url).value)
    ensures IsHttpScheme(scheme) && IsOptionalWww(sub)
    ensures t == AfterWww(AfterHttpScheme(url).value)[13..]
    ensures url == scheme + (sub + ("reddit.com/r/" + t))
  {
    var s1 := AfterHttpScheme(url).value;
    SchemeSplit(url);
    var s2 := AfterWww(s1);
    WwwSplit(s1);
    RedditPrefixSplit(s2);
    scheme, sub, t := SchemeOf(url), WwwOf(s1), s2[13..];
  }

  /** The subreddit, `/comments/` and post the Reddit matcher reads after the prefix. */
  lemma RedditTail(t: string) returns (subreddit: string, post: string, rest: string)
    requires AfterWordThen(t, "/comments/").Some?
    requires WordRun(AfterWordThen(t, "/comments/").value) > 0
    ensures |subreddit| > 0 && AllWord(subreddit) && |post| > 0 && AllWord(post)
    ensures t == subreddit + ("/comments/" + (post + rest))
  {
    var s3 := AfterWordThen(t, "/comments/").value;
    WordThenSplit(t, "/comments/");
    WordSplit(s3);
    subreddit, post, rest := t[..WordRun(t)], s3[..WordRun(s3)], s3[WordRun(s3)..];
  }

  /** A Reddit match comes from a decomposition of the URL in the pattern's shape. */
  lemma RedditSound(url: string)
    requires IsRedditPost(url)
    ensures exists scheme, sub, subreddit, post, rest :: RedditShape(url, scheme, sub, subreddit, post, rest)
  {
    var scheme, sub, t := RedditHead(url);
    var subreddit, post, rest := RedditTail(t);
    assert RedditShape(url, scheme, sub, subreddit, post, rest);
  }


  /** Any URL of the Reddit shape is matched. */
  lemma RedditComplete(url: string, scheme: string, sub: string, subreddit: string, post: string, rest: string)
    requires RedditShape(url, scheme, sub, subreddit, post, rest)
    ensures IsRedditPost(url)
  {
    var t3 := post + rest;
    var t := subreddit + ("/comments/" + t3);
    var s2 := "reddit.com/r/" + t;
    var t0 := sub + s2;
    HttpSchemeStage(scheme, t0);
    WwwStage(sub, s2);
    PrefixThen("reddit.com/r/", t);
    WordThenStage(subreddit, "/comments/", t3);
    assert t3[0] == post[0];
    assert WordRun(t3) >= 1;
  }

  // ---------------------------------------------------------------------------
  // detectEmbed

  /** The first matching pattern decides, and the input URL is returned unchanged. */
  lemma DetectEmbedOrder(url: string)
    ensures YouTubeVideoId(url).Some? ==> DetectEmbed(url) == Some(YouTube(YouTubeVideoId(url).value, url))
    ensures YouTubeVideoId(url).None? && TweetId(url).Some? ==>
              DetectEmbed(url) == Some(Twitter(TweetId(url).value, url))
    ensures YouTubeVideoId(url).None? && TweetId(url).None? && IsRedditPost(url) ==>
              DetectEmbed(url) == Some(Reddit(url))
    ensures DetectEmbed(url).None? <==> YouTubeVideoId(url).None? && TweetId(url).None? && !IsRedditPost(url)
    ensures DetectEmbed(url).Some? ==> DetectEmbed(url).value.url == url
  {
  }

  /** In terms of shapes: a URL of the YouTube shape is a YouTube embed with the shape's id. */
  lemma DetectYouTubeShape(url: string, scheme: string, sub: string, path: string, id: string, rest: string)
    requires YouTubeShape(url, scheme, sub, path, id, rest)
    ensures DetectEmbed(url) == Some(YouTube(id, url))
  {
    YouTubeComplete(url, scheme, sub, path, id, rest);
  }

  /** A tweet link is never a YouTube link, so it is a tweet embed with the shape's id. */
  lemma DetectTwitterShape(url: string, scheme: string, sub: string, host: string, user: string, id: string,
                           rest: string)
    requires TwitterShape(url, scheme, sub, host, user, id, rest)
    ensures DetectEmbed(url) == Some(Twitter(id, url))
  {
    TwitterComplete(url, scheme, sub, host, user, id, rest);
    var t1 := host + (user + ("/status/" + (id + rest)));
    var t0 := sub + t1;
    assert t1[0] == host[0];
    // after the scheme and the optional `www.` comes `t` or `x`, where a YouTube path needs `y`
    assert t0[0] == 'w' || t0[0] == 't' || t0[0] == 'x';
    OptionalSchemeStage(scheme, t0);
    WwwOrMStage(sub, t1);
    if AfterYouTubePath(t1).Some? {
      YouTubePathStartsWithY(t1);
      assert false;
    }
  }
}
