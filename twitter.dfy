/**
 * The Twitter feature: reading a page of the home timeline and posting a
 * tweet. The HTTP exchange, its OAuth signature and the JSON decoding are
 * not modelled: GetFeeds receives the two numbers the command's regular
 * expression captured (if it matched) and the decoded timeline (None when
 * the body was not valid JSON); Tweet only computes its reply.
 */
module Twitter {
  import opened Wrappers
  import opened Strings
  import opened Strconv

  /** The most tweets the Twitter API returns for one request. */
  const MaxPage := 200

  datatype TwitterError =
    | BadTwitterParam // the command's parameters are malformed
    | BadJSON         // the timeline could not be decoded
    | SlicePanic      // the slice expression in ExtractTweets goes out of range: a Go run-time panic

  datatype Tweet = Tweet(Text: string, UserName: string)

  /** The API credentials of the feature. */
  datatype Twitter = Twitter(AccessToken: string, AccessTokenSecret: string, ConsumerKey: string, ConsumerSecret: string)
  {
    /** IsConfigured: every credential is present. */
    predicate IsConfigured()
    {
      AccessToken != "" && AccessTokenSecret != "" && ConsumerKey != "" && ConsumerSecret != ""
    }
  }

  /* -------------------------------------------------------- the window */

  /**
   * The skip/count window GetFeeds asks for, computed as written: with
   * 64-bit wrap-around in `count += skip`.
   */
  function PageWindowAsWritten(skip0: int, count0: int): (w: (int, int))
    ensures 0 <= w.0 < MaxPage && 1 <= w.1 <= MaxPage
  {
    if count0 == 0 && skip0 == 0 then (0, 1)
    else
      var skip := if skip0 > MaxPage - 1 then MaxPage - 1 else if skip0 < 0 then 0 else skip0;
      var sum := Wrap64(count0 + skip);
      var count := if sum > MaxPage then MaxPage else if sum < 1 then 1 else sum;
      (skip, count)
  }

  /**
   * The window GetFeeds evidently means: skip clamped into [0, 199], then
   * count extended by skip and clamped into [1, 200], without overflow.
   */
  function PageWindow(skip0: int, count0: int): (w: (int, int))
    ensures 0 <= w.0 < MaxPage && 1 <= w.1 <= MaxPage
  {
    if count0 == 0 && skip0 == 0 then (0, 1)
    else
      var skip := if skip0 > MaxPage - 1 then MaxPage - 1 else if skip0 < 0 then 0 else skip0;
      var sum := count0 + skip;
      var count := if sum > MaxPage then MaxPage else if sum < 1 then 1 else sum;
      (skip, count)
  }

  /**
   * For the numbers a command can carry (digit runs, so not negative) the
   * window never ends before it starts, and it reaches `count0` tweets past
   * the skipped ones whenever the API allows that many.
   */
  lemma PageWindowOrdered(skip0: int, count0: int)
    requires skip0 >= 0 && count0 >= 0
    ensures var (skip, count) := PageWindow(skip0, count0);
      && 0 <= skip <= count <= MaxPage
      && skip == (if skip0 < MaxPage then skip0 else MaxPage - 1)
      && (count0 + skip <= MaxPage && (skip0, count0) != (0, 0) ==> count == count0 + skip)
  {
  }

  /** Without overflow, the window as written is the intended one. */
  lemma PageWindowAsWrittenAgrees(skip0: int, count0: int)
    requires IsInt64(skip0) && IsInt64(count0) && IsInt64(count0 + MaxPage)
    ensures PageWindowAsWritten(skip0, count0) == PageWindow(skip0, count0)
  {
  }

  /** The window from the captured numbers, or BadTwitterParam when one of them is not a 64-bit number. */
  function WindowOf(params: Option<(string, string)>, window: (int, int) -> (int, int)): Result<(int, int), TwitterError>
  {
    match params
    case None => Success(window(0, 0))
    case Some((skipText, countText)) =>
      match Atoi(skipText)
      case None => Failure(BadTwitterParam)
      case Some(skip) =>
        match Atoi(countText)
        case None => Failure(BadTwitterParam)
        case Some(count) => Success(window(skip, count))
  }

  /* ----------------------------------------------------- ExtractTweets */

  /**
   * ExtractTweets: nothing when every tweet is skipped, otherwise the tweets
   * from `skip` up to `count` (or the end); the slice panics when it would
   * end before it starts.
   */
  function ExtractTweets(timeline: Option<seq<Tweet>>, skip: int, count: int): (r: Result<seq<Tweet>, TwitterError>)
    ensures r.Success? ==> timeline.Some? && |r.value| <= |timeline.value|
  {
    match timeline
    case None => Failure(BadJSON)
    case Some(tweets) =>
      if skip >= |tweets| then Success([])
      else
        var finalTweet := if count > |tweets| then |tweets| else count;
        if 0 <= skip <= finalTweet then Success(tweets[skip..finalTweet]) else Failure(SlicePanic)
  }

  /**
   * With a window that does not end before it starts, ExtractTweets never
   * panics and yields the tweets from `skip` on, at most `count - skip` of them.
   */
  lemma ExtractTweetsInRange(tweets: seq<Tweet>, skip: int, count: int)
    requires 0 <= skip <= count
    ensures var r := ExtractTweets(Some(tweets), skip, count);
      var n := if count < |tweets| then count - skip else |tweets| - skip;
      && r.Success?
      && (skip >= |tweets| ==> r.value == [])
      && (skip < |tweets| ==> |r.value| == n && forall k :: 0 <= k < n ==> r.value[k] == tweets[skip + k])
  {
  }

  /** ExtractTweets panics exactly when a tweet is there to skip to but the window ends before `skip`. */
  lemma ExtractTweetsPanicIff(tweets: seq<Tweet>, skip: int, count: int)
    ensures ExtractTweets(Some(tweets), skip, count) == Failure(SlicePanic)
      <==> skip < |tweets| && (skip < 0 || count < skip)
  {
  }

  /* ---------------------------------------------------------- GetFeeds */

  /** One line of the GetFeeds reply: author and text, trimmed, then a newline. */
  function FeedLine(t: Tweet): string
  {
    TrimSpace(t.UserName) + " " + TrimSpace(t.Text) + "\n"
  }

  /** The reply to GetFeeds: one line per tweet, in timeline order. */
  function FeedText(tweets: seq<Tweet>): string
  {
    if |tweets| == 0 then "" else FeedText(tweets[..|tweets| - 1]) + FeedLine(tweets[|tweets| - 1])
  }

  /** What GetFeeds replies, given the captured numbers and the decoded timeline. */
  function FeedsOutcome(params: Option<(string, string)>, timeline: Option<seq<Tweet>>): Result<string, TwitterError>
  {
    match WindowOf(params, PageWindow)
    case Failure(e) => Failure(e)
    case Success((skip, count)) =>
      match ExtractTweets(timeline, skip, count)
      case Failure(e) => Failure(e)
      case Success(tweets) => Success(FeedText(tweets))
  }

  /** GetFeeds: the window, the tweets in it, and the reply written one line at a time. */
  method GetFeeds(params: Option<(string, string)>, timeline: Option<seq<Tweet>>) returns (r: Result<string, TwitterError>)
    ensures r == FeedsOutcome(params, timeline)
  {
    var window := WindowOf(params, PageWindow);
    if window.Failure? {
      return Failure(window.error);
    }
    var (skip, count) := window.value;
    var extracted := ExtractTweets(timeline, skip, count);
    if extracted.Failure? {
      return Failure(extracted.error);
    }
    var tweets := extracted.value;
    var outBuf := "";
    for i := 0 to |tweets|
      invariant outBuf == FeedText(tweets[..i])
    {
      assert tweets[..i + 1][..i] == tweets[..i];
      outBuf := outBuf + FeedLine(tweets[i]);
    }
    assert tweets[..|tweets|] == tweets;
    return Success(outBuf);
  }

  /** A tweet whose author and text have no newline adds exactly one newline to the reply. */
  lemma FeedLineNewlines(t: Tweet)
    requires '\n' !in t.UserName && '\n' !in t.Text
    ensures multiset(FeedLine(t))['\n'] == 1
  {
    TrimSpaceSubset(t.UserName);
    TrimSpaceSubset(t.Text);
    var name, text := TrimSpace(t.UserName), TrimSpace(t.Text);
    assert multiset(FeedLine(t)) == multiset(name) + multiset(" ") + multiset(text) + multiset("\n");
    assert '\n' !in multiset(name);
    assert '\n' !in multiset(text);
  }

  /** The reply has one line per tweet when no author or text holds a newline. */
  lemma {:induction false} FeedTextLines(tweets: seq<Tweet>)
    requires forall k :: 0 <= k < |tweets| ==> '\n' !in tweets[k].UserName && '\n' !in tweets[k].Text
    ensures multiset(FeedText(tweets))['\n'] == |tweets|
    ensures |Split(FeedText(tweets), '\n')| == |tweets| + 1
  {
    if |tweets| > 0 {
      var init := tweets[..|tweets| - 1];
      FeedTextLines(init);
      FeedLineNewlines(tweets[|tweets| - 1]);
      assert multiset(FeedText(tweets)) == multiset(FeedText(init)) + multiset(FeedLine(tweets[|tweets| - 1]));
    }
    SplitCount(FeedText(tweets), '\n');
  }

  /**
   * A command whose numbers are digit runs, as the regular expression
   * captures them, never makes GetFeeds panic: it either refuses a number
   * beyond 64 bits or replies with the timeline's tweets in the window.
   */
  lemma FeedsNeverPanic(params: Option<(string, string)>, timeline: Option<seq<Tweet>>)
    requires params.Some? ==> IsDigits(params.value.0) && IsDigits(params.value.1)
    ensures FeedsOutcome(params, timeline) != Failure(SlicePanic)
    ensures FeedsOutcome(params, timeline) == Failure(BadTwitterParam)
      <==> params.Some? && (DigitsValue(params.value.0) > MaxInt || DigitsValue(params.value.1) > MaxInt)
  {
    match params
    case None =>
      var (skip, count) := PageWindow(0, 0);
      if timeline.Some? {
        ExtractTweetsInRange(timeline.value, skip, count);
      }
    case Some((skipText, countText)) =>
      AtoiOfDigits(skipText);
      AtoiOfDigits(countText);
      if Atoi(skipText).Some? && Atoi(countText).Some? {
        var skip0, count0 := Atoi(skipText).value, Atoi(countText).value;
        PageWindowOrdered(skip0, count0);
        var (skip, count) := PageWindow(skip0, count0);
        if timeline.Some? {
          ExtractTweetsInRange(timeline.value, skip, count);
        }
      }
  }

  /**
   * As written, a count just below the 64-bit limit wraps `count + skip`
   * round to a negative number; count is then clamped to 1 while skip stays 5.
   * The API is then asked for one tweet, so the page comes out empty, where the
   * corrected window asks for 200 and shows the tweets from the sixth on.
   */
  lemma OverflowedWindowEmptyPage(asked: seq<Tweet>, full: seq<Tweet>)
    requires |asked| <= 1 && 6 <= |full| <= MaxPage
    ensures WindowOf(Some((Itoa(5), Itoa(MaxInt - 2))), PageWindowAsWritten) == Success((5, 1))
    ensures ExtractTweets(Some(asked), 5, 1) == Success([])
    ensures WindowOf(Some((Itoa(5), Itoa(MaxInt - 2))), PageWindow) == Success((5, MaxPage))
    ensures ExtractTweets(Some(full), 5, MaxPage) == Success(full[5..])
  {
    assert full[5..|full|] == full[5..];
    AtoiItoa(5);
    AtoiItoa(MaxInt - 2);
  }

  /**
   * The same overflowed window panics in ExtractTweets only when the API
   * returns six or more tweets although it was asked for one.
   */
  lemma OverflowedWindowPanics(tweets: seq<Tweet>)
    requires |tweets| >= 6
    ensures WindowOf(Some((Itoa(5), Itoa(MaxInt - 2))), PageWindowAsWritten) == Success((5, 1))
    ensures ExtractTweets(Some(tweets), 5, 1) == Failure(SlicePanic)
  {
    AtoiItoa(5);
    AtoiItoa(MaxInt - 2);
  }

  /**
   * Even as written, ExtractTweets never panics on a timeline no longer than
   * the count the API was asked for: a window that ends before `skip` can
   * only meet a timeline that `skip` already passes.
   */
  lemma AsWrittenHonouredCountNeverPanics(skip0: int, count0: int, tweets: seq<Tweet>)
    requires |tweets| <= PageWindowAsWritten(skip0, count0).1
    ensures var (skip, count) := PageWindowAsWritten(skip0, count0);
      ExtractTweets(Some(tweets), skip, count).Success?
  {
    var (skip, count) := PageWindowAsWritten(skip0, count0);
    ExtractTweetsPanicIff(tweets, skip, count);
  }

  /* ------------------------------------------------------------- Tweet */

  /** Tweet: refuse empty content; otherwise reply with the content's length in decimal. */
  function PostTweet(content: string): (r: Result<string, TwitterError>)
    ensures r.Failure? <==> content == ""
    ensures r.Failure? ==> r.error == BadTwitterParam
  {
    if content == "" then Failure(BadTwitterParam) else Success(Itoa(|content|))
  }

  /** The reply to a posted tweet is a digit run that reads back as the content's length. */
  lemma PostTweetReply(content: string)
    requires content != "" && |content| <= MaxInt
    ensures IsDigits(PostTweet(content).value)
    ensures Atoi(PostTweet(content).value) == Some(|content|)
  {
    AtoiItoa(|content|);
  }
}
