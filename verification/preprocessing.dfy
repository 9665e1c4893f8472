/**
 * The per-tweet cleaning loop of `Preprocessing.clean_tweets`: six rewrites applied
 * in a fixed order to every tweet, one cleaned string per tweet.
 */
module Preprocessing {
  import opened Chars
  import opened Seqs
  import opened RegexSub

  /** The host part of the image short links removed by the last step. */
  const ImageHost: string := "pic.twitter.com"

  /** An image link is the host, one further character and ten alphanumerics. */
  const ImageLinkLength: nat := 26

  /** No ASCII capital letter occurs in `s`. */
  predicate IsLowercase(s: string) {
    forall i :: 0 <= i < |s| ==> !IsAsciiUpper(s[i])
  }

  /** Step 1, `tweet.lower()` restricted to ASCII. */
  function Lower(s: string): (r: string)
    ensures |r| == |s|
    ensures IsLowercase(r)
    ensures IsLowercase(s) ==> r == s
    ensures forall i :: 0 <= i < |s| && !IsAsciiUpper(s[i]) ==> r[i] == s[i]
    ensures forall i :: 0 <= i < |s| && IsAsciiUpper(s[i]) ==> r[i] as int == s[i] as int + 32
  {
    seq(|s|, i requires 0 <= i < |s| => ToLowerChar(s[i]))
  }

  // ---------------------------------------------------------------------------
  // Matchers: the length of the match each pattern finds at the start of `t`.
  // ---------------------------------------------------------------------------

  /** `@[A-Za-z0-9]+`: an at-sign and the whole alphanumeric run after it. */
  function MentionLen(t: string): (n: nat)
    ensures n <= |t|
    ensures n > 0 ==> n >= 2 && t[0] == '@' && IsAsciiAlnum(t[1])
    ensures n > 0 ==> n == |t| || !IsAsciiAlnum(t[n])
    ensures |t| >= 2 && t[0] == '@' && IsAsciiAlnum(t[1]) ==> n > 0
    ensures forall j :: 1 <= j < n ==> IsAsciiAlnum(t[j])
  {
    if |t| >= 2 && t[0] == '@' && IsAsciiAlnum(t[1]) then 1 + RunLength(t[1..], IsAsciiAlnum) else 0
  }

  /** The literal `#` that `str.replace("#", "")` deletes. */
  function HashLen(t: string): (n: nat)
    ensures n > 0 <==> |t| > 0 && t[0] == '#'
    ensures n <= 1
  {
    if |t| > 0 && t[0] == '#' then 1 else 0
  }

  /** `RT[\s].+`: `RT`, one whitespace character, then the rest of the line (at least one character). */
  function RetweetLen(t: string): (n: nat)
    ensures n <= |t|
    ensures n > 0 ==> n >= 4 && t[0] == 'R' && t[1] == 'T' && IsSpace(t[2])
    ensures n > 0 ==> n == |t| || t[n] == '\n'
    ensures forall j :: 3 <= j < n ==> t[j] != '\n'
    ensures |t| >= 4 && t[0] == 'R' && t[1] == 'T' && IsSpace(t[2]) && t[3] != '\n' ==> n > 0
  {
    if |t| >= 4 && t[0] == 'R' && t[1] == 'T' && IsSpace(t[2]) && IsNotNewline(t[3])
    then 3 + RunLength(t[3..], IsNotNewline)
    else 0
  }

  /** `https?:\/\/`: the length of the scheme at the start of `t`, 0 when there is none. */
  function SchemeLen(t: string): (n: nat)
    ensures n == 0 || n == 7 || n == 8
    ensures n <= |t|
    ensures n > 0 ==> t[0] == 'h'
    ensures n == 7 <==> StartsWith(t, "http://")
    ensures n == 8 <==> StartsWith(t, "https://")
  {
    if StartsWith(t, "http://") then
      assert t[..7][4] == ':' && (|t| >= 8 ==> t[..8][4] == ':');
      7
    else if StartsWith(t, "https://") then 8
    else 0
  }

  /** `https?:\/\/\S+`: a scheme and the whole non-whitespace run after it. */
  function LinkLen(t: string): (n: nat)
    ensures n <= |t|
    ensures n > 0 ==> t[0] == 'h'
    ensures n > 0 ==> n == |t| || IsSpace(t[n])
    ensures n > 0 ==> SchemeLen(t) > 0 && forall j :: SchemeLen(t) <= j < n ==> IsNonSpace(t[j])
    ensures 0 < SchemeLen(t) < |t| && IsNonSpace(t[SchemeLen(t)]) ==> n > 0
    ensures n > 0 ==> n > SchemeLen(t)
  {
    var k := SchemeLen(t);
    if k > 0 && k < |t| && IsNonSpace(t[k]) then k + RunLength(t[k..], IsNonSpace) else 0
  }

  /** `pic\.twitter\.com.[A-Za-z0-9]{10}`: the host, any character but a newline, exactly ten alphanumerics. */
  function ImageLinkLen(t: string): (n: nat)
    ensures n == 0 || n == ImageLinkLength
    ensures n <= |t|
    ensures n > 0 <==>
      |t| >= ImageLinkLength && StartsWith(t, ImageHost) && t[15] != '\n' &&
      forall j :: 16 <= j < ImageLinkLength ==> IsAsciiAlnum(t[j])
  {
    if |t| >= ImageLinkLength && StartsWith(t, ImageHost) && IsNotNewline(t[15]) &&
       (forall j :: 16 <= j < ImageLinkLength ==> IsAsciiAlnum(t[j]))
    then ImageLinkLength
    else 0
  }

  // ---------------------------------------------------------------------------
  // The rewrite steps, in pipeline order.
  // ---------------------------------------------------------------------------

  /** Step 2: delete mentions. */
  function RemoveMentions(s: string): (r: string) {
    Substitute(s, MentionLen)
  }

  /** Step 3a: `str.replace("#", "")`. */
  function RemoveHashes(s: string): (r: string) {
    Substitute(s, HashLen)
  }

  /** Step 3b: `str.replace("_", " ")`. */
  function ReplaceUnderscores(s: string): (r: string)
    ensures |r| == |s|
    ensures '_' !in r
    ensures forall i :: 0 <= i < |s| && s[i] != '_' ==> r[i] == s[i]
    ensures '_' !in s ==> r == s
    ensures forall i :: 0 <= i < |s| && s[i] == '_' ==> r[i] == ' '
  {
    seq(|s|, i requires 0 <= i < |s| => if s[i] == '_' then ' ' else s[i])
  }

  /** Step 3: drop the hashtag marker but keep the tag, and split snake-case words. */
  function StripHashtags(s: string): (r: string) {
    ReplaceUnderscores(RemoveHashes(s))
  }

  /** Step 4: delete retweet markers and the rest of their line. */
  function RemoveRetweets(s: string): (r: string) {
    Substitute(s, RetweetLen)
  }

  /** Step 5: delete links. */
  function RemoveLinks(s: string): (r: string) {
    Substitute(s, LinkLen)
  }

  /** Step 6: delete image short links. */
  function RemoveImageLinks(s: string): (r: string) {
    Substitute(s, ImageLinkLen)
  }

  /** The body of the per-tweet loop: the six steps in source order. */
  function CleanTweet(t: string): (r: string) {
    RemoveImageLinks(RemoveLinks(RemoveRetweets(StripHashtags(RemoveMentions(Lower(t))))))
  }

  /** The loop over all tweets: one cleaned string per tweet, in the same order. */
  method CleanTweets(tweets: seq<string>) returns (cleaned: seq<string>)
    ensures |cleaned| == |tweets|
    ensures forall i :: 0 <= i < |tweets| ==> cleaned[i] == CleanTweet(tweets[i])
  {
    cleaned := MapEach(tweets, CleanTweet);
  }

  // ---------------------------------------------------------------------------
  // Step 2: no mention survives.
  // ---------------------------------------------------------------------------

  /** No at-sign in `r` is directly followed by an ASCII letter or digit. */
  predicate NoMention(r: string) {
    forall i :: 0 <= i < |r| - 1 && r[i] == '@' ==> !IsAsciiAlnum(r[i + 1])
  }

  /** The mention step never turns a leading non-alphanumeric into an alphanumeric. */
  lemma {:induction false} MentionsKeepNonAlnumHead(s: string)
    requires |s| > 0 && !IsAsciiAlnum(s[0])
    ensures var r := RemoveMentions(s); |r| == 0 || !IsAsciiAlnum(r[0])
    decreases |s|
  {
    var k := MentionLen(s);
    if MatchesAtStart(s, MentionLen) {
      if k < |s| {
        MentionsKeepNonAlnumHead(s[k..]);
      }
    }
  }

  /** After the mention step, no at-sign is followed by a letter or a digit: the greedy run leaves none behind. */
  lemma {:induction false} MentionStepLeavesNoMention(s: string)
    ensures NoMention(RemoveMentions(s))
    decreases |s|
  {
    if |s| > 0 {
      var k := MentionLen(s);
      if MatchesAtStart(s, MentionLen) {
        assert RemoveMentions(s) == RemoveMentions(s[k..]);
        MentionStepLeavesNoMention(s[k..]);
      } else {
        var u := s[1..];
        var ru := RemoveMentions(u);
        var r := RemoveMentions(s);
        MentionStepLeavesNoMention(u);
        assert r == [s[0]] + ru;
        assert |r| == |ru| + 1;
        if s[0] == '@' && |u| > 0 {
          assert !IsAsciiAlnum(u[0]);
          MentionsKeepNonAlnumHead(u);
        }
        forall i | 0 <= i < |r| - 1 && r[i] == '@'
          ensures !IsAsciiAlnum(r[i + 1])
        {
          if i > 0 {
            assert r[i] == ru[i - 1] && r[i + 1] == ru[i];
          }
        }
      }
    }
  }

  // ---------------------------------------------------------------------------
  // Step 3 and the deleting steps: no '#' and no '_' in the result.
  // ---------------------------------------------------------------------------

  /** Deleting every '#' leaves none. */
  lemma {:induction false} RemoveHashesLeavesNone(s: string)
    ensures '#' !in RemoveHashes(s)
    decreases |s|
  {
    if |s| > 0 {
      if MatchesAtStart(s, HashLen) {
        RemoveHashesLeavesNone(s[1..]);
      } else {
        RemoveHashesLeavesNone(s[1..]);
        assert RemoveHashes(s) == [s[0]] + RemoveHashes(s[1..]);
      }
    }
  }

  /** A cleaned tweet contains neither '#' nor '_': step 3 removes them and every later step only deletes. */
  lemma CleanTweetHasNoHashOrUnderscore(t: string)
    ensures '#' !in CleanTweet(t) && '_' !in CleanTweet(t)
  {
    var a := StripHashtags(RemoveMentions(Lower(t)));
    RemoveHashesLeavesNone(RemoveMentions(Lower(t)));
    assert '#' !in a;
    var b := RemoveRetweets(a);
    var c := RemoveLinks(b);
    var d := RemoveImageLinks(c);
    if '#' in d || '_' in d {
      var x := if '#' in d then '#' else '_';
      SubstituteKeepsCharacters(c, ImageLinkLen, x);
      SubstituteKeepsCharacters(b, LinkLen, x);
      SubstituteKeepsCharacters(a, RetweetLen, x);
      assert false;
    }
  }

  // ---------------------------------------------------------------------------
  // Step 4 is dead code.
  // ---------------------------------------------------------------------------

  /** Deleting characters keeps a string free of capitals. */
  lemma SubstituteKeepsLowercase(s: string, matchLen: string -> nat)
    requires IsLowercase(s)
    ensures IsLowercase(Substitute(s, matchLen))
  {
    var r := Substitute(s, matchLen);
    forall i | 0 <= i < |r|
      ensures !IsAsciiUpper(r[i])
    {
      SubstituteKeepsCharacters(s, matchLen, r[i]);
    }
  }

  /** On a string without capitals the retweet step changes nothing: its pattern needs a capital `R`. */
  lemma RetweetStepIdentityOnLowercase(s: string)
    requires IsLowercase(s)
    ensures RemoveRetweets(s) == s
  {
    forall i | 0 <= i < |s|
      ensures !MatchesAtStart(s[i..], RetweetLen)
    {
      assert s[i..][0] == s[i];
    }
    SubstituteWithoutMatch(s, RetweetLen);
  }

  /** The string reaching step 4 is always lower case. */
  lemma RetweetStepInputIsLowercase(t: string)
    ensures IsLowercase(StripHashtags(RemoveMentions(Lower(t))))
  {
    SubstituteKeepsLowercase(Lower(t), MentionLen);
    SubstituteKeepsLowercase(RemoveMentions(Lower(t)), HashLen);
  }

  /** Cleaning is the same with step 4 left out: the retweet removal never fires. */
  lemma CleanTweetSkipsRetweetStep(t: string)
    ensures CleanTweet(t) == RemoveImageLinks(RemoveLinks(StripHashtags(RemoveMentions(Lower(t)))))
  {
    RetweetStepInputIsLowercase(t);
    RetweetStepIdentityOnLowercase(StripHashtags(RemoveMentions(Lower(t))));
  }

  // ---------------------------------------------------------------------------
  // Step 5: no complete link survives.
  // ---------------------------------------------------------------------------

  /** Every remaining `http://` or `https://` is followed by whitespace or the end of the string. */
  predicate NoLink(r: string) {
    && (forall i :: 0 <= i < |r| && StartsWith(r[i..], "http://") ==> i + 7 == |r| || IsSpace(r[i + 7]))
    && (forall i :: 0 <= i < |r| && StartsWith(r[i..], "https://") ==> i + 8 == |r| || IsSpace(r[i + 8]))
  }

  /** Only an 'h' can begin a link. */
  predicate IsLinkStart(c: char) {
    c == 'h'
  }

  /** Links begin with 'h' and end right before whitespace or at the end of the string. */
  lemma LinkMatchShape()
    ensures StartsOnly(LinkLen, IsLinkStart)
    ensures EndsBefore(LinkLen, IsSpace)
  {
    forall t: string | MatchesAtStart(t, LinkLen)
      ensures IsLinkStart(t[0])
    {
      assert t[..4][0] == t[0];
    }
  }

  /** The link matcher finds nothing at any position of `r`. */
  predicate NoLinkMatch(r: string) {
    forall i :: 0 <= i < |r| ==> LinkLen(r[i..]) == 0
  }

  /** After its leading 'h' a scheme holds neither another 'h' nor whitespace. */
  lemma SchemeTailIsPlain(scheme: string)
    requires scheme == "http://" || scheme == "https://"
    ensures var tail := scheme[1..]; forall j :: 0 <= j < |tail| ==> !IsLinkStart(tail[j]) && !IsSpace(tail[j])
  {
  }

  /** A string that starts with the scheme found at the head of `t` has that same scheme. */
  lemma SchemeLenOfPrefix(s: string, t: string)
    requires SchemeLen(t) > 0
    requires StartsWith(s, t[..SchemeLen(t)])
    ensures SchemeLen(s) == SchemeLen(t)
  {
    if SchemeLen(t) == 8 {
      assert s[4] == t[4] == 's';
    }
  }

  /** The link step never leaves a complete link at the head of its output. */
  lemma LinkStepHeadIsNotLink(s: string)
    requires |s| > 0 && !MatchesAtStart(s, LinkLen)
    ensures LinkLen(RemoveLinks(s)) == 0
  {
    var u := s[1..];
    var ru := RemoveLinks(u);
    var r := RemoveLinks(s);
    assert r == [s[0]] + ru;
    var n := SchemeLen(r);
    if LinkLen(r) > 0 {
      var scheme := r[..n];
      assert scheme == "http://" || scheme == "https://";
      StartsWithTail(s[0], ru, scheme);
      LinkMatchShape();
      var tail := scheme[1..];
      SchemeTailIsPlain(scheme);
      SubstituteKeepsPrefix(u, LinkLen, IsLinkStart, IsSpace, tail);
      StartsWithCons(s, scheme);
      SchemeLenOfPrefix(s, r);
      assert false;
    }
  }

  /** The link matcher finds nothing anywhere in the link step's output. */
  lemma {:induction false} LinkStepLeavesNoLinkMatch(s: string)
    ensures NoLinkMatch(RemoveLinks(s))
    decreases |s|
  {
    if |s| > 0 {
      if MatchesAtStart(s, LinkLen) {
        LinkStepLeavesNoLinkMatch(s[LinkLen(s)..]);
      } else {
        var u := s[1..];
        var r := RemoveLinks(s);
        LinkStepLeavesNoLinkMatch(u);
        assert r == [s[0]] + RemoveLinks(u);
        LinkStepHeadIsNotLink(s);
        forall i | 0 <= i < |r|
          ensures LinkLen(r[i..]) == 0
        {
          if i > 0 {
            assert r[i..] == RemoveLinks(u)[i - 1..];
          }
        }
      }
    }
  }

  /** After the link step every remaining scheme is followed by whitespace or the end of the string. */
  lemma LinkStepLeavesNoLink(s: string)
    ensures NoLink(RemoveLinks(s))
  {
    var r := RemoveLinks(s);
    LinkStepLeavesNoLinkMatch(s);
    forall i | 0 <= i < |r| && StartsWith(r[i..], "http://")
      ensures i + 7 == |r| || IsSpace(r[i + 7])
    {
      assert LinkLen(r[i..]) == 0;
      if i + 7 != |r| {
        assert r[i..][7] == r[i + 7];
      }
    }
    forall i | 0 <= i < |r| && StartsWith(r[i..], "https://")
      ensures i + 8 == |r| || IsSpace(r[i + 8])
    {
      assert LinkLen(r[i..]) == 0;
      if i + 8 != |r| {
        assert r[i..][8] == r[i + 8];
      }
    }
  }

  // ---------------------------------------------------------------------------
  // Step 6: only whole image links are removed.
  // ---------------------------------------------------------------------------

  /** Text in which no image link starts anywhere passes through the image step unchanged. */
  lemma ImageStepWithoutLink(s: string)
    requires forall j :: 0 <= j < |s| ==> ImageLinkLen(s[j..]) == 0
    ensures RemoveImageLinks(s) == s
  {
    SubstituteWithoutMatch(s, ImageLinkLen);
  }

  /**
   * The text before the first image link is kept verbatim, the link itself (all 26
   * characters) is deleted, and the step resumes right after it.
   */
  lemma ImageStepKeepsTextBeforeLink(s: string, i: nat)
    requires i < |s| && ImageLinkLen(s[i..]) > 0
    requires forall j :: 0 <= j < i ==> ImageLinkLen(s[j..]) == 0
    ensures RemoveImageLinks(s) == s[..i] + RemoveImageLinks(s[i + ImageLinkLength..])
  {
    SubstituteAtFirstMatch(s, ImageLinkLen, i);
  }

  /** One more removed link keeps the removed length a whole number of links. */
  lemma OneMoreLink(d: int)
    requires d % ImageLinkLength == 0
    ensures (ImageLinkLength + d) % ImageLinkLength == 0
  {
  }

  /** The image step shortens the text by a whole number of 26-character links. */
  lemma {:induction false} ImageStepRemovesWholeLinks(s: string)
    ensures (|s| - |RemoveImageLinks(s)|) % ImageLinkLength == 0
    decreases |s|
  {
    if |s| > 0 {
      var r := RemoveImageLinks(s);
      if MatchesAtStart(s, ImageLinkLen) {
        var t := s[ImageLinkLength..];
        ImageStepRemovesWholeLinks(t);
        var d := |t| - |RemoveImageLinks(t)|;
        assert r == RemoveImageLinks(t);
        assert |s| - |r| == ImageLinkLength + d;
        OneMoreLink(d);
        assert (|s| - |r|) % ImageLinkLength == 0;
      } else {
        ImageStepRemovesWholeLinks(s[1..]);
        var d := |s[1..]| - |RemoveImageLinks(s[1..])|;
        assert |s| - |r| == d;
        assert (|s| - |r|) % ImageLinkLength == 0;
      }
    }
  }

  /** A host followed by a tail shorter than one character and ten alphanumerics stays. */
  lemma ImageStepKeepsShortTail()
    ensures RemoveImageLinks("pic.twitter.com/abc") == "pic.twitter.com/abc"
  {
    var s := "pic.twitter.com/abc";
    forall i | 0 <= i < |s|
      ensures !MatchesAtStart(s[i..], ImageLinkLen)
    {
    }
    SubstituteWithoutMatch(s, ImageLinkLen);
  }

  /** A complete image link at the head of a string is removed, whatever follows it. */
  lemma ImageStepDropsLeadingLink(link: string, rest: string)
    requires |link| == ImageLinkLength && ImageLinkLen(link) > 0
    ensures RemoveImageLinks(link + rest) == RemoveImageLinks(rest)
  {
    var s := link + rest;
    assert s[..|ImageHost|] == link[..|ImageHost|];
    assert forall j :: 0 <= j < ImageLinkLength ==> s[j] == link[j];
    assert ImageLinkLen(s) == ImageLinkLength;
    assert s[ImageLinkLength..] == rest;
  }

  // ---------------------------------------------------------------------------
  // The whole pipeline.
  // ---------------------------------------------------------------------------

  /** With ASCII case folding a cleaned tweet is never longer than the raw one. */
  lemma CleanTweetNotLonger(t: string)
    ensures |CleanTweet(t)| <= |t|
  {
  }

  /** Steps 3b to 6 leave a lower-case string without '_', scheme or image host alone. */
  lemma LaterStepsUnchanged(s: string)
    requires IsLowercase(s)
    requires '_' !in s
    requires forall i :: 0 <= i < |s| ==> !StartsWith(s[i..], "http")
    requires forall i :: 0 <= i < |s| ==> !StartsWith(s[i..], ImageHost)
    ensures RemoveImageLinks(RemoveLinks(RemoveRetweets(ReplaceUnderscores(s)))) == s
  {
    forall i | 0 <= i < |s|
      ensures !MatchesAtStart(s[i..], LinkLen) && !MatchesAtStart(s[i..], ImageLinkLen)
    {
      assert s[i..][0] == s[i];
    }
    RetweetStepIdentityOnLowercase(s);
    SubstituteWithoutMatch(s, LinkLen);
    SubstituteWithoutMatch(s, ImageLinkLen);
  }

  /** A lower-case tweet with nothing the patterns target is returned unchanged. */
  lemma CleanTweetUnchanged(s: string)
    requires IsLowercase(s)
    requires '@' !in s && '#' !in s && '_' !in s
    requires forall i :: 0 <= i < |s| ==> !StartsWith(s[i..], "http")
    requires forall i :: 0 <= i < |s| ==> !StartsWith(s[i..], ImageHost)
    ensures CleanTweet(s) == s
  {
    forall i | 0 <= i < |s|
      ensures !MatchesAtStart(s[i..], MentionLen) && !MatchesAtStart(s[i..], HashLen)
    {
      assert s[i..][0] == s[i];
    }
    SubstituteWithoutMatch(s, MentionLen);
    SubstituteWithoutMatch(s, HashLen);
    LaterStepsUnchanged(s);
  }

  /** Cleaning starts by lower-casing, so a tweet and its lower-cased form clean alike. */
  lemma CleanTweetIgnoresCase(t: string)
    ensures CleanTweet(Lower(t)) == CleanTweet(t)
  {
  }

  /** The first pass over `@#word`: the mention step keeps the at-sign, the hashtag step joins it to the word. */
  lemma AtHashWordFirstSteps(w: string)
    requires forall i :: 0 <= i < |w| ==> IsAsciiAlnum(w[i]) && !IsAsciiUpper(w[i])
    ensures StripHashtags(RemoveMentions(Lower("@#" + w))) == "@" + w
  {
    var s := "@#" + w;
    assert IsLowercase(s);
    forall i | 0 <= i < |s|
      ensures !MatchesAtStart(s[i..], MentionLen)
    {
      assert s[i..][0] == s[i];
      if i == 0 {
        assert s[i..][1] == '#';
      }
    }
    SubstituteWithoutMatch(s, MentionLen);
    forall i | 0 <= i < |w|
      ensures !MatchesAtStart(w[i..], HashLen)
    {
      assert w[i..][0] == w[i];
    }
    SubstituteWithoutMatch(w, HashLen);
    assert !MatchesAtStart(s, HashLen);
    assert s[1..][0] == '#' && s[1..][1..] == w;
    assert RemoveHashes(s[1..]) == w;
    assert RemoveHashes(s) == "@" + w;
  }

  /** The second pass over `@word` deletes it as a mention. */
  lemma AtWordIsMention(w: string)
    requires |w| > 0
    requires forall i :: 0 <= i < |w| ==> IsAsciiAlnum(w[i]) && !IsAsciiUpper(w[i])
    ensures CleanTweet("@" + w) == ""
  {
    var t := "@" + w;
    assert IsLowercase(t);
    assert RunLength(w, IsAsciiAlnum) == |w|;
    assert t[1..] == w;
    assert MentionLen(t) == |t|;
    assert t[|t|..] == "";
    assert RemoveMentions(t) == "";
    assert ReplaceUnderscores("") == "";
  }

  /** The image host contains a '.', so it occurs nowhere in an alphanumeric word. */
  lemma AlnumWordHasNoImageHost(w: string)
    requires forall i :: 0 <= i < |w| ==> IsAsciiAlnum(w[i])
    ensures forall i :: 0 <= i < |w| ==> !StartsWith(w[i..], ImageHost)
  {
    forall i | 0 <= i < |w|
      ensures !StartsWith(w[i..], ImageHost)
    {
      if i + 3 < |w| {
        assert w[i..][3] == w[i + 3] != ImageHost[3];
      }
    }
  }

  /** Both schemes contain ':', so no link starts anywhere in a text without one. */
  lemma NoColonNoLink(s: string)
    requires ':' !in s
    ensures forall i :: 0 <= i < |s| ==> !MatchesAtStart(s[i..], LinkLen)
  {
    forall i | 0 <= i < |s|
      ensures SchemeLen(s[i..]) == 0
    {
      if i + 5 < |s| {
        assert s[i..][4] == s[i + 4] != ':' && s[i..][5] == s[i + 5] != ':';
      } else if i + 4 < |s| {
        assert s[i..][4] == s[i + 4] != ':';
      }
    }
  }

  /**
   * Cleaning is not idempotent: in `@#word` the at-sign is followed by '#', so the mention
   * step keeps it; deleting '#' then joins it to the word, and a second pass removes both.
   */
  lemma CleanTweetNotIdempotent(w: string)
    requires |w| > 0
    requires forall i :: 0 <= i < |w| ==> IsAsciiAlnum(w[i]) && !IsAsciiUpper(w[i])
    ensures CleanTweet("@#" + w) == "@" + w
    ensures CleanTweet("@" + w) == ""
  {
    var t := "@" + w;
    AtHashWordFirstSteps(w);
    AlnumWordHasNoImageHost(w);
    assert IsLowercase(t) && '_' !in t && ':' !in t;
    forall i | 0 <= i < |t|
      ensures !MatchesAtStart(t[i..], ImageLinkLen)
    {
      if i == 0 {
        HeadMismatch(t, ImageHost);
      } else {
        assert t[i..] == w[i - 1..];
      }
    }
    NoColonNoLink(t);
    RetweetStepIdentityOnLowercase(t);
    SubstituteWithoutMatch(t, LinkLen);
    SubstituteWithoutMatch(t, ImageLinkLen);
    AtWordIsMention(w);
  }

  // ---------------------------------------------------------------------------
  // Retweets as evidently intended: the retweet step before lower-casing.
  // ---------------------------------------------------------------------------

  /** The pipeline with the retweet step moved ahead of lower-casing, so that an upper-case `RT` can still match. */
  function CleanTweetRetweetFirst(t: string): (r: string) {
    RemoveImageLinks(RemoveLinks(StripHashtags(RemoveMentions(Lower(RemoveRetweets(t))))))
  }

  /** A one-line retweet is cleaned away entirely by the reordered pipeline. */
  lemma RetweetFirstDropsRetweet(t: string)
    requires |t| >= 4 && t[0] == 'R' && t[1] == 'T' && IsSpace(t[2])
    requires forall j :: 3 <= j < |t| ==> t[j] != '\n'
    ensures CleanTweetRetweetFirst(t) == ""
  {
    assert RetweetLen(t) == |t|;
    assert t[|t|..] == "";
    assert RemoveRetweets(t) == "";
    assert Lower("") == "";
    assert ReplaceUnderscores("") == "";
  }

  /** On a tweet without a retweet marker the reordered pipeline agrees with the one in the source. */
  lemma RetweetFirstAgreesWithoutRetweet(t: string)
    requires forall i :: 0 <= i < |t| ==> !MatchesAtStart(t[i..], RetweetLen)
    ensures CleanTweetRetweetFirst(t) == CleanTweet(t)
  {
    SubstituteWithoutMatch(t, RetweetLen);
    CleanTweetSkipsRetweetStep(t);
  }

  /** A character that can begin a match of one of the cleaning patterns. */
  predicate IsMarker(c: char) {
    c == '@' || c == '#' || c == 'R' || c == 'h' || c == 'p'
  }

  /** Every pattern of the cleaner begins with a marker character. */
  lemma MatchesStartAtMarkers()
    ensures StartsOnly(MentionLen, IsMarker) && StartsOnly(HashLen, IsMarker) && StartsOnly(RetweetLen, IsMarker)
    ensures StartsOnly(LinkLen, IsMarker) && StartsOnly(ImageLinkLen, IsMarker)
  {
    forall t: string | MatchesAtStart(t, ImageLinkLen)
      ensures t[0] == 'p'
    {
      assert t[..15][0] == t[0];
    }
  }

  /** The retweet step of the source is dead code: a one-line retweet keeps its marker, lower-cased, while the reordered pipeline removes the whole line. */
  lemma CleanTweetKeepsRetweet(t: string)
    requires |t| >= 4 && t[0] == 'R' && t[1] == 'T' && IsSpace(t[2])
    requires forall j :: 3 <= j < |t| ==> t[j] != '\n'
    ensures StartsWith(CleanTweet(t), "rt")
    ensures CleanTweetRetweetFirst(t) == ""
  {
    var rt := "rt";
    var a := Lower(t);
    assert a[..2] == rt;
    MatchesStartAtMarkers();
    SubstituteKeepsPlainPrefix(a, MentionLen, IsMarker, rt);
    var b := RemoveMentions(a);
    SubstituteKeepsPlainPrefix(b, HashLen, IsMarker, rt);
    var c := StripHashtags(b);
    assert c[..2] == RemoveHashes(b)[..2];
    SubstituteKeepsPlainPrefix(c, RetweetLen, IsMarker, rt);
    var d := RemoveRetweets(c);
    SubstituteKeepsPlainPrefix(d, LinkLen, IsMarker, rt);
    SubstituteKeepsPlainPrefix(RemoveLinks(d), ImageLinkLen, IsMarker, rt);
    RetweetFirstDropsRetweet(t);
  }
}
