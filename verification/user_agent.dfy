/**
 The gate's user-agent heuristic `basicHeaderChecks` (functions/_middleware.js:6, 14-19).
 Each regular expression of the source is a case-insensitive test without the `u`
 flag. In that mode no non-ASCII character folds to an ASCII one, and every pattern
 here is ASCII, so folding ASCII letters is exact; `\b` sees only `[A-Za-z0-9_]` as
 word characters. The allow-list pattern, which has no anchors, becomes the finite list
 of the literal strings its alternatives and optional groups expand to.
 */
module UserAgent {
  import opened Text

  /** The known-good crawler list: the alternatives of the allow-list pattern in source
      order, with `google(?:bot|other|-extended|favicon|storebot|apis?)`,
      `(?:baidu|sogou)spider`, `yandex(?:bot)?` and `linkedin(?:bot)?` written out, and
      grouped by kind of fetcher. */
  const GOOD_BOTS: seq<string> :=
    GOOGLE_BOTS + SEARCH_BOTS + PREVIEW_BOTS + AI_BOTS + SEO_BOTS + MONITOR_BOTS

  const GOOGLE_BOTS: seq<string> := [
    "googlebot", "googleother", "google-extended", "googlefavicon", "googlestorebot",
    "googleapi", "googleapis", "adsbot-google", "mediapartners-google"
  ]

  const SEARCH_BOTS: seq<string> := [
    "bingbot", "duckduckbot", "baiduspider", "sogouspider", "yandexbot", "yandex",
    "slurp", "exabot", "qwantify", "seznambot", "petalbot"
  ]

  const PREVIEW_BOTS: seq<string> := [
    "facebot", "facebookexternalhit", "twitterbot", "pinterest", "linkedinbot", "linkedin",
    "telegrambot", "slackbot", "discordbot", "whatsapp", "skypeuripreview", "embedly"
  ]

  const AI_BOTS: seq<string> := [
    "gptbot", "google-extended", "bytespider", "perplexitybot", "anthropic-ai", "claudebot",
    "applebot", "amazonbot"
  ]

  const SEO_BOTS: seq<string> := [
    "ia_archiver", "ahrefsbot", "semrushbot", "mj12bot", "dotbot", "blexbot"
  ]

  const MONITOR_BOTS: seq<string> := [
    "pingdom", "uptimerobot", "statuscake", "site24x7", "newrelicpinger"
  ]

  /** Headless-browser automation signatures. */
  const HEADLESS: seq<string> := ["headlesschrome", "headlessfirefox"]

  /** The words that mark a self-declared robot when they stand alone. */
  const BOT_WORDS: seq<string> := ["bot", "crawler", "spider"]

  /** Some token of the list occurs in `ua`, ignoring case. */
  ghost predicate MatchesList(ua: string, tokens: seq<string>)
  {
    exists k, i :: 0 <= k < |tokens| && OccursAt(tokens[k], ua, i)
  }

  /** The regular expression made of `tokens` as alternatives, tested against `ua`. */
  function AnyToken(ua: string, tokens: seq<string>): (r: bool)
    ensures r <==> MatchesList(ua, tokens)
    decreases |tokens|
  {
    if |tokens| == 0 then false
    else if Contains(ua, tokens[0]) then
      assert exists i :: OccursAt(tokens[0], ua, i);
      true
    else
      var r := AnyToken(ua, tokens[1..]);
      assert r ==> MatchesList(ua, tokens) by {
        if r {
          var k, i :| 0 <= k < |tokens[1..]| && OccursAt(tokens[1..][k], ua, i);
          assert tokens[1..][k] == tokens[k + 1];
        }
      }
      assert MatchesList(ua, tokens) ==> r by {
        if MatchesList(ua, tokens) {
          var k, i :| 0 <= k < |tokens| && OccursAt(tokens[k], ua, i);
          assert k != 0;
          assert tokens[k] == tokens[1..][k - 1];
        }
      }
      r
  }

  /** `\w` of a regular expression without the `u` flag. */
  predicate IsWordChar(c: char)
  {
    ('a' <= c <= 'z') || ('A' <= c <= 'Z') || ('0' <= c <= '9') || c == '_'
  }

  /** `\bw\b` matches `s` at offset `i`: `w` occurs there, ignoring case, and neither
      neighbour of the occurrence is a word character. */
  ghost predicate WordAt(w: string, s: string, i: int)
  {
    && OccursAt(w, s, i)
    && (i == 0 || !IsWordChar(s[i - 1]))
    && (i + |w| == |s| || !IsWordChar(s[i + |w|]))
  }

  /** `/\b(bot|crawler|spider)\b/i.test(s)`. */
  ghost predicate HasBotWord(s: string)
  {
    exists k, i :: 0 <= k < |BOT_WORDS| && WordAt(BOT_WORDS[k], s, i)
  }

  function WordAtOffset(w: string, s: string, i: nat): (r: bool)
    ensures r <==> WordAt(w, s, i)
  {
    && i + |w| <= |s|
    && FoldEq(s[i..i + |w|], w)
    && (i == 0 || !IsWordChar(s[i - 1]))
    && (i + |w| == |s| || !IsWordChar(s[i + |w|]))
  }

  /** One of the three words stands alone at offset `i`. */
  function BotWordAtOffset(s: string, i: nat): (r: bool)
    ensures r <==> exists k :: 0 <= k < |BOT_WORDS| && WordAt(BOT_WORDS[k], s, i)
  {
    WordAtOffset(BOT_WORDS[0], s, i) || WordAtOffset(BOT_WORDS[1], s, i) || WordAtOffset(BOT_WORDS[2], s, i)
  }

  /** The regular-expression search from offset `from` onwards. */
  function BotWordFrom(s: string, from: nat): (r: bool)
    ensures r <==> exists k, i :: from <= i && 0 <= k < |BOT_WORDS| && WordAt(BOT_WORDS[k], s, i)
    decreases |s| - from
  {
    if from >= |s| then
      assert forall k, i :: from <= i && 0 <= k < |BOT_WORDS| ==> !WordAt(BOT_WORDS[k], s, i) by {
        forall k, i | from <= i && 0 <= k < |BOT_WORDS| ensures !WordAt(BOT_WORDS[k], s, i) {
          assert |BOT_WORDS[k]| > 0;
        }
      }
      false
    else if BotWordAtOffset(s, from) then
      true
    else
      var r := BotWordFrom(s, from + 1);
      assert forall k, i :: from <= i && 0 <= k < |BOT_WORDS| && WordAt(BOT_WORDS[k], s, i) ==> from + 1 <= i;
      r
  }

  /** `basicHeaderChecks(ua)`: true lets the request pass, false rejects it. The
      allow-list is consulted first and overrides both deny rules. */
  function BasicHeaderChecks(ua: string): (pass: bool)
    ensures MatchesList(ua, GOOD_BOTS) ==> pass
    ensures !MatchesList(ua, GOOD_BOTS) ==> (pass <==> !MatchesList(ua, HEADLESS) && !HasBotWord(ua))
  {
    if AnyToken(ua, GOOD_BOTS) then true
    else if AnyToken(ua, HEADLESS) then false
    else if BotWordFrom(ua, 0) then false
    else true
  }

  /** A user agent that is absent (read as `""`) passes. */
  lemma EmptyUserAgentPasses()
    ensures BasicHeaderChecks("")
  {
    assert !MatchesList("", HEADLESS) by {
      forall k, i | 0 <= k < |HEADLESS| ensures !OccursAt(HEADLESS[k], "", i) {
        assert |HEADLESS[k]| > 0;
      }
    }
    assert !HasBotWord("") by {
      forall k, i | 0 <= k < |BOT_WORDS| ensures !WordAt(BOT_WORDS[k], "", i) {
        assert |BOT_WORDS[k]| > 0;
      }
    }
  }

  /** Google's crawler passes although its user agent also carries `bot` as a word. */
  lemma GooglebotPassesDespiteBotWord()
    ensures HasBotWord("Googlebot/2.1 (+bot)")
    ensures BasicHeaderChecks("Googlebot/2.1 (+bot)")
  {
    var ua := "Googlebot/2.1 (+bot)";
    assert OccursAt(GOOD_BOTS[0], ua, 0) by {
      assert GOOD_BOTS[0] == "googlebot";
      assert ua[0..9] == "Googlebot";
      assert FoldEq("Googlebot", "googlebot");
    }
    assert WordAt(BOT_WORDS[0], ua, 16) by {
      assert BOT_WORDS[0] == "bot";
      assert ua[16..19] == "bot";
      assert FoldEq("bot", "bot");
      assert ua[15] == '+' && ua[19] == ')';
    }
  }
}
