/** The user-agent classifier: a first-match, case-insensitive substring test
    that maps a client's descriptor string to one of five platform labels. */
module Platform {

  /** ASCII lower-casing of one character. A JavaScript regular expression
      with the `i` flag and without `u` folds case through upper-casing and
      never folds a non-ASCII character onto an ASCII one, so for the
      all-ASCII patterns below ASCII folding is the whole story. */
  function LowerChar(c: char): char
  {
    if 'A' <= c <= 'Z' then (c as int + 32) as char else c
  }

  function Lower(s: string): string
  {
    seq(|s|, i requires 0 <= i < |s| => LowerChar(s[i]))
  }

  /** `pattern` occurs in `s` starting at position `i`. */
  ghost predicate OccursAt(s: string, pattern: string, i: int)
  {
    0 <= i && i + |pattern| <= |s| && s[i..i + |pattern|] == pattern
  }

  /** The regular-expression test `/pattern/i.test(s)` for a lower-case literal pattern. */
  ghost predicate Mentions(s: string, pattern: string)
  {
    exists i :: OccursAt(Lower(s), pattern, i)
  }

  /** A left-to-right substring search. */
  predicate Contains(s: string, pattern: string)
    decreases |s|
  {
    (|pattern| <= |s| && s[..|pattern|] == pattern) || (|s| > 0 && Contains(s[1..], pattern))
  }

  /** The search finds `pattern` exactly when it occurs somewhere in `s`. */
  lemma {:induction false} ContainsIffOccurs(s: string, pattern: string)
    ensures Contains(s, pattern) <==> exists i :: OccursAt(s, pattern, i)
    decreases |s|
  {
    if |pattern| <= |s| && s[..|pattern|] == pattern {
      assert OccursAt(s, pattern, 0);
    } else if |s| > 0 {
      ContainsIffOccurs(s[1..], pattern);
      if Contains(s[1..], pattern) {
        var i :| OccursAt(s[1..], pattern, i);
        assert s[1..][i..i + |pattern|] == s[i + 1..i + 1 + |pattern|];
        assert OccursAt(s, pattern, i + 1);
      } else {
        forall i | OccursAt(s, pattern, i)
          ensures false
        {
          assert i != 0;
          assert s[1..][i - 1..i - 1 + |pattern|] == s[i..i + |pattern|];
          assert OccursAt(s[1..], pattern, i - 1);
        }
      }
    } else {
      forall i | OccursAt(s, pattern, i)
        ensures false
      {
      }
    }
  }

  predicate Matches(userAgent: string, pattern: string)
  {
    Contains(Lower(userAgent), pattern)
  }

  lemma MatchesIffMentions(userAgent: string, pattern: string)
    ensures Matches(userAgent, pattern) <==> Mentions(userAgent, pattern)
  {
    ContainsIffOccurs(Lower(userAgent), pattern);
  }

  const Labels: set<string> := {"Windows", "Android", "iOS", "MacOS", "Unknown"}

  /** `getPlatform`: the first rule that matches decides the label. */
  function GetPlatform(userAgent: string): (platform: string)
    ensures platform in Labels
  {
    if Matches(userAgent, "windows") then "Windows"
    else if Matches(userAgent, "android") then "Android"
    else if Matches(userAgent, "iphone") || Matches(userAgent, "ipad") || Matches(userAgent, "ipod") then "iOS"
    else if Matches(userAgent, "macintosh") then "MacOS"
    else "Unknown"
  }

  ghost predicate MentionsApple(userAgent: string)
  {
    Mentions(userAgent, "iphone") || Mentions(userAgent, "ipad") || Mentions(userAgent, "ipod")
  }

  lemma MatchesAll(userAgent: string)
    ensures Matches(userAgent, "windows") <==> Mentions(userAgent, "windows")
    ensures Matches(userAgent, "android") <==> Mentions(userAgent, "android")
    ensures Matches(userAgent, "iphone") <==> Mentions(userAgent, "iphone")
    ensures Matches(userAgent, "ipad") <==> Mentions(userAgent, "ipad")
    ensures Matches(userAgent, "ipod") <==> Mentions(userAgent, "ipod")
    ensures Matches(userAgent, "macintosh") <==> Mentions(userAgent, "macintosh")
  {
    MatchesIffMentions(userAgent, "windows");
    MatchesIffMentions(userAgent, "android");
    MatchesIffMentions(userAgent, "iphone");
    MatchesIffMentions(userAgent, "ipad");
    MatchesIffMentions(userAgent, "ipod");
    MatchesIffMentions(userAgent, "macintosh");
  }

  /** Any descriptor that mentions "windows", in any case, is Windows, whatever else it says. */
  lemma WindowsRule(userAgent: string)
    ensures GetPlatform(userAgent) == "Windows" <==> Mentions(userAgent, "windows")
  {
    MatchesAll(userAgent);
  }

  /** Android needs "android" and no "windows". */
  lemma AndroidRule(userAgent: string)
    ensures GetPlatform(userAgent) == "Android" <==>
      !Mentions(userAgent, "windows") && Mentions(userAgent, "android")
  {
    MatchesAll(userAgent);
  }

  /** iOS needs one of "iphone", "ipad", "ipod" and neither earlier pattern;
      a "macintosh" alongside does not change it. */
  lemma IOSRule(userAgent: string)
    ensures GetPlatform(userAgent) == "iOS" <==>
      !Mentions(userAgent, "windows") && !Mentions(userAgent, "android") && MentionsApple(userAgent)
  {
    MatchesAll(userAgent);
  }

  /** MacOS needs the full string "macintosh" (not just "mac") and none of the
      earlier patterns. */
  lemma MacOSRule(userAgent: string)
    ensures GetPlatform(userAgent) == "MacOS" <==>
      !Mentions(userAgent, "windows") && !Mentions(userAgent, "android") && !MentionsApple(userAgent)
      && Mentions(userAgent, "macintosh")
  {
    MatchesAll(userAgent);
  }

  /** A descriptor that mentions none of the patterns is Unknown, and only such a one. */
  lemma UnknownRule(userAgent: string)
    ensures GetPlatform(userAgent) == "Unknown" <==>
      !Mentions(userAgent, "windows") && !Mentions(userAgent, "android") && !MentionsApple(userAgent)
      && !Mentions(userAgent, "macintosh")
  {
    MatchesAll(userAgent);
  }

  /** Two descriptors that differ only in the case of ASCII letters get the same label. */
  lemma CaseInsensitive(s: string, t: string)
    requires |s| == |t|
    requires forall i :: 0 <= i < |s| ==> LowerChar(s[i]) == LowerChar(t[i])
    ensures GetPlatform(s) == GetPlatform(t)
  {
    assert Lower(s) == Lower(t);
  }

  /** A pattern with a character the text lacks cannot occur in it. */
  lemma MissingCharacter(s: string, pattern: string, c: char)
    requires c in pattern && c !in s
    ensures !Contains(s, pattern)
  {
    ContainsIffOccurs(s, pattern);
  }

  /** "mac" on its own is not enough for MacOS. */
  lemma MacWithoutMacintosh()
    ensures GetPlatform("Mac OS X") == "Unknown"
  {
    var lower := Lower("Mac OS X");
    LacksLetters(lower, "Mac OS X");
    MissingCharacter(lower, "windows", 'w');
    MissingCharacter(lower, "android", 'n');
    MissingCharacter(lower, "iphone", 'i');
    MissingCharacter(lower, "ipad", 'i');
    MissingCharacter(lower, "ipod", 'i');
    MissingCharacter(lower, "macintosh", 'i');
  }

  lemma LacksLetters(lower: string, s: string)
    requires s == "Mac OS X" && lower == Lower(s)
    ensures 'w' !in lower && 'n' !in lower && 'i' !in lower
  {
    assert lower == "mac os x";
  }

  /** A Windows desktop browser is labelled Windows. */
  lemma WindowsDesktopExample()
    ensures GetPlatform("Mozilla/5.0 (Windows NT 10.0)") == "Windows"
  {
    var s := "Mozilla/5.0 (Windows NT 10.0)";
    assert Lower(s)[13..20] == "windows";
    assert OccursAt(Lower(s), "windows", 13);
    ContainsIffOccurs(Lower(s), "windows");
  }
}
