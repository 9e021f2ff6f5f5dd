/** The two small text helpers of the site generator: `tidyURL` and the `trimString` template helper. */
module Helpers {

  /** A code unit the expression `[^a-zA-Z0-9-_]` does not match. */
  predicate UrlSafe(c: char) {
    ('a' <= c <= 'z') || ('A' <= c <= 'Z') || ('0' <= c <= '9') || c == '-' || c == '_'
  }

  /** `tidyURL(text)`: every code unit other than a letter, digit, '-' or '_' replaced by '_'. */
  function TidyURL(text: string): (r: string)
    ensures |r| == |text|
  {
    if text == [] then []
    else [if UrlSafe(text[0]) then text[0] else '_'] + TidyURL(text[1..])
  }

  /** Each position keeps its code unit when it is URL-safe and holds '_' otherwise. */
  lemma {:induction false} TidyURLAt(text: string, i: nat)
    requires i < |text|
    ensures TidyURL(text)[i] == if UrlSafe(text[i]) then text[i] else '_'
  {
    if i > 0 {
      TidyURLAt(text[1..], i - 1);
    }
  }

  /** A text made only of URL-safe code units is its own tidy form. */
  lemma {:induction false} TidyURLOfSafe(text: string)
    requires forall i :: 0 <= i < |text| ==> UrlSafe(text[i])
    ensures TidyURL(text) == text
  {
    if text != [] {
      TidyURLOfSafe(text[1..]);
    }
  }

  /** Tidying twice is tidying once. */
  lemma TidyURLIdempotent(text: string)
    ensures TidyURL(TidyURL(text)) == TidyURL(text)
  {
    forall i | 0 <= i < |text| ensures UrlSafe(TidyURL(text)[i]) {
      TidyURLAt(text, i);
    }
    TidyURLOfSafe(TidyURL(text));
  }

  /**
   * The `trimString` helper: a string longer than `count` is cut to its
   * first `count` code units and "..." is appended; `substring` clamps a
   * negative `count` to 0.
   */
  function TrimString(s: string, count: int): (r: string)
    ensures |s| <= count ==> r == s
    ensures |s| > count ==> |r| == (if count < 0 then 0 else count) + 3 && r[|r| - 3..] == "..."
    ensures |s| > count ==> r[..|r| - 3] == s[..|r| - 3]
  {
    if |s| > count then s[..if count < 0 then 0 else count] + "..." else s
  }

  /** Applying the helper to its own output changes nothing. */
  lemma TrimStringIdempotent(s: string, count: int)
    ensures TrimString(TrimString(s, count), count) == TrimString(s, count)
  {
    var r := TrimString(s, count);
    if |s| > count {
      var n := if count < 0 then 0 else count;
      assert r[..n] == s[..n];
    }
  }
}
