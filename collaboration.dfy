/**
 * The comment box and notification bell (static/js/collaboration.js):
 * @-mention detection and insertion, the rendering of comment text and
 * timestamps, the unread badge, the roadmap id taken from the page, and
 * the state of the comment box across input events.
 */
module Collaboration {
  import opened Wrappers
  import opened Text

  predicate AllWord(s: string) { forall i :: 0 <= i < |s| ==> IsWordChar(s[i]) }

  // ---------------------------------------------------------------------------
  // Mention detection
  // ---------------------------------------------------------------------------

  /** The length of the longest run of word characters at the end of s. */
  function TrailingWordRun(s: string): (n: nat)
    ensures n <= |s|
    ensures forall i :: |s| - n <= i < |s| ==> IsWordChar(s[i])
    ensures n < |s| ==> !IsWordChar(s[|s| - n - 1])
  {
    if |s| > 0 && IsWordChar(s[|s| - 1]) then 1 + TrailingWordRun(s[..|s| - 1]) else 0
  }

  /**
   * textBeforeCursor.match(/@(\w*)$/): the (possibly empty) run of word
   * characters closing the text, when an '@' stands right before it.
   */
  function MentionMatch(s: string): (q: Option<string>)
    ensures q.Some? ==> AllWord(q.value) && |q.value| < |s|
                        && s == s[..|s| - |q.value| - 1] + "@" + q.value
  {
    var n := TrailingWordRun(s);
    if n < |s| && s[|s| - n - 1] == '@' then
      assert s == s[..|s| - n - 1] + "@" + s[|s| - n..];
      Some(s[|s| - n..])
    else None
  }

  /** The text ends in '@' followed by at least one word character. */
  predicate EndsWithMention(s: string) {
    exists i :: 0 <= i < |s| - 1 && s[i] == '@' && AllWord(s[i + 1..])
  }

  /**
   * handleMentionTyping: the query suggestions are requested for, or None
   * when the suggestions are hidden.
   */
  function MentionRequest(textBeforeCursor: string): Option<string> {
    var m := MentionMatch(textBeforeCursor);
    if m.Some? && |m.value| >= 1 then m else None
  }

  /** Suggestions are requested exactly when the text before the cursor ends in '@' and a word character or more. */
  lemma MentionRequestIff(s: string)
    ensures MentionRequest(s).Some? <==> EndsWithMention(s)
  {
    var n := TrailingWordRun(s);
    if EndsWithMention(s) {
      var i :| 0 <= i < |s| - 1 && s[i] == '@' && AllWord(s[i + 1..]);
      assert !IsWordChar(s[i]);
      assert i == |s| - n - 1;
    }
  }


  // ---------------------------------------------------------------------------
  // Inserting a mention
  // ---------------------------------------------------------------------------

  /** The text of the box and the caret position after an edit. */
  datatype Edit = Edit(value: string, cursor: int)

  /**
   * insertMention as written: the text before the last '@' before the
   * cursor, then '@' + username + ' ', then the text after the cursor; the
   * caret goes to lastAtIndex + |username| + 2. With no '@' before the
   * cursor lastIndexOf gives -1, substring(0, -1) gives "".
   */
  function MentionInsertedAsWritten(value: string, cursor: int, username: string): (e: Edit)
    requires 0 <= cursor <= |value|
    ensures e.value == (if LastIndexOf(value[..cursor], '@') < 0 then ""
                        else value[..LastIndexOf(value[..cursor], '@')]) + "@" + username + " " + value[cursor..]
    ensures e.cursor == LastIndexOf(value[..cursor], '@') + |username| + 2
  {
    var before := value[..cursor];
    var after := value[cursor..];
    var at := LastIndexOf(before, '@');
    var kept := if at < 0 then "" else before[..at];
    Edit(kept + "@" + username + " " + after, at + |username| + 2)
  }

  /**
   * With the caret after text holding no '@' (the suggestions stay open
   * when the caret is moved without typing), the written code drops that
   * text and leaves the caret before the inserted space instead of after it.
   */
  lemma InsertMentionWithoutAtLosesText()
    ensures var e := MentionInsertedAsWritten("hi ", 3, "al");
            e.value == "@al " && e.cursor == 3 && e.value[e.cursor] == ' '
  {
    assert LastIndexOf("hi ", '@') == -1;
  }

  /** Where the mention starts: at the last '@' before the cursor, else at the cursor itself. */
  function MentionStart(value: string, cursor: int): (start: int)
    requires 0 <= cursor <= |value|
    ensures 0 <= start <= cursor
    ensures start < cursor ==> value[start] == '@'
    ensures forall j :: start < j < cursor ==> value[j] != '@'
  {
    var at := LastIndexOf(value[..cursor], '@');
    if at < 0 then cursor else at
  }

  /**
   * insertMention corrected: the '@' token before the cursor (or nothing,
   * when there is no '@') is replaced by '@' + username + ' ', and the caret
   * lands right after that space.
   */
  function MentionInserted(value: string, cursor: int, username: string): (e: Edit)
    requires 0 <= cursor <= |value|
    ensures var start := MentionStart(value, cursor);
            && e.value == value[..start] + "@" + username + " " + value[cursor..]
            && e.cursor == start + |username| + 2
  {
    var start := MentionStart(value, cursor);
    Edit(value[..start] + "@" + username + " " + value[cursor..], start + |username| + 2)
  }

  /**
   * The corrected insertion keeps the text before the mention and after
   * the cursor, and the caret follows the inserted "@username ".
   */
  lemma InsertMentionKeepsContext(value: string, cursor: int, username: string)
    requires 0 <= cursor <= |value|
    ensures var e := MentionInserted(value, cursor, username);
            var start := MentionStart(value, cursor);
            && 0 < e.cursor <= |e.value|
            && e.value[..start] == value[..start]
            && e.value[..e.cursor] == value[..start] + "@" + username + " "
            && e.value[e.cursor..] == value[cursor..]
            && e.value[e.cursor - 1] == ' '
  {
    var e := MentionInserted(value, cursor, username);
    var start := MentionStart(value, cursor);
    assert e.value == (value[..start] + "@" + username + " ") + value[cursor..];
  }

  /** With an '@' before the cursor the corrected insertion is the written one. */
  lemma InsertMentionAgreesWithAt(value: string, cursor: int, username: string)
    requires 0 <= cursor <= |value| && LastIndexOf(value[..cursor], '@') >= 0
    ensures MentionInserted(value, cursor, username) == MentionInsertedAsWritten(value, cursor, username)
  {
    var at := LastIndexOf(value[..cursor], '@');
    assert value[..cursor][..at] == value[..at];
  }

  // ---------------------------------------------------------------------------
  // Rendering comments
  // ---------------------------------------------------------------------------

  const MentionOpen := "<span class=\"mention bg-primary bg-opacity-10 text-primary px-1 rounded\">"
  const MentionClose := "</span>"

  /** The markup a mention of word is shown with. */
  function MentionSpan(word: string): string {
    MentionOpen + "@" + word + MentionClose
  }

  /** The longest run of word characters at the start of s. */
  function LeadingWordRun(s: string): (n: nat)
    ensures n <= |s|
    ensures forall i :: 0 <= i < n ==> IsWordChar(s[i])
    ensures n < |s| ==> !IsWordChar(s[n])
  {
    if |s| > 0 && IsWordChar(s[0]) then 1 + LeadingWordRun(s[1..]) else 0
  }

  /** The replace of /@(\w+)/g: each '@' with a word after it, and its word, wrapped in a mention span. */
  function WrapMentions(s: string): string
    decreases |s|
  {
    if s == [] then []
    else if s[0] == '@' && |s| > 1 && IsWordChar(s[1]) then
      var n := LeadingWordRun(s[1..]);
      MentionSpan(s[1..n + 1]) + WrapMentions(s[n + 1..])
    else [s[0]] + WrapMentions(s[1..])
  }

  predicate HasNoChar(s: string, c: char) { forall i :: 0 <= i < |s| ==> s[i] != c }

  /** Text with no '@' has no mention to wrap. */
  lemma {:induction false} WrapMentionsWithoutAt(s: string)
    requires HasNoChar(s, '@')
    ensures WrapMentions(s) == s
    decreases |s|
  {
    if s != [] {
      WrapMentionsWithoutAt(s[1..]);
      assert [s[0]] + s[1..] == s;
    }
  }

  /** An '@' and a word is wrapped whole in one mention span. */
  lemma WrapSingleMention(word: string)
    requires |word| >= 1 && AllWord(word)
    ensures WrapMentions("@" + word) == MentionSpan(word)
  {
    var s := "@" + word;
    assert s[1..] == word + [];
    WrapMentionThenRest(s, word, []);
    assert WrapMentions([]) == [];
    assert MentionSpan(word) + [] == MentionSpan(word);
  }

  /** An '@', a word, and text that does not go on with a word character: the word is wrapped and the rest follows. */
  lemma WrapMentionThenRest(s: string, word: string, rest: string)
    requires |word| >= 1 && AllWord(word)
    requires |rest| > 0 ==> !IsWordChar(rest[0])
    requires |s| > 0 && s[0] == '@' && s[1..] == word + rest
    ensures WrapMentions(s) == MentionSpan(word) + WrapMentions(rest)
  {
    assert s[1] == word[0] && IsWordChar(s[1]);
    WordRunStops(word, rest);
    var n := LeadingWordRun(s[1..]);
    assert n == |word|;
    var w, r := s[1..n + 1], s[n + 1..];
    assert w == word by {
      assert s[1..][..n] == w;
    }
    assert r == rest by {
      assert s[1..][n..] == r;
    }
    assert WrapMentions(s) == MentionSpan(w) + WrapMentions(r);
  }

  lemma {:induction false} WordRunStops(word: string, rest: string)
    requires AllWord(word)
    requires |rest| > 0 ==> !IsWordChar(rest[0])
    ensures LeadingWordRun(word + rest) == |word|
    decreases |word|
  {
    if word != [] {
      assert (word + rest)[1..] == word[1..] + rest;
      WordRunStops(word[1..], rest);
    } else {
      assert word + rest == rest;
    }
  }

  /** The replace of /\n/g by "<br>". */
  function BreakLines(s: string): (r: string)
    ensures HasNoChar(r, '\n')
    ensures HasNoChar(s, '\n') ==> r == s
    ensures |r| == |s| + 3 * CountChar(s, '\n')
  {
    if s == [] then []
    else if s[0] == '\n' then "<br>" + BreakLines(s[1..])
    else [s[0]] + BreakLines(s[1..])
  }

  function CountChar(s: string, c: char): nat {
    if s == [] then 0 else (if s[0] == c then 1 else 0) + CountChar(s[1..], c)
  }

  const LinkOpenHead := "<a href=\""
  const LinkOpenTail := "\" target=\"_blank\" rel=\"noopener\" class=\"text-decoration-none\">"
  const LinkClose := " <i class=\"bi bi-box-arrow-up-right small\"></i></a>"

  /** The markup a link to url is shown with: the url as the target and as the text. */
  function LinkAnchor(url: string): string {
    LinkOpenHead + url + LinkOpenTail + url + LinkClose
  }

  /** /https?:\/\/[^\s]+/ matches at the start of s: a scheme and at least one non-blank character after it. */
  predicate UrlStart(s: string) {
    || (|s| > 8 && s[..8] == "https://" && !IsSpace(s[8]))
    || (|s| > 7 && s[..7] == "http://" && !IsSpace(s[7]))
  }

  predicate HasNoUrl(s: string) { forall i :: 0 <= i < |s| ==> !UrlStart(s[i..]) }

  /** The longest run of non-blank characters at the start of s. */
  function NonSpaceRun(s: string): (n: nat)
    ensures n <= |s|
    ensures forall i :: 0 <= i < n ==> !IsSpace(s[i])
    ensures n < |s| ==> IsSpace(s[n])
  {
    if |s| > 0 && !IsSpace(s[0]) then 1 + NonSpaceRun(s[1..]) else 0
  }

  /**
   * The replace of /(https?:\/\/[^\s]+)/g: scanning left to right, each
   * url, which runs up to the next blank, becomes a link to itself.
   */
  function LinkUrls(s: string): string
    decreases |s|
  {
    if s == [] then []
    else if UrlStart(s) then
      assert s[0] == 'h' by {
        if |s| > 8 && s[..8] == "https://" { assert s[0] == s[..8][0]; }
        else { assert s[0] == s[..7][0]; }
      }
      var n := NonSpaceRun(s);
      LinkAnchor(s[..n]) + LinkUrls(s[n..])
    else [s[0]] + LinkUrls(s[1..])
  }

  /** Text in which no url starts is not changed by the link step. */
  lemma {:induction false} LinkUrlsWithoutUrl(s: string)
    requires HasNoUrl(s)
    ensures LinkUrls(s) == s
    decreases |s|
  {
    if s != [] {
      assert !UrlStart(s[0..]) by { assert s[0..] == s; }
      forall i | 0 <= i < |s[1..]| ensures !UrlStart(s[1..][i..]) {
        assert s[1..][i..] == s[i + 1..];
      }
      LinkUrlsWithoutUrl(s[1..]);
      assert [s[0]] + s[1..] == s;
    }
  }

  /** A url, then text that starts with a blank (or nothing): the whole url becomes one link and the rest follows. */
  lemma LinkUrlThenRest(url: string, rest: string)
    requires UrlStart(url)
    requires forall i :: 0 <= i < |url| ==> !IsSpace(url[i])
    requires |rest| > 0 ==> IsSpace(rest[0])
    ensures LinkUrls(url + rest) == LinkAnchor(url) + LinkUrls(rest)
  {
    var s := url + rest;
    assert UrlStart(s) by {
      if |url| > 8 && url[..8] == "https://" {
        assert s[..8] == url[..8] && s[8] == url[8];
      } else {
        assert s[..7] == url[..7] && s[7] == url[7];
      }
    }
    NonSpaceRunStops(url, rest);
    assert s[..|url|] == url && s[|url|..] == rest;
  }

  lemma {:induction false} NonSpaceRunStops(word: string, rest: string)
    requires forall i :: 0 <= i < |word| ==> !IsSpace(word[i])
    requires |rest| > 0 ==> IsSpace(rest[0])
    ensures NonSpaceRun(word + rest) == |word|
    decreases |word|
  {
    if word != [] {
      assert (word + rest)[1..] == word[1..] + rest;
      NonSpaceRunStops(word[1..], rest);
    } else {
      assert word + rest == rest;
    }
  }

  /** formatCommentContent: mentions wrapped, then urls linked, then every line break turned into <br>. */
  function FormatCommentContent(content: string): (r: string)
    ensures HasNoChar(r, '\n')
  {
    BreakLines(LinkUrls(WrapMentions(content)))
  }

  /** A one-line comment with no '@' and no url is shown as it was written. */
  lemma PlainCommentUnchanged(content: string)
    requires HasNoChar(content, '@') && HasNoChar(content, '\n') && HasNoUrl(content)
    ensures FormatCommentContent(content) == content
  {
    WrapMentionsWithoutAt(content);
    LinkUrlsWithoutUrl(content);
  }

  /** A comment that is one url, with no '@' in it, becomes a link to that url before line breaks are rendered. */
  lemma UrlCommentLinked(url: string)
    requires UrlStart(url) && HasNoChar(url, '@')
    requires forall i :: 0 <= i < |url| ==> !IsSpace(url[i])
    ensures FormatCommentContent(url) == BreakLines(LinkAnchor(url))
  {
    WrapMentionsWithoutAt(url);
    LinkUrlThenRest(url, []);
    assert url + [] == url;
    assert LinkAnchor(url) + [] == LinkAnchor(url);
  }

  // ---------------------------------------------------------------------------
  // Time stamps and the badge
  // ---------------------------------------------------------------------------

  /**
   * formatTime of a notification diffMs milliseconds old: "just now" under a
   * minute (and for times ahead of the clock), then whole minutes, hours or
   * days ago; a week or more shows the locale date and time (given).
   */
  function FormatTime(diffMs: int, localeDateTime: string): string {
    if diffMs < 60000 then "just now"
    else if diffMs < 3600000 then IntToString(diffMs / 60000) + "m ago"
    else if diffMs < 86400000 then IntToString(diffMs / 3600000) + "h ago"
    else if diffMs < 604800000 then IntToString(diffMs / 86400000) + "d ago"
    else localeDateTime
  }

  /**
   * Each label names the whole number of units elapsed: 1 to 59 minutes,
   * 1 to 23 hours, 1 to 6 days.
   */
  lemma FormatTimeUnits(diffMs: int, localeDateTime: string)
    ensures diffMs < 60000 ==> FormatTime(diffMs, localeDateTime) == "just now"
    ensures 60000 <= diffMs < 3600000 ==>
              exists n :: 1 <= n <= 59 && n * 60000 <= diffMs < (n + 1) * 60000 &&
                          FormatTime(diffMs, localeDateTime) == IntToString(n) + "m ago"
    ensures 3600000 <= diffMs < 86400000 ==>
              exists n :: 1 <= n <= 23 && n * 3600000 <= diffMs < (n + 1) * 3600000 &&
                          FormatTime(diffMs, localeDateTime) == IntToString(n) + "h ago"
    ensures 86400000 <= diffMs < 604800000 ==>
              exists n :: 1 <= n <= 6 && n * 86400000 <= diffMs < (n + 1) * 86400000 &&
                          FormatTime(diffMs, localeDateTime) == IntToString(n) + "d ago"
    ensures diffMs >= 604800000 ==> FormatTime(diffMs, localeDateTime) == localeDateTime
  {
    if 60000 <= diffMs < 3600000 {
      var n := diffMs / 60000;
      assert n * 60000 <= diffMs < (n + 1) * 60000;
      assert 1 <= n <= 59;
      assert FormatTime(diffMs, localeDateTime) == IntToString(n) + "m ago";
    } else if 3600000 <= diffMs < 86400000 {
      var n := diffMs / 3600000;
      assert n * 3600000 <= diffMs < (n + 1) * 3600000;
      assert 1 <= n <= 23;
      assert FormatTime(diffMs, localeDateTime) == IntToString(n) + "h ago";
    } else if 86400000 <= diffMs < 604800000 {
      var n := diffMs / 86400000;
      assert n * 86400000 <= diffMs < (n + 1) * 86400000;
      assert 1 <= n <= 6;
      assert FormatTime(diffMs, localeDateTime) == IntToString(n) + "d ago";
    }
  }

  datatype Badge = Badge(text: string, visible: bool)

  /** updateNotificationUI's badge: the unread count, shown only when positive. */
  function BadgeOf(unreadCount: int): (b: Badge)
    ensures b.visible <==> unreadCount > 0
    ensures ParseInt(b.text) == Some(unreadCount)
  {
    ParseIntOfIntToString(unreadCount);
    Badge(IntToString(unreadCount), unreadCount > 0)
  }

  // ---------------------------------------------------------------------------
  // The roadmap of the page
  // ---------------------------------------------------------------------------

  const RoadmapPrefix := "/roadmap/"

  /** The first place where "/roadmap/" is followed by a digit. */
  function RoadmapIdMatch(path: string, from: nat): (i: Option<nat>)
    requires from <= |path|
    ensures i.Some? ==> from <= i.value && OccursAt(path, RoadmapPrefix, i.value)
                        && i.value + 9 < |path| && IsDigit(path[i.value + 9])
    ensures forall j :: from <= j && (i.None? || j < i.value) ==>
              !(OccursAt(path, RoadmapPrefix, j) && j + 9 < |path| && IsDigit(path[j + 9]))
    decreases |path| - from
  {
    if from + 9 >= |path| then None
    else if OccursAt(path, RoadmapPrefix, from) && IsDigit(path[from + 9]) then Some(from)
    else RoadmapIdMatch(path, from + 1)
  }

  /**
   * getCurrentRoadmapId: the digits after the first "/roadmap/" of the path
   * that has one, else the page's data-roadmap-id attribute (None when no
   * element carries one), else null.
   */
  function CurrentRoadmapId(path: string, dataAttribute: Option<string>): (r: Option<string>)
    ensures RoadmapIdMatch(path, 0).None? ==> r == dataAttribute
    ensures RoadmapIdMatch(path, 0).Some? ==> r.Some? && |r.value| >= 1 && AllDigits(r.value)
    ensures RoadmapIdMatch(path, 0).Some? ==>
              var k := RoadmapIdMatch(path, 0).value + 9;
              && k + |r.value| <= |path| && path[k..k + |r.value|] == r.value
              && (k + |r.value| == |path| || !IsDigit(path[k + |r.value|]))
  {
    match RoadmapIdMatch(path, 0)
    case None => dataAttribute
    case Some(i) =>
      var rest := path[i + 9..];
      var digits := LeadingDigits(rest);
      Some(digits)
  }

  /** On a roadmap page the id read back is the one in its url. */
  lemma CurrentRoadmapIdOfPage(id: nat, dataAttribute: Option<string>)
    ensures CurrentRoadmapId(RoadmapPrefix + NatToString(id), dataAttribute) == Some(NatToString(id))
  {
    var path := RoadmapPrefix + NatToString(id);
    assert path[..9] == RoadmapPrefix;
    assert OccursAt(path, RoadmapPrefix, 0);
    assert path[9..] == NatToString(id);
    LeadingDigitsOfDigits(NatToString(id));
  }

  // ---------------------------------------------------------------------------
  // The comment box
  // ---------------------------------------------------------------------------

  /** One comments component: the text box, its caret, the submit button, the suggestions and the panel. */
  // ---------------------------------------------------------------------------
  // Posting a comment
  // ---------------------------------------------------------------------------

  /** The text, caret and submit button of the comment box after a post. */
  datatype PostedBox = PostedBox(value: string, cursor: int, submitDisabled: bool)

  /**
   * submitComment as written: a successful post clears the box, and the
   * `finally` block enables submit whatever the outcome.
   */
  function AfterPostAsWritten(value: string, cursor: int, ok: bool): PostedBox {
    if ok then PostedBox("", 0, false) else PostedBox(value, cursor, false)
  }

  /** submitComment corrected: the `finally` block disables submit exactly for a blank box. */
  function AfterPost(value: string, cursor: int, ok: bool): PostedBox {
    if ok then PostedBox("", 0, Trim("") == "") else PostedBox(value, cursor, Trim(value) == "")
  }

  /**
   * As written, after a successful post submit is enabled on a box whose
   * trimmed text is empty, so Enter posts "".
   */
  lemma EnterAfterPostSendsBlank(value: string, cursor: int)
    ensures var b := AfterPostAsWritten(value, cursor, true);
            !b.submitDisabled && Trim(b.value) == "" && b.value == ""
  {
  }

  /**
   * The corrected post keeps the input rule: submit is disabled exactly when
   * the box is blank, so neither Enter nor the button can post a blank text.
   */
  lemma PostKeepsSubmitRule(value: string, cursor: int, ok: bool)
    requires 0 <= cursor <= |value|
    ensures var b := AfterPost(value, cursor, ok);
            0 <= b.cursor <= |b.value| && (b.submitDisabled <==> AllSpace(b.value))
    ensures var b := AfterPost(value, cursor, ok);
            !b.submitDisabled ==> Trim(b.value) != ""
  {
    TrimEmptyIffAllSpace(value);
    TrimEmptyIffAllSpace("");
  }

  class CommentBox {
    var value: string
    var cursor: int
    var submitDisabled: bool
    /** The query the suggestions were last requested for; None while they are hidden. */
    var suggestionsFor: Option<string>
    var panelVisible: bool

    /**
     * The caret is inside the text, and submit is disabled only when the text
     * is blank (see TrimEmptyIffAllSpace). The converse fails as written: a
     * successful post leaves submit enabled on the emptied box
     * (EnterAfterPostSendsBlank).
     */
    ghost predicate Valid()
      reads this
    {
      && 0 <= cursor <= |value|
      && (submitDisabled ==> AllSpace(value))
    }

    /** The component as createCommentsComponent renders it: empty, submit disabled, panel hidden. */
    constructor ()
      ensures Valid()
      ensures value == "" && cursor == 0 && submitDisabled && suggestionsFor.None? && !panelVisible
    {
      value := "";
      cursor := 0;
      submitDisabled := true;
      suggestionsFor := None;
      panelVisible := false;
    }

    /** The toggle button: the panel flips, and the comments are loaded when it opens. */
    method TogglePanel() returns (loadComments: bool)
      modifies this
      ensures panelVisible == !old(panelVisible) && loadComments == panelVisible
      ensures value == old(value) && cursor == old(cursor) && submitDisabled == old(submitDisabled)
      ensures suggestionsFor == old(suggestionsFor)
    {
      panelVisible := !panelVisible;
      loadComments := panelVisible;
    }

    /** The input event: submit enabled iff the trimmed text is non-empty; suggestions follow the text before the caret. */
    method Input(newValue: string, newCursor: int)
      requires 0 <= newCursor <= |newValue|
      modifies this
      ensures Valid()
      ensures value == newValue && cursor == newCursor
      ensures submitDisabled <==> Trim(newValue) == ""
      ensures suggestionsFor == MentionRequest(newValue[..newCursor])
      ensures panelVisible == old(panelVisible)
    {
      var blank := Trim(newValue) == "";
      TrimEmptyIffAllSpace(newValue);
      assert blank <==> AllSpace(newValue);
      value := newValue;
      cursor := newCursor;
      submitDisabled := blank;
      suggestionsFor := MentionRequest(value[..cursor]);
    }

    /** renderMentionSuggestions: an empty answer hides the list. */
    method ShowSuggestions(usernames: seq<string>)
      modifies this
      ensures usernames == [] ==> suggestionsFor.None?
      ensures usernames != [] ==> suggestionsFor == old(suggestionsFor)
      ensures value == old(value) && cursor == old(cursor) && submitDisabled == old(submitDisabled)
      ensures panelVisible == old(panelVisible)
    {
      if usernames == [] {
        suggestionsFor := None;
      }
    }

    /** A click on a suggestion: the mention is inserted, the list hidden and submit enabled. */
    method InsertMention(username: string)
      requires Valid()
      modifies this
      ensures Valid()
      ensures value == MentionInsertedAsWritten(old(value), old(cursor), username).value
      ensures cursor == MentionInsertedAsWritten(old(value), old(cursor), username).cursor
      ensures !submitDisabled && suggestionsFor.None? && panelVisible == old(panelVisible)
    {
      var e := MentionInsertedAsWritten(value, cursor, username);
      InsertedMentionNotBlank(value, cursor, username);
      value, cursor := e.value, e.cursor;
      suggestionsFor := None;
      submitDisabled := false;
    }

    /**
     * submitComment: the trimmed text is sent; `ok` is whether the POST
     * succeeded. As written, success clears the box and the `finally` block
     * then enables submit whatever the outcome.
     */
    method SubmitComment(ok: bool) returns (sent: string)
      requires Valid()
      modifies this
      ensures Valid()
      ensures sent == Trim(old(value))
      ensures var b := AfterPostAsWritten(old(value), old(cursor), ok);
              value == b.value && cursor == b.cursor && submitDisabled == b.submitDisabled
      ensures suggestionsFor == old(suggestionsFor) && panelVisible == old(panelVisible)
    {
      sent := Trim(value);
      if ok {
        value, cursor := "", 0;
      }
      submitDisabled := false;
    }

    /**
     * submitComment with the button left as the input rule wants it, as the
     * `disabled = true` on success evidently intends.
     */
    method SubmitCommentCorrected(ok: bool) returns (sent: string)
      requires Valid()
      modifies this
      ensures Valid()
      ensures sent == Trim(old(value))
      ensures var b := AfterPost(old(value), old(cursor), ok);
              value == b.value && cursor == b.cursor && submitDisabled == b.submitDisabled
      ensures submitDisabled <==> AllSpace(value)
      ensures suggestionsFor == old(suggestionsFor) && panelVisible == old(panelVisible)
    {
      PostKeepsSubmitRule(value, cursor, ok);
      sent := Trim(value);
      var b := AfterPost(value, cursor, ok);
      value, cursor, submitDisabled := b.value, b.cursor, b.submitDisabled;
    }

    /** Enter without Shift posts the trimmed text unless the button is disabled. */
    method PressEnter(shift: bool, ok: bool) returns (posted: Option<string>)
      requires Valid()
      modifies this
      ensures Valid()
      ensures posted.Some? <==> !shift && !old(submitDisabled)
      ensures posted.Some? ==> posted.value == Trim(old(value))
      ensures posted.Some? ==> var b := AfterPostAsWritten(old(value), old(cursor), ok);
                               value == b.value && cursor == b.cursor && submitDisabled == b.submitDisabled
      ensures posted.None? ==> value == old(value) && cursor == old(cursor) && submitDisabled == old(submitDisabled)
      ensures suggestionsFor == old(suggestionsFor) && panelVisible == old(panelVisible)
    {
      if !shift && !submitDisabled {
        var sent := SubmitComment(ok);
        posted := Some(sent);
      } else {
        posted := None;
      }
    }

    /** The submit button posts the trimmed text when it is not blank. */
    method ClickSubmit(ok: bool) returns (posted: Option<string>)
      requires Valid()
      modifies this
      ensures Valid()
      ensures posted.Some? <==> Trim(old(value)) != ""
      ensures posted.Some? ==> posted.value == Trim(old(value))
      ensures posted.Some? ==> var b := AfterPostAsWritten(old(value), old(cursor), ok);
                               value == b.value && cursor == b.cursor && submitDisabled == b.submitDisabled
      ensures posted.None? ==> value == old(value) && cursor == old(cursor) && submitDisabled == old(submitDisabled)
      ensures suggestionsFor == old(suggestionsFor) && panelVisible == old(panelVisible)
    {
      if Trim(value) != "" {
        var sent := SubmitComment(ok);
        posted := Some(sent);
      } else {
        posted := None;
      }
    }
  }

  /**
   * A text holding an '@' is never blank, so enabling submit after an
   * insertion, written or corrected, agrees with the input rule; the caret
   * stays inside the text.
   */
  lemma InsertedMentionNotBlank(value: string, cursor: int, username: string)
    requires 0 <= cursor <= |value|
    ensures var e := MentionInsertedAsWritten(value, cursor, username);
            0 <= e.cursor <= |e.value| && !AllSpace(e.value)
    ensures var e := MentionInserted(value, cursor, username);
            0 <= e.cursor <= |e.value| && !AllSpace(e.value)
  {
    var w := MentionInsertedAsWritten(value, cursor, username);
    var at := LastIndexOf(value[..cursor], '@');
    var kept := if at < 0 then 0 else at;
    assert w.value[kept] == '@';
    var e := MentionInserted(value, cursor, username);
    var start := MentionStart(value, cursor);
    assert e.value[start] == '@';
  }
}
