/**
 * The word-mute matcher: decides whether a note is hidden from a viewer
 * because its text matches one of the viewer's muted-word filters.
 */
module WordMute {
  import opened Wrappers
  import JsString

  /**
   * A muted-word filter: either a group of keywords that must ALL occur, or a
   * string that should look like a regular-expression literal `/body/flags`.
   */
  datatype Filter = Keywords(keywords: seq<string>) | Expression(source: string)

  /** The parts of a note the matcher looks at. */
  datatype NoteLike = NoteLike(userId: string, text: Option<string>, cw: Option<string>)

  /**
   * The RE2 engine, which is not part of this model: `Re2(body, flags, text)` is
   * `Some(new RE2(body, flags).test(text))`, or `None` when constructing the
   * expression throws (bad syntax, unknown flag).
   */
  type Re2 = (string, string, string) -> Option<bool>

  // ---------------------------------------------------------------------------
  // Custom-emoji shortcodes

  /** The hiragana half of the table, by syllable: `:_ka:` stands for か. */
  function HiraganaOf(name: string): Option<char> {
    match name
      case "a" => Some('あ')
      case "i" => Some('い')
      case "u" => Some('う')
      case "e" => Some('え')
      case "o" => Some('お')
      case "ka" => Some('か')
      case "ki" => Some('き')
      case "ku" => Some('く')
      case "ke" => Some('け')
      case "ko" => Some('こ')
      case "sa" => Some('さ')
      case "shi" => Some('し')
      case "su" => Some('す')
      case "se" => Some('せ')
      case "so" => Some('そ')
      case "ta" => Some('た')
      case "chi" => Some('ち')
      case "tsu" => Some('つ')
      case "te" => Some('て')
      case "to" => Some('と')
      case "na" => Some('な')
      case "ni" => Some('に')
      case "nu" => Some('ぬ')
      case "ne" => Some('ね')
      case "no" => Some('の')
      case "ha" => Some('は')
      case "hi" => Some('ひ')
      case "fu" => Some('ふ')
      case "he" => Some('へ')
      case "ho" => Some('ほ')
      case "ma" => Some('ま')
      case "mi" => Some('み')
      case "mu" => Some('む')
      case "me" => Some('め')
      case "mo" => Some('も')
      case "ya" => Some('や')
      case "yu" => Some('ゆ')
      case "yo" => Some('よ')
      case "ra" => Some('ら')
      case "ri" => Some('り')
      case "ru" => Some('る')
      case "re" => Some('れ')
      case "ro" => Some('ろ')
      case "wa" => Some('わ')
      case "wo" => Some('を')
      case "n" => Some('ん')
      case "xa" => Some('ぁ')
      case "xi" => Some('ぃ')
      case "xu" => Some('ぅ')
      case "xe" => Some('ぇ')
      case "xo" => Some('ぉ')
      case "xtu" => Some('っ')
      case "xya" => Some('ゃ')
      case "xyu" => Some('ゅ')
      case "xyo" => Some('ょ')
      case _ => None
  }

  /** The katakana half, by syllable: `:_ka2:` stands for カ. */
  function KatakanaOf(name: string): Option<char> {
    match name
      case "a" => Some('ア')
      case "i" => Some('イ')
      case "u" => Some('ウ')
      case "e" => Some('エ')
      case "o" => Some('オ')
      case "ka" => Some('カ')
      case "ki" => Some('キ')
      case "ku" => Some('ク')
      case "ke" => Some('ケ')
      case "ko" => Some('コ')
      case "sa" => Some('サ')
      case "shi" => Some('シ')
      case "su" => Some('ス')
      case "se" => Some('セ')
      case "so" => Some('ソ')
      case "ta" => Some('タ')
      case "chi" => Some('チ')
      case "tsu" => Some('ツ')
      case "te" => Some('テ')
      case "to" => Some('ト')
      case "na" => Some('ナ')
      case "ni" => Some('ニ')
      case "nu" => Some('ヌ')
      case "ne" => Some('ネ')
      case "no" => Some('ノ')
      case "ha" => Some('ハ')
      case "hi" => Some('ヒ')
      case "fu" => Some('フ')
      case "he" => Some('ヘ')
      case "ho" => Some('ホ')
      case "ma" => Some('マ')
      case "mi" => Some('ミ')
      case "mu" => Some('ム')
      case "me" => Some('メ')
      case "mo" => Some('モ')
      case "ya" => Some('ヤ')
      case "yu" => Some('ユ')
      case "yo" => Some('ヨ')
      case "ra" => Some('ラ')
      case "ri" => Some('リ')
      case "ru" => Some('ル')
      case "re" => Some('レ')
      case "ro" => Some('ロ')
      case "wa" => Some('ワ')
      case "wo" => Some('ヲ')
      case "n" => Some('ン')
      case "xa" => Some('ァ')
      case "xi" => Some('ィ')
      case "xu" => Some('ゥ')
      case "xe" => Some('ェ')
      case "xo" => Some('ォ')
      case "xtu" => Some('ッ')
      case "xya" => Some('ャ')
      case "xyu" => Some('ュ')
      case "xyo" => Some('ョ')
      case _ => None
  }

  /**
   * `emojiToTextDic[token]`: a shortcode `:_<name>:` is looked up among the
   * hiragana, a shortcode `:_<name>2:` among the katakana.
   */
  function EmojiToText(token: string): Option<char> {
    if |token| >= 3 && token[0] == ':' && token[1] == '_' && token[|token| - 1] == ':' then
      var inner := token[2..|token| - 1];
      if inner != [] && inner[|inner| - 1] == '2' then KatakanaOf(inner[..|inner| - 1])
      else HiraganaOf(inner)
    else None
  }

  predicate IsAsciiLetter(c: char) {
    'a' <= c <= 'z' || 'A' <= c <= 'Z'
  }

  /** A complete `:_[a-zA-Z]+:` token. */
  predicate IsToken(t: string) {
    |t| >= 4 && t[0] == ':' && t[1] == '_' && t[|t| - 1] == ':'
    && forall k :: 2 <= k < |t| - 1 ==> IsAsciiLetter(t[k])
  }

  /** The number of ASCII letters at the start of `s`. */
  function LetterRun(s: string): (n: nat)
    ensures n <= |s|
    ensures forall k :: 0 <= k < n ==> IsAsciiLetter(s[k])
    ensures n < |s| ==> !IsAsciiLetter(s[n])
  {
    if s != [] && IsAsciiLetter(s[0]) then 1 + LetterRun(s[1..]) else 0
  }

  /**
   * The length of the match of `:_[a-zA-Z]+:` anchored at the start of `s`, or
   * 0 when there is none.
   */
  function TokenLength(s: string): (n: nat)
    ensures n <= |s|
    ensures n > 0 ==> IsToken(s[..n])
  {
    if |s| >= 2 && s[0] == ':' && s[1] == '_' then
      var k := LetterRun(s[2..]);
      if k > 0 && 2 + k < |s| && s[2 + k] == ':' then k + 3 else 0
    else 0
  }

  /**
   * `TokenLength` is exactly the regular expression's anchored match: a prefix
   * of `s` is a token iff its length is `TokenLength(s)`, so at most one prefix is.
   */
  lemma TokenLengthIsTheMatch(s: string, n: nat)
    requires n <= |s|
    ensures IsToken(s[..n]) <==> n > 0 && n == TokenLength(s)
  {
    if IsToken(s[..n]) {
      var k := LetterRun(s[2..]);
      assert forall m :: 0 <= m < n - 3 ==> s[2..][m] == s[..n][m + 2];
      assert forall m :: 0 <= m < n - 3 ==> IsAsciiLetter(s[2..][m]);
      assert s[2..][n - 3] == ':';
      assert k == n - 3;
    }
  }

  /** The replacement callback: a known token becomes its kana, anything else stays as it is. */
  function Lookup(token: string): string {
    match EmojiToText(token)
    case Some(kana) => [kana]
    case None => token
  }

  /**
   * `text.replace(/(:_[a-zA-Z]+:)/g, ...)`: scanning left to right, each token
   * is replaced by its table entry and the scan resumes after it.
   */
  function ReplaceSingleCustomEmojiToText(s: string): string
    decreases |s|
  {
    if s == [] then []
    else
      var n := TokenLength(s);
      if n > 0 then Lookup(s[..n]) + ReplaceSingleCustomEmojiToText(s[n..])
      else [s[0]] + ReplaceSingleCustomEmojiToText(s[1..])
  }

  /**
   * The token pattern never selects a katakana shortcode, because those carry a
   * digit: a token found in the table always becomes a single hiragana.
   */
  lemma TokenBecomesHiragana(t: string)
    requires IsToken(t)
    ensures EmojiToText(t).Some? ==> Lookup(t) == [EmojiToText(t).value]
    ensures EmojiToText(t) == HiraganaOf(t[2..|t| - 1])
    ensures EmojiToText(t).None? ==> Lookup(t) == t
  {
    var inner := t[2..|t| - 1];
    assert inner[|inner| - 1] == t[|t| - 2];
  }

  /**
   * Every katakana shortcode `:_<name>2:` is in the table, but the token
   * pattern cannot select it: the `2` is not a letter.
   */
  lemma KatakanaKeyIsNoToken(name: string)
    requires KatakanaOf(name).Some?
    ensures EmojiToText(":_" + name + "2:") == KatakanaOf(name)
    ensures !IsToken(":_" + name + "2:")
  {
    var key := ":_" + name + "2:";
    assert key[2..|key| - 1] == name + "2" && (name + "2")[..|name|] == name;
    assert !IsAsciiLetter(key[|key| - 2]);
  }

  /** Text in which the scan meets no token is left unchanged. */
  lemma {:induction false} NoTokenUnchanged(s: string)
    requires forall i :: 0 <= i < |s| ==> TokenLength(s[i..]) == 0
    ensures ReplaceSingleCustomEmojiToText(s) == s
    decreases |s|
  {
    if s != [] {
      assert TokenLength(s[0..]) == 0 && s[0..] == s;
      forall i | 0 <= i < |s[1..]| ensures TokenLength(s[1..][i..]) == 0 {
        assert s[1..][i..] == s[i + 1..];
      }
      NoTokenUnchanged(s[1..]);
    }
  }

  /** A token in a longer text is replaced wherever the scan meets it. */
  lemma TokenAtStart(t: string, rest: string)
    requires IsToken(t)
    ensures ReplaceSingleCustomEmojiToText(t + rest) == Lookup(t) + ReplaceSingleCustomEmojiToText(rest)
  {
    var s := t + rest;
    assert s[..|t|] == t;
    TokenLengthIsTheMatch(s, |t|);
    assert s[|t|..] == rest;
  }

  /** Where no token starts, the scan copies one character and moves on. */
  lemma ScanCopiesOne(s: string)
    requires s != [] && TokenLength(s) == 0
    ensures ReplaceSingleCustomEmojiToText(s) == [s[0]] + ReplaceSingleCustomEmojiToText(s[1..])
  {
  }

  lemma ConcatAssoc(a: string, b: string, c: string)
    ensures a + (b + c) == (a + b) + c
  {
  }

  lemma ConcatEmpty(a: string)
    ensures [] + a == a
  {
  }

  /** The scan copies a stretch of text without a colon, where no token can start, and goes on after it. */
  lemma {:induction false} ScanCopiesColonFree(s: string, m: nat)
    requires m <= |s|
    requires forall i :: 0 <= i < m ==> s[i] != ':'
    ensures ReplaceSingleCustomEmojiToText(s) == s[..m] + ReplaceSingleCustomEmojiToText(s[m..])
  {
    if m == 0 {
      assert s[0..] == s && s[..0] == [];
      ConcatEmpty(ReplaceSingleCustomEmojiToText(s));
    } else {
      var u := s[m - 1..];
      assert ReplaceSingleCustomEmojiToText(s) == s[..m - 1] + ReplaceSingleCustomEmojiToText(u) by {
        ScanCopiesColonFree(s, m - 1);
      }
      assert ReplaceSingleCustomEmojiToText(u) == [u[0]] + ReplaceSingleCustomEmojiToText(s[m..]) by {
        assert u[0] != ':' && u[1..] == s[m..];
        ScanCopiesOne(u);
      }
      var rest := ReplaceSingleCustomEmojiToText(s[m..]);
      assert s[..m - 1] + ([u[0]] + rest) == s[..m] + rest by {
        ConcatAssoc(s[..m - 1], [u[0]], rest);
        assert s[..m - 1] + [u[0]] == s[..m];
      }
    }
  }

  /** No key of the katakana table contains a colon. */
  lemma KatakanaKeyHasNoColon(name: string)
    requires KatakanaOf(name).Some?
    ensures forall k :: 0 <= k < |name| ==> name[k] != ':'
  {
  }

  /** No token starts at the opening colon of `:_<name>2:` when `name` has no colon. */
  lemma ShortcodeIsNoTokenStart(name: string, rest: string)
    requires forall k :: 0 <= k < |name| ==> name[k] != ':'
    ensures TokenLength(":_" + name + "2:" + rest) == 0
  {
    var s := ":_" + name + "2:" + rest;
    var k := LetterRun(s[2..]);
    assert s[2..][|name|] == '2';
    assert s[2 + k] != ':' by {
      assert s[2 + k] == if k < |name| then name[k] else '2';
    }
  }

  /** The scan copies `:_<name>2` unchanged when `name` has no colon, and resumes at the closing colon. */
  lemma ColonFreeShortcodeSurvives(name: string, rest: string)
    requires forall k :: 0 <= k < |name| ==> name[k] != ':'
    ensures var key := ":_" + name + "2:";
      ReplaceSingleCustomEmojiToText(key + rest) == key[..|key| - 1] + ReplaceSingleCustomEmojiToText(":" + rest)
  {
    var key := ":_" + name + "2:";
    var s := key + rest;
    var t := s[1..];
    var n := |name| + 2;
    var tail := ReplaceSingleCustomEmojiToText(":" + rest);
    ShortcodeIsNoTokenStart(name, rest);
    ScanCopiesOne(s);
    ShortcodeSlices(name, rest);
    ScanCopiesColonFree(t, n);
    ConcatAssoc([s[0]], t[..n], tail);
  }

  /** How `:_<name>2:` followed by `rest` splits after its first character. */
  lemma ShortcodeSlices(name: string, rest: string)
    requires forall k :: 0 <= k < |name| ==> name[k] != ':'
    ensures var key := ":_" + name + "2:";
      var t := (key + rest)[1..];
      && (forall i :: 0 <= i < |name| + 2 ==> t[i] != ':')
      && key[..|key| - 1] == [(key + rest)[0]] + t[..|name| + 2]
      && t[|name| + 2..] == ":" + rest
  {
    var key := ":_" + name + "2:";
    var t := (key + rest)[1..];
    assert forall i :: 0 <= i < |name| + 2 ==> t[i] == ("_" + name + "2")[i];
  }

  /**
   * A katakana shortcode met by the scan is never rewritten: everything up to
   * its closing colon is copied, and the scan resumes at that colon, which
   * may open a token with the text after it.
   */
  lemma KatakanaShortcodeSurvives(name: string, rest: string)
    requires KatakanaOf(name).Some?
    ensures var key := ":_" + name + "2:";
      ReplaceSingleCustomEmojiToText(key + rest) == key[..|key| - 1] + ReplaceSingleCustomEmojiToText(":" + rest)
  {
    KatakanaKeyHasNoColon(name);
    ColonFreeShortcodeSurvives(name, rest);
  }

  // ---------------------------------------------------------------------------
  // Regular-expression filters

  /** The characters that `.` does not match. */
  predicate IsLineTerminator(c: char) {
    c == '\n' || c == '\r' || c == '\U{2028}' || c == '\U{2029}'
  }

  predicate NoLineTerminator(s: string) {
    forall k :: 0 <= k < |s| ==> !IsLineTerminator(s[k])
  }

  /** The last index of `c` in `s`. */
  function LastIndexOf(s: string, c: char): (r: Option<nat>)
    ensures r.Some? ==> r.value < |s| && s[r.value] == c && forall k :: r.value < k < |s| ==> s[k] != c
    ensures r.None? ==> c !in s
  {
    if s == [] then None
    else if s[|s| - 1] == c then Some(|s| - 1)
    else LastIndexOf(s[..|s| - 1], c)
  }

  /**
   * `filter.match(/^\/(.+)\/(.*)$/)`: the greedy `.+` splits at the last slash;
   * neither group may hold a line terminator.
   */
  function ParseRegExp(s: string): Option<(string, string)> {
    if |s| >= 3 && s[0] == '/' && NoLineTerminator(s[1..]) then
      match LastIndexOf(s, '/')
      case Some(j) => if j >= 2 then Some((s[1..j], s[j + 1..])) else None
      case None => None
    else None
  }

  /** `s` is the literal `/body/flags` with a non-empty body and slash-free flags. */
  predicate RegExpLiteral(s: string, body: string, flags: string) {
    s == "/" + body + "/" + flags && |body| > 0 && '/' !in flags
    && NoLineTerminator(body) && NoLineTerminator(flags)
  }

  /** The parse finds the body and the flags, and these are the only ones there are. */
  lemma ParseRegExpSpec(s: string, body: string, flags: string)
    ensures ParseRegExp(s) == Some((body, flags)) <==> RegExpLiteral(s, body, flags)
  {
    if ParseRegExp(s) == Some((body, flags)) {
      ParsedIsLiteral(s);
    }
    if RegExpLiteral(s, body, flags) {
      LiteralIsParsed(s, body, flags);
    }
  }

  lemma ParsedIsLiteral(s: string)
    requires ParseRegExp(s).Some?
    ensures RegExpLiteral(s, ParseRegExp(s).value.0, ParseRegExp(s).value.1)
  {
    var j := LastIndexOf(s, '/').value;
    var rest := s[1..];
    assert NoLineTerminator(rest) && 2 <= j < |s|;
    var body := s[1..j];
    var flags := s[j + 1..];
    assert ParseRegExp(s).value == (body, flags);
    assert s == "/" + body + "/" + flags by {
      assert s == [s[0]] + s[1..j] + [s[j]] + s[j + 1..];
    }
    forall k | 0 <= k < |body| ensures !IsLineTerminator(body[k]) {
      assert body[k] == rest[k];
    }
    forall k | 0 <= k < |flags| ensures !IsLineTerminator(flags[k]) && flags[k] != '/' {
      assert flags[k] == rest[j + k] == s[j + 1 + k];
    }
  }

  lemma LiteralIsParsed(s: string, body: string, flags: string)
    requires RegExpLiteral(s, body, flags)
    ensures ParseRegExp(s) == Some((body, flags))
  {
    var j := |body| + 1;
    assert s[j] == '/';
    assert forall k :: j < k < |s| ==> s[k] == flags[k - j - 1];
    assert LastIndexOf(s, '/') == Some(j);
    forall k | 0 <= k < |s[1..]| ensures !IsLineTerminator(s[1..][k]) {
      if k + 1 < j {
        assert s[1..][k] == body[k];
      } else if k + 1 > j {
        assert s[1..][k] == flags[k - j];
      }
    }
    assert s[1..j] == body && s[j + 1..] == flags;
  }

  // ---------------------------------------------------------------------------
  // The matcher

  /** Whether one filter matches the (already substituted) text. */
  function FilterMatches(f: Filter, text: string, re2: Re2): bool {
    match f
    case Keywords(keywords) => forall k :: 0 <= k < |keywords| ==> JsString.Includes(text, keywords[k])
    case Expression(source) =>
      match ParseRegExp(source)
      case None => false
      case Some((body, flags)) => re2(body, flags, text).GetOr(false)
  }

  /**
   * A string filter matches iff it is a well-formed literal whose expression
   * compiles and finds a match; malformed and uncompilable filters never match.
   */
  lemma ExpressionFilterMeaning(source: string, text: string, re2: Re2)
    ensures FilterMatches(Expression(source), text, re2)
      <==> exists body, flags :: RegExpLiteral(source, body, flags) && re2(body, flags, text) == Some(true)
  {
    match ParseRegExp(source)
    case None =>
      forall body, flags | RegExpLiteral(source, body, flags) ensures false {
        ParseRegExpSpec(source, body, flags);
      }
    case Some((body, flags)) =>
      ParseRegExpSpec(source, body, flags);
      forall b, f | RegExpLiteral(source, b, f) ensures b == body && f == flags {
        ParseRegExpSpec(source, b, f);
      }
  }

  /**
   * `mutedWords.some(...)`: the index of the first filter that matches, which is
   * where the evaluation stops.
   */
  function FirstMatch(filters: seq<Filter>, text: string, re2: Re2): (r: Option<nat>)
    ensures r.Some? ==> r.value < |filters| && FilterMatches(filters[r.value], text, re2)
    ensures r.Some? ==> forall j :: 0 <= j < r.value ==> !FilterMatches(filters[j], text, re2)
    ensures r.None? ==> forall j :: 0 <= j < |filters| ==> !FilterMatches(filters[j], text, re2)
  {
    if filters == [] then None
    else if FilterMatches(filters[0], text, re2) then Some(0)
    else
      match FirstMatch(filters[1..], text, re2)
      case Some(i) => Some(i + 1)
      case None => None
  }

  /** The text the filters are applied to: content warning, newline, body, trimmed. */
  function MuteText(note: NoteLike): string {
    JsString.Trim(note.cw.GetOr("") + "\n" + note.text.GetOr(""))
  }

  /** `checkWordMute(note, me, mutedWords)`. */
  function CheckWordMute(note: NoteLike, me: Option<string>, mutedWords: seq<Filter>, re2: Re2): (r: bool)
    ensures me == Some(note.userId) ==> !r
    ensures mutedWords == [] ==> !r
  {
    if me.Some? && note.userId == me.value then false
    else if |mutedWords| > 0 then
      var text := MuteText(note);
      if text == [] then false
      else FirstMatch(mutedWords, ReplaceSingleCustomEmojiToText(text), re2).Some?
    else false
  }

  /**
   * A note is muted exactly when it is not the viewer's own, its text is not
   * blank and some filter matches the text with emoji shortcodes replaced.
   */
  lemma CheckWordMuteMeaning(note: NoteLike, me: Option<string>, mutedWords: seq<Filter>, re2: Re2)
    ensures CheckWordMute(note, me, mutedWords, re2) <==> (
      && me != Some(note.userId)
      && MuteText(note) != []
      && exists i :: 0 <= i < |mutedWords|
           && FilterMatches(mutedWords[i], ReplaceSingleCustomEmojiToText(MuteText(note)), re2))
  {
  }

  /** A note whose content warning and body are both blank is never matched. */
  lemma BlankNoteNeverMatches(note: NoteLike, me: Option<string>, mutedWords: seq<Filter>, re2: Re2)
    requires JsString.AllWhitespace(note.cw.GetOr("")) && JsString.AllWhitespace(note.text.GetOr(""))
    ensures !CheckWordMute(note, me, mutedWords, re2)
  {
    var raw := note.cw.GetOr("") + "\n" + note.text.GetOr("");
    assert JsString.AllWhitespace(raw) by {
      forall k | 0 <= k < |raw| ensures JsString.IsWhitespace(raw[k]) {
        var c := |note.cw.GetOr("")|;
        if k < c { assert raw[k] == note.cw.GetOr("")[k]; }
        else if k > c { assert raw[k] == note.text.GetOr("")[k - c - 1]; }
      }
    }
    JsString.TrimEmptyIffBlank(raw);
  }

  /**
   * An empty keyword group matches every note that reaches the filters: any
   * note not authored by the viewer with some non-blank text.
   */
  lemma EmptyKeywordGroupMatchesAll(note: NoteLike, me: Option<string>, mutedWords: seq<Filter>, re2: Re2, i: nat)
    requires i < |mutedWords| && mutedWords[i] == Keywords([])
    requires me != Some(note.userId) && MuteText(note) != []
    ensures CheckWordMute(note, me, mutedWords, re2)
  {
    assert FilterMatches(mutedWords[i], ReplaceSingleCustomEmojiToText(MuteText(note)), re2);
  }
}
