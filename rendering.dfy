/**
 * Rendering of one logfmt line: `kv_to_logfmt`, the two level tables and
 * `colorize_level_if_debug`, and the space-joined line.  The ANSI colour
 * codes are those of `ansicolors.py`; `Strip` removes them again, which is
 * how the coloured and the plain renderings are related.
 */
module Rendering {
  import opened Runtime

  const ESC: char := '\U{1B}'

  const RESET: string := [ESC] + "[0m"
  const REGULAR_BLACK: string := [ESC] + "[0;30m"
  const REGULAR_CYAN: string := [ESC] + "[0;36m"
  const REGULAR_YELLOW: string := [ESC] + "[0;33m"
  const REGULAR_RED: string := [ESC] + "[0;31m"
  const BOLD_BLACK: string := [ESC] + "[1;30m"
  const BOLD_RED: string := [ESC] + "[1;31m"

  /** `logging.DEBUG`, `INFO`, `WARNING`, `ERROR`, `CRITICAL` */
  const DEBUG: int := 10
  const INFO: int := 20
  const WARNING: int := 30
  const ERROR: int := 40
  const CRITICAL: int := 50

  /** `code + text + RESET` */
  function Paint(code: string, text: string): string
  {
    code + text + RESET
  }

  /** The key part of a pair, `=` included. */
  function KeyText(colorize: bool, key: string): string
  {
    if colorize then Paint(BOLD_BLACK, key + "=") else key + "="
  }

  /** The value part of a pair before quoting; highlighted keys keep their value uncoloured. */
  function ValueText(colorize: bool, highlight: set<string>, key: string, value: string): string
  {
    if colorize && key !in highlight then Paint(REGULAR_BLACK, value) else value
  }

  function Quote(colorize: bool): string
  {
    if colorize then Paint(REGULAR_BLACK, "\"") else "\""
  }

  /** `kv_to_logfmt(key, value)`: the value is quoted when its (possibly coloured) text holds a space. */
  function KeyValue(colorize: bool, highlight: set<string>, key: string, value: string): string
  {
    var realValue := ValueText(colorize, highlight, key, value);
    if ' ' in realValue then KeyText(colorize, key) + Quote(colorize) + realValue + Quote(colorize)
    else KeyText(colorize, key) + realValue
  }

  /** `level_words[levelno]` */
  function LevelWordPlain(levelno: int): Result<string>
  {
    if levelno == DEBUG then Ok("DEBUG")
    else if levelno == INFO then Ok("INFO")
    else if levelno == WARNING then Ok("WARNING")
    else if levelno == ERROR then Ok("ERROR")
    else if levelno == CRITICAL then Ok("CRITICAL")
    else Err(KeyError)
  }

  /** `level_words_colored[levelno]` */
  function LevelWordColored(levelno: int): Result<string>
  {
    if levelno == DEBUG then Ok(REGULAR_BLACK + "DEBUG" + RESET)
    else if levelno == INFO then Ok(REGULAR_CYAN + "INFO" + RESET)
    else if levelno == WARNING then Ok(REGULAR_YELLOW + "WARNING" + RESET)
    else if levelno == ERROR then Ok(REGULAR_RED + "ERROR" + RESET)
    else if levelno == CRITICAL then Ok(BOLD_RED + "CRITICAL" + RESET)
    else Err(KeyError)
  }

  /** The colour `level_words_colored` paints a level word in. */
  function LevelColor(levelno: int): string
  {
    if levelno == DEBUG then REGULAR_BLACK
    else if levelno == INFO then REGULAR_CYAN
    else if levelno == WARNING then REGULAR_YELLOW
    else if levelno == ERROR then REGULAR_RED
    else BOLD_RED
  }

  /** `colorize_level_if_debug(levelno)` */
  function LevelWord(colorize: bool, levelno: int): Result<string>
  {
    if colorize then LevelWordColored(levelno) else LevelWordPlain(levelno)
  }

  /** `" ".join(kv_to_logfmt(k, v) for k, v in pairs)` */
  function Render(colorize: bool, highlight: set<string>, pairs: seq<(string, string)>): string
  {
    if pairs == [] then ""
    else if |pairs| == 1 then KeyValue(colorize, highlight, pairs[0].0, pairs[0].1)
    else KeyValue(colorize, highlight, pairs[0].0, pairs[0].1) + " " + Render(colorize, highlight, pairs[1..])
  }

  // ---------------------------------------------------------------------
  // Removing colour

  /** The text with every escape sequence (ESC up to and including the next `m`) removed. */
  function Strip(s: string): string
    decreases |s|, 1
  {
    if s == [] then []
    else if s[0] == ESC then SkipCode(s[1..])
    else [s[0]] + Strip(s[1..])
  }

  function SkipCode(s: string): string
    decreases |s|, 0
  {
    if s == [] then []
    else if s[0] == 'm' then Strip(s[1..])
    else SkipCode(s[1..])
  }

  /** A colour code: ESC, then text without `m`, then `m`. */
  predicate IsCode(c: string)
  {
    |c| >= 2 && c[0] == ESC && c[|c| - 1] == 'm' && 'm' !in c[1..|c| - 1] && ' ' !in c
  }

  /** `c` is the text `p` as it is, or `p` painted in the colour `code`. */
  predicate Tints(c: string, p: string, code: string)
  {
    c == p || c == Paint(code, p)
  }

  /** The pairs of a coloured and a plain line: the same keys, each coloured value a tint of the plain one. */
  predicate TintedPairs(colored: seq<(string, string)>, plain: seq<(string, string)>, code: string)
  {
    |colored| == |plain| && forall i :: 0 <= i < |plain| ==> colored[i].0 == plain[i].0 && Tints(colored[i].1, plain[i].1, code)
  }

  /** No key or value holds an escape character. */
  predicate EscapeFree(pairs: seq<(string, string)>)
  {
    forall i :: 0 <= i < |pairs| ==> ESC !in pairs[i].0 && ESC !in pairs[i].1
  }

  lemma CodesAreCodes()
    ensures IsCode(RESET) && IsCode(REGULAR_BLACK) && IsCode(REGULAR_CYAN) && IsCode(REGULAR_YELLOW)
    ensures IsCode(REGULAR_RED) && IsCode(BOLD_BLACK) && IsCode(BOLD_RED)
  {
  }

  lemma {:induction false} SkipCodeUntilM(t: string, rest: string)
    requires 'm' !in t
    ensures SkipCode(t + "m" + rest) == Strip(rest)
  {
    if t != [] {
      assert (t + "m" + rest)[1..] == t[1..] + "m" + rest;
      SkipCodeUntilM(t[1..], rest);
    } else {
      assert (t + "m" + rest)[1..] == rest;
    }
  }

  /** Stripping drops a leading colour code. */
  lemma StripCode(c: string, rest: string)
    requires IsCode(c)
    ensures Strip(c + rest) == Strip(rest)
  {
    var t := c[1..|c| - 1];
    assert c + rest == [ESC] + (t + "m" + rest);
    assert (c + rest)[1..] == t + "m" + rest;
    SkipCodeUntilM(t, rest);
  }

  /** Stripping keeps text without escapes as it is. */
  lemma {:induction false} StripClean(a: string, rest: string)
    requires ESC !in a
    ensures Strip(a + rest) == a + Strip(rest)
  {
    if a != [] {
      assert a[0] in a;
      var s := a + rest;
      assert s[0] == a[0] && s[1..] == a[1..] + rest;
      StripClean(a[1..], rest);
      calc {
        Strip(s);
        [a[0]] + Strip(a[1..] + rest);
        [a[0]] + (a[1..] + Strip(rest));
        { assert [a[0]] + a[1..] == a; }
        a + Strip(rest);
      }
    } else {
      assert a + rest == rest;
    }
  }

  /** Stripping a painted text leaves the text. */
  lemma StripPainted(c: string, text: string, rest: string)
    requires IsCode(c) && ESC !in text
    ensures Strip(Paint(c, text) + rest) == text + Strip(rest)
  {
    CodesAreCodes();
    assert c + text + RESET + rest == c + (text + (RESET + rest));
    StripCode(c, text + (RESET + rest));
    StripClean(text, RESET + rest);
    StripCode(RESET, rest);
  }

  // ---------------------------------------------------------------------
  // Properties of one pair

  /** A value is quoted exactly when it contains a space, coloured or not. */
  lemma QuotedIffSpace(colorize: bool, highlight: set<string>, key: string, value: string)
    ensures var rv := ValueText(colorize, highlight, key, value);
      KeyValue(colorize, highlight, key, value)
      == if ' ' in value then KeyText(colorize, key) + Quote(colorize) + rv + Quote(colorize)
         else KeyText(colorize, key) + rv
  {
    CodesAreCodes();
    assert ' ' in ValueText(colorize, highlight, key, value) <==> ' ' in value;
  }

  /** Painting adds no space. */
  lemma TintsSpace(c: string, p: string, code: string)
    requires IsCode(code) && Tints(c, p, code)
    ensures ' ' in c <==> ' ' in p
  {
    CodesAreCodes();
  }

  lemma StripKeyText(key: string, rest: string)
    requires ESC !in key
    ensures Strip(KeyText(true, key) + rest) == KeyText(false, key) + Strip(rest)
  {
    CodesAreCodes();
    StripPainted(BOLD_BLACK, key + "=", rest);
  }

  lemma StripValueText(highlight: set<string>, key: string, code: string, cvalue: string, value: string, rest: string)
    requires IsCode(code) && ESC !in value && Tints(cvalue, value, code)
    ensures Strip(ValueText(true, highlight, key, cvalue) + rest) == value + Strip(rest)
  {
    CodesAreCodes();
    if cvalue == value {
      if key in highlight {
        StripClean(value, rest);
      } else {
        StripPainted(REGULAR_BLACK, value, rest);
      }
    } else if key in highlight {
      StripPainted(code, value, rest);
    } else {
      assert Paint(REGULAR_BLACK, cvalue) + rest == REGULAR_BLACK + (Paint(code, value) + (RESET + rest));
      StripCode(REGULAR_BLACK, Paint(code, value) + (RESET + rest));
      StripPainted(code, value, RESET + rest);
      StripCode(RESET, rest);
    }
  }

  lemma StripQuote(rest: string)
    ensures Strip(Quote(true) + rest) == Quote(false) + Strip(rest)
  {
    CodesAreCodes();
    StripPainted(REGULAR_BLACK, "\"", rest);
  }

  /** Stripping a coloured quoted pair leaves the plain quoted pair. */
  lemma StripQuotedPair(highlight: set<string>, key: string, code: string, cvalue: string, value: string, rest: string)
    requires IsCode(code) && ESC !in key && ESC !in value && Tints(cvalue, value, code)
    ensures var kt, q, vt := KeyText(true, key), Quote(true), ValueText(true, highlight, key, cvalue);
      Strip(kt + q + vt + q + rest) == KeyText(false, key) + Quote(false) + value + Quote(false) + Strip(rest)
  {
    var kt, q, vt := KeyText(true, key), Quote(true), ValueText(true, highlight, key, cvalue);
    var kt', q' := KeyText(false, key), Quote(false);
    calc {
      Strip(kt + q + vt + q + rest);
      { assert kt + q + vt + q + rest == kt + (q + (vt + (q + rest))); }
      Strip(kt + (q + (vt + (q + rest))));
      { StripKeyText(key, q + (vt + (q + rest))); }
      kt' + Strip(q + (vt + (q + rest)));
      { StripQuote(vt + (q + rest)); }
      kt' + (q' + Strip(vt + (q + rest)));
      { StripValueText(highlight, key, code, cvalue, value, q + rest); }
      kt' + (q' + (value + Strip(q + rest)));
      { StripQuote(rest); }
      kt' + (q' + (value + (q' + Strip(rest))));
      { assert kt' + (q' + (value + (q' + Strip(rest)))) == kt' + q' + value + q' + Strip(rest); }
      kt' + q' + value + q' + Strip(rest);
    }
  }

  /** Stripping a coloured bare pair leaves the plain bare pair. */
  lemma StripBarePair(highlight: set<string>, key: string, code: string, cvalue: string, value: string, rest: string)
    requires IsCode(code) && ESC !in key && ESC !in value && Tints(cvalue, value, code)
    ensures Strip(KeyText(true, key) + ValueText(true, highlight, key, cvalue) + rest) == KeyText(false, key) + value + Strip(rest)
  {
    var kt, vt := KeyText(true, key), ValueText(true, highlight, key, cvalue);
    assert kt + vt + rest == kt + (vt + rest);
    StripKeyText(key, vt + rest);
    StripValueText(highlight, key, code, cvalue, value, rest);
  }

  /**
   * The coloured rendering, stripped of its colour codes, is the plain
   * rendering, also for a value that was coloured before it was rendered.
   */
  lemma StripColoredPair(highlight: set<string>, key: string, code: string, cvalue: string, value: string, rest: string)
    requires IsCode(code) && ESC !in key && ESC !in value && Tints(cvalue, value, code)
    ensures Strip(KeyValue(true, highlight, key, cvalue) + rest) == KeyValue(false, highlight, key, value) + Strip(rest)
  {
    QuotedIffSpace(true, highlight, key, cvalue);
    QuotedIffSpace(false, highlight, key, value);
    TintsSpace(cvalue, value, code);
    assert ValueText(false, highlight, key, value) == value;
    if ' ' in value {
      StripQuotedPair(highlight, key, code, cvalue, value, rest);
    } else {
      StripBarePair(highlight, key, code, cvalue, value, rest);
    }
  }

  /** Where the first `c` of `s` stands. */
  function FirstIndex(s: string, c: char): (r: nat)
    requires c in s
    ensures r < |s| && s[r] == c && c !in s[..r]
  {
    if s[0] == c then 0
    else
      var i := FirstIndex(s[1..], c);
      assert s[..i + 1] == [s[0]] + s[1..][..i];
      i + 1
  }

  /**
   * Reads one plain `key=value` pair back: the key runs to the first `=`;
   * a value with a space in it is stripped of its surrounding quotes.
   */
  function ParsePair(s: string): Option<(string, string)>
  {
    if '=' !in s then None
    else
      var i := FirstIndex(s, '=');
      var r := s[i + 1..];
      Some((s[..i], if ' ' in r && |r| >= 2 then r[1..|r| - 1] else r))
  }

  lemma {:induction false} FirstIndexAfter(a: string, b: string, c: char)
    requires c !in a && b != [] && b[0] == c
    ensures c in a + b && FirstIndex(a + b, c) == |a|
  {
    assert (a + b)[|a|] == c;
    if a != [] {
      assert (a + b)[1..] == a[1..] + b;
      FirstIndexAfter(a[1..], b, c);
    }
  }

  /** A plain pair reads back as the key and value it was made from, as long as the key holds no `=`. */
  lemma PlainPairRoundTrip(highlight: set<string>, key: string, value: string)
    requires '=' !in key
    ensures ParsePair(KeyValue(false, highlight, key, value)) == Some((key, value))
  {
    QuotedIffSpace(false, highlight, key, value);
    var r := if ' ' in value then "\"" + value + "\"" else value;
    var plain := key + ("=" + r);
    assert KeyValue(false, highlight, key, value) == plain;
    FirstIndexAfter(key, "=" + r, '=');
    assert plain[..|key|] == key;
    assert plain[|key| + 1..] == r;
    if ' ' in value {
      assert r[1..|r| - 1] == value;
    }
  }

  /** A coloured pair, stripped of its codes, reads back the same way. */
  lemma ColoredPairRoundTrip(highlight: set<string>, key: string, code: string, cvalue: string, value: string)
    requires IsCode(code) && '=' !in key && ESC !in key && ESC !in value && Tints(cvalue, value, code)
    ensures ParsePair(Strip(KeyValue(true, highlight, key, cvalue))) == Some((key, value))
  {
    StripColoredPair(highlight, key, code, cvalue, value, "");
    assert KeyValue(true, highlight, key, cvalue) + "" == KeyValue(true, highlight, key, cvalue);
    assert KeyValue(false, highlight, key, value) + "" == KeyValue(false, highlight, key, value);
    PlainPairRoundTrip(highlight, key, value);
  }

  /**
   * A whole line is not always read back unambiguously: a value holding
   * quotes and a space renders the same line as two quote-wrapped values.
   */
  lemma LineAmbiguity()
    ensures Render(false, {}, [("k", "x\" y=\"z")]) == Render(false, {}, [("k", "\"x\""), ("y", "\"z\"")])
  {
    assert ' ' in "x\" y=\"z";
    assert ' ' !in "\"x\"";
    assert ' ' !in "\"z\"";
  }

  /**
   * The coloured line, stripped of its colour codes, is the plain line:
   * the pairs have the same keys, and each coloured value is the plain
   * value, or the plain value painted before rendering (the level word).
   * Whatever follows the line is stripped on its own.
   */
  lemma {:induction false} StripColoredLine(highlight: set<string>, code: string, colored: seq<(string, string)>,
                                            plain: seq<(string, string)>, rest: string)
    requires IsCode(code) && TintedPairs(colored, plain, code) && EscapeFree(plain)
    ensures Strip(Render(true, highlight, colored) + rest) == Render(false, highlight, plain) + Strip(rest)
  {
    if |plain| == 0 {
      assert Render(true, highlight, colored) + rest == rest;
    } else {
      assert colored[0].0 == plain[0].0 && Tints(colored[0].1, plain[0].1, code);
      assert ESC !in plain[0].0 && ESC !in plain[0].1;
      if |plain| == 1 {
        StripColoredPair(highlight, plain[0].0, code, colored[0].1, plain[0].1, rest);
      } else {
        TintedTail(colored, plain, code);
        StripColoredLine(highlight, code, colored[1..], plain[1..], rest);
        StripPairThenRest(highlight, plain[0].0, code, colored[0].1, plain[0].1,
                          Render(true, highlight, colored[1..]), Render(false, highlight, plain[1..]), rest);
      }
    }
  }

  lemma TintedTail(colored: seq<(string, string)>, plain: seq<(string, string)>, code: string)
    requires TintedPairs(colored, plain, code) && EscapeFree(plain) && plain != []
    ensures TintedPairs(colored[1..], plain[1..], code) && EscapeFree(plain[1..])
  {
    forall i | 0 <= i < |plain| - 1 ensures colored[1..][i] == colored[i + 1] && plain[1..][i] == plain[i + 1] { }
  }

  /** A coloured pair followed by the rest of the line, whose stripping is known. */
  lemma StripPairThenRest(highlight: set<string>, key: string, code: string, cvalue: string, value: string,
                          coloredTail: string, plainTail: string, rest: string)
    requires IsCode(code) && ESC !in key && ESC !in value && Tints(cvalue, value, code)
    requires Strip(coloredTail + rest) == plainTail + Strip(rest)
    ensures Strip(KeyValue(true, highlight, key, cvalue) + " " + coloredTail + rest)
            == KeyValue(false, highlight, key, value) + " " + plainTail + Strip(rest)
  {
    var c0, p0 := KeyValue(true, highlight, key, cvalue), KeyValue(false, highlight, key, value);
    assert c0 + " " + coloredTail + rest == c0 + (" " + (coloredTail + rest));
    StripColoredPair(highlight, key, code, cvalue, value, " " + (coloredTail + rest));
    StripClean(" ", coloredTail + rest);
    assert p0 + (" " + (plainTail + Strip(rest))) == p0 + " " + plainTail + Strip(rest);
  }

  // ---------------------------------------------------------------------
  // Levels

  /**
   * The two level tables know exactly the five standard levels, any other
   * level number raises KeyError, and the coloured word stripped of its
   * codes is the plain word.
   */
  lemma LevelTables(levelno: int)
    ensures LevelWordPlain(levelno).Ok? <==> levelno in {DEBUG, INFO, WARNING, ERROR, CRITICAL}
    ensures LevelWordColored(levelno).Ok? <==> LevelWordPlain(levelno).Ok?
    ensures LevelWordPlain(levelno).Err? ==> LevelWordPlain(levelno).error == KeyError
    ensures LevelWordColored(levelno).Ok? ==>
      IsCode(LevelColor(levelno)) && LevelWordColored(levelno).value == Paint(LevelColor(levelno), LevelWordPlain(levelno).value)
    ensures LevelWordColored(levelno).Ok? ==> Strip(LevelWordColored(levelno).value) == LevelWordPlain(levelno).value
  {
    CodesAreCodes();
    if LevelWordColored(levelno).Ok? {
      var w := LevelWordPlain(levelno).value;
      var c := LevelColor(levelno);
      assert LevelWordColored(levelno).value == Paint(c, w) + "";
      StripPainted(c, w, "");
      assert w + "" == w;
    }
  }

  /**
   * In colour, the level of a DEBUG record is painted twice in regular
   * black: once by the level table and once by the value colouring.
   */
  lemma DebugLevelDoublyPainted()
    ensures LevelWord(true, DEBUG).Ok?
    ensures KeyValue(true, {"message"}, "level", LevelWord(true, DEBUG).value)
            == BOLD_BLACK + "level=" + RESET + REGULAR_BLACK + REGULAR_BLACK + "DEBUG" + RESET + RESET
  {
    CodesAreCodes();
    var w := REGULAR_BLACK + "DEBUG" + RESET;
    assert ' ' !in Paint(REGULAR_BLACK, w);
  }
}
